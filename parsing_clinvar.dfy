/** `process_vep_output` of `scripts/parsing_ClinVar.py` with the column lists the script
    hard-codes: the 21 `Extra` fields, the 13-entry renaming and the 34 output columns. */
module ParsingClinVar {
  import opened Wrappers
  import opened Frames
  import opened VepCells
  import opened VepTable

  /** The fields looked up in the `Extra` dictionary, in the order they are added. */
  const ExtraFields: seq<string> := [
    "SYMBOL", "HGNC_ID", "CANONICAL", "SWISSPROT", "UNIPARC", "UNIPROT_ISOFORM",
    "SIFT", "PolyPhen", "am_class", "am_pathogenicity", "BayesDel_addAF_pred",
    "BayesDel_addAF_score", "CADD_PHRED", "CADD_RAW", "ClinPred", "VEST4_rankscore",
    "VEST4_score", "EVE_CLASS", "EVE_SCORE", "PrimateAI", "REVEL"]

  /** The column renaming. */
  const RenameMapping: map<string, string> := map[
    "am_class" := "AM_label",
    "am_pathogenicity" := "AM_score",
    "BayesDel_addAF_pred" := "BayesDel_label",
    "BayesDel_addAF_score" := "BayesDel_score",
    "CADD_PHRED" := "CADD_PHRED_score",
    "CADD_RAW" := "CADD_RAW_score",
    "ClinPred" := "ClinPred_score",
    "VEST4_rankscore" := "VEST4_rankscore",
    "EVE_CLASS" := "EVE_label",
    "EVE_SCORE" := "EVE_score",
    "PrimateAI" := "PrimateAI_score",
    "REVEL" := "REVEL_score",
    "SYMBOL" := "GeneSymbol"]

  /** The renaming read backwards: the extracted field each renamed column comes from. */
  const SourceOf: map<string, string> := map[
    "AM_label" := "am_class",
    "AM_score" := "am_pathogenicity",
    "BayesDel_label" := "BayesDel_addAF_pred",
    "BayesDel_score" := "BayesDel_addAF_score",
    "CADD_PHRED_score" := "CADD_PHRED",
    "CADD_RAW_score" := "CADD_RAW",
    "ClinPred_score" := "ClinPred",
    "VEST4_rankscore" := "VEST4_rankscore",
    "EVE_label" := "EVE_CLASS",
    "EVE_score" := "EVE_SCORE",
    "PrimateAI_score" := "PrimateAI",
    "REVEL_score" := "REVEL",
    "GeneSymbol" := "SYMBOL"]

  /** The first 15 output columns: VEP's own columns, copied from the raw table. */
  const RawColumns: seq<string> := [
    "Existing_variation", "Location", "Gene", "Feature", "Feature_type",
    "Canonical", "Consequence", "Swissprot", "Uniparc", "Uniprot_isoform",
    "cDNA_position", "CDS_position", "Protein_position", "Amino_acids", "Codons"]

  /** The next six: gene symbol, HGNC identifier and the split predictions. */
  const AnnotationColumns: seq<string> := [
    "GeneSymbol", "HGNC_ID", "SIFT_label", "SIFT_score", "PolyPhen_label", "PolyPhen_score"]

  /** The last 13: the pathogenicity scores. */
  const ScoreColumns: seq<string> := [
    "BayesDel_label", "BayesDel_score", "CADD_PHRED_score", "CADD_RAW_score",
    "ClinPred_score", "VEST4_score", "VEST4_rankscore", "EVE_label", "EVE_score",
    "REVEL_score", "PrimateAI_score", "AM_label", "AM_score"]

  /** The output schema, in order. */
  const SelectedColumns: seq<string> := RawColumns + AnnotationColumns + ScoreColumns

  const VepSchema: Schema := Schema(ExtraFields, RenameMapping, SourceOf, SelectedColumns)

  // The same lists as sets, for the membership facts below.

  const ExtraFieldNames: set<string> := {
    "SYMBOL", "HGNC_ID", "CANONICAL", "SWISSPROT", "UNIPARC", "UNIPROT_ISOFORM",
    "SIFT", "PolyPhen", "am_class", "am_pathogenicity", "BayesDel_addAF_pred",
    "BayesDel_addAF_score", "CADD_PHRED", "CADD_RAW", "ClinPred", "VEST4_rankscore",
    "VEST4_score", "EVE_CLASS", "EVE_SCORE", "PrimateAI", "REVEL"}

  /** The renamed fields. */
  const RenamedFields: set<string> := {
    "am_class", "am_pathogenicity", "BayesDel_addAF_pred", "BayesDel_addAF_score", "CADD_PHRED",
    "CADD_RAW", "ClinPred", "VEST4_rankscore", "EVE_CLASS", "EVE_SCORE", "PrimateAI", "REVEL", "SYMBOL"}

  /** The labels they are renamed to. */
  const RenameTargets: set<string> := {
    "AM_label", "AM_score", "BayesDel_label", "BayesDel_score", "CADD_PHRED_score",
    "CADD_RAW_score", "ClinPred_score", "VEST4_rankscore", "EVE_label", "EVE_score",
    "PrimateAI_score", "REVEL_score", "GeneSymbol"}

  const RawNames: set<string> := {
    "Existing_variation", "Location", "Gene", "Feature", "Feature_type",
    "Canonical", "Consequence", "Swissprot", "Uniparc", "Uniprot_isoform",
    "cDNA_position", "CDS_position", "Protein_position", "Amino_acids", "Codons"}

  const AnnotationNames: set<string> := {
    "GeneSymbol", "HGNC_ID", "SIFT_label", "SIFT_score", "PolyPhen_label", "PolyPhen_score"}

  const ScoreNames: set<string> := {
    "BayesDel_label", "BayesDel_score", "CADD_PHRED_score", "CADD_RAW_score",
    "ClinPred_score", "VEST4_score", "VEST4_rankscore", "EVE_label", "EVE_score",
    "REVEL_score", "PrimateAI_score", "AM_label", "AM_score"}

  /** The labels a raw column must not carry: every renaming target except
      `VEST4_rankscore`, which is renamed onto itself. */
  const ShadowedLabels: set<string> := {
    "AM_label", "AM_score", "BayesDel_label", "BayesDel_score", "CADD_PHRED_score",
    "CADD_RAW_score", "ClinPred_score", "EVE_label", "EVE_score",
    "PrimateAI_score", "REVEL_score", "GeneSymbol"}

  // ---------------------------------------------------------------------------------------
  // The lists satisfy what the normaliser relies on

  lemma ExtraFieldNamesAgree()
    ensures ColumnSet(ExtraFields) == ExtraFieldNames
  {
  }

  lemma RenamingKeys()
    ensures RenameMapping.Keys == RenamedFields && SourceOf.Keys == RenameTargets
  {
  }

  lemma RawNamesAgree()
    ensures ColumnSet(RawColumns) == RawNames
  {
  }

  lemma AnnotationNamesAgree()
    ensures ColumnSet(AnnotationColumns) == AnnotationNames
  {
  }

  lemma ScoreNamesAgree()
    ensures ColumnSet(ScoreColumns) == ScoreNames
  {
  }

  /** The output columns as a set. */
  lemma SelectedNames()
    ensures ColumnSet(SelectedColumns) == RawNames + AnnotationNames + ScoreNames
  {
    RawNamesAgree();
    AnnotationNamesAgree();
    ScoreNamesAgree();
    ColumnSetConcat(RawColumns, AnnotationColumns);
    ColumnSetConcat(RawColumns + AnnotationColumns, ScoreColumns);
  }

  lemma RawDistinct()
    ensures Distinct(RawColumns)
  {
  }

  lemma AnnotationDistinct()
    ensures Distinct(AnnotationColumns)
  {
  }

  lemma ScoreDistinct()
    ensures Distinct(ScoreColumns)
  {
  }

  lemma RawNotAnnotation()
    ensures RawNames !! AnnotationNames
  {
  }

  lemma RawNotScore()
    ensures RawNames !! ScoreNames
  {
  }

  lemma AnnotationNotScore()
    ensures AnnotationNames !! ScoreNames
  {
  }

  /** The 34 output columns are distinct. */
  lemma SelectedDistinct()
    ensures |SelectedColumns| == 34 && Distinct(SelectedColumns)
  {
    RawDistinct();
    AnnotationDistinct();
    ScoreDistinct();
    RawNamesAgree();
    AnnotationNamesAgree();
    ScoreNamesAgree();
    RawNotAnnotation();
    RawNotScore();
    AnnotationNotScore();
    SetsApart(RawColumns, AnnotationColumns);
    SetsApart(RawColumns, ScoreColumns);
    SetsApart(AnnotationColumns, ScoreColumns);
    DistinctConcat(RawColumns, AnnotationColumns);
    ApartConcat(RawColumns, AnnotationColumns, ScoreColumns);
    DistinctConcat(RawColumns + AnnotationColumns, ScoreColumns);
  }

  lemma ForwardRenaming()
    ensures forall k :: k in RenameMapping ==> RenameMapping[k] in SourceOf && SourceOf[RenameMapping[k]] == k
  {
  }

  lemma BackwardRenaming()
    ensures forall c :: c in SourceOf ==> SourceOf[c] in RenameMapping && RenameMapping[SourceOf[c]] == c
  {
  }

  lemma RenamedAreFields()
    ensures RenamedFields <= ExtraFieldNames
  {
  }

  lemma PredictionsUntouched()
    ensures PredictionColumns !! ExtraFieldNames
    ensures PredictionColumns !! RenamedFields && PredictionColumns !! RenameTargets
    ensures "VEST4_score" !in RenamedFields && "VEST4_score" !in RenameTargets
  {
  }

  lemma RenamedNotRaw()
    ensures RenamedFields !! RawNames
  {
  }

  lemma RenamedNotAnnotation()
    ensures RenamedFields !! AnnotationNames
  {
  }

  lemma OnlyRankscoreScored()
    ensures RenamedFields * ScoreNames == {"VEST4_rankscore"}
  {
  }

  lemma ShadowedAreTargets()
    ensures RenameTargets - RenamedFields == ShadowedLabels
  {
  }

  lemma ShadowedNotFields()
    ensures ShadowedLabels !! ExtraFieldNames
  {
  }

  lemma PredictedFieldsExtracted()
    ensures "SIFT" in ExtraFields && "PolyPhen" in ExtraFields && "VEST4_score" in ExtraFields
  {
    assert ExtraFields[6] == "SIFT" && ExtraFields[7] == "PolyPhen" && ExtraFields[16] == "VEST4_score";
  }

  lemma RenamedFieldsExtracted()
    ensures forall k :: k in RenameMapping ==> k in ExtraFields
  {
    RenamingKeys();
    RenamedAreFields();
    ExtraFieldNamesAgree();
  }

  lemma PredictionsNotInSchema()
    ensures forall c :: c in PredictionColumns ==> c !in ExtraFields && c !in RenameMapping && c !in SourceOf
    ensures "VEST4_score" !in RenameMapping && "VEST4_score" !in SourceOf
  {
    PredictionsUntouched();
    RenamingKeys();
    ExtraFieldNamesAgree();
  }

  /** Only `VEST4_rankscore` is both an output column and renamed, and it is renamed
      onto itself. */
  lemma SelectedRenamedOntoItself()
    ensures forall c :: c in SelectedColumns && c in RenameMapping ==> c in SourceOf
  {
    RenamingKeys();
    SelectedNames();
    RenamedNotRaw();
    RenamedNotAnnotation();
    OnlyRankscoreScored();
    forall c | c in SelectedColumns && c in RenameMapping
      ensures c in SourceOf
    {
      assert c in ColumnSet(SelectedColumns) && c in RenamedFields;
      assert c in RenamedFields * ScoreNames;
    }
  }

  lemma TargetsNotFields()
    ensures forall c :: c in SourceOf && c !in RenameMapping ==> c !in ExtraFields
  {
    RenamingKeys();
    ShadowedAreTargets();
    ShadowedNotFields();
    ExtraFieldNamesAgree();
  }

  /** The script's lists satisfy `SchemaOk`. */
  lemma VepSchemaOk()
    ensures SchemaOk(VepSchema)
  {
    SelectedDistinct();
    PredictedFieldsExtracted();
    ForwardRenaming();
    RenamedFieldsExtracted();
    BackwardRenaming();
    PredictionsNotInSchema();
    SelectedRenamedOntoItself();
    TargetsNotFields();
  }

  lemma RenamingValues()
    ensures RenameMapping.Values == RenameTargets
  {
    RenamingKeys();
    ForwardRenaming();
    BackwardRenaming();
    forall v | v in RenameMapping.Values
      ensures v in RenameTargets
    {
      var k :| k in RenameMapping && RenameMapping[k] == v;
    }
    forall c | c in RenameTargets
      ensures c in RenameMapping.Values
    {
      assert RenameMapping[SourceOf[c]] == c;
    }
  }

  /** The labels a raw column must not carry are the renaming targets other than
      `VEST4_rankscore`. */
  lemma VepShadowed()
    ensures Shadowed(VepSchema) == ShadowedLabels
  {
    RenamingValues();
    RenamingKeys();
    ShadowedAreTargets();
  }

  // ---------------------------------------------------------------------------------------
  // process_vep_output

  /** The table `process_vep_output(df)` returns for a table `f`. */
  function NormalizeVep(f: Frame): Result<Frame, PyError>
    requires WellFormed(f)
  {
    VepSchemaOk();
    Normalized(VepSchema, f)
  }

  /** The caller's table as `process_vep_output` leaves it when it returns. */
  function PreparedVep(f: Frame): Result<Frame, PyError>
    requires WellFormed(f)
  {
    VepSchemaOk();
    Prepared(VepSchema, f)
  }

  /** `process_vep_output(df)`: it returns the normalised table and leaves `df` extracted,
      split, renamed and VEST4-reduced. */
  method ProcessVepOutput(df: DataFrame) returns (r: Result<Frame, PyError>)
    requires df.Valid()
    modifies df
    ensures r == NormalizeVep(old(df.Value()))
    ensures r.Success? ==> df.Valid() && PreparedVep(old(df.Value())) == Success(df.Value())
  {
    VepSchemaOk();
    r := ProcessTable(VepSchema, df);
  }

  /** The normaliser on the script's lists: it succeeds exactly when the table has an
      `Extra` column, at least one row, no column labelled with one of the 12 shadowed
      labels, and only rows
      whose `Extra` cell and VEST4 list parse; it then returns the 34 output columns in
      order and one normalised row per input row, in order. */
  lemma NormalizeVepMeaning(f: Frame)
    requires WellFormed(f)
    ensures NormalizeVep(f).Success? <==>
      "Extra" in f.columns && |f.rows| > 0 && ColumnSet(f.columns) !! ShadowedLabels && RowsNormalize(f)
    ensures NormalizeVep(f).Success? ==>
      var g := NormalizeVep(f).value;
      && g.columns == SelectedColumns
      && |g.rows| == |f.rows|
      && forall i :: 0 <= i < |f.rows| ==> "Extra" in f.rows[i] && g.rows[i] == NormalizeRow(VepSchema, f.rows[i]).value
  {
    VepSchemaOk();
    VepShadowed();
    NormalizedMeaning(VepSchema, f);
  }

  /** A table with an `Extra` column but no rows raises `ValueError` at the SIFT split. */
  lemma EmptyTableRaises(columns: seq<string>)
    requires Distinct(columns) && "Extra" in columns
    ensures NormalizeVep(Frame(columns, [])) == Failure(ValueError)
  {
  }

  // ---------------------------------------------------------------------------------------
  // The cells of one normalised row

  lemma TargetsSelected()
    ensures RenameTargets <= AnnotationNames + ScoreNames
  {
  }

  lemma RawNotTargets()
    ensures RawNames !! RenameTargets
  {
  }

  lemma RawNotFields()
    ensures RawNames !! ExtraFieldNames
  {
  }

  lemma RawNotPredictions()
    ensures RawNames !! PredictionColumns
  {
  }

  lemma SourceCells(raw: Row, m: map<string, string>, vest: real)
    ensures forall c :: c in SourceOf ==>
      c in SelectedColumns && OutputCell(VepSchema, raw, m, vest, c) == Text(Lookup(m, SourceOf[c]))
  {
    RenamingKeys();
    SelectedNames();
    TargetsSelected();
    PredictionsUntouched();
    forall c | c in SourceOf
      ensures c in SelectedColumns && OutputCell(VepSchema, raw, m, vest, c) == Text(Lookup(m, SourceOf[c]))
    {
      assert c in ColumnSet(SelectedColumns);
      assert c != "VEST4_score" && c !in PredictionColumns;
    }
  }

  lemma HgncSelected()
    ensures "HGNC_ID" in SelectedColumns
  {
    assert "HGNC_ID" in AnnotationColumns by {
      assert AnnotationColumns[1] == "HGNC_ID";
    }
  }

  lemma HgncNotRenamed()
    ensures "HGNC_ID" !in SourceOf
  {
    RenamingKeys();
  }

  lemma HgncExtracted()
    ensures "HGNC_ID" in ExtraFields
  {
    assert ExtraFields[1] == "HGNC_ID";
  }

  lemma HgncCell(raw: Row, m: map<string, string>, vest: real)
    ensures OutputCell(VepSchema, raw, m, vest, "HGNC_ID") == Text(Lookup(m, "HGNC_ID"))
  {
    HgncNotRenamed();
    HgncExtracted();
    FieldCell(VepSchema, raw, m, vest, "HGNC_ID");
  }

  lemma PredictionsSelected()
    ensures forall c :: c in PredictionColumns ==> c in SelectedColumns
  {
    SelectedNames();
    assert forall c :: c in PredictionColumns ==> c in ColumnSet(SelectedColumns);
  }

  lemma PredictionCells(raw: Row, m: map<string, string>, vest: real)
    ensures (OutputCell(VepSchema, raw, m, vest, "SIFT_label"), OutputCell(VepSchema, raw, m, vest, "SIFT_score"))
      == SplitPredictionScore(Text(Lookup(m, "SIFT")))
    ensures (OutputCell(VepSchema, raw, m, vest, "PolyPhen_label"), OutputCell(VepSchema, raw, m, vest, "PolyPhen_score"))
      == SplitPredictionScore(Text(Lookup(m, "PolyPhen")))
  {
  }

  lemma Vest4Cell(raw: Row, m: map<string, string>, vest: real)
    ensures "VEST4_score" in SelectedColumns
    ensures OutputCell(VepSchema, raw, m, vest, "VEST4_score") == Number(vest)
  {
    assert "VEST4_score" in ScoreColumns by {
      assert ScoreColumns[5] == "VEST4_score";
    }
  }

  lemma RawCells(raw: Row, m: map<string, string>, vest: real)
    ensures forall c :: c in RawNames ==>
      c in SelectedColumns && OutputCell(VepSchema, raw, m, vest, c) == if c in raw then raw[c] else Text("NA")
  {
    RenamingKeys();
    SelectedNames();
    ExtraFieldNamesAgree();
    RawNotTargets();
    RawNotFields();
    RawNotPredictions();
    forall c | c in RawNames
      ensures c in SelectedColumns && OutputCell(VepSchema, raw, m, vest, c) == if c in raw then raw[c] else Text("NA")
    {
      assert c in ColumnSet(SelectedColumns);
      assert c != "VEST4_score" && c !in PredictionColumns && c !in SourceOf && c !in ExtraFields;
    }
  }

  /** The cells of a normalised row: each renamed column is its source field's `Extra`
      value or `NA`, and so is `HGNC_ID`; the SIFT and PolyPhen columns split the `Extra`
      value; `VEST4_score` is the reduced VEST4 list; each of the first 15 output columns,
      `Canonical`, `Swissprot`, `Uniparc` and `Uniprot_isoform` among them, is the raw row's
      cell of that name, or `NA` without one. */
  lemma NormalizedVepRow(raw: Row)
    requires "Extra" in raw && NormalizeRow(VepSchema, raw).Success?
    ensures
      var m := ExtractExtraFields(raw["Extra"]).value;
      var r := NormalizeRow(VepSchema, raw).value;
      && r.Keys == RawNames + AnnotationNames + ScoreNames
      && (forall c :: c in SourceOf ==> c in r && r[c] == Text(Lookup(m, SourceOf[c])))
      && r["HGNC_ID"] == Text(Lookup(m, "HGNC_ID"))
      && (r["SIFT_label"], r["SIFT_score"]) == SplitPredictionScore(Text(Lookup(m, "SIFT")))
      && (r["PolyPhen_label"], r["PolyPhen_score"]) == SplitPredictionScore(Text(Lookup(m, "PolyPhen")))
      && r["VEST4_score"] == Number(ParseVest4Score(Lookup(m, "VEST4_score")).value)
      && (forall c :: c in RawNames ==> r[c] == if c in raw then raw[c] else Text("NA"))
  {
    var m := ExtractExtraFields(raw["Extra"]).value;
    var vest := ParseVest4Score(Lookup(m, "VEST4_score")).value;
    NormalizeRowOutputCells(VepSchema, raw);
    SelectedNames();
    SourceCells(raw, m, vest);
    HgncSelected();
    HgncCell(raw, m, vest);
    PredictionsSelected();
    PredictionCells(raw, m, vest);
    Vest4Cell(raw, m, vest);
    RawCells(raw, m, vest);
  }
}
