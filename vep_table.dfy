/** `process_vep_output` of `scripts/parsing_ClinVar.py`, written against the column lists the
    function hard-codes. The lists are gathered in a `Schema`; `SchemaOk` names what the
    normaliser relies on in them, and `ParsingClinVar` supplies the script's own lists. */
module VepTable {
  import opened Wrappers
  import opened Frames
  import opened VepCells

  /** The lists `process_vep_output` works with: the `Extra` fields it extracts, in order;
      the column renaming and the same renaming read backwards; the output columns, in order. */
  datatype Schema = Schema(
    fields: seq<string>,
    rename: map<string, string>,
    sourceOf: map<string, string>,
    selected: seq<string>)

  /** The columns the SIFT and PolyPhen values are split into. */
  const PredictionColumns: set<string> := {"SIFT_label", "SIFT_score", "PolyPhen_label", "PolyPhen_score"}

  /** What the normaliser relies on in its lists: distinct output columns; `SIFT`, `PolyPhen`
      and `VEST4_score` among the fields; a renaming of fields whose inverse is `sourceOf`;
      split columns and `VEST4_score` untouched by the renaming; no output column renamed
      away unless the renaming also produces it; no renaming target that is itself a field
      unless it is renamed away too. */
  predicate SchemaOk(s: Schema) {
    && Distinct(s.selected)
    && "SIFT" in s.fields && "PolyPhen" in s.fields && "VEST4_score" in s.fields
    && (forall k :: k in s.rename ==> k in s.fields && s.rename[k] in s.sourceOf && s.sourceOf[s.rename[k]] == k)
    && (forall c :: c in s.sourceOf ==> s.sourceOf[c] in s.rename && s.rename[s.sourceOf[c]] == c)
    && (forall c :: c in PredictionColumns ==> c !in s.fields && c !in s.rename && c !in s.sourceOf)
    && "VEST4_score" !in s.rename && "VEST4_score" !in s.sourceOf
    && (forall c :: c in s.selected && c in s.rename ==> c in s.sourceOf)
    && (forall c :: c in s.sourceOf && c !in s.rename ==> c !in s.fields)
  }

  /** Labels the renaming introduces without renaming them away: a raw column with one of
      these names ends up beside a renamed one under the same label. */
  function Shadowed(s: Schema): set<string> {
    s.rename.Values - s.rename.Keys
  }

  /** Consequences of `SchemaOk` the proofs below use. */
  lemma SchemaFacts(s: Schema)
    requires SchemaOk(s)
    ensures Injective(s.rename) && s.rename.Keys <= ColumnSet(s.fields)
    ensures forall c :: c in s.rename.Values ==> c in s.sourceOf
    ensures forall c :: c in Shadowed(s) ==> c in s.sourceOf && c !in s.fields && c !in PredictionColumns
  {
    forall c | c in s.rename.Values
      ensures c in s.sourceOf
    {
      var k :| k in s.rename && s.rename[k] == c;
    }
  }

  // ---------------------------------------------------------------------------------------
  // The table, column by column

  /** `extracted.apply(lambda x: x.get(field, 'NA'))` */
  function FieldColumn(extracted: seq<map<string, string>>, field: string): (col: seq<Cell>)
    ensures |col| == |extracted|
    ensures forall i :: 0 <= i < |col| ==> col[i] == Text(Lookup(extracted[i], field))
  {
    seq(|extracted|, i requires 0 <= i < |extracted| => Text(Lookup(extracted[i], field)))
  }

  /** The frame after the loop has added `fields`, one column at a time. */
  function AddFields(f: Frame, extracted: seq<map<string, string>>, fields: seq<string>): (g: Frame)
    requires WellFormed(f) && |extracted| == |f.rows|
    ensures WellFormed(g) && |g.rows| == |f.rows|
    ensures ColumnSet(g.columns) == ColumnSet(f.columns) + ColumnSet(fields)
  {
    if fields == [] then f
    else
      var n := |fields| - 1;
      assert ColumnSet(fields) == ColumnSet(fields[..n]) + {fields[n]};
      WithColumn(AddFields(f, extracted, fields[..n]), fields[n], FieldColumn(extracted, fields[n]))
  }

  /** After the extraction loop each field holds the row's value or `NA`, and every other
      cell is the raw one. */
  lemma {:induction false} AddedCells(f: Frame, extracted: seq<map<string, string>>, fields: seq<string>)
    requires WellFormed(f) && |extracted| == |f.rows|
    ensures var g := AddFields(f, extracted, fields);
      forall i, c :: 0 <= i < |g.rows| && c in g.rows[i] ==>
        g.rows[i][c] == if c in fields then Text(Lookup(extracted[i], c)) else f.rows[i][c]
  {
    if fields != [] {
      var n := |fields| - 1;
      assert fields == fields[..n] + [fields[n]];
      AddedCells(f, extracted, fields[..n]);
      AddedColumn(f, AddFields(f, extracted, fields[..n]), extracted, fields[..n], fields[n], fields);
    }
  }

  /** One step of the extraction loop keeps every cell either a field's value or the raw one. */
  lemma AddedColumn(f: Frame, h: Frame, extracted: seq<map<string, string>>, done: seq<string>, name: string,
                    fields: seq<string>)
    requires fields == done + [name]
    requires WellFormed(f) && WellFormed(h) && |h.rows| == |f.rows| == |extracted|
    requires ColumnSet(h.columns) == ColumnSet(f.columns) + ColumnSet(done)
    requires forall i, c :: 0 <= i < |h.rows| && c in h.rows[i] ==>
      h.rows[i][c] == if c in done then Text(Lookup(extracted[i], c)) else f.rows[i][c]
    ensures var g := WithColumn(h, name, FieldColumn(extracted, name));
      forall i, c :: 0 <= i < |g.rows| && c in g.rows[i] ==>
        g.rows[i][c] == if c in fields then Text(Lookup(extracted[i], c)) else f.rows[i][c]
  {
    var g := WithColumn(h, name, FieldColumn(extracted, name));
    forall i, c | 0 <= i < |g.rows| && c in g.rows[i]
      ensures g.rows[i][c] == if c in fields then Text(Lookup(extracted[i], c)) else f.rows[i][c]
    {
      assert c in fields <==> c in done || c == name;
    }
  }

  function Labels(col: seq<Cell>): (r: seq<Cell>)
    ensures |r| == |col| && forall i :: 0 <= i < |r| ==> r[i] == SplitPredictionScore(col[i]).0
  {
    seq(|col|, i requires 0 <= i < |col| => SplitPredictionScore(col[i]).0)
  }

  function Scores(col: seq<Cell>): (r: seq<Cell>)
    ensures |r| == |col| && forall i :: 0 <= i < |r| ==> r[i] == SplitPredictionScore(col[i]).1
  {
    seq(|col|, i requires 0 <= i < |col| => SplitPredictionScore(col[i]).1)
  }

  /** `df[[labelColumn, scoreColumn]] = df[source].apply(split_prediction_score)`: two new
      columns holding the halves of the split, every other cell unchanged. */
  function WithPrediction(f: Frame, source: string, labelColumn: string, scoreColumn: string): (g: Frame)
    requires WellFormed(f) && source in f.columns && labelColumn != scoreColumn
    ensures WellFormed(g) && |g.rows| == |f.rows|
    ensures ColumnSet(g.columns) == ColumnSet(f.columns) + {labelColumn, scoreColumn}
    ensures forall i, c :: 0 <= i < |g.rows| && c in g.rows[i] ==>
      g.rows[i][c] ==
        if c == labelColumn then SplitPredictionScore(f.rows[i][source]).0
        else if c == scoreColumn then SplitPredictionScore(f.rows[i][source]).1
        else f.rows[i][c]
  {
    var col := Column(f, source);
    WithColumn(WithColumn(f, labelColumn, Labels(col)), scoreColumn, Scores(col))
  }

  /** The frame after the fields are extracted and the predictions split, before the rename. */
  function Expanded(s: Schema, f: Frame, extracted: seq<map<string, string>>): (g: Frame)
    requires SchemaOk(s) && WellFormed(f) && |extracted| == |f.rows|
    ensures WellFormed(g) && |g.rows| == |f.rows|
  {
    var f1 := AddFields(f, extracted, s.fields);
    assert "SIFT" in ColumnSet(f1.columns) && "PolyPhen" in ColumnSet(f1.columns);
    assert "SIFT" in f1.columns;
    var f2 := WithPrediction(f1, "SIFT", "SIFT_label", "SIFT_score");
    assert "PolyPhen" in ColumnSet(f2.columns);
    assert "PolyPhen" in f2.columns;
    WithPrediction(f2, "PolyPhen", "PolyPhen_label", "PolyPhen_score")
  }

  /** `df['Extra'].apply(extract_extra_fields)`: raises `KeyError` without an `Extra`
      column, and otherwise fails exactly when some row's `Extra` cell does not parse. */
  function ExtractAll(f: Frame): (r: Result<seq<map<string, string>>, PyError>)
    requires WellFormed(f)
    ensures r.Success? <==>
      "Extra" in f.columns && forall i :: 0 <= i < |f.rows| ==> ExtractExtraFields(f.rows[i]["Extra"]).Success?
    ensures r.Success? ==>
      && |r.value| == |f.rows|
      && forall i :: 0 <= i < |f.rows| ==> ExtractExtraFields(f.rows[i]["Extra"]) == Success(r.value[i])
  {
    if "Extra" !in f.columns then Failure(KeyError("Extra"))
    else ApplyAll(Column(f, "Extra"), ExtractExtraFields)
  }

  /** The extracted and split table after `rename`: `ValueError` (raised later by pandas,
      at the `reindex`) exactly when the raw table carries a label that the rename also
      produces; otherwise the table still has `VEST4_score`, holding each row's field. */
  function Renaming(s: Schema, f: Frame, extracted: seq<map<string, string>>): (r: Result<Frame, PyError>)
    requires SchemaOk(s) && WellFormed(f) && |extracted| == |f.rows|
    ensures r.Success? <==> ColumnSet(f.columns) !! Shadowed(s)
    ensures r.Success? ==>
      && WellFormed(r.value) && |r.value.rows| == |f.rows|
      && "VEST4_score" in r.value.columns
      && forall i :: 0 <= i < |f.rows| ==> r.value.rows[i]["VEST4_score"] == FieldColumn(extracted, "VEST4_score")[i]
  {
    var e := Expanded(s, f, extracted);
    ExpandedClash(s, f, extracted);
    if !Distinct(RenamedColumns(e.columns, s.rename)) then Failure(ValueError)
    else
      RenamedVest4(s, f, extracted);
      Success(Renamed(e, s.rename))
  }

  /** `df['VEST4_score'] = df['VEST4_score'].apply(parse_vest4_score)` */
  function ReduceVest4(f: Frame): (r: Result<Frame, PyError>)
    requires WellFormed(f)
    ensures r.Success? ==> WellFormed(r.value) && |r.value.rows| == |f.rows|
  {
    if "VEST4_score" !in f.columns then Failure(KeyError("VEST4_score"))
    else
      match ApplyAll(Column(f, "VEST4_score"), VestCell)
      case Failure(e) => Failure(e)
      case Success(vest) => Success(WithColumn(f, "VEST4_score", vest))
  }

  /** The caller's DataFrame as `process_vep_output` leaves it on a run that does not raise:
      the extracted, split, renamed and VEST4-reduced table, before the projection. On a
      table without rows the split of the empty `SIFT` column gives no columns to assign to
      the two labels, and pandas raises `ValueError`. */
  function Prepared(s: Schema, f: Frame): (r: Result<Frame, PyError>)
    requires SchemaOk(s) && WellFormed(f)
    ensures "Extra" !in f.columns ==> r == Failure(KeyError("Extra"))
    ensures "Extra" in f.columns && |f.rows| == 0 ==> r == Failure(ValueError)
    ensures r.Success? ==> WellFormed(r.value) && |r.value.rows| == |f.rows|
  {
    match ExtractAll(f)
    case Failure(e) => Failure(e)
    case Success(extracted) =>
      if |f.rows| == 0 then Failure(ValueError)
      else match Renaming(s, f, extracted)
      case Failure(e) => Failure(e)
      case Success(renamed) => ReduceVest4(renamed)
  }

  /** The table `process_vep_output` returns: the prepared table projected onto the output
      columns, absent ones filled with `NA`. */
  function Normalized(s: Schema, f: Frame): (r: Result<Frame, PyError>)
    requires SchemaOk(s) && WellFormed(f)
    ensures "Extra" !in f.columns ==> r == Failure(KeyError("Extra"))
    ensures "Extra" in f.columns && |f.rows| == 0 ==> r == Failure(ValueError)
    ensures r.Success? ==> WellFormed(r.value) && r.value.columns == s.selected && |r.value.rows| == |f.rows|
  {
    match Prepared(s, f)
    case Failure(e) => Failure(e)
    case Success(g) => Success(Reindexed(g, s.selected, Text("NA")))
  }

  /** The body of `process_vep_output(df)`: updates `df` in place column by column and
      returns its projection onto the output columns. */
  method ProcessTable(s: Schema, df: DataFrame) returns (r: Result<Frame, PyError>)
    requires SchemaOk(s) && df.Valid()
    modifies df
    ensures r == Normalized(s, old(df.Value()))
    ensures r.Success? ==> df.Valid() && Prepared(s, old(df.Value())) == Success(df.Value())
  {
    ghost var f := df.Value();
    if "Extra" !in df.columns {
      return Failure(KeyError("Extra"));
    }
    var extra := df.Get("Extra");
    var extracted := ApplyAll(extra, ExtractExtraFields);
    if extracted.Failure? {
      return Failure(extracted.error);
    }
    var ex := extracted.value;
    AddFieldColumns(df, ex, s.fields);
    if |df.rows| == 0 {
      // the split of an empty column yields no columns for the two labels
      return Failure(ValueError);
    }
    ghost var f1 := df.Value();
    assert "SIFT" in ColumnSet(f1.columns) && "PolyPhen" in ColumnSet(f1.columns);
    SplitPrediction(df, "SIFT", "SIFT_label", "SIFT_score");
    ghost var f2 := df.Value();
    assert "PolyPhen" in ColumnSet(f2.columns);
    SplitPrediction(df, "PolyPhen", "PolyPhen_label", "PolyPhen_score");
    assert df.Value() == Expanded(s, f, ex);
    if !Distinct(RenamedColumns(df.columns, s.rename)) {
      // pandas lets the rename produce two columns with one label; `reindex` then raises
      return Failure(ValueError);
    }
    df.Rename(s.rename);
    if "VEST4_score" !in df.columns {
      return Failure(KeyError("VEST4_score"));
    }
    var vest := df.Get("VEST4_score");
    var parsed := ApplyAll(vest, VestCell);
    if parsed.Failure? {
      return Failure(parsed.error);
    }
    df.Assign("VEST4_score", parsed.value);
    var projected := df.Reindex(s.selected, Text("NA"));
    return Success(projected);
  }

  /** The loop `for field in extra_fields: df[field] = extracted.apply(…)`. */
  method AddFieldColumns(df: DataFrame, extracted: seq<map<string, string>>, fields: seq<string>)
    requires df.Valid() && |extracted| == |df.rows|
    modifies df
    ensures df.Valid() && df.Value() == AddFields(old(df.Value()), extracted, fields)
  {
    ghost var f := df.Value();
    for k := 0 to |fields|
      invariant df.Valid() && df.Value() == AddFields(f, extracted, fields[..k])
    {
      assert fields[..k + 1][..k] == fields[..k];
      df.Assign(fields[k], FieldColumn(extracted, fields[k]));
    }
    assert fields[..|fields|] == fields;
  }

  /** `df[[labelColumn, scoreColumn]] = df[source].apply(lambda x: pd.Series(split_prediction_score(x)))` */
  method SplitPrediction(df: DataFrame, source: string, labelColumn: string, scoreColumn: string)
    requires df.Valid() && source in df.columns && labelColumn != scoreColumn
    modifies df
    ensures df.Valid() && df.Value() == WithPrediction(old(df.Value()), source, labelColumn, scoreColumn)
  {
    var col := df.Get(source);
    df.Assign(labelColumn, Labels(col));
    df.Assign(scoreColumn, Scores(col));
  }

  // ---------------------------------------------------------------------------------------
  // The normaliser row by row

  /** The cell of split column `c` for a row whose `Extra` dictionary is `m`. */
  function PredictionCell(m: map<string, string>, c: string): Cell {
    var source := if c == "SIFT_label" || c == "SIFT_score" then "SIFT" else "PolyPhen";
    var split := SplitPredictionScore(Text(Lookup(m, source)));
    if c == "SIFT_label" || c == "PolyPhen_label" then split.0 else split.1
  }

  /** The output cell of column `c` for a raw row whose `Extra` dictionary is `m` and whose
      VEST4 list reduces to `vest`. */
  function OutputCell(s: Schema, raw: Row, m: map<string, string>, vest: real, c: string): Cell {
    if c == "VEST4_score" then Number(vest)
    else if c in PredictionColumns then PredictionCell(m, c)
    else if c in s.sourceOf then Text(Lookup(m, s.sourceOf[c]))
    else if c in s.fields then Text(Lookup(m, c))
    else if c in raw then raw[c]
    else Text("NA")
  }

  /** A raw row normalises without an error: its `Extra` cell parses and its VEST4 list
      reduces. */
  predicate RowNormalizes(raw: Row)
    requires "Extra" in raw
  {
    match ExtractExtraFields(raw["Extra"])
    case Success(m) => ParseVest4Score(Lookup(m, "VEST4_score")).Success?
    case Failure(_) => false
  }

  /** Every row of a table with an `Extra` column normalises without an error. */
  predicate RowsNormalize(f: Frame)
    requires WellFormed(f) && "Extra" in f.columns
  {
    forall i :: 0 <= i < |f.rows| ==> "Extra" in f.rows[i] && RowNormalizes(f.rows[i])
  }

  /** One raw row as the normaliser turns it into an output row: it fails exactly when the
      row's `Extra` cell or VEST4 list does not parse, and otherwise has exactly the output
      columns, each holding `OutputCell`. */
  function NormalizeRow(s: Schema, raw: Row): (r: Result<Row, PyError>)
    requires "Extra" in raw
    ensures r.Success? <==> RowNormalizes(raw)
    ensures r.Success? ==> r.value.Keys == ColumnSet(s.selected)
  {
    match ExtractExtraFields(raw["Extra"])
    case Failure(e) => Failure(e)
    case Success(m) =>
      match ParseVest4Score(Lookup(m, "VEST4_score"))
      case Failure(e) => Failure(e)
      case Success(vest) =>
        var row := map c | c in s.selected :: OutputCell(s, raw, m, vest, c);
        Success(row)
  }

  // ---------------------------------------------------------------------------------------
  // The table-level pipeline against the row-level reference

  /** After the extraction loop and the two splits, the table has its own columns, the
      fields and the four split columns. */
  lemma ExpandedColumns(s: Schema, f: Frame, extracted: seq<map<string, string>>)
    requires SchemaOk(s) && WellFormed(f) && |extracted| == |f.rows|
    ensures ColumnSet(Expanded(s, f, extracted).columns) == ColumnSet(f.columns) + ColumnSet(s.fields) + PredictionColumns
  {
  }

  /** The four split cells of row `i` split the row's `SIFT` and `PolyPhen` values. */
  lemma ExpandedPredictionCells(s: Schema, f: Frame, extracted: seq<map<string, string>>, i: int)
    requires SchemaOk(s) && WellFormed(f) && |extracted| == |f.rows| && 0 <= i < |f.rows|
    ensures var g := Expanded(s, f, extracted);
      && PredictionColumns <= g.rows[i].Keys
      && g.rows[i]["SIFT_label"] == SplitPredictionScore(Text(Lookup(extracted[i], "SIFT"))).0
      && g.rows[i]["SIFT_score"] == SplitPredictionScore(Text(Lookup(extracted[i], "SIFT"))).1
      && g.rows[i]["PolyPhen_label"] == SplitPredictionScore(Text(Lookup(extracted[i], "PolyPhen"))).0
      && g.rows[i]["PolyPhen_score"] == SplitPredictionScore(Text(Lookup(extracted[i], "PolyPhen"))).1
  {
    var f1 := AddFields(f, extracted, s.fields);
    assert "SIFT" in ColumnSet(f1.columns) && "PolyPhen" in ColumnSet(f1.columns);
    var f2 := WithPrediction(f1, "SIFT", "SIFT_label", "SIFT_score");
    assert "PolyPhen" in ColumnSet(f2.columns);
    var g := WithPrediction(f2, "PolyPhen", "PolyPhen_label", "PolyPhen_score");
    assert g == Expanded(s, f, extracted);
    var sift := Text(Lookup(extracted[i], "SIFT"));
    var polyphen := Text(Lookup(extracted[i], "PolyPhen"));
    AddedField(f, extracted, s.fields, i, "SIFT");
    AddedField(f, extracted, s.fields, i, "PolyPhen");
    assert "SIFT_label" in f2.rows[i] && f2.rows[i]["SIFT_label"] == SplitPredictionScore(sift).0;
    assert "SIFT_score" in f2.rows[i] && f2.rows[i]["SIFT_score"] == SplitPredictionScore(sift).1;
    assert "PolyPhen" in f2.rows[i] && f2.rows[i]["PolyPhen"] == polyphen;
    assert g.rows[i]["SIFT_label"] == f2.rows[i]["SIFT_label"];
    assert g.rows[i]["SIFT_score"] == f2.rows[i]["SIFT_score"];
  }

  /** After the extraction loop a field holds the row's value or `NA`; every other cell is
      the raw one. */
  lemma AddedField(f: Frame, extracted: seq<map<string, string>>, fields: seq<string>, i: int, c: string)
    requires WellFormed(f) && |extracted| == |f.rows| && 0 <= i < |f.rows| && (c in fields || c in f.rows[i])
    ensures var g := AddFields(f, extracted, fields);
      c in g.rows[i] && g.rows[i][c] == if c in fields then Text(Lookup(extracted[i], c)) else f.rows[i][c]
  {
    AddedCells(f, extracted, fields);
  }

  /** An extracted field that is neither split nor renamed keeps its `Extra` value. */
  lemma FieldCell(s: Schema, raw: Row, m: map<string, string>, vest: real, c: string)
    requires c != "VEST4_score" && c !in PredictionColumns && c !in s.sourceOf && c in s.fields
    ensures OutputCell(s, raw, m, vest, c) == Text(Lookup(m, c))
  {
  }

  lemma PredictionCellValues(m: map<string, string>)
    ensures PredictionCell(m, "SIFT_label") == SplitPredictionScore(Text(Lookup(m, "SIFT"))).0
    ensures PredictionCell(m, "SIFT_score") == SplitPredictionScore(Text(Lookup(m, "SIFT"))).1
    ensures PredictionCell(m, "PolyPhen_label") == SplitPredictionScore(Text(Lookup(m, "PolyPhen"))).0
    ensures PredictionCell(m, "PolyPhen_score") == SplitPredictionScore(Text(Lookup(m, "PolyPhen"))).1
  {
  }

  lemma ExpandedPredictionCell(s: Schema, f: Frame, extracted: seq<map<string, string>>, i: int, c: string)
    requires SchemaOk(s) && WellFormed(f) && |extracted| == |f.rows|
    requires 0 <= i < |f.rows| && c in PredictionColumns
    ensures c in Expanded(s, f, extracted).rows[i]
    ensures Expanded(s, f, extracted).rows[i][c] == PredictionCell(extracted[i], c)
  {
    ExpandedPredictionCells(s, f, extracted, i);
    SplitCell(Expanded(s, f, extracted).rows[i], extracted[i], c);
  }

  /** A row whose four split cells split its `SIFT` and `PolyPhen` values holds
      `PredictionCell` in each of them. */
  lemma SplitCell(row: Row, m: map<string, string>, c: string)
    requires c in PredictionColumns && PredictionColumns <= row.Keys
    requires row["SIFT_label"] == SplitPredictionScore(Text(Lookup(m, "SIFT"))).0
    requires row["SIFT_score"] == SplitPredictionScore(Text(Lookup(m, "SIFT"))).1
    requires row["PolyPhen_label"] == SplitPredictionScore(Text(Lookup(m, "PolyPhen"))).0
    requires row["PolyPhen_score"] == SplitPredictionScore(Text(Lookup(m, "PolyPhen"))).1
    ensures row[c] == PredictionCell(m, c)
  {
    PredictionCellValues(m);
    if c == "SIFT_label" {
    } else if c == "SIFT_score" {
    } else if c == "PolyPhen_label" {
    } else {
      assert c == "PolyPhen_score";
    }
  }

  lemma ExpandedOtherCell(s: Schema, f: Frame, extracted: seq<map<string, string>>, i: int, c: string)
    requires SchemaOk(s) && WellFormed(f) && |extracted| == |f.rows|
    requires 0 <= i < |f.rows| && c in Expanded(s, f, extracted).rows[i] && c !in PredictionColumns
    ensures Expanded(s, f, extracted).rows[i][c] ==
      if c in s.fields then Text(Lookup(extracted[i], c)) else f.rows[i][c]
  {
    var f1 := AddFields(f, extracted, s.fields);
    assert "SIFT" in ColumnSet(f1.columns) && "PolyPhen" in ColumnSet(f1.columns);
    var f2 := WithPrediction(f1, "SIFT", "SIFT_label", "SIFT_score");
    assert "PolyPhen" in ColumnSet(f2.columns);
    var g := WithPrediction(f2, "PolyPhen", "PolyPhen_label", "PolyPhen_score");
    assert g == Expanded(s, f, extracted);
    assert g.rows[i][c] == f2.rows[i][c] == f1.rows[i][c];
    assert c in ColumnSet(f1.columns);
    assert c in s.fields || c in f.rows[i];
    AddedField(f, extracted, s.fields, i, c);
  }

  /** Every cell of the expanded table: a split cell, a field's value or `NA`, or the raw cell. */
  lemma ExpandedCell(s: Schema, f: Frame, extracted: seq<map<string, string>>, i: int, c: string)
    requires SchemaOk(s) && WellFormed(f) && |extracted| == |f.rows|
    requires 0 <= i < |f.rows| && c in Expanded(s, f, extracted).rows[i]
    ensures Expanded(s, f, extracted).rows[i][c] ==
      if c in PredictionColumns then PredictionCell(extracted[i], c)
      else if c in s.fields then Text(Lookup(extracted[i], c))
      else f.rows[i][c]
  {
    if c in PredictionColumns {
      ExpandedPredictionCell(s, f, extracted, i, c);
    } else {
      ExpandedOtherCell(s, f, extracted, i, c);
    }
  }

  /** The rename leaves the labels distinct exactly when the raw table has none of the
      shadowed labels. */
  lemma ExpandedClash(s: Schema, f: Frame, extracted: seq<map<string, string>>)
    requires SchemaOk(s) && WellFormed(f) && |extracted| == |f.rows|
    ensures Distinct(RenamedColumns(Expanded(s, f, extracted).columns, s.rename))
      <==> ColumnSet(f.columns) !! Shadowed(s)
  {
    var g := Expanded(s, f, extracted);
    ExpandedColumns(s, f, extracted);
    SchemaFacts(s);
    RenamedDistinct(g.columns, s.rename);
    assert ColumnSet(g.columns) !! Shadowed(s) <==> ColumnSet(f.columns) !! Shadowed(s);
  }

  /** Every output column other than `VEST4_score`, read from the renamed table (or `NA`
      where it lacks the column), is the row-level reference cell. */
  lemma RenamedOutputCell(s: Schema, f: Frame, extracted: seq<map<string, string>>, i: int, c: string, vest: real)
    requires SchemaOk(s) && WellFormed(f) && |extracted| == |f.rows| && 0 <= i < |f.rows|
    requires Distinct(RenamedColumns(Expanded(s, f, extracted).columns, s.rename))
    requires c in s.selected && c != "VEST4_score"
    ensures var g := Renamed(Expanded(s, f, extracted), s.rename);
      (if c in g.columns then g.rows[i][c] else Text("NA")) == OutputCell(s, f.rows[i], extracted[i], vest, c)
  {
    var e := Expanded(s, f, extracted);
    var g := Renamed(e, s.rename);
    ExpandedColumns(s, f, extracted);
    SchemaFacts(s);
    if c in PredictionColumns {
      RenamedUntouched(e, s.rename, c);
      ExpandedCell(s, f, extracted, i, c);
    } else if c in s.sourceOf {
      var x := s.sourceOf[c];
      RenamedSource(e, s.rename, x);
      ExpandedCell(s, f, extracted, i, x);
    } else {
      RenamedUntouched(e, s.rename, c);
      if c in g.columns {
        ExpandedCell(s, f, extracted, i, c);
      }
    }
  }

  /** After the rename the table still has `VEST4_score`, holding each row's `Extra` value. */
  lemma RenamedVest4(s: Schema, f: Frame, extracted: seq<map<string, string>>)
    requires SchemaOk(s) && WellFormed(f) && |extracted| == |f.rows|
    requires Distinct(RenamedColumns(Expanded(s, f, extracted).columns, s.rename))
    ensures var r := Renamed(Expanded(s, f, extracted), s.rename);
      && "VEST4_score" in r.columns
      && forall i :: 0 <= i < |r.rows| ==> r.rows[i]["VEST4_score"] == FieldColumn(extracted, "VEST4_score")[i]
  {
    var e := Expanded(s, f, extracted);
    SchemaFacts(s);
    ExpandedVest4(s, f, extracted);
    RenamedColumnCells(e, s.rename, "VEST4_score", FieldColumn(extracted, "VEST4_score"));
  }

  /** Before the rename, `VEST4_score` holds each row's `Extra` value. */
  lemma ExpandedVest4(s: Schema, f: Frame, extracted: seq<map<string, string>>)
    requires SchemaOk(s) && WellFormed(f) && |extracted| == |f.rows|
    ensures var e := Expanded(s, f, extracted);
      && "VEST4_score" in e.columns
      && forall i :: 0 <= i < |e.rows| ==> e.rows[i]["VEST4_score"] == FieldColumn(extracted, "VEST4_score")[i]
  {
    var e := Expanded(s, f, extracted);
    ExpandedColumns(s, f, extracted);
    assert "VEST4_score" in ColumnSet(e.columns);
    forall i | 0 <= i < |e.rows|
      ensures e.rows[i]["VEST4_score"] == FieldColumn(extracted, "VEST4_score")[i]
    {
      ExpandedOtherCell(s, f, extracted, i, "VEST4_score");
    }
  }

  /** The normalised row is the reference cell of every output column. */
  lemma NormalizeRowOutputCells(s: Schema, raw: Row)
    requires "Extra" in raw && NormalizeRow(s, raw).Success?
    ensures var m := ExtractExtraFields(raw["Extra"]).value;
      var v := ParseVest4Score(Lookup(m, "VEST4_score")).value;
      var n := NormalizeRow(s, raw).value;
      && n.Keys == ColumnSet(s.selected)
      && forall c :: c in s.selected ==> n[c] == OutputCell(s, raw, m, v, c)
  {
  }

  /** The output row of row `i`, built from the renamed table and the reduced VEST4 column,
      is the normalised input row. */
  lemma ProjectedRow(s: Schema, f: Frame, extracted: seq<map<string, string>>, r: Frame, vest: seq<Cell>, i: int)
    requires SchemaOk(s) && WellFormed(f) && |extracted| == |f.rows| && 0 <= i < |f.rows|
    requires "Extra" in f.rows[i] && ExtractExtraFields(f.rows[i]["Extra"]) == Success(extracted[i])
    requires Renaming(s, f, extracted) == Success(r)
    requires |vest| == |f.rows| && RowNormalizes(f.rows[i])
    requires vest[i] == Number(ParseVest4Score(Lookup(extracted[i], "VEST4_score")).value)
    ensures Reindexed(WithColumn(r, "VEST4_score", vest), s.selected, Text("NA")).rows[i]
      == NormalizeRow(s, f.rows[i]).value
  {
    var raw := f.rows[i];
    var v := ParseVest4Score(Lookup(extracted[i], "VEST4_score")).value;
    var n := NormalizeRow(s, raw).value;
    NormalizeRowOutputCells(s, raw);
    forall c | c in s.selected && c != "VEST4_score"
      ensures (if c in r.columns then r.rows[i][c] else Text("NA")) == n[c]
    {
      RenamedOutputCell(s, f, extracted, i, c, v);
    }
    ReindexedRow(r, "VEST4_score", vest, s.selected, Text("NA"), i, n);
  }

  lemma Vest4Row(raw: Row, m: map<string, string>, c: Cell)
    requires "Extra" in raw && ExtractExtraFields(raw["Extra"]) == Success(m)
    requires c == Text(Lookup(m, "VEST4_score"))
    ensures VestCell(c).Success? <==> RowNormalizes(raw)
  {
  }

  /** Reducing the VEST4 column succeeds exactly when every row normalises. */
  lemma Vest4Column(f: Frame, extracted: seq<map<string, string>>, col: seq<Cell>)
    requires WellFormed(f) && "Extra" in f.columns && |extracted| == |f.rows|
    requires forall i :: 0 <= i < |f.rows| ==>
      "Extra" in f.rows[i] && ExtractExtraFields(f.rows[i]["Extra"]) == Success(extracted[i])
    requires |col| == |f.rows| && forall i :: 0 <= i < |col| ==> col[i] == Text(Lookup(extracted[i], "VEST4_score"))
    ensures ApplyAll(col, VestCell).Success? <==> RowsNormalize(f)
  {
    assert RowsNormalize(f) <==> forall i :: 0 <= i < |col| ==> RowNormalizes(f.rows[i]);
    forall i | 0 <= i < |col|
      ensures VestCell(col[i]).Success? <==> RowNormalizes(f.rows[i])
    {
      Vest4Row(f.rows[i], extracted[i], col[i]);
    }
  }

  /** The reduced VEST4 cell of row `i` is the row's reduced list. */
  lemma Vest4Cell(f: Frame, extracted: seq<map<string, string>>, r: Frame, i: int)
    requires WellFormed(r) && "VEST4_score" in r.columns && |r.rows| == |extracted| && 0 <= i < |r.rows|
    requires forall k :: 0 <= k < |r.rows| ==> r.rows[k]["VEST4_score"] == FieldColumn(extracted, "VEST4_score")[k]
    requires ApplyAll(Column(r, "VEST4_score"), VestCell).Success?
    ensures var vest := ApplyAll(Column(r, "VEST4_score"), VestCell).value;
      && |vest| == |r.rows|
      && ParseVest4Score(Lookup(extracted[i], "VEST4_score")).Success?
      && vest[i] == Number(ParseVest4Score(Lookup(extracted[i], "VEST4_score")).value)
  {
    var col := Column(r, "VEST4_score");
    assert col[i] == Text(Lookup(extracted[i], "VEST4_score"));
    assert ApplyAll(col, VestCell).value[i] == VestCell(col[i]).value;
  }

  /** Extraction fails on a table with an `Extra` column only where some row does not
      normalise. */
  lemma ExtractFailure(f: Frame)
    requires WellFormed(f) && "Extra" in f.columns && ExtractAll(f).Failure?
    ensures !RowsNormalize(f)
  {
    var i :| 0 <= i < |f.rows| && !ExtractExtraFields(f.rows[i]["Extra"]).Success?;
    assert "Extra" in f.rows[i] && !RowNormalizes(f.rows[i]);
  }

  /** Reducing the renamed table's VEST4 column succeeds exactly when every row normalises. */
  lemma ReduceSucceeds(f: Frame, extracted: seq<map<string, string>>, r: Frame)
    requires WellFormed(f) && ExtractAll(f) == Success(extracted)
    requires WellFormed(r) && "VEST4_score" in r.columns && |r.rows| == |f.rows|
    requires forall k :: 0 <= k < |r.rows| ==> r.rows[k]["VEST4_score"] == FieldColumn(extracted, "VEST4_score")[k]
    ensures "Extra" in f.columns
    ensures ReduceVest4(r).Success? <==> RowsNormalize(f)
  {
    Vest4Column(f, extracted, Column(r, "VEST4_score"));
  }

  /** The preparation of an extracted table fails exactly when the table has no rows,
      carries a shadowed label or has a row that does not normalise. */
  lemma PreparedAfterExtraction(s: Schema, f: Frame, extracted: seq<map<string, string>>)
    requires SchemaOk(s) && WellFormed(f) && ExtractAll(f) == Success(extracted)
    ensures "Extra" in f.columns
    ensures Prepared(s, f).Success? <==> |f.rows| > 0 && ColumnSet(f.columns) !! Shadowed(s) && RowsNormalize(f)
  {
    var rn := Renaming(s, f, extracted);
    if rn.Success? {
      ReduceSucceeds(f, extracted, rn.value);
    }
  }

  /** The preparation fails exactly when the table lacks `Extra`, has no rows, carries a
      shadowed label, or has a row that does not normalise. */
  lemma PreparedSucceeds(s: Schema, f: Frame)
    requires SchemaOk(s) && WellFormed(f)
    ensures Prepared(s, f).Success? <==>
      "Extra" in f.columns && |f.rows| > 0 && ColumnSet(f.columns) !! Shadowed(s) && RowsNormalize(f)
  {
    var ax := ExtractAll(f);
    if ax.Failure? {
      if "Extra" in f.columns {
        ExtractFailure(f);
      }
    } else {
      PreparedAfterExtraction(s, f, ax.value);
    }
  }

  /** The returned table, stage by stage. */
  lemma NormalizedStages(s: Schema, f: Frame)
    requires SchemaOk(s) && WellFormed(f) && Normalized(s, f).Success?
    ensures
      var r := Renaming(s, f, ExtractAll(f).value).value;
      var vest := ApplyAll(Column(r, "VEST4_score"), VestCell);
      && vest.Success?
      && Normalized(s, f).value == Reindexed(WithColumn(r, "VEST4_score", vest.value), s.selected, Text("NA"))
  {
  }

  lemma NormalizedRow(s: Schema, f: Frame, i: int)
    requires SchemaOk(s) && WellFormed(f) && "Extra" in f.columns && RowsNormalize(f)
    requires Normalized(s, f).Success? && 0 <= i < |f.rows|
    ensures "Extra" in f.rows[i] && |Normalized(s, f).value.rows| == |f.rows|
    ensures Normalized(s, f).value.rows[i] == NormalizeRow(s, f.rows[i]).value
  {
    var ex := ExtractAll(f).value;
    var r := Renaming(s, f, ex).value;
    NormalizedStages(s, f);
    Vest4Cell(f, ex, r, i);
    ProjectedRow(s, f, ex, r, ApplyAll(Column(r, "VEST4_score"), VestCell).value, i);
  }

  lemma NormalizedRows(s: Schema, f: Frame)
    requires SchemaOk(s) && WellFormed(f) && "Extra" in f.columns && RowsNormalize(f) && Normalized(s, f).Success?
    ensures var g := Normalized(s, f).value;
      && g.columns == s.selected
      && |g.rows| == |f.rows|
      && forall i :: 0 <= i < |f.rows| ==> "Extra" in f.rows[i] && g.rows[i] == NormalizeRow(s, f.rows[i]).value
  {
    forall i | 0 <= i < |f.rows|
      ensures "Extra" in f.rows[i] && Normalized(s, f).value.rows[i] == NormalizeRow(s, f.rows[i]).value
    {
      NormalizedRow(s, f, i);
    }
  }

  /** The normaliser against the row-level reference: it succeeds exactly when the table has
      an `Extra` column, at least one row, none of the shadowed labels, and only rows that
      normalise; it then
      returns exactly the output columns, in order, one output row per input row, in order,
      each the normalised input row. */
  lemma NormalizedMeaning(s: Schema, f: Frame)
    requires SchemaOk(s) && WellFormed(f)
    ensures Normalized(s, f).Success? <==>
      "Extra" in f.columns && |f.rows| > 0 && ColumnSet(f.columns) !! Shadowed(s) && RowsNormalize(f)
    ensures Normalized(s, f).Success? ==>
      var g := Normalized(s, f).value;
      && g.columns == s.selected
      && |g.rows| == |f.rows|
      && forall i :: 0 <= i < |f.rows| ==> "Extra" in f.rows[i] && g.rows[i] == NormalizeRow(s, f.rows[i]).value
  {
    PreparedSucceeds(s, f);
    if Normalized(s, f).Success? {
      NormalizedRows(s, f);
    }
  }
}
