/** `scripts/generate_vcf.py`: the VCF data lines written for a table of variants, and the
    gene filter applied before. The output file is modelled as the sequence of lines
    written to it. */
module GenerateVcf {
  import opened Strings
  import opened Frames

  /** The columns `create_vcf` reads. */
  predicate VariantColumns(variants: Frame) {
    && WellFormed(variants)
    && "Chromosome" in variants.columns && "PositionVCF" in variants.columns
    && "ReferenceAlleleVCF" in variants.columns && "AlternateAlleleVCF" in variants.columns
  }

  /** `str(cell)`, and a cell inside an f-string: text as it is, a missing cell as `nan`,
      a number as `showNumber` writes it. */
  function Str(c: Cell, showNumber: real -> string): string {
    match c
    case Text(s) => s
    case Missing => "nan"
    case Number(x) => showNumber(x)
  }

  /** The eight fields of a data line: CHROM, POS, ID, REF, ALT, QUAL, FILTER and INFO,
      with ID, QUAL and INFO left empty (`.`) and FILTER set to `PASS`. */
  function Fields(chrom: string, pos: string, ref: string, alt: string): seq<string> {
    [chrom, pos, ".", ref, alt, ".", "PASS", "."]
  }

  /** `f"{chrom}\t{pos}\t.\t{ref}\t{alt}\t.\tPASS\t.\n"` */
  function VcfLine(chrom: string, pos: string, ref: string, alt: string): (line: string)
    ensures |line| >= 1 && line[|line| - 1] == '\n'
    ensures line[..|line| - 1] == Join(Fields(chrom, pos, ref, alt), '\t')
  {
    var line := chrom + "\t" + pos + "\t.\t" + ref + "\t" + alt + "\t.\tPASS\t.\n";
    JoinEight(chrom, pos, ref, alt);
    assert line[..|line| - 1] == chrom + "\t" + pos + "\t.\t" + ref + "\t" + alt + "\t.\tPASS\t.";
    line
  }

  lemma JoinEight(chrom: string, pos: string, ref: string, alt: string)
    ensures Join(Fields(chrom, pos, ref, alt), '\t')
      == chrom + "\t" + pos + "\t.\t" + ref + "\t" + alt + "\t.\tPASS\t."
  {
    var f := Fields(chrom, pos, ref, alt);
    assert f[..1] == [chrom];
    JoinSnoc(f, '\t', 1);
    JoinSnoc(f, '\t', 2);
    JoinSnoc(f, '\t', 3);
    JoinSnoc(f, '\t', 4);
    JoinSnoc(f, '\t', 5);
    JoinSnoc(f, '\t', 6);
    JoinSnoc(f, '\t', 7);
    assert f[..8] == f;
    var p1 := chrom + "\t" + pos;
    assert Join(f[..4], '\t') == p1 + "\t.\t" + ref;
    var p2 := p1 + "\t.\t" + ref + "\t" + alt;
    assert Join(f, '\t') == p2 + "\t.\tPASS\t.";
  }

  /** The data line of one row. */
  function DataLine(row: Row, showNumber: real -> string): (line: string)
    requires "Chromosome" in row && "PositionVCF" in row && "ReferenceAlleleVCF" in row && "AlternateAlleleVCF" in row
    ensures |line| >= 1 && line[|line| - 1] == '\n'
    ensures line[..|line| - 1] == Join(Fields(Str(row["Chromosome"], showNumber), Str(row["PositionVCF"], showNumber),
      Str(row["ReferenceAlleleVCF"], showNumber), Str(row["AlternateAlleleVCF"], showNumber)), '\t')
  {
    VcfLine(Str(row["Chromosome"], showNumber), Str(row["PositionVCF"], showNumber),
      Str(row["ReferenceAlleleVCF"], showNumber), Str(row["AlternateAlleleVCF"], showNumber))
  }

  predicate StartsWith(s: string, prefix: string) {
    |prefix| <= |s| && s[..|prefix|] == prefix
  }

  /** `create_vcf`: one data line per row, in row order, and nothing else. */
  method CreateVcf(variants: Frame, showNumber: real -> string) returns (lines: seq<string>)
    requires VariantColumns(variants)
    ensures |lines| == |variants.rows|
    ensures forall i :: 0 <= i < |lines| ==> lines[i] == DataLine(variants.rows[i], showNumber)
  {
    lines := [];
    for i := 0 to |variants.rows|
      invariant |lines| == i
      invariant forall j :: 0 <= j < i ==> lines[j] == DataLine(variants.rows[j], showNumber)
    {
      var row := variants.rows[i];
      assert row.Keys == ColumnSet(variants.columns);
      var chrom := Str(row["Chromosome"], showNumber);
      var pos := Str(row["PositionVCF"], showNumber);
      var ref := Str(row["ReferenceAlleleVCF"], showNumber);
      var alt := Str(row["AlternateAlleleVCF"], showNumber);
      // both branches keep the chromosome as it is
      chrom := if !StartsWith(chrom, "chr") then chrom else chrom;
      lines := lines + [VcfLine(chrom, pos, ref, alt)];
    }
  }

  /** A data line read back: dropping the newline and splitting at tabs gives the eight
      fields, the chromosome first and unchanged, as long as no written value holds a
      tab. */
  lemma DataLineFields(chrom: string, pos: string, ref: string, alt: string)
    requires '\t' !in chrom && '\t' !in pos && '\t' !in ref && '\t' !in alt
    ensures var line := VcfLine(chrom, pos, ref, alt);
      Split(line[..|line| - 1], '\t') == Fields(chrom, pos, ref, alt)
  {
    var f := Fields(chrom, pos, ref, alt);
    assert forall k :: 0 <= k < |f| ==> '\t' !in f[k];
    SplitJoin(f, '\t');
  }

  /** No header: every line `create_vcf` writes is a data line of eight fields ending in a
      newline, and it starts with `#` only if the chromosome value does. */
  lemma NoHeaderLines(row: Row, showNumber: real -> string)
    requires "Chromosome" in row && "PositionVCF" in row && "ReferenceAlleleVCF" in row && "AlternateAlleleVCF" in row
    ensures var line := DataLine(row, showNumber);
      var chrom := Str(row["Chromosome"], showNumber);
      && line[|line| - 1] == '\n'
      && (StartsWith(line, "#") ==> StartsWith(chrom, "#"))
  {
    var chrom := Str(row["Chromosome"], showNumber);
    var line := DataLine(row, showNumber);
    if chrom != "" {
      assert line[0] == chrom[0];
    } else {
      assert line[0] == '\t';
    }
  }

  /** `filter_variants_by_gene`: the rows whose `GeneSymbol` equals `gene`, in order, with
      the same columns. */
  function FilterVariantsByGene(variants: Frame, gene: string): (g: Frame)
    requires WellFormed(variants) && "GeneSymbol" in variants.columns
    ensures WellFormed(g) && g.columns == variants.columns
    ensures var labels := LabelsWhere(variants, "GeneSymbol", Text(gene));
      && |g.rows| == |labels|
      && forall i :: 0 <= i < |labels| ==> g.rows[i] == variants.rows[labels[i]]
  {
    RowsWhere(variants, "GeneSymbol", Text(gene))
  }
}
