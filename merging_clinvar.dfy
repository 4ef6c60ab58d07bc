/** The matching loop of `merge_clinvar` in `merging_ClinVar.py`: each clinical row of the
    requested gene is matched against the annotation table in narrowing stages and either
    merged with the chosen annotation row or reported in the log. Reading and writing the
    files is replaced by the tables as parameters and the merged rows and log lines as
    results. */
module MergingClinVar {
  import opened Wrappers
  import opened Strings
  import opened Frames

  /** The first line of the log. */
  const Banner: string := "Unmatched Variants Log\n"

  /** The log line for the clinical row labelled `index`. */
  function LogLine(index: nat): (line: string)
    ensures |line| > 0 && line[|line| - 1] == '\n'
  {
    "Variant in row " + NatToString(index) + " could not be merged\n"
  }

  /** The columns the loop reads must exist; pandas raises a `KeyError` otherwise. */
  predicate Inputs(clinical: Frame, annotation: Frame) {
    && WellFormed(clinical) && WellFormed(annotation)
    && "GeneSymbol" in clinical.columns && "Feature" in clinical.columns
    && "Existing_variation" in clinical.columns && "Codons" in clinical.columns
    && "Feature" in annotation.columns && "Existing_variation" in annotation.columns
    && "Codons" in annotation.columns
  }

  /** A clinical row carries the three key columns. */
  predicate KeyRow(r: Row) {
    "Feature" in r && "Existing_variation" in r && "Codons" in r
  }

  // ---------------------------------------------------------------------------------------
  // The candidates for one clinical row

  /** `rows[rows[key] == value]`: a missing cell on either side never matches. */
  function Select(rows: seq<Row>, key: string, value: Cell): (r: seq<Row>)
    ensures IsSubsequence(r, rows)
    ensures forall k :: 0 <= k < |r| ==> Matches(r[k], key, value)
    ensures forall i :: 0 <= i < |rows| && Matches(rows[i], key, value) ==> rows[i] in r
  {
    Filter(rows, Mask(key, value))
  }

  /** The selection keeps every matching row, not just one of each: as many rows as there
      are matching positions, each the row at its position, so the `len(...) > 1` gates
      count the matching rows. */
  lemma SelectPositions(rows: seq<Row>, key: string, value: Cell)
    ensures var r := Select(rows, key, value);
      var positions := Positions(rows, Mask(key, value));
      && |r| == |positions|
      && forall i :: 0 <= i < |r| ==> r[i] == rows[positions[i]]
  {
    FilterPositions(rows, Mask(key, value));
  }

  /** A narrowing stage, applied only while more than one candidate remains. */
  function Narrow(candidates: seq<Row>, key: string, value: Cell): seq<Row> {
    if |candidates| > 1 then Select(candidates, key, value) else candidates
  }

  /** The annotation rows sharing the clinical row's `Feature`. */
  function FeatureStage(annotation: seq<Row>, clin: Row): seq<Row>
    requires KeyRow(clin)
  {
    Select(annotation, "Feature", clin["Feature"])
  }

  /** Those narrowed by `Existing_variation`. */
  function VariationStage(annotation: seq<Row>, clin: Row): seq<Row>
    requires KeyRow(clin)
  {
    Narrow(FeatureStage(annotation, clin), "Existing_variation", clin["Existing_variation"])
  }

  /** Those narrowed by `Codons`. */
  function CodonStage(annotation: seq<Row>, clin: Row): seq<Row>
    requires KeyRow(clin)
  {
    Narrow(VariationStage(annotation, clin), "Codons", clin["Codons"])
  }

  /** `row.isna().sum()`: the number of missing cells. */
  function MissingCount(r: Row): (n: nat)
    ensures n <= |r|
  {
    var missing := set k | k in r && r[k].Missing?;
    SubsetCardinality(missing, r.Keys);
    |missing|
  }

  /** A subset is no larger than the set it is part of. */
  lemma {:induction false} SubsetCardinality<T>(a: set<T>, b: set<T>)
    requires a <= b
    ensures |a| <= |b|
  {
    if a != {} {
      var x :| x in a;
      SubsetCardinality(a - {x}, b - {x});
    }
  }

  /** A candidate with the fewest missing cells (the first such one). */
  function FewestMissing(candidates: seq<Row>): (k: nat)
    requires candidates != []
    ensures k < |candidates|
    ensures forall j :: 0 <= j < |candidates| ==> MissingCount(candidates[k]) <= MissingCount(candidates[j])
  {
    var n := |candidates| - 1;
    if n == 0 then 0
    else
      var k := FewestMissing(candidates[..n]);
      assert forall j :: 0 <= j < n ==> candidates[..n][j] == candidates[j];
      if MissingCount(candidates[n]) < MissingCount(candidates[k]) then n else k
  }

  /** A row with its `NaN_count` column added. */
  function WithCount(r: Row): (w: Row)
    ensures w.Keys == r.Keys + {"NaN_count"}
    ensures w["NaN_count"] == Number(MissingCount(r) as real)
    ensures forall k :: k in r && k != "NaN_count" ==> w[k] == r[k]
  {
    r["NaN_count" := Number(MissingCount(r) as real)]
  }

  /** The annotation row merged with `clin`, if any: the sole candidate, or the one with the
      fewest missing cells, carrying its count. */
  function Match(annotation: seq<Row>, clin: Row): (r: Option<Row>)
    requires KeyRow(clin)
    ensures r.Some? ==> Matches(r.value, "Feature", clin["Feature"])
  {
    var candidates := CodonStage(annotation, clin);
    if |candidates| == 0 then None
    else
      var k := if |candidates| == 1 then 0 else FewestMissing(candidates);
      SurvivorKeys(annotation, clin, candidates[k]);
      if |candidates| == 1 then Some(candidates[0])
      else Some(WithCount(candidates[k]))
  }

  /** `{**clin, **chosen}`: every key of both, the chosen annotation row's value winning. */
  function Merge(clin: Row, chosen: Row): (merged: Row)
    ensures merged.Keys == clin.Keys + chosen.Keys
    ensures forall k :: k in chosen ==> merged[k] == chosen[k]
    ensures forall k :: k in clin && k !in chosen ==> merged[k] == clin[k]
  {
    clin + chosen
  }

  // ---------------------------------------------------------------------------------------
  // The whole table

  /** The labels of the clinical rows of the gene, in order: `clinvar_df[clinvar_df['GeneSymbol'] == gene]`
      keeps the labels of the unfiltered table. */
  function GeneLabels(clinical: Frame, gene: string): seq<nat> {
    LabelsWhere(clinical, "GeneSymbol", Text(gene))
  }

  /** The clinical row labelled `index` finds an annotation row. */
  predicate IsMatched(clinical: Frame, annotation: Frame, index: nat) {
    index < |clinical.rows| && KeyRow(clinical.rows[index]) && Match(annotation.rows, clinical.rows[index]).Some?
  }

  function MatchedLabels(clinical: Frame, annotation: Frame, labels: seq<nat>): seq<nat> {
    Filter(labels, (l: nat) => IsMatched(clinical, annotation, l))
  }

  function UnmatchedLabels(clinical: Frame, annotation: Frame, labels: seq<nat>): seq<nat> {
    Filter(labels, (l: nat) => !IsMatched(clinical, annotation, l))
  }

  /** The merged row of a matched clinical row. */
  function MergedRow(clinical: Frame, annotation: Frame, index: nat): Row
    requires IsMatched(clinical, annotation, index)
  {
    Merge(clinical.rows[index], Match(annotation.rows, clinical.rows[index]).value)
  }

  /** The merged rows of the clinical rows labelled `labels`, in order. */
  function MergedRows(clinical: Frame, annotation: Frame, labels: seq<nat>): (rows: seq<Row>)
    ensures |rows| == |MatchedLabels(clinical, annotation, labels)|
  {
    var m := MatchedLabels(clinical, annotation, labels);
    seq(|m|, i requires 0 <= i < |m| => MergedRow(clinical, annotation, m[i]))
  }

  /** The log lines of the clinical rows labelled `labels`, in order. */
  function LogLines(clinical: Frame, annotation: Frame, labels: seq<nat>): (lines: seq<string>)
    ensures |lines| == |UnmatchedLabels(clinical, annotation, labels)|
  {
    var u := UnmatchedLabels(clinical, annotation, labels);
    seq(|u|, i requires 0 <= i < |u| => LogLine(u[i]))
  }

  /** The matching loop of `merge_clinvar`: the merged rows and the log, banner first. */
  method MergeClinvar(gene: string, clinical: Frame, annotation: Frame) returns (merged: seq<Row>, log: seq<string>)
    requires Inputs(clinical, annotation)
    ensures merged == MergedRows(clinical, annotation, GeneLabels(clinical, gene))
    ensures log == [Banner] + LogLines(clinical, annotation, GeneLabels(clinical, gene))
  {
    var labels := GeneLabels(clinical, gene);
    log := [Banner];
    merged := [];
    for k := 0 to |labels|
      invariant merged == MergedRows(clinical, annotation, labels[..k])
      invariant log == [Banner] + LogLines(clinical, annotation, labels[..k])
    {
      merged, log := MergeRow(clinical, annotation, labels, k, merged, log);
    }
    assert labels[..|labels|] == labels;
  }

  /** One pass of the loop: the clinical row labelled `labels[k]` either appends its merged
      row or appends its log line. */
  method MergeRow(clinical: Frame, annotation: Frame, labels: seq<nat>, k: nat, merged: seq<Row>, log: seq<string>)
    returns (merged': seq<Row>, log': seq<string>)
    requires Inputs(clinical, annotation) && k < |labels| && labels[k] < |clinical.rows|
    requires merged == MergedRows(clinical, annotation, labels[..k])
    requires log == [Banner] + LogLines(clinical, annotation, labels[..k])
    ensures merged' == MergedRows(clinical, annotation, labels[..k + 1])
    ensures log' == [Banner] + LogLines(clinical, annotation, labels[..k + 1])
  {
    var index := labels[k];
    var row := clinical.rows[index];
    assert row.Keys == ColumnSet(clinical.columns);
    var matching := Candidates(annotation.rows, row);
    assert |matching| > 0 <==> IsMatched(clinical, annotation, index);
    LabelsStep(clinical, annotation, labels, k);
    if |matching| > 0 {
      assert Merge(row, matching[0]) == MergedRow(clinical, annotation, index);
      merged', log' := merged + [Merge(row, matching[0])], log;
    } else {
      merged', log' := merged, log + [LogLine(index)];
    }
  }

  /** Lines 14-24: the candidate list for one clinical row, narrowed stage by stage; at most
      one row is left, and it is the row `Match` chooses. */
  method Candidates(annotation: seq<Row>, clin: Row) returns (matching: seq<Row>)
    requires KeyRow(clin)
    ensures matching == match Match(annotation, clin) case None => [] case Some(r) => [r]
  {
    matching := Select(annotation, "Feature", clin["Feature"]);
    if |matching| > 1 {
      matching := Select(matching, "Existing_variation", clin["Existing_variation"]);
    }
    if |matching| > 1 {
      matching := Select(matching, "Codons", clin["Codons"]);
    }
    assert matching == CodonStage(annotation, clin);
    if |matching| > 1 {
      var fewest := matching[FewestMissing(matching)];
      matching := [WithCount(fewest)];
    }
  }

  /** Extending the labels by one extends exactly one of the two outputs by that label's
      merged row or log line. */
  lemma LabelsStep(clinical: Frame, annotation: Frame, labels: seq<nat>, k: nat)
    requires k < |labels|
    ensures var l := labels[k];
      if IsMatched(clinical, annotation, l) then
        && MergedRows(clinical, annotation, labels[..k + 1])
          == MergedRows(clinical, annotation, labels[..k]) + [MergedRow(clinical, annotation, l)]
        && LogLines(clinical, annotation, labels[..k + 1]) == LogLines(clinical, annotation, labels[..k])
      else
        && MergedRows(clinical, annotation, labels[..k + 1]) == MergedRows(clinical, annotation, labels[..k])
        && LogLines(clinical, annotation, labels[..k + 1])
          == LogLines(clinical, annotation, labels[..k]) + [LogLine(l)]
  {
    FilterPrefix(labels, k, (l: nat) => IsMatched(clinical, annotation, l));
    FilterPrefix(labels, k, (l: nat) => !IsMatched(clinical, annotation, l));
    MergedStep(clinical, annotation, labels[..k], labels[..k + 1], labels[k]);
    LogStep(clinical, annotation, labels[..k], labels[..k + 1], labels[k]);
  }

  lemma MergedStep(clinical: Frame, annotation: Frame, before: seq<nat>, after: seq<nat>, l: nat)
    requires MatchedLabels(clinical, annotation, after)
      == MatchedLabels(clinical, annotation, before) + if IsMatched(clinical, annotation, l) then [l] else []
    ensures MergedRows(clinical, annotation, after) == MergedRows(clinical, annotation, before)
      + if IsMatched(clinical, annotation, l) then [MergedRow(clinical, annotation, l)] else []
  {
    var m0 := MatchedLabels(clinical, annotation, before);
    var m1 := MatchedLabels(clinical, annotation, after);
    var r0 := MergedRows(clinical, annotation, before);
    var r1 := MergedRows(clinical, annotation, after);
    assert forall i :: 0 <= i < |m0| ==> m1[i] == m0[i];
    assert forall i :: 0 <= i < |m0| ==> r1[i] == r0[i];
  }

  lemma LogStep(clinical: Frame, annotation: Frame, before: seq<nat>, after: seq<nat>, l: nat)
    requires UnmatchedLabels(clinical, annotation, after)
      == UnmatchedLabels(clinical, annotation, before) + if IsMatched(clinical, annotation, l) then [] else [l]
    ensures LogLines(clinical, annotation, after) == LogLines(clinical, annotation, before)
      + if IsMatched(clinical, annotation, l) then [] else [LogLine(l)]
  {
  }

  // ---------------------------------------------------------------------------------------
  // What the matching promises for one clinical row

  /** Each stage keeps an order-preserving part of the one before, and a narrowing stage
      changes nothing unless more than one candidate remains. */
  lemma StagesNarrow(annotation: seq<Row>, clin: Row)
    requires KeyRow(clin)
    ensures IsSubsequence(FeatureStage(annotation, clin), annotation)
    ensures IsSubsequence(VariationStage(annotation, clin), FeatureStage(annotation, clin))
    ensures IsSubsequence(CodonStage(annotation, clin), VariationStage(annotation, clin))
    ensures |FeatureStage(annotation, clin)| <= 1 ==> VariationStage(annotation, clin) == FeatureStage(annotation, clin)
    ensures |VariationStage(annotation, clin)| <= 1 ==> CodonStage(annotation, clin) == VariationStage(annotation, clin)
  {
    SubsequenceReflexive(FeatureStage(annotation, clin));
    SubsequenceReflexive(VariationStage(annotation, clin));
  }

  /** A clinical row is matched exactly when a candidate survives the narrowing; a sole
      survivor is taken as it is, and of several survivors one with the fewest missing
      cells is taken, with its count added as `NaN_count`. */
  lemma MatchChoice(annotation: seq<Row>, clin: Row)
    requires KeyRow(clin)
    ensures var c := CodonStage(annotation, clin);
      && (Match(annotation, clin).None? <==> c == [])
      && (|c| == 1 ==> Match(annotation, clin) == Some(c[0]))
      && (|c| > 1 ==> exists j :: (
            && 0 <= j < |c|
            && Match(annotation, clin) == Some(c[j]["NaN_count" := Number(MissingCount(c[j]) as real)])
            && forall i :: 0 <= i < |c| ==> MissingCount(c[j]) <= MissingCount(c[i])))
  {
    var c := CodonStage(annotation, clin);
    if |c| > 1 {
      var j := FewestMissing(c);
      assert Match(annotation, clin) == Some(c[j]["NaN_count" := Number(MissingCount(c[j]) as real)]);
    }
  }

  /** A sole `Feature` match is accepted without looking at `Existing_variation` or
      `Codons`. */
  lemma SoleFeatureMatch(annotation: seq<Row>, clin: Row)
    requires KeyRow(clin) && |FeatureStage(annotation, clin)| == 1
    ensures Match(annotation, clin) == Some(FeatureStage(annotation, clin)[0])
  {
  }

  /** The chosen row shares the clinical `Feature`; it also shares `Existing_variation`
      when more than one row shared `Feature`, and `Codons` when more than one row shared
      both. A missing cell on either side never counts as shared. */
  lemma MatchedKeys(annotation: seq<Row>, clin: Row)
    requires KeyRow(clin) && Match(annotation, clin).Some?
    ensures var r := Match(annotation, clin).value;
      && Matches(r, "Feature", clin["Feature"])
      && (|FeatureStage(annotation, clin)| > 1 ==> Matches(r, "Existing_variation", clin["Existing_variation"]))
      && (|VariationStage(annotation, clin)| > 1 ==> Matches(r, "Codons", clin["Codons"]))
  {
    var c := ChosenCandidate(annotation, clin);
    SurvivorKeys(annotation, clin, c);
  }

  /** A surviving candidate passed every stage that ran. */
  lemma SurvivorKeys(annotation: seq<Row>, clin: Row, c: Row)
    requires KeyRow(clin) && c in CodonStage(annotation, clin)
    ensures Matches(c, "Feature", clin["Feature"])
    ensures |FeatureStage(annotation, clin)| > 1 ==> Matches(c, "Existing_variation", clin["Existing_variation"])
    ensures |VariationStage(annotation, clin)| > 1 ==> Matches(c, "Codons", clin["Codons"])
  {
    var f := FeatureStage(annotation, clin);
    var v := VariationStage(annotation, clin);
    var cs := CodonStage(annotation, clin);
    StagesNarrow(annotation, clin);
    SubsequenceMembers(cs, v);
    SubsequenceMembers(v, f);
    assert c in v && c in f;
    Selected(annotation, "Feature", clin["Feature"], c);
    if |f| > 1 {
      Selected(f, "Existing_variation", clin["Existing_variation"], c);
    }
    if |v| > 1 {
      Selected(v, "Codons", clin["Codons"], c);
    }
  }

  lemma Selected(rows: seq<Row>, key: string, value: Cell, c: Row)
    requires c in Select(rows, key, value)
    ensures Matches(c, key, value)
  {
  }

  /** The chosen row is a surviving candidate, with at most `NaN_count` changed. */
  lemma ChosenCandidate(annotation: seq<Row>, clin: Row) returns (c: Row)
    requires KeyRow(clin) && Match(annotation, clin).Some?
    ensures c in CodonStage(annotation, clin)
    ensures var r := Match(annotation, clin).value;
      forall key :: key != "NaN_count" && key in c ==> key in r && r[key] == c[key]
  {
    var candidates := CodonStage(annotation, clin);
    c := candidates[if |candidates| == 1 then 0 else FewestMissing(candidates)];
  }

  /** The log line of row `a` names `a`. */
  lemma LogLineInjective(a: nat, b: nat)
    requires LogLine(a) == LogLine(b)
    ensures a == b
  {
    var prefix, suffix := "Variant in row ", " could not be merged\n";
    var x, y := NatToString(a), NatToString(b);
    assert |x| == |y|;
    assert x == LogLine(a)[|prefix|..|prefix| + |x|];
    assert y == LogLine(b)[|prefix|..|prefix| + |y|];
    NatToStringInjective(a, b);
  }

  // ---------------------------------------------------------------------------------------
  // What the loop promises for the whole table

  /** Every clinical row of the gene yields exactly one merged row or exactly one log line:
      it is matched or unmatched, never both, and the two outputs add up to the rows of
      the gene. */
  lemma OneOutcomePerRow(clinical: Frame, annotation: Frame, gene: string)
    ensures var labels := GeneLabels(clinical, gene);
      && |MergedRows(clinical, annotation, labels)| + |LogLines(clinical, annotation, labels)| == |labels|
      && forall l :: l in labels ==>
        (l in MatchedLabels(clinical, annotation, labels) <==> l !in UnmatchedLabels(clinical, annotation, labels))
  {
    var labels := GeneLabels(clinical, gene);
    FilterPartition(labels, (l: nat) => IsMatched(clinical, annotation, l), (l: nat) => !IsMatched(clinical, annotation, l));
    var m := MatchedLabels(clinical, annotation, labels);
    var u := UnmatchedLabels(clinical, annotation, labels);
    SubsequenceMembers(m, labels);
    SubsequenceMembers(u, labels);
    forall l | l in labels
      ensures l in m <==> l !in u
    {
      var i :| 0 <= i < |labels| && labels[i] == l;
    }
  }

  /** Both outputs follow the clinical row order: the merged rows come from matched rows
      of the gene, the log lines from unmatched rows of the gene, each with increasing
      labels. */
  lemma OutputsInOrder(clinical: Frame, annotation: Frame, gene: string)
    ensures var labels := GeneLabels(clinical, gene);
      var m := MatchedLabels(clinical, annotation, labels);
      var u := UnmatchedLabels(clinical, annotation, labels);
      && IsSubsequence(m, labels) && StrictlyIncreasing(m)
      && IsSubsequence(u, labels) && StrictlyIncreasing(u)
      && (forall i :: 0 <= i < |m| ==> IsMatched(clinical, annotation, m[i]))
      && (forall i :: 0 <= i < |u| ==> !IsMatched(clinical, annotation, u[i]))
  {
    var labels := GeneLabels(clinical, gene);
    SubsequenceIncreasing(MatchedLabels(clinical, annotation, labels), labels);
    SubsequenceIncreasing(UnmatchedLabels(clinical, annotation, labels), labels);
  }

  /** The log names exactly the unmatched rows of the gene, by their label in the
      unfiltered clinical table. */
  lemma LogNamesUnmatched(clinical: Frame, annotation: Frame, gene: string, index: nat)
    ensures LogLine(index) in LogLines(clinical, annotation, GeneLabels(clinical, gene)) <==>
      index < |clinical.rows| && Matches(clinical.rows[index], "GeneSymbol", Text(gene))
      && !IsMatched(clinical, annotation, index)
  {
    var labels := GeneLabels(clinical, gene);
    var u := UnmatchedLabels(clinical, annotation, labels);
    var lines := LogLines(clinical, annotation, labels);
    SubsequenceMembers(u, labels);
    if LogLine(index) in lines {
      var i :| 0 <= i < |lines| && lines[i] == LogLine(index);
      LogLineInjective(u[i], index);
    }
    if index in labels && !IsMatched(clinical, annotation, index) {
      var i :| 0 <= i < |u| && u[i] == index;
      assert lines[i] == LogLine(index);
    }
  }
}
