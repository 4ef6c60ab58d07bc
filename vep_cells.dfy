/** The cell-level helpers of `scripts/parsing_ClinVar.py`: unpacking the `Extra` column's
    `key=value;…` string, splitting a SIFT or PolyPhen `label(score)` value and reducing a
    comma-separated VEST4 score list to its maximum. */
module VepCells {
  import opened Wrappers
  import opened Strings
  import opened Frames

  /** The Python exception a step raises; the run stops at the first one. */
  datatype PyError =
    | KeyError(column: string)  // a column the script indexes is absent
    | ValueError                // a malformed `key=value` token, a non-numeric score, duplicate labels
    | AttributeError            // `.split` applied to a cell that is not a string

  /** `[f(x) for x in xs]`, or the exception of the first element whose `f` raises. */
  function ApplyAll<A, B>(xs: seq<A>, f: A -> Result<B, PyError>): (r: Result<seq<B>, PyError>)
    ensures r.Success? <==> forall i :: 0 <= i < |xs| ==> f(xs[i]).Success?
    ensures r.Success? ==> |r.value| == |xs| && forall i :: 0 <= i < |xs| ==> r.value[i] == f(xs[i]).value
  {
    if xs == [] then Success([])
    else
      match f(xs[0])
      case Failure(e) => Failure(e)
      case Success(y) =>
        match ApplyAll(xs[1..], f)
        case Failure(e) =>
          assert forall i :: 1 <= i < |xs| ==> xs[1..][i - 1] == xs[i];
          Failure(e)
        case Success(ys) =>
          assert forall i :: 1 <= i < |xs| ==> xs[1..][i - 1] == xs[i];
          Success([y] + ys)
  }

  // ---------------------------------------------------------------------------------------
  // extract_extra_fields

  /** A token that `dict` accepts as a pair: exactly one `=`. */
  predicate IsPair(token: string) {
    |Split(token, '=')| == 2
  }

  function Key(token: string): string
    requires IsPair(token)
  {
    Split(token, '=')[0]
  }

  function Val(token: string): string
    requires IsPair(token)
  {
    Split(token, '=')[1]
  }

  predicate DefinesKey(token: string, k: string) {
    IsPair(token) && Key(token) == k
  }

  /** Token `j` is the last one that defines `k`. */
  predicate LastDefinition(tokens: seq<string>, j: nat, k: string)
    requires j < |tokens|
  {
    DefinesKey(tokens[j], k) && forall j' :: j < j' < |tokens| ==> !DefinesKey(tokens[j'], k)
  }

  /** `dict(t.split('=') for t in tokens if '=' in t)`: pairs inserted left to right. */
  function BuildDict(tokens: seq<string>): (r: Result<map<string, string>, PyError>)
    ensures r.Failure? ==> r.error == ValueError
  {
    if tokens == [] then Success(map[])
    else
      var n := |tokens| - 1;
      match BuildDict(tokens[..n])
      case Failure(e) => Failure(e)
      case Success(m) =>
        var parts := Split(tokens[n], '=');
        if |parts| == 1 then Success(m)
        else if |parts| == 2 then Success(m[parts[0] := parts[1]])
        else Failure(ValueError)
  }

  /** The `Extra` cell as a dictionary: missing gives the empty dictionary, a string is split on
      `;` and then each token on `=`, and a number has no `.split`. */
  function ExtractExtraFields(extra: Cell): (r: Result<map<string, string>, PyError>)
    ensures extra.Missing? ==> r == Success(map[])
    ensures r == Failure(AttributeError) <==> extra.Number?
    ensures r.Failure? && !extra.Number? ==> r.error == ValueError
  {
    match extra
    case Missing => Success(map[])
    case Number(_) => Failure(AttributeError)
    case Text(s) => BuildDict(Split(s, ';'))
  }

  /** What `BuildDict` computes: it fails exactly when some token has two or more `=`; otherwise
      its keys are the keys the pair tokens define, each bound to the value of the last token
      defining it, and tokens without `=` contribute nothing. */
  lemma BuildDictMeaning(tokens: seq<string>)
    ensures BuildDict(tokens).Success? <==> forall j :: 0 <= j < |tokens| ==> |Split(tokens[j], '=')| <= 2
    ensures BuildDict(tokens).Success? ==>
      var m := BuildDict(tokens).value;
      && (forall k :: k in m ==> exists j :: 0 <= j < |tokens| && DefinesKey(tokens[j], k))
      && (forall j, k :: 0 <= j < |tokens| && LastDefinition(tokens, j, k) ==> k in m && m[k] == Val(tokens[j]))
  {
    BuildDictSucceeds(tokens);
    if BuildDict(tokens).Success? {
      BuildDictKeys(tokens);
      BuildDictValues(tokens);
    }
  }

  lemma {:induction false} BuildDictSucceeds(tokens: seq<string>)
    ensures BuildDict(tokens).Success? <==> forall j :: 0 <= j < |tokens| ==> |Split(tokens[j], '=')| <= 2
  {
    if tokens != [] {
      var n := |tokens| - 1;
      BuildDictSucceeds(tokens[..n]);
      assert forall j :: 0 <= j < n ==> tokens[..n][j] == tokens[j];
    }
  }

  lemma {:induction false} BuildDictKeys(tokens: seq<string>)
    requires BuildDict(tokens).Success?
    ensures forall k :: k in BuildDict(tokens).value ==> exists j :: 0 <= j < |tokens| && DefinesKey(tokens[j], k)
  {
    if tokens != [] {
      var n := |tokens| - 1;
      var init := tokens[..n];
      BuildDictKeys(init);
      forall k | k in BuildDict(tokens).value
        ensures exists j :: 0 <= j < |tokens| && DefinesKey(tokens[j], k)
      {
        if !DefinesKey(tokens[n], k) {
          var j :| 0 <= j < n && DefinesKey(init[j], k);
          assert init[j] == tokens[j];
        }
      }
    }
  }

  lemma {:induction false} BuildDictValues(tokens: seq<string>)
    requires BuildDict(tokens).Success?
    ensures forall j, k :: 0 <= j < |tokens| && LastDefinition(tokens, j, k) ==>
      k in BuildDict(tokens).value && BuildDict(tokens).value[k] == Val(tokens[j])
  {
    if tokens != [] {
      var n := |tokens| - 1;
      var init := tokens[..n];
      BuildDictValues(init);
      var m := BuildDict(tokens).value;
      forall j, k | 0 <= j < |tokens| && LastDefinition(tokens, j, k)
        ensures k in m && m[k] == Val(tokens[j])
      {
        if j < n {
          assert forall j' :: j < j' < n ==> init[j'] == tokens[j'];
          assert init[j] == tokens[j];
          assert LastDefinition(init, j, k);
          assert !DefinesKey(tokens[n], k);
        }
      }
    }
  }

  /** A missing `Extra` cell yields the empty dictionary. */
  lemma MissingExtraIsEmpty()
    ensures ExtractExtraFields(Missing) == Success(map[])
  {
  }

  // ---------------------------------------------------------------------------------------
  // split_prediction_score: re.match(r'([^()]+)\(([\d.]+)\)', value)

  predicate IsParen(c: char) {
    c == '(' || c == ')'
  }

  /** The characters of `[\d.]`. */
  predicate IsScoreChar(c: char) {
    IsDigit(c) || c == '.'
  }

  /** Length of the longest prefix without parentheses (what greedy `[^()]+` consumes). */
  function NonParenSpan(s: string): (n: nat)
    ensures n <= |s|
    ensures forall k :: 0 <= k < n ==> !IsParen(s[k])
    ensures n < |s| ==> IsParen(s[n])
  {
    if s == [] || IsParen(s[0]) then 0 else 1 + NonParenSpan(s[1..])
  }

  /** Length of the longest prefix of digits and dots (what greedy `[\d.]+` consumes). */
  function ScoreSpan(s: string): (n: nat)
    ensures n <= |s|
    ensures forall k :: 0 <= k < n ==> IsScoreChar(s[k])
    ensures n < |s| ==> !IsScoreChar(s[n])
  {
    if s == [] || !IsScoreChar(s[0]) then 0 else 1 + ScoreSpan(s[1..])
  }

  /** `prefix(score)` starts `s`, with `prefix` a non-empty run of non-parenthesis
      characters and `score` a non-empty run of digits and dots. */
  predicate PatternAt(s: string, prefix: string, score: string) {
    && |prefix| >= 1 && |score| >= 1
    && (forall k :: 0 <= k < |prefix| ==> !IsParen(prefix[k]))
    && (forall k :: 0 <= k < |score| ==> IsScoreChar(score[k]))
    && |prefix| + |score| + 2 <= |s|
    && s[..|prefix| + |score| + 2] == prefix + "(" + score + ")"
  }

  /** A match of the pattern is pinned down by the greedy spans: the prefix is the longest
      parenthesis-free prefix of `s`, and the score the longest run of digits and dots after
      the `(`. */
  lemma PatternAtSpans(s: string, p: string, q: string)
    requires PatternAt(s, p, q)
    ensures |p| == NonParenSpan(s) && s[|p|] == '(' && p == s[..|p|]
    ensures var t := s[|p| + 1..]; |q| == ScoreSpan(t) && |q| < |t| && t[|q|] == ')' && q == t[..|q|]
  {
    var w := p + "(" + q + ")";
    var i := |p|;
    assert forall k :: 0 <= k < |w| ==> s[k] == w[k];
    assert s[i] == '(';
    assert forall k :: 0 <= k < i ==> s[k] == p[k];
    assert p == s[..i];
    var t := s[i + 1..];
    assert forall k :: 0 <= k < |q| ==> t[k] == w[i + 1 + k] == q[k];
    assert t[|q|] == w[i + 1 + |q|] == ')';
    assert q == t[..|q|];
  }

  /** The regular expression, anchored at the start only: the two groups, or no match. */
  function MatchPrediction(s: string): (r: Option<(string, string)>)
    ensures r.Some? ==> PatternAt(s, r.value.0, r.value.1)
    ensures forall p, q :: PatternAt(s, p, q) ==> r == Some((p, q))
  {
    var i := NonParenSpan(s);
    if i == 0 || i == |s| || s[i] != '(' then
      NoLabelNoMatch(s);
      None
    else
      var t := s[i + 1..];
      var j := ScoreSpan(t);
      if j == 0 || j == |t| || t[j] != ')' then
        NoScoreNoMatch(s);
        None
      else
        SpansMatch(s);
        Some((s[..i], t[..j]))
  }

  /** Without a non-empty parenthesis-free run followed by `(`, nothing matches. */
  lemma NoLabelNoMatch(s: string)
    requires var i := NonParenSpan(s); i == 0 || i == |s| || s[i] != '('
    ensures forall p, q :: !PatternAt(s, p, q)
  {
    forall p, q | PatternAt(s, p, q) ensures false {
      PatternAtSpans(s, p, q);
    }
  }

  /** Without a non-empty run of digits and dots closed by `)` after the `(`, nothing matches. */
  lemma NoScoreNoMatch(s: string)
    requires var i := NonParenSpan(s); i < |s|
    requires var t := s[NonParenSpan(s) + 1..]; var j := ScoreSpan(t); j == 0 || j == |t| || t[j] != ')'
    ensures forall p, q :: !PatternAt(s, p, q)
  {
    forall p, q | PatternAt(s, p, q) ensures false {
      PatternAtSpans(s, p, q);
    }
  }

  /** When both greedy runs are there, they are the one match. */
  lemma SpansMatch(s: string)
    requires var i := NonParenSpan(s); 0 < i < |s| && s[i] == '('
    requires var t := s[NonParenSpan(s) + 1..]; var j := ScoreSpan(t); 0 < j < |t| && t[j] == ')'
    ensures var i := NonParenSpan(s); var t := s[i + 1..]; var j := ScoreSpan(t);
      && PatternAt(s, s[..i], t[..j])
      && forall p, q :: PatternAt(s, p, q) ==> p == s[..i] && q == t[..j]
  {
    var i := NonParenSpan(s);
    var t := s[i + 1..];
    var j := ScoreSpan(t);
    assert s[..i + j + 2] == s[..i] + "(" + t[..j] + ")";
    forall p, q | PatternAt(s, p, q) ensures p == s[..i] && q == t[..j] {
      PatternAtSpans(s, p, q);
    }
  }

  /** `split_prediction_score`: a missing value gives two `NA`s; a string that starts with
      `label(score)` gives its label and score; anything else is kept as the label, with an
      `NA` score. (A float's `str` never contains a parenthesis, so a number falls back.) */
  function SplitPredictionScore(value: Cell): (r: (Cell, Cell))
    ensures value.Missing? ==> r == (Text("NA"), Text("NA"))
    ensures value.Text? ==> forall p, q :: PatternAt(value.s, p, q) ==> r == (Text(p), Text(q))
    ensures r.1 != Text("NA") <==> value.Text? && exists p, q :: PatternAt(value.s, p, q)
    ensures r.1 == Text("NA") ==> r.0 == if value.Missing? then Text("NA") else value
  {
    match value
    case Missing => (Text("NA"), Text("NA"))
    case Number(_) => (value, Text("NA"))
    case Text(s) =>
      match MatchPrediction(s)
      case Some((prefix, score)) =>
        assert score != "NA" by { assert IsScoreChar(score[0]); }
        (Text(prefix), Text(score))
      case None => (value, Text("NA"))
  }

  /** `tolerated(0.24)` splits into `tolerated` and `0.24`. */
  lemma SplitToleratedExample()
    ensures SplitPredictionScore(Text("tolerated(0.24)")) == (Text("tolerated"), Text("0.24"))
  {
    assert PatternAt("tolerated(0.24)", "tolerated", "0.24");
  }

  /** A value without `(`, such as `NA` or `deleterious`, is its own label with an `NA` score. */
  lemma NoParenthesisFallsBack(s: string)
    requires '(' !in s
    ensures SplitPredictionScore(Text(s)) == (Text(s), Text("NA"))
  {
  }

  // ---------------------------------------------------------------------------------------
  // parse_vest4_score

  /** One entry of the list: `.` and `NA` count as 0, anything else goes through `float()`. */
  function EntryScore(entry: string): (r: Result<real, PyError>)
    ensures entry == "." || entry == "NA" ==> r == Success(0.0)
    ensures r.Failure? <==> entry != "." && entry != "NA" && !IsDecimal(entry)
    ensures r.Failure? ==> r.error == ValueError
  {
    if entry != "." && entry != "NA" then
      if IsDecimal(entry) then Success(DecimalValue(entry)) else Failure(ValueError)
    else Success(0.0)
  }

  /** Python's `max` of a non-empty list. */
  function MaxOf(xs: seq<real>): (m: real)
    requires |xs| >= 1
    ensures forall k :: 0 <= k < |xs| ==> xs[k] <= m
    ensures exists k :: 0 <= k < |xs| && xs[k] == m
  {
    if |xs| == 1 then xs[0]
    else
      var rest := MaxOf(xs[1..]);
      assert forall k :: 1 <= k < |xs| ==> xs[k] == xs[1..][k - 1];
      if rest > xs[0] then rest else xs[0]
  }

  /** `parse_vest4_score`: the largest score of the comma-separated list, counting `.` and `NA`
      as 0; it raises exactly when some other entry is not a number. */
  function ParseVest4Score(value: string): (r: Result<real, PyError>)
    ensures var entries := Split(value, ',');
      && (r.Success? <==> forall k :: 0 <= k < |entries| ==> EntryScore(entries[k]).Success?)
      && (r.Success? ==> forall k :: 0 <= k < |entries| ==> EntryScore(entries[k]).value <= r.value)
      && (r.Success? ==> exists k :: 0 <= k < |entries| && EntryScore(entries[k]).value == r.value)
      && ((forall k :: 0 <= k < |entries| ==> entries[k] == "." || entries[k] == "NA") ==> r == Success(0.0))
  {
    var entries := Split(value, ',');
    match ApplyAll(entries, EntryScore)
    case Failure(e) => Failure(e)
    case Success(scores) =>
    var m := MaxOf(scores);
    assert (forall k :: 0 <= k < |entries| ==> entries[k] == "." || entries[k] == "NA") ==> m == 0.0 by {
      if forall k :: 0 <= k < |entries| ==> entries[k] == "." || entries[k] == "NA" {
        var k :| 0 <= k < |scores| && scores[k] == m;
      }
    }
    Success(m)
  }

  /** The default `NA` of an absent VEST4 field reduces to 0. */
  lemma AbsentVest4IsZero()
    ensures ParseVest4Score("NA") == Success(0.0)
  {
    assert Split("NA", ',') == ["NA"];
  }

  /** `0.9` reads as nine tenths. */
  lemma DecimalNineTenths()
    ensures IsDecimal("0.9") && DecimalValue("0.9") == 0.9
  {
    assert Join(["0", "9"], '.') == "0.9";
    SplitJoin(["0", "9"], '.');
    assert DigitsValue("9") == 9;
  }

  /** When every entry reads as a number or a placeholder, the result is the largest of them. */
  lemma Vest4Largest(value: string, scores: seq<real>, k: nat)
    requires |Split(value, ',')| == |scores| && k < |scores|
    requires forall i :: 0 <= i < |scores| ==> EntryScore(Split(value, ',')[i]) == Success(scores[i])
    requires forall i :: 0 <= i < |scores| ==> scores[i] <= scores[k]
    ensures ParseVest4Score(value) == Success(scores[k])
  {
    Vest4Scores(value, scores);
    var m := ParseVest4Score(value).value;
    var j :| 0 <= j < |scores| && scores[j] == m;
    assert m == scores[k];
  }

  /** When every entry reads as a number or a placeholder, the result is one of the scores
      and no smaller than any. */
  lemma Vest4Scores(value: string, scores: seq<real>)
    requires |Split(value, ',')| == |scores|
    requires forall i :: 0 <= i < |scores| ==> EntryScore(Split(value, ',')[i]) == Success(scores[i])
    ensures ParseVest4Score(value).Success?
    ensures forall i :: 0 <= i < |scores| ==> scores[i] <= ParseVest4Score(value).value
    ensures exists j :: 0 <= j < |scores| && scores[j] == ParseVest4Score(value).value
  {
    var entries := Split(value, ',');
    assert forall i :: 0 <= i < |entries| ==> EntryScore(entries[i]).Success?;
    var j :| 0 <= j < |entries| && EntryScore(entries[j]).value == ParseVest4Score(value).value;
    assert scores[j] == ParseVest4Score(value).value;
  }

  /** The list `.,0.9,NA`, written as the join of its entries, reduces to 0.9: the
      placeholders count as 0. */
  lemma Vest4JoinedExample(value: string)
    requires value == Join([".", "0.9", "NA"], ',')
    ensures ParseVest4Score(value) == Success(0.9)
  {
    var entries := [".", "0.9", "NA"];
    SplitJoin(entries, ',');
    DecimalNineTenths();
    var scores := [0.0, 0.9, 0.0];
    assert Split(value, ',') == entries;
    assert EntryScore(".") == Success(0.0) && EntryScore("NA") == Success(0.0);
    assert EntryScore("0.9") == Success(0.9);
    assert forall i :: 0 <= i < 3 ==> EntryScore(entries[i]) == Success(scores[i]);
    Vest4Largest(value, scores, 1);
  }

  /** `x.get(field, 'NA')` on an extracted dictionary. */
  function Lookup(m: map<string, string>, field: string): string {
    if field in m then m[field] else "NA"
  }

  /** `parse_vest4_score` applied to one cell; only a string can be split. */
  function VestCell(c: Cell): (r: Result<Cell, PyError>)
    ensures !c.Text? ==> r == Failure(AttributeError)
    ensures r.Success? <==> c.Text? && ParseVest4Score(c.s).Success?
    ensures r.Success? ==> r.value == Number(ParseVest4Score(c.s).value)
  {
    match c
    case Text(s) =>
      (match ParseVest4Score(s)
       case Success(x) => Success(Number(x))
       case Failure(e) => Failure(e))
    case _ => Failure(AttributeError)
  }
}
