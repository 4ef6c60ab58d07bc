/** The pandas table model shared by the three scripts: cells, rows, frames and the
    column operations the scripts apply to them. */
module Frames {

  /** One cell: pandas' missing value (NaN), a string, or a number. */
  datatype Cell = Missing | Text(s: string) | Number(x: real)

  /** One row, keyed by column name. */
  type Row = map<string, Cell>

  /** A table: its column labels in order and its rows in order (the default 0..n-1 index). */
  datatype Frame = Frame(columns: seq<string>, rows: seq<Row>)

  predicate Distinct<T(==)>(s: seq<T>) {
    forall i, j :: 0 <= i < j < |s| ==> s[i] != s[j]
  }

  /** No element of `a` occurs in `b`. */
  predicate Apart<T(==)>(a: seq<T>, b: seq<T>) {
    forall i, j :: 0 <= i < |a| && 0 <= j < |b| ==> a[i] != b[j]
  }

  /** A concatenation is distinct exactly when both parts are and they share nothing. */
  lemma DistinctConcat<T>(a: seq<T>, b: seq<T>)
    ensures Distinct(a + b) <==> Distinct(a) && Distinct(b) && Apart(a, b)
  {
    var s := a + b;
    if Distinct(s) {
      forall i, j | 0 <= i < j < |a|
        ensures a[i] != a[j]
      {
        assert s[i] == a[i] && s[j] == a[j];
      }
      forall i, j | 0 <= i < |a| && 0 <= j < |b|
        ensures a[i] != b[j]
      {
        assert s[i] == a[i] && s[|a| + j] == b[j];
      }
      forall i, j | 0 <= i < j < |b|
        ensures b[i] != b[j]
      {
        assert s[|a| + i] == b[i] && s[|a| + j] == b[j];
      }
    }
    if Distinct(a) && Distinct(b) && Apart(a, b) {
      forall i, j | 0 <= i < j < |s|
        ensures s[i] != s[j]
      {
        if j < |a| {
        } else if i >= |a| {
          assert s[i] == b[i - |a|] && s[j] == b[j - |a|];
        } else {
          assert s[j] == b[j - |a|];
        }
      }
    }
  }

  /** Two parts apart from `c` make a concatenation apart from `c`. */
  lemma ApartConcat<T>(a: seq<T>, b: seq<T>, c: seq<T>)
    requires Apart(a, c) && Apart(b, c)
    ensures Apart(a + b, c)
  {
    forall i, j | 0 <= i < |a + b| && 0 <= j < |c|
      ensures (a + b)[i] != c[j]
    {
      if i >= |a| {
        assert (a + b)[i] == b[i - |a|];
      }
    }
  }

  function ColumnSet(columns: seq<string>): set<string> {
    set c | c in columns
  }

  lemma ColumnSetConcat(a: seq<string>, b: seq<string>)
    ensures ColumnSet(a + b) == ColumnSet(a) + ColumnSet(b)
  {
  }

  /** Sequences whose element sets are disjoint are apart. */
  lemma SetsApart(a: seq<string>, b: seq<string>)
    requires ColumnSet(a) !! ColumnSet(b)
    ensures Apart(a, b)
  {
    forall i, j | 0 <= i < |a| && 0 <= j < |b|
      ensures a[i] != b[j]
    {
      assert a[i] in ColumnSet(a) && b[j] in ColumnSet(b);
    }
  }

  /** Distinct column labels, and every row holds exactly those columns. */
  predicate WellFormed(f: Frame) {
    && Distinct(f.columns)
    && forall i :: 0 <= i < |f.rows| ==> f.rows[i].Keys == ColumnSet(f.columns)
  }

  /** pandas' element-wise `==`: a missing cell equals nothing, not even a missing cell. */
  predicate CellEq(a: Cell, b: Cell)
    ensures CellEq(a, b) ==> a == b && !a.Missing?
  {
    match (a, b)
    case (Text(x), Text(y)) => x == y
    case (Number(x), Number(y)) => x == y
    case _ => false
  }

  /** The row's `key` cell exists and compares equal to `v`. */
  predicate Matches(r: Row, key: string, v: Cell) {
    key in r && CellEq(r[key], v)
  }

  predicate StrictlyIncreasing(s: seq<nat>) {
    forall i, j :: 0 <= i < j < |s| ==> s[i] < s[j]
  }

  /** The positions of the elements satisfying `p`: a boolean mask turned into index labels. */
  function Positions<T>(s: seq<T>, p: T -> bool): (r: seq<nat>)
    ensures forall k :: 0 <= k < |r| ==> r[k] < |s| && p(s[r[k]])
    ensures forall i :: 0 <= i < |s| && p(s[i]) ==> i in r
    ensures StrictlyIncreasing(r)
  {
    if s == [] then []
    else
      var n := |s| - 1;
      Positions(s[..n], p) + if p(s[n]) then [n] else []
  }

  /** `a` is `b` with some elements left out and the rest kept in order. */
  predicate IsSubsequence<T(==)>(a: seq<T>, b: seq<T>)
    decreases |b|
  {
    if a == [] then true
    else if b == [] then false
    else if a[|a| - 1] == b[|b| - 1] then IsSubsequence(a[..|a| - 1], b[..|b| - 1])
    else IsSubsequence(a, b[..|b| - 1])
  }

  lemma {:induction false} SubsequenceDropLast<T>(a: seq<T>, b: seq<T>)
    requires a != [] && IsSubsequence(a, b)
    ensures IsSubsequence(a[..|a| - 1], b)
    decreases |b|, 0
  {
    var na, nb := |a| - 1, |b| - 1;
    if a[na] != b[nb] {
      SubsequenceDropLast(a, b[..nb]);
      SubsequenceExtend(a[..na], b[..nb], b[nb]);
      assert b[..nb] + [b[nb]] == b;
    } else {
      SubsequenceExtend(a[..na], b[..nb], b[nb]);
      assert b[..nb] + [b[nb]] == b;
    }
  }

  lemma {:induction false} SubsequenceExtend<T>(a: seq<T>, b: seq<T>, x: T)
    requires IsSubsequence(a, b)
    ensures IsSubsequence(a, b + [x])
    decreases |b|, 1
  {
    if a != [] && a[|a| - 1] == x {
      SubsequenceDropLast(a, b);
      assert (b + [x])[..|b|] == b;
    } else {
      assert (b + [x])[..|b|] == b;
    }
  }

  lemma {:induction false} SubsequenceReflexive<T>(s: seq<T>)
    ensures IsSubsequence(s, s)
    decreases |s|
  {
    if s != [] {
      SubsequenceReflexive(s[..|s| - 1]);
    }
  }

  /** A subsequence of an increasing sequence is increasing. */
  lemma {:induction false} SubsequenceIncreasing(a: seq<nat>, b: seq<nat>)
    requires IsSubsequence(a, b) && StrictlyIncreasing(b)
    ensures StrictlyIncreasing(a)
    decreases |b|
  {
    if a != [] && b != [] {
      var na, nb := |a| - 1, |b| - 1;
      if a[na] == b[nb] {
        SubsequenceIncreasing(a[..na], b[..nb]);
        SubsequenceMembers(a[..na], b[..nb]);
        forall i | 0 <= i < na
          ensures a[i] < a[na]
        {
          assert a[..na][i] in b[..nb];
        }
      } else {
        SubsequenceIncreasing(a, b[..nb]);
      }
    }
  }

  /** Boolean-mask selection: the elements satisfying `p`, in their original order. */
  function Filter<T>(s: seq<T>, p: T -> bool): (r: seq<T>)
    ensures IsSubsequence(r, s)
    ensures forall k :: 0 <= k < |r| ==> p(r[k])
    ensures forall i :: 0 <= i < |s| && p(s[i]) ==> s[i] in r
  {
    if s == [] then []
    else
      var n := |s| - 1;
      var r := Filter(s[..n], p);
      assert s == s[..n] + [s[n]];
      if p(s[n]) then
        assert (r + [s[n]])[..|r|] == r;
        r + [s[n]]
      else
        SubsequenceExtend(r, s[..n], s[n]);
        r
  }

  /** Selection keeps exactly the elements at the selected positions. */
  lemma {:induction false} FilterPositions<T>(s: seq<T>, p: T -> bool)
    ensures |Filter(s, p)| == |Positions(s, p)|
    ensures forall i :: 0 <= i < |Positions(s, p)| ==> Filter(s, p)[i] == s[Positions(s, p)[i]]
  {
    if s != [] {
      var n := |s| - 1;
      FilterPositions(s[..n], p);
      var r, q := Filter(s[..n], p), Positions(s[..n], p);
      var tail := if p(s[n]) then [s[n]] else [];
      var last := if p(s[n]) then [n] else [];
      assert Filter(s, p) == r + tail;
      assert Positions(s, p) == q + last;
      forall i | 0 <= i < |q|
        ensures (r + tail)[i] == s[(q + last)[i]]
      {
        assert r[i] == s[..n][q[i]];
      }
    }
  }

  /** The boolean mask `f[column] == value`, row by row. */
  function Mask(column: string, value: Cell): Row -> bool {
    (r: Row) => Matches(r, column, value)
  }

  /** The index labels of `f[f[column] == value]`, in order. */
  function LabelsWhere(f: Frame, column: string, value: Cell): (labels: seq<nat>)
    ensures StrictlyIncreasing(labels)
    ensures forall l: nat :: l in labels <==> l < |f.rows| && Matches(f.rows[l], column, value)
  {
    var labels := Positions(f.rows, Mask(column, value));
    assert forall l: nat :: l in labels ==> exists k :: 0 <= k < |labels| && labels[k] == l;
    labels
  }

  /** `f[f[column] == value]`: the rows at those labels, in order, under the same columns. */
  function RowsWhere(f: Frame, column: string, value: Cell): (g: Frame)
    requires WellFormed(f)
    ensures WellFormed(g) && g.columns == f.columns
    ensures var labels := LabelsWhere(f, column, value);
      |g.rows| == |labels| && forall i :: 0 <= i < |labels| ==> g.rows[i] == f.rows[labels[i]]
  {
    var p := Mask(column, value);
    FilterPositions(f.rows, p);
    Frame(f.columns, Filter(f.rows, p))
  }

  /** Selecting from a prefix one longer appends the new element when it is selected. */
  lemma FilterPrefix<T>(s: seq<T>, k: nat, p: T -> bool)
    requires k < |s|
    ensures Filter(s[..k + 1], p) == Filter(s[..k], p) + if p(s[k]) then [s[k]] else []
  {
    assert s[..k + 1][..k] == s[..k];
  }

  /** A selection and its complement split the sequence: their lengths add up. */
  lemma {:induction false} FilterPartition<T>(s: seq<T>, p: T -> bool, q: T -> bool)
    requires forall x :: q(x) == !p(x)
    ensures |Filter(s, p)| + |Filter(s, q)| == |s|
  {
    if s != [] {
      FilterPartition(s[..|s| - 1], p, q);
    }
  }

  /** Every element of a subsequence is an element of the whole. */
  lemma {:induction false} SubsequenceMembers<T>(a: seq<T>, b: seq<T>)
    requires IsSubsequence(a, b)
    ensures forall k :: 0 <= k < |a| ==> a[k] in b
    decreases |b|
  {
    if a != [] && b != [] {
      var na, nb := |a| - 1, |b| - 1;
      if a[na] == b[nb] {
        SubsequenceMembers(a[..na], b[..nb]);
      } else {
        SubsequenceMembers(a, b[..nb]);
      }
    }
  }

  /** The column `name` of a well-formed frame, top to bottom. */
  function Column(f: Frame, name: string): (col: seq<Cell>)
    requires WellFormed(f) && name in f.columns
    ensures |col| == |f.rows|
    ensures forall i :: 0 <= i < |col| ==> col[i] == f.rows[i][name]
  {
    seq(|f.rows|, i requires 0 <= i < |f.rows| => f.rows[i][name])
  }

  /** `df[name] = values`: overwrite the column in place, or append it as the last column. */
  function WithColumn(f: Frame, name: string, values: seq<Cell>): (g: Frame)
    requires WellFormed(f) && |values| == |f.rows|
    ensures WellFormed(g)
    ensures |g.rows| == |f.rows|
    ensures ColumnSet(g.columns) == ColumnSet(f.columns) + {name}
    ensures name in f.columns ==> g.columns == f.columns
    ensures name !in f.columns ==> g.columns == f.columns + [name]
    ensures forall i, c :: 0 <= i < |g.rows| && c in g.rows[i] ==>
      g.rows[i][c] == if c == name then values[i] else f.rows[i][c]
  {
    var columns := if name in f.columns then f.columns else f.columns + [name];
    assert ColumnSet(columns) == ColumnSet(f.columns) + {name};
    Frame(columns, seq(|f.rows|, i requires 0 <= i < |f.rows| => f.rows[i][name := values[i]]))
  }

  /** The label a column carries after `rename(columns=mapping)`. */
  function RenameLabel(c: string, mapping: map<string, string>): string {
    if c in mapping then mapping[c] else c
  }

  function RenamedColumns(columns: seq<string>, mapping: map<string, string>): (r: seq<string>)
    ensures |r| == |columns|
    ensures forall k :: 0 <= k < |r| ==> r[k] == RenameLabel(columns[k], mapping)
  {
    seq(|columns|, k requires 0 <= k < |columns| => RenameLabel(columns[k], mapping))
  }

  /** Index of `x` in `s`. */
  function Position<T(==)>(s: seq<T>, x: T): (k: nat)
    requires x in s
    ensures k < |s| && s[k] == x
  {
    if s[0] == x then 0 else 1 + Position(s[1..], x)
  }

  /** `df.rename(columns=mapping)`, for a mapping that leaves the labels distinct: each cell
      moves, unchanged, to its column's new label. */
  function Renamed(f: Frame, mapping: map<string, string>): (g: Frame)
    requires WellFormed(f) && Distinct(RenamedColumns(f.columns, mapping))
    ensures WellFormed(g)
    ensures g.columns == RenamedColumns(f.columns, mapping)
    ensures |g.rows| == |f.rows|
    ensures forall i, k :: 0 <= i < |g.rows| && 0 <= k < |f.columns| ==>
      g.rows[i][RenameLabel(f.columns[k], mapping)] == f.rows[i][f.columns[k]]
  {
    var labels := RenamedColumns(f.columns, mapping);
    var rows := seq(|f.rows|, i requires 0 <= i < |f.rows| =>
      map n | n in labels :: f.rows[i][f.columns[Position(labels, n)]]);
    assert forall i :: 0 <= i < |rows| ==> rows[i].Keys == ColumnSet(labels);
    assert forall k :: 0 <= k < |labels| ==> Position(labels, labels[k]) == k;
    Frame(labels, rows)
  }

  predicate Injective(mapping: map<string, string>) {
    forall a, b :: a in mapping && b in mapping && mapping[a] == mapping[b] ==> a == b
  }

  /** Renaming distinct labels with an injective mapping whose sources are all present
      keeps them distinct exactly when no present label is a target that is not itself
      renamed away. */
  lemma RenamedDistinct(columns: seq<string>, mapping: map<string, string>)
    requires Distinct(columns) && Injective(mapping) && mapping.Keys <= ColumnSet(columns)
    ensures Distinct(RenamedColumns(columns, mapping)) <==> ColumnSet(columns) !! (mapping.Values - mapping.Keys)
  {
    var r := RenamedColumns(columns, mapping);
    if ColumnSet(columns) !! (mapping.Values - mapping.Keys) {
      forall i, j | 0 <= i < j < |r|
        ensures r[i] != r[j]
      {
        if columns[i] in mapping && columns[j] !in mapping {
          assert columns[j] !in mapping.Values - mapping.Keys;
        } else if columns[i] !in mapping && columns[j] in mapping {
          assert columns[i] !in mapping.Values - mapping.Keys;
        }
      }
    } else {
      var y :| y in ColumnSet(columns) && y in mapping.Values - mapping.Keys;
      var x :| x in mapping && mapping[x] == y;
      var a, b := Position(columns, x), Position(columns, y);
      assert r[a] == y == r[b] && a != b;
      if a < b {
        assert !Distinct(r);
      } else {
        assert !Distinct(r);
      }
    }
  }

  /** A renamed column carries its source column's cells under its new label. */
  lemma RenamedSource(f: Frame, mapping: map<string, string>, x: string)
    requires WellFormed(f) && Distinct(RenamedColumns(f.columns, mapping))
    requires x in f.columns && x in mapping
    ensures var g := Renamed(f, mapping);
      && mapping[x] in g.columns
      && forall i :: 0 <= i < |g.rows| ==> g.rows[i][mapping[x]] == f.rows[i][x]
  {
    var k := Position(f.columns, x);
    assert RenamedColumns(f.columns, mapping)[k] == mapping[x];
  }

  /** A label the mapping neither renames nor produces is present after the rename exactly
      when it was before, with the same cells. */
  lemma RenamedUntouched(f: Frame, mapping: map<string, string>, c: string)
    requires WellFormed(f) && Distinct(RenamedColumns(f.columns, mapping))
    requires c !in mapping && c !in mapping.Values
    ensures var g := Renamed(f, mapping);
      && (c in g.columns <==> c in f.columns)
      && (c in f.columns ==> forall i :: 0 <= i < |g.rows| ==> g.rows[i][c] == f.rows[i][c])
  {
    var g := Renamed(f, mapping);
    if c in g.columns {
      var k := Position(g.columns, c);
      assert RenameLabel(f.columns[k], mapping) == c;
      assert f.columns[k] == c;
    }
    if c in f.columns {
      var k := Position(f.columns, c);
      assert g.columns[k] == c;
    }
  }

  /** The same, for a column whose cells are given. */
  lemma RenamedColumnCells(f: Frame, mapping: map<string, string>, c: string, values: seq<Cell>)
    requires WellFormed(f) && Distinct(RenamedColumns(f.columns, mapping))
    requires c !in mapping && c !in mapping.Values && c in f.columns && |values| == |f.rows|
    requires forall i :: 0 <= i < |f.rows| ==> f.rows[i][c] == values[i]
    ensures var g := Renamed(f, mapping);
      c in g.columns && forall i :: 0 <= i < |g.rows| ==> g.rows[i][c] == values[i]
  {
    RenamedUntouched(f, mapping, c);
  }

  /** `df.reindex(columns=columns, fill_value=fill)`: exactly the listed columns, in that
      order, taken from the frame where it has them and `fill` where it does not. */
  function Reindexed(f: Frame, columns: seq<string>, fill: Cell): (g: Frame)
    requires WellFormed(f) && Distinct(columns)
    ensures WellFormed(g)
    ensures g.columns == columns && |g.rows| == |f.rows|
    ensures forall i, c :: 0 <= i < |g.rows| && c in columns ==>
      g.rows[i][c] == if c in f.columns then f.rows[i][c] else fill
  {
    Frame(columns, seq(|f.rows|, i requires 0 <= i < |f.rows| =>
      map c | c in columns :: if c in f.rows[i] then f.rows[i][c] else fill))
  }

  /** One row after overwriting column `name` and reindexing onto `columns`, compared
      cell by cell with a given row. */
  lemma ReindexedRow(f: Frame, name: string, values: seq<Cell>, columns: seq<string>, fill: Cell,
                     i: int, target: Row)
    requires WellFormed(f) && name in f.columns && |values| == |f.rows| && Distinct(columns)
    requires 0 <= i < |f.rows| && target.Keys == ColumnSet(columns)
    requires name in columns ==> target[name] == values[i]
    requires forall c :: c in columns && c != name ==>
      (if c in f.columns then f.rows[i][c] else fill) == target[c]
    ensures Reindexed(WithColumn(f, name, values), columns, fill).rows[i] == target
  {
    var g := Reindexed(WithColumn(f, name, values), columns, fill);
    assert g.rows[i].Keys == target.Keys;
  }

  /** A pandas DataFrame that the scripts update in place. */
  class DataFrame {
    var columns: seq<string>
    var rows: seq<Row>

    function Value(): Frame
      reads this
    {
      Frame(columns, rows)
    }

    ghost predicate Valid()
      reads this
    {
      WellFormed(Value())
    }

    constructor (f: Frame)
      requires WellFormed(f)
      ensures Valid() && Value() == f
    {
      columns := f.columns;
      rows := f.rows;
    }

    /** `df[name]` */
    method Get(name: string) returns (col: seq<Cell>)
      requires Valid() && name in columns
      ensures col == Column(Value(), name)
    {
      var rs := rows;
      col := seq(|rs|, i requires 0 <= i < |rs| => rs[i][name]);
    }

    /** `df[name] = values` */
    method Assign(name: string, values: seq<Cell>)
      requires Valid() && |values| == |rows|
      modifies this
      ensures Valid() && Value() == WithColumn(old(Value()), name, values)
    {
      var g := WithColumn(Value(), name, values);
      columns, rows := g.columns, g.rows;
    }

    /** `df.rename(columns=mapping, inplace=True)` */
    method Rename(mapping: map<string, string>)
      requires Valid() && Distinct(RenamedColumns(columns, mapping))
      modifies this
      ensures Valid() && Value() == Renamed(old(Value()), mapping)
    {
      var g := Renamed(Value(), mapping);
      columns, rows := g.columns, g.rows;
    }

    /** `df.reindex(columns=labels, fill_value=fill)`: a new frame; this one is left as it is. */
    method Reindex(labels: seq<string>, fill: Cell) returns (g: Frame)
      requires Valid() && Distinct(labels)
      ensures g == Reindexed(Value(), labels, fill)
    {
      g := Reindexed(Value(), labels, fill);
    }
  }
}
