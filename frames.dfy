/**
 * An in-memory table in the shape of the pandas DataFrames the loader and the
 * classifier pass around: named columns and rows of cells. A cell is a number, a
 * string or missing (pandas' NaN).
 */
module Frames {

  import opened RealSeqs

  datatype Cell = Num(x: real) | Text(s: string) | Missing

  datatype Frame = Frame(columns: seq<string>, rows: seq<seq<Cell>>)
  {
    /** Every row has one cell per column. */
    ghost predicate WellFormed()
    {
      forall i :: 0 <= i < |rows| ==> |rows[i]| == |columns|
    }
  }

  /** The position of the first occurrence of `x` in `xs`. */
  function IndexOf<T(==)>(xs: seq<T>, x: T): (k: nat)
    requires x in xs
    ensures k < |xs| && xs[k] == x
    ensures forall j :: 0 <= j < k ==> xs[j] != x
  {
    if xs[0] == x then 0 else 1 + IndexOf(xs[1..], x)
  }

  lemma {:induction false} IndexOfExtend<T>(xs: seq<T>, y: T, x: T)
    requires x in xs
    ensures IndexOf(xs + [y], x) == IndexOf(xs, x)
  {
    if xs[0] != x {
      assert (xs + [y])[1..] == xs[1..] + [y];
      IndexOfExtend(xs[1..], y, x);
    }
  }

  lemma IndexOfLast<T>(xs: seq<T>, x: T)
    requires x !in xs
    ensures IndexOf(xs + [x], x) == |xs|
  {
    assert forall j :: 0 <= j < |xs| ==> (xs + [x])[j] == xs[j];
  }

  /** The cells of column `name` (`df[name]`); with repeated names, the first such column. */
  function Column(f: Frame, name: string): (c: seq<Cell>)
    requires f.WellFormed() && name in f.columns
    ensures |c| == |f.rows|
    ensures forall i :: 0 <= i < |c| ==> c[i] == f.rows[i][IndexOf(f.columns, name)]
  {
    var j := IndexOf(f.columns, name);
    seq(|f.rows|, i requires 0 <= i < |f.rows| => f.rows[i][j])
  }

  /** The rows whose cell in position `j` equals `v`, in their original order. */
  function RowsWhere(rows: seq<seq<Cell>>, j: nat, v: Cell): (r: seq<seq<Cell>>)
    requires forall i :: 0 <= i < |rows| ==> j < |rows[i]|
    ensures |r| <= |rows|
    ensures forall k :: 0 <= k < |r| ==> r[k] in rows
  {
    if rows == [] then []
    else
      var init := RowsWhere(rows[..|rows| - 1], j, v);
      var last := rows[|rows| - 1];
      if last[j] == v then init + [last] else init
  }

  /** The rows kept are exactly the rows whose cell `j` is `v`. */
  lemma {:induction false} RowsWhereMembers(rows: seq<seq<Cell>>, j: nat, v: Cell)
    requires forall i :: 0 <= i < |rows| ==> j < |rows[i]|
    ensures forall row :: row in RowsWhere(rows, j, v) <==> row in rows && row[j] == v
  {
    if rows != [] {
      assert rows == rows[..|rows| - 1] + [rows[|rows| - 1]];
      RowsWhereMembers(rows[..|rows| - 1], j, v);
    }
  }

  /** The positions, ascending, of the rows whose cell in position `j` equals `v`. */
  function Matching(rows: seq<seq<Cell>>, j: nat, v: Cell): (idx: seq<nat>)
    requires forall i :: 0 <= i < |rows| ==> j < |rows[i]|
    ensures forall k :: 0 <= k < |idx| ==> idx[k] < |rows|
  {
    Where(seq(|rows|, i requires 0 <= i < |rows| => rows[i][j] == v))
  }

  /** The matching positions of a table are those of all but its last row, then possibly the last. */
  lemma MatchingSnoc(rows: seq<seq<Cell>>, j: nat, v: Cell)
    requires rows != [] && forall i :: 0 <= i < |rows| ==> j < |rows[i]|
    ensures var n := |rows|;
      Matching(rows, j, v) ==
        if rows[n - 1][j] == v then Matching(rows[..n - 1], j, v) + [n - 1] else Matching(rows[..n - 1], j, v)
  {
    var n := |rows|;
    var init := rows[..n - 1];
    var mask := seq(|rows|, i requires 0 <= i < |rows| => rows[i][j] == v);
    assert mask[..n - 1] == seq(|init|, i requires 0 <= i < |init| => init[i][j] == v);
  }

  /**
   * The filter keeps the matching rows in table order, repeated rows included: it is
   * the table's rows at the matching positions, taken in ascending order.
   */
  lemma {:induction false} RowsWhereInOrder(rows: seq<seq<Cell>>, j: nat, v: Cell)
    requires forall i :: 0 <= i < |rows| ==> j < |rows[i]|
    ensures RowsWhere(rows, j, v) == Select(rows, Matching(rows, j, v))
  {
    if rows != [] {
      var n := |rows|;
      var init := rows[..n - 1];
      var idx := Matching(init, j, v);
      MatchingSnoc(rows, j, v);
      RowsWhereInOrder(init, j, v);
      SelectPrefix(rows, idx, n - 1);
      assert rows[..n - 1] == init;
      if rows[n - 1][j] == v {
        SelectSnoc(rows, idx, n - 1);
      }
    }
  }

  /** `df[df[name] == v]`: the same columns, only the rows whose `name` cell is `v`. */
  function SelectRows(f: Frame, name: string, v: Cell): (g: Frame)
    requires f.WellFormed() && name in f.columns
    ensures g.WellFormed() && g.columns == f.columns
  {
    Frame(f.columns, RowsWhere(f.rows, IndexOf(f.columns, name), v))
  }

  /**
   * The selected rows are exactly the table's rows whose `name` cell is `v`, kept in
   * table order with their repetitions.
   */
  lemma SelectRowsMembers(f: Frame, name: string, v: Cell)
    requires f.WellFormed() && name in f.columns
    ensures forall row :: row in SelectRows(f, name, v).rows <==> row in f.rows && row[IndexOf(f.columns, name)] == v
    ensures SelectRows(f, name, v).rows == Select(f.rows, Matching(f.rows, IndexOf(f.columns, name), v))
  {
    RowsWhereMembers(f.rows, IndexOf(f.columns, name), v);
    RowsWhereInOrder(f.rows, IndexOf(f.columns, name), v);
  }

  ghost predicate NoDuplicates<T>(s: seq<T>)
  {
    forall i, j :: 0 <= i < j < |s| ==> s[i] != s[j]
  }

  /** The distinct values of `s` in order of first appearance (`Series.unique()`). */
  function Unique(s: seq<Cell>): (u: seq<Cell>)
    ensures forall x :: x in u <==> x in s
    ensures NoDuplicates(u)
  {
    if s == [] then []
    else
      var u := Unique(s[..|s| - 1]);
      var last := s[|s| - 1];
      assert s == s[..|s| - 1] + [last];
      if last in u then u else u + [last]
  }

  /** Unique keeps first-appearance order: earlier values first appeared earlier. */
  lemma {:induction false} UniqueFirstAppearance(s: seq<Cell>, i: nat, j: nat)
    requires i < j < |Unique(s)|
    ensures IndexOf(s, Unique(s)[i]) < IndexOf(s, Unique(s)[j])
  {
    var init := s[..|s| - 1];
    var last := s[|s| - 1];
    assert s == init + [last];
    var u := Unique(init);
    var x, y := Unique(s)[i], Unique(s)[j];
    if last in u {
      UniqueFirstAppearance(init, i, j);
      IndexOfExtend(init, last, x);
      IndexOfExtend(init, last, y);
    } else if j < |u| {
      UniqueFirstAppearance(init, i, j);
      IndexOfExtend(init, last, x);
      IndexOfExtend(init, last, y);
    } else {
      assert y == last && x in init;
      IndexOfExtend(init, last, x);
      assert IndexOf(s, y) == |s| - 1 by {
        assert forall k :: 0 <= k < |init| ==> s[k] == init[k] && init[k] != last;
      }
    }
  }

  predicate AllNum(c: seq<Cell>)
  {
    forall i :: 0 <= i < |c| ==> c[i].Num?
  }

  predicate AllText(c: seq<Cell>)
  {
    forall i :: 0 <= i < |c| ==> c[i].Text?
  }

  /** The numbers of a column that holds only numbers. */
  function Reals(c: seq<Cell>): (r: seq<real>)
    requires AllNum(c)
    ensures |r| == |c| && forall i :: 0 <= i < |c| ==> c[i] == Num(r[i])
  {
    seq(|c|, i requires 0 <= i < |c| => c[i].x)
  }

  /** The numbers of a column with its missing cells skipped, as pandas' reductions do. */
  function PresentNumbers(c: seq<Cell>): (r: seq<real>)
    ensures |r| <= |c|
  {
    if c == [] then []
    else
      var init := PresentNumbers(c[..|c| - 1]);
      var last := c[|c| - 1];
      assert c == c[..|c| - 1] + [last];
      if last.Num? then init + [last.x] else init
  }

  /** The present numbers are exactly the numeric cells' values. */
  lemma {:induction false} PresentNumbersMembers(c: seq<Cell>)
    ensures forall x :: x in PresentNumbers(c) <==> Num(x) in c
  {
    if c != [] {
      assert c == c[..|c| - 1] + [c[|c| - 1]];
      PresentNumbersMembers(c[..|c| - 1]);
    }
  }

  /** The number of missing cells (`isna().sum()`). */
  function CountMissing(c: seq<Cell>): (n: nat)
    ensures n <= |c|
    ensures n == multiset(c)[Missing]
    ensures n > 0 <==> Missing in c
  {
    if c == [] then 0
    else
      var last := c[|c| - 1];
      assert c == c[..|c| - 1] + [last];
      CountMissing(c[..|c| - 1]) + (if last.Missing? then 1 else 0)
  }
}
