/**
 * A data frame as the pipeline uses it: an ordered list of column names, one
 * column of optional reals per name (None is a missing cell), and a row count
 * that exists even when there are no columns.  Identifier and timestamp
 * columns are held as opaque values: the core only copies them or asks
 * whether a cell is missing.
 */
module Frames {
  import opened Wrappers
  import Stats

  type Column = seq<Option<real>>

  datatype Frame = Frame(names: seq<string>, cols: map<string, Column>, height: nat)

  predicate Distinct<T(==)>(s: seq<T>)
  {
    forall i, j :: 0 <= i < j < |s| ==> s[i] != s[j]
  }

  /** Names are distinct, name exactly the stored columns, and every column has one cell per row. */
  ghost predicate Valid(f: Frame)
  {
    && Distinct(f.names)
    && (forall n {:trigger n in f.cols} :: n in f.cols <==> n in f.names)
    && (forall n :: n in f.cols ==> |f.cols[n]| == f.height)
  }

  /** Column n, or the empty column when there is none (used in specifications). */
  function Get(f: Frame, n: string): Column
  {
    if n in f.cols then f.cols[n] else []
  }

  /** The names of `names` that are not columns of `f`, in order. */
  function Missing(f: Frame, names: seq<string>): (r: seq<string>)
    ensures forall n :: n in r <==> n in names && n !in f.cols
  {
    if |names| == 0 then []
    else (if names[0] in f.cols then [] else [names[0]]) + Missing(f, names[1..])
  }

  lemma TakeSnoc<T>(s: seq<T>, k: nat)
    requires k < |s|
    ensures s[..k] + [s[k]] == s[..k + 1]
  {
  }

  /** In a duplicate-free sequence no element occurs before its own position. */
  lemma DistinctFresh<T>(s: seq<T>, k: nat)
    requires Distinct(s) && k < |s|
    ensures s[k] !in s[..k]
  {
  }

  /** An element of the first half of a duplicate-free concatenation is not in the second. */
  lemma DistinctApart<T>(a: seq<T>, b: seq<T>, x: T)
    requires Distinct(a + b) && x in a
    ensures x !in b
  {
    var i :| 0 <= i < |a| && a[i] == x;
    forall j | 0 <= j < |b|
      ensures b[j] != x
    {
      assert (a + b)[i] == x && (a + b)[|a| + j] == b[j];
    }
  }

  /** A concatenation is duplicate-free exactly when both parts are and they share nothing. */
  lemma DistinctConcat<T>(a: seq<T>, b: seq<T>)
    ensures Distinct(a + b) <==>
      Distinct(a) && Distinct(b) && (forall i, j :: 0 <= i < |a| && 0 <= j < |b| ==> a[i] != b[j])
  {
    if Distinct(a) && Distinct(b) && (forall i, j :: 0 <= i < |a| && 0 <= j < |b| ==> a[i] != b[j]) {
      forall i, j | 0 <= i < j < |a + b|
        ensures (a + b)[i] != (a + b)[j]
      {
        if j < |a| {
        } else if i >= |a| {
          assert (a + b)[i] == b[i - |a|] && (a + b)[j] == b[j - |a|];
        } else {
          assert (a + b)[j] == b[j - |a|];
        }
      }
    }
    if Distinct(a + b) {
      forall i, j | 0 <= i < j < |a|
        ensures a[i] != a[j]
      {
        assert (a + b)[i] == a[i] && (a + b)[j] == a[j];
      }
      forall i, j | 0 <= i < j < |b|
        ensures b[i] != b[j]
      {
        assert (a + b)[|a| + i] == b[i] && (a + b)[|a| + j] == b[j];
      }
      forall i, j | 0 <= i < |a| && 0 <= j < |b|
        ensures a[i] != b[j]
      {
        assert (a + b)[i] == a[i] && (a + b)[|a| + j] == b[j];
      }
    }
  }

  /** Every name in `names` is a column of `f`. */
  predicate HasAll(f: Frame, names: seq<string>)
  {
    forall n :: n in names ==> n in f.cols
  }

  /** Column assignment `df[n] = c`: an existing column keeps its position, a new one goes last. */
  function WithColumn(f: Frame, n: string, c: Column): (g: Frame)
    requires |c| == f.height
    ensures g.height == f.height
  {
    Frame(if n in f.cols then f.names else f.names + [n], f.cols[n := c], f.height)
  }

  /** Assigning a column of the right height keeps a frame well formed. */
  lemma WithColumnValid(f: Frame, n: string, c: Column)
    requires Valid(f) && |c| == f.height
    ensures Valid(WithColumn(f, n, c))
  {
    assert n !in f.cols ==> forall i :: 0 <= i < |f.names| ==> f.names[i] != n;
  }

  /**
   * The frame after the column assignments `f[names[j]] = cs[j]` for the
   * first k columns, in order: what a loop over a column list builds.  A
   * column of the wrong height, which pandas would refuse, is skipped; the
   * lemmas below speak only of columns of the frame's height.
   */
  function AppendAll(f: Frame, names: seq<string>, cs: seq<Column>, k: nat): (g: Frame)
    requires k <= |cs| <= |names|
    ensures g.height == f.height
  {
    if k == 0 then f
    else
      var g := AppendAll(f, names, cs, k - 1);
      if |cs[k - 1]| == g.height then WithColumn(g, names[k - 1], cs[k - 1]) else g
  }

  /** The assignments keep a frame well formed and drop no column. */
  lemma {:induction false} AppendAllValid(f: Frame, names: seq<string>, cs: seq<Column>, k: nat)
    requires Valid(f) && k <= |cs| <= |names|
    requires forall j :: 0 <= j < k ==> |cs[j]| == f.height
    ensures Valid(AppendAll(f, names, cs, k))
    ensures forall n :: n in f.cols ==> n in AppendAll(f, names, cs, k).cols
  {
    if k > 0 {
      AppendAllValid(f, names, cs, k - 1);
      var prev := AppendAll(f, names, cs, k - 1);
      assert |cs[k - 1]| == prev.height;
      assert AppendAll(f, names, cs, k) == WithColumn(prev, names[k - 1], cs[k - 1]);
      WithColumnValid(prev, names[k - 1], cs[k - 1]);
    }
  }

  /** A name that is neither a column of f nor among the first k assigned is not a column afterwards. */
  lemma {:induction false} AppendAllFresh(f: Frame, names: seq<string>, cs: seq<Column>, k: nat, n: string)
    requires k <= |cs| <= |names| && n !in f.cols
    requires forall j :: 0 <= j < k ==> names[j] != n
    ensures n !in AppendAll(f, names, cs, k).cols
  {
    if k > 0 {
      AppendAllFresh(f, names, cs, k - 1, n);
    }
  }

  /** Names that extend a frame's names without repetition are distinct and not yet columns. */
  lemma FreshNames(f: Frame, names: seq<string>)
    requires Valid(f) && Distinct(f.names + names)
    ensures Distinct(names)
    ensures forall j :: 0 <= j < |names| ==> names[j] !in f.cols
  {
    DistinctConcat(f.names, names);
  }

  /** With names fresh and distinct, the new columns are appended in order. */
  lemma {:induction false} AppendAllNames(f: Frame, names: seq<string>, cs: seq<Column>, k: nat)
    requires k <= |cs| <= |names| && Distinct(names)
    requires forall j :: 0 <= j < |names| ==> names[j] !in f.cols
    requires forall j :: 0 <= j < k ==> |cs[j]| == f.height
    ensures AppendAll(f, names, cs, k).names == f.names + names[..k]
  {
    if k > 0 {
      var prev := AppendAll(f, names, cs, k - 1);
      var n := names[k - 1];
      AppendAllNames(f, names, cs, k - 1);
      assert |cs[k - 1]| == prev.height;
      assert AppendAll(f, names, cs, k) == WithColumn(prev, n, cs[k - 1]);
      assert forall j :: 0 <= j < k - 1 ==> names[j] != n;
      AppendAllFresh(f, names, cs, k - 1, n);
      TakeSnoc(names, k - 1);
      assert f.names + names[..k] == (f.names + names[..k - 1]) + [n];
    }
  }

  /** With distinct names, column names[j] of the result holds cs[j]. */
  lemma {:induction false} AppendAllGet(f: Frame, names: seq<string>, cs: seq<Column>, k: nat, j: nat)
    requires j < k <= |cs| <= |names| && Distinct(names)
    requires forall j :: 0 <= j < k ==> |cs[j]| == f.height
    ensures Get(AppendAll(f, names, cs, k), names[j]) == cs[j]
  {
    var prev := AppendAll(f, names, cs, k - 1);
    assert |cs[k - 1]| == prev.height;
    assert AppendAll(f, names, cs, k) == WithColumn(prev, names[k - 1], cs[k - 1]);
    if j < k - 1 {
      AppendAllGet(f, names, cs, k - 1, j);
      assert names[j] != names[k - 1];
    }
  }

  /** A column of f whose name is not assigned keeps its cells. */
  lemma {:induction false} AppendAllKeeps(f: Frame, names: seq<string>, cs: seq<Column>, k: nat, n: string)
    requires k <= |cs| <= |names| && n in f.cols && n !in names
    requires forall j :: 0 <= j < k ==> |cs[j]| == f.height
    ensures Get(AppendAll(f, names, cs, k), n) == f.cols[n]
  {
    if k > 0 {
      var prev := AppendAll(f, names, cs, k - 1);
      AppendAllKeeps(f, names, cs, k - 1, n);
      assert names[k - 1] != n;
      assert |cs[k - 1]| == prev.height;
      assert AppendAll(f, names, cs, k) == WithColumn(prev, names[k - 1], cs[k - 1]);
    }
  }

  /** A column of `h` cells all holding `v`. */
  function Constant(h: nat, v: real): (c: Column)
    ensures |c| == h && forall i :: 0 <= i < h ==> c[i] == Some(v)
  {
    seq(h, i => Some(v))
  }

  /** The present values of a column, in row order. */
  function Present(c: Column): (xs: seq<real>)
    ensures |xs| + NullCount(c) == |c|
    ensures (forall i :: 0 <= i < |c| ==> c[i].Some?) ==> |xs| == |c| && forall i :: 0 <= i < |c| ==> xs[i] == c[i].value
  {
    if |c| == 0 then []
    else if c[0].Some? then [c[0].value] + Present(c[1..])
    else Present(c[1..])
  }

  /** Number of missing cells. */
  function NullCount(c: Column): nat
  {
    if |c| == 0 then 0 else (if c[0].None? then 1 else 0) + NullCount(c[1..])
  }

  lemma {:induction false} PresentValuesOccur(c: Column, x: real)
    requires x in Present(c)
    ensures Some(x) in c
  {
    if |c| > 0 {
      if c[0].Some? && x == c[0].value {
      } else {
        assert x in Present(c[1..]);
        PresentValuesOccur(c[1..], x);
        var k :| 0 <= k < |c[1..]| && c[1..][k] == Some(x);
        assert c[k + 1] == Some(x);
      }
    }
  }

  lemma {:induction false} NullCountZero(c: Column)
    ensures NullCount(c) == 0 <==> forall i :: 0 <= i < |c| ==> c[i].Some?
  {
    if |c| > 0 {
      NullCountZero(c[1..]);
      assert forall i :: 1 <= i < |c| ==> c[i] == c[1..][i - 1];
    }
  }

  lemma {:induction false} NullCountAll(c: Column)
    ensures NullCount(c) == |c| <==> forall i :: 0 <= i < |c| ==> c[i].None?
  {
    if |c| > 0 {
      NullCountAll(c[1..]);
      assert NullCount(c[1..]) <= |c[1..]| by { var _ := Present(c[1..]); }
      assert forall i :: 1 <= i < |c| ==> c[i] == c[1..][i - 1];
    }
  }

  /** The values present at row i across the columns `names`, in the order of `names`. */
  function RowValues(f: Frame, names: seq<string>, i: nat): (xs: seq<real>)
    requires Valid(f) && HasAll(f, names) && i < f.height
    ensures |xs| <= |names|
  {
    if |names| == 0 then []
    else
      var c := f.cols[names[0]];
      if c[i].Some? then [c[i].value] + RowValues(f, names[1..], i)
      else RowValues(f, names[1..], i)
  }

  /** Row-wise mean across `names`, skipping missing cells (pandas `mean(axis=1)`); undefined when all are missing. */
  function RowMean(f: Frame, names: seq<string>, i: nat): Option<real>
    requires Valid(f) && HasAll(f, names) && i < f.height
  {
    var xs := RowValues(f, names, i);
    if |xs| == 0 then None else Some(Stats.Mean(xs))
  }

  lemma {:induction false} RowValuesEmpty(f: Frame, names: seq<string>, i: nat)
    requires Valid(f) && HasAll(f, names) && i < f.height
    ensures RowValues(f, names, i) == [] <==> forall n :: n in names ==> f.cols[n][i].None?
  {
    if |names| > 0 {
      RowValuesEmpty(f, names[1..], i);
      assert forall n :: n in names ==> n == names[0] || n in names[1..];
    }
  }

  lemma {:induction false} RowValuesBounds(f: Frame, names: seq<string>, i: nat, lo: real, hi: real)
    requires Valid(f) && HasAll(f, names) && i < f.height
    requires forall n :: n in names && f.cols[n][i].Some? ==> lo <= f.cols[n][i].value <= hi
    ensures forall k :: 0 <= k < |RowValues(f, names, i)| ==> lo <= RowValues(f, names, i)[k] <= hi
  {
    if |names| > 0 {
      RowValuesBounds(f, names[1..], i, lo, hi);
    }
  }

  /** When every listed cell of row i is Some(v), the present values are all v and there is one per name. */
  lemma {:induction false} RowValuesConstant(f: Frame, names: seq<string>, i: nat, v: real)
    requires Valid(f) && HasAll(f, names) && i < f.height
    requires forall n :: n in names ==> f.cols[n][i] == Some(v)
    ensures |RowValues(f, names, i)| == |names|
    ensures forall k :: 0 <= k < |names| ==> RowValues(f, names, i)[k] == v
  {
    if |names| > 0 {
      RowValuesConstant(f, names[1..], i, v);
    }
  }

  /** Row values across `names` depend only on those columns. */
  lemma {:induction false} RowValuesFrame(f: Frame, g: Frame, names: seq<string>, i: nat)
    requires Valid(f) && HasAll(f, names) && i < f.height
    requires Valid(g) && HasAll(g, names) && i < g.height
    requires forall n :: n in names ==> f.cols[n] == g.cols[n]
    ensures RowValues(f, names, i) == RowValues(g, names, i)
  {
    if |names| > 0 {
      RowValuesFrame(f, g, names[1..], i);
    }
  }

  /** Whether row i has a value in every column of `names`. */
  predicate CompleteAt(f: Frame, names: seq<string>, i: nat)
    requires Valid(f) && HasAll(f, names) && i < f.height
  {
    forall n :: n in names ==> f.cols[n][i].Some?
  }

  /** Indices of the complete rows among the first k, increasing (pandas `dropna()` on those columns). */
  function CompleteRowsUpTo(f: Frame, names: seq<string>, k: nat): (rows: seq<nat>)
    requires Valid(f) && HasAll(f, names) && k <= f.height
    ensures forall j :: 0 <= j < |rows| ==> rows[j] < k && CompleteAt(f, names, rows[j])
    ensures forall j1, j2 :: 0 <= j1 < j2 < |rows| ==> rows[j1] < rows[j2]
    ensures forall i :: 0 <= i < k && CompleteAt(f, names, i) ==> i in rows
  {
    if k == 0 then []
    else
      var prev := CompleteRowsUpTo(f, names, k - 1);
      if CompleteAt(f, names, k - 1) then prev + [k - 1] else prev
  }

  /** The complete-case rows of `names`. */
  function CompleteRows(f: Frame, names: seq<string>): (rows: seq<nat>)
    requires Valid(f) && HasAll(f, names)
    ensures forall j :: 0 <= j < |rows| ==> rows[j] < f.height && CompleteAt(f, names, rows[j])
    ensures forall j1, j2 :: 0 <= j1 < j2 < |rows| ==> rows[j1] < rows[j2]
    ensures forall i :: 0 <= i < f.height && CompleteAt(f, names, i) ==> i in rows
  {
    CompleteRowsUpTo(f, names, f.height)
  }

  /** All the rows are complete exactly when there are `height` complete rows. */
  lemma {:induction false} CompleteRowsUpToAll(f: Frame, names: seq<string>, k: nat)
    requires Valid(f) && HasAll(f, names) && k <= f.height
    ensures |CompleteRowsUpTo(f, names, k)| <= k
    ensures |CompleteRowsUpTo(f, names, k)| == k <==> forall i :: 0 <= i < k ==> CompleteAt(f, names, i)
  {
    if k > 0 {
      CompleteRowsUpToAll(f, names, k - 1);
    }
  }

  /** Values of column n at the given rows, all of which must be present. */
  function ValuesAt(f: Frame, n: string, rows: seq<nat>): (xs: seq<real>)
    requires Valid(f) && n in f.cols
    requires forall j :: 0 <= j < |rows| ==> rows[j] < f.height && f.cols[n][rows[j]].Some?
    ensures |xs| == |rows|
    ensures forall j :: 0 <= j < |rows| ==> xs[j] == f.cols[n][rows[j]].value
  {
    seq(|rows|, j requires 0 <= j < |rows| => f.cols[n][rows[j]].value)
  }

  predicate EndsWith(s: string, suffix: string)
  {
    |suffix| <= |s| && s[|s| - |suffix|..] == suffix
  }
}
