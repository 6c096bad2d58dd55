/**
 * Sequence helpers shared by both loaders: dropping nulls, keeping the first
 * occurrence of each value (pandas' `unique()` and SQL's `SELECT DISTINCT`),
 * and the position of a value's first occurrence.
 */
module Sequences {
  import opened Wrappers

  /** No value occurs twice. */
  predicate Distinct<T(==,!new)>(xs: seq<T>)
  {
    forall i, j :: 0 <= i < j < |xs| ==> xs[i] != xs[j]
  }

  /** The present values of a column, in order, with the nulls dropped. */
  function DropNulls<T(==,!new)>(xs: seq<Option<T>>): (r: seq<T>)
    ensures |r| <= |xs|
    ensures forall x :: x in r <==> Some(x) in xs
  {
    if xs == [] then []
    else
      assert xs == [xs[0]] + xs[1..];
      (if xs[0].Some? then [xs[0].value] else []) + DropNulls(xs[1..])
  }

  /** Each value once, at the place of its first occurrence. */
  function Unique<T(==,!new)>(xs: seq<T>): (r: seq<T>)
    ensures |r| <= |xs|
    ensures Distinct(r)
    ensures forall x :: x in r <==> x in xs
  {
    if xs == [] then []
    else
      var rest := Unique(xs[..|xs| - 1]);
      var last := xs[|xs| - 1];
      assert xs == xs[..|xs| - 1] + [last];
      if last in rest then rest else rest + [last]
  }

  /** A sequence holding one value, possibly repeated, deduplicates to that value alone. */
  lemma {:induction false} UniqueOfRepeated<T(!new)>(xs: seq<T>, x: T)
    requires xs != [] && forall y :: y in xs ==> y == x
    ensures Unique(xs) == [x]
  {
    var init := xs[..|xs| - 1];
    assert xs[|xs| - 1] in xs;
    if init != [] {
      assert forall y :: y in init ==> y in xs;
      UniqueOfRepeated(init, x);
      assert init[0] in Unique(init);
    }
  }

  /** The position of the first occurrence of `x` in `xs`. */
  function FirstIndex<T(==,!new)>(xs: seq<T>, x: T): (k: nat)
    requires x in xs
    ensures k < |xs| && xs[k] == x && x !in xs[..k]
  {
    if xs[0] == x then 0
    else
      var k := 1 + FirstIndex(xs[1..], x);
      assert xs[..k] == [xs[0]] + xs[1..][..k - 1];
      k
  }

  /** The first occurrence is the only position before which `x` does not occur. */
  lemma FirstIndexIsUnique<T(!new)>(xs: seq<T>, x: T, k: nat)
    requires k < |xs| && xs[k] == x && x !in xs[..k]
    ensures FirstIndex(xs, x) == k
  {
  }

  /** A value occurring in a prefix has its first occurrence in that prefix. */
  lemma FirstIndexInPrefix<T(!new)>(xs: seq<T>, n: nat, x: T)
    requires n <= |xs| && x in xs[..n]
    ensures FirstIndex(xs, x) == FirstIndex(xs[..n], x)
  {
    var k := FirstIndex(xs[..n], x);
    assert xs[..n][..k] == xs[..k];
    FirstIndexIsUnique(xs, x, k);
  }

  /** `Unique` lists the values in the order of their first occurrences. */
  lemma {:induction false} UniqueKeepsFirstOccurrenceOrder<T(!new)>(xs: seq<T>)
    ensures forall i, j :: 0 <= i < j < |Unique(xs)| ==>
              FirstIndex(xs, Unique(xs)[i]) < FirstIndex(xs, Unique(xs)[j])
  {
    if xs != [] {
      var n := |xs|;
      var p := xs[..n - 1];
      var last := xs[n - 1];
      var rest := Unique(p);
      var r := Unique(xs);
      UniqueKeepsFirstOccurrenceOrder(p);
      forall y | y in p
        ensures FirstIndex(xs, y) == FirstIndex(p, y)
      {
        FirstIndexInPrefix(xs, n - 1, y);
      }
      if last !in rest {
        assert last !in xs[..n - 1];
        FirstIndexIsUnique(xs, last, n - 1);
        assert r == rest + [last];
        forall i, j | 0 <= i < j < |r|
          ensures FirstIndex(xs, r[i]) < FirstIndex(xs, r[j])
        {
          assert r[i] == rest[i] && r[i] in p;
          if j < |rest| {
            assert r[j] == rest[j] && r[j] in p;
          }
        }
      }
    }
  }

  /** Past a head that differs from `x`, the first occurrence of `x` is one further on in the tail. */
  lemma FirstIndexOfTail<T(!new)>(xs: seq<T>, x: T)
    requires x in xs && xs[0] != x
    ensures x in xs[1..] && FirstIndex(xs, x) == 1 + FirstIndex(xs[1..], x)
  {
    assert xs == [xs[0]] + xs[1..];
  }

  /** Dropping nulls keeps the relative order of the first occurrences. */
  lemma {:induction false} DropNullsKeepsOrder<T(!new)>(xs: seq<Option<T>>, x: T, y: T)
    requires x in DropNulls(xs) && y in DropNulls(xs)
    requires FirstIndex(DropNulls(xs), x) < FirstIndex(DropNulls(xs), y)
    ensures FirstIndex(xs, Some(x)) < FirstIndex(xs, Some(y))
  {
    var d := DropNulls(xs);
    var tail := DropNulls(xs[1..]);
    assert Some(x) in xs && Some(y) in xs;
    if xs[0] != Some(x) {
      if xs[0].None? {
        assert d == tail;
      } else {
        assert d == [xs[0].value] + tail;
        FirstIndexOfTail(d, x);
        assert d[0] in d[..FirstIndex(d, y)];
        FirstIndexOfTail(d, y);
      }
      DropNullsKeepsOrder(xs[1..], x, y);
      FirstIndexOfTail(xs, Some(x));
      FirstIndexOfTail(xs, Some(y));
    }
  }

  /** The concatenation of a sequence of sequences, in order. */
  function Concat<T>(xss: seq<seq<T>>): seq<T>
  {
    if xss == [] then [] else xss[0] + Concat(xss[1..])
  }

  lemma {:induction false} ConcatAppend<T>(xss: seq<seq<T>>, ys: seq<T>)
    ensures Concat(xss + [ys]) == Concat(xss) + ys
  {
    if xss != [] {
      assert (xss + [ys])[1..] == xss[1..] + [ys];
      ConcatAppend(xss[1..], ys);
    }
  }
}
