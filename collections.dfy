/**
 * Sequence operations that the service's LINQ pipelines are made of:
 * `Where` (Filter), `Distinct`, `SelectMany` (Concat) and first-occurrence lookup.
 */
module Collections {

  /** The elements of `s` that satisfy `p`, in their original order (LINQ `Where`). */
  function Filter<T(!new)>(s: seq<T>, p: T -> bool): (r: seq<T>)
    ensures |r| <= |s|
    ensures forall i :: 0 <= i < |r| ==> p(r[i])
    ensures forall x :: multiset(r)[x] == if p(x) then multiset(s)[x] else 0
    ensures forall x :: x in r <==> x in s && p(x)
    decreases |s|
  {
    if s == [] then []
    else
      var init := Filter(s[..|s| - 1], p);
      var last := s[|s| - 1];
      assert s == s[..|s| - 1] + [last];
      if p(last) then init + [last] else init
  }

  /** Filtering a sequence extended by one element filters the old part and then the new element. */
  lemma FilterSnoc<T(!new)>(s: seq<T>, x: T, p: T -> bool)
    ensures Filter(s + [x], p) == Filter(s, p) + (if p(x) then [x] else [])
  {
    assert (s + [x])[..|s + [x]| - 1] == s;
  }

  /** Whether no element of `s` occurs twice. */
  predicate NoDuplicates<T(==)>(s: seq<T>) {
    forall i, j :: 0 <= i < j < |s| ==> s[i] != s[j]
  }

  /** A sequence has no repeated element exactly when no element occurs in it more than once. */
  lemma {:induction false} NoDuplicatesIffSingleOccurrences<T(!new)>(s: seq<T>)
    ensures NoDuplicates(s) <==> forall x :: multiset(s)[x] <= 1
    decreases |s|
  {
    if s != [] {
      var init, last := s[..|s| - 1], s[|s| - 1];
      assert s == init + [last];
      NoDuplicatesIffSingleOccurrences(init);
      assert forall x :: multiset(s)[x] == multiset(init)[x] + (if x == last then 1 else 0);
      if NoDuplicates(s) {
        assert NoDuplicates(init) by {
          forall i, j | 0 <= i < j < |init| ensures init[i] != init[j] {
            assert init[i] == s[i] && init[j] == s[j];
          }
        }
        assert last !in init by {
          assert forall i :: 0 <= i < |init| ==> init[i] == s[i] != s[|s| - 1];
        }
      }
      if forall x :: multiset(s)[x] <= 1 {
        assert multiset(s)[last] <= 1;
        assert forall x :: multiset(init)[x] <= multiset(s)[x];
        assert last !in init;
        forall i, j | 0 <= i < j < |s| ensures s[i] != s[j] {
          if j < |init| {
            assert s[i] == init[i] && s[j] == init[j];
          } else {
            assert s[i] == init[i] && s[j] == last;
          }
        }
      }
    }
  }

  /**
   * The elements of `s` with repetitions removed, each kept at its first
   * occurrence (LINQ `Distinct`).
   */
  function Distinct<T(==,!new)>(s: seq<T>): (r: seq<T>)
    ensures forall x :: x in r <==> x in s
    ensures NoDuplicates(r)
    ensures |r| <= |s|
    decreases |s|
  {
    if s == [] then []
    else
      var init := Distinct(s[..|s| - 1]);
      var last := s[|s| - 1];
      assert s == s[..|s| - 1] + [last];
      if last in init then init else init + [last]
  }

  /** The position of the first occurrence of `x` in `s`. */
  function IndexOf<T(==)>(s: seq<T>, x: T): (k: nat)
    requires x in s
    ensures k < |s| && s[k] == x
    ensures forall j :: 0 <= j < k ==> s[j] != x
  {
    if s[0] == x then 0 else 1 + IndexOf(s[1..], x)
  }

  /** A first occurrence is not moved by appending to the sequence. */
  lemma {:induction false} IndexOfSnoc<T>(s: seq<T>, y: T, x: T)
    requires y in s
    ensures IndexOf(s + [x], y) == IndexOf(s, y)
  {
    var k := IndexOf(s, y);
    assert (s + [x])[k] == y;
    assert forall j :: 0 <= j < k ==> (s + [x])[j] == s[j];
  }

  /** `Distinct` keeps the elements in the order of their first occurrences in its input. */
  lemma {:induction false} DistinctKeepsFirstOccurrenceOrder<T(!new)>(s: seq<T>, i: nat, j: nat)
    requires i < j < |Distinct(s)|
    ensures IndexOf(s, Distinct(s)[i]) < IndexOf(s, Distinct(s)[j])
    decreases |s|
  {
    var init := s[..|s| - 1];
    var last := s[|s| - 1];
    assert s == init + [last];
    var d := Distinct(init);
    var di, dj := Distinct(s)[i], Distinct(s)[j];
    if j < |d| {
      assert Distinct(s)[..|d|] == d;
      assert di == d[i] && dj == d[j];
      DistinctKeepsFirstOccurrenceOrder(init, i, j);
      IndexOfSnoc(init, di, last);
      IndexOfSnoc(init, dj, last);
    } else {
      assert Distinct(s) == d + [last] && dj == last && last !in init;
      assert di == d[i] && di in init;
      IndexOfSnoc(init, di, last);
      assert IndexOf(s, dj) == |init| by {
        assert s[|init|] == last;
        assert forall k :: 0 <= k < |init| ==> s[k] == init[k];
      }
    }
  }

  /** `Where` keeps the elements it selects in the order of their first occurrences in its input. */
  lemma {:induction false} FilterKeepsFirstOccurrenceOrder<T(!new)>(s: seq<T>, p: T -> bool, x: T, y: T)
    requires x in Filter(s, p) && y in Filter(s, p)
    requires IndexOf(Filter(s, p), x) < IndexOf(Filter(s, p), y)
    ensures IndexOf(s, x) < IndexOf(s, y)
    decreases |s|
  {
    var init, last := s[..|s| - 1], s[|s| - 1];
    assert s == init + [last];
    var f := Filter(init, p);
    FilterSnoc(init, last, p);
    if x in f && y in f {
      if p(last) {
        IndexOfSnoc(f, x, last);
        IndexOfSnoc(f, y, last);
      }
      FilterKeepsFirstOccurrenceOrder(init, p, x, y);
      IndexOfSnoc(init, x, last);
      IndexOfSnoc(init, y, last);
    } else {
      assert x in f by {
        var k := IndexOf(Filter(s, p), x);
        assert k < |f| && Filter(s, p)[k] == f[k];
      }
      assert y == last && y !in init;
      IndexOfSnoc(init, x, last);
      assert IndexOf(s, y) == |init| by {
        assert forall k :: 0 <= k < |init| ==> s[k] == init[k];
      }
    }
  }

  /** All elements of all the sequences in `ss`, one after another (LINQ `SelectMany`). */
  function Concat<T(!new)>(ss: seq<seq<T>>): (r: seq<T>)
    ensures forall x :: x in r <==> exists i :: 0 <= i < |ss| && x in ss[i]
    decreases |ss|
  {
    if ss == [] then []
    else
      var init := ss[..|ss| - 1];
      var r := Concat(init) + ss[|ss| - 1];
      assert forall i :: 0 <= i < |init| ==> init[i] == ss[i];
      r
  }

  /** `SelectMany` of a single sequence is that sequence. */
  lemma ConcatSingleton<T(!new)>(x: seq<T>)
    ensures Concat([x]) == x
  {
    assert [x][..0] == [];
  }

  /**
   * `SelectMany` keeps the inner sequences in order and each element as often as it
   * occurs: flattening two lists of sequences one after the other is flattening
   * the first, then the second.
   */
  lemma {:induction false} ConcatAppend<T(!new)>(a: seq<seq<T>>, b: seq<seq<T>>)
    ensures Concat(a + b) == Concat(a) + Concat(b)
    decreases |b|
  {
    if b == [] {
      assert a + b == a;
    } else {
      var init := b[..|b| - 1];
      ConcatAppend(a, init);
      assert (a + b)[..|a + b| - 1] == a + init;
      assert (a + b)[|a + b| - 1] == b[|b| - 1];
    }
  }
}
