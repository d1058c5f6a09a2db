/**
 * Python's `filter(...)` and the stable `list.sort()` / `sorted(...)` on strings,
 * with the ordering Python uses for `str` (lexicographic by code point).
 */
module Seqs {

  // ---------------------------------------------------------------------------
  // String order
  // ---------------------------------------------------------------------------

  /** Python's `a <= b` on strings. */
  predicate Le(a: string, b: string)
    decreases |a|
  {
    a == [] || (b != [] && (a[0] < b[0] || (a[0] == b[0] && Le(a[1..], b[1..]))))
  }

  lemma {:induction false} LeTotal(a: string, b: string)
    ensures Le(a, b) || Le(b, a)
    decreases |a|
  {
    if a != [] && b != [] && a[0] == b[0] {
      LeTotal(a[1..], b[1..]);
    }
  }

  lemma {:induction false} LeTrans(a: string, b: string, c: string)
    requires Le(a, b) && Le(b, c)
    ensures Le(a, c)
    decreases |a|
  {
    if a != [] && a[0] == b[0] && b[0] == c[0] {
      LeTrans(a[1..], b[1..], c[1..]);
    }
  }

  lemma {:induction false} LeAntisymmetric(a: string, b: string)
    requires Le(a, b) && Le(b, a)
    ensures a == b
    decreases |a|
  {
    if a != [] {
      LeAntisymmetric(a[1..], b[1..]);
      assert a == [a[0]] + a[1..] && b == [b[0]] + b[1..];
    }
  }

  /** Two strings that agree up to position `k` and differ there are ordered by that character. */
  lemma {:induction false} LeAt(a: string, b: string, k: nat)
    requires k < |a| && k < |b| && a[..k] == b[..k] && a[k] < b[k]
    ensures Le(a, b)
    decreases k
  {
    if k > 0 {
      assert a[0] == a[..k][0] == b[..k][0] == b[0];
      assert a[1..][..k - 1] == a[..k][1..] && b[1..][..k - 1] == b[..k][1..];
      LeAt(a[1..], b[1..], k - 1);
    }
  }

  /** The identity key, for sorting plain strings. */
  function Self(s: string): string { s }

  predicate SortedBy<T>(xs: seq<T>, key: T -> string) {
    forall i, j :: 0 <= i < j < |xs| ==> Le(key(xs[i]), key(xs[j]))
  }

  // ---------------------------------------------------------------------------
  // Stable sort
  // ---------------------------------------------------------------------------

  /** Inserts `x` after every element whose key is not greater than its own. */
  function Insert<T>(x: T, xs: seq<T>, key: T -> string): (r: seq<T>)
    requires SortedBy(xs, key)
    ensures multiset(r) == multiset(xs) + multiset{x}
    ensures |r| == |xs| + 1
    ensures SortedBy(r, key)
    decreases |xs|
  {
    if xs == [] then [x]
    else if Le(key(xs[0]), key(x)) then
      var tail := Insert(x, xs[1..], key);
      assert xs == [xs[0]] + xs[1..];
      HeadBelowAll(xs, x, tail, key);
      SortedCons(xs[0], tail, key);
      [xs[0]] + tail
    else
      LeTotal(key(xs[0]), key(x));
      forall k | 0 <= k < |xs| ensures Le(key(x), key(xs[k])) {
        if k > 0 { LeTrans(key(x), key(xs[0]), key(xs[k])); }
      }
      SortedCons(x, xs, key);
      [x] + xs
  }

  /** The head of a sorted list stays below everything when `x` joins its tail. */
  lemma HeadBelowAll<T>(xs: seq<T>, x: T, tail: seq<T>, key: T -> string)
    requires xs != [] && SortedBy(xs, key) && Le(key(xs[0]), key(x))
    requires multiset(tail) == multiset(xs[1..]) + multiset{x}
    ensures forall k :: 0 <= k < |tail| ==> Le(key(xs[0]), key(tail[k]))
  {
    forall k | 0 <= k < |tail| ensures Le(key(xs[0]), key(tail[k])) {
      assert tail[k] in multiset(tail);
      if tail[k] != x {
        assert tail[k] in multiset(xs[1..]);
        var m :| 0 <= m < |xs[1..]| && xs[1..][m] == tail[k];
        assert xs[m + 1] == tail[k];
      }
    }
  }

  /** A sorted list stays sorted under a head that is below all of it. */
  lemma SortedCons<T>(h: T, t: seq<T>, key: T -> string)
    requires SortedBy(t, key)
    requires forall k :: 0 <= k < |t| ==> Le(key(h), key(t[k]))
    ensures SortedBy([h] + t, key)
  {
    var r := [h] + t;
    forall i, j | 0 <= i < j < |r| ensures Le(key(r[i]), key(r[j])) {
      assert r[j] == t[j - 1];
      if i > 0 { assert r[i] == t[i - 1]; }
    }
  }

  /** `sorted(xs, key=key)`: a stable insertion sort. */
  function SortBy<T>(xs: seq<T>, key: T -> string): (r: seq<T>)
    ensures multiset(r) == multiset(xs)
    ensures |r| == |xs|
    ensures SortedBy(r, key)
    decreases |xs|
  {
    if xs == [] then []
    else
      var init := xs[..|xs| - 1];
      assert xs == init + [xs[|xs| - 1]];
      Insert(xs[|xs| - 1], SortBy(init, key), key)
  }

  lemma SortedMember<T>(xs: seq<T>, key: T -> string, x: T)
    ensures x in SortBy(xs, key) <==> x in xs
  {
    assert x in multiset(SortBy(xs, key)) <==> x in multiset(xs);
  }

  // ---------------------------------------------------------------------------
  // Filter
  // ---------------------------------------------------------------------------

  /** `list(filter(keep, xs))`: the elements that pass, in their original order. */
  function Filter<T>(xs: seq<T>, keep: T -> bool): (r: seq<T>)
    ensures |r| <= |xs|
    ensures forall i :: 0 <= i < |r| ==> r[i] in xs && keep(r[i])
    ensures forall i :: 0 <= i < |xs| && keep(xs[i]) ==> xs[i] in r
    decreases |xs|
  {
    if xs == [] then []
    else
      var rest := Filter(xs[1..], keep);
      assert forall i :: 1 <= i < |xs| ==> xs[i] == xs[1..][i - 1];
      (if keep(xs[0]) then [xs[0]] else []) + rest
  }

  /** Filtering keeps a sorted sequence sorted. */
  lemma {:induction false} FilterSorted<T>(xs: seq<T>, keep: T -> bool, key: T -> string)
    requires SortedBy(xs, key)
    ensures SortedBy(Filter(xs, keep), key)
    decreases |xs|
  {
    if xs != [] {
      var rest := Filter(xs[1..], keep);
      FilterSorted(xs[1..], keep, key);
      if keep(xs[0]) {
        forall k | 0 <= k < |rest| ensures Le(key(xs[0]), key(rest[k])) {
          var m :| 0 <= m < |xs[1..]| && xs[1..][m] == rest[k];
          assert xs[1..][m] == xs[m + 1];
        }
      }
    }
  }

  /** Filtering distributes over concatenation. */
  lemma {:induction false} FilterConcat<T>(a: seq<T>, b: seq<T>, keep: T -> bool)
    ensures Filter(a + b, keep) == Filter(a, keep) + Filter(b, keep)
    decreases |a|
  {
    if a == [] {
      assert a + b == b;
    } else {
      assert (a + b)[1..] == a[1..] + b;
      FilterConcat(a[1..], b, keep);
    }
  }

  // ---------------------------------------------------------------------------
  // Map and flatten
  // ---------------------------------------------------------------------------

  /** `[g(x) for x in xs]`. */
  function MapSeq<T, U>(xs: seq<T>, g: T -> U): (r: seq<U>)
    ensures |r| == |xs|
    ensures forall i :: 0 <= i < |xs| ==> r[i] == g(xs[i])
  {
    seq(|xs|, i requires 0 <= i < |xs| => g(xs[i]))
  }

  /** The mapped filtered sequence holds exactly the images of the elements that pass. */
  lemma MapFilterIff<T, U>(xs: seq<T>, keep: T -> bool, g: T -> U, u: U)
    ensures u in MapSeq(Filter(xs, keep), g) <==> exists j :: 0 <= j < |xs| && keep(xs[j]) && u == g(xs[j])
  {
    var kept := Filter(xs, keep);
    var r := MapSeq(kept, g);
    if u in r {
      var i :| 0 <= i < |r| && r[i] == u;
      assert kept[i] in xs && keep(kept[i]);
      var j :| 0 <= j < |xs| && xs[j] == kept[i];
      assert keep(xs[j]) && u == g(xs[j]);
    }
    if exists j :: 0 <= j < |xs| && keep(xs[j]) && u == g(xs[j]) {
      var j :| 0 <= j < |xs| && keep(xs[j]) && u == g(xs[j]);
      assert xs[j] in kept;
      var i :| 0 <= i < |kept| && kept[i] == xs[j];
      assert r[i] == u;
    }
  }

  /** One more element passing the filter adds its image at the end. */
  lemma MapFilterSnoc<T, U>(xs: seq<T>, x: T, keep: T -> bool, g: T -> U)
    ensures MapSeq(Filter(xs + [x], keep), g) == MapSeq(Filter(xs, keep), g) + (if keep(x) then [g(x)] else [])
  {
    FilterConcat(xs, [x], keep);
    assert [x][1..] == [];
  }

  /** The results of `f` for each element of `xs`, one after the other. */
  function Flatten<T, U>(xs: seq<T>, f: T -> seq<U>): seq<U>
    decreases |xs|
  {
    if xs == [] then [] else Flatten(xs[..|xs| - 1], f) + f(xs[|xs| - 1])
  }

  lemma FlattenSnoc<T, U>(xs: seq<T>, i: nat, f: T -> seq<U>)
    requires i < |xs|
    ensures Flatten(xs[..i + 1], f) == Flatten(xs[..i], f) + f(xs[i])
  {
    assert xs[..i + 1][..i] == xs[..i];
  }

  /** An element of the flattened sequence comes from one of the parts, and every part's elements are in it. */
  lemma {:induction false} FlattenIff<T, U>(xs: seq<T>, f: T -> seq<U>, u: U)
    ensures u in Flatten(xs, f) <==> exists k :: 0 <= k < |xs| && u in f(xs[k])
    decreases |xs|
  {
    if xs != [] {
      var n := |xs| - 1;
      var init := xs[..n];
      FlattenIff(init, f, u);
      if u in Flatten(xs, f) && u !in f(xs[n]) {
        var k :| 0 <= k < |init| && u in f(init[k]);
        assert init[k] == xs[k];
      }
      if exists k :: 0 <= k < |xs| && u in f(xs[k]) {
        var k :| 0 <= k < |xs| && u in f(xs[k]);
        if k < n {
          assert init[k] == xs[k];
        }
      }
    }
  }
}
