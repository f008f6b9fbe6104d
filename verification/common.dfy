/** Small generic vocabulary shared by the model: an optional value, the
    element set of a sequence, duplicate-freedom and an order-preserving
    filter. */
module Common {

  /** Python's "value or absent" (a missing dict key, a `None`). */
  datatype Option<T> = None | Some(value: T)

  /** The set of elements of a sequence (Python's `set(xs)`). */
  function Elems<T(==)>(s: seq<T>): set<T> {
    set x | x in s
  }

  /** Only the empty sequence has no elements. */
  lemma ElemsEmpty<T>(s: seq<T>)
    ensures Elems(s) == {} <==> |s| == 0
  {
    if |s| > 0 {
      assert s[0] in Elems(s);
    }
  }

  /** The elements of short literal lists. */
  lemma ElemsSmall<T>(x: T, y: T, z: T)
    ensures Elems([x]) == {x}
    ensures Elems([x, y]) == {x, y}
    ensures Elems([x, y, z]) == {x, y, z}
  {
    assert [x, y][1] == y;
    assert [x, y, z][1] == y && [x, y, z][2] == z;
  }

  /** A subset is no larger than its superset. */
  lemma SubsetCard<T>(a: set<T>, b: set<T>)
    requires a <= b
    ensures |a| <= |b|
  {
    assert b == a + (b - a);
    assert a * (b - a) == {};
  }

  /** The last element of a non-empty prefix occurs in the longer sequence. */
  lemma PrefixLast<T>(a: seq<T>, b: seq<T>)
    requires 0 < |a| && a <= b
    ensures a[|a| - 1] in b
  {
    assert b[|a| - 1] == a[|a| - 1];
  }

  /** Disjoint sets add their sizes. */
  lemma DisjointUnionCard<T>(a: set<T>, b: set<T>)
    requires a !! b
    ensures |a + b| == |a| + |b|
  {
    assert a * b == {};
  }

  /** Intersecting `g` with a set grown by `x`. */
  lemma IntersectCons<T>(g: set<T>, x: T, t: set<T>)
    ensures x in g ==> g * ({x} + t) == {x} + g * t
    ensures x !in g ==> g * ({x} + t) == g * t
  {
  }

  /** No element occurs twice. */
  predicate NoDups<T(==)>(s: seq<T>) {
    forall i, j :: 0 <= i < j < |s| ==> s[i] != s[j]
  }

  /** The elements of `s` satisfying `p`, in their original order
      (a Python list comprehension `[x for x in s if p(x)]`). */
  function Filter<T(!new)>(s: seq<T>, p: T -> bool): (r: seq<T>)
    ensures |r| <= |s|
    ensures forall x :: x in r <==> x in s && p(x)
    decreases |s|
  {
    if |s| == 0 then [] else (if p(s[0]) then [s[0]] else []) + Filter(s[1..], p)
  }

  /** One step of the filter. */
  lemma FilterHead<T(!new)>(xs: seq<T>, p: T -> bool)
    requires |xs| > 0
    ensures Filter(xs, p) == (if p(xs[0]) then [xs[0]] else []) + Filter(xs[1..], p)
  {
  }

  /** Filtering with a predicate every element satisfies changes nothing. */
  lemma {:induction false} FilterAll<T(!new)>(s: seq<T>, p: T -> bool)
    requires forall i :: 0 <= i < |s| ==> p(s[i])
    ensures Filter(s, p) == s
    decreases |s|
  {
    if |s| > 0 {
      FilterAll(s[1..], p);
    }
  }

  /** Filtering keeps every element exactly when it drops none. */
  lemma {:induction false} FilterShorter<T(!new)>(s: seq<T>, p: T -> bool)
    ensures |Filter(s, p)| < |s| <==> exists i :: 0 <= i < |s| && !p(s[i])
    decreases |s|
  {
    if |s| > 0 {
      FilterShorter(s[1..], p);
      if !p(s[0]) {
        assert !p(s[0 + 0]);
      } else if exists i :: 0 <= i < |s[1..]| && !p(s[1..][i]) {
        var i :| 0 <= i < |s[1..]| && !p(s[1..][i]);
        assert !p(s[i + 1]);
      } else {
        forall i | 0 <= i < |s| ensures p(s[i]) {
          if i > 0 {
            assert s[i] == s[1..][i - 1];
          }
        }
      }
    }
  }

  /** A prefix that agrees with `f` index by index still agrees once
      `f`'s next value is appended. */
  lemma ExtendAgree<T>(xs: seq<T>, f: nat -> T)
    requires forall k :: 0 <= k < |xs| ==> xs[k] == f(k)
    ensures forall k :: 0 <= k <= |xs| ==> (xs + [f(|xs|)])[k] == f(k)
  {
    forall k | 0 <= k <= |xs| ensures (xs + [f(|xs|)])[k] == f(k) {
      if k < |xs| {
        assert (xs + [f(|xs|)])[k] == xs[k];
      }
    }
  }

  function Max(a: real, b: real): (r: real)
    ensures r >= a && r >= b
    ensures r == a || r == b
  {
    if a >= b then a else b
  }

  function Min(a: int, b: int): (r: int)
    ensures r <= a && r <= b
    ensures r == a || r == b
  {
    if a <= b then a else b
  }
}
