/** Python's ordering of `str` values and the sort-and-deduplicate step that
    `sorted(set(evidence))` performs. Dafny's own `<` on sequences means
    "proper prefix", so the lexicographic order is defined here. */
module LexOrder {
  import opened Common

  /** `a < b` on Python strings: compare code points left to right; a proper
      prefix is smaller than the longer string. */
  predicate Less(a: string, b: string)
    decreases |a|
  {
    |b| > 0 && (|a| == 0 || a[0] < b[0] || (a[0] == b[0] && Less(a[1..], b[1..])))
  }

  lemma {:induction false} LessIrreflexive(a: string)
    ensures !Less(a, a)
    decreases |a|
  {
    if |a| > 0 {
      LessIrreflexive(a[1..]);
    }
  }

  lemma {:induction false} LessAsymmetric(a: string, b: string)
    ensures Less(a, b) ==> !Less(b, a)
    decreases |a|
  {
    if |a| > 0 && |b| > 0 && a[0] == b[0] {
      LessAsymmetric(a[1..], b[1..]);
    }
  }

  lemma {:induction false} LessTransitive(a: string, b: string, c: string)
    ensures Less(a, b) && Less(b, c) ==> Less(a, c)
    decreases |a|
  {
    if |a| > 0 && |b| > 0 && |c| > 0 && a[0] == b[0] && b[0] == c[0] {
      LessTransitive(a[1..], b[1..], c[1..]);
    }
  }

  /** Any two distinct strings are ordered one way or the other. */
  lemma {:induction false} LessTotal(a: string, b: string)
    ensures a != b ==> Less(a, b) || Less(b, a)
    decreases |a|
  {
    if |a| > 0 && |b| > 0 && a[0] == b[0] {
      LessTotal(a[1..], b[1..]);
      if a[1..] == b[1..] {
        assert a == [a[0]] + a[1..] && b == [b[0]] + b[1..];
      }
    }
  }

  /** Sorted ascending with no duplicates: the shape of `sorted(set(xs))`. */
  predicate StrictlyIncreasing(s: seq<string>) {
    forall i, j :: 0 <= i < j < |s| ==> Less(s[i], s[j])
  }

  lemma StrictlyIncreasingNoDups(s: seq<string>)
    requires StrictlyIncreasing(s)
    ensures NoDups(s)
  {
    forall i, j | 0 <= i < j < |s| ensures s[i] != s[j] {
      LessIrreflexive(s[i]);
    }
  }

  /** Short lists in increasing order are strictly increasing. */
  lemma StrictlyIncreasingSmall(x: string, y: string, z: string)
    ensures StrictlyIncreasing([x])
    ensures Less(x, y) ==> StrictlyIncreasing([x, y])
    ensures Less(x, y) && Less(y, z) ==> StrictlyIncreasing([x, y, z])
  {
    LessTransitive(x, y, z);
  }

  /** Inserts `x` into a strictly increasing sequence, unless already there. */
  function Insert(x: string, s: seq<string>): (r: seq<string>)
    requires StrictlyIncreasing(s)
    ensures StrictlyIncreasing(r)
    ensures Elems(r) == Elems(s) + {x}
    decreases |s|
  {
    if |s| == 0 then [x]
    else if x == s[0] then s
    else if Less(x, s[0]) then
      assert forall j :: 0 < j < |s| ==> Less(x, s[j]) by {
        forall j | 0 < j < |s| ensures Less(x, s[j]) {
          LessTransitive(x, s[0], s[j]);
        }
      }
      [x] + s
    else
      var tail := Insert(x, s[1..]);
      ConsAfterHead(x, s, tail);
      [s[0]] + tail
  }

  /** Putting the head back in front of the tail's insertion result keeps
      the order and adds exactly `x`, when `x` sorts after the head. */
  lemma ConsAfterHead(x: string, s: seq<string>, tail: seq<string>)
    requires StrictlyIncreasing(s) && |s| > 0 && x != s[0] && !Less(x, s[0])
    requires StrictlyIncreasing(tail) && Elems(tail) == Elems(s[1..]) + {x}
    ensures StrictlyIncreasing([s[0]] + tail)
    ensures Elems([s[0]] + tail) == Elems(s) + {x}
  {
    LessTotal(x, s[0]);
    forall j | 0 <= j < |tail| ensures Less(s[0], tail[j]) {
      assert tail[j] in Elems(s[1..]) + {x};
      if tail[j] != x {
        var k :| 0 <= k < |s[1..]| && s[1..][k] == tail[j];
        assert s[k + 1] == tail[j];
      }
    }
    forall i, j | 0 <= i < j < |[s[0]] + tail|
      ensures Less(([s[0]] + tail)[i], ([s[0]] + tail)[j])
    {
      if i > 0 {
        assert ([s[0]] + tail)[i] == tail[i - 1];
      }
      assert ([s[0]] + tail)[j] == tail[j - 1];
    }
    assert s == [s[0]] + s[1..];
    assert Elems(s) == {s[0]} + Elems(s[1..]);
    assert Elems([s[0]] + tail) == {s[0]} + Elems(tail);
  }

  /** `sorted(set(xs))`: the strictly increasing arrangement of the
      elements of `xs`. */
  function SortDedup(xs: seq<string>): (r: seq<string>)
    ensures StrictlyIncreasing(r)
    ensures Elems(r) == Elems(xs)
    decreases |xs|
  {
    if |xs| == 0 then []
    else
      assert xs == [xs[0]] + xs[1..];
      Insert(xs[0], SortDedup(xs[1..]))
  }

  /** A set of strings has exactly one strictly increasing arrangement. */
  lemma {:induction false} StrictlyIncreasingUnique(a: seq<string>, b: seq<string>)
    requires StrictlyIncreasing(a) && StrictlyIncreasing(b)
    requires Elems(a) == Elems(b)
    ensures a == b
    decreases |a|
  {
    ElemsEmpty(a);
    ElemsEmpty(b);
    if |a| > 0 {
      assert a[0] in Elems(b);
      assert |b| > 0;
      assert b[0] in Elems(a);
      var i :| 0 <= i < |a| && a[i] == b[0];
      var j :| 0 <= j < |b| && b[j] == a[0];
      if a[0] != b[0] {
        assert i > 0 && j > 0;
        assert Less(a[0], b[0]);
        LessAsymmetric(a[0], b[0]);
      }
      LessIrreflexive(a[0]);
      assert a[0] !in a[1..];
      assert b[0] !in b[1..];
      assert a == [a[0]] + a[1..] && b == [b[0]] + b[1..];
      assert Elems(a[1..]) == Elems(a) - {a[0]};
      assert Elems(b[1..]) == Elems(b) - {b[0]};
      StrictlyIncreasingUnique(a[1..], b[1..]);
    }
  }

  /** `sorted(set(xs)) == xs` exactly when `xs` is already sorted and free
      of duplicates; in particular the operation is idempotent. */
  lemma SortDedupFixedPoint(xs: seq<string>)
    ensures SortDedup(xs) == xs <==> StrictlyIncreasing(xs)
  {
    if StrictlyIncreasing(xs) {
      StrictlyIncreasingUnique(SortDedup(xs), xs);
    }
  }
}
