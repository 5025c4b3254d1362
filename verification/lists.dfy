// Python list operations shared by the stateful models: `x in xs`,
// `xs.index(x)`, `xs.remove(x)`, and lists kept free of repeats.

module Lists {
  /** A list without repeated entries. */
  predicate Distinct<T(==)>(s: seq<T>)
  {
    forall i, j :: 0 <= i < j < |s| ==> s[i] != s[j]
  }

  /** Appending an entry that is not yet there keeps a list free of repeats. */
  lemma DistinctSnoc<T>(s: seq<T>, x: T)
    requires Distinct(s) && x !in s
    ensures Distinct(s + [x])
  {
    forall i, j | 0 <= i < j < |s| + 1
      ensures (s + [x])[i] != (s + [x])[j]
    {
      if j == |s| {
        assert (s + [x])[i] == s[i];
      }
    }
  }

  /** `s.remove(x)`: the first occurrence goes; without one the list is unchanged (where Python raises, callers check first). */
  function RemoveFirst<T(==)>(s: seq<T>, x: T): (r: seq<T>)
    ensures x !in s ==> r == s
    ensures x in s ==> |r| == |s| - 1
  {
    if s == [] then []
    else if s[0] == x then s[1..]
    else [s[0]] + RemoveFirst(s[1..], x)
  }

  /** `a + [x] + b` taken apart at its head, for a non-empty `a`. */
  lemma HeadOfSplice<T>(a: seq<T>, x: T, b: seq<T>)
    requires a != []
    ensures (a + [x] + b)[0] == a[0]
    ensures (a + [x] + b)[1..] == a[1..] + [x] + b
    ensures a + b == [a[0]] + (a[1..] + b)
  {
  }

  /** Removing from `a + [x] + b`, where `a` does not hold `x`, leaves `a + b`. */
  lemma {:induction false} RemoveFirstAt<T>(a: seq<T>, x: T, b: seq<T>)
    requires x !in a
    ensures RemoveFirst(a + [x] + b, x) == a + b
  {
    if a == [] {
      assert a + [x] + b == [x] + b;
    } else {
      HeadOfSplice(a, x, b);
      assert a[0] != x && x !in a[1..];
      RemoveFirstAt(a[1..], x, b);
    }
  }

  /** `s.index(x)`: the first position holding `x`. */
  function FirstPosition<T(==)>(s: seq<T>, x: T): (i: nat)
    requires x in s
    ensures i < |s| && s[i] == x && x !in s[..i]
  {
    if s[0] == x then 0
    else
      var i := 1 + FirstPosition(s[1..], x);
      assert s[..i] == [s[0]] + s[1..][..i - 1];
      i
  }

  /** `remove` leaves out the entry at the first position holding it. */
  lemma RemoveFirstIsDrop<T>(s: seq<T>, x: T)
    requires x in s
    ensures RemoveFirst(s, x) == s[..FirstPosition(s, x)] + s[FirstPosition(s, x) + 1..]
  {
    var i := FirstPosition(s, x);
    assert s == s[..i] + [x] + s[i + 1..];
    RemoveFirstAt(s[..i], x, s[i + 1..]);
  }

  /** Leaving out one entry of a list without repeats leaves a list without repeats that lacks that entry. */
  lemma DistinctDropAt<T>(s: seq<T>, i: nat)
    requires Distinct(s) && i < |s|
    ensures s[i] !in s[..i] + s[i + 1..]
    ensures Distinct(s[..i] + s[i + 1..])
  {
    var r := s[..i] + s[i + 1..];
    forall a, b | 0 <= a < b < |r|
      ensures r[a] != r[b]
    {
      var a' := if a < i then a else a + 1;
      var b' := if b < i then b else b + 1;
      assert r[a] == s[a'] && r[b] == s[b'];
    }
    forall k | 0 <= k < |r|
      ensures r[k] != s[i]
    {
      var k' := if k < i then k else k + 1;
      assert r[k] == s[k'];
    }
  }

  /** From a list without repeats, `remove` takes the entry out altogether and keeps the rest free of repeats. */
  lemma RemoveFirstDistinct<T>(s: seq<T>, x: T)
    requires Distinct(s)
    ensures x !in RemoveFirst(s, x)
    ensures Distinct(RemoveFirst(s, x))
  {
    if x in s {
      RemoveFirstIsDrop(s, x);
      DistinctDropAt(s, FirstPosition(s, x));
    }
  }
}
