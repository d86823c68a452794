/** Array helpers of dash.js: `Arrays.remove` deletes the first element that is
    strictly equal (`===`) to a given one, shifting the rest down; it does
    nothing when no element matches. A JavaScript array that is spliced in
    place is modelled by its contents, a `seq`, that the caller stores back. */
module Arrays {

  /** Index of the first occurrence of `e` in `s`. */
  function FirstIndex<T(==)>(s: seq<T>, e: T): (i: nat)
    requires e in s
    ensures i < |s| && s[i] == e && e !in s[..i]
  {
    if s[0] == e then 0
    else
      var j := FirstIndex(s[1..], e);
      assert s[..j + 1] == [s[0]] + s[1..][..j];
      j + 1
  }

  /** `s` without its first occurrence of `e` (the rest in order); `s` itself
      when `e` does not occur. */
  function RemoveFirst<T(==)>(s: seq<T>, e: T): seq<T>
  {
    if s == [] then []
    else if s[0] == e then s[1..]
    else [s[0]] + RemoveFirst(s[1..], e)
  }

  /** `k` removals of the first occurrence, one after another. */
  function RemoveFirstTimes<T(==)>(s: seq<T>, e: T, k: nat): seq<T>
  {
    if k == 0 then s else RemoveFirst(RemoveFirstTimes(s, e, k - 1), e)
  }

  /** `k` copies of `e`. */
  function Repeat<T>(e: T, k: nat): (r: seq<T>)
    ensures |r| == k && forall i :: 0 <= i < k ==> r[i] == e
  {
    if k == 0 then [] else Repeat(e, k - 1) + [e]
  }

  /** The splice: the element at the first match is cut out, everything
      before and after it stays in order; no match leaves `s` as it is. */
  lemma {:induction false} RemoveFirstSplices<T>(s: seq<T>, e: T)
    ensures e !in s ==> RemoveFirst(s, e) == s
    ensures e in s ==> RemoveFirst(s, e) == s[..FirstIndex(s, e)] + s[FirstIndex(s, e) + 1..]
  {
    if s != [] && s[0] != e {
      RemoveFirstSplices(s[1..], e);
      if e in s {
        assert e in s[1..];
        var j := FirstIndex(s[1..], e);
        assert FirstIndex(s, e) == j + 1;
        assert s[..j + 1] == [s[0]] + s[1..][..j];
        assert s[j + 2..] == s[1..][j + 1..];
      } else {
        assert s == [s[0]] + s[1..];
      }
    }
  }

  /** Exactly one occurrence of `e` goes when there is one, none otherwise;
      the length shrinks by one exactly when `e` occurs. */
  lemma {:induction false} RemoveFirstCounts<T>(s: seq<T>, e: T)
    ensures multiset(RemoveFirst(s, e)) == multiset(s) - multiset{e}
    ensures |RemoveFirst(s, e)| == if e in s then |s| - 1 else |s|
  {
    if s != [] {
      assert s == [s[0]] + s[1..];
      assert multiset(s) == multiset{s[0]} + multiset(s[1..]);
      if s[0] != e {
        RemoveFirstCounts(s[1..], e);
        assert e in s <==> e in s[1..];
        assert multiset(RemoveFirst(s, e)) == multiset{s[0]} + multiset(RemoveFirst(s[1..], e));
      }
    }
  }

  /** A prefix free of `e` is left alone: the removal happens behind it. */
  lemma {:induction false} RemoveFirstAfterPrefix<T>(s: seq<T>, t: seq<T>, e: T)
    requires e !in s
    ensures RemoveFirst(s + t, e) == s + RemoveFirst(t, e)
  {
    if s == [] {
      assert s + t == t;
    } else {
      assert (s + t)[0] == s[0];
      assert (s + t)[1..] == s[1..] + t;
      RemoveFirstAfterPrefix(s[1..], t, e);
    }
  }

  /** Removing `e` `j` times from `s` followed by `k` copies of `e` (with `e`
      not in `s`) takes the copies off one by one. */
  lemma {:induction false} RemoveFirstTimesOfCopies<T>(s: seq<T>, e: T, k: nat, j: nat)
    requires e !in s && j <= k
    ensures RemoveFirstTimes(s + Repeat(e, k), e, j) == s + Repeat(e, k - j)
  {
    if j > 0 {
      RemoveFirstTimesOfCopies(s, e, k, j - 1);
      RemoveFirstAfterPrefix(s, Repeat(e, k - j + 1), e);
      assert Repeat(e, k - j + 1) == [e] + Repeat(e, k - j);
    }
  }

  /** `Arrays.remove`: scans from the front for the first element strictly
      equal to `e` and splices it out. */
  method Remove<T(==)>(s: seq<T>, e: T) returns (r: seq<T>)
    ensures r == RemoveFirst(s, e)
  {
    var i, k := 0, |s|;
    while i < k
      invariant 0 <= i <= k == |s|
      invariant e !in s[..i]
    {
      if s[i] == e {
        RemoveFirstSplices(s, e);
        return s[..i] + s[i + 1..];
      }
      i := i + 1;
    }
    assert s[..i] == s;
    RemoveFirstSplices(s, e);
    return s;
  }
}
