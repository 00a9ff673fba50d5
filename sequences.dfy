/** Sequence vocabulary shared by the broker and the request client. */
module Sequences {

  /** No element occurs twice. */
  ghost predicate Distinct<T>(s: seq<T>) {
    forall i, j :: 0 <= i < j < |s| ==> s[i] != s[j]
  }

  /**
   * Python's `list.remove(x)`: drops the first occurrence of `x`; the caller
   * treats an absent `x` (the ValueError) as "nothing to do".
   */
  function RemoveFirst<T(==)>(s: seq<T>, x: T): seq<T> {
    if s == [] then []
    else if s[0] == x then s[1..]
    else [s[0]] + RemoveFirst(s[1..], x)
  }

  /** Removal takes out exactly one copy of `x` when there is one, and nothing otherwise. */
  lemma {:induction false} RemoveFirstSpec<T>(s: seq<T>, x: T)
    ensures x !in s ==> RemoveFirst(s, x) == s
    ensures x in s ==> |RemoveFirst(s, x)| == |s| - 1
    ensures multiset(RemoveFirst(s, x)) == multiset(s) - multiset{x}
  {
    if s != [] {
      assert s == [s[0]] + s[1..];
      assert multiset(s) == multiset{s[0]} + multiset(s[1..]);
      if s[0] != x {
        var r := RemoveFirst(s[1..], x);
        RemoveFirstSpec(s[1..], x);
        assert RemoveFirst(s, x) == [s[0]] + r;
        assert multiset([s[0]] + r) == multiset{s[0]} + multiset(r);
      }
    }
  }

  /**
   * Removal drops exactly the first copy of `x` and keeps every other
   * element in its order.
   */
  lemma {:induction false} RemoveFirstAt<T>(s: seq<T>, x: T, k: nat)
    requires k < |s| && s[k] == x && x !in s[..k]
    ensures RemoveFirst(s, x) == s[..k] + s[k + 1..]
    decreases k
  {
    if k > 0 {
      assert s[0] in s[..k];
      assert s[1..][..k - 1] == s[1..k];
      assert s[1..][k..] == s[k + 1..];
      RemoveFirstAt(s[1..], x, k - 1);
      assert s[..k] == [s[0]] + s[1..k];
    }
  }

  /** A duplicate-free sequence splits into a head absent from a duplicate-free tail. */
  lemma DistinctUncons<T>(s: seq<T>)
    requires Distinct(s) && s != []
    ensures Distinct(s[1..]) && s[0] !in s[1..]
  {
    assert forall k :: 0 <= k < |s[1..]| ==> s[1..][k] == s[k + 1];
  }

  lemma DistinctCons<T>(x: T, s: seq<T>)
    requires Distinct(s) && x !in s
    ensures Distinct([x] + s)
  {
    assert forall k :: 1 <= k <= |s| ==> ([x] + s)[k] == s[k - 1];
  }

  lemma DistinctSnoc<T>(s: seq<T>, x: T)
    requires Distinct(s) && x !in s
    ensures Distinct(s + [x])
  {
  }

  /** In a duplicate-free sequence, removal takes `x` out completely and keeps every other element. */
  lemma {:induction false} RemoveFirstDistinct<T>(s: seq<T>, x: T)
    requires Distinct(s)
    ensures Distinct(RemoveFirst(s, x))
    ensures x !in RemoveFirst(s, x)
    ensures forall y :: y in RemoveFirst(s, x) ==> y in s
    ensures forall y :: y in s && y != x ==> y in RemoveFirst(s, x)
  {
    if s != [] {
      DistinctUncons(s);
      if s[0] == x {
        assert RemoveFirst(s, x) == s[1..];
        assert forall y :: y in s <==> y == s[0] || y in s[1..];
      } else {
        var r := RemoveFirst(s[1..], x);
        RemoveFirstDistinct(s[1..], x);
        assert RemoveFirst(s, x) == [s[0]] + r;
        assert s[0] !in r;
        DistinctCons(s[0], r);
        assert forall y :: y in s <==> y == s[0] || y in s[1..];
      }
    }
  }

  /** Removing a consumer twice is the same as removing it once. */
  lemma RemoveFirstIdempotent<T>(s: seq<T>, x: T)
    requires Distinct(s)
    ensures RemoveFirst(RemoveFirst(s, x), x) == RemoveFirst(s, x)
  {
    RemoveFirstDistinct(s, x);
    RemoveFirstSpec(RemoveFirst(s, x), x);
  }
}
