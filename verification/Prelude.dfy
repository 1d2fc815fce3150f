/** Small vocabulary shared by every module. */
module Prelude {
  datatype Option<+T> = None | Some(value: T)

  function Min(a: nat, b: nat): nat {
    if a <= b then a else b
  }

  /** Elapsed time. `Instant::duration_since` saturates: a reading taken before
      the lock can be older than the instant stored under it. */
  function Since(now: nat, earlier: nat): nat {
    if now < earlier then 0 else now - earlier
  }

  /** The members of `ids` below `n`, in ascending order. */
  function Ascending(ids: set<nat>, n: nat): seq<nat> {
    if n == 0 then []
    else Ascending(ids, n - 1) + (if n - 1 in ids then [n - 1] else [])
  }

  ghost predicate Increasing(s: seq<nat>) {
    forall i, j :: 0 <= i < j < |s| ==> s[i] < s[j]
  }

  lemma {:induction false} AscendingFacts(ids: set<nat>, n: nat)
    ensures Increasing(Ascending(ids, n))
    ensures forall x :: x in Ascending(ids, n) <==> x in ids && x < n
  {
    if n > 0 {
      AscendingFacts(ids, n - 1);
      var s := Ascending(ids, n - 1);
      assert forall i :: 0 <= i < |s| ==> s[i] in s;
    }
  }

  lemma {:induction false} ListingsAgree(s: seq<nat>, t: seq<nat>, n: nat)
    requires Increasing(s) && Increasing(t)
    requires forall x :: x in s <==> x in t
    requires n <= |s|
    ensures n <= |t| && s[..n] == t[..n]
  {
    if n > 0 {
      ListingsAgree(s, t, n - 1);
      var i := n - 1;
      assert forall m :: 0 <= m < i ==> s[..i][m] == t[..i][m];
      assert s[i] in t;
      var j :| 0 <= j < |t| && t[j] == s[i];
      assert t[i] in s;
      var k :| 0 <= k < |s| && s[k] == t[i];
    }
  }

  /** A strictly increasing listing of a set is the only one. */
  lemma ListingIsUnique(s: seq<nat>, t: seq<nat>)
    requires Increasing(s) && Increasing(t)
    requires forall x :: x in s <==> x in t
    ensures s == t
  {
    ListingsAgree(s, t, |s|);
    ListingsAgree(t, s, |t|);
  }
}
