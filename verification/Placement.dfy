/**
 Where the copies of a metric go: the primary chosen by the shared hash and the servers after it,
 the same whichever node takes the metric in.
 */
module Placement {
  import opened Arithmetic
  import opened Wrappers

  function Target(primary: nat, i: nat, n: nat): (k: nat)
    requires n > 0
    ensures k < n
  {
    (primary + i) % n
  }

  /** How often server `k` is a target of the copies `from` up to `factor`. */
  function Copies(primary: nat, from: nat, factor: nat, n: nat, k: nat): (c: nat)
    requires n > 0
    decreases factor - from
  {
    if from >= factor then 0
    else (if Target(primary, from, n) == k then 1 else 0) + Copies(primary, from + 1, factor, n, k)
  }

  /**
   The copies that end on server `k` when node `me` takes the metric in: those sent or stored by the
   replication loop, and the one the caller stores when this node is the primary.
   */
  function Stored(primary: nat, factor: nat, n: nat, me: Option<nat>, k: nat): (c: nat)
    requires n > 0
  {
    if me == Some(primary) then Copies(primary, 1, factor, n, k) + (if k == primary then 1 else 0)
    else Copies(primary, 0, factor, n, k)
  }

  lemma TargetWraps(primary: nat, i: nat, n: nat)
    requires primary < n && i < n
    ensures Target(primary, i, n) == if primary + i < n then primary + i else primary + i - n
  {
    Wrapped(primary + i, n);
  }

  /** The first copy is the primary's, and every further one goes to the next server of the ring. */
  lemma Successors(primary: nat, i: nat, n: nat)
    requires primary < n
    ensures Target(primary, 0, n) == primary
    ensures Target(primary, i + 1, n) == if Target(primary, i, n) + 1 == n then 0 else Target(primary, i, n) + 1
  {
    Wrapped(primary, n);
    var a := primary + i;
    assert a + 1 == a / n * n + (a % n + 1);
    if a % n + 1 == n {
      assert a + 1 == (a / n + 1) * n;
      Multiple(a / n + 1, n, 0);
    } else {
      Multiple(a / n, n, a % n + 1);
    }
  }

  /** The targets differ exactly when there are no more copies than servers. */
  lemma TargetsDiffer(primary: nat, factor: nat, n: nat)
    requires primary < n
    ensures (forall i, j :: 0 <= i < j < factor ==> Target(primary, i, n) != Target(primary, j, n)) <==> factor <= n
  {
    if factor <= n {
      forall i, j | 0 <= i < j < factor ensures Target(primary, i, n) != Target(primary, j, n) {
        TargetWraps(primary, i, n);
        TargetWraps(primary, j, n);
      }
    } else {
      TargetWraps(primary, 0, n);
      Wrapped(primary + n, n);
      assert Target(primary, 0, n) == Target(primary, n, n);
    }
  }

  lemma {:induction false} NoCopies(primary: nat, from: nat, factor: nat, n: nat, k: nat)
    requires n > 0 && forall i :: from <= i < factor ==> Target(primary, i, n) != k
    ensures Copies(primary, from, factor, n, k) == 0
    decreases factor - from
  {
    if from < factor { NoCopies(primary, from + 1, factor, n, k); }
  }

  lemma {:induction false} OneCopy(primary: nat, from: nat, factor: nat, n: nat, k: nat)
    requires n > 0
    requires forall i, j :: from <= i < j < factor ==> Target(primary, i, n) != Target(primary, j, n)
    ensures Copies(primary, from, factor, n, k) ==
            if exists i :: from <= i < factor && Target(primary, i, n) == k then 1 else 0
    decreases factor - from
  {
    if from < factor {
      if Target(primary, from, n) == k {
        NoCopies(primary, from + 1, factor, n, k);
      } else {
        OneCopy(primary, from + 1, factor, n, k);
      }
    }
  }

  /** With a factor of at least one the copies do not depend on the node that takes the metric in. */
  lemma SameWhoeverIngests(primary: nat, factor: nat, n: nat, me: Option<nat>, k: nat)
    requires primary < n && factor >= 1
    ensures Stored(primary, factor, n, me, k) == Copies(primary, 0, factor, n, k)
  {
    TargetWraps(primary, 0, n);
  }

  /** With a factor of zero only the primary keeps what it takes in itself: the metric is lost elsewhere. */
  lemma FactorZero(primary: nat, n: nat, me: Option<nat>, k: nat)
    requires primary < n
    ensures Stored(primary, 0, n, me, k) == if me == Some(primary) && k == primary then 1 else 0
  {
  }

  /** The set of servers that hold a copy. */
  function Holders(primary: nat, factor: nat, n: nat): (s: set<nat>)
    requires n > 0
  {
    set i | 0 <= i < factor :: Target(primary, i, n)
  }

  lemma {:induction false} HolderCount(primary: nat, factor: nat, n: nat)
    requires primary < n && factor <= n
    ensures |Holders(primary, factor, n)| == factor
  {
    if factor > 0 {
      HolderCount(primary, factor - 1, n);
      var s := Holders(primary, factor - 1, n);
      var k := Target(primary, factor - 1, n);
      TargetsDiffer(primary, factor, n);
      assert k !in s;
      assert Holders(primary, factor, n) == s + {k};
    }
  }

  /**
   Placement: for a factor between one and the number of servers, exactly that many servers hold a copy,
   each exactly one, whichever node took the metric in.
   */
  lemma PlacementExact(primary: nat, factor: nat, n: nat, me: Option<nat>)
    requires primary < n && 1 <= factor <= n
    ensures |Holders(primary, factor, n)| == factor
    ensures forall k :: 0 <= k < n ==>
              Stored(primary, factor, n, me, k) == (if k in Holders(primary, factor, n) then 1 else 0)
  {
    HolderCount(primary, factor, n);
    TargetsDiffer(primary, factor, n);
    forall k | 0 <= k < n
      ensures Stored(primary, factor, n, me, k) == (if k in Holders(primary, factor, n) then 1 else 0)
    {
      SameWhoeverIngests(primary, factor, n, me, k);
      OneCopy(primary, 0, factor, n, k);
    }
  }
}
