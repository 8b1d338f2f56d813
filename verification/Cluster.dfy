/** The servers of a cluster: each peer's ring with its counters, the replication loop, and the drain. */
module Cluster {
  import opened Bits
  import opened Oplog
  import opened PeerSearch
  import opened Placement
  import opened Wrappers

  const TAB: Byte := 9
  const PRIMARY: seq<Byte> := [112, 114, 105, 109, 97, 114, 121]
  const REPLICA: seq<Byte> := [114, 101, 112, 108, 105, 99, 97]

  /** cluster_server_oplog, with a record of what left the ring. */
  class Server {
    const name: Name
    const ring: Ring
    var enqueued: nat
    var overflow: nat
    ghost var shipped: seq<Byte>
    ghost var left: seq<Exit>

    ghost predicate Valid()
      reads this, ring, ring.container
    {
      ring.Valid()
    }

    ghost function View(): (p: Peer)
      requires Valid()
      reads this, ring, ring.container
    {
      Peer(ring.Queue(), enqueued, overflow, shipped, left)
    }

    ghost function Room(): (n: nat)
      requires Valid()
      reads this, ring, ring.container
      ensures n >= 1
    {
      ring.size - 1
    }

    constructor (name: Name, size: nat)
      ensures Valid() && this.name == name && fresh(ring) && fresh(ring.container)
      ensures View() == Start() && Room() == (if size < 2 then 1 else size - 1)
    {
      this.name := name;
      ring := new Ring(size);
      enqueued, overflow, shipped, left := 0, 0, [], [];
    }

    /** One record for the peer, counted as cluster_pass counts it. */
    method Put(r: Record, memory: bool) returns (stored: bool)
      requires Valid()
      modifies this, ring, ring.container
      ensures Valid() && View() == Step(old(View()), Room(), Insert(r, stored))
      ensures memory ==> stored
    {
      ghost var q := ring.Queue();
      var inserted := ring.Insert(r, memory);
      stored := inserted >= 0;
      if inserted >= 0 {
        enqueued := enqueued + 1;
        if inserted > 0 {
          overflow := overflow + 1;
          left := left + [Exit(q[0], false)];
        }
      }
    }

    /** A peer fetches its batch. */
    method Take() returns (text: seq<Byte>)
      requires Valid()
      modifies this, ring
      ensures Valid() && View() == Step(old(View()), Room(), Shift)
      ensures shipped == old(shipped) + text
    {
      hide ShiftCount, Joined;
      ghost var q := ring.Queue();
      text := ring.ShiftString();
      shipped := shipped + text;
      left := left + Marked(q[..ShiftCount(q, 0)]);
    }
  }

  // ---------------------------------------------------------- the replication loop

  /** The record of copy `i`: the primary's own, or a replica naming the primary. */
  function Line(i: nat, primaryName: Name, body: seq<Byte>): (r: Record) {
    if i == 0 then PRIMARY + [TAB] + body else REPLICA + [TAB] + primaryName + [TAB] + body
  }

  /** What the loop does to the ring of server `k` for the copies `lo` up to `hi`. */
  ghost function Arrivals(primary: nat, lo: nat, hi: nat, n: nat, k: nat, line: nat -> Record,
                          stored: seq<bool>): (ops: seq<Op>)
    requires n > 0 && hi <= |stored|
    decreases hi
  {
    if hi <= lo then []
    else
      Arrivals(primary, lo, hi - 1, n, k, line, stored) +
      if Target(primary, hi - 1, n) == k then [Insert(line(hi - 1), stored[hi - 1])] else []
  }

  /** A server gets as many records as it is a target. */
  lemma {:induction false} ArrivalCount(primary: nat, lo: nat, hi: nat, n: nat, k: nat, line: nat -> Record,
                                        stored: seq<bool>)
    requires n > 0 && lo <= hi <= |stored|
    ensures |Arrivals(primary, lo, hi, n, k, line, stored)| == Copies(primary, lo, hi, n, k)
    decreases hi
  {
    if lo < hi {
      ArrivalCount(primary, lo, hi - 1, n, k, line, stored);
      CopiesLast(primary, lo, hi, n, k);
    }
  }

  lemma {:induction false} CopiesLast(primary: nat, lo: nat, hi: nat, n: nat, k: nat)
    requires n > 0 && lo < hi
    ensures Copies(primary, lo, hi, n, k) ==
            Copies(primary, lo, hi - 1, n, k) + (if Target(primary, hi - 1, n) == k then 1 else 0)
    decreases hi - lo
  {
    if lo + 1 < hi { CopiesLast(primary, lo + 1, hi, n, k); }
  }

  lemma {:induction false} RunOne(p: Peer, room: nat, ops: seq<Op>, op: Op)
    requires 1 <= room
    ensures Run(p, room, ops + [op]) == Step(Run(p, room, ops), room, op)
    decreases |ops|
  {
    hide Step;
    if ops == [] {
      assert (ops + [op])[1..] == [];
    } else {
      assert (ops + [op])[0] == ops[0] && (ops + [op])[1..] == ops[1..] + [op];
      RunOne(Step(p, room, ops[0]), room, ops[1..], op);
    }
  }

  ghost predicate Apart(servers: seq<Server>) {
    forall i, j :: 0 <= i < j < |servers| ==>
      && servers[i] != servers[j] && servers[i].ring != servers[j].ring
      && servers[i].ring.container != servers[j].ring.container
  }

  ghost function Footprint(servers: seq<Server>): (s: set<object>) {
    (set k | 0 <= k < |servers| :: servers[k] as object)
    + (set k | 0 <= k < |servers| :: servers[k].ring as object)
    + (set k | 0 <= k < |servers| :: servers[k].ring.container as object)
  }

  /** Server `k` has had these arrivals since it stood at `p`. */
  ghost predicate Had(s: Server, p: Peer, room: nat, ops: seq<Op>)
    reads s, s.ring, s.ring.container
  {
    s.Valid() && room >= 1 && s.ring.size == room + 1 && s.View() == Run(p, room, ops)
  }

  ghost function LineOf(primaryName: Name, body: seq<Byte>): nat -> Record {
    i => Line(i, primaryName, body)
  }

  /** What server `k` is due for the copies `lo` up to `hi`; this node stores its own. */
  ghost function Due(primary: nat, lo: nat, hi: nat, n: nat, k: nat, me: Option<nat>, line: nat -> Record,
                     stored: seq<bool>): (ops: seq<Op>)
    requires n > 0 && hi <= |stored|
  {
    if me == Some(k) then [] else Arrivals(primary, lo, hi, n, k, line, stored)
  }

  ghost predicate AllHad(servers: seq<Server>, ps: seq<Peer>, primary: nat, lo: nat, hi: nat, me: Option<nat>,
                         line: nat -> Record, stored: seq<bool>)
    requires |servers| == |ps| && hi <= |stored|
    reads Footprint(servers)
  {
    forall k: nat :: k < |servers| ==>
      servers[k].ring.size >= 2 &&
      Had(servers[k], ps[k], servers[k].ring.size - 1, Due(primary, lo, hi, |servers|, k, me, line, stored))
  }

  /** Sending copy `i` to another server. */
  method Send(servers: seq<Server>, ghost ps: seq<Peer>, primary: nat, ghost lo: nat, i: nat, ghost me: Option<nat>,
              body: seq<Byte>, memory: bool, ghost stored: seq<bool>)
    returns (ghost more: seq<bool>)
    requires Apart(servers) && primary < |servers| == |ps| && |stored| == i >= lo
    requires me != Some(Target(primary, i, |servers|))
    requires AllHad(servers, ps, primary, lo, i, me, LineOf(servers[primary].name, body), stored)
    modifies Footprint(servers)
    ensures |more| == i + 1 && more[..i] == stored && (memory ==> more[i])
    ensures AllHad(servers, ps, primary, lo, i + 1, me, LineOf(servers[primary].name, body), more)
  {
    hide Step, Run, Target, Line, Arrivals;
    var t := Target(primary, i, |servers|);
    ghost var line := LineOf(servers[primary].name, body);
    var r := Line(i, servers[primary].name, body);
    assert Had(servers[t], ps[t], servers[t].ring.size - 1, Due(primary, lo, i, |servers|, t, me, line, stored));
    var ok := servers[t].Put(r, memory);
    more := stored + [ok];
    forall k: nat | k < |servers|
      ensures Had(servers[k], ps[k], servers[k].ring.size - 1, Due(primary, lo, i + 1, |servers|, k, me, line, more))
    {
      ArrivalsNext(primary, lo, i, |servers|, k, line, stored, ok);
      if k == t {
        RunOne(ps[k], servers[k].ring.size - 1, Arrivals(primary, lo, i, |servers|, k, line, stored), Insert(r, ok));
      } else {
        assert old(Had(servers[k], ps[k], servers[k].ring.size - 1,
                       Due(primary, lo, i, |servers|, k, me, line, stored)));
      }
    }
  }

  lemma ArrivalsNext(primary: nat, lo: nat, i: nat, n: nat, k: nat, line: nat -> Record, stored: seq<bool>, ok: bool)
    requires n > 0 && lo <= i == |stored|
    ensures Arrivals(primary, lo, i + 1, n, k, line, stored + [ok]) ==
            if Target(primary, i, n) == k then Arrivals(primary, lo, i, n, k, line, stored) + [Insert(line(i), ok)]
            else Arrivals(primary, lo, i, n, k, line, stored)
  {
    ArrivalsSame(primary, lo, i, n, k, line, stored, stored + [ok]);
  }

  lemma {:induction false} ArrivalsSame(primary: nat, lo: nat, hi: nat, n: nat, k: nat, line: nat -> Record,
                                        a: seq<bool>, b: seq<bool>)
    requires n > 0 && hi <= |a| && a <= b
    ensures Arrivals(primary, lo, hi, n, k, line, a) == Arrivals(primary, lo, hi, n, k, line, b)
    decreases hi
  {
    if lo < hi { ArrivalsSame(primary, lo, hi - 1, n, k, line, a, b); }
  }

  /** Skipping copy `i`, which this node stores itself. */
  lemma Keep(servers: seq<Server>, ps: seq<Peer>, primary: nat, lo: nat, i: nat, me: Option<nat>, line: nat -> Record,
             stored: seq<bool>)
    requires primary < |servers| == |ps| && |stored| == i >= lo && me == Some(Target(primary, i, |servers|))
    requires AllHad(servers, ps, primary, lo, i, me, line, stored)
    ensures AllHad(servers, ps, primary, lo, i + 1, me, line, stored + [true])
  {
    hide Run, Arrivals;
    forall k: nat | k < |servers|
      ensures Had(servers[k], ps[k], servers[k].ring.size - 1,
                  Due(primary, lo, i + 1, |servers|, k, me, line, stored + [true]))
    {
      ArrivalsNext(primary, lo, i, |servers|, k, line, stored, true);
      assert Had(servers[k], ps[k], servers[k].ring.size - 1, Due(primary, lo, i, |servers|, k, me, line, stored));
    }
  }

  ghost predicate AllValid(servers: seq<Server>)
    reads Footprint(servers)
  {
    forall k: nat :: k < |servers| ==> servers[k].Valid()
  }

  ghost function Peers(servers: seq<Server>): (ps: seq<Peer>)
    requires AllValid(servers)
    reads Footprint(servers)
    ensures |ps| == |servers|
  {
    seq(|servers|, k requires 0 <= k < |servers| && AllValid(servers) reads Footprint(servers) => servers[k].View())
  }

  /** The copies `lo` up to `hi` that this node stores itself. */
  function Kept(primary: nat, lo: nat, hi: nat, n: nat, me: Option<nat>): (c: nat)
    requires n > 0
  {
    if me.Some? then Copies(primary, lo, hi, n, me.value) else 0
  }

  lemma KeptNext(primary: nat, lo: nat, i: nat, n: nat, me: Option<nat>)
    requires n > 0 && lo <= i
    ensures Kept(primary, lo, i + 1, n, me) ==
            Kept(primary, lo, i, n, me) + (if me == Some(Target(primary, i, n)) then 1 else 0)
    ensures Kept(primary, lo, lo, n, me) == 0
  {
    if me.Some? { CopiesLast(primary, lo, i + 1, n, me.value); }
  }

  /** One round of the replication loop. */
  method PassOne(servers: seq<Server>, ghost ps: seq<Peer>, primary: nat, ghost lo: nat, i: nat, me: Option<nat>,
                 body: seq<Byte>, memory: bool, local: nat, ghost stored: seq<bool>)
    returns (now: nat, ghost more: seq<bool>)
    requires Apart(servers) && primary < |servers| == |ps| && |stored| == i >= lo
    requires AllHad(servers, ps, primary, lo, i, me, LineOf(servers[primary].name, body), stored)
    requires local == Kept(primary, lo, i, |servers|, me)
    modifies Footprint(servers)
    ensures |more| == i + 1 && more[..i] == stored && (memory ==> more[i])
    ensures AllHad(servers, ps, primary, lo, i + 1, me, LineOf(servers[primary].name, body), more)
    ensures now == Kept(primary, lo, i + 1, |servers|, me)
  {
    hide AllHad, Target, Kept, LineOf;
    KeptNext(primary, lo, i, |servers|, me);
    if me == Some(Target(primary, i, |servers|)) {
      now := local + 1;
      Keep(servers, ps, primary, lo, i, me, LineOf(servers[primary].name, body), stored);
      more := stored + [true];
    } else {
      now := local;
      more := Send(servers, ps, primary, lo, i, me, body, memory, stored);
    }
  }

  /** The first copy the loop looks at: the caller stores the primary's when this node is the primary. */
  function FirstCopy(primary: nat, me: Option<nat>): (lo: nat) {
    if me == Some(primary) then 1 else 0
  }

  /** A copy is lost only when its ring cell could not be allocated. */
  ghost predicate Honoured(memory: seq<bool>, stored: seq<bool>, lo: nat, hi: nat) {
    forall i :: lo <= i < hi && i < |memory| && i < |stored| ==> (memory[i] ==> stored[i])
  }

  lemma HonouredNone(memory: seq<bool>, stored: seq<bool>, lo: nat)
    ensures Honoured(memory, stored, lo, lo)
  {
  }

  lemma HonouredNext(memory: seq<bool>, before: seq<bool>, stored: seq<bool>, lo: nat, i: nat)
    requires Honoured(memory, before, lo, i) && |before| == i < |memory| && |stored| == i + 1 && stored[..i] == before
    requires memory[i] ==> stored[i]
    ensures Honoured(memory, stored, lo, i + 1)
  {
    forall j | lo <= j < i ensures stored[j] == before[j] { assert stored[j] == stored[..i][j]; }
  }

  /**
   cluster_pass from the hash lookup on: every other server gets exactly the copies it is a target of, in order,
   and `local` counts the copies this node stores; 0 asks the caller to store the metric as well.
   */
  method Pass(servers: seq<Server>, primary: nat, me: Option<nat>, factor: nat, body: seq<Byte>, memory: seq<bool>)
    returns (retcode: nat, local: nat, ghost stored: seq<bool>)
    requires Apart(servers) && primary < |servers| && |memory| == factor && AllValid(servers)
    modifies Footprint(servers)
    ensures retcode == (if me == Some(primary) then 0 else 1)
    ensures |stored| == (if factor > FirstCopy(primary, me) then factor else FirstCopy(primary, me))
    ensures Honoured(memory, stored, FirstCopy(primary, me), |stored|)
    ensures AllHad(servers, old(Peers(servers)), primary, FirstCopy(primary, me), |stored|, me,
                   LineOf(servers[primary].name, body), stored)
    ensures local == Kept(primary, FirstCopy(primary, me), |stored|, |servers|, me)
  {
    hide AllHad, Kept, LineOf, Honoured, Apart, AllValid, Peers, Footprint;
    ghost var ps := Peers(servers);
    ghost var line := LineOf(servers[primary].name, body);
    var i := FirstCopy(primary, me);
    ghost var lo := i;
    retcode := 1 - i;
    local, stored := 0, seq(i, _ => true);
    NothingYet(servers, ps, primary, lo, me, line, stored);
    KeptNext(primary, lo, lo, |servers|, me);
    HonouredNone(memory, stored, lo);
    while i < factor
      invariant lo <= i && (i <= factor || i == lo) && |stored| == i
      invariant Honoured(memory, stored, lo, i)
      invariant AllHad(servers, ps, primary, lo, i, me, line, stored)
      invariant local == Kept(primary, lo, i, |servers|, me)
    {
      ghost var before := stored;
      local, stored := PassOne(servers, ps, primary, lo, i, me, body, memory[i], local, stored);
      HonouredNext(memory, before, stored, lo, i);
      i := i + 1;
    }
  }

  lemma NothingYet(servers: seq<Server>, ps: seq<Peer>, primary: nat, lo: nat, me: Option<nat>, line: nat -> Record,
                   stored: seq<bool>)
    requires |servers| == |ps| && |stored| == lo
    requires AllValid(servers)
    requires ps == Peers(servers)
    ensures AllHad(servers, ps, primary, lo, lo, me, line, stored)
  {
  }

  /**
   Delivery: for a factor between one and the number of servers, the records put on rings and the copies this node
   keeps are one for each of exactly that many servers, whichever node this is.
   */
  lemma DeliveredOnce(primary: nat, factor: nat, n: nat, me: Option<nat>, k: nat, line: nat -> Record,
                      stored: seq<bool>)
    requires primary < n && 1 <= factor <= n && |stored| == factor && k < n
    ensures var lo := if me == Some(primary) then 1 else 0;
            var own := if k == primary then 1 else 0;
            var kept := if me == Some(k) then Copies(primary, lo, factor, n, k) + own else 0;
            |Due(primary, lo, factor, n, k, me, line, stored)| + kept ==
              (if k in Holders(primary, factor, n) then 1 else 0)
    ensures |Holders(primary, factor, n)| == factor
  {
    hide Target, Holders, Arrivals;
    var lo := if me == Some(primary) then 1 else 0;
    PlacementExact(primary, factor, n, me);
    ArrivalCount(primary, lo, factor, n, k, line, stored);
  }

  // ---------------------------------------------------------- what the records say

  /** How many servers after the primary, going round the ring, server `k` comes. */
  function Distance(primary: nat, k: nat, n: nat): (d: nat)
    requires primary < n && k < n
    ensures d < n
  {
    if k >= primary then k - primary else k + n - primary
  }

  lemma DistanceTarget(primary: nat, k: nat, n: nat, i: nat)
    requires primary < n && k < n && i < n
    ensures Target(primary, i, n) == k <==> i == Distance(primary, k, n)
  {
    TargetWraps(primary, i, n);
  }

  lemma {:induction false} OneArrival(primary: nat, lo: nat, hi: nat, n: nat, k: nat, line: nat -> Record,
                                      stored: seq<bool>)
    requires primary < n && k < n && lo <= hi <= n && hi <= |stored|
    ensures var d := Distance(primary, k, n);
            Arrivals(primary, lo, hi, n, k, line, stored) == if lo <= d < hi then [Insert(line(d), stored[d])] else []
    decreases hi
  {
    hide Target, Distance;
    if lo < hi {
      OneArrival(primary, lo, hi - 1, n, k, line, stored);
      DistanceTarget(primary, k, n, hi - 1);
    }
  }

  /**
   The record every other server is due, for a factor between one and the number of servers: the primary a line that
   begins with "primary", each of the `factor - 1` servers after it one that begins with "replica" and names the
   primary, and the rest none.
   */
  lemma RecordsDue(primary: nat, factor: nat, n: nat, k: nat, me: Option<nat>, name: Name, body: seq<Byte>,
                   stored: seq<bool>)
    requires primary < n && k < n && 1 <= factor <= n && factor <= |stored| && me != Some(k)
    ensures var d := Distance(primary, k, n);
            Due(primary, FirstCopy(primary, me), factor, n, k, me, LineOf(name, body), stored) ==
              if k == primary then [Insert(Text("primary\t") + body, stored[0])]
              else if d < factor then [Insert(Text("replica\t") + name + Text("\t") + body, stored[d])]
              else []
  {
    hide Arrivals, Distance;
    var d := Distance(primary, k, n);
    OneArrival(primary, FirstCopy(primary, me), factor, n, k, LineOf(name, body), stored);
    assert d == 0 <==> k == primary by { DistanceZero(primary, k, n); }
    assert Text("primary\t") == PRIMARY + [TAB];
    assert Text("replica\t") == REPLICA + [TAB] && Text("\t") == [TAB];
  }

  lemma DistanceZero(primary: nat, k: nat, n: nat)
    requires primary < n && k < n
    ensures Distance(primary, k, n) == 0 <==> k == primary
  {
  }

  /** The bytes of a text in ASCII. */
  function Text(s: string): (b: seq<Byte>)
    requires forall i :: 0 <= i < |s| ==> s[i] < 128 as char
  {
    seq(|s|, i requires 0 <= i < |s| => s[i] as int)
  }

  /** cluster_shift_server_data: a known peer drains its own ring, and no other; an unknown one drains none. */
  method ShiftFor(servers: seq<Server>, wanted: Name) returns (text: Option<seq<Byte>>, found: Option<nat>)
    requires Apart(servers) && AllValid(servers)
    requires Sorted(seq(|servers|, k requires 0 <= k < |servers| => servers[k].name))
    modifies Footprint(servers)
    ensures AllValid(servers) && found.Some? == text.Some?
    ensures found.None? <==> forall k :: 0 <= k < |servers| ==> servers[k].name != wanted
    ensures found.Some? ==> found.value < |servers| && servers[found.value].name == wanted
    ensures forall k :: 0 <= k < |servers| ==>
              servers[k].View() ==
                if found == Some(k) then Step(old(servers[k].View()), servers[k].Room(), Shift)
                else old(servers[k].View())
    ensures found.Some? ==> servers[found.value].shipped == old(servers[found.value].shipped) + text.value
  {
    hide Step, Less;
    var names := seq(|servers|, k requires 0 <= k < |servers| => servers[k].name);
    found := FindServer(names, wanted);
    if found.None? {
      forall k | 0 <= k < |servers| ensures servers[k].name != wanted { assert names[k] in names; }
      return None, None;
    }
    var t := servers[found.value].Take();
    text := Some(t);
  }
}
