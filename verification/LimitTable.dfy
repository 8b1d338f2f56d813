/**
 The bounded table of a keyed rate-limit rule: 4096 slots, the first idle one reused, and
 that under a clock that does not go back it decides as an unbounded map would.
 */
module LimitTable {
  import opened Bits
  import opened Gcra
  import opened Wrappers

  const SLOTS: nat := 4096
  const IDLE: nat := 60 * SECOND
  const TABLE_RETRY: nat := 60

  type Id = seq<Byte>

  datatype Slot = Slot(id: Id, tat: nat, last: nat, have: bool)

  /** The slots in use, in table order. */
  type Table = seq<Slot>

  // ---------------------------------------------------------- where an id goes

  /** The first slot that holds `id`, or the length of the table. */
  function IndexOf(t: Table, id: Id): (i: nat)
    ensures i <= |t|
    ensures i < |t| ==> t[i].id == id
    ensures forall j :: 0 <= j < i ==> t[j].id != id
  {
    if t == [] || t[0].id == id then 0 else
      var r := IndexOf(t[1..], id);
      assert forall j :: 0 < j <= r ==> t[j].id == t[1..][j - 1].id || j == r;
      r + 1
  }

  predicate IsIdle(s: Slot, now: nat) {
    s.have && now >= s.last && now - s.last >= IDLE
  }

  /** The first idle slot, or the length of the table. */
  function FirstIdle(t: Table, now: nat): (i: nat)
    ensures i <= |t|
    ensures i < |t| ==> IsIdle(t[i], now)
    ensures forall j :: 0 <= j < i ==> !IsIdle(t[j], now)
  {
    if t == [] || IsIdle(t[0], now) then 0 else
      var r := FirstIdle(t[1..], now);
      assert forall j :: 0 < j <= r ==> t[j] == t[1..][j - 1] || j == r;
      r + 1
  }

  datatype Place = Held(at: nat) | Append | Reuse(at: nat) | Full

  /** The order in which http_limit_rule_plan looks for a place. */
  function PlaceOf(t: Table, id: Id, now: nat): (p: Place)
    ensures p.Held? ==> p.at < |t| && t[p.at].id == id
    ensures !p.Held? ==> forall j :: 0 <= j < |t| ==> t[j].id != id
    ensures p.Append? ==> |t| < SLOTS
    ensures p.Reuse? ==> p.at < |t| && IsIdle(t[p.at], now) && forall j :: 0 <= j < p.at ==> !IsIdle(t[j], now)
    ensures p.Full? ==> |t| >= SLOTS && forall j :: 0 <= j < |t| ==> !IsIdle(t[j], now)
  {
    var i := IndexOf(t, id);
    if i < |t| then Held(i)
    else if |t| < SLOTS then Append
    else
      var r := FirstIdle(t, now);
      if r < |t| then Reuse(r) else Full
  }

  // ---------------------------------------------------------- plan and commit

  function Touch(s: Slot, now: nat): (r: Slot) {
    if now >= s.last then s.(last := now) else s
  }

  /** Planning refreshes the slot that holds the id, whatever the decision. */
  function Planned(t: Table, id: Id, now: nat): (r: Table)
    ensures |r| == |t|
  {
    var p := PlaceOf(t, id, now);
    if p.Held? then t[p.at := Touch(t[p.at], now)] else t
  }

  /** What the table remembers of an id. */
  function Recall(t: Table, id: Id, now: nat): (tat: Option<nat>) {
    var p := PlaceOf(t, id, now);
    if p.Held? && t[p.at].have then Some(t[p.at].tat) else None
  }

  function TablePlan(t: Table, id: Id, now: nat, rate: Rate): (p: Plan) {
    if PlaceOf(t, id, now).Full? then Deny(TABLE_RETRY) else GcraPlan(Recall(t, id, now), now, rate)
  }

  /** Committing an admission to the place that was planned. */
  function Committed(t: Table, id: Id, now: nat, tat: nat): (r: Table) {
    var p := PlaceOf(t, id, now);
    if p.Held? then t[p.at := Touch(t[p.at].(tat := tat, have := true), now)]
    else if p.Append? then t + [Slot(id, tat, now, true)]
    else if p.Reuse? then t[p.at := Slot(id, tat, now, true)]
    else t
  }

  // ---------------------------------------------------------- the invariant and the map

  ghost predicate SlotOk(s: Slot, clock: nat) {
    s.have && s.last <= clock && s.tat <= s.last + SECOND
  }

  ghost predicate TableOk(t: Table, clock: nat) {
    && |t| <= SLOTS
    && (forall i :: 0 <= i < |t| ==> SlotOk(t[i], clock))
    && (forall i, j :: 0 <= i < j < |t| ==> t[i].id != t[j].id)
  }

  /** An unbounded map from ids to theoretical arrival times. */
  type Buckets = map<Id, nat>

  function Lookup(m: Buckets, id: Id): (tat: Option<nat>) {
    if id in m then Some(m[id]) else None
  }

  ghost predicate Holds(t: Table, id: Id) {
    exists i :: 0 <= i < |t| && t[i].id == id
  }

  /** The table holds the map, but for ids whose arrival time has passed. */
  ghost predicate Represents(t: Table, m: Buckets, clock: nat) {
    && (forall i :: 0 <= i < |t| ==> t[i].id in m && m[t[i].id] == t[i].tat)
    && (forall id :: id in m && !Holds(t, id) ==> m[id] <= clock)
  }

  /** A decision is the map's, or the table is full of slots used within the last minute. */
  lemma TableDecides(t: Table, m: Buckets, clock: nat, id: Id, now: nat, rate: Rate)
    requires TableOk(t, clock) && Represents(t, m, clock) && clock <= now
    ensures TablePlan(t, id, now, rate) ==
            if PlaceOf(t, id, now).Full? then Deny(TABLE_RETRY) else GcraPlan(Lookup(m, id), now, rate)
    ensures PlaceOf(t, id, now).Full? <==>
            |t| == SLOTS && !Holds(t, id) && forall i :: 0 <= i < |t| ==> now < t[i].last + IDLE
  {
    var p := PlaceOf(t, id, now);
    if p.Held? {
      assert SlotOk(t[p.at], clock);
      assert Holds(t, id);
    } else {
      assert !Holds(t, id);
      assert id in m ==> m[id] <= now;
    }
    if !p.Full? && !p.Held? && |t| == SLOTS {
      assert IsIdle(t[p.at], now);
    }
    forall i | 0 <= i < |t| ensures IsIdle(t[i], now) <==> now >= t[i].last + IDLE { assert SlotOk(t[i], clock); }
  }

  lemma PlannedKeeps(t: Table, m: Buckets, clock: nat, id: Id, now: nat)
    requires TableOk(t, clock) && Represents(t, m, clock) && clock <= now
    ensures TableOk(Planned(t, id, now), now) && Represents(Planned(t, id, now), m, now)
  {
    var r := Planned(t, id, now);
    forall i | 0 <= i < |t| ensures r[i].id == t[i].id && r[i].tat == t[i].tat && SlotOk(r[i], now) {
      assert SlotOk(t[i], clock);
    }
    SameHolds(t, r);
  }

  lemma SameHolds(t: Table, r: Table)
    requires |t| == |r| && forall i :: 0 <= i < |t| ==> r[i].id == t[i].id
    ensures forall id :: Holds(t, id) <==> Holds(r, id)
  {
    forall id ensures Holds(t, id) <==> Holds(r, id) {
      if Holds(t, id) { var i :| 0 <= i < |t| && t[i].id == id; assert r[i].id == id; }
      if Holds(r, id) { var i :| 0 <= i < |r| && r[i].id == id; assert t[i].id == id; }
    }
  }

  /** Where a commit writes. */
  ghost function PlaceAt(t: Table, id: Id, now: nat): (at: nat)
    requires !PlaceOf(t, id, now).Full?
  {
    var p := PlaceOf(t, id, now);
    if p.Append? then |t| else p.at
  }

  /** A commit writes one slot, and no other slot has the id. */
  lemma CommittedSlots(t: Table, clock: nat, id: Id, now: nat, tat: nat)
    requires TableOk(t, clock) && clock <= now && tat <= now + SECOND && !PlaceOf(t, id, now).Full?
    ensures var r, at := Committed(t, id, now, tat), PlaceAt(t, id, now);
            && at < |r| && |t| <= |r| <= |t| + 1 && |r| <= SLOTS && (at == |t| <==> |r| == |t| + 1)
            && r[at].id == id && r[at].tat == tat && SlotOk(r[at], now)
            && (forall i :: 0 <= i < |t| && i != at ==> r[i] == t[i] && SlotOk(r[i], now) && t[i].id != id)
            && (at < |t| ==> t[at].id == id || IsIdle(t[at], now))
  {
    hide IndexOf, FirstIdle;
    var p, r, at := PlaceOf(t, id, now), Committed(t, id, now, tat), PlaceAt(t, id, now);
    forall i | 0 <= i < |t| && i != at ensures r[i] == t[i] && SlotOk(r[i], now) && t[i].id != id {
      assert SlotOk(t[i], clock);
      if p.Held? { assert t[at].id == id; }
    }
  }

  /** Committing updates the map at one id; a reused slot was idle long enough to be forgotten. */
  lemma CommittedKeeps(t: Table, m: Buckets, clock: nat, id: Id, now: nat, tat: nat)
    requires TableOk(t, clock) && Represents(t, m, clock) && clock <= now
    requires tat <= now + SECOND && !PlaceOf(t, id, now).Full?
    ensures TableOk(Committed(t, id, now, tat), now)
    ensures Represents(Committed(t, id, now, tat), m[id := tat], now)
  {
    hide PlaceOf, PlaceAt, Committed, SlotOk, IsIdle;
    CommittedSlots(t, clock, id, now, tat);
    OthersHeld(t, Committed(t, id, now, tat), id, PlaceAt(t, id, now), now, m, clock);
  }

  lemma OthersHeld(t: Table, r: Table, id: Id, at: nat, now: nat, m: Buckets, clock: nat)
    requires TableOk(t, clock) && Represents(t, m, clock) && clock <= now
    requires at < |r| && |t| <= |r| <= |t| + 1 && (at == |t| <==> |r| == |t| + 1)
    requires r[at].id == id && forall i :: 0 <= i < |t| && i != at ==> r[i] == t[i]
    requires at < |t| ==> t[at].id == id || IsIdle(t[at], now)
    ensures forall other :: other in m && other != id && !Holds(r, other) ==> m[other] <= now
  {
    forall other | other in m && other != id && !Holds(r, other) ensures m[other] <= now {
      if Holds(t, other) {
        var i :| 0 <= i < |t| && t[i].id == other;
        assert r[i].id == other || i == at;
        assert SlotOk(t[i], clock);
      }
    }
  }
}
