/**
 The replication log of one peer: a ring that drops its oldest record when full, drained in
 batches of at most 1 MiB, and the fate of every record over every run.
 */
module Oplog {
  import opened Arithmetic
  import opened Bits
  import opened Wrappers

  type Record = seq<Byte>

  const BATCH_MAX: nat := 1024 * 1024

  // ---------------------------------------------------------- the queue

  /** A queue of `room` records takes one more, at the cost of its oldest when full. */
  function Enqueue(q: seq<Record>, room: nat, r: Record): (n: seq<Record>)
    requires 1 <= room
  {
    if |q| >= room then q[1..] + [r] else q + [r]
  }

  function Joined(q: seq<Record>): (s: seq<Byte>) {
    if q == [] then [] else q[0] + Joined(q[1..])
  }

  /** How many records a shift removes when `used` bytes are already in the batch. */
  function ShiftCount(q: seq<Record>, used: nat): (n: nat)
    ensures n <= |q|
  {
    if q == [] then 0
    else if q[0] != [] && used + |q[0]| > BATCH_MAX then (if used > 0 then 0 else 1)
    else 1 + ShiftCount(q[1..], used + |q[0]|)
  }

  /** How many records a read covers; it never ships an oversized one. */
  function ReadCount(q: seq<Record>, used: nat): (n: nat)
    ensures n <= |q|
  {
    if q == [] || (q[0] != [] && used + |q[0]| > BATCH_MAX) then 0
    else 1 + ReadCount(q[1..], used + |q[0]|)
  }

  lemma {:induction false} JoinedAppend(a: seq<Record>, b: seq<Record>)
    ensures Joined(a + b) == Joined(a) + Joined(b)
  {
    if a == [] {
      assert a + b == b;
    } else {
      JoinedAppend(a[1..], b);
      assert (a + b)[0] == a[0] && (a + b)[1..] == a[1..] + b;
      Regroup(a[0], Joined(a[1..]), Joined(b));
    }
  }

  /** A batch keeps to its budget, or is one oversized record after empty ones. */
  lemma {:induction false} BatchBound(q: seq<Record>, used: nat)
    requires used <= BATCH_MAX
    ensures var n := ShiftCount(q, used);
            || used + |Joined(q[..n])| <= BATCH_MAX
            || (used == 0 && n > 0 && |q[n - 1]| > BATCH_MAX && Joined(q[..n]) == q[n - 1])
  {
    var n := ShiftCount(q, used);
    if q != [] && n > 0 {
      assert q[..n] == [q[0]] + q[1..][..n - 1];
      assert q[..n][1..] == q[1..][..n - 1];
      if q[0] != [] && used + |q[0]| > BATCH_MAX {
        assert q[..n][1..] == [];
      } else {
        BatchBound(q[1..], used + |q[0]|);
      }
    }
  }

  /** A batch ends only where the next record would exceed its budget, or behind an oversized record. */
  lemma {:induction false} BatchFull(q: seq<Record>, used: nat)
    requires used <= BATCH_MAX && ShiftCount(q, used) < |q|
    ensures var n := ShiftCount(q, used);
            || (q[n] != [] && used + |Joined(q[..n])| + |q[n]| > BATCH_MAX)
            || (used == 0 && n > 0 && |q[n - 1]| > BATCH_MAX)
  {
    var n := ShiftCount(q, used);
    if q[0] != [] && used + |q[0]| > BATCH_MAX {
      if used > 0 { assert q[..0] == []; }
    } else {
      BatchFull(q[1..], used + |q[0]|);
      assert q[..n][0] == q[0] && q[..n][1..] == q[1..][..n - 1];
      assert Joined(q[..n]) == q[0] + Joined(q[1..][..n - 1]);
    }
  }

  /** A shift of a non-empty queue always removes something. */
  lemma ShiftProgress(q: seq<Record>)
    requires q != []
    ensures ShiftCount(q, 0) > 0
  {
  }

  /** Reading shows what a shift would ship, unless an oversized record leads. */
  lemma {:induction false} ReadShowsShift(q: seq<Record>, used: nat)
    requires used <= BATCH_MAX
    ensures var n, r := ShiftCount(q, used), ReadCount(q, used);
            r == n || (used == 0 && n == r + 1 && |q[r]| > BATCH_MAX && Joined(q[..r]) == [])
  {
    if q != [] && !(q[0] != [] && used + |q[0]| > BATCH_MAX) {
      ReadShowsShift(q[1..], used + |q[0]|);
      var r := ReadCount(q[1..], used + |q[0]|);
      assert q[..r + 1][1..] == q[1..][..r];
    }
  }

  /** Shifting as often as there are records empties the queue and ships all of it, in order. */
  function Drained(q: seq<Record>, times: nat): (s: (seq<Byte>, seq<Record>))
    decreases times
  {
    if times == 0 then ([], q)
    else
      var n := ShiftCount(q, 0);
      var rest := Drained(q[n..], times - 1);
      (Joined(q[..n]) + rest.0, rest.1)
  }

  lemma {:induction false} DrainEmpties(q: seq<Record>, times: nat)
    requires times >= |q|
    ensures Drained(q, times) == (Joined(q), [])
    decreases times
  {
    if times == 0 {
      assert q == [];
    } else {
      hide ShiftCount, Joined;
      var n := ShiftCount(q, 0);
      DrainStep(q);
      DrainEmpties(q[n..], times - 1);
    }
  }

  lemma DrainStep(q: seq<Record>)
    ensures var n := ShiftCount(q, 0);
            (q != [] ==> n > 0) && Joined(q[..n]) + Joined(q[n..]) == Joined(q)
  {
    hide ShiftCount, Joined;
    var n := ShiftCount(q, 0);
    if q != [] { ShiftProgress(q); }
    JoinedAppend(q[..n], q[n..]);
    assert q[..n] + q[n..] == q;
  }

  // ---------------------------------------------------------- every run

  /** An insert may fail for memory; a shift always answers. */
  datatype Op = Insert(r: Record, stored: bool) | Shift | Read

  /** A record that left the ring, shipped or dropped. */
  datatype Exit = Exit(record: Record, shipped: bool)

  /** The ring of one peer with its counters, and what left it. */
  datatype Peer = Peer(queue: seq<Record>, enqueued: nat, overflow: nat, shipped: seq<Byte>, left: seq<Exit>)

  function Start(): (p: Peer) {
    Peer([], 0, 0, [], [])
  }

  function Marked(q: seq<Record>): (s: seq<Exit>)
    ensures |s| == |q|
  {
    seq(|q|, i requires 0 <= i < |q| => Exit(q[i], true))
  }

  function Step(p: Peer, room: nat, op: Op): (n: Peer)
    requires 1 <= room
  {
    match op
    case Insert(r, stored) =>
      if !stored then p
      else
        var full := |p.queue| >= room;
        Peer(Enqueue(p.queue, room, r), p.enqueued + 1, p.overflow + (if full then 1 else 0), p.shipped,
             if full then p.left + [Exit(p.queue[0], false)] else p.left)
    case Shift =>
      var n := ShiftCount(p.queue, 0);
      p.(queue := p.queue[n..], shipped := p.shipped + Joined(p.queue[..n]), left := p.left + Marked(p.queue[..n]))
    case Read => p
  }

  function Run(p: Peer, room: nat, ops: seq<Op>): (n: Peer)
    requires 1 <= room
    decreases |ops|
  {
    if ops == [] then p else Run(Step(p, room, ops[0]), room, ops[1..])
  }

  /** The records accepted by a run, in order. */
  function Accepted(ops: seq<Op>): (rs: seq<Record>) {
    if ops == [] then []
    else (if ops[0].Insert? && ops[0].stored then [ops[0].r] else []) + Accepted(ops[1..])
  }

  function Records(es: seq<Exit>): (rs: seq<Record>)
    ensures |rs| == |es|
  {
    seq(|es|, i requires 0 <= i < |es| => es[i].record)
  }

  function ShippedOf(es: seq<Exit>): (rs: seq<Record>) {
    if es == [] then [] else (if es[0].shipped then [es[0].record] else []) + ShippedOf(es[1..])
  }

  lemma {:induction false} ShippedAppend(a: seq<Exit>, b: seq<Exit>)
    ensures ShippedOf(a + b) == ShippedOf(a) + ShippedOf(b)
  {
    if a == [] {
      assert a + b == b;
    } else {
      ShippedAppend(a[1..], b);
      assert (a + b)[0] == a[0] && (a + b)[1..] == a[1..] + b;
      var head := if a[0].shipped then [a[0].record] else [];
      assert head + (ShippedOf(a[1..]) + ShippedOf(b)) == (head + ShippedOf(a[1..])) + ShippedOf(b);
    }
  }

  lemma {:induction false} ShippedMarked(q: seq<Record>)
    ensures ShippedOf(Marked(q)) == q
  {
    if q != [] {
      ShippedMarked(q[1..]);
      assert Marked(q)[1..] == Marked(q[1..]);
    }
  }

  /** What left followed by what is queued is what was accepted; the counters and the output agree with it. */
  ghost predicate Accounted(p: Peer, room: nat, accepted: seq<Record>) {
    && accepted == Records(p.left) + p.queue
    && p.shipped == Joined(ShippedOf(p.left))
    && p.enqueued == |accepted|
    && p.overflow == |p.left| - |ShippedOf(p.left)|
    && |p.queue| <= room
  }

  lemma InsertAccounted(p: Peer, room: nat, accepted: seq<Record>, r: Record)
    requires 1 <= room && Accounted(p, room, accepted)
    ensures Accounted(Step(p, room, Insert(r, true)), room, accepted + [r])
  {
    hide Joined, ShippedOf, ShiftCount;
    if |p.queue| >= room {
      DropAccounted(p.left, p.queue[0]);
      assert p.queue == [p.queue[0]] + p.queue[1..];
    }
  }

  lemma ShiftAccounted(p: Peer, room: nat, accepted: seq<Record>)
    requires 1 <= room && Accounted(p, room, accepted)
    ensures Accounted(Step(p, room, Shift), room, accepted)
  {
    hide ShiftCount, Joined, ShippedOf;
    var k := ShiftCount(p.queue, 0);
    var head := p.queue[..k];
    ShippedAppend(p.left, Marked(head));
    ShippedMarked(head);
    JoinedAppend(ShippedOf(p.left), head);
    assert Records(p.left + Marked(head)) == Records(p.left) + head;
    assert p.queue == head + p.queue[k..];
  }

  lemma StepAccounted(p: Peer, room: nat, accepted: seq<Record>, op: Op)
    requires 1 <= room && Accounted(p, room, accepted)
    ensures Accounted(Step(p, room, op), room, accepted + Accepted([op]))
  {
    hide Accounted;
    assert Accepted([op][1..]) == [];
    if op.Insert? && op.stored {
      assert op == Insert(op.r, true) && Accepted([op]) == [op.r];
      InsertAccounted(p, room, accepted, op.r);
    } else {
      assert accepted + Accepted([op]) == accepted;
      if op.Shift? { ShiftAccounted(p, room, accepted); }
    }
  }

  lemma DropAccounted(left: seq<Exit>, r: Record)
    ensures ShippedOf(left + [Exit(r, false)]) == ShippedOf(left)
    ensures Records(left + [Exit(r, false)]) == Records(left) + [r]
  {
    ShippedAppend(left, [Exit(r, false)]);
    assert ShippedOf([Exit(r, false)]) == ShippedOf([Exit(r, false)][1..]);
  }

  lemma AcceptedFirst(ops: seq<Op>)
    requires ops != []
    ensures Accepted(ops) == Accepted([ops[0]]) + Accepted(ops[1..])
  {
    assert Accepted([ops[0]][1..]) == [];
  }

  lemma {:induction false} RunAccounted(p: Peer, room: nat, accepted: seq<Record>, ops: seq<Op>)
    requires 1 <= room && Accounted(p, room, accepted)
    ensures Accounted(Run(p, room, ops), room, accepted + Accepted(ops))
    decreases |ops|
  {
    if ops == [] {
      hide Accounted;
      assert accepted + Accepted(ops) == accepted;
    } else {
      hide Accounted, Step, Accepted;
      StepAccounted(p, room, accepted, ops[0]);
      RunAccounted(Step(p, room, ops[0]), room, accepted + Accepted([ops[0]]), ops[1..]);
      AcceptedFirst(ops);
      assert accepted + Accepted([ops[0]]) + Accepted(ops[1..]) == accepted + Accepted(ops);
    }
  }

  /**
   Conservation over every run: the accepted records, in order, are the ones that left and then the
   queued ones; the bytes shipped are the shipped ones in order; enqueued less overflow is shipped plus queued.
   */
  lemma Conservation(room: nat, ops: seq<Op>)
    requires 1 <= room
    ensures var p := Run(Start(), room, ops);
            && Accepted(ops) == Records(p.left) + p.queue
            && p.shipped == Joined(ShippedOf(p.left))
            && p.enqueued - p.overflow == |ShippedOf(p.left)| + |p.queue|
            && p.enqueued == |Accepted(ops)|
  {
    assert Accounted(Start(), room, []);
    RunAccounted(Start(), room, [], ops);
    assert [] + Accepted(ops) == Accepted(ops);
  }

  // ---------------------------------------------------------- the ring in place

  /** The batch of a scan that has passed `i` records. */
  lemma {:induction false} JoinedSnoc(q: seq<Record>, i: nat)
    requires i < |q|
    ensures Joined(q[..i + 1]) == Joined(q[..i]) + q[i]
  {
    assert q[..i + 1] == q[..i] + [q[i]];
    JoinedAppend(q[..i], [q[i]]);
    assert Joined([q[i]]) == q[i] + Joined([q[i]][1..]);
  }

  /** The cell `i` places after `begin`. */
  function Cell(size: nat, begin: nat, i: nat): (k: int) {
    if begin + i < size then begin + i else begin + i - size
  }

  ghost predicate Filled(cells: seq<Option<Record>>, begin: nat, count: int) {
    begin < |cells| && 0 <= count <= |cells| && forall i: nat :: i < count ==> cells[Cell(|cells|, begin, i)].Some?
  }

  ghost function Slice(cells: seq<Option<Record>>, begin: nat, count: int): (q: seq<Record>)
    requires Filled(cells, begin, count)
    ensures |q| == count
  {
    seq(count, i requires 0 <= i < count => cells[Cell(|cells|, begin, i)].value)
  }

  lemma SlicePush(cells: seq<Option<Record>>, begin: nat, count: nat, r: Record)
    requires Filled(cells, begin, count) && count < |cells|
    ensures var after := cells[Cell(|cells|, begin, count) := Some(r)];
            Filled(after, begin, count + 1) && Slice(after, begin, count + 1) == Slice(cells, begin, count) + [r]
  {
  }

  lemma SliceDrop(cells: seq<Option<Record>>, begin: nat, count: nat, k: nat)
    requires Filled(cells, begin, count) && k <= count && k < |cells|
    ensures Filled(cells, Cell(|cells|, begin, k), count - k)
    ensures Slice(cells, Cell(|cells|, begin, k), count - k) == Slice(cells, begin, count)[k..]
  {
    forall i: nat | i < count - k
      ensures Cell(|cells|, Cell(|cells|, begin, k), i) == Cell(|cells|, begin, k + i)
      ensures cells[Cell(|cells|, begin, k + i)].Some?
    {
    }
  }

  class Ring {
    const size: nat
    const container: array<Option<Record>>
    var begin: nat
    var end: nat

    ghost function Count(): (n: int)
      reads this
    {
      if end >= begin then end - begin else end + size - begin
    }

    ghost predicate Valid()
      reads this, container
    {
      size >= 2 && container.Length == size && begin < size && end < size && Filled(container[..], begin, Count())
    }

    /** The records from begin up to end. */
    ghost function Queue(): (q: seq<Record>)
      requires Valid()
      reads this, container
      ensures |q| == Count() < size
    {
      Slice(container[..], begin, Count())
    }

    /** oplog_record_init: at least two cells, so at least one record. */
    constructor (wanted: nat)
      ensures Valid() && fresh(container) && Queue() == [] && size == (if wanted < 2 then 2 else wanted)
    {
      size := if wanted < 2 then 2 else wanted;
      container := new Option<Record>[if wanted < 2 then 2 else wanted](_ => None);
      begin, end := 0, 0;
    }

    /** The record goes into the cell at the end, which moves on. */
    method Put(r: Record)
      requires Valid()
      modifies this`end, container
      ensures end == (old(end) + 1) % size
      ensures Filled(container[..], begin, old(Count()) + 1)
      ensures Slice(container[..], begin, old(Count()) + 1) == old(Queue()) + [r]
    {
      hide Filled, Slice;
      ghost var cells, n := container[..], Count();
      SlicePush(cells, begin, n, r);
      container[end] := Some(r);
      assert container[..] == cells[Cell(size, begin, n) := Some(r)];
      end := (end + 1) % size;
    }

    /** oplog_record_insert: 1 when the oldest record was dropped, 0 otherwise, -1 when nothing was stored. */
    method Insert(r: Record, memory: bool) returns (rc: int)
      requires Valid()
      modifies this, container
      ensures Valid()
      ensures Queue() == if rc >= 0 then Enqueue(old(Queue()), size - 1, r) else old(Queue())
      ensures rc == 1 <==> rc >= 0 && |old(Queue())| == size - 1
      ensures -1 <= rc <= 1 && (memory ==> rc >= 0)
    {
      hide Filled, Slice;
      if container[end].None? && !memory { return -1; }
      ghost var n := Count();
      Wrapped(end + 1, size);
      Put(r);
      rc := 0;
      if end == begin {
        SliceDrop(container[..], begin, n + 1, 1);
        Wrapped(begin + 1, size);
        begin := (begin + 1) % size;
        rc := 1;
      }
      assert Queue() == if rc == 1 then (old(Queue()) + [r])[1..] else old(Queue()) + [r];
    }

    /** oplog_record_get_string: nothing is removed. */
    method GetString() returns (text: seq<Byte>)
      requires Valid()
      ensures text == Joined(Queue()[..ReadCount(Queue(), 0)])
    {
      hide Joined, ReadCount;
      text := [];
      ghost var q := Queue();
      StartsScan(q);
      var i := 0;
      while i < size
        invariant i <= |q| && text == Joined(q[..i])
        invariant ReadCount(q, 0) == i + ReadCount(q[i..], |text|)
      {
        ReadStep(q, i, |text|);
        JoinedStep(q, i);
        Wrapped(i + begin, size);
        var index := (i + begin) % size;
        if index == end { break; }
        var entry := container[index].value;
        if entry != [] && |text| + |entry| > BATCH_MAX { break; }
        text := text + entry;
        i := i + 1;
      }
    }

    /** The scan of a shift: the batch and where the ring begins after it. */
    method Batch() returns (text: seq<Byte>, newBegin: nat, ghost n: nat)
      requires Valid()
      ensures n == ShiftCount(Queue(), 0) && text == Joined(Queue()[..n]) && newBegin == Cell(size, begin, n)
    {
      hide Joined, ShiftCount;
      text := [];
      ghost var q := Queue();
      StartsScan(q);
      newBegin := begin;
      var i := 0;
      while i < size
        invariant i <= |q| && text == Joined(q[..i]) && newBegin == Cell(size, begin, i)
        invariant ShiftCount(q, 0) == i + ShiftCount(q[i..], |text|)
      {
        ShiftStep(q, i, |text|);
        JoinedStep(q, i);
        Wrapped(i + begin, size);
        var index := (i + begin) % size;
        if index == end { break; }
        Wrapped(index + 1, size);
        var entry := container[index].value;
        if entry != [] {
          if |text| + |entry| > BATCH_MAX {
            if |text| > 0 { break; }
            return text + entry, (index + 1) % size, i + 1;
          }
          text := text + entry;
        }
        newBegin := (index + 1) % size;
        i := i + 1;
      }
      n := i;
    }

    /** oplog_record_shift_string: the batch, removed from the front. */
    method ShiftString() returns (text: seq<Byte>)
      requires Valid()
      modifies this
      ensures Valid()
      ensures var n := ShiftCount(old(Queue()), 0);
              text == Joined(old(Queue())[..n]) && Queue() == old(Queue())[n..]
    {
      hide Joined, ShiftCount;
      var newBegin;
      ghost var n;
      text, newBegin, n := Batch();
      SliceDrop(container[..], begin, Count(), n);
      begin := newBegin;
    }
  }

  lemma StartsScan(q: seq<Record>)
    ensures q[..0] == [] && q[0..] == q && Joined([]) == []
    ensures ShiftCount(q, 0) == 0 + ShiftCount(q[0..], 0) && ReadCount(q, 0) == 0 + ReadCount(q[0..], 0)
  {
  }

  lemma JoinedStep(q: seq<Record>, i: nat)
    requires i <= |q|
    ensures i < |q| ==> Joined(q[..i + 1]) == Joined(q[..i]) + q[i]
  {
    if i < |q| { JoinedSnoc(q, i); }
  }

  lemma ShiftStep(q: seq<Record>, i: nat, used: nat)
    requires i <= |q|
    ensures i == |q| ==> ShiftCount(q[i..], used) == 0
    ensures i < |q| ==> ShiftCount(q[i..], used) ==
                        (if q[i] != [] && used + |q[i]| > BATCH_MAX then (if used > 0 then 0 else 1)
                         else 1 + ShiftCount(q[i + 1..], used + |q[i]|))
  {
    if i < |q| { assert q[i..][1..] == q[i + 1..]; }
  }

  lemma ReadStep(q: seq<Record>, i: nat, used: nat)
    requires i <= |q|
    ensures i == |q| ==> ReadCount(q[i..], used) == 0
    ensures i < |q| ==> ReadCount(q[i..], used) ==
                        (if q[i] != [] && used + |q[i]| > BATCH_MAX then 0
                         else 1 + ReadCount(q[i + 1..], used + |q[i]|))
  {
    if i < |q| { assert q[i..][1..] == q[i + 1..]; }
  }
}
