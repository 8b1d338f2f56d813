/**
 Send flow control (RFC 7540 sections 6.9.1 and 6.9.2): which bytes of the
 request body leave, in which DATA frames, and what the two windows are, over
 every run of window updates, peer settings and flushes, failed writes included.
 */
module H2Flow {
  import opened Bits
  import opened Wrappers
  import opened H2Frame

  /** The send side of the connection: unsent body, offset into it, limits and windows. */
  datatype Flow = Flow(pending: Option<seq<Byte>>, off: nat, maxFrame: nat, init: nat, conn: int, stream: int)

  /** The payload of one DATA frame and its END_STREAM flag. */
  datatype Chunk = Chunk(payload: seq<Byte>, end: bool)

  function Min(a: int, b: int): (m: int) {
    if b < a then b else a
  }

  /** The bytes carried by DATA frames. */
  function Carried(cs: seq<Chunk>): (s: seq<Byte>) {
    if cs == [] then [] else cs[0].payload + Carried(cs[1..])
  }

  function Remaining(s: Flow): (r: seq<Byte>) {
    if s.pending.Some? && s.off <= |s.pending.value| then s.pending.value[s.off..] else []
  }

  function FrameCap(s: Flow): (m: nat)
    ensures 1 <= m <= MAX_FRAME
  {
    if s.maxFrame == 0 || s.maxFrame > MAX_FRAME then MAX_FRAME else s.maxFrame
  }

  predicate CanSend(s: Flow) {
    s.pending.Some? && s.off < |s.pending.value| && Min(s.conn, s.stream) > 0
  }

  function ChunkSize(s: Flow): (n: nat)
    requires CanSend(s)
    ensures 1 <= n <= |s.pending.value| - s.off && n <= s.conn && n <= s.stream && n <= MAX_FRAME
  {
    Min(Min(|s.pending.value| - s.off, Min(s.conn, s.stream)), FrameCap(s))
  }

  function NextChunk(s: Flow): (c: Chunk)
    requires CanSend(s)
  {
    var n := ChunkSize(s);
    Chunk(s.pending.value[s.off..s.off + n], s.off + n >= |s.pending.value|)
  }

  function Debited(s: Flow): (r: Flow)
    requires CanSend(s)
  {
    var n := ChunkSize(s);
    s.(off := s.off + n, conn := s.conn - n, stream := s.stream - n)
  }

  datatype Flushed = Flushed(flow: Flow, sent: seq<Chunk>)

  /** The sending loop; `writes` says which writes succeed. */
  function SendLoop(s: Flow, writes: seq<bool>): (r: Flushed)
    decreases |writes|
  {
    if !CanSend(s) || writes == [] || !writes[0] then Flushed(s, [])
    else
      var r := SendLoop(Debited(s), writes[1..]);
      Flushed(r.flow, [NextChunk(s)] + r.sent)
  }

  /** Dropping a body that has been sent to its end. */
  function Released(s: Flow): (r: Flow) {
    if s.pending.Some? && s.off >= |s.pending.value| then s.(pending := None, off := 0) else s
  }

  function Flush(s: Flow, writes: seq<bool>): (r: Flushed) {
    if s.pending.None? then Flushed(s, [])
    else var r := SendLoop(s, writes); Flushed(Released(r.flow), r.sent)
  }

  // ---------------------------------------------------------- window changes

  function WindowAdd(win: int, incr: nat): (r: Option<int>) {
    if incr == 0 || win + incr > WINDOW_LIMIT then None else Some(win + incr)
  }

  datatype Setting = Setting(id: nat, value: nat)

  /** A new flow state, and whether the change was accepted. */
  datatype Changed = Changed(flow: Flow, ok: bool)

  function ApplySetting(s: Flow, p: Setting): (r: Changed) {
    if p.id == 4 then
      if p.value > WINDOW_LIMIT || s.stream + p.value - s.init > WINDOW_LIMIT then Changed(s, false)
      else Changed(s.(init := p.value, stream := s.stream + p.value - s.init), true)
    else if p.id == 5 && 16384 <= p.value <= 16777215 then
      Changed(s.(maxFrame := if p.value > MAX_FRAME then MAX_FRAME else p.value), true)
    else Changed(s, true)
  }

  /** The parameters in order, up to the first that is refused. */
  function ApplySettings(s: Flow, ps: seq<Setting>): (r: Changed)
    decreases |ps|
  {
    if ps == [] then Changed(s, true)
    else
      var r := ApplySetting(s, ps[0]);
      if r.ok then ApplySettings(r.flow, ps[1..]) else r
  }

  function ApplyUpdate(s: Flow, sid: nat, incr: nat): (r: Changed) {
    if incr == 0 || sid > 1 then Changed(s, true)
    else if sid == 0 then
      match WindowAdd(s.conn, incr) case None => Changed(s, false) case Some(w) => Changed(s.(conn := w), true)
    else
      match WindowAdd(s.stream, incr) case None => Changed(s, false) case Some(w) => Changed(s.(stream := w), true)
  }

  // ---------------------------------------------------------- the invariant

  /** What happened so far: the framed body, the DATA frames sent, the credit accepted. */
  datatype Ledger = Ledger(body: seq<Byte>, chunks: seq<Chunk>, connCredit: nat, streamCredit: nat)

  /** Frame `k` is within the frame limit and carries END_STREAM exactly when it carries the last byte. */
  ghost predicate ChunkOk(l: Ledger, k: nat)
    requires k < |l.chunks|
  {
    && |l.chunks[k].payload| <= MAX_FRAME
    && (l.chunks[k].end <==> |Carried(l.chunks[..k + 1])| == |l.body|)
  }

  /**
   Conservation: frames sent plus the unsent tail are the body; each window is
   its initial value plus accepted credit minus bytes sent. The stream window may
   be negative after a settings shrink, the connection window never is.
   */
  ghost predicate Balanced(s: Flow, l: Ledger) {
    && Carried(l.chunks) + Remaining(s) == l.body
    && s.conn == DEFAULT_WINDOW + l.connCredit - |Carried(l.chunks)|
    && s.stream == s.init + l.streamCredit - |Carried(l.chunks)|
    && 0 <= s.conn <= WINDOW_LIMIT && s.stream <= WINDOW_LIMIT
    && (s.pending.Some? ==> s.off <= |s.pending.value|)
    && (forall k :: 0 <= k < |l.chunks| ==> ChunkOk(l, k))
  }

  /** Between operations a body that is still held is not finished. */
  ghost predicate Inv(s: Flow, l: Ledger) {
    Balanced(s, l) && (s.pending.Some? ==> s.off < |s.pending.value|)
  }

  lemma {:induction false} CarriedAppend(a: seq<Chunk>, b: seq<Chunk>)
    ensures Carried(a + b) == Carried(a) + Carried(b)
  {
    if a == [] {
      assert a + b == b;
    } else {
      assert (a + b)[1..] == a[1..] + b;
      CarriedAppend(a[1..], b);
      assert a[0].payload + (Carried(a[1..]) + Carried(b)) == Carried(a) + Carried(b);
    }
  }

  lemma CarriedOne(c: Chunk)
    ensures Carried([c]) == c.payload
  {
    assert Carried([c]) == c.payload + Carried([]);
  }

  /** One more DATA frame in the ledger. */
  function Sent(l: Ledger, c: Chunk): (r: Ledger) {
    l.(chunks := l.chunks + [c])
  }

  lemma ChunksOkAfter(l: Ledger, c: Chunk)
    requires forall k :: 0 <= k < |l.chunks| ==> ChunkOk(l, k)
    requires |c.payload| <= MAX_FRAME && (c.end <==> |Carried(l.chunks + [c])| == |l.body|)
    ensures forall k :: 0 <= k < |Sent(l, c).chunks| ==> ChunkOk(Sent(l, c), k)
  {
    var m := Sent(l, c);
    forall k | 0 <= k < |m.chunks|
      ensures ChunkOk(m, k)
    {
      if k < |l.chunks| {
        assert ChunkOk(l, k);
        assert m.chunks[..k + 1] == l.chunks[..k + 1];
      } else {
        assert m.chunks[..k + 1] == m.chunks;
      }
    }
  }

  /** What a DATA frame takes off the unsent bytes it adds to those carried. */
  lemma CarriedMoves(s: Flow, chunks: seq<Chunk>)
    requires CanSend(s)
    ensures var c := NextChunk(s);
            && Carried(chunks + [c]) == Carried(chunks) + c.payload && |c.payload| == ChunkSize(s)
            && Carried(chunks + [c]) + Remaining(Debited(s)) == Carried(chunks) + Remaining(s)
  {
    hide Carried, ChunkSize;
    var n, c := ChunkSize(s), NextChunk(s);
    var body := s.pending.value;
    CarriedAppend(chunks, [c]);
    CarriedOne(c);
    assert body[s.off..] == c.payload + body[s.off + n..];
    Regroup(Carried(chunks), c.payload, body[s.off + n..]);
  }

  lemma SendOne(s: Flow, l: Ledger)
    requires Balanced(s, l) && CanSend(s)
    ensures Balanced(Debited(s), Sent(l, NextChunk(s)))
  {
    hide Carried, ChunkOk;
    var c := NextChunk(s);
    CarriedMoves(s, l.chunks);
    ChunksOkAfter(l, c);
  }

  lemma {:induction false} SendLoopKeeps(s: Flow, l: Ledger, writes: seq<bool>)
    requires Balanced(s, l)
    ensures var r := SendLoop(s, writes); Balanced(r.flow, l.(chunks := l.chunks + r.sent))
    decreases |writes|
  {
    hide Balanced, NextChunk, Debited, CanSend;
    if CanSend(s) && writes != [] && writes[0] {
      SendOne(s, l);
      SendLoopKeeps(Debited(s), Sent(l, NextChunk(s)), writes[1..]);
      var r := SendLoop(Debited(s), writes[1..]);
      assert l.chunks + ([NextChunk(s)] + r.sent) == (l.chunks + [NextChunk(s)]) + r.sent;
    } else {
      assert l.chunks + [] == l.chunks;
    }
  }

  /** A flush keeps the invariant, whatever writes fail. */
  lemma FlushKeeps(s: Flow, l: Ledger, writes: seq<bool>)
    requires Inv(s, l)
    ensures var r := Flush(s, writes); Inv(r.flow, l.(chunks := l.chunks + r.sent))
  {
    if s.pending.Some? {
      SendLoopKeeps(s, l, writes);
    } else {
      assert l.chunks + [] == l.chunks;
    }
  }

  /** No DATA frame of a flush overdraws either window. */
  lemma {:induction false} FlushWithinWindows(s: Flow, writes: seq<bool>, k: nat)
    requires 0 < k <= |SendLoop(s, writes).sent|
    ensures |Carried(SendLoop(s, writes).sent[..k])| <= Min(s.conn, s.stream)
    decreases |writes|
  {
    var r := SendLoop(Debited(s), writes[1..]);
    var c := NextChunk(s);
    assert ([c] + r.sent)[..k] == [c] + r.sent[..k - 1];
    CarriedAppend([c], r.sent[..k - 1]);
    assert Carried([c]) == c.payload + Carried([]) == c.payload;
    if k > 1 {
      FlushWithinWindows(Debited(s), writes[1..], k - 1);
    } else {
      assert r.sent[..0] == [];
    }
  }

  /** A flush whose writes succeed stops only at the end of the body or at an empty window. */
  lemma {:induction false} FlushStopsOnlyWhenBlocked(s: Flow, writes: seq<bool>)
    requires forall i :: 0 <= i < |writes| ==> writes[i]
    requires |writes| >= |Remaining(s)|
    ensures !CanSend(SendLoop(s, writes).flow)
    decreases |writes|
  {
    if CanSend(s) {
      FlushStopsOnlyWhenBlocked(Debited(s), writes[1..]);
    }
  }

  /** The windows fall by exactly the bytes that leave. */
  lemma {:induction false} SendLoopDebits(s: Flow, writes: seq<bool>)
    ensures var r := SendLoop(s, writes).flow;
            && r.pending == s.pending
            && s.conn - r.conn == s.stream - r.stream == |Remaining(s)| - |Remaining(r)|
            && (s.pending.Some? && s.off <= |s.pending.value| ==> r.off <= |s.pending.value|)
    decreases |writes|
  {
    if CanSend(s) && writes != [] && writes[0] {
      SendLoopDebits(Debited(s), writes[1..]);
    }
  }

  /** Enough credit and successful writes deliver the whole body, the last frame ending the stream. */
  lemma FlushDelivers(s: Flow, l: Ledger, writes: seq<bool>)
    requires Inv(s, l) && s.pending.Some?
    requires |Remaining(s)| <= s.conn && |Remaining(s)| <= s.stream
    requires |writes| >= |Remaining(s)| && forall i :: 0 <= i < |writes| ==> writes[i]
    ensures var r := Flush(s, writes);
            && r.flow.pending.None? && r.sent != [] && r.sent[|r.sent| - 1].end
            && Carried(l.chunks + r.sent) == l.body
  {
    var r := SendLoop(s, writes);
    SendLoopDebits(s, writes);
    FlushStopsOnlyWhenBlocked(s, writes);
    FlushKeeps(s, l, writes);
    var m := l.(chunks := l.chunks + r.sent);
    assert Remaining(Released(r.flow)) == [];
    assert r.sent != [] by { assert CanSend(s); }
    assert ChunkOk(m, |m.chunks| - 1);
    assert m.chunks[..|m.chunks|] == m.chunks;
  }

  // ---------------------------------------------------------- request_build and flow_attach

  /** The DATA frames of the first `now` bytes, from offset `off` on. */
  function BuildFrom(body: seq<Byte>, off: nat, now: nat): (cs: seq<Chunk>)
    requires off <= now <= |body|
    decreases now - off
  {
    if off == now then []
    else
      var n := Min(now - off, MAX_FRAME);
      [Chunk(body[off..off + n], now == |body| && off + n >= now)] + BuildFrom(body, off + n, now)
  }

  function SendNow(body: seq<Byte>): (n: nat)
    ensures n <= |body|
  {
    if |body| > DEFAULT_WINDOW then DEFAULT_WINDOW else |body|
  }

  function BuildChunks(body: seq<Byte>): (cs: seq<Chunk>) {
    if body == [] then [Chunk([], true)] else BuildFrom(body, 0, SendNow(body))
  }

  function Attach(pending: Option<seq<Byte>>, sent: nat): (s: Flow) {
    var w := if DEFAULT_WINDOW < sent then 0 else DEFAULT_WINDOW - sent;
    Flow(pending, 0, MAX_FRAME, DEFAULT_WINDOW, w, w)
  }

  lemma {:induction false} BuildFromOk(l: Ledger, off: nat, now: nat)
    requires off <= now <= |l.body| && Carried(l.chunks) == l.body[..off]
    requires forall k :: 0 <= k < |l.chunks| ==> ChunkOk(l, k)
    ensures var m := l.(chunks := l.chunks + BuildFrom(l.body, off, now));
            Carried(m.chunks) == l.body[..now] && forall k :: 0 <= k < |m.chunks| ==> ChunkOk(m, k)
    decreases now - off
  {
    hide Carried, ChunkOk;
    if off == now {
      assert l.chunks + [] == l.chunks;
    } else {
      var n := Min(now - off, MAX_FRAME);
      var c := Chunk(l.body[off..off + n], now == |l.body| && off + n >= now);
      CarriedAppend(l.chunks, [c]);
      CarriedOne(c);
      assert l.body[..off] + c.payload == l.body[..off + n];
      ChunksOkAfter(l, c);
      BuildFromOk(Sent(l, c), off + n, now);
      assert l.chunks + ([c] + BuildFrom(l.body, off + n, now)) == Sent(l, c).chunks + BuildFrom(l.body, off + n, now);
    }
  }

  /** The frames of request_build carry the first window of the body, END_STREAM only on its last byte. */
  lemma BuildOk(body: seq<Byte>)
    ensures var l := Ledger(body, BuildChunks(body), 0, 0);
            && Carried(l.chunks) == body[..SendNow(body)]
            && forall k :: 0 <= k < |l.chunks| ==> ChunkOk(l, k)
  {
    if body == [] {
      var l := Ledger(body, [Chunk([], true)], 0, 0);
      assert l.chunks[..1] == l.chunks;
    } else {
      BuildFromOk(Ledger(body, [], 0, 0), 0, SendNow(body));
      assert [] + BuildChunks(body) == BuildChunks(body);
    }
  }

  /** What request_build hands back: the part of the body behind the first window. */
  function PendingOf(body: seq<Byte>): (p: Option<seq<Byte>>) {
    if |body| > DEFAULT_WINDOW then Some(body[SendNow(body)..]) else None
  }

  /** The flow after attaching a built request. */
  function Attached(body: seq<Byte>): (s: Flow) {
    Attach(PendingOf(body), SendNow(body))
  }

  function Opening(body: seq<Byte>): (l: Ledger) {
    Ledger(body, BuildChunks(body), 0, 0)
  }

  /** Attaching a built request starts the invariant, whatever the size of its body. */
  lemma AttachStarts(body: seq<Byte>)
    ensures Inv(Attached(body), Opening(body))
  {
    BuildOk(body);
    var rest := body[SendNow(body)..];
    assert rest[0..] == rest && body[..SendNow(body)] + rest == body;
    assert |body| <= DEFAULT_WINDOW ==> body[..SendNow(body)] == body && body + [] == body;
  }

  // ---------------------------------------------------------- whole runs

  datatype Op = Update(sid: nat, incr: nat) | Settings(ps: seq<Setting>) | Flushing(writes: seq<bool>)

  function StepFlow(s: Flow, op: Op): (r: Flow) {
    match op
    case Update(sid, incr) => ApplyUpdate(s, sid, incr).flow
    case Settings(ps) => ApplySettings(s, ps).flow
    case Flushing(writes) => Flush(s, writes).flow
  }

  function StepLedger(s: Flow, l: Ledger, op: Op): (r: Ledger) {
    match op
    case Update(sid, incr) =>
      if !ApplyUpdate(s, sid, incr).ok || sid > 1 then l
      else if sid == 0 then l.(connCredit := l.connCredit + incr)
      else l.(streamCredit := l.streamCredit + incr)
    case Settings(_) => l
    case Flushing(writes) => l.(chunks := l.chunks + Flush(s, writes).sent)
  }

  lemma SettingKeeps(s: Flow, l: Ledger, p: Setting)
    requires Inv(s, l)
    ensures Inv(ApplySetting(s, p).flow, l)
  {
  }

  lemma {:induction false} SettingsKeep(s: Flow, l: Ledger, ps: seq<Setting>)
    requires Inv(s, l)
    ensures Inv(ApplySettings(s, ps).flow, l)
    decreases |ps|
  {
    if ps != [] {
      SettingKeeps(s, l, ps[0]);
      SettingsKeep(ApplySetting(s, ps[0]).flow, l, ps[1..]);
    }
  }

  lemma UpdateKeeps(s: Flow, l: Ledger, sid: nat, incr: nat)
    requires Inv(s, l)
    ensures Inv(StepFlow(s, Update(sid, incr)), StepLedger(s, l, Update(sid, incr)))
  {
    var m := StepLedger(s, l, Update(sid, incr));
    forall k | 0 <= k < |m.chunks|
      ensures ChunkOk(m, k)
    {
      assert ChunkOk(l, k);
    }
  }

  lemma StepKeeps(s: Flow, l: Ledger, op: Op)
    requires Inv(s, l)
    ensures Inv(StepFlow(s, op), StepLedger(s, l, op))
  {
    match op
    case Update(sid, incr) => UpdateKeeps(s, l, sid, incr);
    case Settings(ps) => SettingsKeep(s, l, ps);
    case Flushing(writes) => FlushKeeps(s, l, writes);
  }

  function RunFlow(s: Flow, ops: seq<Op>): (r: Flow)
    decreases |ops|
  {
    if ops == [] then s else RunFlow(StepFlow(s, ops[0]), ops[1..])
  }

  function RunLedger(s: Flow, l: Ledger, ops: seq<Op>): (r: Ledger)
    decreases |ops|
  {
    if ops == [] then l else RunLedger(StepFlow(s, ops[0]), StepLedger(s, l, ops[0]), ops[1..])
  }

  lemma {:induction false} RunKeeps(s: Flow, l: Ledger, ops: seq<Op>)
    requires Inv(s, l)
    ensures Inv(RunFlow(s, ops), RunLedger(s, l, ops))
    decreases |ops|
  {
    if ops != [] {
      StepKeeps(s, l, ops[0]);
      RunKeeps(StepFlow(s, ops[0]), StepLedger(s, l, ops[0]), ops[1..]);
    }
  }

  /** Flow control over every run of an attached request. */
  lemma FlowControl(body: seq<Byte>, ops: seq<Op>)
    ensures Inv(RunFlow(Attached(body), ops), RunLedger(Attached(body), Opening(body), ops))
  {
    hide Inv, Attached, Opening;
    AttachStarts(body);
    RunKeeps(Attached(body), Opening(body), ops);
  }

  /** The DATA frames the flushes of a run send. */
  function SentIn(s: Flow, ops: seq<Op>): (cs: seq<Chunk>)
    decreases |ops|
  {
    if ops == [] then []
    else (if ops[0].Flushing? then Flush(s, ops[0].writes).sent else []) + SentIn(StepFlow(s, ops[0]), ops[1..])
  }

  lemma {:induction false} LedgerChunks(s: Flow, l: Ledger, ops: seq<Op>)
    ensures RunLedger(s, l, ops).chunks == l.chunks + SentIn(s, ops) && RunLedger(s, l, ops).body == l.body
    decreases |ops|
  {
    hide StepFlow, Flush, ApplyUpdate;
    if ops == [] {
      assert l.chunks + [] == l.chunks;
    } else {
      var head := if ops[0].Flushing? then Flush(s, ops[0].writes).sent else [];
      var rest := SentIn(StepFlow(s, ops[0]), ops[1..]);
      LedgerChunks(StepFlow(s, ops[0]), StepLedger(s, l, ops[0]), ops[1..]);
      assert StepLedger(s, l, ops[0]).chunks == l.chunks + head;
      assert (l.chunks + head) + rest == l.chunks + (head + rest);
    }
  }

  lemma {:induction false} SentInAppend(s: Flow, a: seq<Op>, b: seq<Op>)
    ensures SentIn(s, a + b) == SentIn(s, a) + SentIn(RunFlow(s, a), b)
    decreases |a|
  {
    hide StepFlow, Flush;
    if a == [] {
      assert a + b == b;
      assert [] + SentIn(s, b) == SentIn(s, b);
    } else {
      var head := if a[0].Flushing? then Flush(s, a[0].writes).sent else [];
      var n := StepFlow(s, a[0]);
      SentInAppend(n, a[1..], b);
      assert (a + b)[0] == a[0] && (a + b)[1..] == a[1..] + b;
      var mid, last := SentIn(n, a[1..]), SentIn(RunFlow(n, a[1..]), b);
      assert head + (mid + last) == (head + mid) + last;
    }
  }

  // ---------------------------------------------------------- the peer's account

  /** The windows of a new connection, before anything is attached. */
  const UNATTACHED: Flow := Flow(None, 0, MAX_FRAME, DEFAULT_WINDOW, DEFAULT_WINDOW, DEFAULT_WINDOW)

  /** What the client starts from: a request without a remainder is never attached. */
  function Started(body: seq<Byte>): (s: Flow) {
    if PendingOf(body).Some? then Attached(body) else UNATTACHED
  }

  lemma {:induction false} NothingToSend(s: Flow, ops: seq<Op>)
    requires s.pending.None?
    ensures SentIn(s, ops) == [] && RunFlow(s, ops).pending.None?
    decreases |ops|
  {
    if ops != [] {
      if ops[0].Settings? { SettingsSend(s, ops[0].ps); }
      NothingToSend(StepFlow(s, ops[0]), ops[1..]);
    }
  }

  lemma {:induction false} SettingsSend(s: Flow, ps: seq<Setting>)
    ensures ApplySettings(s, ps).flow.pending == s.pending
    decreases |ps|
  {
    if ps != [] { SettingsSend(ApplySetting(s, ps[0]).flow, ps[1..]); }
  }

  /** Over every run of a started request, the frames built and sent carry the body without what remains. */
  lemma RunConserves(body: seq<Byte>, ops: seq<Op>)
    ensures Carried(BuildChunks(body) + SentIn(Started(body), ops)) + Remaining(RunFlow(Started(body), ops)) == body
  {
    hide RunFlow, SentIn, RunLedger, Attached, ChunkOk;
    if PendingOf(body).Some? {
      FlowControl(body, ops);
      LedgerChunks(Attached(body), Opening(body), ops);
    } else {
      NothingToSend(UNATTACHED, ops);
      BuildOk(body);
      assert BuildChunks(body) + [] == BuildChunks(body) && body[..SendNow(body)] == body && body + [] == body;
    }
  }

  /** The windows the peer has granted and not yet seen used, and its initial stream window. */
  datatype Peer = Peer(conn: int, stream: int, init: nat)

  /** The peer's windows once the DATA of request_build has arrived. */
  function PeerStart(body: seq<Byte>): (p: Peer) {
    Peer(DEFAULT_WINDOW - SendNow(body), DEFAULT_WINDOW - SendNow(body), DEFAULT_WINDOW)
  }

  function PeerSetting(p: Peer, x: Setting): (r: Peer) {
    if x.id == 4 then p.(stream := p.stream + x.value - p.init, init := x.value) else p
  }

  function PeerSettings(p: Peer, ps: seq<Setting>): (r: Peer)
    decreases |ps|
  {
    if ps == [] then p else PeerSettings(PeerSetting(p, ps[0]), ps[1..])
  }

  function PeerStep(p: Peer, s: Flow, op: Op): (r: Peer) {
    match op
    case Update(sid, incr) =>
      if sid == 0 then p.(conn := p.conn + incr) else if sid == 1 then p.(stream := p.stream + incr) else p
    case Settings(ps) => PeerSettings(p, ps)
    case Flushing(writes) =>
      var n := |Carried(Flush(s, writes).sent)|;
      p.(conn := p.conn - n, stream := p.stream - n)
  }

  predicate LawfulSettings(p: Peer, ps: seq<Setting>)
    decreases |ps|
  {
    ps != [] ==>
      && (ps[0].id == 4 ==> ps[0].value <= WINDOW_LIMIT && PeerSetting(p, ps[0]).stream <= WINDOW_LIMIT)
      && LawfulSettings(PeerSetting(p, ps[0]), ps[1..])
  }

  /** What section 6.9 of RFC 7540 lets the peer do: no window beyond 2^31 - 1. */
  predicate LawfulOp(p: Peer, op: Op) {
    match op
    case Update(sid, incr) =>
      (sid == 0 ==> p.conn + incr <= WINDOW_LIMIT) && (sid == 1 ==> p.stream + incr <= WINDOW_LIMIT)
    case Settings(ps) => LawfulSettings(p, ps)
    case Flushing(_) => true
  }

  predicate Lawful(s: Flow, p: Peer, ops: seq<Op>)
    decreases |ops|
  {
    ops != [] ==> LawfulOp(p, ops[0]) && Lawful(StepFlow(s, ops[0]), PeerStep(p, s, ops[0]), ops[1..])
  }

  /** No window update or setting of the run is refused. */
  predicate NoneRefused(s: Flow, ops: seq<Op>)
    decreases |ops|
  {
    ops != [] ==>
      && (ops[0].Update? ==> ApplyUpdate(s, ops[0].sid, ops[0].incr).ok)
      && (ops[0].Settings? ==> ApplySettings(s, ops[0].ps).ok)
      && NoneRefused(StepFlow(s, ops[0]), ops[1..])
  }

  /** The client's windows are the peer's. */
  predicate Tracks(s: Flow, p: Peer) {
    s.conn == p.conn && s.stream == p.stream && s.init == p.init
  }

  lemma {:induction false} SettingsTrack(s: Flow, p: Peer, ps: seq<Setting>)
    requires Tracks(s, p) && LawfulSettings(p, ps)
    ensures ApplySettings(s, ps).ok && Tracks(ApplySettings(s, ps).flow, PeerSettings(p, ps))
    decreases |ps|
  {
    if ps != [] { SettingsTrack(ApplySetting(s, ps[0]).flow, PeerSetting(p, ps[0]), ps[1..]); }
  }

  lemma {:induction false} LoopTracks(s: Flow, writes: seq<bool>)
    ensures var r := SendLoop(s, writes);
            && r.flow.conn == s.conn - |Carried(r.sent)| && r.flow.stream == s.stream - |Carried(r.sent)|
            && r.flow.init == s.init
    decreases |writes|
  {
    if CanSend(s) && writes != [] && writes[0] { LoopTracks(Debited(s), writes[1..]); }
  }

  lemma StepTracks(s: Flow, p: Peer, op: Op)
    requires Tracks(s, p) && LawfulOp(p, op)
    ensures Tracks(StepFlow(s, op), PeerStep(p, s, op)) && NoneRefused(s, [op])
  {
    hide Carried;
    match op
    case Update(sid, incr) =>
    case Settings(ps) => SettingsTrack(s, p, ps);
    case Flushing(writes) =>
      NothingCarried();
      LoopTracks(s, writes);
  }

  lemma NothingCarried()
    ensures Carried([]) == []
  {
  }

  lemma {:induction false} RunTracks(s: Flow, p: Peer, ops: seq<Op>)
    requires Tracks(s, p) && Lawful(s, p, ops)
    ensures NoneRefused(s, ops)
    decreases |ops|
  {
    hide StepFlow, PeerStep, ApplyUpdate, ApplySettings, LawfulOp;
    if ops != [] {
      StepTracks(s, p, ops[0]);
      RunTracks(StepFlow(s, ops[0]), PeerStep(p, s, ops[0]), ops[1..]);
    }
  }

  /** The update that fills the peer's connection window after a body that was sent at once. */
  function FillingUpdate(body: seq<Byte>): (op: Op)
    requires |body| <= DEFAULT_WINDOW
  {
    Update(0, WINDOW_LIMIT - DEFAULT_WINDOW + |body|)
  }

  /** The client refuses it, because it never charged its windows for the body. */
  lemma FillingUpdateRefused(body: seq<Byte>)
    requires 0 < |body| <= DEFAULT_WINDOW
    ensures Lawful(Started(body), PeerStart(body), [FillingUpdate(body)])
    ensures !NoneRefused(Started(body), [FillingUpdate(body)])
    ensures NoneRefused(Attached(body), [FillingUpdate(body)])
  {
  }

  /**
   Over every run, what a peer may lawfully grant is never refused, if and only if the body is
   empty or longer than the first window.
   */
  lemma GrantsAccepted(body: seq<Byte>)
    ensures (forall ops :: Lawful(Started(body), PeerStart(body), ops) ==> NoneRefused(Started(body), ops))
            <==> body == [] || |body| > DEFAULT_WINDOW
  {
    if body == [] || |body| > DEFAULT_WINDOW {
      forall ops | Lawful(Started(body), PeerStart(body), ops) ensures NoneRefused(Started(body), ops) {
        RunTracks(Started(body), PeerStart(body), ops);
      }
    } else {
      FillingUpdateRefused(body);
    }
  }

  /** An attached request accepts every lawful grant, whatever the size of its body. */
  lemma AttachedAccepts(body: seq<Byte>, ops: seq<Op>)
    requires Lawful(Attached(body), PeerStart(body), ops)
    ensures NoneRefused(Attached(body), ops)
  {
    RunTracks(Attached(body), PeerStart(body), ops);
  }
}
