/**
 Feeding response bytes to the connection: every complete frame has its side
 effect exactly once and in stream order, however the bytes are split across
 reads and whichever SETTINGS acknowledgements fail to be written.
 */
module H2Feed {
  import opened Bits
  import opened Wrappers
  import opened H2Frame
  import opened H2Flow
  import opened H2Response

  /** The fields of the connection that feeding reads and writes. */
  datatype Link = Link(flow: Flow, connRecv: int, streamRecv: int,
                       applyValid: bool, applyOff: nat, ackSent: bool, commit: nat)

  /** Side effects: settings applied, credit granted, ping answered, DATA counted. */
  datatype Effect =
    | Applied(payload: seq<Byte>)
    | Credited(sid: nat, incr: nat)
    | Ponged(payload: seq<Byte>)
    | Received(n: nat)

  /** A SETTINGS frame that must be acknowledged. */
  predicate NeedsAck(f: Frame) {
    f.kind == SETTINGS && f.sid == 0 && !IsAck(f)
  }

  function EffectOf(f: Frame): (e: Option<Effect>) {
    if f.kind == SETTINGS && f.sid == 0 then (if IsAck(f) then None else Some(Applied(f.payload)))
    else if f.kind == PING && f.sid == 0 then (if !IsAck(f) && |f.payload| == 8 then Some(Ponged(f.payload)) else None)
    else if f.kind == WINDOW_UPDATE then (if |f.payload| >= 4 then Some(Credited(f.sid, GetU31(f.payload))) else None)
    else if IsData(f) && f.payload != [] then Some(Received(|f.payload|))
    else None
  }

  function EffectsOf(fs: seq<Frame>): (es: seq<Effect>) {
    if fs == [] then []
    else (match EffectOf(fs[0]) case None => [] case Some(e) => [e]) + EffectsOf(fs[1..])
  }

  /** The 6-byte parameters of a SETTINGS payload. */
  function SettingsOf(p: seq<Byte>): (ps: seq<Setting>) {
    if |p| < 6 then []
    else [Setting((p[0] as nat) * 0x100 + p[1], GetU32(p[2..]))] + SettingsOf(p[6..])
  }

  /** The flow-control operation an effect is, if any. */
  function OpOf(e: Effect): (op: Option<Op>) {
    match e
    case Applied(p) => if |p| % 6 == 0 then Some(Settings(SettingsOf(p))) else None
    case Credited(sid, incr) => Some(Update(sid, incr))
    case _ => None
  }

  /** The connection after an effect, and whether the effect was acceptable. */
  datatype Done = Done(link: Link, ok: bool)

  function Perform(l: Link, e: Effect): (d: Done) {
    match e
    case Applied(p) =>
      if |p| % 6 != 0 then Done(l, true)
      else var c := ApplySettings(l.flow, SettingsOf(p)); Done(l.(flow := c.flow), c.ok)
    case Credited(sid, incr) =>
      var c := ApplyUpdate(l.flow, sid, incr); Done(l.(flow := c.flow), c.ok)
    case Ponged(_) => Done(l, true)
    case Received(n) =>
      if n > l.connRecv || n > l.streamRecv then Done(l, false)
      else Done(l.(connRecv := l.connRecv - n, streamRecv := l.streamRecv - n), true)
  }

  /** The SETTINGS frame at the commit offset has been applied but not acknowledged. */
  predicate Blocked(l: Link) {
    l.applyValid && l.applyOff == l.commit
  }

  /** What handling the frame at the commit offset does. */
  datatype Front = Front(link: Link, log: seq<Effect>, ok: bool, acks: seq<bool>)

  function AtFront(l: Link, f: Frame, acks: seq<bool>): (r: Front) {
    var next := l.commit + FrameLength(f);
    if NeedsAck(f) then
      var d := if Blocked(l) then Done(l, true) else Perform(l, Applied(f.payload));
      var l1 := d.link.(applyValid := true, applyOff := l.commit);
      var log := if Blocked(l) then [] else [Applied(f.payload)];
      if acks != [] && acks[0] then Front(l1.(ackSent := true, commit := next), log, d.ok, acks[1..])
      else Front(l1, log, d.ok, if acks == [] then [] else acks[1..])
    else
      match EffectOf(f)
      case None => Front(l.(commit := next), [], true, acks)
      case Some(e) => var d := Perform(l, e); Front(d.link.(commit := next), [e], d.ok, acks)
  }

  /** The connection after one read, with the effects it performed. */
  datatype Fed = Fed(link: Link, log: seq<Effect>, ok: bool)

  /** From the commit offset on: stop at a malformed frame or an unwritten acknowledgement. */
  function FeedFrom(l: Link, fs: seq<Frame>, acks: seq<bool>): (r: Fed)
    decreases |fs|
  {
    if fs == [] || Malformed(fs[0]) then Fed(l, [], true)
    else
      var a := AtFront(l, fs[0], acks);
      if a.link.commit == l.commit then Fed(a.link, a.log, a.ok)
      else
        var r := FeedFrom(a.link, fs[1..], a.acks);
        Fed(r.link, a.log + r.log, a.ok && r.ok)
  }

  // ---------------------------------------------------------- exactly once

  /** The effects so far are those of the first `c` frames, plus the one blocked SETTINGS. */
  ghost predicate OnceUpTo(l: Link, log: seq<Effect>, fs: seq<Frame>, c: nat) {
    && c <= |fs| && AllWellFormed(fs[..c])
    && l.commit == Extent(fs[..c])
    && (l.applyValid ==> l.applyOff <= l.commit)
    && (Blocked(l) ==> c < |fs| && NeedsAck(fs[c]))
    && log == EffectsOf(fs[..c]) + (if Blocked(l) then [Applied(fs[c].payload)] else [])
  }

  lemma {:induction false} EffectsAppend(a: seq<Frame>, b: seq<Frame>)
    ensures EffectsOf(a + b) == EffectsOf(a) + EffectsOf(b)
  {
    hide EffectOf;
    if a == [] {
      assert a + b == b;
    } else {
      assert (a + b)[1..] == a[1..] + b;
      EffectsAppend(a[1..], b);
    }
  }

  /** Frame `c` joins the handled frames. */
  lemma OneMoreFrame(fs: seq<Frame>, c: nat)
    requires c < |fs|
    ensures Extent(fs[..c + 1]) == Extent(fs[..c]) + FrameLength(fs[c])
    ensures EffectsOf(fs[..c + 1]) ==
            EffectsOf(fs[..c]) + (if EffectOf(fs[c]).None? then [] else [EffectOf(fs[c]).value])
  {
    hide EffectOf;
    assert fs[..c + 1] == fs[..c] + [fs[c]];
    ExtentAppend(fs[..c], [fs[c]]);
    EffectsAppend(fs[..c], [fs[c]]);
    assert EffectsOf([fs[c]]) == (if EffectOf(fs[c]).None? then [] else [EffectOf(fs[c]).value]) + EffectsOf([]);
  }

  lemma FrontOnce(l: Link, log: seq<Effect>, fs: seq<Frame>, c: nat, acks: seq<bool>)
    requires OnceUpTo(l, log, fs, c) && c < |fs| && !Malformed(fs[c])
    ensures var a := AtFront(l, fs[c], acks);
            && (a.link.commit == l.commit ==> OnceUpTo(a.link, log + a.log, fs, c))
            && (a.link.commit != l.commit ==> OnceUpTo(a.link, log + a.log, fs, c + 1))
  {
    hide Malformed, Perform, EffectsOf, Extent;
    OneMoreFrame(fs, c);
    PerformFrame(l, Applied(fs[c].payload));
    var e := EffectOf(fs[c]);
    if e.Some? { PerformFrame(l, e.value); }
    WellFormedOneMore(fs, c);
    assert log + [] == log;
    assert Blocked(l) ==> log == EffectsOf(fs[..c + 1]);
  }

  lemma WellFormedOneMore(fs: seq<Frame>, c: nat)
    requires c < |fs| && AllWellFormed(fs[..c]) && !Malformed(fs[c])
    ensures AllWellFormed(fs[..c + 1])
  {
    hide Malformed;
    assert fs[..c + 1] == fs[..c] + [fs[c]];
  }

  /** Effects do not touch the bookkeeping of the commit offset. */
  lemma PerformFrame(l: Link, e: Effect)
    ensures var d := Perform(l, e).link;
            d.commit == l.commit && d.applyValid == l.applyValid && d.applyOff == l.applyOff
  {
  }

  /** One read: the frames from the commit offset on have their effects once and in order. */
  lemma {:induction false} FeedOnce(l: Link, log: seq<Effect>, fs: seq<Frame>, c: nat, acks: seq<bool>)
    returns (c': nat)
    requires OnceUpTo(l, log, fs, c)
    ensures var r := FeedFrom(l, fs[c..], acks); c <= c' && OnceUpTo(r.link, log + r.log, fs, c')
    decreases |fs| - c
  {
    hide Malformed, AtFront, OnceUpTo;
    OnceBounds(l, log, fs, c);
    if c == |fs| || Malformed(fs[c]) {
      assert log + [] == log;
      c' := c;
    } else {
      var a := AtFront(l, fs[c], acks);
      FrontOnce(l, log, fs, c, acks);
      if a.link.commit == l.commit {
        c' := c;
      } else {
        assert fs[c..][1..] == fs[c + 1..];
        c' := FeedOnce(a.link, log + a.log, fs, c + 1, a.acks);
        var r := FeedFrom(a.link, fs[c + 1..], a.acks);
        assert (log + a.log) + r.log == log + (a.log + r.log);
      }
    }
  }

  lemma OnceBounds(l: Link, log: seq<Effect>, fs: seq<Frame>, c: nat)
    requires OnceUpTo(l, log, fs, c)
    ensures c <= |fs|
  {
  }

  /** More bytes arriving do not disturb what has been done. */
  lemma OnceGrows(l: Link, log: seq<Effect>, fs: seq<Frame>, gs: seq<Frame>, c: nat)
    requires OnceUpTo(l, log, fs, c) && fs <= gs
    ensures OnceUpTo(l, log, gs, c)
  {
    assert gs[..c] == fs[..c];
  }

  // ---------------------------------------------------------- windows

  function OpsOf(log: seq<Effect>): (ops: seq<Op>) {
    if log == [] then []
    else (match OpOf(log[0]) case None => [] case Some(op) => [op]) + OpsOf(log[1..])
  }

  /** The receive window left after counting DATA that fits it. */
  function Drained(w: int, log: seq<Effect>): (r: int)
    decreases |log|
  {
    if log == [] then w
    else Drained(if log[0].Received? && log[0].n <= w then w - log[0].n else w, log[1..])
  }

  /** The DATA bytes accounted, padding included. */
  function Accounted(w: int, log: seq<Effect>): (r: nat)
    decreases |log|
  {
    if log == [] then 0
    else if log[0].Received? && log[0].n <= w then log[0].n + Accounted(w - log[0].n, log[1..])
    else Accounted(w, log[1..])
  }

  /** Receive window plus accounted DATA is constant. */
  lemma {:induction false} RecvConserved(w: int, log: seq<Effect>)
    ensures Drained(w, log) + Accounted(w, log) == w
    decreases |log|
  {
    if log != [] {
      RecvConserved(if log[0].Received? && log[0].n <= w then w - log[0].n else w, log[1..]);
    }
  }

  lemma {:induction false} RunFlowAppend(s: Flow, a: seq<Op>, b: seq<Op>)
    ensures RunFlow(s, a + b) == RunFlow(RunFlow(s, a), b)
    decreases |a|
  {
    hide StepFlow;
    if a == [] {
      assert a + b == b;
    } else {
      assert (a + b)[1..] == a[1..] + b;
      RunFlowAppend(StepFlow(s, a[0]), a[1..], b);
    }
  }

  lemma {:induction false} DrainedAppend(w: int, a: seq<Effect>, b: seq<Effect>)
    ensures Drained(w, a + b) == Drained(Drained(w, a), b)
    decreases |a|
  {
    if a == [] {
      assert a + b == b;
    } else {
      assert (a + b)[1..] == a[1..] + b;
      DrainedAppend(if a[0].Received? && a[0].n <= w then w - a[0].n else w, a[1..], b);
    }
  }

  lemma {:induction false} OpsAppend(a: seq<Effect>, b: seq<Effect>)
    ensures OpsOf(a + b) == OpsOf(a) + OpsOf(b)
  {
    hide OpOf;
    if a == [] {
      assert a + b == b;
    } else {
      assert (a + b)[1..] == a[1..] + b;
      OpsAppend(a[1..], b);
    }
  }

  /** The state is the replay of the log: send windows by its operations, receive windows by its DATA. */
  ghost predicate Replays(l: Link, m: Link, log: seq<Effect>) {
    && m.flow == RunFlow(l.flow, OpsOf(log))
    && (l.connRecv == l.streamRecv ==>
          m.connRecv == m.streamRecv == Drained(l.connRecv, log))
  }

  lemma PerformReplays(l: Link, e: Effect)
    ensures Replays(l, Perform(l, e).link, [e])
  {
    hide ApplySettings, ApplyUpdate, SettingsOf;
    OneEffect(l.connRecv, e);
    if OpOf(e).Some? { OneOp(l.flow, OpOf(e).value); }
  }

  lemma OneEffect(w: int, e: Effect)
    ensures OpsOf([e]) == (if OpOf(e).Some? then [OpOf(e).value] else [])
    ensures Drained(w, [e]) == (if e.Received? && e.n <= w then w - e.n else w)
  {
    hide OpOf;
    var tail := [e][1..];
    assert tail == [];
    assert Drained(w, [e]) == Drained(if e.Received? && e.n <= w then w - e.n else w, tail);
    assert OpsOf([e]) == (match OpOf(e) case None => [] case Some(op) => [op]) + OpsOf(tail);
  }

  lemma OneOp(s: Flow, op: Op)
    ensures RunFlow(s, [op]) == StepFlow(s, op)
  {
    hide StepFlow;
    assert [op][1..] == [];
    assert RunFlow(s, [op]) == RunFlow(StepFlow(s, op), [op][1..]);
  }

  lemma FrontReplays(l: Link, f: Frame, acks: seq<bool>)
    ensures var a := AtFront(l, f, acks); Replays(l, a.link, a.log)
  {
    hide Perform, SettingsOf;
    ReplaysNothing(l);
    PerformReplays(l, Applied(f.payload));
    var e := EffectOf(f);
    if e.Some? { PerformReplays(l, e.value); }
  }

  lemma ReplaysTransitive(l: Link, m: Link, n: Link, a: seq<Effect>, b: seq<Effect>)
    requires Replays(l, m, a) && Replays(m, n, b)
    ensures Replays(l, n, a + b)
  {
    OpsAppend(a, b);
    RunFlowAppend(l.flow, OpsOf(a), OpsOf(b));
    DrainedAppend(l.connRecv, a, b);
  }

  lemma {:induction false} FeedReplays(l: Link, fs: seq<Frame>, acks: seq<bool>)
    ensures var r := FeedFrom(l, fs, acks); Replays(l, r.link, r.log)
    decreases |fs|
  {
    hide AtFront, Malformed, Replays;
    if fs == [] || Malformed(fs[0]) {
      ReplaysNothing(l);
    } else {
      var a := AtFront(l, fs[0], acks);
      FrontReplays(l, fs[0], acks);
      if a.link.commit != l.commit {
        FeedReplays(a.link, fs[1..], a.acks);
        var r := FeedFrom(a.link, fs[1..], a.acks);
        ReplaysTransitive(l, a.link, r.link, a.log, r.log);
      }
    }
  }

  lemma ReplaysNothing(l: Link)
    ensures Replays(l, l, [])
  {
  }

  // ---------------------------------------------------------- whole sessions

  /** One call of expect_complete: the bytes that arrived and which writes succeed. */
  datatype Read = Read(bytes: seq<Byte>, acks: seq<bool>, writes: seq<bool>)

  /** Everything since the connection opened; `trace` interleaves effects and flushes. */
  datatype Session = Session(buf: seq<Byte>, link: Link, log: seq<Effect>, trace: seq<Op>)

  /** The frames from the commit offset on. */
  function Rest(buf: seq<Byte>, commit: nat): (fs: seq<Frame>) {
    if commit <= |buf| then FramesOf(buf[commit..]) else []
  }

  /** otlp_grpc_expect_complete: over the cap nothing is done; a malformed frame skips the flush. */
  function OnRead(s: Session, r: Read): (s': Session) {
    var buf := s.buf + r.bytes;
    if |buf| > MAX_RESPONSE_WIRE then s.(buf := buf)
    else
      var fed := FeedFrom(s.link, Rest(buf, s.link.commit), r.acks);
      var log, trace := s.log + fed.log, s.trace + OpsOf(fed.log);
      if !AllWellFormed(FramesOf(buf)) then Session(buf, fed.link, log, trace)
      else Session(buf, fed.link.(flow := Flush(fed.link.flow, r.writes).flow), log, trace + [Flushing(r.writes)])
  }

  function RunSession(s: Session, rs: seq<Read>): (s': Session)
    decreases |rs|
  {
    if rs == [] then s else RunSession(OnRead(s, rs[0]), rs[1..])
  }

  function NotFlush(ops: seq<Op>): (r: seq<Op>) {
    if ops == [] then []
    else (if ops[0].Flushing? then [] else [ops[0]]) + NotFlush(ops[1..])
  }

  /** A connection on which nothing has been read, its flow state as given. */
  function Opened(flow: Flow): (s: Session) {
    Session([], Link(flow, RECV_WINDOW, RECV_WINDOW, false, 0, false, 0), [], [])
  }

  ghost predicate SessionInv(flow: Flow, s: Session) {
    && (exists c: nat :: OnceUpTo(s.link, s.log, FramesOf(s.buf), c))
    && s.link.flow == RunFlow(flow, s.trace) && NotFlush(s.trace) == OpsOf(s.log)
    && s.link.connRecv == s.link.streamRecv == Drained(RECV_WINDOW, s.log)
  }

  lemma {:induction false} NotFlushAppend(a: seq<Op>, b: seq<Op>)
    ensures NotFlush(a + b) == NotFlush(a) + NotFlush(b)
  {
    if a == [] {
      assert a + b == b;
    } else {
      assert (a + b)[1..] == a[1..] + b;
      NotFlushAppend(a[1..], b);
    }
  }

  lemma {:induction false} OpsAreNotFlush(log: seq<Effect>)
    ensures NotFlush(OpsOf(log)) == OpsOf(log)
  {
    if log != [] {
      OpsAreNotFlush(log[1..]);
      var head := match OpOf(log[0]) case None => [] case Some(op) => [op];
      NotFlushAppend(head, OpsOf(log[1..]));
      assert NotFlush(head) == head;
    }
  }

  /** The frames after the first `c` are what the rest of the buffer holds. */
  lemma {:induction false} FramesFrom(s: seq<Byte>, c: nat)
    requires c <= |FramesOf(s)|
    ensures Extent(FramesOf(s)[..c]) <= |s|
    ensures FramesOf(s[Extent(FramesOf(s)[..c])..]) == FramesOf(s)[c..]
    decreases c
  {
    hide FramesOf;
    var fs := FramesOf(s);
    if c == 0 {
      assert s[0..] == s && fs[..0] == [] && fs[0..] == fs;
    } else {
      var n := FrameLength(fs[0]);
      FirstFrame(s);
      FramesFrom(s[n..], c - 1);
      assert fs[..c] == [fs[0]] + fs[1..][..c - 1];
      var x := Extent(fs[1..][..c - 1]);
      assert s[n..][x..] == s[n + x..];
    }
  }

  lemma FirstFrame(s: seq<Byte>)
    requires FramesOf(s) != []
    ensures FrameLength(FramesOf(s)[0]) <= |s|
    ensures FramesOf(s)[1..] == FramesOf(s[FrameLength(FramesOf(s)[0])..])
  {
    hide ReadFrame;
  }

  lemma ReadKeepsOnce(s: Session, r: Read)
    requires exists c: nat :: OnceUpTo(s.link, s.log, FramesOf(s.buf), c)
    ensures var s' := OnRead(s, r); exists c: nat :: OnceUpTo(s'.link, s'.log, FramesOf(s'.buf), c)
  {
    hide FeedFrom, Flush, FramesOf;
    var buf := s.buf + r.bytes;
    var c: nat :| OnceUpTo(s.link, s.log, FramesOf(s.buf), c);
    FramesGrow(s.buf, r.bytes);
    OnceGrows(s.link, s.log, FramesOf(s.buf), FramesOf(buf), c);
    FramesFrom(buf, c);
    var c' := FeedOnce(s.link, s.log, FramesOf(buf), c, r.acks);
    var fed := FeedFrom(s.link, FramesOf(buf)[c..], r.acks);
    FlowIsAside(fed.link, s.log + fed.log, FramesOf(buf), c', OnRead(s, r).link.flow);
  }

  lemma FlowIsAside(l: Link, log: seq<Effect>, fs: seq<Frame>, c: nat, flow: Flow)
    requires OnceUpTo(l, log, fs, c)
    ensures OnceUpTo(l.(flow := flow), log, fs, c)
  {
  }

  lemma ReadKeepsWindows(flow: Flow, s: Session, r: Read)
    requires SessionInv(flow, s)
    ensures var s' := OnRead(s, r);
            && s'.link.flow == RunFlow(flow, s'.trace) && NotFlush(s'.trace) == OpsOf(s'.log)
            && s'.link.connRecv == s'.link.streamRecv == Drained(RECV_WINDOW, s'.log)
  {
    hide FeedFrom, Flush, FramesOf, OnceUpTo, AllWellFormed, RunFlow, Drained, OpsOf, NotFlush, Rest;
    var buf := s.buf + r.bytes;
    var fs := Rest(buf, s.link.commit);
    var fed := FeedFrom(s.link, fs, r.acks);
    FeedReplays(s.link, fs, r.acks);
    RunFlowAppend(flow, s.trace, OpsOf(fed.log));
    DrainedAppend(RECV_WINDOW, s.log, fed.log);
    OpsAppend(s.log, fed.log);
    NotFlushAppend(s.trace, OpsOf(fed.log));
    OpsAreNotFlush(fed.log);
    FlushLast(flow, s.trace + OpsOf(fed.log), r.writes);
  }

  lemma FlushLast(flow: Flow, trace: seq<Op>, writes: seq<bool>)
    ensures RunFlow(flow, trace + [Flushing(writes)]) == Flush(RunFlow(flow, trace), writes).flow
    ensures NotFlush(trace + [Flushing(writes)]) == NotFlush(trace)
  {
    hide Flush;
    var last := [Flushing(writes)];
    RunFlowAppend(flow, trace, last);
    assert RunFlow(RunFlow(flow, trace), last) == RunFlow(StepFlow(RunFlow(flow, trace), last[0]), last[1..]);
    NotFlushAppend(trace, last);
    assert NotFlush(last) == [] + NotFlush([]);
  }

  lemma {:induction false} SessionKeeps(flow: Flow, s: Session, rs: seq<Read>)
    requires SessionInv(flow, s)
    ensures SessionInv(flow, RunSession(s, rs))
    decreases |rs|
  {
    hide OnRead, SessionInv;
    if rs != [] {
      SessionStep(flow, s, rs[0]);
      SessionKeeps(flow, OnRead(s, rs[0]), rs[1..]);
    }
  }

  lemma SessionStep(flow: Flow, s: Session, r: Read)
    requires SessionInv(flow, s)
    ensures SessionInv(flow, OnRead(s, r))
  {
    hide OnRead, OnceUpTo;
    ReadKeepsOnce(s, r);
    ReadKeepsWindows(flow, s, r);
  }

  /**
   Exactly once: over every session, the effects performed are those of the frames
   below the commit offset plus at most one blocked SETTINGS at it; the windows
   are their replay, interleaved with the flushes.
   */
  lemma ExactlyOnce(flow: Flow, rs: seq<Read>)
    ensures SessionInv(flow, RunSession(Opened(flow), rs))
  {
    var s := Opened(flow);
    assert FramesOf([]) == [];
    assert OnceUpTo(s.link, s.log, FramesOf(s.buf), 0);
    SessionKeeps(flow, s, rs);
  }

  /** Receive windows plus accounted DATA always total 2^20. */
  lemma ReceiveTotal(flow: Flow, rs: seq<Read>)
    ensures var s := RunSession(Opened(flow), rs);
            && s.link.connRecv + Accounted(RECV_WINDOW, s.log) == RECV_WINDOW
            && s.link.streamRecv + Accounted(RECV_WINDOW, s.log) == RECV_WINDOW
  {
    hide RunSession;
    ExactlyOnce(flow, rs);
    RecvConserved(RECV_WINDOW, RunSession(Opened(flow), rs).log);
  }

  /** Send flow control holds in every session of an attached request. */
  lemma SessionFlowControl(body: seq<Byte>, rs: seq<Read>)
    ensures var s := RunSession(Opened(Attached(body)), rs);
            Inv(s.link.flow, RunLedger(Attached(body), Opening(body), s.trace))
  {
    hide RunSession, Inv, RunLedger, RunFlow, Attached, Opening;
    ExactlyOnce(Attached(body), rs);
    FlowControl(body, RunSession(Opened(Attached(body)), rs).trace);
  }

  /** With well-formed frames and written acknowledgements the commit offset passes every frame. */
  lemma {:induction false} FeedReachesEnd(l: Link, fs: seq<Frame>, acks: seq<bool>)
    requires AllWellFormed(fs) && |acks| >= |fs| && forall i :: 0 <= i < |acks| ==> acks[i]
    ensures FeedFrom(l, fs, acks).link.commit == l.commit + Extent(fs)
    decreases |fs|
  {
    hide Malformed, Perform, EffectOf;
    if fs != [] {
      var a := AtFront(l, fs[0], acks);
      assert a.link.commit == l.commit + FrameLength(fs[0]);
      assert a.acks == acks || a.acks == acks[1..];
      FeedReachesEnd(a.link, fs[1..], a.acks);
    }
  }

  // ---------------------------------------------------------- the loop over the whole buffer

  /** Response state and connection after h2_feed_frames; `ok` is its return value. */
  datatype Walked = Walked(resp: Resp, link: Link, ok: bool)

  /** h2_feed_frames from offset `off`: effects only where the offset meets the commit offset. */
  ghost function Walk(r: Resp, l: Link, off: nat, fs: seq<Frame>, acks: seq<bool>): (w: Walked)
    decreases |fs|
  {
    if fs == [] then Walked(r, l, true)
    else if Malformed(fs[0]) then Walked(r, l, false)
    else if off == l.commit then
      var a := AtFront(l, fs[0], acks);
      var marked := if a.ok then r else MarkEnd(r, EndRst);
      Walk(OnFrame(marked, fs[0]), a.link, off + FrameLength(fs[0]), fs[1..], a.acks)
    else Walk(OnFrame(r, fs[0]), l, off + FrameLength(fs[0]), fs[1..], acks)
  }

  lemma {:induction false} WalkBehind(r: Resp, l: Link, off: nat, fs: seq<Frame>, acks: seq<bool>)
    requires off > l.commit
    ensures Walk(r, l, off, fs, acks).link == l
    decreases |fs|
  {
    hide OnFrame, Malformed;
    if fs != [] && !Malformed(fs[0]) {
      WalkBehind(OnFrame(r, fs[0]), l, off + FrameLength(fs[0]), fs[1..], acks);
    }
  }

  lemma {:induction false} WalkFront(r: Resp, l: Link, fs: seq<Frame>, acks: seq<bool>)
    ensures Walk(r, l, l.commit, fs, acks).link == FeedFrom(l, fs, acks).link
    decreases |fs|
  {
    hide OnFrame, Malformed, MarkEnd;
    if fs != [] && !Malformed(fs[0]) {
      var a := AtFront(l, fs[0], acks);
      AtFrontMoves(l, fs[0], acks);
      var r' := OnFrame(if a.ok then r else MarkEnd(r, EndRst), fs[0]);
      if a.link.commit == l.commit {
        WalkBehind(r', a.link, l.commit + FrameLength(fs[0]), fs[1..], a.acks);
      } else {
        WalkFront(r', a.link, fs[1..], a.acks);
      }
    }
  }

  lemma AtFrontMoves(l: Link, f: Frame, acks: seq<bool>)
    ensures var n := AtFront(l, f, acks).link.commit; n == l.commit || n == l.commit + FrameLength(f)
  {
  }

  /** The whole loop leaves the connection as feeding from the commit offset does. */
  lemma {:induction false} WalkIsFeed(r: Resp, l: Link, fs: seq<Frame>, k: nat, c: nat, acks: seq<bool>)
    requires k <= c <= |fs| && l.commit == Extent(fs[..c]) && AllWellFormed(fs[..c])
    ensures Walk(r, l, Extent(fs[..k]), fs[k..], acks).link == FeedFrom(l, fs[c..], acks).link
    decreases c - k
  {
    hide OnFrame, Malformed, AtFront;
    ExtentStrict(fs, k, c);
    if k == c {
      WalkFront(r, l, fs[c..], acks);
    } else {
      assert fs[k..][0] == fs[k] && fs[k..][1..] == fs[k + 1..] && fs[..c][k] == fs[k];
      OneMoreFrame(fs, k);
      WalkIsFeed(OnFrame(r, fs[k]), l, fs, k + 1, c, acks);
    }
  }

  lemma {:induction false} WalkOk(r: Resp, l: Link, off: nat, fs: seq<Frame>, acks: seq<bool>)
    ensures Walk(r, l, off, fs, acks).ok <==> AllWellFormed(fs)
    decreases |fs|
  {
    hide OnFrame, Malformed, AtFront, MarkEnd;
    if fs != [] && !Malformed(fs[0]) {
      var n := off + FrameLength(fs[0]);
      if off == l.commit {
        var a := AtFront(l, fs[0], acks);
        WalkOk(OnFrame(if a.ok then r else MarkEnd(r, EndRst), fs[0]), a.link, n, fs[1..], a.acks);
      } else {
        WalkOk(OnFrame(r, fs[0]), l, n, fs[1..], acks);
      }
      assert AllWellFormed(fs[1..]) ==> AllWellFormed(fs);
    }
  }

  // ---------------------------------------------------------- a grant the client refuses

  function UpdateFrame(incr: nat): (f: Frame)
    requires incr < 0x8000_0000
  {
    Frame(WINDOW_UPDATE, 0, 0, U32(incr))
  }

  /**
   After a body that was sent at once and never charged, the lawful update that fills the peer's window
   makes the client end the stream as reset.
   */
  lemma LawfulGrantResets(body: seq<Byte>, acks: seq<bool>)
    requires 0 < |body| <= DEFAULT_WINDOW
    ensures WINDOW_LIMIT - DEFAULT_WINDOW + |body| < 0x8000_0000
    ensures var f := UpdateFrame(WINDOW_LIMIT - DEFAULT_WINDOW + |body|);
            var w := Walk(FRESH, Opened(Started(body)).link, 0, [f], acks);
            w.ok && w.resp.ended && w.resp.reason == EndRst
  {
    var n := WINDOW_LIMIT - DEFAULT_WINDOW + |body|;
    var f := UpdateFrame(n);
    BytesOfWord(n);
    assert GetU31(f.payload) == n;
    var l := Opened(Started(body)).link;
    assert EffectOf(f) == Some(Credited(0, n));
    assert !Perform(l, Credited(0, n)).ok;
    assert [f][1..] == [];
  }

  // ---------------------------------------------------------- replies

  /** What is written in answer to a frame at the commit offset. */
  function Reply(f: Frame): (r: seq<Frame>) {
    if NeedsAck(f) then [Frame(SETTINGS, 1, 0, [])]
    else
      match EffectOf(f)
      case Some(Ponged(p)) => [Frame(PING, 1, 0, p)]
      case _ => []
  }

  /** The control frames handed to the socket by one pass over the buffer. */
  function Replies(l: Link, off: nat, fs: seq<Frame>, acks: seq<bool>): (r: seq<Frame>)
    decreases |fs|
  {
    if fs == [] || Malformed(fs[0]) then []
    else if off == l.commit then
      var a := AtFront(l, fs[0], acks);
      Reply(fs[0]) + Replies(a.link, off + FrameLength(fs[0]), fs[1..], a.acks)
    else Replies(l, off + FrameLength(fs[0]), fs[1..], acks)
  }

  function Pongs(fs: seq<Frame>): (ps: seq<seq<Byte>>) {
    if fs == [] then [] else (if fs[0].kind == PING then [fs[0].payload] else []) + Pongs(fs[1..])
  }

  function PongsOf(log: seq<Effect>): (ps: seq<seq<Byte>>) {
    if log == [] then [] else (if log[0].Ponged? then [log[0].payload] else []) + PongsOf(log[1..])
  }

  lemma {:induction false} PongsAppend(a: seq<Frame>, b: seq<Frame>)
    ensures Pongs(a + b) == Pongs(a) + Pongs(b)
  {
    if a == [] {
      assert a + b == b;
    } else {
      PongsAppend(a[1..], b);
      assert (a + b)[0] == a[0] && (a + b)[1..] == a[1..] + b;
      var head := if a[0].kind == PING then [a[0].payload] else [];
      assert head + (Pongs(a[1..]) + Pongs(b)) == (head + Pongs(a[1..])) + Pongs(b);
    }
  }

  lemma {:induction false} PongsOfAppend(a: seq<Effect>, b: seq<Effect>)
    ensures PongsOf(a + b) == PongsOf(a) + PongsOf(b)
  {
    if a == [] {
      assert a + b == b;
    } else {
      PongsOfAppend(a[1..], b);
      assert (a + b)[0] == a[0] && (a + b)[1..] == a[1..] + b;
      var head := if a[0].Ponged? then [a[0].payload] else [];
      assert head + (PongsOf(a[1..]) + PongsOf(b)) == (head + PongsOf(a[1..])) + PongsOf(b);
    }
  }

  lemma {:induction false} RepliesBehind(l: Link, off: nat, fs: seq<Frame>, acks: seq<bool>)
    requires off > l.commit
    ensures Replies(l, off, fs, acks) == []
    decreases |fs|
  {
    hide Malformed;
    if fs != [] && !Malformed(fs[0]) { RepliesBehind(l, off + FrameLength(fs[0]), fs[1..], acks); }
  }

  lemma ReplyIsEffect(l: Link, f: Frame, acks: seq<bool>)
    ensures Pongs(Reply(f)) == PongsOf(AtFront(l, f, acks).log)
  {
    hide Perform, Malformed;
    var log := AtFront(l, f, acks).log;
    assert Reply(f) != [] ==> Pongs(Reply(f)[1..]) == [];
    assert log != [] ==> PongsOf(log[1..]) == [];
  }

  /** The PING replies of one pass are those of the PINGs whose effect is logged, each once and in order. */
  lemma {:induction false} RepliesAreEffects(l: Link, fs: seq<Frame>, acks: seq<bool>)
    ensures Pongs(Replies(l, l.commit, fs, acks)) == PongsOf(FeedFrom(l, fs, acks).log)
    decreases |fs|
  {
    hide Malformed, AtFront, Reply, FrameLength;
    if fs != [] && !Malformed(fs[0]) {
      var a := AtFront(l, fs[0], acks);
      var rest := Replies(a.link, l.commit + FrameLength(fs[0]), fs[1..], a.acks);
      PongsAppend(Reply(fs[0]), rest);
      ReplyIsEffect(l, fs[0], acks);
      AtFrontCommits(l, fs[0], acks);
      if a.link.commit == l.commit {
        RepliesBehind(a.link, l.commit + FrameLength(fs[0]), fs[1..], a.acks);
        assert Pongs([]) == [];
      } else {
        RepliesAreEffects(a.link, fs[1..], a.acks);
        PongsOfAppend(a.log, FeedFrom(a.link, fs[1..], a.acks).log);
      }
    }
  }

  lemma AtFrontCommits(l: Link, f: Frame, acks: seq<bool>)
    ensures var a := AtFront(l, f, acks);
            FrameLength(f) > 0 && (a.link.commit == l.commit || a.link.commit == l.commit + FrameLength(f))
  {
  }

  /** A pass from the start of the buffer replies to nothing it has passed before. */
  lemma {:induction false} RepliesSkip(l: Link, fs: seq<Frame>, k: nat, c: nat, acks: seq<bool>)
    requires k <= c <= |fs| && l.commit == Extent(fs[..c]) && AllWellFormed(fs[..c])
    ensures Replies(l, Extent(fs[..k]), fs[k..], acks) == Replies(l, l.commit, fs[c..], acks)
    decreases c - k
  {
    hide Malformed, AtFront, Reply;
    if k < c {
      assert fs[k..][0] == fs[k] && fs[k..][1..] == fs[k + 1..];
      assert !Malformed(fs[k]) by { assert fs[..c][k] == fs[k]; }
      OneMoreFrame(fs, k);
      ExtentStrict(fs, k, c);
      RepliesSkip(l, fs, k + 1, c, acks);
    }
  }

  /** Effects send no DATA; the flush at the end of a read does. */
  lemma {:induction false} EffectsSendNothing(s: Flow, log: seq<Effect>)
    ensures SentIn(s, OpsOf(log)) == []
    decreases |log|
  {
    hide StepFlow;
    if log != [] {
      match OpOf(log[0])
      case None =>
        assert OpsOf(log) == OpsOf(log[1..]);
        EffectsSendNothing(s, log[1..]);
      case Some(op) =>
        assert OpsOf(log)[0] == op && OpsOf(log)[1..] == OpsOf(log[1..]);
        EffectsSendNothing(StepFlow(s, op), log[1..]);
    }
  }

  /** What a read adds to the frames sent. */
  lemma ReadSends(flow: Flow, s: Session, r: Read)
    requires s.link.flow == RunFlow(flow, s.trace) && |s.buf + r.bytes| <= MAX_RESPONSE_WIRE
    ensures var buf := s.buf + r.bytes;
            var fed := FeedFrom(s.link, Rest(buf, s.link.commit), r.acks);
            SentIn(flow, OnRead(s, r).trace) ==
            SentIn(flow, s.trace) + (if AllWellFormed(FramesOf(buf)) then Flush(fed.link.flow, r.writes).sent else [])
  {
    hide FeedFrom, Flush, FramesOf, OnceUpTo, AllWellFormed, RunFlow, Rest, SentIn, OpsOf;
    var buf := s.buf + r.bytes;
    var fs := Rest(buf, s.link.commit);
    var fed := FeedFrom(s.link, fs, r.acks);
    FeedReplays(s.link, fs, r.acks);
    var ops := OpsOf(fed.log);
    SentInAppend(flow, s.trace, ops);
    EffectsSendNothing(s.link.flow, fed.log);
    assert SentIn(flow, s.trace) + [] == SentIn(flow, s.trace);
    RunFlowAppend(flow, s.trace, ops);
    SentInAppend(flow, s.trace + ops, [Flushing(r.writes)]);
    OneFlush(fed.link.flow, r.writes);
  }

  lemma OneFlush(s: Flow, writes: seq<bool>)
    ensures SentIn(s, [Flushing(writes)]) == Flush(s, writes).sent
  {
    hide Flush;
    var ops := [Flushing(writes)];
    assert SentIn(StepFlow(s, ops[0]), ops[1..]) == [];
    assert Flush(s, writes).sent + [] == Flush(s, writes).sent;
  }

  // ---------------------------------------------------------- how the bytes are split

  /** Every acknowledgement of a read is written. */
  predicate Acked(r: Read) {
    |r.acks| >= MAX_RESPONSE_WIRE && forall i :: 0 <= i < |r.acks| ==> r.acks[i]
  }

  function BytesOf(rs: seq<Read>): (s: seq<Byte>) {
    if rs == [] then [] else rs[0].bytes + BytesOf(rs[1..])
  }

  /** How many frames come before the first malformed one. */
  function WellCount(fs: seq<Frame>): (n: nat)
    ensures n <= |fs| && AllWellFormed(fs[..n]) && (n < |fs| ==> Malformed(fs[n]))
  {
    if fs == [] || Malformed(fs[0]) then 0
    else
      var n := WellCount(fs[1..]);
      assert fs[..n + 1] == [fs[0]] + fs[1..][..n];
      n + 1
  }

  lemma {:induction false} WellCountIs(fs: seq<Frame>, n: nat)
    requires n <= |fs| && AllWellFormed(fs[..n]) && (n < |fs| ==> Malformed(fs[n]))
    ensures n == WellCount(fs)
    decreases |fs|
  {
    hide Malformed;
    if n > 0 {
      assert fs[..n][0] == fs[0] && fs[1..][..n - 1] == fs[..n][1..];
      WellCountIs(fs[1..], n - 1);
    }
  }

  lemma CommittedPart(l: Link, log: seq<Effect>, fs: seq<Frame>, c: nat)
    requires OnceUpTo(l, log, fs, c)
    ensures c <= |fs| && AllWellFormed(fs[..c]) && l.commit == Extent(fs[..c])
  {
  }

  /** With its acknowledgements written, a read passes every frame before the first malformed one. */
  lemma {:induction false} FeedPassesAll(l: Link, log: seq<Effect>, fs: seq<Frame>, c: nat, acks: seq<bool>)
    requires OnceUpTo(l, log, fs, c) && |acks| >= |fs| - c && forall i :: 0 <= i < |acks| ==> acks[i]
    ensures var r := FeedFrom(l, fs[c..], acks); OnceUpTo(r.link, log + r.log, fs, WellCount(fs))
    decreases |fs| - c
  {
    hide Malformed, AtFront, OnceUpTo, WellCount;
    OnceBounds(l, log, fs, c);
    if c == |fs| || Malformed(fs[c]) {
      CommittedPart(l, log, fs, c);
      WellCountIs(fs, c);
      assert log + [] == log;
    } else {
      assert fs[c..][0] == fs[c] && fs[c..][1..] == fs[c + 1..];
      var a := AtFront(l, fs[c], acks);
      FrontOnce(l, log, fs, c, acks);
      AckedFront(l, fs[c], acks);
      FeedPassesAll(a.link, log + a.log, fs, c + 1, a.acks);
      var r := FeedFrom(a.link, fs[c + 1..], a.acks);
      assert (log + a.log) + r.log == log + (a.log + r.log);
    }
  }

  lemma AckedFront(l: Link, f: Frame, acks: seq<bool>)
    requires acks != [] && forall i :: 0 <= i < |acks| ==> acks[i]
    ensures var a := AtFront(l, f, acks);
            a.link.commit != l.commit && |a.acks| >= |acks| - 1 && forall i :: 0 <= i < |a.acks| ==> a.acks[i]
  {
    hide Perform;
    assert FrameLength(f) > 0;
  }

  /** A session in which nothing waits for an acknowledgement. */
  ghost predicate Caught(s: Session) {
    OnceUpTo(s.link, s.log, FramesOf(s.buf), WellCount(FramesOf(s.buf)))
  }

  lemma {:induction false} FewFrames(s: seq<Byte>)
    ensures |FramesOf(s)| <= |s|
    decreases |s|
  {
    hide ReadFrame;
    var r := ReadFrame(s);
    if r.Some? { FewFrames(s[FrameLength(r.value)..]); }
  }

  lemma AckedRead(s: Session, r: Read)
    requires Caught(s) && Acked(r) && |s.buf + r.bytes| <= MAX_RESPONSE_WIRE
    ensures Caught(OnRead(s, r)) && OnRead(s, r).buf == s.buf + r.bytes
  {
    hide FeedFrom, Flush, FramesOf, OnceUpTo, WellCount, AllWellFormed;
    var buf := s.buf + r.bytes;
    var fs, c := FramesOf(buf), WellCount(FramesOf(s.buf));
    FramesGrow(s.buf, r.bytes);
    OnceGrows(s.link, s.log, FramesOf(s.buf), fs, c);
    OnceBounds(s.link, s.log, fs, c);
    FramesFrom(buf, c);
    FewFrames(buf);
    RestIs(s.link, s.log, buf, c);
    FeedPassesAll(s.link, s.log, fs, c, r.acks);
    var fed := FeedFrom(s.link, fs[c..], r.acks);
    FlowIsAside(fed.link, s.log + fed.log, fs, WellCount(fs), OnRead(s, r).link.flow);
  }

  lemma RestIs(l: Link, log: seq<Effect>, buf: seq<Byte>, c: nat)
    requires OnceUpTo(l, log, FramesOf(buf), c)
    ensures Rest(buf, l.commit) == FramesOf(buf)[c..]
  {
    hide FramesOf;
    FramesFrom(buf, c);
  }

  lemma {:induction false} AckedRun(s: Session, rs: seq<Read>)
    requires Caught(s) && (forall i :: 0 <= i < |rs| ==> Acked(rs[i])) && |s.buf + BytesOf(rs)| <= MAX_RESPONSE_WIRE
    ensures Caught(RunSession(s, rs)) && RunSession(s, rs).buf == s.buf + BytesOf(rs)
    decreases |rs|
  {
    hide Caught, Acked, OnRead;
    if rs == [] {
      assert s.buf + [] == s.buf;
    } else {
      assert s.buf + (rs[0].bytes + BytesOf(rs[1..])) == (s.buf + rs[0].bytes) + BytesOf(rs[1..]);
      AckedRead(s, rs[0]);
      AckedRun(OnRead(s, rs[0]), rs[1..]);
    }
  }

  lemma CaughtLog(s: Session)
    requires Caught(s)
    ensures var fs := FramesOf(s.buf); s.log == EffectsOf(fs[..WellCount(fs)])
  {
    hide FramesOf, EffectsOf;
    var fs := FramesOf(s.buf);
    var c := WellCount(fs);
    SettingsAreWell();
    assert s.log == EffectsOf(fs[..c]) + [] ==> s.log == EffectsOf(fs[..c]);
  }

  lemma SettingsAreWell()
    ensures forall f :: NeedsAck(f) ==> !Malformed(f)
  {
  }

  /**
   However the same bytes are split into reads, with the acknowledgements written: the same effects, those of
   all frames before the first malformed one.
   */
  lemma SplitsAgree(flow: Flow, rs: seq<Read>)
    requires (forall i :: 0 <= i < |rs| ==> Acked(rs[i])) && |BytesOf(rs)| <= MAX_RESPONSE_WIRE
    ensures var fs := FramesOf(BytesOf(rs)); RunSession(Opened(flow), rs).log == EffectsOf(fs[..WellCount(fs)])
  {
    hide RunSession, FramesOf, BytesOf, EffectsOf, Acked;
    var s := Opened(flow);
    OpenedCaught(flow);
    assert s.buf + BytesOf(rs) == BytesOf(rs);
    AckedRun(s, rs);
    CaughtLog(RunSession(s, rs));
  }

  lemma OpenedCaught(flow: Flow)
    ensures Caught(Opened(flow))
  {
    assert FramesOf([]) == [];
    assert EffectsOf([]) == [];
  }
}
