/**
 What the frames of a session did to the connection, read off the frames themselves: the credit of each
 window, the settings, the DATA received, the replies, and which frames reset the stream.
 */
module H2Effects {
  import opened Bits
  import opened Wrappers
  import opened H2Frame
  import opened H2Flow
  import opened H2Response
  import opened H2Feed

  // ---------------------------------------------------------- what frames say

  /** The increments of the WINDOW_UPDATE frames that name a window. */
  function Granted(fs: seq<Frame>, sid: nat): (n: nat) {
    if fs == [] then 0
    else
      var f := fs[0];
      (if f.kind == WINDOW_UPDATE && f.sid == sid && |f.payload| >= 4 then GetU31(f.payload) else 0)
      + Granted(fs[1..], sid)
  }

  /** The payload bytes of the DATA frames of stream 1, padding included. */
  function DataBytes(fs: seq<Frame>): (n: nat) {
    if fs == [] then 0
    else (if fs[0].kind == DATA && fs[0].sid == 1 then |fs[0].payload| else 0) + DataBytes(fs[1..])
  }

  /** The payloads of the PINGs to answer. */
  function Pings(fs: seq<Frame>): (ps: seq<seq<Byte>>) {
    if fs == [] then []
    else
      var f := fs[0];
      (if f.kind == PING && f.sid == 0 && f.flags % 2 == 0 && |f.payload| == 8 then [f.payload] else [])
      + Pings(fs[1..])
  }

  predicate IsSettings(f: Frame) {
    f.kind == SETTINGS && f.sid == 0 && f.flags % 2 == 0
  }

  /** The parameter lists of the SETTINGS frames to apply. */
  function Parameters(fs: seq<Frame>): (pss: seq<seq<Setting>>) {
    if fs == [] then []
    else
      (if IsSettings(fs[0]) && |fs[0].payload| % 6 == 0 then [SettingsOf(fs[0].payload)] else [])
      + Parameters(fs[1..])
  }

  // ---------------------------------------------------------- what the log says

  function CreditIn(ops: seq<Op>, sid: nat): (n: nat) {
    if ops == [] then 0
    else (if ops[0].Update? && ops[0].sid == sid then ops[0].incr else 0) + CreditIn(ops[1..], sid)
  }

  function SettingsIn(ops: seq<Op>): (pss: seq<seq<Setting>>) {
    if ops == [] then [] else (if ops[0].Settings? then [ops[0].ps] else []) + SettingsIn(ops[1..])
  }

  function ReceivedIn(log: seq<Effect>): (n: nat) {
    if log == [] then 0 else (if log[0].Received? then log[0].n else 0) + ReceivedIn(log[1..])
  }

  lemma {:induction false} CreditAppend(a: seq<Op>, b: seq<Op>, sid: nat)
    ensures CreditIn(a + b, sid) == CreditIn(a, sid) + CreditIn(b, sid)
  {
    if a == [] {
      assert a + b == b;
    } else {
      assert (a + b)[0] == a[0] && (a + b)[1..] == a[1..] + b;
      CreditAppend(a[1..], b, sid);
    }
  }

  lemma {:induction false} SettingsAppend(a: seq<Op>, b: seq<Op>)
    ensures SettingsIn(a + b) == SettingsIn(a) + SettingsIn(b)
  {
    if a == [] {
      assert a + b == b;
    } else {
      assert (a + b)[0] == a[0] && (a + b)[1..] == a[1..] + b;
      SettingsAppend(a[1..], b);
      var head := if a[0].Settings? then [a[0].ps] else [];
      assert head + (SettingsIn(a[1..]) + SettingsIn(b)) == (head + SettingsIn(a[1..])) + SettingsIn(b);
    }
  }

  lemma {:induction false} ReceivedAppend(a: seq<Effect>, b: seq<Effect>)
    ensures ReceivedIn(a + b) == ReceivedIn(a) + ReceivedIn(b)
  {
    if a == [] {
      assert a + b == b;
    } else {
      assert (a + b)[0] == a[0] && (a + b)[1..] == a[1..] + b;
      ReceivedAppend(a[1..], b);
    }
  }

  /** The effects of one frame, as a log. */
  function EffectsOfOne(f: Frame): (log: seq<Effect>) {
    match EffectOf(f) case None => [] case Some(e) => [e]
  }

  lemma FirstEffects(fs: seq<Frame>)
    requires fs != []
    ensures EffectsOf(fs) == EffectsOfOne(fs[0]) + EffectsOf(fs[1..])
  {
  }

  /** One frame: its effect is what the frame says. */
  lemma OneFrameReads(f: Frame, sid: nat)
    ensures var log := EffectsOfOne(f); var ops := OpsOf(log);
            && CreditIn(ops, sid) == Granted([f], sid) && SettingsIn(ops) == Parameters([f])
            && ReceivedIn(log) == DataBytes([f]) && PongsOf(log) == Pings([f])
  {
    hide SettingsOf, GetU31;
    var log, rest := EffectsOfOne(f), [f][1..];
    assert rest == [] && Granted(rest, sid) == 0 && DataBytes(rest) == 0 && Pings(rest) == [] && Parameters(rest) == [];
    if log != [] {
      var e := log[0];
      OneEffect(0, e);
      assert log[1..] == [];
      assert ReceivedIn(log) == (if e.Received? then e.n else 0) + ReceivedIn([]);
      assert PongsOf(log) == (if e.Ponged? then [e.payload] else []) + PongsOf([]);
      if OpOf(e).Some? {
        var op := OpOf(e).value;
        assert [op][1..] == [];
        assert CreditIn([op], sid) == (if op.Update? && op.sid == sid then op.incr else 0) + CreditIn([], sid);
        assert SettingsIn([op]) == (if op.Settings? then [op.ps] else []) + SettingsIn([]);
      }
    }
  }

  lemma SplitsFirst(fs: seq<Frame>, sid: nat)
    requires fs != []
    ensures Granted(fs, sid) == Granted([fs[0]], sid) + Granted(fs[1..], sid)
    ensures DataBytes(fs) == DataBytes([fs[0]]) + DataBytes(fs[1..])
    ensures Pings(fs) == Pings([fs[0]]) + Pings(fs[1..])
    ensures Parameters(fs) == Parameters([fs[0]]) + Parameters(fs[1..])
  {
    hide SettingsOf, GetU31;
    var rest := [fs[0]][1..];
    assert rest == [] && Granted(rest, sid) == 0 && DataBytes(rest) == 0 && Pings(rest) == [] && Parameters(rest) == [];
  }

  /** Any frames: credit, settings, DATA and PINGs of their effects are what the frames say. */
  lemma {:induction false} FramesRead(fs: seq<Frame>, sid: nat)
    ensures var log := EffectsOf(fs); var ops := OpsOf(log);
            && CreditIn(ops, sid) == Granted(fs, sid) && SettingsIn(ops) == Parameters(fs)
            && ReceivedIn(log) == DataBytes(fs) && PongsOf(log) == Pings(fs)
  {
    hide EffectOf, OpOf, Granted, DataBytes, Pings, Parameters, EffectsOfOne, OpsOf, CreditIn, SettingsIn, ReceivedIn,
         PongsOf, EffectsOf;
    if fs == [] {
      NothingSaid(sid);
    } else {
      var a, b := EffectsOfOne(fs[0]), EffectsOf(fs[1..]);
      FirstEffects(fs);
      OneFrameReads(fs[0], sid);
      FramesRead(fs[1..], sid);
      SplitsFirst(fs, sid);
      OpsAppend(a, b);
      CreditAppend(OpsOf(a), OpsOf(b), sid);
      SettingsAppend(OpsOf(a), OpsOf(b));
      ReceivedAppend(a, b);
      PongsOfAppend(a, b);
    }
  }

  lemma NothingSaid(sid: nat)
    ensures Granted([], sid) == 0 && DataBytes([]) == 0 && Pings([]) == [] && Parameters([]) == []
    ensures EffectsOf([]) == [] && OpsOf([]) == [] && CreditIn([], sid) == 0 && SettingsIn([]) == []
    ensures ReceivedIn([]) == 0 && PongsOf([]) == []
  {
  }

  // ---------------------------------------------------------- receive windows

  /** All DATA is accounted if and only if it fits the window. */
  lemma {:induction false} AccountedExactly(w: nat, log: seq<Effect>)
    ensures Drained(w, log) >= 0 && w - ReceivedIn(log) <= Drained(w, log) <= w
    ensures Drained(w, log) == w - ReceivedIn(log) <==> ReceivedIn(log) <= w
    decreases |log|
  {
    if log != [] {
      AccountedExactly(if log[0].Received? && log[0].n <= w then w - log[0].n else w, log[1..]);
    }
  }

  // ---------------------------------------------------------- every session

  lemma {:induction false} FlushesAside(ops: seq<Op>, sid: nat)
    ensures CreditIn(NotFlush(ops), sid) == CreditIn(ops, sid) && SettingsIn(NotFlush(ops)) == SettingsIn(ops)
  {
    if ops != [] {
      FlushesAside(ops[1..], sid);
      var head := if ops[0].Flushing? then [] else [ops[0]];
      CreditAppend(head, NotFlush(ops[1..]), sid);
      SettingsAppend(head, NotFlush(ops[1..]));
      if !ops[0].Flushing? { assert head[1..] == [] && SettingsIn([]) == [] && CreditIn([], sid) == 0; }
    }
  }

  /** The SETTINGS frame at the commit offset whose acknowledgement has not been written. */
  function Waiting(l: Link, fs: seq<Frame>, c: nat): (r: seq<Frame>) {
    if Blocked(l) && c < |fs| then [fs[c]] else []
  }

  lemma WaitingSaysSettings(f: Frame, sid: nat)
    requires NeedsAck(f)
    ensures Granted([f], sid) == 0 && DataBytes([f]) == 0 && Pings([f]) == []
    ensures EffectsOfOne(f) == [Applied(f.payload)] == EffectsOf([f])
  {
    assert [f][1..] == [];
    assert EffectsOf([f]) == EffectsOfOne(f) + EffectsOf([]);
  }

  /** What a session has done is what the frames up to its commit offset say, and a waiting SETTINGS frame. */
  ghost predicate ReadsFrames(s: Session, c: nat) {
    var fs := FramesOf(s.buf);
    && c <= |fs| && AllWellFormed(fs[..c]) && s.link.commit == Extent(fs[..c])
    && (forall sid :: CreditIn(s.trace, sid) == Granted(fs[..c], sid))
    && SettingsIn(s.trace) == Parameters(fs[..c]) + Parameters(Waiting(s.link, fs, c))
    && PongsOf(s.log) == Pings(fs[..c])
    && s.link.connRecv == s.link.streamRecv >= RECV_WINDOW - DataBytes(fs[..c])
    && (s.link.connRecv == RECV_WINDOW - DataBytes(fs[..c]) <==> DataBytes(fs[..c]) <= RECV_WINDOW)
  }

  lemma LogReads(l: Link, log: seq<Effect>, fs: seq<Frame>, c: nat, sid: nat)
    requires OnceUpTo(l, log, fs, c)
    ensures CreditIn(OpsOf(log), sid) == Granted(fs[..c], sid)
    ensures SettingsIn(OpsOf(log)) == Parameters(fs[..c]) + Parameters(Waiting(l, fs, c))
    ensures PongsOf(log) == Pings(fs[..c]) && ReceivedIn(log) == DataBytes(fs[..c])
  {
    hide EffectOf, OpOf, Granted, DataBytes, Pings, Parameters, OpsOf, CreditIn, SettingsIn, ReceivedIn, PongsOf,
         EffectsOf, Extent, Malformed;
    var a, w := fs[..c], Waiting(l, fs, c);
    if Blocked(l) { WaitingSaysSettings(fs[c], sid); }
    NothingSaid(sid);
    assert log == EffectsOf(a) + EffectsOf(w);
    FramesRead(a, sid);
    FramesRead(w, sid);
    OpsAppend(EffectsOf(a), EffectsOf(w));
    CreditAppend(OpsOf(EffectsOf(a)), OpsOf(EffectsOf(w)), sid);
    SettingsAppend(OpsOf(EffectsOf(a)), OpsOf(EffectsOf(w)));
    ReceivedAppend(EffectsOf(a), EffectsOf(w));
    PongsOfAppend(EffectsOf(a), EffectsOf(w));
    assert Pings(a) + [] == Pings(a);
  }

  /** Over every session, however the bytes are split and whichever acknowledgements fail. */
  lemma SessionReads(flow: Flow, rs: seq<Read>) returns (c: nat)
    ensures ReadsFrames(RunSession(Opened(flow), rs), c)
  {
    hide RunSession, Opened, OpsOf, CreditIn, SettingsIn, NotFlush, FramesOf, Drained, RunFlow, PongsOf, ReceivedIn,
         Granted, DataBytes, Pings, Parameters, EffectsOf, Extent, Malformed, Waiting;
    var s := RunSession(Opened(flow), rs);
    ExactlyOnce(flow, rs);
    var fs := FramesOf(s.buf);
    c :| OnceUpTo(s.link, s.log, fs, c);
    forall sid ensures CreditIn(s.trace, sid) == Granted(fs[..c], sid) {
      LogReads(s.link, s.log, fs, c, sid);
      FlushesAside(s.trace, sid);
    }
    LogReads(s.link, s.log, fs, c, 0);
    FlushesAside(s.trace, 0);
    AccountedExactly(RECV_WINDOW, s.log);
  }

  // ---------------------------------------------------------- send windows

  /** The increments a run refuses because they would take the window beyond 2^31 - 1. */
  function RefusedIn(s: Flow, ops: seq<Op>, sid: nat): (n: nat)
    decreases |ops|
  {
    if ops == [] then 0
    else
      var w := if sid == 0 then s.conn else s.stream;
      (if ops[0].Update? && ops[0].sid == sid && w + ops[0].incr > WINDOW_LIMIT then ops[0].incr else 0)
      + RefusedIn(StepFlow(s, ops[0]), ops[1..], sid)
  }

  lemma CreditStep(s: Flow, l: Ledger, op: Op)
    requires Inv(s, l)
    ensures var m := StepLedger(s, l, op);
            && m.connCredit + RefusedIn(s, [op], 0) == l.connCredit + CreditIn([op], 0)
            && m.streamCredit + RefusedIn(s, [op], 1) == l.streamCredit + CreditIn([op], 1)
  {
    hide StepFlow, Carried, ChunkOk, Flush;
    assert [op][1..] == [];
    assert CreditIn([op], 0) == (if op.Update? && op.sid == 0 then op.incr else 0) + CreditIn([], 0);
    assert CreditIn([op], 1) == (if op.Update? && op.sid == 1 then op.incr else 0) + CreditIn([], 1);
  }

  lemma {:induction false} LedgerCredit(s: Flow, l: Ledger, ops: seq<Op>)
    requires Inv(s, l)
    ensures var m := RunLedger(s, l, ops);
            && m.connCredit + RefusedIn(s, ops, 0) == l.connCredit + CreditIn(ops, 0)
            && m.streamCredit + RefusedIn(s, ops, 1) == l.streamCredit + CreditIn(ops, 1)
    decreases |ops|
  {
    hide StepFlow, StepLedger, Inv;
    if ops != [] {
      CreditStep(s, l, ops[0]);
      StepKeeps(s, l, ops[0]);
      LedgerCredit(StepFlow(s, ops[0]), StepLedger(s, l, ops[0]), ops[1..]);
      var rest := [ops[0]][1..];
      assert rest == [] && CreditIn(rest, 0) == 0 == CreditIn(rest, 1);
      assert RefusedIn(StepFlow(s, ops[0]), rest, 0) == 0 == RefusedIn(StepFlow(s, ops[0]), rest, 1);
    }
  }

  /**
   In every session of an attached request each send window is its start, plus the increments of the
   WINDOW_UPDATE frames that name it, less the refused ones and the bytes sent.
   */
  lemma SessionWindows(body: seq<Byte>, rs: seq<Read>) returns (c: nat)
    ensures var s := RunSession(Opened(Attached(body)), rs);
            var sent := |body| - |Remaining(s.link.flow)|;
            && ReadsFrames(s, c)
            && s.link.flow.conn ==
                 DEFAULT_WINDOW + Granted(FramesOf(s.buf)[..c], 0) - RefusedIn(Attached(body), s.trace, 0) - sent
            && s.link.flow.stream ==
                 s.link.flow.init + Granted(FramesOf(s.buf)[..c], 1) - RefusedIn(Attached(body), s.trace, 1) - sent
  {
    hide RunSession, Opened, Attached, RunLedger, RunFlow, CreditIn, RefusedIn, FramesOf, Granted, Carried, ChunkOk,
         Remaining, SettingsIn, Parameters, DataBytes, Pings, PongsOf, Malformed, Extent, Waiting;
    c := SessionReads(Attached(body), rs);
    var s := RunSession(Opened(Attached(body)), rs);
    SessionFlowControl(body, rs);
    AttachStarts(body);
    LedgerCredit(Attached(body), Opening(body), s.trace);
    LedgerChunks(Attached(body), Opening(body), s.trace);
    var l := RunLedger(Attached(body), Opening(body), s.trace);
    assert |Carried(l.chunks)| + |Remaining(s.link.flow)| == |body|;
  }

  // ---------------------------------------------------------- replies

  /** The acknowledgements frames ask for: SETTINGS with the ACK flag and nothing else, PING with its own bytes. */
  function Acks(fs: seq<Frame>): (r: seq<Frame>) {
    if fs == [] then []
    else
      var f := fs[0];
      (if IsSettings(f) then [Frame(SETTINGS, 1, 0, [])]
       else if f.kind == PING && f.sid == 0 && f.flags % 2 == 0 && |f.payload| == 8 then [Frame(PING, 1, 0, f.payload)]
       else [])
      + Acks(fs[1..])
  }

  predicate AnySettings(fs: seq<Frame>) {
    exists i :: 0 <= i < |fs| && IsSettings(fs[i])
  }

  lemma ReplyAcks(l: Link, f: Frame, acks: seq<bool>)
    requires !Malformed(f)
    ensures Reply(f) == Acks([f])
    ensures var a := AtFront(l, f, acks).link;
            && (a.commit == l.commit ==> IsSettings(f) && a.ackSent == l.ackSent)
            && (a.commit != l.commit ==> (a.ackSent <==> l.ackSent || IsSettings(f)))
            && (a.commit != l.commit ==> a.commit == l.commit + FrameLength(f))
  {
    hide GetU31, SettingsOf, ApplySettings, ApplyUpdate;
    assert [f][1..] == [] && Acks([]) == [];
    assert FrameLength(f) > 0;
  }

  lemma AcksFirst(fs: seq<Frame>, k: nat)
    requires 0 < k <= |fs|
    ensures Acks(fs[..k]) == Acks([fs[0]]) + Acks(fs[1..][..k - 1])
    ensures AnySettings(fs[..k]) <==> IsSettings(fs[0]) || AnySettings(fs[1..][..k - 1])
    ensures Extent(fs[..k]) == FrameLength(fs[0]) + Extent(fs[1..][..k - 1])
    ensures AllWellFormed(fs[..k]) <==> !Malformed(fs[0]) && AllWellFormed(fs[1..][..k - 1])
  {
    hide Malformed, IsSettings;
    var a, b := fs[..k], fs[1..][..k - 1];
    assert a[0] == fs[0] && a[1..] == b && [fs[0]][1..] == [] && Acks([]) == [];
    assert forall i :: 0 <= i < |b| ==> b[i] == a[i + 1];
    assert forall i :: 0 < i < |a| ==> a[i] == b[i - 1];
  }

  /**
   One pass from the commit offset on: it passes `k` frames and stops at the end, at a malformed frame or at a SETTINGS
   frame whose acknowledgement is not written; it replies to exactly the frames it passes, and to that one.
   */
  lemma {:induction false} PassExact(l: Link, fs: seq<Frame>, acks: seq<bool>) returns (k: nat)
    ensures k <= |fs| && AllWellFormed(fs[..k]) && (k < |fs| ==> Malformed(fs[k]) || IsSettings(fs[k]))
    ensures var r := FeedFrom(l, fs, acks).link;
            r.commit == l.commit + Extent(fs[..k]) && (r.ackSent <==> l.ackSent || AnySettings(fs[..k]))
    ensures Replies(l, l.commit, fs, acks) ==
            Acks(fs[..k]) + (if k < |fs| && IsSettings(fs[k]) then Acks([fs[k]]) else [])
    decreases |fs|
  {
    hide Malformed, AtFront, Reply, IsSettings, Acks, AnySettings;
    AcksNone();
    if fs == [] || Malformed(fs[0]) {
      k := 0;
      assert fs[..0] == [];
      if fs != [] { SettingsWell(fs[0]); }
    } else {
      var a := AtFront(l, fs[0], acks);
      ReplyAcks(l, fs[0], acks);
      var n := l.commit + FrameLength(fs[0]);
      if a.link.commit == l.commit {
        k := 0;
        assert fs[..0] == [];
        RepliesBehind(a.link, n, fs[1..], a.acks);
      } else {
        var rest := PassExact(a.link, fs[1..], a.acks);
        k := rest + 1;
        AcksFirst(fs, k);
        var tail := if k < |fs| && IsSettings(fs[k]) then Acks([fs[k]]) else [];
        assert Acks([fs[0]]) + (Acks(fs[1..][..rest]) + tail) == (Acks([fs[0]]) + Acks(fs[1..][..rest])) + tail;
      }
    }
  }

  lemma AcksNone()
    ensures Acks([]) == [] && !AnySettings([]) && Extent([]) == 0
  {
  }

  lemma SettingsWell(f: Frame)
    ensures Malformed(f) ==> !IsSettings(f)
  {
  }

  /** The flag is set once the acknowledgement of some SETTINGS frame below the commit offset has been written. */
  ghost predicate AckFlag(s: Session) {
    exists c: nat :: AckFlagAt(s.link, FramesOf(s.buf), c)
  }

  ghost predicate AckFlagAt(l: Link, fs: seq<Frame>, c: nat) {
    && c <= |fs| && l.commit == Extent(fs[..c]) && (l.ackSent <==> AnySettings(fs[..c]))
  }

  lemma ReadAckFlag(s: Session, r: Read)
    requires AckFlag(s)
    ensures AckFlag(OnRead(s, r))
  {
    hide FeedFrom, Flush, FramesOf, IsSettings, AllWellFormed, Extent, Replies, Acks;
    var buf := s.buf + r.bytes;
    var fs := FramesOf(buf);
    var c: nat :| AckFlagAt(s.link, FramesOf(s.buf), c);
    FramesGrow(s.buf, r.bytes);
    assert fs[..c] == FramesOf(s.buf)[..c];
    assert AckFlagAt(s.link, fs, c);
    if |buf| <= MAX_RESPONSE_WIRE {
      FramesFrom(buf, c);
      var k := PassExact(s.link, fs[c..], r.acks);
      assert fs[..c + k] == fs[..c] + fs[c..][..k];
      ExtentAppend(fs[..c], fs[c..][..k]);
      AnyAppend(fs[..c], fs[c..][..k]);
      assert AckFlagAt(OnRead(s, r).link, fs, c + k);
    }
  }

  lemma AnyAppend(a: seq<Frame>, b: seq<Frame>)
    ensures AnySettings(a + b) <==> AnySettings(a) || AnySettings(b)
  {
    hide IsSettings;
    if AnySettings(a) { var i :| 0 <= i < |a| && IsSettings(a[i]); assert (a + b)[i] == a[i]; }
    if AnySettings(b) { var i :| 0 <= i < |b| && IsSettings(b[i]); assert (a + b)[|a| + i] == b[i]; }
  }

  lemma {:induction false} RunAckFlag(s: Session, rs: seq<Read>)
    requires AckFlag(s)
    ensures AckFlag(RunSession(s, rs))
    decreases |rs|
  {
    hide OnRead, AckFlag;
    if rs != [] {
      ReadAckFlag(s, rs[0]);
      RunAckFlag(OnRead(s, rs[0]), rs[1..]);
    }
  }

  lemma SessionAckFlag(flow: Flow, rs: seq<Read>)
    ensures AckFlag(RunSession(Opened(flow), rs))
  {
    hide RunSession, IsSettings;
    var s := Opened(flow);
    assert FramesOf([]) == [];
    assert AckFlagAt(s.link, FramesOf(s.buf), 0);
    RunAckFlag(s, rs);
  }

  // ---------------------------------------------------------- settings

  /** The bytes of a SETTINGS payload (RFC 7540 section 6.5.1). */
  function SettingsBytes(ps: seq<Setting>): (s: seq<Byte>) {
    if ps == [] then [] else U16(ps[0].id) + U32(ps[0].value) + SettingsBytes(ps[1..])
  }

  lemma {:induction false} SettingsRoundTrip(ps: seq<Setting>)
    requires forall i :: 0 <= i < |ps| ==> ps[i].id < 0x1_0000 && ps[i].value < 0x1_0000_0000
    ensures SettingsOf(SettingsBytes(ps)) == ps && |SettingsBytes(ps)| == 6 * |ps|
  {
    if ps != [] {
      var s, p := SettingsBytes(ps), ps[0];
      SettingsRoundTrip(ps[1..]);
      assert s[6..] == SettingsBytes(ps[1..]) && s[2..6] == U32(p.value);
      BytesOfWord(p.value);
      GetU32Prefix(s[2..]);
      assert s[2..][..4] == s[2..6];
      assert (s[0] as nat) * 0x100 + s[1] == p.id;
    }
  }

  /** The value of the last parameter of a kind, or what it was before. */
  function LastOf(ps: seq<Setting>, id: nat, was: nat): (v: nat)
    decreases |ps|
  {
    if ps == [] then was else LastOf(ps[1..], id, if ps[0].id == id then ps[0].value else was)
  }

  predicate LegalFrameSize(p: Setting) {
    p.id == 5 && 16384 <= p.value <= 16777215
  }

  /**
   The first `k` parameters are applied, all of them if and only if the change is accepted: the initial window is the
   last one they name, the stream window moves with it, and a parameter that would take a window beyond 2^31 - 1 is
   refused.
   */
  lemma {:induction false} SettingsExact(s: Flow, ps: seq<Setting>) returns (k: nat)
    ensures k <= |ps| && (ApplySettings(s, ps).ok <==> k == |ps|)
    ensures var r := ApplySettings(s, ps).flow;
            && r.init == LastOf(ps[..k], 4, s.init) && r.stream == s.stream + r.init - s.init
            && r.pending == s.pending && r.off == s.off && r.conn == s.conn
            && r.maxFrame == (if exists i :: 0 <= i < k && LegalFrameSize(ps[i]) then MAX_FRAME else s.maxFrame)
    ensures k < |ps| ==> ps[k].id == 4 && (ps[k].value > WINDOW_LIMIT ||
                         s.stream + ps[k].value - s.init > WINDOW_LIMIT)
    decreases |ps|
  {
    if ps == [] {
      k := 0;
    } else {
      var a := ApplySetting(s, ps[0]);
      if !a.ok {
        k := 0;
        assert ps[..0] == [];
      } else {
        var rest := SettingsExact(a.flow, ps[1..]);
        k := rest + 1;
        assert ps[..k][0] == ps[0] && ps[..k][1..] == ps[1..][..rest];
        SameSizes(ps, rest);
      }
    }
  }

  lemma SameSizes(ps: seq<Setting>, rest: nat)
    requires rest < |ps|
    ensures (exists i :: 0 <= i < rest + 1 && LegalFrameSize(ps[i])) <==>
            LegalFrameSize(ps[0]) || exists i :: 0 <= i < rest && LegalFrameSize(ps[1..][i])
  {
    if i :| 0 <= i < rest + 1 && LegalFrameSize(ps[i]) {
      if i > 0 { assert ps[1..][i - 1] == ps[i]; }
    }
    if i :| 0 <= i < rest && LegalFrameSize(ps[1..][i]) { assert ps[i + 1] == ps[1..][i]; }
  }

  // ---------------------------------------------------------- resets

  /**
   Which frames at the commit offset end the stream as reset: a RST_STREAM of stream 1, an increment or a parameter
   that takes a window beyond 2^31 - 1, and DATA beyond a receive window.
   */
  lemma ResetExactly(l: Link, f: Frame, acks: seq<bool>)
    requires !Malformed(f)
    ensures Walk(FRESH, l, l.commit, [f], acks).resp.reason == EndRst <==>
            || (f.kind == RST_STREAM && f.sid == 1)
            || (f.kind == WINDOW_UPDATE && |f.payload| >= 4 && GetU31(f.payload) > 0 &&
                ((f.sid == 0 && l.flow.conn + GetU31(f.payload) > WINDOW_LIMIT) ||
                 (f.sid == 1 && l.flow.stream + GetU31(f.payload) > WINDOW_LIMIT)))
            || (IsSettings(f) && |f.payload| % 6 == 0 && !Blocked(l) &&
                !ApplySettings(l.flow, SettingsOf(f.payload)).ok)
            || (f.kind == DATA && f.sid == 1 && f.payload != [] &&
                (|f.payload| > l.connRecv || |f.payload| > l.streamRecv))
  {
    hide ApplySettings, SettingsOf, GetU31, OnBlock, StripPadding, BlockOf;
    assert [f][1..] == [];
  }

  // ---------------------------------------------------------- when a call is done

  lemma EndStep(r: Resp, f: Frame)
    requires !Malformed(f) && Consistent(r)
    ensures var c := FrameContent(f, r.goawaySid);
            var n := OnFrame(r, f);
            Consistent(n) && n.goawaySid == c.goawaySid && (n.ended <==> r.ended || c.end != NoEnd)
  {
    hide OnBlock, StripPadding, BlockOf, GetU31;
  }

  lemma {:induction false} BehindEnds(r: Resp, l: Link, off: nat, fs: seq<Frame>, acks: seq<bool>)
    requires off > l.commit && AllWellFormed(fs) && Consistent(r)
    ensures Walk(r, l, off, fs, acks).resp.ended <==> r.ended || ContentOf(fs, r.goawaySid).end != NoEnd
    decreases |fs|
  {
    hide OnFrame, Malformed, FrameContent;
    if fs != [] {
      EndStep(r, fs[0]);
      BehindEnds(OnFrame(r, fs[0]), l, off + FrameLength(fs[0]), fs[1..], acks);
    }
  }

  lemma {:induction false} FrontEnds(r: Resp, l: Link, fs: seq<Frame>, acks: seq<bool>)
    requires AllWellFormed(fs) && Consistent(r)
    ensures Walk(r, l, l.commit, fs, acks).resp.ended <==>
            r.ended || ContentOf(fs, r.goawaySid).end != NoEnd || !FeedFrom(l, fs, acks).ok
    decreases |fs|
  {
    hide OnFrame, Malformed, FrameContent, AtFront;
    if fs != [] {
      var a := AtFront(l, fs[0], acks);
      AtFrontMoves(l, fs[0], acks);
      var marked := if a.ok then r else MarkEnd(r, EndRst);
      EndStep(marked, fs[0]);
      var n := OnFrame(marked, fs[0]);
      if a.link.commit == l.commit {
        BehindEnds(n, a.link, l.commit + FrameLength(fs[0]), fs[1..], a.acks);
      } else {
        FrontEnds(n, a.link, fs[1..], a.acks);
      }
    }
  }

  lemma {:induction false} WalkEnds(r: Resp, l: Link, fs: seq<Frame>, k: nat, c: nat, acks: seq<bool>)
    requires k <= c <= |fs| && l.commit == Extent(fs[..c]) && AllWellFormed(fs) && Consistent(r)
    ensures Walk(r, l, Extent(fs[..k]), fs[k..], acks).resp.ended <==>
            r.ended || ContentOf(fs[k..], r.goawaySid).end != NoEnd || !FeedFrom(l, fs[c..], acks).ok
    decreases c - k
  {
    hide OnFrame, Malformed, AtFront, FrameContent, FeedFrom;
    ExtentStrict(fs, k, c);
    if k == c {
      FrontEnds(r, l, fs[c..], acks);
    } else {
      assert fs[k..][0] == fs[k] && fs[k..][1..] == fs[k + 1..];
      OneMoreFrame(fs, k);
      EndStep(r, fs[k]);
      WalkEnds(OnFrame(r, fs[k]), l, fs, k + 1, c, acks);
    }
  }

  /**
   When a call of the client is done with the response: a frame is malformed, a frame ends the stream, or a frame it
   handles now for the first time is refused; in no other case.
   */
  lemma DoneExactly(l: Link, log: seq<Effect>, fs: seq<Frame>, c: nat, acks: seq<bool>)
    requires OnceUpTo(l, log, fs, c)
    ensures var w := Walk(FRESH, l, 0, fs, acks);
            !w.ok || w.resp.ended <==>
            || !AllWellFormed(fs)
            || ContentOf(fs, 0).end != NoEnd
            || !FeedFrom(l, fs[c..], acks).ok
  {
    hide Walk, FeedFrom, Malformed, ContentOf;
    WalkOk(FRESH, l, 0, fs, acks);
    if AllWellFormed(fs) {
      assert fs[0..] == fs && fs[..0] == [];
      assert Extent(fs[..0]) == 0;
      WalkEnds(FRESH, l, fs, 0, c, acks);
    }
  }
}
