/**
 The client itself: the response state and the connection fields that
 http2_grpc.c updates in place, each method proved against the pure
 specification of its step.
 */
module H2Client {
  import opened Bits
  import opened Wrappers
  import opened H2Frame
  import opened H2Flow
  import opened H2Response
  import opened H2Feed
  import opened HpackTable
  import opened HpackBlock
  import GrpcResponse

  // ---------------------------------------------------------- h2_resp_state

  class RespState {
    var status: int
    var haveStatus: bool
    var hpackOk: bool
    var data: seq<Byte>
    var ended: bool
    var reason: End
    var goawaySid: nat
    const dt: DynTable

    ghost predicate Valid()
      reads this, dt
    {
      dt.Valid()
    }

    ghost function View(): Resp
      requires Valid()
      reads this, dt, dt.e
    {
      Resp(Heard(status, haveStatus, hpackOk, dt.Contents()), data, ended, reason, goawaySid)
    }

    constructor ()
      ensures Valid() && View() == FRESH && fresh(dt) && fresh(dt.e)
    {
      dt := new DynTable();
      status, haveStatus, hpackOk := -1, false, true;
      data, ended, reason, goawaySid := [], false, NoEnd, 0;
    }

    method Mark(e: End)
      requires Valid()
      modifies this`ended, this`reason
      ensures Valid() && View() == MarkEnd(old(View()), e)
    {
      ended := true;
      if reason == NoEnd {
        reason := e;
      }
    }

    /** The header callback, over the headers of one block. */
    method Tell(hs: seq<Header>)
      requires Valid()
      modifies this`status, this`haveStatus
      ensures Valid() && View() == old(View()).(heard := OnHeaders(old(View()).heard, hs))
    {
      var i := 0;
      assert hs[0..] == hs;
      while i < |hs|
        invariant i <= |hs| && Valid()
        invariant View() == old(View()).(heard := View().heard)
        invariant OnHeaders(View().heard, hs[i..]) == OnHeaders(old(View()).heard, hs)
      {
        assert hs[i..][0] == hs[i] && hs[i..][1..] == hs[i + 1..];
        if SameText(CString(hs[i].name), Ascii("grpc-status")) {
          status := Atoi(CString(hs[i].value));
          haveStatus := true;
        }
        i := i + 1;
      }
    }

    /** The HEADERS branch. */
    method Block(f: Frame)
      requires Valid() && IsBlock(f) && f.kind != GOAWAY && f.kind != RST_STREAM && !Malformed(f)
      modifies this, dt, dt.e
      ensures Valid() && View() == OnFrame(old(View()), f)
    {
      hide ReadBlock, OnHeaders;
      var block := BlockOf(f).value;
      ghost var before := View();
      var end, hs := DecodeBlock(block, dt);
      TableAside(before.heard, hs, dt.Contents());
      Tell(hs);
      if !end.Whole? {
        hpackOk := false;
      }
      if EndStream(f) {
        Mark(EndHeaders);
      }
    }

    /** One frame, the acknowledgements aside. */
    method Take(f: Frame)
      requires Valid() && !Malformed(f)
      modifies this, dt, dt.e
      ensures Valid() && View() == OnFrame(old(View()), f)
    {
      hide OnBlock;
      if f.kind == GOAWAY {
        if |f.payload| >= 8 {
          goawaySid := GetU31(f.payload);
        }
        if goawaySid < 1 && reason == NoEnd {
          Mark(EndGoaway);
        }
      } else if f.kind == RST_STREAM && f.sid == 1 {
        Mark(EndRst);
      } else if f.sid == 1 && (f.kind == HEADERS || f.kind == CONTINUATION) {
        Block(f);
      } else if f.sid == 1 && f.kind == DATA {
        data := data + StripPadding(f).value;
        if EndStream(f) {
          Mark(EndData);
        }
      }
    }
  }

  /** The callbacks do not depend on the dynamic table. */
  lemma {:induction false} TableAside(r: Heard, hs: seq<Header>, table: seq<Header>)
    ensures OnHeaders(r.(table := table), hs) == OnHeaders(r, hs).(table := table)
    decreases |hs|
  {
    hide SameText, CString, Atoi;
    if hs != [] { TableAside(OnHeader(r, hs[0]), hs[1..], table); }
  }

  /** The frame at `off`, if all of it is there. */
  method FrameAtOffset(buf: seq<Byte>, off: nat) returns (r: Option<Frame>)
    requires off <= |buf|
    ensures r == ReadFrame(buf[off..])
  {
    if off + 9 > |buf| {
      return None;
    }
    var plen := GetU24(buf[off..]);
    if off + 9 + plen > |buf| {
      return None;
    }
    assert buf[off..][5..] == buf[off + 5..];
    assert buf[off..][9..9 + plen] == buf[off + 9..off + 9 + plen];
    return Some(Frame(buf[off + 3], buf[off + 4], GetU31(buf[off + 5..]), buf[off + 9..off + 9 + plen]));
  }

  /** h2_feed_frames without a connection. */
  method FeedResponse(buf: seq<Byte>, st: RespState) returns (ok: bool)
    requires st.Valid()
    modifies st, st.dt, st.dt.e
    ensures st.Valid()
    ensures OnFrames(old(st.View()), FramesOf(buf)) == (if ok then Some(st.View()) else None)
  {
    hide OnFrame, Malformed, ReadFrame;
    var off := 0;
    assert buf[0..] == buf;
    ghost var whole := OnFrames(st.View(), FramesOf(buf));
    while true
      invariant off <= |buf| && st.Valid()
      invariant whole == OnFrames(st.View(), FramesOf(buf[off..]))
      decreases |buf| - off
    {
      var r := FrameAtOffset(buf, off);
      if r.None? {
        return true;
      }
      var f := r.value;
      assert buf[off..][FrameLength(f)..] == buf[off + FrameLength(f)..];
      if Malformed(f) {
        return false;
      }
      st.Take(f);
      off := off + FrameLength(f);
    }
  }

  /** otlp_grpc_http2_response_parse. */
  method ResponseParse(buf: seq<Byte>) returns (a: GrpcResponse.Answer)
    ensures a == GrpcResponse.Parse(buf)
  {
    hide OnFrames, FramesOf;
    if |buf| > MAX_RESPONSE_WIRE {
      return GrpcResponse.FAILED;
    }
    var st := new RespState();
    var ok := FeedResponse(buf, st);
    if !ok || !st.ended {
      return GrpcResponse.FAILED;
    }
    if st.reason == EndGoaway || st.reason == EndRst {
      return GrpcResponse.Answer(true, -1, None);
    }
    var status := if st.haveStatus then st.status else -1;
    if st.data == [] {
      return GrpcResponse.Answer(true, status, None);
    }
    var m := GrpcResponse.Unwrap(st.data);
    return GrpcResponse.Answer(m.Some?, status, m);
  }

  // ---------------------------------------------------------- the connection

  /** The DATA frame on stream 1 that carries a chunk. */
  function DataFrame(c: Chunk): Frame {
    Frame(DATA, if c.end then 1 else 0, 1, c.payload)
  }

  function DataFrames(cs: seq<Chunk>): (fs: seq<Frame>) {
    if cs == [] then [] else [DataFrame(cs[0])] + DataFrames(cs[1..])
  }

  class Connection {
    var sendBody: Option<seq<Byte>>
    var sendOff: nat
    var peerMaxFrame: nat
    var peerInitWindow: nat
    var connSend: int
    var streamSend: int
    var connRecv: int
    var streamRecv: int
    var recvInited: bool
    var applyValid: bool
    var applyOff: nat
    var ackSent: bool
    var feedOffset: nat

    ghost function SendView(): Flow
      reads this
    {
      Flow(sendBody, sendOff, peerMaxFrame, peerInitWindow, connSend, streamSend)
    }

    ghost function View(): Link
      reads this
    {
      Link(SendView(), connRecv, streamRecv, applyValid, applyOff, ackSent, feedOffset)
    }

    /** A zeroed context. */
    constructor ()
      ensures !recvInited && View() == Link(Flow(None, 0, 0, 0, 0, 0), 0, 0, false, 0, false, 0)
    {
      sendBody, sendOff, peerMaxFrame, peerInitWindow := None, 0, 0, 0;
      connSend, streamSend, connRecv, streamRecv, recvInited := 0, 0, 0, 0, false;
      applyValid, applyOff, ackSent, feedOffset := false, 0, false, 0;
    }

    /** A new connection has received nothing. */
    method Rewind()
      modifies this
      ensures !recvInited && View() == Link(old(SendView()), 0, 0, false, 0, false, 0)
    {
      ackSent, applyValid, applyOff, feedOffset, recvInited, connRecv, streamRecv := false, false, 0, 0, false, 0, 0;
    }

    /** tcp_client_connect: a new connection starts over, but keeps what an attached request was charged. */
    method Connect()
      modifies this
      ensures !recvInited && View() == Connected(old(View()))
    {
      Rewind();
      if sendBody.None? {
        connSend, streamSend, peerInitWindow, peerMaxFrame := DEFAULT_WINDOW, DEFAULT_WINDOW, DEFAULT_WINDOW, MAX_FRAME;
      } else if peerInitWindow == 0 {
        peerInitWindow := DEFAULT_WINDOW;
      }
    }

    /** An export: the built request is attached only when it left a remainder, then the connection is opened. */
    method Begin(body: seq<Byte>)
      requires sendBody.None? && sendOff == 0
      modifies this
      ensures SendView() == Started(body) && Inited(View(), recvInited) == Opened(Started(body)).link
    {
      if |body| > DEFAULT_WINDOW {
        FlowAttach(Some(body[SendNow(body)..]), SendNow(body));
      }
      Connect();
    }

    /** otlp_grpc_http2_flow_attach. */
    method FlowAttach(pending: Option<seq<Byte>>, sent: nat)
      modifies this
      ensures View() == old(View()).(flow := Attach(pending, sent), connRecv := RECV_WINDOW, streamRecv := RECV_WINDOW)
      ensures recvInited
    {
      sendBody, sendOff, peerMaxFrame, peerInitWindow := pending, 0, MAX_FRAME, DEFAULT_WINDOW;
      connRecv, streamRecv, recvInited := RECV_WINDOW, RECV_WINDOW, true;
      var left := DEFAULT_WINDOW - sent;
      if left < 0 {
        left := 0;
      }
      connSend, streamSend := left, left;
    }

    /** The next DATA frame the windows and the frame limit allow. */
    method PrepareFrame() returns (r: Option<Frame>)
      requires sendBody.Some? && sendOff < |sendBody.value|
      ensures r.Some? <==> CanSend(SendView())
      ensures r.Some? ==> r.value == DataFrame(NextChunk(SendView())) && |r.value.payload| == ChunkSize(SendView())
    {
      var maxFrame := if peerMaxFrame == 0 || peerMaxFrame > MAX_FRAME then MAX_FRAME else peerMaxFrame;
      var avail := connSend;
      if streamSend < avail {
        avail := streamSend;
      }
      if avail <= 0 {
        return None;
      }
      var chunk: nat := |sendBody.value| - sendOff;
      if chunk > avail {
        chunk := avail;
      }
      if chunk > maxFrame {
        chunk := maxFrame;
      }
      var flags := if sendOff + chunk >= |sendBody.value| then 1 else 0;
      return Some(Frame(DATA, flags, 1, sendBody.value[sendOff..sendOff + chunk]));
    }

    /** h2_flush_pending_data; `writes` are the outcomes of h2_write_frame, `frames` what was written. */
    method FlushPending(writes: seq<bool>) returns (frames: seq<Frame>)
      modifies this`sendBody, this`sendOff, this`connSend, this`streamSend
      ensures SendView() == Flush(old(SendView()), writes).flow
      ensures frames == DataFrames(Flush(old(SendView()), writes).sent)
    {
      frames := [];
      if sendBody.None? {
        return;
      }
      hide SendLoop, NextChunk, ChunkSize, DataFrames, DataFrame, CanSend;
      var i := 0;
      ghost var whole := AllSent([], SendView(), writes);
      assert writes[0..] == writes;
      while sendOff < |sendBody.value|
        invariant sendBody == old(sendBody) && sendBody.Some? && i <= |writes|
        invariant AllSent(frames, SendView(), writes[i..]) == whole
        decreases |sendBody.value| - sendOff
      {
        var r := PrepareFrame();
        if r.None? {
          break;
        }
        if i == |writes| || !writes[i] {
          break;
        }
        SentOne(SendView(), writes[i..], frames);
        assert writes[i..][1..] == writes[i + 1..];
        var n := |r.value.payload|;
        sendOff, connSend, streamSend := sendOff + n, connSend - n, streamSend - n;
        i := i + 1;
        frames := frames + [r.value];
      }
      NoneSent(frames, SendView(), writes[i..]);
      NothingBefore(DataFrames(SendLoop(old(SendView()), writes).sent));
      if sendOff >= |sendBody.value| {
        sendBody, sendOff := None, 0;
      }
    }

    /** One settings parameter. */
    method ApplyParameter(id: nat, val: nat) returns (ok: bool)
      modifies this`peerInitWindow, this`peerMaxFrame, this`streamSend
      ensures Changed(SendView(), ok) == ApplySetting(old(SendView()), Setting(id, val))
    {
      if id == 4 {
        if val > WINDOW_LIMIT {
          return false;
        }
        var next := streamSend + val - peerInitWindow;
        if next > WINDOW_LIMIT {
          return false;
        }
        peerInitWindow, streamSend := val, next;
      } else if id == 5 && 16384 <= val <= 16777215 {
        peerMaxFrame := if val > MAX_FRAME then MAX_FRAME else val;
      }
      return true;
    }

    /** h2_apply_peer_settings: 6-byte parameters until one is refused. */
    method ApplyPeerSettings(payload: seq<Byte>) returns (ok: bool)
      modifies this`peerInitWindow, this`peerMaxFrame, this`streamSend
      ensures Done(View(), ok) == Perform(old(View()), Applied(payload))
    {
      hide ApplySetting, ApplySettings, SettingsOf, GetU32;
      if |payload| % 6 != 0 {
        return true;
      }
      var i := 0;
      ghost var whole := ApplySettings(SendView(), SettingsOf(payload));
      assert payload[0..] == payload;
      while i + 6 <= |payload|
        invariant i <= |payload| && (|payload| - i) % 6 == 0
        invariant ApplySettings(SendView(), SettingsOf(payload[i..])) == whole
        decreases |payload| - i
      {
        NextSetting(SendView(), payload, i);
        var id := (payload[i] as nat) * 0x100 + payload[i + 1];
        var good := ApplyParameter(id, GetU32(payload[i + 2..]));
        if !good {
          return false;
        }
        i := i + 6;
      }
      NoSettings(SendView(), payload[i..]);
      return true;
    }

    /** h2_window_add on the window a WINDOW_UPDATE names. */
    method Credit(sid: nat, incr: nat) returns (ok: bool)
      modifies this`connSend, this`streamSend
      ensures Done(View(), ok) == Perform(old(View()), Credited(sid, incr))
    {
      ok := true;
      if incr != 0 && sid == 0 {
        if connSend + incr > WINDOW_LIMIT {
          return false;
        }
        connSend := connSend + incr;
      } else if incr != 0 && sid == 1 {
        if streamSend + incr > WINDOW_LIMIT {
          return false;
        }
        streamSend := streamSend + incr;
      }
    }

    /** The receive-window debit of a DATA frame, padding included. */
    method Debit(n: nat) returns (ok: bool)
      modifies this`connRecv, this`streamRecv
      ensures Done(View(), ok) == Perform(old(View()), Received(n))
    {
      if n > connRecv || n > streamRecv {
        return false;
      }
      connRecv, streamRecv := connRecv - n, streamRecv - n;
      return true;
    }

    /** The acknowledging part of the loop body, for the frame at the commit offset. */
    method Front(f: Frame, acks: seq<bool>) returns (ok: bool, left: seq<bool>, replies: seq<Frame>)
      modifies this
      ensures recvInited == old(recvInited) && replies == Reply(f)
      ensures var a := AtFront(old(View()), f, acks); View() == a.link && ok == a.ok && left == a.acks
    {
      ok, left, replies := true, acks, [];
      var next := feedOffset + FrameLength(f);
      if f.kind == SETTINGS && f.sid == 0 {
        if !IsAck(f) {
          if !applyValid || applyOff != feedOffset {
            ok := ApplyPeerSettings(f.payload);
            applyValid, applyOff := true, feedOffset;
          }
          replies := [Frame(SETTINGS, 1, 0, [])];
          var written := acks != [] && acks[0];
          left := if acks == [] then [] else acks[1..];
          if !written {
            return;
          }
          ackSent := true;
        }
      } else if f.kind == PING && f.sid == 0 {
        if !IsAck(f) && |f.payload| == 8 {
          replies := [Frame(PING, 1, 0, f.payload)];
        }
      } else if f.kind == WINDOW_UPDATE {
        if |f.payload| >= 4 {
          ok := Credit(f.sid, GetU31(f.payload));
        }
      } else if f.sid == 1 && f.kind == DATA && f.payload != [] {
        ok := Debit(|f.payload|);
      }
      feedOffset := next;
    }

    /** One frame of h2_feed_frames: effects only where the offset meets the commit offset. */
    method Visit(f: Frame, off: nat, st: RespState, acks: seq<bool>) returns (left: seq<bool>, more: seq<Frame>)
      requires st.Valid() && !Malformed(f)
      modifies this, st, st.dt, st.dt.e
      ensures st.Valid() && recvInited == old(recvInited)
      ensures off != old(feedOffset) ==>
                View() == old(View()) && left == acks && more == [] && st.View() == OnFrame(old(st.View()), f)
      ensures off == old(feedOffset) ==>
                var a := AtFront(old(View()), f, acks);
                && View() == a.link && left == a.acks && more == Reply(f)
                && st.View() == OnFrame(if a.ok then old(st.View()) else MarkEnd(old(st.View()), EndRst), f)
    {
      hide OnFrame, AtFront, MarkEnd, Reply, Malformed;
      left, more := acks, [];
      if off == feedOffset {
        var good;
        good, left, more := Front(f, acks);
        if !good {
          st.Mark(EndRst);
        }
      }
      st.Take(f);
    }

    /** h2_feed_frames with a connection: the whole buffer, effects only at the commit offset. */
    method Feed(buf: seq<Byte>, st: RespState, acks: seq<bool>) returns (ok: bool, replies: seq<Frame>)
      requires st.Valid()
      modifies this, st, st.dt, st.dt.e
      ensures st.Valid() && recvInited == old(recvInited)
      ensures replies == Replies(old(View()), 0, FramesOf(buf), acks)
      ensures Walked(st.View(), View(), ok) == Walk(old(st.View()), old(View()), 0, FramesOf(buf), acks)
    {
      hide OnFrame, Malformed, ReadFrame, AtFront, MarkEnd, Reply;
      var off, left := 0, acks;
      replies := [];
      assert buf[0..] == buf;
      ghost var whole := Walk(st.View(), View(), 0, FramesOf(buf), acks);
      ghost var wrote := Replies(View(), 0, FramesOf(buf), acks);
      while true
        invariant off <= |buf| && st.Valid() && recvInited == old(recvInited)
        invariant whole == Walk(st.View(), View(), off, FramesOf(buf[off..]), left)
        invariant wrote == replies + Replies(View(), off, FramesOf(buf[off..]), left)
        decreases |buf| - off
      {
        var r := FrameAtOffset(buf, off);
        if r.None? {
          return true, replies;
        }
        var f := r.value;
        assert buf[off..][FrameLength(f)..] == buf[off + FrameLength(f)..];
        if Malformed(f) {
          return false, replies;
        }
        var more;
        left, more := Visit(f, off, st, left);
        off := off + FrameLength(f);
        JoinReplies(replies, more, Replies(View(), off, FramesOf(buf[off..]), left));
        replies := replies + more;
      }
    }

    method InitWindows()
      modifies this
      ensures recvInited && View() == old(Inited(View(), recvInited))
    {
      if !recvInited {
        if peerInitWindow == 0 {
          peerInitWindow := DEFAULT_WINDOW;
        }
        if peerMaxFrame == 0 {
          peerMaxFrame := MAX_FRAME;
        }
        connRecv, streamRecv, recvInited := RECV_WINDOW, RECV_WINDOW, true;
      }
    }

    /** otlp_grpc_expect_complete on the accumulated body; `done` is its return value. */
    method ExpectComplete(full: seq<Byte>, acks: seq<bool>, writes: seq<bool>)
      returns (done: bool, frames: seq<Frame>, replies: seq<Frame>)
      modifies this
      ensures |full| > MAX_RESPONSE_WIRE ==>
                done && View() == old(View()) && recvInited == old(recvInited) && frames == replies == []
      ensures |full| <= MAX_RESPONSE_WIRE ==>
                var l := old(Inited(View(), recvInited));
                var w := Walk(FRESH, l, 0, FramesOf(full), acks);
                && recvInited
                && replies == Replies(l, 0, FramesOf(full), acks)
                && (done <==> !w.ok || w.resp.ended)
                && View() == (if w.ok then w.link.(flow := Flush(w.link.flow, writes).flow) else w.link)
                && frames == (if w.ok then DataFrames(Flush(w.link.flow, writes).sent) else [])
    {
      hide Walk, Flush, FramesOf, Replies;
      frames := [];
      if |full| > MAX_RESPONSE_WIRE {
        return true, [], [];
      }
      InitWindows();
      var st := new RespState();
      var ok;
      ok, replies := Feed(full, st, acks);
      if !ok {
        return true, [], replies;
      }
      frames := FlushPending(writes);
      done := st.ended;
    }

    /**
     The reads of a connection, one call after the other: the object goes through the session, writes exactly
     the DATA frames its flushes send, and answers exactly the PINGs whose effect is logged.
     */
    method Serve(rs: seq<Read>, ghost flow: Flow) returns (frames: seq<Frame>, replies: seq<Frame>)
      requires Inited(View(), recvInited) == Opened(flow).link
      modifies this
      ensures var s := RunSession(Opened(flow), rs);
              && Inited(View(), recvInited) == s.link
              && frames == DataFrames(SentIn(flow, s.trace))
              && Pongs(replies) == PongsOf(s.log)
    {
      hide *;
      var buf: seq<Byte> := [];
      frames, replies := [], [];
      ghost var s := Opened(flow);
      ServeStarts(flow, rs);
      for i := 0 to |rs|
        invariant Inited(View(), recvInited) == s.link && buf == s.buf
        invariant SessionInv(flow, s) && RunSession(s, rs[i..]) == RunSession(Opened(flow), rs)
        invariant frames == DataFrames(SentIn(flow, s.trace)) && Pongs(replies) == PongsOf(s.log)
      {
        buf := buf + rs[i].bytes;
        var done, more, answers := ExpectComplete(buf, rs[i].acks, rs[i].writes);
        ServeStep(flow, s, rs, i);
        ServeWrites(flow, s, rs[i], frames, replies, more, answers);
        IsInited(View(), recvInited);
        frames, replies := frames + more, replies + answers;
        s := OnRead(s, rs[i]);
      }
      ServeEnds(s, rs);
    }

    /**
     A whole export on a connection without a body: the DATA frames of the request and those the calls write carry
     the body, in order, but for what the connection still holds.
     */
    method Export(body: seq<Byte>, rs: seq<Read>) returns (frames: seq<Frame>, replies: seq<Frame>)
      requires sendBody.None? && sendOff == 0
      modifies this
      ensures Payloads(DataFrames(BuildChunks(body)) + frames) + Remaining(SendView()) == body
    {
      hide *;
      Begin(body);
      frames, replies := Serve(rs, Started(body));
      SessionConserves(body, rs);
      InitedRemaining(View(), recvInited);
      ViewFlow();
    }

    lemma ViewFlow()
      ensures View().flow == SendView()
    {
    }
  }

  lemma InitedRemaining(l: Link, inited: bool)
    ensures Remaining(Inited(l, inited).flow) == Remaining(l.flow)
  {
  }

  /** The bytes of DATA frames. */
  function Payloads(fs: seq<Frame>): (s: seq<Byte>) {
    if fs == [] then [] else fs[0].payload + Payloads(fs[1..])
  }

  lemma {:induction false} PayloadsAreCarried(cs: seq<Chunk>)
    ensures Payloads(DataFrames(cs)) == Carried(cs)
  {
    if cs != [] { PayloadsAreCarried(cs[1..]); }
  }

  /** In every session of a started request the DATA built and sent is the body without what remains. */
  lemma SessionConserves(body: seq<Byte>, rs: seq<Read>)
    ensures var s := RunSession(Opened(Started(body)), rs);
            var frames := DataFrames(SentIn(Started(body), s.trace));
            Payloads(DataFrames(BuildChunks(body)) + frames) + Remaining(s.link.flow) == body
  {
    hide *;
    var trace := RunSession(Opened(Started(body)), rs).trace;
    ExactlyOnce(Started(body), rs);
    RunConserves(body, trace);
    DataFramesAppend(BuildChunks(body), SentIn(Started(body), trace));
    PayloadsAreCarried(BuildChunks(body) + SentIn(Started(body), trace));
  }

  lemma JoinReplies(a: seq<Frame>, b: seq<Frame>, c: seq<Frame>)
    ensures a + (b + c) == (a + b) + c
  {
  }

  /** What tcp_client_connect leaves of a connection's fields. */
  function Connected(l: Link): (r: Link) {
    var flow :=
      if l.flow.pending.None? then
        l.flow.(conn := DEFAULT_WINDOW, stream := DEFAULT_WINDOW, init := DEFAULT_WINDOW, maxFrame := MAX_FRAME)
      else if l.flow.init == 0 then l.flow.(init := DEFAULT_WINDOW)
      else l.flow;
    Link(flow, 0, 0, false, 0, false, 0)
  }

  /** The windows expect_complete sets on a connection that has none yet. */
  function Inited(l: Link, inited: bool): (r: Link) {
    if inited then l
    else
      var flow := l.flow.(init := if l.flow.init == 0 then DEFAULT_WINDOW else l.flow.init,
                          maxFrame := if l.flow.maxFrame == 0 then MAX_FRAME else l.flow.maxFrame);
      l.(flow := flow, connRecv := RECV_WINDOW, streamRecv := RECV_WINDOW)
  }

  /** The end of a flush that has already written `frames`. */
  ghost function AllSent(frames: seq<Frame>, s: Flow, writes: seq<bool>): (Flow, seq<Frame>) {
    var r := SendLoop(s, writes);
    (r.flow, frames + DataFrames(r.sent))
  }

  lemma SentOne(s: Flow, writes: seq<bool>, frames: seq<Frame>)
    requires CanSend(s) && writes != [] && writes[0]
    ensures AllSent(frames, s, writes) == AllSent(frames + [DataFrame(NextChunk(s))], Debited(s), writes[1..])
  {
    hide NextChunk, ChunkSize, DataFrame;
    var sent := SendLoop(Debited(s), writes[1..]).sent;
    assert ([NextChunk(s)] + sent)[1..] == sent;
    var d := DataFrame(NextChunk(s));
    assert DataFrames([NextChunk(s)] + sent) == [d] + DataFrames(sent);
    assert frames + ([d] + DataFrames(sent)) == (frames + [d]) + DataFrames(sent);
  }

  lemma NoneSent(frames: seq<Frame>, s: Flow, writes: seq<bool>)
    requires !CanSend(s) || writes == [] || !writes[0]
    ensures AllSent(frames, s, writes) == (s, frames)
  {
    assert frames + DataFrames([]) == frames;
  }

  lemma NothingBefore(frames: seq<Frame>)
    ensures [] + frames == frames
  {
  }

  lemma NextSetting(s: Flow, p: seq<Byte>, i: nat)
    requires i + 6 <= |p|
    ensures var r := ApplySetting(s, Setting((p[i] as nat) * 0x100 + p[i + 1], GetU32(p[i + 2..])));
            ApplySettings(s, SettingsOf(p[i..])) == if r.ok then ApplySettings(r.flow, SettingsOf(p[i + 6..])) else r
  {
    hide ApplySetting, GetU32;
    assert p[i..][2..] == p[i + 2..] && p[i..][6..] == p[i + 6..];
    var first := Setting((p[i] as nat) * 0x100 + p[i + 1], GetU32(p[i + 2..]));
    assert SettingsOf(p[i..]) == [first] + SettingsOf(p[i + 6..]);
    assert ([first] + SettingsOf(p[i + 6..]))[1..] == SettingsOf(p[i + 6..]);
  }

  lemma NoSettings(s: Flow, p: seq<Byte>)
    requires |p| < 6
    ensures ApplySettings(s, SettingsOf(p)) == Changed(s, true)
  {
  }

  /** A call of expect_complete leaves the connection as the session step says. */
  lemma ExpectCompleteIsRead(s: Session, r: Read, c: nat)
    requires OnceUpTo(s.link, s.log, FramesOf(s.buf), c) && |s.buf + r.bytes| <= MAX_RESPONSE_WIRE
    ensures var buf := s.buf + r.bytes;
            var w := Walk(FRESH, s.link, 0, FramesOf(buf), r.acks);
            OnRead(s, r).link == (if w.ok then w.link.(flow := Flush(w.link.flow, r.writes).flow) else w.link)
  {
    hide Walk, FeedFrom, Flush, FramesOf, OnceUpTo;
    var buf := s.buf + r.bytes;
    var fs := FramesOf(buf);
    FramesGrow(s.buf, r.bytes);
    OnceGrows(s.link, s.log, FramesOf(s.buf), fs, c);
    CommittedPart(s.link, s.log, fs, c);
    FramesFrom(buf, c);
    WalkIsFeed(FRESH, s.link, fs, 0, c, r.acks);
    assert fs[..0] == [] && fs[0..] == fs;
    WalkOk(FRESH, s.link, 0, fs, r.acks);
  }

  // ---------------------------------------------------------- a connection through its reads

  lemma IsInited(l: Link, inited: bool)
    ensures inited ==> Inited(l, inited) == l
  {
  }

  lemma ServeStarts(flow: Flow, rs: seq<Read>)
    ensures SessionInv(flow, Opened(flow)) && rs[0..] == rs && Opened(flow).buf == []
    ensures DataFrames(SentIn(flow, Opened(flow).trace)) == [] && Pongs([]) == [] && PongsOf(Opened(flow).log) == []
  {
    ExactlyOnce(flow, []);
  }

  lemma ServeStep(flow: Flow, s: Session, rs: seq<Read>, i: nat)
    requires SessionInv(flow, s) && i < |rs|
    ensures SessionInv(flow, OnRead(s, rs[i])) && OnRead(s, rs[i]).buf == s.buf + rs[i].bytes
    ensures RunSession(OnRead(s, rs[i]), rs[i + 1..]) == RunSession(s, rs[i..])
  {
    hide SessionInv, FeedFrom, Flush, FramesOf;
    SessionStep(flow, s, rs[i]);
    assert rs[i..][0] == rs[i] && rs[i..][1..] == rs[i + 1..];
  }

  lemma ServeEnds(s: Session, rs: seq<Read>)
    ensures RunSession(s, rs[|rs|..]) == s
  {
  }

  /** One call writes what one read of the session sends and answers. */
  lemma ServeWrites(flow: Flow, s: Session, r: Read, frames: seq<Frame>, replies: seq<Frame>, more: seq<Frame>,
                    answers: seq<Frame>)
    requires SessionInv(flow, s) && frames == DataFrames(SentIn(flow, s.trace)) && Pongs(replies) == PongsOf(s.log)
    requires |s.buf + r.bytes| > MAX_RESPONSE_WIRE ==> more == answers == []
    requires |s.buf + r.bytes| <= MAX_RESPONSE_WIRE ==>
               var w := Walk(FRESH, s.link, 0, FramesOf(s.buf + r.bytes), r.acks);
               && more == (if w.ok then DataFrames(Flush(w.link.flow, r.writes).sent) else [])
               && answers == Replies(s.link, 0, FramesOf(s.buf + r.bytes), r.acks)
    ensures frames + more == DataFrames(SentIn(flow, OnRead(s, r).trace))
    ensures Pongs(replies + answers) == PongsOf(OnRead(s, r).log)
    ensures |s.buf + r.bytes| <= MAX_RESPONSE_WIRE ==>
              var w := Walk(FRESH, s.link, 0, FramesOf(s.buf + r.bytes), r.acks);
              OnRead(s, r).link == (if w.ok then w.link.(flow := Flush(w.link.flow, r.writes).flow) else w.link)
    ensures |s.buf + r.bytes| > MAX_RESPONSE_WIRE ==> OnRead(s, r).link == s.link
  {
    hide FeedFrom, Flush, FramesOf, OnceUpTo, AllWellFormed, RunFlow, Rest, SentIn, OpsOf, Walk, Replies, Pongs,
         PongsOf, DataFrames, Drained, NotFlush;
    var buf := s.buf + r.bytes;
    if |buf| > MAX_RESPONSE_WIRE {
      assert frames + [] == frames && replies + [] == replies;
    } else {
      var c: nat :| OnceUpTo(s.link, s.log, FramesOf(s.buf), c);
      ExpectCompleteIsRead(s, r, c);
      ReadAnswers(s, r, c);
      ReadSends(flow, s, r);
      var fs := FramesOf(buf);
      var fed := FeedFrom(s.link, Rest(buf, s.link.commit), r.acks);
      SameWalk(s, r, c);
      DataFramesAppend(SentIn(flow, s.trace), if AllWellFormed(fs) then Flush(fed.link.flow, r.writes).sent else []);
      NoDataFrames();
      PongsAppend(replies, answers);
      PongsOfAppend(s.log, fed.log);
    }
  }

  lemma NoDataFrames()
    ensures DataFrames([]) == []
  {
  }

  lemma {:induction false} DataFramesAppend(a: seq<Chunk>, b: seq<Chunk>)
    ensures DataFrames(a + b) == DataFrames(a) + DataFrames(b)
  {
    hide DataFrame;
    if a == [] {
      assert a + b == b;
    } else {
      DataFramesAppend(a[1..], b);
      assert (a + b)[0] == a[0] && (a + b)[1..] == a[1..] + b;
      var first := [DataFrame(a[0])];
      assert first + (DataFrames(a[1..]) + DataFrames(b)) == (first + DataFrames(a[1..])) + DataFrames(b);
    }
  }

  /** The pass over the whole buffer and the feed from the commit offset leave the same connection. */
  lemma SameWalk(s: Session, r: Read, c: nat)
    requires OnceUpTo(s.link, s.log, FramesOf(s.buf), c)
    ensures var fs := FramesOf(s.buf + r.bytes);
            var w := Walk(FRESH, s.link, 0, fs, r.acks);
            && w.link == FeedFrom(s.link, Rest(s.buf + r.bytes, s.link.commit), r.acks).link
            && (w.ok <==> AllWellFormed(fs))
  {
    hide FeedFrom, FramesOf, Walk, AllWellFormed, OnceUpTo;
    var buf := s.buf + r.bytes;
    var fs := FramesOf(buf);
    FramesGrow(s.buf, r.bytes);
    OnceGrows(s.link, s.log, FramesOf(s.buf), fs, c);
    CommittedPart(s.link, s.log, fs, c);
    RestIs(s.link, s.log, buf, c);
    NothingWalked(fs);
    WalkIsFeed(FRESH, s.link, fs, 0, c, r.acks);
    WalkOk(FRESH, s.link, 0, fs, r.acks);
  }

  lemma NothingWalked(fs: seq<Frame>)
    ensures fs[..0] == [] && fs[0..] == fs && Extent([]) == 0
  {
  }

  /** The PINGs answered by one call are those its read logs. */
  lemma ReadAnswers(s: Session, r: Read, c: nat)
    requires OnceUpTo(s.link, s.log, FramesOf(s.buf), c)
    ensures var buf := s.buf + r.bytes;
            Pongs(Replies(s.link, 0, FramesOf(buf), r.acks)) ==
            PongsOf(FeedFrom(s.link, Rest(buf, s.link.commit), r.acks).log)
  {
    hide FeedFrom, FramesOf, Replies, Pongs, PongsOf, AllWellFormed, OnceUpTo;
    var buf := s.buf + r.bytes;
    var fs := FramesOf(buf);
    FramesGrow(s.buf, r.bytes);
    OnceGrows(s.link, s.log, FramesOf(s.buf), fs, c);
    CommittedPart(s.link, s.log, fs, c);
    RestIs(s.link, s.log, buf, c);
    NothingWalked(fs);
    RepliesSkip(s.link, fs, 0, c, r.acks);
    RepliesAreEffects(s.link, fs[c..], r.acks);
  }
}
