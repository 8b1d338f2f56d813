/**
 The whole unary response: gRPC framing, the answer the client takes from the
 accumulated bytes, and that this answer is the peer's status and message for
 every transport shape the peer may choose.
 */
module GrpcResponse {
  import opened Bits
  import opened Wrappers
  import opened H2Frame
  import opened H2Response
  import opened HpackTable
  import opened HpackBlock
  import opened HpackWire
  import opened LengthPrefix

  // ---------------------------------------------------------- gRPC framing

  /** otlp_grpc_frame_wrap. */
  function Wrap(m: seq<Byte>): (s: seq<Byte>) {
    [0] + U32(|m|) + m
  }

  /** otlp_grpc_frame_unwrap. */
  function Unwrap(s: seq<Byte>): (r: Option<seq<Byte>>) {
    if |s| < 5 || s[0] != 0 then None
    else
      var n := GetU32(s[1..]);
      if n + 5 > |s| then None else Some(s[5..5 + n])
  }

  /** Unwrapping gives the message back, whatever follows the frame. */
  lemma UnwrapWrap(m: seq<Byte>, rest: seq<Byte>)
    requires |m| < 0x1_0000_0000
    ensures Unwrap(Wrap(m) + rest) == Some(m)
  {
    var s := Wrap(m) + rest;
    BytesOfWord(|m|);
    assert s[1..5] == U32(|m|);
    assert GetU32(s[1..]) == |m|;
    assert s[5..5 + |m|] == m;
  }

  // ---------------------------------------------------------- response_parse

  /** The return value, the status and the unwrapped body of response_parse. */
  datatype Answer = Answer(ok: bool, status: int, body: Option<seq<Byte>>)

  const FAILED: Answer := Answer(false, -1, None)

  /** From the response state to the answer. */
  function Conclude(r: Resp): (a: Answer) {
    if !r.ended then FAILED
    else if r.reason == EndGoaway || r.reason == EndRst then Answer(true, -1, None)
    else
      var status := if r.heard.haveStatus then r.heard.status else -1;
      if r.data == [] then Answer(true, status, None)
      else
        match Unwrap(r.data)
        case None => Answer(false, status, None)
        case Some(m) => Answer(true, status, Some(m))
  }

  ghost function Parse(buf: seq<Byte>): (a: Answer) {
    if |buf| > MAX_RESPONSE_WIRE then FAILED
    else
      match OnFrames(FRESH, FramesOf(buf))
      case None => FAILED
      case Some(r) => Conclude(r)
  }

  /** What response_parse makes of a frame list. */
  ghost function AnswerOf(c: Content): Answer {
    Conclude(OnContent(FRESH, c))
  }

  lemma ParseWire(fs: seq<Frame>)
    requires forall f :: f in fs ==> Printable(f)
    requires AllWellFormed(fs) && |WireOf(fs)| <= MAX_RESPONSE_WIRE
    ensures Parse(WireOf(fs)) == AnswerOf(ContentOf(fs, 0))
  {
    FramesRoundTrip(fs, []);
    assert FramesOf([]) == [];
    assert WireOf(fs) + [] == WireOf(fs) && fs + [] == fs;
    ParseIsContent(FRESH, fs);
  }

  // ---------------------------------------------------------- transport shape

  /** Blocks, body and end decide the answer; which GOAWAY came last does not. */
  ghost predicate SameContent(c: Content, d: Content) {
    c.blocks == d.blocks && c.body == d.body && c.end == d.end
  }

  lemma SameAnswer(c: Content, d: Content)
    requires SameContent(c, d)
    ensures AnswerOf(c) == AnswerOf(d)
  {
  }

  /** Frames that can be printed and fit the response buffer. */
  ghost predicate Sendable(fs: seq<Frame>) {
    (forall f :: f in fs ==> Printable(f)) && |WireOf(fs)| <= MAX_RESPONSE_WIRE
  }

  /** Malformed frames fail the parse; otherwise equal content gives equal answers. */
  lemma SameParse(fs: seq<Frame>, gs: seq<Frame>)
    requires Sendable(fs) && Sendable(gs) && (AllWellFormed(fs) <==> AllWellFormed(gs))
    requires AllWellFormed(fs) ==> SameContent(ContentOf(fs, 0), ContentOf(gs, 0))
    ensures Parse(WireOf(fs)) == Parse(WireOf(gs))
  {
    hide ContentOf, WireOf, Malformed, AnswerOf, SameContent;
    if AllWellFormed(fs) {
      ParseWire(fs);
      ParseWire(gs);
      SameAnswer(ContentOf(fs, 0), ContentOf(gs, 0));
    } else {
      ParseMalformed(fs);
      ParseMalformed(gs);
    }
  }

  lemma ParseMalformed(fs: seq<Frame>)
    requires Sendable(fs) && !AllWellFormed(fs)
    ensures Parse(WireOf(fs)) == FAILED
  {
    hide WireOf, Malformed, OnFrame;
    FramesRoundTrip(fs, []);
    assert FramesOf([]) == [];
    assert WireOf(fs) + [] == WireOf(fs) && fs + [] == fs;
    ParseIsContent(FRESH, fs);
  }

  /** Well-formed frames in the middle do not decide whether all are. */
  lemma FormedAround(a: seq<Frame>, x: seq<Frame>, b: seq<Frame>)
    requires AllWellFormed(x)
    ensures AllWellFormed(a + x + b) <==> AllWellFormed(a) && AllWellFormed(b)
  {
    hide Malformed;
    var s := a + x + b;
    assert forall i :: 0 <= i < |a| ==> s[i] == a[i];
    assert forall i :: 0 <= i < |x| ==> s[|a| + i] == x[i];
    assert forall i :: 0 <= i < |b| ==> s[|a| + |x| + i] == b[i];
  }

  /** Around any other frames, two stretches of the same content have the same answer. */
  lemma Interchangeable(a: seq<Frame>, x: seq<Frame>, y: seq<Frame>, b: seq<Frame>)
    requires Sendable(a + x + b) && Sendable(a + y + b) && AllWellFormed(x) && AllWellFormed(y)
    requires forall s: nat :: ContentOf(x, s) == ContentOf(y, s)
    ensures Parse(WireOf(a + x + b)) == Parse(WireOf(a + y + b))
  {
    hide ContentOf, WireOf, Malformed, Sendable, Parse;
    FormedAround(a, x, b);
    FormedAround(a, y, b);
    if AllWellFormed(a) && AllWellFormed(b) { ReplaceFrames(a, x, y, b, 0); }
    SameParse(a + x + b, a + y + b);
  }

  /** A stretch of frames may be replaced by any other that carries the same. */
  lemma ReplaceFrames(a: seq<Frame>, x: seq<Frame>, y: seq<Frame>, b: seq<Frame>, sid: nat)
    requires AllWellFormed(a) && AllWellFormed(x) && AllWellFormed(y) && AllWellFormed(b)
    requires var s := ContentOf(a, sid).goawaySid; ContentOf(x, s) == ContentOf(y, s)
    ensures AllWellFormed(a + x + b) && AllWellFormed(a + y + b)
    ensures ContentOf(a + x + b, sid) == ContentOf(a + y + b, sid)
  {
    hide FrameContent, Malformed;
    ContentAppend(a, x, sid);
    ContentAppend(a, y, sid);
    ContentAppend(a + x, b, sid);
    ContentAppend(a + y, b, sid);
  }

  lemma ContentOfOne(f: Frame, sid: nat)
    requires !Malformed(f)
    ensures AllWellFormed([f]) && ContentOf([f], sid) == FrameContent(f, sid)
  {
    var c := FrameContent(f, sid);
    assert c.blocks + [] == c.blocks && c.body + [] == c.body;
  }

  /** Frames that say nothing about stream 1: settings, ping, window update, other streams, unknown types. */
  predicate Noise(f: Frame) {
    f.kind != GOAWAY && !(f.kind == RST_STREAM && OnStream(f)) && !IsBlock(f) && !IsData(f)
  }

  lemma InsertNoise(a: seq<Frame>, f: Frame, b: seq<Frame>)
    requires Noise(f) && Sendable(a + [f] + b) && Sendable(a + b)
    ensures Parse(WireOf(a + [f] + b)) == Parse(WireOf(a + b))
  {
    hide WireOf, Sendable, Parse;
    forall s: nat ensures AllWellFormed([f]) && ContentOf([f], s) == ContentOf([], s) { ContentOfOne(f, s); }
    assert a + [] + b == a + b;
    Interchangeable(a, [f], [], b);
  }

  /** A DATA frame may be cut in two, each part padded or not. */
  lemma RecutData(a: seq<Frame>, f: Frame, g: Frame, h: Frame, b: seq<Frame>)
    requires Sendable(a + [f] + b) && Sendable(a + [g, h] + b)
    requires !Malformed(f) && !Malformed(g) && !Malformed(h) && IsData(f) && IsData(g) && IsData(h)
    requires StripPadding(f).value == StripPadding(g).value + StripPadding(h).value
    requires EndStream(f) == EndStream(h) && !EndStream(g)
    ensures Parse(WireOf(a + [f] + b)) == Parse(WireOf(a + [g, h] + b))
  {
    hide WireOf, Sendable, Parse, StripPadding;
    forall s: nat ensures AllWellFormed([g, h]) && ContentOf([f], s) == ContentOf([g, h], s) {
      ContentOfOne(f, s);
      ContentOfOne(g, s);
      ContentOfOne(h, s);
      ContentAppend([g], [h], s);
      assert [g] + [h] == [g, h];
    }
    ContentOfOne(f, 0);
    Interchangeable(a, [f], [g, h], b);
  }

  /** The same kind of frame on the same stream, with the same end and the same fragment or bytes. */
  predicate SameCargo(f: Frame, g: Frame) {
    && f.kind == g.kind && f.sid == g.sid && EndStream(f) == EndStream(g)
    && (IsBlock(f) ==> BlockOf(f) == BlockOf(g))
    && (IsData(f) ==> StripPadding(f) == StripPadding(g))
    && (f.kind == GOAWAY ==> f.payload == g.payload)
  }

  /** Padding or priority fields of a frame may be chosen differently. */
  lemma RepadFrame(a: seq<Frame>, f: Frame, g: Frame, b: seq<Frame>)
    requires Sendable(a + [f] + b) && Sendable(a + [g] + b) && SameCargo(f, g)
    ensures Parse(WireOf(a + [f] + b)) == Parse(WireOf(a + [g] + b))
  {
    hide WireOf, Sendable, Parse, StripPadding, BlockOf, ContentOf;
    if !Malformed(f) {
      forall s: nat ensures AllWellFormed([f]) && AllWellFormed([g]) && ContentOf([f], s) == ContentOf([g], s) {
        ContentOfOne(f, s);
        ContentOfOne(g, s);
      }
      Interchangeable(a, [f], [g], b);
    } else {
      assert (a + [f] + b)[|a|] == f && (a + [g] + b)[|a|] == g;
      ParseMalformed(a + [f] + b);
      ParseMalformed(a + [g] + b);
    }
  }

  // ---------------------------------------------------------- the peer's choices

  /** A payload behind its pad length and before its padding, if it is padded. */
  function WithPadding(s: seq<Byte>, pad: Option<seq<Byte>>): (p: seq<Byte>)
    requires pad.Some? ==> |pad.value| < 256
  {
    if pad.None? then s else [|pad.value|] + s + pad.value
  }

  /** A DATA frame of stream 1. */
  function DataWith(s: seq<Byte>, end: bool, pad: Option<seq<Byte>>): (f: Frame)
    requires pad.Some? ==> |pad.value| < 256
  {
    Frame(DATA, (if end then 1 else 0) + (if pad.Some? then 8 else 0), 1, WithPadding(s, pad))
  }

  /** A HEADERS frame of stream 1 with a whole block; the priority fields take five bytes. */
  function HeadersWith(s: seq<Byte>, end: bool, pad: Option<seq<Byte>>, priority: Option<seq<Byte>>): (f: Frame)
    requires (pad.Some? ==> |pad.value| < 256) && (priority.Some? ==> |priority.value| == 5)
  {
    var flags := (if end then 1 else 0) + 4 + (if pad.Some? then 8 else 0) + (if priority.Some? then 32 else 0);
    Frame(HEADERS, flags, 1, WithPadding((if priority.Some? then priority.value else []) + s, pad))
  }

  lemma PaddingStrips(f: Frame, s: seq<Byte>, pad: Option<seq<Byte>>)
    requires (pad.Some? ==> |pad.value| < 256) && f.payload == WithPadding(s, pad) && (Padded(f) <==> pad.Some?)
    ensures StripPadding(f) == Some(s)
  {
    if pad.Some? { assert f.payload[1..|f.payload| - |pad.value|] == s; }
  }

  /** Any padding of DATA gives the same answer. */
  lemma RepadData(a: seq<Frame>, s: seq<Byte>, end: bool, p: Option<seq<Byte>>, q: Option<seq<Byte>>, b: seq<Frame>)
    requires (p.Some? ==> |p.value| < 256) && (q.Some? ==> |q.value| < 256)
    requires Sendable(a + [DataWith(s, end, p)] + b) && Sendable(a + [DataWith(s, end, q)] + b)
    ensures Parse(WireOf(a + [DataWith(s, end, p)] + b)) == Parse(WireOf(a + [DataWith(s, end, q)] + b))
  {
    hide WireOf, Sendable, Parse, StripPadding, WithPadding;
    PaddingStrips(DataWith(s, end, p), s, p);
    PaddingStrips(DataWith(s, end, q), s, q);
    RepadFrame(a, DataWith(s, end, p), DataWith(s, end, q), b);
  }

  lemma HeadersBlock(s: seq<Byte>, end: bool, pad: Option<seq<Byte>>, priority: Option<seq<Byte>>)
    requires (pad.Some? ==> |pad.value| < 256) && (priority.Some? ==> |priority.value| == 5)
    ensures BlockOf(HeadersWith(s, end, pad, priority)) == Some(s)
    ensures EndStream(HeadersWith(s, end, pad, priority)) == end
  {
    hide StripPadding, WithPadding;
    var body := (if priority.Some? then priority.value else []) + s;
    PaddingStrips(HeadersWith(s, end, pad, priority), body, pad);
    assert if priority.Some? then body[5..] == s else body == s;
  }

  /** Any padding and any priority fields of HEADERS give the same answer. */
  lemma RepadHeaders(a: seq<Frame>, s: seq<Byte>, end: bool, p: Option<seq<Byte>>, x: Option<seq<Byte>>,
                     q: Option<seq<Byte>>, y: Option<seq<Byte>>, b: seq<Frame>)
    requires (p.Some? ==> |p.value| < 256) && (q.Some? ==> |q.value| < 256)
    requires (x.Some? ==> |x.value| == 5) && (y.Some? ==> |y.value| == 5)
    requires Sendable(a + [HeadersWith(s, end, p, x)] + b) && Sendable(a + [HeadersWith(s, end, q, y)] + b)
    ensures Parse(WireOf(a + [HeadersWith(s, end, p, x)] + b)) == Parse(WireOf(a + [HeadersWith(s, end, q, y)] + b))
  {
    hide WireOf, Sendable, Parse, BlockOf, WithPadding;
    HeadersBlock(s, end, p, x);
    HeadersBlock(s, end, q, y);
    RepadFrame(a, HeadersWith(s, end, p, x), HeadersWith(s, end, q, y), b);
  }

  /** Once the stream has ended, a GOAWAY with any last-stream id changes nothing. */
  lemma AppendGoaway(fs: seq<Frame>, f: Frame)
    requires f.kind == GOAWAY && Sendable(fs) && Sendable(fs + [f])
    requires AllWellFormed(fs) ==> ContentOf(fs, 0).end != NoEnd
    ensures Parse(WireOf(fs + [f])) == Parse(WireOf(fs))
  {
    hide WireOf, Sendable, Parse, ContentOf;
    ContentOfOne(f, 0);
    FormedAround(fs, [f], []);
    assert fs + [f] + [] == fs + [f];
    if AllWellFormed(fs) {
      var c := ContentOf(fs, 0);
      ContentOfOne(f, c.goawaySid);
      ContentAppend(fs, [f], 0);
      assert c.blocks + [] == c.blocks && c.body + [] == c.body;
    }
    SameParse(fs + [f], fs);
  }

  /** Before the end, a GOAWAY that keeps stream 1 alive changes nothing either. */
  lemma InsertDrain(a: seq<Frame>, f: Frame, b: seq<Frame>)
    requires f.kind == GOAWAY && |f.payload| >= 8 && GetU31(f.payload) >= 1
    requires Sendable(a + [f] + b) && Sendable(a + b)
    requires forall i :: 0 <= i < |b| && b[i].kind == GOAWAY ==> |b[i].payload| >= 8
    ensures Parse(WireOf(a + [f] + b)) == Parse(WireOf(a + b))
  {
    hide WireOf, Sendable, Parse, ContentOf, GetU31;
    ContentOfOne(f, 0);
    FormedAround(a, [f], b);
    FormedAround(a, [], b);
    assert a + [] + b == a + b;
    if AllWellFormed(a) && AllWellFormed(b) { DrainContent(a, f, b); }
    SameParse(a + [f] + b, a + b);
  }

  lemma DrainContent(a: seq<Frame>, f: Frame, b: seq<Frame>)
    requires AllWellFormed(a) && AllWellFormed(b) && f.kind == GOAWAY
    requires |f.payload| >= 8 && GetU31(f.payload) >= 1
    requires forall i :: 0 <= i < |b| && b[i].kind == GOAWAY ==> |b[i].payload| >= 8
    ensures AllWellFormed(a + [f] + b) && AllWellFormed(a + b)
    ensures SameContent(ContentOf(a + [f] + b, 0), ContentOf(a + b, 0))
  {
    var s, t := ContentOf(a, 0).goawaySid, GetU31(f.payload);
    ContentOfOne(f, s);
    ContentAppend(a, [f], 0);
    ContentAppend(a + [f], b, 0);
    ContentAppend(a, b, 0);
    SidDoesNotMatter(b, s, t);
    var c := ContentOf(a, 0);
    assert c.blocks + [] == c.blocks && c.body + [] == c.body;
  }

  lemma {:induction false} SidDoesNotMatter(fs: seq<Frame>, s: nat, t: nat)
    requires AllWellFormed(fs) && forall i :: 0 <= i < |fs| && fs[i].kind == GOAWAY ==> |fs[i].payload| >= 8
    ensures SameContent(ContentOf(fs, s), ContentOf(fs, t))
    decreases |fs|
  {
    if fs != [] && fs[0].kind != GOAWAY { SidDoesNotMatter(fs[1..], s, t); }
  }

  // ---------------------------------------------------------- end to end

  /** The header blocks of a response, as representations of RFC 7541. */
  ghost function BlocksBytes(rss: seq<seq<Rep>>): (bs: seq<seq<Byte>>) {
    if rss == [] then [] else [BlockBytes(rss[0])] + BlocksBytes(rss[1..])
  }

  /** The standard's meaning of the blocks of one connection, in order. */
  function RunBlocks(rss: seq<seq<Rep>>, t: RfcTable): (d: RfcRun)
    decreases |rss|
  {
    if rss == [] then RfcOk([], t, Whole)
    else
      match RunRfc(rss[0], t)
      case RfcError => RfcError
      case RfcOk(hs, t', client) =>
        match RunBlocks(rss[1..], t')
        case RfcError => RfcError
        case RfcOk(hs', t'', client') => RfcOk(hs + hs', t'', if client.Whole? then client' else client)
  }

  ghost predicate BlocksLegal(rss: seq<seq<Rep>>) {
    forall rs :: rs in rss ==> forall r :: r in rs ==> RepLegal(r)
  }

  lemma {:induction false} OnHeadersAppend(r: Heard, a: seq<Header>, b: seq<Header>)
    ensures OnHeaders(r, a + b) == OnHeaders(OnHeaders(r, a), b)
    decreases |a|
  {
    hide OnHeader;
    if a == [] {
      assert a + b == b;
    } else {
      assert (a + b)[1..] == a[1..] + b;
      OnHeadersAppend(OnHeader(r, a[0]), a[1..], b);
    }
  }

  lemma {:induction false} OnHeadersFrame(r: Heard, s: Heard, hs: seq<Header>)
    requires r.status == s.status && r.haveStatus == s.haveStatus
    ensures var a, b := OnHeaders(r, hs), OnHeaders(s, hs);
            a.status == b.status && a.haveStatus == b.haveStatus
    decreases |hs|
  {
    hide SameText, CString, Atoi;
    if hs != [] { OnHeadersFrame(OnHeader(r, hs[0]), OnHeader(s, hs[0]), hs[1..]); }
  }

  /** Decoding the blocks tells the callback exactly the standard's header list. */
  lemma {:induction false} BlocksHeard(rss: seq<seq<Rep>>, t: RfcTable, r: Heard)
    requires BlocksLegal(rss) && Agree(t.entries, r.table)
    requires RunBlocks(rss, t).RfcOk? && RunBlocks(rss, t).client.Whole?
    ensures var d, a := OnBlocks(r, BlocksBytes(rss)), OnHeaders(r, RunBlocks(rss, t).headers);
            && d.status == a.status && d.haveStatus == a.haveStatus && (d.hpackOk <==> r.hpackOk)
    decreases |rss|
  {
    hide BlockBytes, ReadBlock, RunRfc, OnHeader, RepLegal, Agree;
    if rss != [] {
      var first := RunRfc(rss[0], t);
      assert rss[0] in rss && forall rs :: rs in rss[1..] ==> rs in rss;
      WireAgrees(rss[0], t, r.table);
      var d := ReadBlock(BlockBytes(rss[0]), r.table);
      var mid := OnBlock(r, BlockBytes(rss[0]));
      BlocksHeard(rss[1..], first.table, mid);
      var rest := RunBlocks(rss[1..], first.table).headers;
      OnHeadersAppend(r, first.headers, rest);
      OnHeadersFrame(mid, OnHeaders(r, first.headers), rest);
    }
  }

  /** The status of a response: its last grpc-status header, -1 when there is none. */
  function StatusOf(hs: seq<Header>): (s: int) {
    OnHeaders(FRESH.heard, hs).status
  }

  /**
   However the peer represents its headers, cuts and pads its frames and
   interleaves others: when the stream ends normally the client answers with the
   peer's status and with its message, if it sent one.
   */
  lemma ResponseReceived(fs: seq<Frame>, rss: seq<seq<Rep>>, m: Option<seq<Byte>>)
    requires Sendable(fs) && AllWellFormed(fs) && (m.Some? ==> |m.value| < 0x1_0000_0000)
    requires BlocksLegal(rss)
    requires var d := RunBlocks(rss, RfcTable([], 4096)); d.RfcOk? && d.client.Whole?
    requires var c := ContentOf(fs, 0);
             && c.blocks == BlocksBytes(rss) && c.body == (if m.Some? then Wrap(m.value) else [])
             && (c.end == EndHeaders || c.end == EndData)
    ensures Parse(WireOf(fs)) == Answer(true, StatusOf(RunBlocks(rss, RfcTable([], 4096)).headers), m)
  {
    hide ContentOf, WireOf, RunBlocks, BlocksBytes, OnHeader;
    ParseWire(fs);
    var hs := RunBlocks(rss, RfcTable([], 4096)).headers;
    BlocksHeard(rss, RfcTable([], 4096), FRESH.heard);
    NoStatusIsMinusOne(FRESH.heard, hs);
    if m.Some? {
      UnwrapWrap(m.value, []);
      assert Wrap(m.value) + [] == Wrap(m.value) && [] + Wrap(m.value) == Wrap(m.value);
    }
  }

  // ---------------------------------------------------------- what the status is

  predicate IsStatus(h: Header) {
    SameText(CString(h.name), Ascii("grpc-status"))
  }

  lemma {:induction false} DigitsAppend(s: seq<Byte>, d: Byte, acc: nat)
    requires IsDigit(d) && forall i :: 0 <= i < |s| ==> IsDigit(s[i])
    ensures DigitsValue(s + [d], acc) == 10 * DigitsValue(s, acc) + (d - 48)
    decreases |s|
  {
    if s == [] {
      assert (s + [d])[1..] == [];
    } else {
      assert (s + [d])[0] == s[0] && (s + [d])[1..] == s[1..] + [d];
      DigitsAppend(s[1..], d, acc * 10 + (s[0] - 48));
    }
  }

  /** Reading a decimal number back with atoi. */
  lemma {:induction false} AtoiDecimal(n: nat)
    ensures DigitsValue(Decimal(n), 0) == n && Atoi(CString(Decimal(n))) == n
  {
    if n < 10 {
      assert Decimal(n)[1..] == [];
    } else {
      AtoiDecimal(n / 10);
      DigitsAppend(Decimal(n / 10), 48 + n % 10, 0);
    }
    NoZeros(Decimal(n));
  }

  lemma {:induction false} NoZeros(s: seq<Byte>)
    requires forall i :: 0 <= i < |s| ==> s[i] != 0
    ensures CString(s) == s
  {
    if s != [] {
      NoZeros(s[1..]);
      assert s == [s[0]] + s[1..];
    }
  }

  lemma {:induction false} OtherHeaders(r: Heard, hs: seq<Header>)
    requires forall i :: 0 <= i < |hs| ==> !IsStatus(hs[i])
    ensures OnHeaders(r, hs) == r
    decreases |hs|
  {
    hide SameText, CString, Atoi, Ascii;
    if hs != [] { OtherHeaders(r, hs[1..]); }
  }

  /** The status of a response is the number its last grpc-status header spells, and -1 when it has none. */
  lemma StatusIsLast(before: seq<Header>, h: Header, after: seq<Header>, n: nat)
    requires n < 0x8000_0000 && IsStatus(h) && h.value == Decimal(n)
    requires forall i :: 0 <= i < |after| ==> !IsStatus(after[i])
    ensures StatusOf(before + [h] + after) == n
    ensures StatusOf(after) == -1
  {
    hide SameText, CString, Atoi, Ascii, Decimal;
    AtoiDecimal(n);
    OnHeadersAppend(FRESH.heard, before + [h], after);
    OnHeadersAppend(FRESH.heard, before, [h]);
    var r := OnHeaders(FRESH.heard, before);
    assert OnHeaders(r, [h]) == OnHeaders(OnHeader(r, h), [h][1..]);
    OtherHeaders(OnHeaders(FRESH.heard, before + [h]), after);
    OtherHeaders(FRESH.heard, after);
  }

  lemma {:induction false} NoStatusIsMinusOne(r: Heard, hs: seq<Header>)
    requires !r.haveStatus ==> r.status == -1
    ensures var d := OnHeaders(r, hs); !d.haveStatus ==> d.status == -1
    decreases |hs|
  {
    hide SameText, CString, Atoi;
    if hs != [] { NoStatusIsMinusOne(OnHeader(r, hs[0]), hs[1..]); }
  }
}
