/**
 The response side of h2_feed_frames: what the frames of a response mean, and
 that the meaning does not depend on how the peer cut, padded or interleaved them.
 */
module H2Response {
  import opened Bits
  import opened Wrappers
  import opened H2Frame
  import opened HpackTable
  import opened HpackBlock

  datatype End = NoEnd | EndHeaders | EndData | EndGoaway | EndRst

  /** What the header callbacks have told so far. */
  datatype Heard = Heard(status: int, haveStatus: bool, hpackOk: bool, table: seq<Header>)

  /** h2_resp_state; the diagnostic fields are not modelled. */
  datatype Resp = Resp(heard: Heard, data: seq<Byte>, ended: bool, reason: End, goawaySid: nat)

  const FRESH: Resp := Resp(Heard(-1, false, true, []), [], false, NoEnd, 0)

  // ---------------------------------------------------------- headers

  /** A C string ends at the first zero byte. */
  function CString(s: seq<Byte>): (r: seq<Byte>)
    ensures r <= s && 0 !in r
  {
    if s == [] || s[0] == 0 then [] else [s[0]] + CString(s[1..])
  }

  function LowerByte(b: Byte): (r: Byte) {
    if 65 <= b <= 90 then b + 32 else b
  }

  /** strcasecmp(a, b) == 0. */
  predicate SameText(a: seq<Byte>, b: seq<Byte>) {
    |a| == |b| && forall i :: 0 <= i < |a| ==> LowerByte(a[i]) == LowerByte(b[i])
  }

  predicate IsDigit(b: Byte) {
    48 <= b <= 57
  }

  predicate IsSpace(b: Byte) {
    b == 32 || 9 <= b <= 13
  }

  function DigitsValue(s: seq<Byte>, acc: nat): (v: nat)
    decreases |s|
  {
    if s == [] || !IsDigit(s[0]) then acc else DigitsValue(s[1..], acc * 10 + (s[0] - 48))
  }

  /** atoi. */
  function Atoi(s: seq<Byte>): (v: int)
  {
    if s == [] then 0
    else if IsSpace(s[0]) then Atoi(s[1..])
    else if s[0] == 45 then 0 - (DigitsValue(s[1..], 0) as int)
    else if s[0] == 43 then DigitsValue(s[1..], 0)
    else DigitsValue(s, 0)
  }

  /** h2_hdr_cb. */
  function OnHeader(r: Heard, h: Header): (r': Heard) {
    if SameText(CString(h.name), Ascii("grpc-status"))
    then r.(status := Atoi(CString(h.value)), haveStatus := true)
    else r
  }

  function OnHeaders(r: Heard, hs: seq<Header>): (r': Heard)
    decreases |hs|
  {
    if hs == [] then r else OnHeaders(OnHeader(r, hs[0]), hs[1..])
  }

  ghost function OnBlock(r: Heard, block: seq<Byte>): (r': Heard) {
    var d := ReadBlock(block, r.table);
    OnHeaders(r, d.headers).(table := d.table, hpackOk := r.hpackOk && d.end.Whole?)
  }

  // ---------------------------------------------------------- frames

  predicate OnStream(f: Frame) {
    f.sid == 1
  }

  /** Removing the pad length byte and the padding; `None` when they do not fit. */
  function StripPadding(f: Frame): (r: Option<seq<Byte>>) {
    if !Padded(f) then Some(f.payload)
    else if |f.payload| < 1 || |f.payload| < 1 + (f.payload[0] as nat) then None
    else Some(f.payload[1..|f.payload| - f.payload[0]])
  }

  /** The header block fragment of a HEADERS or CONTINUATION frame. */
  function BlockOf(f: Frame): (r: Option<seq<Byte>>) {
    if f.kind == CONTINUATION then Some(f.payload)
    else
      match StripPadding(f)
      case None => None
      case Some(b) => if !Priority(f) then Some(b) else if |b| < 5 then None else Some(b[5..])
  }

  predicate IsBlock(f: Frame) {
    OnStream(f) && (f.kind == HEADERS || f.kind == CONTINUATION)
  }

  predicate IsData(f: Frame) {
    OnStream(f) && f.kind == DATA
  }

  /** A frame whose padding or priority fields do not fit fails the parse. */
  predicate Malformed(f: Frame) {
    (IsBlock(f) && BlockOf(f).None?) || (IsData(f) && StripPadding(f).None?)
  }

  function MarkEnd(r: Resp, e: End): (r': Resp) {
    r.(ended := true, reason := if r.reason == NoEnd then e else r.reason)
  }

  function GoawaySid(f: Frame, sid: nat): (s: nat) {
    if |f.payload| >= 8 then GetU31(f.payload) else sid
  }

  /** One complete frame, the acknowledgement side effects aside. */
  ghost function OnFrame(r: Resp, f: Frame): (r': Resp)
    requires !Malformed(f)
  {
    if f.kind == GOAWAY then
      var g := r.(goawaySid := GoawaySid(f, r.goawaySid));
      if g.goawaySid < 1 && g.reason == NoEnd then MarkEnd(g, EndGoaway) else g
    else if f.kind == RST_STREAM && OnStream(f) then MarkEnd(r, EndRst)
    else if IsBlock(f) then
      var b := r.(heard := OnBlock(r.heard, BlockOf(f).value));
      if EndStream(f) then MarkEnd(b, EndHeaders) else b
    else if IsData(f) then
      var d := r.(data := r.data + StripPadding(f).value);
      if EndStream(f) then MarkEnd(d, EndData) else d
    else r
  }

  /** All frames in order; `None` when a malformed one stops the parse. */
  ghost function OnFrames(r: Resp, fs: seq<Frame>): (r': Option<Resp>)
    decreases |fs|
  {
    if fs == [] then Some(r)
    else if Malformed(fs[0]) then None
    else OnFrames(OnFrame(r, fs[0]), fs[1..])
  }

  // ---------------------------------------------------------- content

  /** What a frame list carries: header blocks, body bytes, and how the stream first ended. */
  datatype Content = Content(blocks: seq<seq<Byte>>, body: seq<Byte>, end: End, goawaySid: nat)

  function FrameContent(f: Frame, sid: nat): (c: Content)
    requires !Malformed(f)
  {
    if f.kind == GOAWAY then
      var s := GoawaySid(f, sid);
      Content([], [], if s < 1 then EndGoaway else NoEnd, s)
    else if f.kind == RST_STREAM && OnStream(f) then Content([], [], EndRst, sid)
    else if IsBlock(f) then Content([BlockOf(f).value], [], if EndStream(f) then EndHeaders else NoEnd, sid)
    else if IsData(f) then Content([], StripPadding(f).value, if EndStream(f) then EndData else NoEnd, sid)
    else Content([], [], NoEnd, sid)
  }

  function Join(a: Content, b: Content): (c: Content) {
    Content(a.blocks + b.blocks, a.body + b.body, if a.end == NoEnd then b.end else a.end, b.goawaySid)
  }

  predicate AllWellFormed(fs: seq<Frame>) {
    forall i :: 0 <= i < |fs| ==> !Malformed(fs[i])
  }

  /** Concatenating, over the frames, what each one carries. */
  function ContentOf(fs: seq<Frame>, sid: nat): (c: Content)
    requires AllWellFormed(fs)
    decreases |fs|
  {
    if fs == [] then Content([], [], NoEnd, sid)
    else
      var c := FrameContent(fs[0], sid);
      Join(c, ContentOf(fs[1..], c.goawaySid))
  }

  ghost function OnBlocks(r: Heard, blocks: seq<seq<Byte>>): (r': Heard)
    decreases |blocks|
  {
    if blocks == [] then r else OnBlocks(OnBlock(r, blocks[0]), blocks[1..])
  }

  /** The response state that a content leads to. */
  ghost function OnContent(r: Resp, c: Content): (r': Resp) {
    Resp(OnBlocks(r.heard, c.blocks), r.data + c.body, r.ended || c.end != NoEnd,
         if r.reason == NoEnd then c.end else r.reason, c.goawaySid)
  }

  /** stream_ended holds exactly when an end reason is set. */
  predicate Consistent(r: Resp) {
    r.ended <==> r.reason != NoEnd
  }

  lemma OnFrameIsContent(r: Resp, f: Frame)
    requires !Malformed(f) && Consistent(r)
    ensures OnFrame(r, f) == OnContent(r, FrameContent(f, r.goawaySid))
  {
    hide OnBlock, StripPadding, BlockOf, GetU31;
    assert r.data + [] == r.data;
    if IsBlock(f) {
      var b := BlockOf(f).value;
      assert OnBlocks(r.heard, [b]) == OnBlocks(OnBlock(r.heard, b), []) == OnBlock(r.heard, b);
    }
  }

  lemma {:induction false} OnBlocksAppend(r: Heard, a: seq<seq<Byte>>, b: seq<seq<Byte>>)
    ensures OnBlocks(r, a + b) == OnBlocks(OnBlocks(r, a), b)
    decreases |a|
  {
    hide OnBlock;
    if a == [] {
      assert a + b == b;
    } else {
      assert (a + b)[1..] == a[1..] + b;
      OnBlocksAppend(OnBlock(r, a[0]), a[1..], b);
    }
  }

  lemma OnContentJoin(r: Resp, a: Content, b: Content)
    ensures OnContent(OnContent(r, a), b) == OnContent(r, Join(a, b))
  {
    hide OnBlocks;
    OnBlocksAppend(r.heard, a.blocks, b.blocks);
    Regroup(r.data, a.body, b.body);
  }

  /** The parser is a function of the content alone, and fails exactly on a malformed frame. */
  lemma {:induction false} ParseIsContent(r: Resp, fs: seq<Frame>)
    requires Consistent(r)
    ensures OnFrames(r, fs).Some? <==> AllWellFormed(fs)
    ensures AllWellFormed(fs) ==> OnFrames(r, fs).value == OnContent(r, ContentOf(fs, r.goawaySid))
    decreases |fs|
  {
    hide OnFrame, FrameContent, OnContent, Join, Malformed;
    if fs == [] {
      NothingRead(r);
    } else if !Malformed(fs[0]) {
      OnFrameIsContent(r, fs[0]);
      ContentKeeps(r, FrameContent(fs[0], r.goawaySid));
      ParseIsContent(OnFrame(r, fs[0]), fs[1..]);
      assert AllWellFormed(fs[1..]) ==> AllWellFormed(fs);
      if AllWellFormed(fs) {
        var c := FrameContent(fs[0], r.goawaySid);
        OnContentJoin(r, c, ContentOf(fs[1..], c.goawaySid));
      }
    }
  }

  lemma ContentKeeps(r: Resp, c: Content)
    requires Consistent(r)
    ensures OnContent(r, c).goawaySid == c.goawaySid && Consistent(OnContent(r, c))
  {
  }

  lemma NothingRead(r: Resp)
    ensures OnContent(r, Content([], [], NoEnd, r.goawaySid)) == r
  {
    assert r.data + [] == r.data;
  }

  /** However many frames follow, stream_ended holds exactly when a reason is set, and the first reason stays. */
  lemma FirstEndStays(r: Resp, fs: seq<Frame>)
    requires Consistent(r) && AllWellFormed(fs)
    ensures OnFrames(r, fs).Some?
    ensures var d := OnFrames(r, fs).value; Consistent(d) && (r.reason != NoEnd ==> d.ended && d.reason == r.reason)
  {
    hide OnFrames, ContentOf, OnBlocks;
    ParseIsContent(r, fs);
    ContentKeeps(r, ContentOf(fs, r.goawaySid));
  }

  /** Content of a concatenation: the frames may be cut into two lists anywhere. */
  lemma {:induction false} ContentAppend(a: seq<Frame>, b: seq<Frame>, sid: nat)
    requires AllWellFormed(a) && AllWellFormed(b)
    ensures AllWellFormed(a + b)
    ensures var c := ContentOf(a, sid); ContentOf(a + b, sid) == Join(c, ContentOf(b, c.goawaySid))
    decreases |a|
  {
    hide FrameContent, Malformed;
    if a == [] {
      assert a + b == b;
      JoinEmpty(ContentOf(b, sid), sid);
    } else {
      var c := FrameContent(a[0], sid);
      assert (a + b)[1..] == a[1..] + b;
      ContentAppend(a[1..], b, c.goawaySid);
      var d := ContentOf(a[1..], c.goawaySid);
      JoinAssociative(c, d, ContentOf(b, d.goawaySid));
    }
  }

  lemma JoinEmpty(c: Content, sid: nat)
    ensures Join(Content([], [], NoEnd, sid), c) == c
  {
    assert [] + c.blocks == c.blocks && [] + c.body == c.body;
  }

  lemma JoinAssociative(a: Content, b: Content, c: Content)
    ensures Join(Join(a, b), c) == Join(a, Join(b, c))
  {
    assert (a.blocks + b.blocks) + c.blocks == a.blocks + (b.blocks + c.blocks);
    assert (a.body + b.body) + c.body == a.body + (b.body + c.body);
  }
}
