/**
 What a server makes of the request: the header list it decodes, the settings, and the DATA frames of the body,
 each stated without the functions that build them.
 */
module RequestMeaning {
  import opened Bits
  import opened Wrappers
  import opened HpackAppendix
  import opened HpackTable
  import opened HpackBlock
  import opened HpackWire
  import opened H2Frame
  import opened H2Flow
  import opened H2Feed
  import opened H2Client
  import opened H2Effects
  import opened H2Request

  // ---------------------------------------------------------- header list

  function Pair(name: string, value: seq<Byte>): (h: Header) {
    Header(Ascii(name), value)
  }

  function TextPair(name: string, value: string): (h: Header) {
    Pair(name, Ascii(value))
  }

  /** The path the request is sent to: an empty one and "/" stand for the metrics service. */
  function SentPath(path: seq<Byte>): (p: seq<Byte>) {
    if path == [] || path == Ascii("/")
    then Ascii("/opentelemetry.proto.collector.metrics.v1.MetricsService/Export")
    else path
  }

  function OwnHeaders(authority: seq<Byte>, path: seq<Byte>, https: bool): (hs: seq<Header>) {
    [TextPair(":method", "POST"), TextPair(":scheme", if https then "https" else "http"),
     Pair(":path", SentPath(path)), Pair(":authority", authority),
     TextPair("content-type", "application/grpc"), TextPair("te", "trailers"), TextPair("user-agent", "alligator")]
  }

  function SmallLetter(c: Byte): (r: Byte) {
    if 'A' <= c as char <= 'Z' then (c as char - 'A' + 'a') as int else c
  }

  function SmallLetters(s: seq<Byte>): (r: seq<Byte>) {
    seq(|s|, i requires 0 <= i < |s| => SmallLetter(s[i]))
  }

  /** The names a configuration cannot set. */
  function OwnNames(): (names: seq<string>) {
    ["content-type", "content-length", "te", "host", "connection", "transfer-encoding", "user-agent"]
  }

  predicate IsOwn(name: seq<Byte>) {
    exists i :: 0 <= i < |OwnNames()| && SmallLetters(name) == Ascii(OwnNames()[i])
  }

  predicate Taken(name: seq<Byte>) {
    |name| < 256 && !IsOwn(name)
  }

  /** The configured headers that are sent, in their order and in small letters. */
  function Added(env: seq<Header>): (hs: seq<Header>) {
    if env == [] then []
    else AddedOne(env[0]) + Added(env[1..])
  }

  function AddedOne(h: Header): (hs: seq<Header>) {
    if Taken(h.name) then [Header(SmallLetters(h.name), h.value)] else []
  }

  function RequestHeaders(authority: seq<Byte>, path: seq<Byte>, https: bool, env: seq<Header>): (hs: seq<Header>) {
    OwnHeaders(authority, path, https) + Added(env)
  }

  lemma SameLetters(s: seq<Byte>)
    ensures Lower(s) == SmallLetters(s)
  {
    forall i | 0 <= i < |s| ensures Lower(s)[i] == SmallLetters(s)[i] {
      if 65 <= s[i] <= 90 { assert (s[i] as char - 'A' + 'a') as int == s[i] + 32; }
    }
  }

  lemma SkippedExactly(name: seq<Byte>)
    ensures Skipped(name) <==> !Taken(name)
  {
    hide Lower, SmallLetters, Ascii;
    SameLetters(name);
    var names := OwnNames();
    if Skipped(name) && |name| < 256 {
      var k := if Lower(name) == Ascii("content-type") then 0 else if Lower(name) == Ascii("content-length") then 1
               else if Lower(name) == Ascii("te") then 2 else if Lower(name) == Ascii("host") then 3
               else if Lower(name) == Ascii("connection") then 4
               else if Lower(name) == Ascii("transfer-encoding") then 5 else 6;
      assert SmallLetters(name) == Ascii(names[k]);
    }
  }

  lemma {:induction false} HeadersOfAppend(a: seq<Rep>, b: seq<Rep>)
    requires forall r :: r in a + b ==> Written(r)
    ensures (forall r :: r in a ==> Written(r)) && (forall r :: r in b ==> Written(r))
    ensures HeadersOf(a + b) == HeadersOf(a) + HeadersOf(b)
  {
    hide HeaderOf, Written;
    assert forall r :: r in a ==> r in a + b;
    assert forall r :: r in b ==> r in a + b;
    if a == [] {
      assert a + b == b;
    } else {
      assert (a + b)[1..] == a[1..] + b;
      assert forall r :: r in a[1..] + b ==> r in a + b;
      HeadersOfAppend(a[1..], b);
      assert [HeaderOf(a[0])] + (HeadersOf(a[1..]) + HeadersOf(b)) == HeadersOf(a) + HeadersOf(b);
    }
  }

  lemma {:induction false} AddedAppend(a: seq<Header>, b: seq<Header>)
    ensures Added(a + b) == Added(a) + Added(b)
  {
    hide AddedOne;
    if a == [] {
      assert a + b == b;
    } else {
      assert (a + b)[0] == a[0] && (a + b)[1..] == a[1..] + b;
      AddedAppend(a[1..], b);
      assert AddedOne(a[0]) + (Added(a[1..]) + Added(b)) == Added(a) + Added(b);
    }
  }

  /** The header one configured name and value becomes. */
  lemma EnvOne(h: Header)
    requires |h.name| < HpackInt.WORD && |h.value| < HpackInt.WORD
    ensures var rs := if Skipped(h.name) then [] else [PlainField(Lower(h.name), h.value)];
            (forall r :: r in rs ==> Written(r)) && HeadersOf(rs) == Added([h])
  {
    hide Skipped, Taken;
    SkippedExactly(h.name);
    SameLetters(h.name);
    assert [h][1..] == [];
    if !Skipped(h.name) {
      var rs := [PlainField(Lower(h.name), h.value)];
      assert rs[1..] == [];
      assert HeadersOf(rs) == [HeaderOf(rs[0])] + HeadersOf(rs[1..]);
    }
  }

  lemma {:induction false} EnvHeaders(env: seq<Header>)
    requires forall h :: h in env ==> |h.name| < HpackInt.WORD && |h.value| < HpackInt.WORD
    ensures (forall r :: r in EnvReps(env) ==> Written(r)) && HeadersOf(EnvReps(env)) == Added(env)
    decreases |env|
  {
    hide Skipped, Taken, Written, HeadersOf, Added, PlainField;
    EnvWritten(env);
    if env != [] {
      var h, rest := env[|env| - 1], env[..|env| - 1];
      assert h in env;
      EnvHeaders(rest);
      EnvOne(h);
      HeadersOfAppend(EnvReps(rest), if Skipped(h.name) then [] else [PlainField(Lower(h.name), h.value)]);
      AddedAppend(rest, [h]);
      assert env == rest + [h];
    } else {
      NoHeaders();
    }
  }

  lemma NoHeaders()
    ensures HeadersOf([]) == [] && Added([]) == []
  {
  }

  lemma OwnDecoded(authority: seq<Byte>, path: seq<Byte>, https: bool)
    requires |authority| < HpackInt.WORD && |path| < HpackInt.WORD
    ensures (forall r :: r in OwnReps(authority, path, https) ==> Written(r))
    ensures HeadersOf(OwnReps(authority, path, https)) == OwnHeaders(authority, path, https)
  {
    hide Ascii, HeadersOf;
    var rs := OwnReps(authority, path, https);
    SevenHeaders(rs);
    assert HeaderOf(rs[0]) == TextPair(":method", "POST");
    assert HeaderOf(rs[1]) == TextPair(":scheme", if https then "https" else "http");
  }

  lemma SevenHeaders(rs: seq<Rep>)
    requires |rs| == 7 && forall r :: r in rs ==> Written(r)
    ensures HeadersOf(rs) == [HeaderOf(rs[0]), HeaderOf(rs[1]), HeaderOf(rs[2]), HeaderOf(rs[3]), HeaderOf(rs[4]),
                              HeaderOf(rs[5]), HeaderOf(rs[6])]
  {
    hide HeaderOf, Written, HeadersOf;
    HeadersLength(rs);
    forall i | 0 <= i < 7 ensures HeadersOf(rs)[i] == HeaderOf(rs[i]) { HeadersAt(rs, i); }
  }

  lemma {:induction false} HeadersLength(rs: seq<Rep>)
    requires forall r :: r in rs ==> Written(r)
    ensures |HeadersOf(rs)| == |rs|
  {
    hide HeaderOf, Written;
    if rs != [] { HeadersLength(rs[1..]); }
  }

  lemma {:induction false} HeadersAt(rs: seq<Rep>, i: nat)
    requires i < |rs| && forall r :: r in rs ==> Written(r)
    ensures |HeadersOf(rs)| == |rs| && HeadersOf(rs)[i] == HeaderOf(rs[i])
  {
    hide HeaderOf, Written;
    HeadersLength(rs);
    if i > 0 { HeadersAt(rs[1..], i - 1); }
  }

  /** Every value is short enough for a decoder with the client's buffers. */
  predicate Short(hs: seq<Header>) {
    forall i :: 0 <= i < |hs| ==> |hs[i].name| <= 255 && |hs[i].value| <= 1023
  }

  lemma ShortExactly(rs: seq<Rep>)
    requires forall r :: r in rs ==> Written(r)
    ensures Short(HeadersOf(rs)) <==> forall r :: r in rs ==> Fits(r)
  {
    hide HeadersOf, StaticEntry;
    HeadersLength(rs);
    forall i | 0 <= i < |rs|
      ensures |HeadersOf(rs)[i].name| <= 255 && |HeadersOf(rs)[i].value| <= 1023 <==> Fits(rs[i])
    {
      HeadersAt(rs, i);
      assert Written(rs[i]);
      if rs[i].Indexed? { StaticTableExact(rs[i].idx); }
    }
    if Short(HeadersOf(rs)) {
      forall r | r in rs ensures Fits(r) { var i :| 0 <= i < |rs| && rs[i] == r; }
    }
  }

  /**
   The header list of the request: a decoder with the client's buffers gets the seven headers of the client and the
   configured ones, in this order and whatever its dynamic table, exactly when they are short enough for it.
   */
  lemma RequestMeans(authority: seq<Byte>, path: seq<Byte>, https: bool, env: seq<Header>, table: seq<Header>)
    requires SizesLegal(authority, path, env)
    ensures var d := ReadBlock(BlockBytes(RequestReps(authority, path, https, env)), table);
            var hs := RequestHeaders(authority, path, https, env);
            && (d.end.Whole? <==> Short(hs))
            && (Short(hs) ==> d == Decoded(hs, table, Whole))
  {
    hide ReadBlock, BlockBytes, EnvReps, OwnReps, HeadersOf, OwnHeaders, Added, Short, Fits, Written;
    var own, more := OwnReps(authority, path, https), EnvReps(env);
    RequestHeadersRoundTrip(authority, path, https, env, table);
    OwnDecoded(authority, path, https);
    EnvHeaders(env);
    HeadersOfAppend(own, more);
    ShortExactly(own + more);
  }

  // ---------------------------------------------------------- settings and DATA

  /** The settings the request announces: a receive window of one mebibyte and frames of at most 16384 bytes. */
  lemma SettingsAnnounced()
    ensures var f := SettingsFrame();
            f.kind == 4 && f.sid == 0 && !IsAck(f) && SettingsOf(f.payload) == [Setting(4, 1048576), Setting(5, 16384)]
  {
    hide U16, U32, SettingsOf;
    var ps := [Setting(4, 1048576), Setting(5, 16384)];
    assert ps[1..] == [Setting(5, 16384)] && ps[1..][1..] == [];
    assert SettingsBytes(ps[1..]) == U16(5) + U32(16384) + SettingsBytes(ps[1..][1..]);
    assert SettingsFrame().payload == SettingsBytes(ps);
    SettingsRoundTrip(ps);
  }

  lemma {:induction false} DataShape(cs: seq<Chunk>, i: nat)
    requires i < |cs|
    ensures |DataFrames(cs)| == |cs|
    ensures var f := DataFrames(cs)[i];
            f.kind == 0 && f.sid == 1 && f.payload == cs[i].payload && (EndStream(f) <==> cs[i].end) && !Padded(f)
  {
    DataCount(cs);
    if i > 0 { DataShape(cs[1..], i - 1); }
  }

  lemma {:induction false} DataCount(cs: seq<Chunk>)
    ensures |DataFrames(cs)| == |cs|
  {
    if cs != [] { DataCount(cs[1..]); }
  }

  /** All frames of the first window but the last carry 16384 bytes, and none carries more. */
  lemma {:induction false} BuildFull(body: seq<Byte>, off: nat, now: nat, k: nat)
    requires off <= now <= |body| && k < |BuildFrom(body, off, now)|
    ensures var cs := BuildFrom(body, off, now);
            && (k + 1 < |cs| ==> |cs[k].payload| == 16384 && !cs[k].end)
            && (k + 1 == |cs| ==> |cs[k].payload| <= 16384 && (cs[k].end <==> now == |body|))
    decreases now - off
  {
    var n := Min(now - off, MAX_FRAME);
    var rest := BuildFrom(body, off + n, now);
    if k > 0 {
      BuildFull(body, off + n, now, k - 1);
    } else if off + n < now {
      assert rest != [];
    }
  }

  /** The concatenation of the payloads of frames. */
  function Payloads(fs: seq<Frame>): (s: seq<Byte>) {
    if fs == [] then [] else fs[0].payload + Payloads(fs[1..])
  }

  lemma {:induction false} PayloadsCarried(cs: seq<Chunk>)
    ensures Payloads(DataFrames(cs)) == Carried(cs)
  {
    if cs != [] {
      PayloadsCarried(cs[1..]);
      assert DataFrames(cs)[1..] == DataFrames(cs[1..]);
    }
  }

  lemma {:induction false} BuildCarries(body: seq<Byte>, off: nat, now: nat)
    requires off <= now <= |body|
    ensures Carried(BuildFrom(body, off, now)) == body[off..now]
    decreases now - off
  {
    if off < now {
      var n := Min(now - off, MAX_FRAME);
      BuildCarries(body, off + n, now);
      var c := Chunk(body[off..off + n], now == |body| && off + n >= now);
      assert ([c] + BuildFrom(body, off + n, now))[1..] == BuildFrom(body, off + n, now);
      assert body[off..off + n] + body[off + n..now] == body[off..now];
    }
  }

  predicate DataFrameOk(fs: seq<Frame>, k: nat, body: seq<Byte>)
    requires k < |fs|
  {
    && fs[k].kind == 0 && fs[k].sid == 1 && !Padded(fs[k])
    && (k + 1 < |fs| ==> |fs[k].payload| == 16384 && !EndStream(fs[k]))
    && (k + 1 == |fs| ==> |fs[k].payload| <= 16384 && (EndStream(fs[k]) <==> |body| <= 65535))
  }

  lemma DataFrameShape(body: seq<Byte>, k: nat)
    requires k < |DataFrames(BuildChunks(body))|
    ensures DataFrameOk(DataFrames(BuildChunks(body)), k, body)
  {
    hide DataFrames;
    var cs := BuildChunks(body);
    DataCount(cs);
    DataShape(cs, k);
    if body != [] { BuildFull(body, 0, SendNow(body), k); }
  }

  /**
   The frames of a request: settings, one HEADERS frame on stream 1 that ends the headers and not the stream, and
   DATA frames on stream 1 that carry the first 65535 bytes of the body, all full but the last, which ends the stream
   exactly when that is the whole body.
   */
  lemma RequestShape(block: seq<Byte>, body: seq<Byte>)
    ensures var fs := RequestFrames(block, body);
            && |fs| >= 3 && fs[0] == SettingsFrame()
            && fs[1].kind == 1 && fs[1].sid == 1 && fs[1].flags == 4 && fs[1].payload == block
            && Payloads(fs[2..]) == (if |body| <= 65535 then body else body[..65535])
            && forall k :: 0 <= k < |fs[2..]| ==> DataFrameOk(fs[2..], k, body)
  {
    hide SettingsFrame, DataFrames, Payloads, Carried, DataFrameOk;
    var cs := BuildChunks(body);
    assert RequestFrames(block, body)[2..] == DataFrames(cs);
    DataCount(cs);
    PayloadsCarried(cs);
    if body == [] {
      CarriedOne(Chunk([], true));
    } else {
      BuildCarries(body, 0, SendNow(body));
      assert body[0..SendNow(body)] == if |body| <= 65535 then body else body[..65535];
    }
    forall k | 0 <= k < |DataFrames(cs)| ensures DataFrameOk(DataFrames(cs), k, body) { DataFrameShape(body, k); }
  }

  /**
   A flush fills its frames: every frame but the last has the largest size the peer accepts, and after the last one
   either it is full, too, or nothing more may be sent.
   */
  lemma {:induction false} FlushFull(s: Flow, writes: seq<bool>, k: nat)
    requires k < |SendLoop(s, writes).sent|
    ensures var r := SendLoop(s, writes);
            && (k + 1 < |r.sent| ==> |r.sent[k].payload| == FrameCap(s) && !r.sent[k].end)
            && (k + 1 == |r.sent| ==>
                  || |r.sent[k].payload| == FrameCap(s) || Remaining(r.flow) == []
                  || r.flow.conn == 0 || r.flow.stream == 0)
    decreases |writes|
  {
    if k > 0 {
      FlushFull(Debited(s), writes[1..], k - 1);
    }
  }

  /** Under the sizes RFC 7540 allows a peer to announce, that size is 16384. */
  lemma {:induction false} FullSize(s: Flow, ops: seq<Op>)
    requires FrameCap(s) == 16384
    ensures FrameCap(RunFlow(s, ops)) == 16384
    decreases |ops|
  {
    if ops != [] {
      StepSize(s, ops[0]);
      FullSize(StepFlow(s, ops[0]), ops[1..]);
    }
  }

  lemma StepSize(s: Flow, op: Op)
    requires FrameCap(s) == 16384
    ensures FrameCap(StepFlow(s, op)) == 16384
  {
    match op
    case Flushing(writes) => LoopSize(s, writes);
    case Settings(ps) => SettingsSize(s, ps);
    case Update(_, _) =>
  }

  lemma {:induction false} LoopSize(s: Flow, writes: seq<bool>)
    ensures FrameCap(SendLoop(s, writes).flow) == FrameCap(s)
    decreases |writes|
  {
    if CanSend(s) && writes != [] && writes[0] { LoopSize(Debited(s), writes[1..]); }
  }

  lemma {:induction false} SettingsSize(s: Flow, ps: seq<Setting>)
    requires FrameCap(s) == 16384
    ensures FrameCap(ApplySettings(s, ps).flow) == 16384
    decreases |ps|
  {
    if ps != [] && ApplySetting(s, ps[0]).ok { SettingsSize(ApplySetting(s, ps[0]).flow, ps[1..]); }
  }

  // ---------------------------------------------------------- byte order

  lemma Words()
    ensures U24(4) == [0, 0, 4] && U32(1) == [0, 0, 0, 1] && GetU31([0, 0, 255, 255]) == 65535
  {
  }

  /** A WINDOW_UPDATE of 65535 bytes for stream 1, byte by byte. */
  lemma UpdateBytes()
    ensures var f := Frame(8, 0, 1, [0, 0, 255, 255]);
            && FrameBytes(f) == [0, 0, 4, 8, 0, 0, 0, 0, 1, 0, 0, 255, 255]
            && ReadFrame(FrameBytes(f)) == Some(f) && GetU31(f.payload) == 65535
  {
    hide U24, U32, GetU31, ReadFrame;
    var f := Frame(8, 0, 1, [0, 0, 255, 255]);
    Words();
    ReadFrameBytes(f, []);
    assert FrameBytes(f) + [] == FrameBytes(f);
  }
}
