/**
 The request: preface, SETTINGS, one HEADERS frame and the first window of DATA,
 as otlp_grpc_http2_request_build prints them, and that they parse back.
 */
module H2Request {
  import opened Bits
  import opened Wrappers
  import opened HpackInt
  import opened HpackTable
  import opened HpackBlock
  import opened HpackWire
  import opened H2Frame
  import opened H2Flow
  import opened H2Client

  function Preface(): (s: seq<Byte>)
    ensures |s| == 24
  {
    Ascii("PRI * HTTP/2.0\r\n\r\nSM\r\n\r\n")
  }

  const METRICS_PATH := "/opentelemetry.proto.collector.metrics.v1.MetricsService/Export"

  // ---------------------------------------------------------- encoder

  function PlainField(name: seq<Byte>, value: seq<Byte>): Rep {
    Field(Plain, 0, Raw(name), Raw(value))
  }

  /** hpack_encode_string_raw. */
  method EncodeString(out: seq<Byte>, s: seq<Byte>) returns (r: seq<Byte>)
    requires |s| < WORD
    ensures r == out + StrBytes(Raw(s))
  {
    hide IntBytes, Low;
    PrefixFacts();
    r := EncodeInt(out, |s|, 7, 0);
    r := r + s;
  }

  /** hpack_literal_new_name. */
  method EncodeLiteral(out: seq<Byte>, name: seq<Byte>, value: seq<Byte>) returns (r: seq<Byte>)
    requires |name| < WORD && |value| < WORD
    ensures r == out + RepBytes(PlainField(name, value))
  {
    hide StrBytes;
    PrefixFacts();
    assert IntBytes(0, 4, 0) == [0];
    r := EncodeString(out + [0], name);
    r := EncodeString(r, value);
    assert out + [0] + StrBytes(Raw(name)) + StrBytes(Raw(value)) ==
           out + ([0] + StrBytes(Raw(name)) + StrBytes(Raw(value)));
  }

  /** hpack_indexed. */
  method EncodeIndexed(out: seq<Byte>, idx: nat) returns (r: seq<Byte>)
    requires idx < WORD
    ensures r == out + RepBytes(Indexed(idx))
  {
    PrefixFacts();
    r := EncodeInt(out, idx, 7, 128);
  }

  // ---------------------------------------------------------- round trip

  /** What the encoder writes: static indices and raw literals with spelled-out names. */
  predicate Written(r: Rep) {
    match r
    case Indexed(i) => 1 <= i <= STATIC_ENTRIES
    case Field(kind, idx, name, value) =>
      kind == Plain && idx == 0 && name.Raw? && value.Raw? && |name.text| < WORD && |value.text| < WORD
    case SizeUpdate(_) => false
  }

  function HeaderOf(r: Rep): (h: Header)
    requires Written(r)
  {
    if r.Indexed? then StaticEntry(r.idx) else Header(r.name.text, r.value.text)
  }

  function HeadersOf(rs: seq<Rep>): (hs: seq<Header>)
    requires forall r :: r in rs ==> Written(r)
  {
    if rs == [] then [] else [HeaderOf(rs[0])] + HeadersOf(rs[1..])
  }

  /** The decoder's buffers hold the name and the value. */
  predicate Fits(r: Rep) {
    r.Field? ==> |r.name.text| <= 255 && |r.value.text| <= 1023
  }

  lemma {:induction false} WrittenRun(rs: seq<Rep>, table: seq<Header>)
    requires forall r :: r in rs ==> Written(r)
    ensures ClientRun(rs, table).end.Whole? <==> forall r :: r in rs ==> Fits(r)
    ensures ClientRun(rs, table).end.Whole? ==> ClientRun(rs, table) == Decoded(HeadersOf(rs), table, Whole)
  {
    hide StaticEntry;
    if rs != [] {
      assert Written(rs[0]) && forall r :: r in rs <==> r == rs[0] || r in rs[1..];
      WrittenStep(rs[0], table);
      WrittenRun(rs[1..], table);
    }
  }

  lemma WrittenStep(r: Rep, table: seq<Header>)
    requires Written(r)
    ensures ClientStep(r, table) == if Fits(r) then Go(Step([HeaderOf(r)], table)) else Stop(Broken)
  {
    hide StaticEntry;
  }

  /**
   Header block round trip: decoding what the encoder wrote yields the header
   list, whatever the dynamic table, exactly when every name has at most 255 and
   every value at most 1023 bytes; otherwise the decoder reports failure.
   */
  lemma HeaderBlockRoundTrip(rs: seq<Rep>, table: seq<Header>)
    requires forall r :: r in rs ==> Written(r)
    ensures ReadBlock(BlockBytes(rs), table).end.Whole? <==> forall r :: r in rs ==> Fits(r)
    ensures ReadBlock(BlockBytes(rs), table).end.Whole? ==>
              ReadBlock(BlockBytes(rs), table) == Decoded(HeadersOf(rs), table, Whole)
  {
    hide ReadBlock, BlockBytes, ClientRun, HeadersOf;
    BlockRoundTrip(rs, table);
    WrittenRun(rs, table);
  }

  lemma {:induction false} BlockBytesAppend(a: seq<Rep>, b: seq<Rep>)
    ensures BlockBytes(a + b) == BlockBytes(a) + BlockBytes(b)
  {
    hide RepBytes;
    if a == [] {
      assert a + b == b;
    } else {
      assert (a + b)[1..] == a[1..] + b;
      BlockBytesAppend(a[1..], b);
      assert RepBytes(a[0]) + (BlockBytes(a[1..]) + BlockBytes(b)) == BlockBytes(a) + BlockBytes(b);
    }
  }

  lemma BlockBytesSnoc(a: seq<Rep>, r: Rep)
    ensures BlockBytes(a + [r]) == BlockBytes(a) + RepBytes(r)
  {
    hide RepBytes;
    BlockBytesAppend(a, [r]);
    assert BlockBytes([r]) == RepBytes(r) + BlockBytes([r][1..]);
  }

  // ---------------------------------------------------------- request headers

  function Lower(s: seq<Byte>): (r: seq<Byte>)
    ensures |r| == |s|
  {
    seq(|s|, i requires 0 <= i < |s| => if 65 <= s[i] <= 90 then s[i] + 32 else s[i])
  }

  /** Headers the client sets itself or has no room for. */
  predicate Skipped(name: seq<Byte>) {
    || Lower(name) == Ascii("content-type") || Lower(name) == Ascii("content-length")
    || Lower(name) == Ascii("te") || Lower(name) == Ascii("host")
    || Lower(name) == Ascii("connection") || Lower(name) == Ascii("transfer-encoding")
    || Lower(name) == Ascii("user-agent") || |name| >= 256
  }

  function EnvReps(env: seq<Header>): (rs: seq<Rep>) {
    if env == [] then []
    else
      var h := env[|env| - 1];
      EnvReps(env[..|env| - 1]) + (if Skipped(h.name) then [] else [PlainField(Lower(h.name), h.value)])
  }

  function OwnReps(authority: seq<Byte>, path: seq<Byte>, https: bool): (rs: seq<Rep>) {
    [Indexed(3), Indexed(if https then 7 else 6),
     PlainField(Ascii(":path"), if path == [] || path == Ascii("/") then Ascii(METRICS_PATH) else path),
     PlainField(Ascii(":authority"), authority),
     PlainField(Ascii("content-type"), Ascii("application/grpc")),
     PlainField(Ascii("te"), Ascii("trailers")),
     PlainField(Ascii("user-agent"), Ascii("alligator"))]
  }

  ghost function RequestReps(authority: seq<Byte>, path: seq<Byte>, https: bool, env: seq<Header>): (rs: seq<Rep>) {
    OwnReps(authority, path, https) + EnvReps(env)
  }

  predicate SizesLegal(authority: seq<Byte>, path: seq<Byte>, env: seq<Header>) {
    && |authority| < WORD && |path| < WORD
    && forall h :: h in env ==> |h.name| < WORD && |h.value| < WORD
  }

  /** The header block of the request. */
  method BuildHeaders(authority: seq<Byte>, path: seq<Byte>, https: bool, env: seq<Header>) returns (out: seq<Byte>)
    requires SizesLegal(authority, path, env)
    ensures out == BlockBytes(RequestReps(authority, path, https, env))
  {
    hide RepBytes, Skipped, Lower;
    out := BuildOwn(authority, path, https);
    ghost var own := OwnReps(authority, path, https);
    assert own + EnvReps(env[..0]) == own;
    for i := 0 to |env|
      invariant out == BlockBytes(own + EnvReps(env[..i]))
    {
      var h := env[i];
      assert h in env;
      assert env[..i + 1][..i] == env[..i];
      if !Skipped(h.name) {
        out := EncodeLiteral(out, Lower(h.name), h.value);
        var r := PlainField(Lower(h.name), h.value);
        BlockBytesSnoc(own + EnvReps(env[..i]), r);
        assert own + EnvReps(env[..i]) + [r] == own + (EnvReps(env[..i]) + [r]);
      } else {
        assert EnvReps(env[..i]) + [] == EnvReps(env[..i]);
      }
    }
    assert env[..|env|] == env;
  }

  method BuildOwn(authority: seq<Byte>, path: seq<Byte>, https: bool) returns (out: seq<Byte>)
    requires |authority| < WORD && |path| < WORD
    ensures out == BlockBytes(OwnReps(authority, path, https))
  {
    hide RepBytes, PlainField, BlockBytes;
    var usePath := if path == [] || path == Ascii("/") then Ascii(METRICS_PATH) else path;
    ghost var rs := OwnReps(authority, path, https);
    out := EncodeIndexed([], 3);
    out := EncodeIndexed(out, if https then 7 else 6);
    out := EncodeLiteral(out, Ascii(":path"), usePath);
    out := EncodeLiteral(out, Ascii(":authority"), authority);
    out := EncodeLiteral(out, Ascii("content-type"), Ascii("application/grpc"));
    out := EncodeLiteral(out, Ascii("te"), Ascii("trailers"));
    out := EncodeLiteral(out, Ascii("user-agent"), Ascii("alligator"));
    SevenReps(rs);
  }

  lemma SevenReps(rs: seq<Rep>)
    requires |rs| == 7
    ensures BlockBytes(rs) == [] + RepBytes(rs[0]) + RepBytes(rs[1]) + RepBytes(rs[2]) + RepBytes(rs[3])
                              + RepBytes(rs[4]) + RepBytes(rs[5]) + RepBytes(rs[6])
  {
    hide RepBytes;
    BlockBytesPrefix(rs, 7);
    assert rs[..7] == rs;
    assert BlockBytes(rs[..0]) == [];
  }

  lemma {:induction false} BlockBytesPrefix(rs: seq<Rep>, k: nat)
    requires k <= |rs|
    ensures forall i :: 0 <= i < k ==> BlockBytes(rs[..i + 1]) == BlockBytes(rs[..i]) + RepBytes(rs[i])
  {
    hide RepBytes, BlockBytes;
    if k > 0 {
      BlockBytesPrefix(rs, k - 1);
      assert rs[..k] == rs[..k - 1] + [rs[k - 1]];
      BlockBytesSnoc(rs[..k - 1], rs[k - 1]);
    }
  }

  lemma {:induction false} EnvWritten(env: seq<Header>)
    requires forall h :: h in env ==> |h.name| < WORD && |h.value| < WORD
    ensures forall r :: r in EnvReps(env) ==> Written(r)
  {
    if env != [] {
      EnvWritten(env[..|env| - 1]);
      assert env[|env| - 1] in env;
    }
  }

  /** A peer decodes the request's header block to exactly the request's headers. */
  lemma RequestHeadersRoundTrip(authority: seq<Byte>, path: seq<Byte>, https: bool, env: seq<Header>,
                                table: seq<Header>)
    requires SizesLegal(authority, path, env)
    ensures var rs := RequestReps(authority, path, https, env);
            var d := ReadBlock(BlockBytes(rs), table);
            && (forall r :: r in rs ==> Written(r))
            && (d.end.Whole? <==> forall r :: r in rs ==> Fits(r))
            && (d.end.Whole? ==> d == Decoded(HeadersOf(rs), table, Whole))
  {
    hide ReadBlock, BlockBytes, EnvReps, HeadersOf;
    EnvWritten(env);
    HeaderBlockRoundTrip(RequestReps(authority, path, https, env), table);
  }

  // ---------------------------------------------------------- the wire

  function SettingsFrame(): Frame {
    Frame(SETTINGS, 0, 0, U16(4) + U32(0x10_0000) + U16(5) + U32(16384))
  }

  ghost function RequestFrames(block: seq<Byte>, body: seq<Byte>): (fs: seq<Frame>) {
    [SettingsFrame(), Frame(HEADERS, 4, 1, block)] + DataFrames(BuildChunks(body))
  }

  datatype Built = Built(wire: seq<Byte>, pending: Option<seq<Byte>>)

  /** The DATA part of request_build. */
  method BuildData(out: seq<Byte>, body: seq<Byte>) returns (r: seq<Byte>)
    ensures r == out + WireOf(DataFrames(BuildChunks(body)))
  {
    hide FrameBytes;
    r := out;
    var now := if |body| > DEFAULT_WINDOW then DEFAULT_WINDOW else |body|;
    var off := 0;
    ghost var all := WireOf(DataFrames(BuildFrom(body, 0, now)));
    while off < now
      invariant off <= now <= |body|
      invariant r + WireOf(DataFrames(BuildFrom(body, off, now))) == out + all
    {
      var chunk := now - off;
      if chunk > MAX_FRAME {
        chunk := MAX_FRAME;
      }
      var flags := if now == |body| && off + chunk >= now then 1 else 0;
      var frame := Frame(DATA, flags, 1, body[off..off + chunk]);
      NextData(r, body, off, now);
      r := r + FrameBytes(frame);
      off := off + chunk;
    }
    assert r + [] == r;
    if |body| == 0 {
      r := r + FrameBytes(Frame(DATA, 1, 1, []));
      OneData(Chunk([], true));
    }
  }

  lemma NextData(r: seq<Byte>, body: seq<Byte>, off: nat, now: nat)
    requires off < now <= |body|
    ensures var n := Min(now - off, MAX_FRAME);
            var c := Chunk(body[off..off + n], now == |body| && off + n >= now);
            r + WireOf(DataFrames(BuildFrom(body, off, now))) ==
            (r + FrameBytes(DataFrame(c))) + WireOf(DataFrames(BuildFrom(body, off + n, now)))
  {
    hide FrameBytes;
    var n := Min(now - off, MAX_FRAME);
    var c := Chunk(body[off..off + n], now == |body| && off + n >= now);
    var cs := BuildFrom(body, off + n, now);
    assert ([c] + cs)[1..] == cs;
    assert DataFrames([c] + cs) == [DataFrame(c)] + DataFrames(cs);
    assert ([DataFrame(c)] + DataFrames(cs))[1..] == DataFrames(cs);
    assert WireOf([DataFrame(c)] + DataFrames(cs)) == FrameBytes(DataFrame(c)) + WireOf(DataFrames(cs));
  }

  lemma OneData(c: Chunk)
    ensures WireOf(DataFrames([c])) == FrameBytes(DataFrame(c))
  {
    hide FrameBytes;
    assert DataFrames([c]) == [DataFrame(c)] + DataFrames([c][1..]) == [DataFrame(c)];
    assert WireOf([DataFrame(c)]) == FrameBytes(DataFrame(c)) + WireOf([DataFrame(c)][1..]);
  }

  /**
   otlp_grpc_http2_request_build; `wantPending` is whether the caller takes a remainder, `strings` and `tail`
   whether its two strings and the copy of the remainder can be allocated.
   */
  method RequestBuild(authority: seq<Byte>, path: seq<Byte>, https: bool, env: seq<Header>,
                      body: seq<Byte>, wantPending: bool, strings: bool, tail: bool) returns (r: Option<Built>)
    requires SizesLegal(authority, path, env)
    ensures r.None? <==> !strings || (|body| > DEFAULT_WINDOW && (!wantPending || !tail))
    ensures r.Some? ==>
              var block := BlockBytes(RequestReps(authority, path, https, env));
              && r.value.wire == Preface() + WireOf(RequestFrames(block, body))
              && r.value.pending == PendingOf(body)
  {
    hide FrameBytes, BlockBytes, RequestReps, BuildChunks, DataFrames;
    if |body| > DEFAULT_WINDOW && !wantPending {
      return None;
    }
    if !strings {
      return None;
    }
    var block := BuildHeaders(authority, path, https, env);
    var head := Preface() + FrameBytes(SettingsFrame()) + FrameBytes(Frame(HEADERS, 4, 1, block));
    var wire := BuildData(head, body);
    TwoMore(SettingsFrame(), Frame(HEADERS, 4, 1, block), DataFrames(BuildChunks(body)), Preface());
    if |body| > DEFAULT_WINDOW {
      if !tail {
        return None;
      }
      return Some(Built(wire, Some(body[DEFAULT_WINDOW..])));
    }
    return Some(Built(wire, None));
  }

  lemma TwoMore(f: Frame, g: Frame, fs: seq<Frame>, pre: seq<Byte>)
    ensures pre + FrameBytes(f) + FrameBytes(g) + WireOf(fs) == pre + WireOf([f, g] + fs)
  {
    hide FrameBytes;
    assert ([f, g] + fs)[1..] == [g] + fs && ([g] + fs)[1..] == fs;
    assert WireOf([f, g] + fs) == FrameBytes(f) + (FrameBytes(g) + WireOf(fs));
  }

  lemma {:induction false} DataPrintable(cs: seq<Chunk>)
    requires forall c :: c in cs ==> |c.payload| <= MAX_FRAME
    ensures forall f :: f in DataFrames(cs) ==> Printable(f)
  {
    if cs != [] { DataPrintable(cs[1..]); }
  }

  /**
   The request parses back: behind the preface stand the settings, the header
   block and the DATA frames of the body, and nothing else.
   */
  lemma RequestRoundTrip(block: seq<Byte>, body: seq<Byte>)
    requires |block| < 0x100_0000
    ensures FramesOf((Preface() + WireOf(RequestFrames(block, body)))[24..]) == RequestFrames(block, body)
  {
    hide WireOf, FramesOf;
    var fs := RequestFrames(block, body);
    var wire := WireOf(fs);
    assert (Preface() + wire)[24..] == wire == wire + [];
    BuildOk(body);
    var l := Ledger(body, BuildChunks(body), 0, 0);
    assert forall c :: c in l.chunks ==> |c.payload| <= MAX_FRAME by {
      forall c | c in l.chunks
        ensures |c.payload| <= MAX_FRAME
      {
        var k :| 0 <= k < |l.chunks| && l.chunks[k] == c;
        assert ChunkOk(l, k);
      }
    }
    DataPrintable(BuildChunks(body));
    FramesRoundTrip(fs, []);
    NoFramesInNothing();
    assert fs + [] == fs;
  }

  lemma NoFramesInNothing()
    ensures FramesOf([]) == []
  {
  }
}
