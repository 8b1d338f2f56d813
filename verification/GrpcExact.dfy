/**
 What otlp_grpc_http2_response_parse answers, exactly: when it succeeds, with which status and message, for every
 buffer, and that a complete unary response is delivered while any cut of it is not.
 */
module GrpcExact {
  import opened Bits
  import opened Wrappers
  import opened H2Frame
  import opened H2Response
  import opened HpackTable
  import opened HpackBlock
  import opened HpackWire
  import opened GrpcResponse
  import LengthPrefix
  import opened RequestMeaning

  // ---------------------------------------------------------- what the frames carry

  predicate Carries(f: Frame, kind: Byte) {
    f.kind == kind && f.sid == 1
  }

  /** The header block fragments, in order. */
  function Fragments(fs: seq<Frame>): (bs: seq<seq<Byte>>)
    requires AllWellFormed(fs)
  {
    if fs == [] then []
    else
      (if Carries(fs[0], HEADERS) || Carries(fs[0], CONTINUATION) then [BlockOf(fs[0]).value] else [])
      + Fragments(fs[1..])
  }

  /** The DATA bytes without padding, in order. */
  function BodyOf(fs: seq<Frame>): (s: seq<Byte>)
    requires AllWellFormed(fs)
  {
    if fs == [] then [] else (if Carries(fs[0], DATA) then StripPadding(fs[0]).value else []) + BodyOf(fs[1..])
  }

  /** The last-stream id of the last GOAWAY that has one. */
  function LastGoaway(fs: seq<Frame>, sid: nat): (s: nat)
    decreases |fs|
  {
    if fs == [] then sid
    else LastGoaway(fs[1..], if fs[0].kind == GOAWAY && |fs[0].payload| >= 8 then GetU31(fs[0].payload) else sid)
  }

  /** Whether a frame ends the stream; `sid` is the last-stream id known before it. */
  predicate EndsStream(f: Frame, sid: nat) {
    || (f.kind == GOAWAY && (if |f.payload| >= 8 then GetU31(f.payload) else sid) == 0)
    || Carries(f, RST_STREAM)
    || ((Carries(f, HEADERS) || Carries(f, CONTINUATION) || Carries(f, DATA)) && f.flags % 2 == 1)
  }

  function EndingOf(f: Frame): (e: End) {
    if f.kind == GOAWAY then EndGoaway
    else if f.kind == RST_STREAM then EndRst
    else if f.kind == DATA then EndData
    else EndHeaders
  }

  lemma {:induction false} CargoExact(fs: seq<Frame>, sid: nat)
    requires AllWellFormed(fs)
    ensures ContentOf(fs, sid).blocks == Fragments(fs) && ContentOf(fs, sid).body == BodyOf(fs)
    decreases |fs|
  {
    hide BlockOf, StripPadding, GetU31;
    if fs != [] { CargoExact(fs[1..], FrameContent(fs[0], sid).goawaySid); }
  }

  /** The first frame that ends the stream gives the reason. */
  lemma {:induction false} EndExact(fs: seq<Frame>, sid: nat) returns (k: nat)
    requires AllWellFormed(fs)
    ensures k <= |fs| && forall i :: 0 <= i < k ==> !EndsStream(fs[i], LastGoaway(fs[..i], sid))
    ensures k < |fs| ==> EndsStream(fs[k], LastGoaway(fs[..k], sid)) && ContentOf(fs, sid).end == EndingOf(fs[k])
    ensures k == |fs| ==> ContentOf(fs, sid).end == NoEnd
    decreases |fs|
  {
    hide BlockOf, StripPadding, GetU31;
    if fs == [] {
      k := 0;
    } else {
      assert fs[..0] == [];
      if EndsStream(fs[0], sid) {
        k := 0;
      } else {
        var s := FrameContent(fs[0], sid).goawaySid;
        var rest := EndExact(fs[1..], s);
        k := rest + 1;
        forall i | 0 < i <= |fs| ensures LastGoaway(fs[..i], sid) == LastGoaway(fs[1..][..i - 1], s) {
          assert fs[..i][0] == fs[0] && fs[..i][1..] == fs[1..][..i - 1];
        }
      }
    }
  }

  // ---------------------------------------------------------- the answer

  /** A body that starts with a whole wrapped message. */
  ghost predicate StartsWith(s: seq<Byte>, m: seq<Byte>) {
    |m| < 0x1_0000_0000 && Wrap(m) <= s
  }

  lemma UnwrapExact(s: seq<Byte>)
    ensures Unwrap(s).Some? ==> StartsWith(s, Unwrap(s).value)
    ensures forall m :: StartsWith(s, m) ==> Unwrap(s) == Some(m)
  {
    if Unwrap(s).Some? {
      var n := GetU32(s[1..]);
      var m := s[5..5 + n];
      GetU32Prefix(s[1..]);
      WordBytes(s[1..][..4]);
      assert s[1..][..4] == U32(n) && s[0] == 0;
      assert Wrap(m) == s[..5 + n];
    }
    forall m | StartsWith(s, m) ensures Unwrap(s) == Some(m) {
      assert s == Wrap(m) + s[|Wrap(m)|..];
      UnwrapWrap(m, s[|Wrap(m)|..]);
    }
  }

  lemma WordBytes(s: seq<Byte>)
    requires |s| == 4
    ensures U32(GetU32(s)) == s
  {
    var v := GetU32(s);
    assert v / 0x100 == (s[0] as nat) * 0x1_0000 + (s[1] as nat) * 0x100 + s[2];
    assert v / 0x1_0000 == (s[0] as nat) * 0x100 + s[1];
    assert v / 0x100_0000 == s[0];
  }

  /** The status heard in header blocks. */
  ghost function HeardIn(blocks: seq<seq<Byte>>): (s: int) {
    var h := OnBlocks(FRESH.heard, blocks);
    if h.haveStatus then h.status else -1
  }

  /**
   The answer to every buffer: a failure without status for one that is too long, has a malformed frame or no end;
   success without status for a reset or a GOAWAY; otherwise the status heard, with the message the body starts with,
   without a message for an empty body, and as a failure for a body that starts with no whole message.
   */
  lemma ParseExact(buf: seq<Byte>)
    ensures var fs := FramesOf(buf); var a := Parse(buf);
            && (|buf| > MAX_RESPONSE_WIRE || !AllWellFormed(fs) || ContentOf(fs, 0).end == NoEnd ==>
                  a == Answer(false, -1, None))
            && (|buf| <= MAX_RESPONSE_WIRE && AllWellFormed(fs) && ContentOf(fs, 0).end != NoEnd ==>
                  var c := ContentOf(fs, 0);
                  if c.end == EndGoaway || c.end == EndRst then a == Answer(true, -1, None)
                  else
                    && a.status == HeardIn(c.blocks)
                    && (c.body == [] ==> a.ok && a.body == None)
                    && (c.body != [] ==> (a.ok <==> a.body.Some?) && (a.ok <==> exists m :: StartsWith(c.body, m)))
                    && (a.body.Some? ==> StartsWith(c.body, a.body.value)))
  {
    hide FramesOf, ContentOf, OnBlocks, Wrap, Unwrap;
    var fs := FramesOf(buf);
    ParseIsContent(FRESH, fs);
    if AllWellFormed(fs) {
      var c := ContentOf(fs, 0);
      UnwrapExact(c.body);
      assert FRESH.data + c.body == c.body;
      if c.body != [] && Unwrap(c.body).Some? { assert StartsWith(c.body, Unwrap(c.body).value); }
    }
  }

  // ---------------------------------------------------------- one unary response

  /** DATA frames without END_STREAM, each with its padding. */
  function DataRun(parts: seq<(seq<Byte>, Option<seq<Byte>>)>): (fs: seq<Frame>)
    requires forall i :: 0 <= i < |parts| && parts[i].1.Some? ==> |parts[i].1.value| < 256
  {
    if parts == [] then [] else [DataWith(parts[0].0, false, parts[0].1)] + DataRun(parts[1..])
  }

  function Together(parts: seq<(seq<Byte>, Option<seq<Byte>>)>): (s: seq<Byte>) {
    if parts == [] then [] else parts[0].0 + Together(parts[1..])
  }

  lemma {:induction false} DataRunCarries(parts: seq<(seq<Byte>, Option<seq<Byte>>)>)
    requires forall i :: 0 <= i < |parts| && parts[i].1.Some? ==> |parts[i].1.value| < 256
    ensures AllWellFormed(DataRun(parts)) && ContentOf(DataRun(parts), 0) == Content([], Together(parts), NoEnd, 0)
  {
    hide StripPadding, WithPadding;
    if parts != [] {
      var f, rest := DataWith(parts[0].0, false, parts[0].1), DataRun(parts[1..]);
      PaddingStrips(f, parts[0].0, parts[0].1);
      DataRunCarries(parts[1..]);
      ContentOfOne(f, 0);
      ContentAppend([f], rest, 0);
    }
  }

  lemma HeadersCarry(s: seq<Byte>, end: bool, pad: Option<seq<Byte>>)
    requires pad.Some? ==> |pad.value| < 256
    ensures var f := HeadersWith(s, end, pad, None);
            && AllWellFormed([f]) && ContentOf([f], 0) == Content([s], [], if end then EndHeaders else NoEnd, 0)
  {
    hide BlockOf, WithPadding;
    HeadersBlock(s, end, pad, None);
    ContentOfOne(HeadersWith(s, end, pad, None), 0);
  }

  /** HEADERS, the message in DATA frames cut and padded at will, and trailers. */
  function Unary(head: seq<Byte>, parts: seq<(seq<Byte>, Option<seq<Byte>>)>, trailers: seq<Byte>): (fs: seq<Frame>)
    requires forall i :: 0 <= i < |parts| && parts[i].1.Some? ==> |parts[i].1.value| < 256
  {
    [HeadersWith(head, false, None, None)] + DataRun(parts) + [HeadersWith(trailers, true, None, None)]
  }

  lemma UnaryCarries(head: seq<Byte>, parts: seq<(seq<Byte>, Option<seq<Byte>>)>, trailers: seq<Byte>)
    requires forall i :: 0 <= i < |parts| && parts[i].1.Some? ==> |parts[i].1.value| < 256
    ensures var fs := Unary(head, parts, trailers); var cut := fs[..|fs| - 1];
            && AllWellFormed(fs) && ContentOf(fs, 0) == Content([head, trailers], Together(parts), EndHeaders, 0)
            && AllWellFormed(cut) && ContentOf(cut, 0) == Content([head], Together(parts), NoEnd, 0)
  {
    hide HeadersWith, DataRun, Together, ContentOf, Malformed;
    var a, d, b := [HeadersWith(head, false, None, None)], DataRun(parts), [HeadersWith(trailers, true, None, None)];
    HeadersCarry(head, false, None);
    HeadersCarry(trailers, true, None);
    DataRunCarries(parts);
    ContentAppend(a, d, 0);
    ContentAppend(a + d, b, 0);
    assert (a + d + b)[..|a + d|] == a + d;
    assert [head] + [] == [head] && [] + Together(parts) == Together(parts) && Together(parts) + [] == Together(parts);
    assert [head] + [trailers] == [head, trailers];
  }

  /**
   A unary response is answered with the status its two header blocks spell and its message; cut before its trailers it
   is answered as a failure.
   */
  lemma UnaryAnswered(head: seq<Rep>, trailers: seq<Rep>, parts: seq<(seq<Byte>, Option<seq<Byte>>)>, m: seq<Byte>)
    requires forall i :: 0 <= i < |parts| && parts[i].1.Some? ==> |parts[i].1.value| < 256
    requires Together(parts) == Wrap(m) && |m| < 0x1_0000_0000 && BlocksLegal([head, trailers])
    requires var d := RunBlocks([head, trailers], RfcTable([], 4096)); d.RfcOk? && d.client.Whole?
    requires Sendable(Unary(BlockBytes(head), parts, BlockBytes(trailers)))
    ensures var fs := Unary(BlockBytes(head), parts, BlockBytes(trailers));
            && Parse(WireOf(fs)) ==
                 Answer(true, StatusOf(RunBlocks([head, trailers], RfcTable([], 4096)).headers), Some(m))
            && Parse(WireOf(fs[..|fs| - 1])) == Answer(false, -1, None)
  {
    hide *;
    var fs := Unary(BlockBytes(head), parts, BlockBytes(trailers));
    UnaryCarries(BlockBytes(head), parts, BlockBytes(trailers));
    TwoBlocks(head, trailers);
    ResponseReceived(fs, [head, trailers], Some(m));
    UnaryCut(BlockBytes(head), parts, BlockBytes(trailers));
  }

  lemma UnaryCut(head: seq<Byte>, parts: seq<(seq<Byte>, Option<seq<Byte>>)>, trailers: seq<Byte>)
    requires forall i :: 0 <= i < |parts| && parts[i].1.Some? ==> |parts[i].1.value| < 256
    requires Sendable(Unary(head, parts, trailers))
    ensures Unary(head, parts, trailers) != []
    ensures var fs := Unary(head, parts, trailers); Parse(WireOf(fs[..|fs| - 1])) == Answer(false, -1, None)
  {
    hide WireOf, ContentOf, Together, Malformed, AnswerOf, Parse, DataRun, HeadersWith;
    var fs := Unary(head, parts, trailers);
    UnaryCarries(head, parts, trailers);
    CutSendable(fs);
    ParseWire(fs[..|fs| - 1]);
    NoEndFails(ContentOf(fs[..|fs| - 1], 0));
  }

  lemma NoEndFails(c: Content)
    requires c.end == NoEnd
    ensures AnswerOf(c) == Answer(false, -1, None)
  {
    hide OnBlocks;
  }

  lemma TwoBlocks(a: seq<Rep>, b: seq<Rep>)
    ensures BlocksBytes([a, b]) == [BlockBytes(a), BlockBytes(b)]
  {
    hide BlockBytes;
    assert [a, b][1..] == [b] && [b][1..] == [];
    assert BlocksBytes([b]) == [BlockBytes(b)] + BlocksBytes([]);
  }

  lemma CutSendable(fs: seq<Frame>)
    requires Sendable(fs) && fs != []
    ensures Sendable(fs[..|fs| - 1])
  {
    hide FrameBytes;
    var cut := fs[..|fs| - 1];
    assert fs == cut + [fs[|fs| - 1]];
    WireAppend(cut, [fs[|fs| - 1]]);
  }

  lemma {:induction false} WireAppend(a: seq<Frame>, b: seq<Frame>)
    ensures WireOf(a + b) == WireOf(a) + WireOf(b)
  {
    hide FrameBytes, WireOf;
    if a == [] {
      assert a + b == b;
      NoWire();
      assert [] + WireOf(b) == WireOf(b);
    } else {
      assert (a + b)[0] == a[0] && (a + b)[1..] == a[1..] + b;
      FirstOnWire(a);
      FirstOnWire(a + b);
      WireAppend(a[1..], b);
      Regroup(FrameBytes(a[0]), WireOf(a[1..]), WireOf(b));
    }
  }

  lemma FirstOnWire(fs: seq<Frame>)
    requires fs != []
    ensures WireOf(fs) == FrameBytes(fs[0]) + WireOf(fs[1..])
  {
  }

  lemma NoWire()
    ensures WireOf([]) == []
  {
  }

  // ---------------------------------------------------------- padding

  /** The payload is `b` behind a length byte and before as many bytes of padding. */
  ghost predicate PaddedWith(payload: seq<Byte>, b: seq<Byte>) {
    exists pad: seq<Byte> :: |pad| < 256 && payload == [|pad|] + b + pad
  }

  /** Without the padding flag the payload is kept; with it, the payload must hold the padding it announces. */
  lemma PaddingExact(f: Frame, b: seq<Byte>)
    ensures StripPadding(f) == Some(b) <==> if f.flags / 8 % 2 == 1 then PaddedWith(f.payload, b) else b == f.payload
  {
    if f.flags / 8 % 2 == 1 {
      if StripPadding(f) == Some(b) {
        var n := f.payload[0];
        var pad := f.payload[|f.payload| - n..];
        assert f.payload == [|pad|] + b + pad;
      }
      if PaddedWith(f.payload, b) {
        var pad: seq<Byte> :| |pad| < 256 && f.payload == [|pad|] + b + pad;
        PaddingStrips(f, b, Some(pad));
      }
    }
  }

  /** A CONTINUATION is a fragment as it is; HEADERS lose their padding and, with the priority flag, five bytes. */
  lemma FragmentExact(f: Frame, b: seq<Byte>)
    requires f.kind == HEADERS || f.kind == CONTINUATION
    ensures BlockOf(f) == Some(b) <==>
            if f.kind == CONTINUATION then b == f.payload
            else if f.flags / 32 % 2 == 1 then exists p: seq<Byte> :: |p| == 5 && StripPadding(f) == Some(p + b)
            else StripPadding(f) == Some(b)
  {
    hide StripPadding;
    if f.kind == HEADERS && f.flags / 32 % 2 == 1 && StripPadding(f).Some? {
      var s := StripPadding(f).value;
      if |s| >= 5 { assert s == s[..5] + s[5..] && |s[..5]| == 5; }
      forall p: seq<Byte> | |p| == 5 && s == p + b ensures s[5..] == b { }
    }
  }

  // ---------------------------------------------------------- the text of a status

  /** The name of the header counts in any mixture of capital and small letters. */
  lemma StatusName(name: seq<Byte>, value: seq<Byte>)
    requires forall i :: 0 <= i < |name| ==> name[i] != 0
    ensures IsStatus(Header(name, value)) <==> SmallLetters(name) == Ascii("grpc-status")
  {
    NoZeros(name);
    var text := Ascii("grpc-status");
    assert forall i :: 0 <= i < |text| ==> LowerByte(text[i]) == text[i];
    assert forall i :: 0 <= i < |name| ==> LowerByte(name[i]) == SmallLetter(name[i]);
    if SmallLetters(name) == text {
      forall i | 0 <= i < |name| ensures LowerByte(name[i]) == LowerByte(text[i]) {
        assert SmallLetters(name)[i] == SmallLetter(name[i]);
      }
    }
  }

  predicate Blank(s: seq<Byte>) {
    forall i :: 0 <= i < |s| ==> s[i] as char == ' ' || '\t' <= s[i] as char <= '\r'
  }

  lemma {:induction false} DigitsThenText(s: seq<Byte>, tail: seq<Byte>, acc: nat)
    requires (forall i :: 0 <= i < |s| ==> IsDigit(s[i])) && (tail != [] ==> !IsDigit(tail[0]))
    ensures DigitsValue(s + tail, acc) == DigitsValue(s, acc)
    decreases |s|
  {
    if s == [] {
      assert s + tail == tail;
    } else {
      assert (s + tail)[0] == s[0] && (s + tail)[1..] == s[1..] + tail;
      DigitsThenText(s[1..], tail, acc * 10 + (s[0] - 48));
    }
  }

  lemma {:induction false} BlankSkipped(blank: seq<Byte>, s: seq<Byte>)
    requires Blank(blank)
    ensures Atoi(blank + s) == Atoi(s)
    decreases |blank|
  {
    hide DigitsValue;
    if blank == [] {
      assert blank + s == s;
    } else {
      assert (blank + s)[0] == blank[0] && (blank + s)[1..] == blank[1..] + s;
      BlankSkipped(blank[1..], s);
    }
  }

  lemma SignedNumber(sign: string, digits: seq<Byte>, tail: seq<Byte>)
    requires digits != [] && forall i :: 0 <= i < |digits| ==> IsDigit(digits[i])
    requires sign in ["", "+", "-"] && (tail != [] ==> !IsDigit(tail[0]))
    ensures var v: int := DigitsValue(digits, 0);
            Atoi(Ascii(sign) + (digits + tail)) == if sign == "-" then -v else v
  {
    hide DigitsValue;
    DigitsThenText(digits, tail, 0);
    var s := Ascii(sign) + (digits + tail);
    if sign == "" {
      assert s == digits + tail;
    } else {
      assert s[1..] == digits + tail;
    }
  }

  /** The number of a text: white space is skipped, one sign is read, and digits count up to the first other byte. */
  lemma NumberExact(blank: seq<Byte>, sign: string, n: nat, tail: seq<Byte>)
    requires Blank(blank) && sign in ["", "+", "-"] && (tail != [] ==> !('0' <= tail[0] as char <= '9'))
    ensures Atoi(blank + (Ascii(sign) + (LengthPrefix.Decimal(n) + tail))) == if sign == "-" then -(n as int) else n
  {
    hide Atoi, DigitsValue, Ascii;
    var digits := LengthPrefix.Decimal(n);
    AtoiDecimal(n);
    SignedNumber(sign, digits, tail);
    BlankSkipped(blank, Ascii(sign) + (digits + tail));
  }

  /** A text that does not begin with a number counts as zero. */
  lemma NoNumber(s: seq<Byte>)
    requires s != [] && !Blank(s[..1]) && s[0] as char !in "+-0123456789"
    ensures Atoi(s) == 0
  {
    assert s[..1] == [s[0]];
    assert forall c :: '0' <= c <= '9' ==> c in "+-0123456789";
  }
}
