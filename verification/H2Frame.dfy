/** HTTP/2 frames (RFC 7540 section 4.1): the printer and the parser of the client. */
module H2Frame {
  import opened Bits
  import opened Wrappers

  const DATA: Byte := 0
  const HEADERS: Byte := 1
  const RST_STREAM: Byte := 3
  const SETTINGS: Byte := 4
  const PING: Byte := 6
  const GOAWAY: Byte := 7
  const WINDOW_UPDATE: Byte := 8
  const CONTINUATION: Byte := 9

  const MAX_FRAME: nat := 16384
  const DEFAULT_WINDOW: nat := 65535
  const RECV_WINDOW: nat := 0x10_0000
  const WINDOW_LIMIT: int := 0x7fff_ffff
  const MAX_RESPONSE_WIRE: nat := 0x10_0000 + 65536

  datatype Frame = Frame(kind: Byte, flags: Byte, sid: nat, payload: seq<Byte>)

  /** Bit tests on the flags byte. */
  predicate EndStream(f: Frame) { f.flags % 2 == 1 }
  predicate IsAck(f: Frame) { f.flags % 2 == 1 }
  predicate Padded(f: Frame) { f.flags / 8 % 2 == 1 }
  predicate Priority(f: Frame) { f.flags / 32 % 2 == 1 }

  function U16(v: nat): (s: seq<Byte>) {
    [v / 0x100 % 0x100, v % 0x100]
  }

  function U24(v: nat): (s: seq<Byte>) {
    [v / 0x1_0000 % 0x100, v / 0x100 % 0x100, v % 0x100]
  }

  function U32(v: nat): (s: seq<Byte>) {
    [v / 0x100_0000 % 0x100, v / 0x1_0000 % 0x100, v / 0x100 % 0x100, v % 0x100]
  }

  function GetU24(s: seq<Byte>): (v: nat)
    requires |s| >= 3
  {
    (s[0] as nat) * 0x1_0000 + (s[1] as nat) * 0x100 + s[2]
  }

  function GetU32(s: seq<Byte>): (v: nat)
    requires |s| >= 4
    ensures v < 0x1_0000_0000
  {
    (s[0] as nat) * 0x100_0000 + (s[1] as nat) * 0x1_0000 + (s[2] as nat) * 0x100 + s[3]
  }

  /** Clearing the reserved bit. */
  function GetU31(s: seq<Byte>): (v: nat)
    requires |s| >= 4
  {
    GetU32(s) % 0x8000_0000
  }

  lemma BytesOfWord(v: nat)
    requires v < 0x1_0000_0000
    ensures GetU32(U32(v)) == v
  {
    var a, b, c := v / 0x100, v / 0x1_0000, v / 0x100_0000;
    assert a / 0x100 == b && b / 0x100 == c;
  }

  lemma BytesOfLength(v: nat)
    requires v < 0x100_0000
    ensures GetU24(U24(v)) == v
  {
    var a, b := v / 0x100, v / 0x1_0000;
    assert a / 0x100 == b;
  }

  predicate Printable(f: Frame) {
    |f.payload| < 0x100_0000 && f.sid < 0x8000_0000
  }

  /** h2_append_frame: the bytes of one frame. */
  function FrameBytes(f: Frame): (s: seq<Byte>)
    ensures |s| == 9 + |f.payload|
  {
    U24(|f.payload|) + [f.kind, f.flags] + U32(f.sid % 0x8000_0000) + f.payload
  }

  /** The frame at the start of `s`, once all of it has arrived. */
  function ReadFrame(s: seq<Byte>): (r: Option<Frame>)
    ensures r.Some? ==> |s| >= 9 + |r.value.payload| && Printable(r.value)
  {
    if |s| < 9 then None
    else
      var plen := GetU24(s);
      if 9 + plen > |s| then None
      else Some(Frame(s[3], s[4], GetU31(s[5..]), s[9..9 + plen]))
  }

  function FrameLength(f: Frame): (n: nat)
    ensures n >= 9
  {
    9 + |f.payload|
  }

  /** The complete frames at the start of a buffer. */
  function FramesOf(s: seq<Byte>): (fs: seq<Frame>)
    decreases |s|
  {
    match ReadFrame(s)
    case None => []
    case Some(f) => [f] + FramesOf(s[FrameLength(f)..])
  }

  function WireOf(fs: seq<Frame>): (s: seq<Byte>) {
    if fs == [] then [] else FrameBytes(fs[0]) + WireOf(fs[1..])
  }

  /** Where the frames end in the buffer. */
  function Extent(fs: seq<Frame>): (n: nat) {
    if fs == [] then 0 else FrameLength(fs[0]) + Extent(fs[1..])
  }

  /** Frame round trip, whatever bytes follow. */
  lemma ReadFrameBytes(f: Frame, rest: seq<Byte>)
    requires Printable(f)
    ensures ReadFrame(FrameBytes(f) + rest) == Some(f)
  {
    hide FrameBytes, U24, U32, GetU24, GetU32;
    var s := FrameBytes(f) + rest;
    FrameLayout(f, rest);
    BytesOfLength(|f.payload|);
    GetU24Prefix(s);
    BytesOfWord(f.sid);
    GetU32Prefix(s[5..]);
    assert s[5..][..4] == s[5..9];
  }

  /** Where the fields of a printed frame are. */
  lemma FrameLayout(f: Frame, rest: seq<Byte>)
    ensures var s := FrameBytes(f) + rest;
            && |s| >= 9 + |f.payload|
            && s[..3] == U24(|f.payload|) && s[3] == f.kind && s[4] == f.flags
            && s[5..9] == U32(f.sid % 0x8000_0000) && s[9..9 + |f.payload|] == f.payload
  {
  }

  lemma GetU24Prefix(s: seq<Byte>)
    requires |s| >= 3
    ensures GetU24(s) == GetU24(s[..3])
  {
  }

  lemma GetU32Prefix(s: seq<Byte>)
    requires |s| >= 4
    ensures GetU32(s) == GetU32(s[..4])
  {
  }

  lemma FramesStep(s: seq<Byte>, f: Frame)
    requires ReadFrame(s) == Some(f)
    ensures FramesOf(s) == [f] + FramesOf(s[FrameLength(f)..])
  {
  }

  /** Printing any frames and parsing the bytes gives the frames back. */
  lemma {:induction false} FramesRoundTrip(fs: seq<Frame>, rest: seq<Byte>)
    requires forall f :: f in fs ==> Printable(f)
    ensures FramesOf(WireOf(fs) + rest) == fs + FramesOf(rest)
  {
    hide ReadFrame, FrameBytes, Printable, FramesOf;
    if fs == [] {
      assert WireOf(fs) + rest == rest && fs + FramesOf(rest) == FramesOf(rest);
    } else {
      var more := WireOf(fs[1..]) + rest;
      assert WireOf(fs) + rest == FrameBytes(fs[0]) + more;
      ReadFrameBytes(fs[0], more);
      FramesStep(FrameBytes(fs[0]) + more, fs[0]);
      assert (FrameBytes(fs[0]) + more)[FrameLength(fs[0])..] == more;
      FramesRoundTrip(fs[1..], rest);
      assert [fs[0]] + (fs[1..] + FramesOf(rest)) == fs + FramesOf(rest);
    }
  }

  /** A frame that has arrived stays the same when more bytes arrive. */
  lemma ReadFrameMore(s: seq<Byte>, more: seq<Byte>)
    requires ReadFrame(s).Some?
    ensures ReadFrame(s + more) == ReadFrame(s)
  {
    var n := 9 + GetU24(s);
    assert (s + more)[..n] == s[..n];
    assert (s + more)[5..9] == s[5..9];
    assert GetU31((s + more)[5..]) == GetU31(s[5..]);
  }

  /** However the bytes are split across reads, the frames only grow. */
  lemma {:induction false} FramesGrow(s: seq<Byte>, more: seq<Byte>)
    ensures FramesOf(s) <= FramesOf(s + more)
    decreases |s|
  {
    var r := ReadFrame(s);
    if r.Some? {
      ReadFrameMore(s, more);
      var n := FrameLength(r.value);
      assert (s + more)[n..] == s[n..] + more;
      FramesGrow(s[n..], more);
    }
  }

  lemma {:induction false} ExtentAppend(fs: seq<Frame>, gs: seq<Frame>)
    ensures Extent(fs + gs) == Extent(fs) + Extent(gs)
  {
    if fs == [] {
      assert fs + gs == gs;
    } else {
      assert (fs + gs)[1..] == fs[1..] + gs;
      ExtentAppend(fs[1..], gs);
    }
  }

  /** Different frame numbers start at different offsets. */
  lemma {:induction false} ExtentStrict(fs: seq<Frame>, i: nat, j: nat)
    requires i <= j <= |fs|
    ensures Extent(fs[..i]) <= Extent(fs[..j])
    ensures Extent(fs[..i]) == Extent(fs[..j]) ==> i == j
  {
    assert fs[..j] == fs[..i] + fs[i..j];
    ExtentAppend(fs[..i], fs[i..j]);
    assert i < j ==> fs[i..j] != [];
  }
}
