/**
 What a peer that follows RFC 7541 may send, and that the client reads it as the
 standard means it: every choice of representation, raw or Huffman strings,
 incremental indexing, indexed names, table size updates.
 */
module HpackWire {
  import opened Bits
  import opened Wrappers
  import opened HpackInt
  import opened HpackTable
  import opened HpackBlock
  import opened HuffmanTable

  datatype Str = Raw(text: seq<Byte>) | Huffman(text: seq<Byte>)

  datatype Kind = Incremental | Plain | NeverIndexed

  /** A field representation of section 6; `nameIdx` 0 means the name is spelled out. */
  datatype Rep =
    | Indexed(idx: nat)
    | Field(kind: Kind, nameIdx: nat, name: Str, value: Str)
    | SizeUpdate(max: nat)

  lemma PrefixFacts()
    ensures Low(0, 4) == Low(16, 4) == Low(32, 5) == Low(64, 6) == Low(0, 7) == Low(128, 7) == 0
    ensures Pow2(4) == 16 && Pow2(5) == 32 && Pow2(6) == 64 && Pow2(7) == 128
  {
  }

  /** How many bits complete the last byte. */
  function PadLength(n: nat): (p: nat)
    ensures p < 8 && (n + p) % 8 == 0
  {
    (8 - n % 8) % 8
  }

  /** Section 5.2: the Huffman code of a string, padded with ones to whole bytes. */
  ghost function HuffBytes(s: seq<Byte>): (b: seq<Byte>)
  {
    var x := HuffEncode(s);
    BytesOfBits(x + Ones(PadLength(|x|)))
  }

  lemma HuffBytesRoundTrip(s: seq<Byte>, room: nat)
    ensures HuffOutcome(ByteBits(HuffBytes(s)), room) == (if |s| <= room then Some(s) else None)
  {
    var x := HuffEncode(s);
    ByteBitsOfBytes(x + Ones(PadLength(|x|)));
    HuffmanInversion(s, PadLength(|x|), room);
  }

  ghost function StrBytes(t: Str): (b: seq<Byte>) {
    PrefixFacts();
    match t
    case Raw(s) => IntBytes(|s|, 7, 0) + s
    case Huffman(s) => IntBytes(|HuffBytes(s)|, 7, 128) + HuffBytes(s)
  }

  /** The length fits the 32-bit integers of the decoder. */
  ghost predicate StrLegal(t: Str) {
    match t
    case Raw(s) => |s| < WORD
    case Huffman(s) => |HuffBytes(s)| < WORD
  }

  /** How reading a string into `room` bytes ends: a Huffman string that fills them has its zero written past them. */
  function StrEnd(t: Str, room: nat): (e: Ending) {
    if |t.text| < room then Whole
    else if t.Huffman? && |t.text| == room then PastBuffer
    else Broken
  }

  function AsPart<T>(e: Ending, value: T): (p: Part<T>) {
    match e
    case Whole => Got(value)
    case Broken => Refused
    case PastBuffer => Spilled
  }

  ghost function RepBytes(r: Rep): (b: seq<Byte>)
    ensures |b| >= 1
  {
    PrefixFacts();
    match r
    case Indexed(i) => IntBytes(i, 7, 128)
    case SizeUpdate(n) => IntBytes(n, 5, 32)
    case Field(kind, idx, name, value) =>
      var start := match kind
        case Incremental => IntBytes(idx, 6, 64)
        case Plain => IntBytes(idx, 4, 0)
        case NeverIndexed => IntBytes(idx, 4, 16);
      start + (if idx == 0 then StrBytes(name) else []) + StrBytes(value)
  }

  ghost predicate RepLegal(r: Rep) {
    match r
    case Indexed(i) => i < WORD
    case SizeUpdate(n) => n < WORD
    case Field(_, idx, name, value) => idx < WORD && (idx == 0 ==> StrLegal(name)) && StrLegal(value)
  }

  ghost function BlockBytes(rs: seq<Rep>): (b: seq<Byte>) {
    if rs == [] then [] else RepBytes(rs[0]) + BlockBytes(rs[1..])
  }

  // ------------------------------------------------------------ strings

  /** A length prefix and a body of that length, read back. */
  lemma ReadBody(b: seq<Byte>, hi: nat, rest: seq<Byte>)
    requires |b| < WORD && (hi == 0 || hi == 128)
    requires Low(hi, 7) == 0 && Pow2(7) == 128
    ensures var len := IntBytes(|b|, 7, hi);
            var w := len + b + rest;
            && ReadInt(w, 7) == Some(Int(|b|, |len|))
            && w[|len|..|len| + |b|] == b
            && (w[0] >= 128 <==> hi == 128)
  {
    var len := IntBytes(|b|, 7, hi);
    assert len + b + rest == len + (b + rest);
    IntRoundTrip(|b|, 7, hi, b + rest);
  }

  lemma ReadRaw(s: seq<Byte>, rest: seq<Byte>, room: nat)
    requires |s| < WORD
    ensures ReadString(StrBytes(Raw(s)) + rest, room) ==
            if |s| < room then Got(Text(s, |StrBytes(Raw(s))|)) else Refused
  {
    PrefixFacts();
    ReadBody(s, 0, rest);
  }

  lemma ReadHuffman(s: seq<Byte>, rest: seq<Byte>, room: nat)
    requires |HuffBytes(s)| < WORD
    ensures ReadString(StrBytes(Huffman(s)) + rest, room) ==
            if |s| < room then Got(Text(s, |StrBytes(Huffman(s))|)) else if |s| == room then Spilled else Refused
  {
    hide HuffOutcome, HuffEncode;
    PrefixFacts();
    ReadBody(HuffBytes(s), 128, rest);
    HuffBytesRoundTrip(s, room);
  }

  lemma ReadStr(t: Str, rest: seq<Byte>, room: nat)
    requires StrLegal(t)
    ensures ReadString(StrBytes(t) + rest, room) ==
            AsPart(StrEnd(t, room), Text(t.text, |StrBytes(t)|))
  {
    match t
    case Raw(s) => ReadRaw(s, rest, room);
    case Huffman(s) => ReadHuffman(s, rest, room);
  }

  // ------------------------------------------------------------ one representation

  /** A step of a decoder: at most one header, and the table after it. */
  datatype Step<T> = Step(headers: seq<Header>, table: T)

  /** A step of the client, or how it ends the block. */
  datatype Turn = Stop(end: Ending) | Go(step: Step<seq<Header>>)

  /** The header a literal representation spells, given what index lookup answers. */
  function FieldHeader(lookup: Option<Header>, r: Rep): (h: Option<Header>)
    requires r.Field?
  {
    if r.nameIdx == 0 then Some(Header(r.name.text, r.value.text))
    else if lookup.None? then None
    else Some(Header(lookup.value.name, r.value.text))
  }

  /** How the name of a literal is read. */
  function NameEnd(r: Rep, name: seq<Byte>): (e: Ending)
    requires r.Field?
  {
    if r.nameIdx == 0 then StrEnd(r.name, NAME_SIZE) else if |name| < NAME_SIZE then Whole else Broken
  }

  /** How a literal with the header `h` is read: its name, its value, and the room for it in the table. */
  function FieldEnd(r: Rep, h: Header): (e: Ending)
    requires r.Field?
  {
    if !NameEnd(r, h.name).Whole? then NameEnd(r, h.name)
    else if !StrEnd(r.value, VALUE_SIZE).Whole? then StrEnd(r.value, VALUE_SIZE)
    else if r.kind.Incremental? && !Storable(h) then Broken
    else Whole
  }

  /** What the client does with a representation. */
  function ClientStep(r: Rep, table: seq<Header>): (s: Turn) {
    match r
    case Indexed(i) =>
      (match Lookup(table, i) case None => Stop(Broken) case Some(h) => Go(Step([h], table)))
    case SizeUpdate(_) => Go(Step([], table))
    case Field(kind, idx, name, value) =>
      match FieldHeader(Lookup(table, idx), r)
      case None => Stop(Broken)
      case Some(h) =>
        if !FieldEnd(r, h).Whole? then Stop(FieldEnd(r, h))
        else Go(Step([h], if kind.Incremental? then Inserted(table, h) else table))
  }

  /** The bytes of the name, when it is spelled out. */
  ghost function NameBytes(r: Rep): seq<Byte>
    requires r.Field?
  {
    if r.nameIdx == 0 then StrBytes(r.name) else []
  }

  /** The name a literal uses, as the client reads it. */
  ghost function NameText(r: Rep, table: seq<Header>): Part<Text>
    requires r.Field?
  {
    var h := FieldHeader(Lookup(table, r.nameIdx), r);
    if h.None? then Refused else AsPart(NameEnd(r, h.value.name), Text(h.value.name, |NameBytes(r)|))
  }

  lemma ReadNameRep(r: Rep, rest: seq<Byte>, table: seq<Header>)
    requires r.Field? && RepLegal(r)
    ensures ReadName(NameBytes(r) + rest, r.nameIdx, table) == NameText(r, table)
  {
    if r.nameIdx == 0 { ReadStr(r.name, rest, NAME_SIZE); }
  }

  /** A literal, from what its name and its value are read as. */
  ghost function LiteralPart(name: Part<Text>, r: Rep, used: nat): (l: Part<Literal>)
    requires r.Field?
  {
    match name
    case Refused => Refused
    case Spilled => Spilled
    case Got(n) => AsPart(StrEnd(r.value, VALUE_SIZE), Literal(Header(n.bytes, r.value.text), used))
  }

  lemma ReadLiteralRep(start: seq<Byte>, prefix: nat, r: Rep, rest: seq<Byte>, table: seq<Header>)
    requires r.Field? && RepLegal(r) && 1 <= prefix <= 8
    requires ReadInt(start + NameBytes(r) + StrBytes(r.value) + rest, prefix) == Some(Int(r.nameIdx, |start|))
    ensures ReadLiteral(start + NameBytes(r) + StrBytes(r.value) + rest, prefix, table) ==
            LiteralPart(NameText(r, table), r, |start + NameBytes(r) + StrBytes(r.value)|)
  {
    hide ReadString, StrBytes, ReadName, NameBytes, ReadInt;
    var s := start + NameBytes(r) + StrBytes(r.value) + rest;
    var after := StrBytes(r.value) + rest;
    assert s[|start|..] == NameBytes(r) + after;
    ReadNameRep(r, after, table);
    assert s[|start| + |NameBytes(r)|..] == after;
    ReadStr(r.value, rest, VALUE_SIZE);
  }

  ghost function AsField(s: Turn, used: nat): Field {
    match s
    case Stop(e) => if e.PastBuffer? then Wild else Bad
    case Go(step) => Good(step.headers, step.table, used)
  }

  lemma ReadFieldRep(r: Rep, rest: seq<Byte>, table: seq<Header>)
    requires r.Field? && RepLegal(r)
    ensures ReadField(RepBytes(r) + rest, table) == AsField(ClientStep(r, table), |RepBytes(r)|)
  {
    hide ReadLiteral, StrBytes, IntBytes, ReadInt, Lookup, Storable, RepBytes, NameBytes, Inserted;
    PrefixFacts();
    KindBytes(r);
    match r.kind
    case Incremental => ReadKind(r, 6, 64, rest, table);
    case Plain => ReadKind(r, 4, 0, rest, table);
    case NeverIndexed => ReadKind(r, 4, 16, rest, table);
  }

  lemma KindBytes(r: Rep)
    requires r.Field?
    ensures PrefixOf(r.kind).0 <= 8 && Low(PrefixOf(r.kind).1, PrefixOf(r.kind).0) == 0
            && PrefixOf(r.kind).1 + Pow2(PrefixOf(r.kind).0) <= 256
    ensures RepBytes(r) ==
            IntBytes(r.nameIdx, PrefixOf(r.kind).0, PrefixOf(r.kind).1) + NameBytes(r) + StrBytes(r.value)
  {
    hide StrBytes, IntBytes;
    PrefixFacts();
  }

  /** The prefix length of a literal and the pattern above it. */
  function PrefixOf(kind: Kind): (p: (nat, nat))
    ensures 1 <= p.0
  {
    match kind
    case Incremental => (6, 64)
    case Plain => (4, 0)
    case NeverIndexed => (4, 16)
  }

  lemma ReadKind(r: Rep, prefix: nat, hi: nat, rest: seq<Byte>, table: seq<Header>)
    requires r.Field? && RepLegal(r) && 1 <= prefix <= 8
    requires Low(hi, prefix) == 0 && hi + Pow2(prefix) <= 256
    requires RepBytes(r) == IntBytes(r.nameIdx, prefix, hi) + NameBytes(r) + StrBytes(r.value)
    ensures hi <= (RepBytes(r) + rest)[0] < hi + Pow2(prefix)
    ensures ReadLiteral(RepBytes(r) + rest, prefix, table) == LiteralPart(NameText(r, table), r, |RepBytes(r)|)
  {
    hide *;
    var start := IntBytes(r.nameIdx, prefix, hi);
    var tail := NameBytes(r) + StrBytes(r.value) + rest;
    RepIndex(r);
    Regrouped(start, NameBytes(r), StrBytes(r.value), rest);
    IntRoundTrip(r.nameIdx, prefix, hi, tail);
    ReadLiteralRep(start, prefix, r, rest, table);
  }

  lemma RepIndex(r: Rep)
    requires r.Field? && RepLegal(r)
    ensures r.nameIdx < WORD
  {
  }

  lemma Regrouped(a: seq<Byte>, b: seq<Byte>, c: seq<Byte>, d: seq<Byte>)
    ensures a + b + c + d == a + (b + c + d) && (a != [] ==> (a + b + c + d)[0] == a[0])
  {
  }

  /** The wire format of one representation, read back, whatever follows it. */
  lemma ReadRep(r: Rep, rest: seq<Byte>, table: seq<Header>)
    requires RepLegal(r)
    ensures ReadField(RepBytes(r) + rest, table) == AsField(ClientStep(r, table), |RepBytes(r)|)
  {
    PrefixFacts();
    match r
    case Indexed(i) => IntRoundTrip(i, 7, 128, rest);
    case SizeUpdate(n) => IntRoundTrip(n, 5, 32, rest);
    case Field(_, _, _, _) => ReadFieldRep(r, rest, table);
  }

  // ------------------------------------------------------------ blocks

  function ClientRun(rs: seq<Rep>, table: seq<Header>): (d: Decoded) {
    if rs == [] then Decoded([], table, Whole)
    else
      match ClientStep(rs[0], table)
      case Stop(e) => Decoded([], table, if e.PastBuffer? then PastBuffer else Broken)
      case Go(s) =>
        var d := ClientRun(rs[1..], s.table);
        Decoded(s.headers + d.headers, d.table, d.end)
  }

  /** The decoder on a block is the meaning of its representations, one after the other. */
  lemma {:induction false} BlockRoundTrip(rs: seq<Rep>, table: seq<Header>)
    requires forall r :: r in rs ==> RepLegal(r)
    ensures ReadBlock(BlockBytes(rs), table) == ClientRun(rs, table)
  {
    hide RepBytes, ReadField, ClientStep;
    if rs != [] {
      var rest := BlockBytes(rs[1..]);
      ReadRep(rs[0], rest, table);
      var f := ReadField(BlockBytes(rs), table);
      if f.Good? {
        assert BlockBytes(rs)[f.used..] == rest;
        BlockRoundTrip(rs[1..], f.table);
      }
    }
  }

  // ------------------------------------------------------------ RFC 7541

  /** The standard's meaning of a representation; `None` is a decoding error. */
  function RfcStep(r: Rep, t: RfcTable): (s: Option<Step<RfcTable>>) {
    match r
    case Indexed(i) =>
      (match Lookup(t.entries, i) case None => None case Some(h) => Some(Step([h], t)))
    case SizeUpdate(n) => Some(Step([], RfcResized(t, n)))
    case Field(kind, idx, _, _) =>
      match FieldHeader(Lookup(t.entries, idx), r)
      case None => None
      case Some(h) => Some(Step([h], if kind.Incremental? then RfcInserted(t, h) else t))
  }

  /** What the client's limits make of a representation the standard allows. */
  function LimitOf(r: Rep, t: RfcTable): (e: Ending)
    requires RfcStep(r, t).Some?
  {
    match r
    case Indexed(i) => if i <= STATIC_ENTRIES + DYN_MAX then Whole else Broken
    case SizeUpdate(_) => Whole
    case Field(_, idx, _, _) =>
      if idx > STATIC_ENTRIES + DYN_MAX then Broken else FieldEnd(r, RfcStep(r, t).value.headers[0])
  }

  /** One representation: the client goes on exactly within its limits, and then as the standard does. */
  lemma StepAgrees(r: Rep, t: RfcTable, table: seq<Header>)
    requires Agree(t.entries, table) && RfcStep(r, t).Some?
    ensures LimitOf(r, t).Whole? ==>
              && ClientStep(r, table).Go?
              && ClientStep(r, table).step.headers == RfcStep(r, t).value.headers
              && Agree(RfcStep(r, t).value.table.entries, ClientStep(r, table).step.table)
    ensures !LimitOf(r, t).Whole? ==> ClientStep(r, table) == Stop(LimitOf(r, t))
  {
    match r
    case Indexed(i) =>
      if i <= STATIC_ENTRIES + DYN_MAX { LiveIndexAgrees(t.entries, table, i); } else { DeadIndex(table, i); }
    case SizeUpdate(n) =>
      AgreeAfterResize(t, table, n);
    case Field(kind, idx, _, _) =>
      if 0 < idx <= STATIC_ENTRIES + DYN_MAX { LiveIndexAgrees(t.entries, table, idx); }
      if idx > STATIC_ENTRIES + DYN_MAX { DeadIndex(table, idx); }
      var h := RfcStep(r, t).value.headers[0];
      if Storable(h) { AgreeAfterInsert(t, table, h); }
  }

  lemma DeadIndex(table: seq<Header>, idx: nat)
    requires idx > STATIC_ENTRIES + DYN_MAX
    ensures |table| <= DYN_MAX ==> Lookup(table, idx).None?
  {
  }

  /** The standard's run over a block, and how the client's limits end it. */
  datatype RfcRun = RfcError | RfcOk(headers: seq<Header>, table: RfcTable, client: Ending)

  function RunRfc(rs: seq<Rep>, t: RfcTable): (d: RfcRun) {
    if rs == [] then RfcOk([], t, Whole)
    else
      match RfcStep(rs[0], t)
      case None => RfcError
      case Some(s) =>
        match RunRfc(rs[1..], s.table)
        case RfcError => RfcError
        case RfcOk(hs, t', client) =>
          RfcOk(s.headers + hs, t', if LimitOf(rs[0], t).Whole? then client else LimitOf(rs[0], t))
  }

  /**
   On every block the standard gives a meaning to, the client ends as its limits say: it reports exactly the
   standard's headers when they hold along the block, writes past a buffer when the first string that breaks
   them is a Huffman string of exactly the buffer's size, and fails otherwise.
   */
  lemma {:induction false} RunAgrees(rs: seq<Rep>, t: RfcTable, table: seq<Header>)
    requires Agree(t.entries, table) && RunRfc(rs, t).RfcOk?
    ensures var rfc, d := RunRfc(rs, t), ClientRun(rs, table);
            && d.end == rfc.client
            && (d.end.Whole? ==> d.headers == rfc.headers && Agree(rfc.table.entries, d.table))
  {
    hide ClientStep, RfcStep, LimitOf, Agree;
    if rs != [] {
      StepAgrees(rs[0], t, table);
      var s := ClientStep(rs[0], table);
      if s.Go? { RunAgrees(rs[1..], RfcStep(rs[0], t).value.table, s.step.table); }
    }
  }

  /** The same, from the bytes on the wire. */
  lemma WireAgrees(rs: seq<Rep>, t: RfcTable, table: seq<Header>)
    requires Agree(t.entries, table) && RunRfc(rs, t).RfcOk?
    requires forall r :: r in rs ==> RepLegal(r)
    ensures var rfc, d := RunRfc(rs, t), ReadBlock(BlockBytes(rs), table);
            && d.end == rfc.client
            && (d.end.Whole? ==> d.headers == rfc.headers && Agree(rfc.table.entries, d.table))
  {
    hide ReadBlock, BlockBytes, ClientRun, RunRfc, RepLegal;
    BlockRoundTrip(rs, table);
    RunAgrees(rs, t, table);
  }
}
