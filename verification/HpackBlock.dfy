/**
 HPACK header blocks (RFC 7541 section 6): what the client's decoder makes of a
 block, proved against the wire format and the dynamic table of the standard.
 */
module HpackBlock {
  import opened Bits
  import opened Wrappers
  import opened HpackInt
  import opened HpackTable
  import opened HuffmanTable

  const NAME_SIZE: nat := 256
  const VALUE_SIZE: nat := 1024

  datatype Text = Text(bytes: seq<Byte>, used: nat)

  /** What reading a part gives: a refusal, a write past the end of a buffer, or the part. */
  datatype Part<+T> = Refused | Spilled | Got(value: T)

  /** A string literal at the start of `s`, for a buffer of `room` bytes that also takes the final zero. */
  ghost function ReadString(s: seq<Byte>, room: nat): (r: Part<Text>)
    ensures r.Got? ==> 1 <= r.value.used <= |s| && |r.value.bytes| < room
  {
    match ReadInt(s, 7)
    case None => Refused
    case Some(i) =>
      if i.used + i.value > |s| then Refused
      else
        var body := s[i.used..i.used + i.value];
        if s[0] >= 128 then
          match HuffOutcome(ByteBits(body), room)
          case None => Refused
          case Some(text) => if |text| < room then Got(Text(text, i.used + i.value)) else Spilled
        else if i.value >= room then Refused
        else Got(Text(body, i.used + i.value))
  }

  /**
   The terminator is written past the buffer exactly for a Huffman string whose decoding fills it;
   a raw string is refused before it can.
   */
  lemma SpillsExactly(s: seq<Byte>, room: nat)
    ensures ReadString(s, room).Spilled? <==>
            && s != [] && s[0] >= 128 && ReadInt(s, 7).Some?
            && var i := ReadInt(s, 7).value;
               && i.used + i.value <= |s|
               && var text := HuffOutcome(ByteBits(s[i.used..i.used + i.value]), room);
                  text.Some? && |text.value| == room
  {
    hide HuffOutcome;
    OutcomeFits(s, room);
  }

  lemma OutcomeFits(s: seq<Byte>, room: nat)
    ensures s != [] && ReadInt(s, 7).Some? ==>
            var i := ReadInt(s, 7).value;
            i.used + i.value <= |s| ==>
              var text := HuffOutcome(ByteBits(s[i.used..i.used + i.value]), room);
              text.Some? ==> |text.value| <= room
  {
    hide HuffOutcome, ReadInt;
    if s != [] && ReadInt(s, 7).Some? {
      var i := ReadInt(s, 7).value;
      if i.used + i.value <= |s| {
        var x := ByteBits(s[i.used..i.used + i.value]);
        if HuffOutcome(x, room).Some? { HuffmanExact(x, room, HuffOutcome(x, room).value); }
      }
    }
  }

  /** hpack_decode_string into the buffer `dst`; it stops where the terminator would not fit. */
  method DecodeString(buf: seq<Byte>, p: nat, dst: array<Byte>) returns (r: Part<Text>)
    requires p <= |buf|
    modifies dst
    ensures r == ReadString(buf[p..], dst.Length)
    ensures r.Got? ==> dst[..|r.value.bytes|] == r.value.bytes && dst[|r.value.bytes|] == 0
  {
    hide HuffOutcome;
    if p >= |buf| {
      return Refused;
    }
    var huffman := buf[p] >= 128;
    var len := DecodeInt(buf, p, 7);
    if len.None? {
      return Refused;
    }
    var q, slen := p + len.value.used, len.value.value;
    if q + slen > |buf| {
      return Refused;
    }
    var body := buf[q..q + slen];
    assert body == buf[p..][len.value.used..len.value.used + slen];
    var text := body;
    if huffman {
      var decoded := DecodeHuffman(body, dst.Length);
      if decoded.None? {
        return Refused;
      }
      text := decoded.value;
      if |text| >= dst.Length {
        return Spilled;
      }
    } else if slen >= dst.Length {
      return Refused;
    }
    Store(dst, text);
    return Got(Text(text, len.value.used + slen));
  }

  /** The bytes and the zero after them. */
  method Store(dst: array<Byte>, text: seq<Byte>)
    requires |text| < dst.Length
    modifies dst
    ensures dst[..|text|] == text && dst[|text|] == 0
  {
    for i := 0 to |text|
      invariant dst[..i] == text[..i]
    {
      dst[i] := text[i];
    }
    dst[|text|] := 0;
  }

  datatype Literal = Literal(header: Header, used: nat)

  /** A literal field: a name, indexed or spelled out, and a value. */
  ghost function ReadLiteral(s: seq<Byte>, prefix: nat, table: seq<Header>): (r: Part<Literal>)
    requires 1 <= prefix <= 8
    ensures r.Got? ==> 1 <= r.value.used <= |s|
  {
    match ReadInt(s, prefix)
    case None => Refused
    case Some(i) =>
      match ReadName(s[i.used..], i.value, table)
      case Refused => Refused
      case Spilled => Spilled
      case Got(name) =>
        match ReadString(s[i.used + name.used..], VALUE_SIZE)
        case Refused => Refused
        case Spilled => Spilled
        case Got(value) => Got(Literal(Header(name.bytes, value.bytes), i.used + name.used + value.used))
  }

  ghost function ReadName(s: seq<Byte>, idx: nat, table: seq<Header>): (r: Part<Text>)
    ensures r.Got? ==> r.value.used <= |s|
  {
    if idx == 0 then ReadString(s, NAME_SIZE)
    else match Lookup(table, idx)
      case None => Refused
      case Some(h) => if |h.name| >= NAME_SIZE then Refused else Got(Text(h.name, 0))
  }

  /** The literal branches of hpack_decode_block, with its two buffers. */
  method DecodeLiteral(buf: seq<Byte>, p: nat, prefix: nat, dt: DynTable) returns (r: Part<Literal>)
    requires p <= |buf| && 1 <= prefix <= 8 && dt.Valid()
    ensures r == ReadLiteral(buf[p..], prefix, dt.Contents())
  {
    hide HuffOutcome, ReadString;
    var idx := DecodeInt(buf, p, prefix);
    if idx.None? {
      return Refused;
    }
    var q := p + idx.value.used;
    assert buf[p..][idx.value.used..] == buf[q..];
    var name: seq<Byte>;
    if idx.value.value == 0 {
      var nameBuffer := new Byte[NAME_SIZE];
      var text := DecodeString(buf, q, nameBuffer);
      if !text.Got? {
        return if text.Refused? then Refused else Spilled;
      }
      name := nameBuffer[..|text.value.bytes|];
      q := q + text.value.used;
    } else {
      var h := dt.Find(idx.value.value);
      if h.None? || |h.value.name| >= NAME_SIZE {
        return Refused;
      }
      name := h.value.name;
    }
    assert buf[p..][q - p..] == buf[q..];
    var valueBuffer := new Byte[VALUE_SIZE];
    var value := DecodeString(buf, q, valueBuffer);
    if !value.Got? {
      return if value.Refused? then Refused else Spilled;
    }
    return Got(Literal(Header(name, valueBuffer[..|value.value.bytes|]), q + value.value.used - p));
  }

  /** One field representation: refused, past a buffer, or at most one header and the table after it. */
  datatype Field = Bad | Wild | Good(headers: seq<Header>, table: seq<Header>, used: nat)

  ghost function ReadField(s: seq<Byte>, table: seq<Header>): (f: Field)
    requires s != []
    ensures f.Good? ==> 1 <= f.used <= |s|
  {
    if s[0] >= 128 then
      match ReadInt(s, 7)
      case None => Bad
      case Some(i) =>
        (match Lookup(table, i.value)
         case None => Bad
         case Some(h) => Good([h], table, i.used))
    else if s[0] >= 64 then
      match ReadLiteral(s, 6, table)
      case Refused => Bad
      case Spilled => Wild
      case Got(l) => if Storable(l.header) then Good([l.header], Inserted(table, l.header), l.used) else Bad
    else if s[0] >= 32 then
      match ReadInt(s, 5)
      case None => Bad
      case Some(i) => Good([], table, i.used)
    else
      match ReadLiteral(s, 4, table)
      case Refused => Bad
      case Spilled => Wild
      case Got(l) => Good([l.header], table, l.used)
  }

  /** How a block ends: understood to its end, refused, or at a write past a buffer. */
  datatype Ending = Whole | Broken | PastBuffer

  /** The headers reported, the table left, and how the decoding ended. */
  datatype Decoded = Decoded(headers: seq<Header>, table: seq<Header>, end: Ending)

  ghost function ReadBlock(s: seq<Byte>, table: seq<Header>): (d: Decoded)
    decreases |s|
  {
    if s == [] then Decoded([], table, Whole)
    else match ReadField(s, table)
      case Bad => Decoded([], table, Broken)
      case Wild => Decoded([], table, PastBuffer)
      case Good(hs, t, used) =>
        var d := ReadBlock(s[used..], t);
        Decoded(hs + d.headers, d.table, d.end)
  }

  /** One turn of the loop in hpack_decode_block. */
  method DecodeField(buf: seq<Byte>, p: nat, dt: DynTable) returns (end: Ending, headers: seq<Header>, used: nat)
    requires p < |buf| && dt.Valid()
    modifies dt, dt.e
    ensures dt.Valid()
    ensures var f := ReadField(buf[p..], old(dt.Contents()));
            if end.Whole? then f == Good(headers, dt.Contents(), used)
            else f == (if end.Broken? then Bad else Wild) && headers == [] && dt.Contents() == old(dt.Contents())
  {
    hide ReadLiteral;
    var b := buf[p];
    if b >= 128 {
      var idx := DecodeInt(buf, p, 7);
      if idx.None? {
        return Broken, [], 0;
      }
      var h := dt.Find(idx.value.value);
      if h.None? {
        return Broken, [], 0;
      }
      return Whole, [h.value], idx.value.used;
    }
    if b >= 64 {
      var l := DecodeLiteral(buf, p, 6, dt);
      if !l.Got? {
        return if l.Refused? then Broken else PastBuffer, [], 0;
      }
      var h := l.value.header;
      if |h.name| >= DYN_NAME_SIZE || |h.value| >= DYN_VALUE_SIZE {
        return Broken, [], 0;
      }
      dt.Insert(h);
      return Whole, [h], l.value.used;
    }
    if b >= 32 {
      var size := DecodeInt(buf, p, 5);
      if size.None? {
        return Broken, [], 0;
      }
      return Whole, [], size.value.used;
    }
    var l := DecodeLiteral(buf, p, 4, dt);
    if !l.Got? {
      return if l.Refused? then Broken else PastBuffer, [], 0;
    }
    return Whole, [l.value.header], l.value.used;
  }

  /** A decoding that had already reported `pre`. */
  ghost function After(pre: seq<Header>, d: Decoded): Decoded {
    Decoded(pre + d.headers, d.table, d.end)
  }

  lemma AfterField(pre: seq<Header>, s: seq<Byte>, table: seq<Header>)
    requires s != []
    ensures var f := ReadField(s, table);
            After(pre, ReadBlock(s, table)) ==
            if f.Bad? then Decoded(pre, table, Broken)
            else if f.Wild? then Decoded(pre, table, PastBuffer)
            else After(pre + f.headers, ReadBlock(s[f.used..], f.table))
  {
    hide ReadField;
    var f := ReadField(s, table);
    if f.Good? {
      var d := ReadBlock(s[f.used..], f.table);
      assert pre + (f.headers + d.headers) == (pre + f.headers) + d.headers;
    } else {
      assert pre + [] == pre;
    }
  }

  lemma AfterEnds(pre: seq<Header>, table: seq<Header>, d: Decoded)
    ensures After(pre, ReadBlock([], table)) == Decoded(pre, table, Whole) && After([], d) == d
  {
    assert pre + [] == pre && [] + d.headers == d.headers;
  }

  /** hpack_decode_block; `headers` are the callbacks made, in order. */
  method DecodeBlock(buf: seq<Byte>, dt: DynTable) returns (end: Ending, headers: seq<Header>)
    requires dt.Valid()
    modifies dt, dt.e
    ensures dt.Valid() && ReadBlock(buf, old(dt.Contents())) == Decoded(headers, dt.Contents(), end)
  {
    hide ReadBlock, ReadField, After;
    var p := 0;
    headers := [];
    ghost var whole := ReadBlock(buf, dt.Contents());
    AfterEnds([], [], whole);
    assert buf[0..] == buf;
    while p < |buf|
      invariant p <= |buf| && dt.Valid()
      invariant whole == After(headers, ReadBlock(buf[p..], dt.Contents()))
      decreases |buf| - p
    {
      AfterField(headers, buf[p..], dt.Contents());
      var good, hs, used := DecodeField(buf, p, dt);
      if !good.Whole? {
        return good, headers;
      }
      assert buf[p..][used..] == buf[p + used..];
      headers := headers + hs;
      p := p + used;
    }
    assert buf[p..] == [];
    AfterEnds(headers, dt.Contents(), whole);
    return Whole, headers;
  }
}
