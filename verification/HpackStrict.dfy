/**
 What the header block decoder does with bytes: which integers it reads and to what value, that a block cut inside a
 representation is never accepted, the sizes it accepts, and the examples of RFC 7541 Appendix C.
 */
module HpackStrict {
  import opened Bits
  import opened Wrappers
  import opened HpackAppendix
  import opened HpackBlock
  import opened HpackInt
  import opened HpackTable
  import opened HpackWire
  import opened HuffmanCode
  import opened HuffmanTable

  // ---------------------------------------------------------- integers

  /** How many bytes stand before the first one below 128. */
  function Continued(s: seq<Byte>): (k: nat)
    ensures k <= |s|
  {
    if s == [] || s[0] < 128 then 0 else 1 + Continued(s[1..])
  }

  /** The number written in groups of seven bits, the least significant first. */
  function Sevens(s: seq<Byte>): (v: nat) {
    if s == [] then 0 else s[0] % 128 + 128 * Sevens(s[1..])
  }

  /** Adding the first group and then the others, modulo 2^32 each time. */
  lemma AddGroups(acc: nat, first: nat, p: nat, rest: nat)
    ensures ((acc + first * p) % WORD + (128 * p) * rest) % WORD == (acc + p * (first + 128 * rest)) % WORD
  {
    assert p * (first + 128 * rest) == first * p + (128 * p) * rest;
    WrapTwice(acc + first * p, (128 * p) * rest);
  }

  lemma WrapTwice(a: nat, b: nat)
    ensures (a % WORD + b) % WORD == (a + b) % WORD
  {
  }

  lemma NextPower(m: nat)
    ensures Pow2(m + 7) == 128 * Pow2(m)
  {
    Pow2Add(m, 7);
    assert Pow2(7) == 128;
  }

  lemma FirstSeven(s: seq<Byte>, k: nat)
    requires k < |s|
    ensures Sevens(s[..k + 1]) == s[0] % 128 + 128 * Sevens(s[1..][..k]) && Sevens(s[1..][..0]) == 0
  {
    assert s[..k + 1][1..] == s[1..][..k];
  }

  /** What the continuation bytes of an integer add to `acc` from the group `j` on. */
  function Summed(s: seq<Byte>, acc: nat, j: nat): (r: Option<Int>) {
    var k := Continued(s);
    if k < |s| && k + j <= 4 then Some(Int((acc + Pow2(7 * j) * Sevens(s[..k + 1])) % WORD, k + 1)) else None
  }

  lemma SummedLast(s: seq<Byte>, acc: nat, j: nat)
    requires s != [] && s[0] < 128 && j <= 4
    ensures Summed(s, acc, j) == Some(Int((acc + (s[0] % 128) * Pow2(7 * j)) % WORD, 1))
  {
    hide Pow2, Sevens;
    FirstSeven(s, 0);
  }

  lemma SummedStep(s: seq<Byte>, acc: nat, j: nat)
    requires s != [] && s[0] >= 128 && j < 4
    ensures var r := Summed(s[1..], (acc + (s[0] % 128) * Pow2(7 * j)) % WORD, j + 1);
            Summed(s, acc, j) == if r.None? then None else Some(Int(r.value.value, r.value.used + 1))
  {
    hide Pow2, Sevens;
    var k := Continued(s);
    if k < |s| && k + j <= 4 {
      FirstSeven(s, k);
      NextPower(7 * j);
      AddGroups(acc, s[0] % 128, Pow2(7 * j), Sevens(s[1..][..k]));
    }
  }

  lemma {:induction false} TailExact(s: seq<Byte>, acc: nat, j: nat)
    requires j <= 4
    ensures ReadTail(s, acc, 7 * j) == Summed(s, acc, j)
    decreases |s|
  {
    hide Pow2, Sevens, Summed, ShiftLeft;
    if s == [] || (s[0] >= 128 && j == 4) {
      Unsummed(s, acc, j);
    } else {
      ShiftLeftIsMul(s[0] % 128, 7 * j);
      if s[0] < 128 {
        SummedLast(s, acc, j);
      } else {
        SummedStep(s, acc, j);
        TailExact(s[1..], (acc + (s[0] % 128) * Pow2(7 * j)) % WORD, j + 1);
      }
    }
  }

  lemma Unsummed(s: seq<Byte>, acc: nat, j: nat)
    requires s == [] || (s[0] >= 128 && j == 4)
    ensures Summed(s, acc, j) == None
  {
  }

  /**
   Integers: one whose first byte is not all ones takes that byte; any other is read exactly when its continuation
   ends within five bytes of the block, and is the sum of its seven-bit groups, taken modulo 2^32.
   */
  lemma IntegerExact(s: seq<Byte>, prefix: nat)
    requires 1 <= prefix <= 8
    ensures var max := Pow2(prefix) - 1;
            ReadInt(s, prefix) ==
              if s == [] then None
              else if Low(s[0], prefix) < max then Some(Int(Low(s[0], prefix), 1))
              else
                var k := Continued(s[1..]);
                if k < |s| - 1 && k <= 4 then Some(Int((max + Sevens(s[1..k + 2])) % WORD, k + 2)) else None
  {
    hide Low, Pow2, Sevens, ReadTail, Continued;
    if s != [] && Low(s[0], prefix) == Pow2(prefix) - 1 {
      TailExact(s[1..], Pow2(prefix) - 1, 0);
      assert Pow2(7 * 0) == 1 by { PowerZero(); }
      var k := Continued(s[1..]);
      if k < |s| - 1 && k <= 4 { assert s[1..][..k + 1] == s[1..k + 2]; }
    }
  }

  lemma PowerZero()
    ensures Pow2(0) == 1
  {
  }

  // ---------------------------------------------------------- blocks that are cut

  lemma {:induction false} UnendedTail(s: seq<Byte>, acc: nat, m: nat)
    requires forall i :: 0 <= i < |s| ==> s[i] >= 128
    ensures ReadTail(s, acc, m) == None
    decreases |s|
  {
    if s != [] { UnendedTail(s[1..], (acc + ShiftLeft(s[0] % 128, m)) % WORD, m + 7); }
  }

  lemma {:induction false} TailContinues(v: nat, i: nat)
    requires i + 1 < |Tail(v)|
    ensures Tail(v)[i] >= 128
  {
    if i > 0 { TailContinues(v / 128, i - 1); }
  }

  lemma IntCut(v: nat, prefix: nat, hi: nat, k: nat)
    requires 1 <= prefix <= 8 && Low(hi, prefix) == 0 && hi + Pow2(prefix) <= 256
    requires k < |IntBytes(v, prefix, hi)|
    ensures ReadInt(IntBytes(v, prefix, hi)[..k], prefix) == None
  {
    hide Low, Tail;
    if k > 0 {
      var max := Pow2(prefix) - 1;
      var s := IntBytes(v, prefix, hi)[..k];
      var t := s[1..];
      assert t == Tail(v - max)[..k - 1];
      forall i | 0 <= i < |t| ensures t[i] >= 128 { TailContinues(v - max, i); }
      LowOfFirst(hi, max, prefix);
      UnendedTail(t, max, 0);
    }
  }

  /** A string that is cut is refused. */
  lemma BodyCut(b: seq<Byte>, hi: nat, k: nat, room: nat)
    requires |b| < WORD && (hi == 0 || hi == 128) && Low(hi, 7) == 0 && Pow2(7) == 128
    requires k < |IntBytes(|b|, 7, hi) + b|
    ensures ReadString((IntBytes(|b|, 7, hi) + b)[..k], room) == Refused
  {
    hide IntBytes, ReadInt, HuffOutcome;
    var len := IntBytes(|b|, 7, hi);
    var s := (len + b)[..k];
    if k < |len| {
      assert s == len[..k];
      IntCut(|b|, 7, hi, k);
    } else {
      assert s == len + b[..k - |len|];
      IntRoundTrip(|b|, 7, hi, b[..k - |len|]);
    }
  }

  lemma StrCut(t: Str, k: nat, room: nat)
    requires StrLegal(t) && k < |StrBytes(t)|
    ensures ReadString(StrBytes(t)[..k], room) == Refused
  {
    hide ReadString, IntBytes;
    PrefixFacts();
    match t
    case Raw(s) => BodyCut(s, 0, k, room);
    case Huffman(s) => BodyCut(HuffBytes(s), 128, k, room);
  }

  /** A literal cut in its index, its name or its value. */
  lemma LiteralCut(start: seq<Byte>, prefix: nat, hi: nat, r: Rep, k: nat, table: seq<Header>)
    requires r.Field? && RepLegal(r) && 1 <= prefix <= 8 && Low(hi, prefix) == 0 && hi + Pow2(prefix) <= 256
    requires start == IntBytes(r.nameIdx, prefix, hi)
    requires k < |start + NameBytes(r) + StrBytes(r.value)|
    ensures !ReadLiteral((start + NameBytes(r) + StrBytes(r.value))[..k], prefix, table).Got?
  {
    hide ReadInt, IntBytes, StrBytes, ReadString, Lookup, NameBytes, ReadName, Low;
    var name := NameBytes(r);
    var s := (start + name + StrBytes(r.value))[..k];
    if k < |start| {
      assert s == start[..k];
      IntCut(r.nameIdx, prefix, hi, k);
    } else {
      var rest := s[|start|..];
      assert s == start + rest;
      IntRoundTrip(r.nameIdx, prefix, hi, rest);
      if k < |start| + |name| {
        assert rest == name[..k - |start|];
        NameCut(r, k - |start|, table);
      } else {
        var value := StrBytes(r.value)[..k - |start| - |name|];
        assert rest == name + value;
        ReadNameRep(r, value, table);
        assert s[|start| + |name|..] == value;
        StrCut(r.value, k - |start| - |name|, VALUE_SIZE);
      }
    }
  }

  lemma NameCut(r: Rep, k: nat, table: seq<Header>)
    requires r.Field? && RepLegal(r) && k < |NameBytes(r)|
    ensures !ReadName(NameBytes(r)[..k], r.nameIdx, table).Got?
  {
    hide ReadString, StrBytes;
    StrCut(r.name, k, NAME_SIZE);
  }

  lemma FieldCut(r: Rep, k: nat, table: seq<Header>)
    requires r.Field? && RepLegal(r) && 0 < k < |RepBytes(r)|
    ensures !ReadField(RepBytes(r)[..k], table).Good?
  {
    hide ReadLiteral, StrBytes, IntBytes, Lookup, Storable, RepBytes, NameBytes, Inserted, Low;
    PrefixFacts();
    KindBytes(r);
    var prefix, hi := PrefixOf(r.kind).0, PrefixOf(r.kind).1;
    LiteralCut(IntBytes(r.nameIdx, prefix, hi), prefix, hi, r, k, table);
    assert RepBytes(r)[..k][0] == IntBytes(r.nameIdx, prefix, hi)[0];
  }

  /** A representation that is cut is not understood. */
  lemma RepCut(r: Rep, k: nat, table: seq<Header>)
    requires RepLegal(r) && 0 < k < |RepBytes(r)|
    ensures !ReadField(RepBytes(r)[..k], table).Good?
  {
    hide ReadLiteral, IntBytes, ReadInt;
    PrefixFacts();
    match r
    case Indexed(i) => IntCut(i, 7, 128, k);
    case SizeUpdate(n) => IntCut(n, 5, 32, k);
    case Field(_, _, _, _) => FieldCut(r, k, table);
  }

  /** A block that is cut inside a representation is not accepted, whatever stands before it. */
  lemma {:induction false} CutRefused(rs: seq<Rep>, r: Rep, k: nat, table: seq<Header>)
    requires RepLegal(r) && (forall x :: x in rs ==> RepLegal(x)) && 0 < k < |RepBytes(r)|
    ensures !ReadBlock(BlockBytes(rs) + RepBytes(r)[..k], table).end.Whole?
  {
    hide RepBytes, ReadField, ClientStep, RepLegal;
    var cut := RepBytes(r)[..k];
    var s := BlockBytes(rs) + cut;
    if rs == [] {
      assert s == cut;
      RepCut(r, k, table);
    } else {
      var rest := BlockBytes(rs[1..]) + cut;
      assert s == RepBytes(rs[0]) + rest;
      ReadRep(rs[0], rest, table);
      var f := ReadField(s, table);
      if f.Good? {
        assert s[f.used..] == rest;
        CutRefused(rs[1..], r, k, f.table);
      }
    }
  }

  // ---------------------------------------------------------- sizes

  /**
   Which literals the client takes: a name of at most 255 bytes, a value of at most 1023 and, for one that enters the
   table, a name of at most 127 and a value of at most 255.
   */
  lemma LiteralTaken(r: Rep, table: seq<Header>)
    requires r.Field? && FieldHeader(Lookup(table, r.nameIdx), r).Some?
    ensures var h := FieldHeader(Lookup(table, r.nameIdx), r).value;
            && h.value == r.value.text
            && (r.nameIdx == 0 ==> h.name == r.name.text)
            && (r.nameIdx != 0 ==> Lookup(table, r.nameIdx).Some? && h.name == Lookup(table, r.nameIdx).value.name)
            && (ClientStep(r, table).Go? <==>
                  && |h.name| <= 255 && |h.value| <= 1023
                  && (r.kind.Incremental? ==> |h.name| <= 127 && |h.value| <= 255))
  {
  }

  // ---------------------------------------------------------- RFC 7541 Appendix C

  /** Section C.1: 10 and 1337 with a five-bit prefix, 42 with an eight-bit one. */
  lemma IntegerExamples()
    ensures Low(0, 5) == Low(0, 8) == 0 && Pow2(5) == 32 && Pow2(8) == 256
    ensures IntBytes(10, 5, 0) == [10]
    ensures IntBytes(1337, 5, 0) == [31, 154, 10]
    ensures IntBytes(42, 8, 0) == [42]
  {
    assert Pow2(5) == 32;
    assert Pow2(8) == 2 * Pow2(7) && Pow2(7) == 2 * Pow2(6) && Pow2(6) == 2 * Pow2(5);
    assert Low(0, 8) == 2 * Low(0, 7) && Low(0, 7) == 2 * Low(0, 6) && Low(0, 6) == 2 * Low(0, 5);
    assert Tail(1306) == [154] + Tail(10);
  }

  function Ended(t: Turn, table: seq<Header>): (d: Decoded) {
    match t
    case Stop(e) => Decoded([], table, if e.PastBuffer? then PastBuffer else Broken)
    case Go(s) => Decoded(s.headers, s.table, Whole)
  }

  lemma RunOne(r: Rep, table: seq<Header>)
    ensures ClientRun([r], table) == Ended(ClientStep(r, table), table)
  {
    hide ClientStep;
    assert [r][0] == r && [r][1..] == [];
    match ClientStep(r, table)
    case Stop(_) =>
    case Go(s) => {
      assert ClientRun([r][1..], s.table) == Decoded([], s.table, Whole);
      assert s.headers + [] == s.headers;
    }
  }

  /** A block of one representation. */
  lemma OneRep(r: Rep, b: seq<Byte>, table: seq<Header>)
    requires RepLegal(r) && RepBytes(r) == b
    ensures ReadBlock(b, table) == Ended(ClientStep(r, table), table)
  {
    hide RepBytes, ReadBlock, ClientStep, ClientRun, Ended, RepLegal;
    assert [r][0] == r && [r][1..] == [];
    assert BlockBytes([r]) == b + BlockBytes([r][1..]) == b + [] == b;
    BlockRoundTrip([r], table);
    RunOne(r, table);
  }

  /** The bytes of a raw string of fewer than 127 bytes. */
  lemma RawBytes(s: seq<Byte>)
    requires |s| < 127
    ensures StrBytes(Raw(s)) == [|s|] + s
  {
    PrefixFacts();
  }

  /** Section C.2.1: a literal that enters the table. */
  lemma LiteralExample()
    ensures var h := Header(Ascii("custom-key"), Ascii("custom-header"));
            ReadBlock([0x40, 10] + Ascii("custom-key") + [13] + Ascii("custom-header"), []) ==
            Decoded([h], [h], Whole)
  {
    hide ReadBlock, Ascii, StrBytes;
    var name, value := Ascii("custom-key"), Ascii("custom-header");
    var r := Field(Incremental, 0, Raw(name), Raw(value));
    PrefixFacts();
    RawBytes(name);
    RawBytes(value);
    assert RepBytes(r) == [0x40, 10] + name + [13] + value;
    OneRep(r, [0x40, 10] + name + [13] + value, []);
  }

  /** Section C.2.2: a literal with a name of the static table that does not enter the table. */
  lemma IndexedNameExample(table: seq<Header>)
    ensures ReadBlock([4, 12] + Ascii("/sample/path"), table) ==
            Decoded([Header(Ascii(":path"), Ascii("/sample/path"))], table, Whole)
  {
    hide ReadBlock, Ascii, StrBytes, StaticName, StaticValue;
    var value := Ascii("/sample/path");
    var r := Field(Plain, 4, Raw([]), Raw(value));
    PrefixFacts();
    RawBytes(value);
    StaticTableExact(4);
    assert RepBytes(r) == [4, 12] + value;
    OneRep(r, [4, 12] + value, table);
  }

  /** Section C.2.3: a literal that is never indexed. */
  lemma NeverIndexedExample(table: seq<Header>)
    ensures ReadBlock([0x10, 8] + Ascii("password") + [6] + Ascii("secret"), table) ==
            Decoded([Header(Ascii("password"), Ascii("secret"))], table, Whole)
  {
    hide ReadBlock, Ascii, StrBytes;
    var name, value := Ascii("password"), Ascii("secret");
    var r := Field(NeverIndexed, 0, Raw(name), Raw(value));
    PrefixFacts();
    RawBytes(name);
    RawBytes(value);
    assert RepBytes(r) == [0x10, 8] + name + [6] + value;
    OneRep(r, [0x10, 8] + name + [6] + value, table);
  }

  /** Section C.2.4: an entry of the static table. */
  lemma IndexedExample(table: seq<Header>)
    ensures ReadBlock([0x82], table) == Decoded([Header(Ascii(":method"), Ascii("GET"))], table, Whole)
  {
    hide ReadBlock, Ascii, StaticName, StaticValue;
    PrefixFacts();
    StaticTableExact(2);
    assert RepBytes(Indexed(2)) == [0x82];
    OneRep(Indexed(2), [0x82], table);
  }
}
