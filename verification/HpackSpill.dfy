/**
 Concrete header blocks at the edge of the decoder's name buffer: one Huffman string more than it holds with
 its final zero, one that fits, and the same text sent raw.
 */
module HpackSpill {
  import opened Bits
  import opened HpackBlock
  import opened HpackInt
  import opened HpackTable
  import opened HpackWire
  import opened HuffmanCode
  import opened HuffmanTable

  function Zeros(n: nat): (x: seq<bool>) {
    seq(n, _ => false)
  }

  /** A name of `n` digits zero. */
  function Digits(n: nat): (s: seq<Byte>) {
    seq(n, _ => 48)
  }

  lemma DigitCode()
    ensures CodeBits(Appendix()[48]) == Zeros(5)
  {
    assert Appendix()[48] == Code(5, 0);
    assert BitsOf(0, 3) == [false, false, false];
    assert BitsOf(0, 5) == BitsOf(0, 3) + [false] + [false];
  }

  lemma {:induction false} DigitsEncode(n: nat)
    ensures HuffEncode(Digits(n)) == Zeros(5 * n)
  {
    hide Appendix, CodeBits, HuffEncode;
    if n > 0 {
      DigitCode();
      DigitsEncode(n - 1);
      EncodeFirst(Digits(n));
      assert Digits(n)[1..] == Digits(n - 1);
      assert Zeros(5) + Zeros(5 * (n - 1)) == Zeros(5 * n);
    } else {
      EncodeNothing();
    }
  }

  lemma EncodeFirst(s: seq<Byte>)
    requires s != []
    ensures HuffEncode(s) == CodeBits(Appendix()[s[0]]) + HuffEncode(s[1..])
  {
    hide Appendix, CodeBits;
  }

  lemma EncodeNothing()
    ensures HuffEncode([]) == []
  {
    hide Appendix, CodeBits;
  }

  lemma {:induction false} ZeroBytes(k: nat)
    ensures |Zeros(8 * k)| % 8 == 0 && BytesOfBits(Zeros(8 * k)) == seq(k, _ => 0)
  {
    if k > 0 {
      var x := Zeros(8 * k);
      assert x[..8] == Zeros(8) && x[8..] == Zeros(8 * (k - 1));
      NoValue(8);
      ZeroBytes(k - 1);
      assert [0 as Byte] + seq(k - 1, _ => 0 as Byte) == seq(k, _ => 0 as Byte);
    }
  }

  lemma {:induction false} NoValue(n: nat)
    ensures ValueOf(Zeros(n)) == 0
  {
    if n > 0 {
      NoValue(n - 1);
      assert Zeros(n)[..n - 1] == Zeros(n - 1);
    }
  }

  /** Eight digits take five bytes. */
  lemma DigitBytes(k: nat)
    ensures HuffBytes(Digits(8 * k)) == seq(5 * k, _ => 0)
  {
    hide HuffEncode;
    DigitsEncode(8 * k);
    var x := Zeros(5 * (8 * k));
    assert x + Ones(0) == Zeros(8 * (5 * k));
    ZeroBytes(5 * k);
  }

  lemma DigitRoom(n: nat)
    ensures |HuffBytes(Digits(n))| <= 5 * n + 8
  {
    hide HuffEncode;
    DigitsEncode(n);
  }

  /** A literal with the name `name` and an empty value. */
  function Named(name: Str): (r: Rep) {
    Field(Plain, 0, name, Raw([]))
  }

  /** The wire form of a name of 256 digits: 160 coded bytes. */
  function FillingBlock(): (b: seq<Byte>) {
    [0, 255, 33] + seq(160, _ => 0) + [0]
  }

  lemma IntegerBytes()
    ensures Low(0, 4) == Low(0, 7) == Low(128, 7) == 0 && Pow2(4) == 16 && Pow2(7) == 128
    ensures IntBytes(160, 7, 128) == [255, 33] && IntBytes(0, 7, 0) == [0] && IntBytes(0, 4, 0) == [0]
  {
    PrefixFacts();
    assert Tail(33) == [33];
  }

  lemma FillingName()
    ensures StrBytes(Huffman(Digits(256))) == [255, 33] + seq(160, _ => 0)
    ensures StrBytes(Raw([])) == [0]
  {
    hide HuffBytes, IntBytes, Digits;
    IntegerBytes();
    DigitBytes(32);
  }

  lemma FillingBytes()
    ensures BlockBytes([Named(Huffman(Digits(256)))]) == FillingBlock()
  {
    hide StrBytes, IntBytes, Digits;
    IntegerBytes();
    FillingName();
    var r := Named(Huffman(Digits(256)));
    assert RepBytes(r) == [0] + ([255, 33] + seq(160, _ => 0)) + [0];
    assert RepBytes(r) == FillingBlock();
    assert BlockBytes([r]) == RepBytes(r) + BlockBytes([r][1..]);
  }

  /** This block makes the client write past its name buffer. */
  lemma FillingBlockSpills(table: seq<Header>)
    ensures ReadBlock(FillingBlock(), table) == Decoded([], table, PastBuffer)
  {
    hide ReadBlock, BlockBytes, HuffBytes;
    FillingBytes();
    DigitBytes(32);
    BlockRoundTrip([Named(Huffman(Digits(256)))], table);
  }

  /** One digit less is reported, and the same 256 digits sent raw are refused. */
  lemma NeighboursDoNot(table: seq<Header>)
    ensures ReadBlock(BlockBytes([Named(Huffman(Digits(255)))]), table) ==
            Decoded([Header(Digits(255), [])], table, Whole)
    ensures ReadBlock(BlockBytes([Named(Raw(Digits(256)))]), table) == Decoded([], table, Broken)
  {
    hide ReadBlock, BlockBytes, HuffBytes;
    DigitRoom(255);
    BlockRoundTrip([Named(Huffman(Digits(255)))], table);
    BlockRoundTrip([Named(Raw(Digits(256)))], table);
    assert [Header(Digits(255), [])] + [] == [Header(Digits(255), [])];
  }
}
