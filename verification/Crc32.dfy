/**
 CRC-32 with polynomial 0x04c11db7, most significant bit first: the table-driven loop is
 the bit-by-bit division, for every buffer and every initial value.
 */
module Crc32 {

  const POLYNOMIAL: bv32 := 0x04c11db7

  function Xor(a: bv32, b: bv32): (r: bv32) {
    a ^ b
  }

  function Up(a: bv32): (r: bv32) {
    a << 1
  }

  function Top(a: bv32): (r: bv32) {
    a >> 31
  }

  /** Bit 7 - k of a byte: the k-th to be divided. */
  function Bit(b: bv8, k: nat): (r: bv32)
    requires k < 8
  {
    ((b as bv32) >> (7 - k)) & 1
  }

  // ---------------------------------------------------------- division, bit by bit

  /** Shift one message bit in and subtract the polynomial when a one leaves at the top. */
  function BitStep(crc: bv32, bit: bv32): (r: bv32) {
    if Xor(Top(crc), bit) == 1 then Xor(Up(crc), POLYNOMIAL) else Up(crc)
  }

  /** The bits of one byte, the most significant first. */
  function ByteDivide(crc: bv32, b: bv8): (r: bv32) {
    var c1 := BitStep(crc, Bit(b, 0));
    var c2 := BitStep(c1, Bit(b, 1));
    var c3 := BitStep(c2, Bit(b, 2));
    var c4 := BitStep(c3, Bit(b, 3));
    var c5 := BitStep(c4, Bit(b, 4));
    var c6 := BitStep(c5, Bit(b, 5));
    var c7 := BitStep(c6, Bit(b, 6));
    BitStep(c7, Bit(b, 7))
  }

  /** The division of a whole message. */
  function Divide(crc: bv32, message: seq<bv8>): (r: bv32)
    decreases |message|
  {
    if message == [] then crc else Divide(ByteDivide(crc, message[0]), message[1..])
  }

  // ---------------------------------------------------------- the table

  function Row0(j: bv32): bv32 {
    if j == 0 then 0x00000000
    else if j == 1 then 0x04c11db7
    else if j == 2 then 0x09823b6e
    else if j == 3 then 0x0d4326d9
    else if j == 4 then 0x130476dc
    else if j == 5 then 0x17c56b6b
    else if j == 6 then 0x1a864db2
    else if j == 7 then 0x1e475005
    else if j == 8 then 0x2608edb8
    else if j == 9 then 0x22c9f00f
    else if j == 10 then 0x2f8ad6d6
    else if j == 11 then 0x2b4bcb61
    else if j == 12 then 0x350c9b64
    else if j == 13 then 0x31cd86d3
    else if j == 14 then 0x3c8ea00a
    else 0x384fbdbd
  }

  function Row1(j: bv32): bv32 {
    if j == 0 then 0x4c11db70
    else if j == 1 then 0x48d0c6c7
    else if j == 2 then 0x4593e01e
    else if j == 3 then 0x4152fda9
    else if j == 4 then 0x5f15adac
    else if j == 5 then 0x5bd4b01b
    else if j == 6 then 0x569796c2
    else if j == 7 then 0x52568b75
    else if j == 8 then 0x6a1936c8
    else if j == 9 then 0x6ed82b7f
    else if j == 10 then 0x639b0da6
    else if j == 11 then 0x675a1011
    else if j == 12 then 0x791d4014
    else if j == 13 then 0x7ddc5da3
    else if j == 14 then 0x709f7b7a
    else 0x745e66cd
  }

  function Row2(j: bv32): bv32 {
    if j == 0 then 0x9823b6e0
    else if j == 1 then 0x9ce2ab57
    else if j == 2 then 0x91a18d8e
    else if j == 3 then 0x95609039
    else if j == 4 then 0x8b27c03c
    else if j == 5 then 0x8fe6dd8b
    else if j == 6 then 0x82a5fb52
    else if j == 7 then 0x8664e6e5
    else if j == 8 then 0xbe2b5b58
    else if j == 9 then 0xbaea46ef
    else if j == 10 then 0xb7a96036
    else if j == 11 then 0xb3687d81
    else if j == 12 then 0xad2f2d84
    else if j == 13 then 0xa9ee3033
    else if j == 14 then 0xa4ad16ea
    else 0xa06c0b5d
  }

  function Row3(j: bv32): bv32 {
    if j == 0 then 0xd4326d90
    else if j == 1 then 0xd0f37027
    else if j == 2 then 0xddb056fe
    else if j == 3 then 0xd9714b49
    else if j == 4 then 0xc7361b4c
    else if j == 5 then 0xc3f706fb
    else if j == 6 then 0xceb42022
    else if j == 7 then 0xca753d95
    else if j == 8 then 0xf23a8028
    else if j == 9 then 0xf6fb9d9f
    else if j == 10 then 0xfbb8bb46
    else if j == 11 then 0xff79a6f1
    else if j == 12 then 0xe13ef6f4
    else if j == 13 then 0xe5ffeb43
    else if j == 14 then 0xe8bccd9a
    else 0xec7dd02d
  }

  function Row4(j: bv32): bv32 {
    if j == 0 then 0x34867077
    else if j == 1 then 0x30476dc0
    else if j == 2 then 0x3d044b19
    else if j == 3 then 0x39c556ae
    else if j == 4 then 0x278206ab
    else if j == 5 then 0x23431b1c
    else if j == 6 then 0x2e003dc5
    else if j == 7 then 0x2ac12072
    else if j == 8 then 0x128e9dcf
    else if j == 9 then 0x164f8078
    else if j == 10 then 0x1b0ca6a1
    else if j == 11 then 0x1fcdbb16
    else if j == 12 then 0x018aeb13
    else if j == 13 then 0x054bf6a4
    else if j == 14 then 0x0808d07d
    else 0x0cc9cdca
  }

  function Row5(j: bv32): bv32 {
    if j == 0 then 0x7897ab07
    else if j == 1 then 0x7c56b6b0
    else if j == 2 then 0x71159069
    else if j == 3 then 0x75d48dde
    else if j == 4 then 0x6b93dddb
    else if j == 5 then 0x6f52c06c
    else if j == 6 then 0x6211e6b5
    else if j == 7 then 0x66d0fb02
    else if j == 8 then 0x5e9f46bf
    else if j == 9 then 0x5a5e5b08
    else if j == 10 then 0x571d7dd1
    else if j == 11 then 0x53dc6066
    else if j == 12 then 0x4d9b3063
    else if j == 13 then 0x495a2dd4
    else if j == 14 then 0x44190b0d
    else 0x40d816ba
  }

  function Row6(j: bv32): bv32 {
    if j == 0 then 0xaca5c697
    else if j == 1 then 0xa864db20
    else if j == 2 then 0xa527fdf9
    else if j == 3 then 0xa1e6e04e
    else if j == 4 then 0xbfa1b04b
    else if j == 5 then 0xbb60adfc
    else if j == 6 then 0xb6238b25
    else if j == 7 then 0xb2e29692
    else if j == 8 then 0x8aad2b2f
    else if j == 9 then 0x8e6c3698
    else if j == 10 then 0x832f1041
    else if j == 11 then 0x87ee0df6
    else if j == 12 then 0x99a95df3
    else if j == 13 then 0x9d684044
    else if j == 14 then 0x902b669d
    else 0x94ea7b2a
  }

  function Row7(j: bv32): bv32 {
    if j == 0 then 0xe0b41de7
    else if j == 1 then 0xe4750050
    else if j == 2 then 0xe9362689
    else if j == 3 then 0xedf73b3e
    else if j == 4 then 0xf3b06b3b
    else if j == 5 then 0xf771768c
    else if j == 6 then 0xfa325055
    else if j == 7 then 0xfef34de2
    else if j == 8 then 0xc6bcf05f
    else if j == 9 then 0xc27dede8
    else if j == 10 then 0xcf3ecb31
    else if j == 11 then 0xcbffd686
    else if j == 12 then 0xd5b88683
    else if j == 13 then 0xd1799b34
    else if j == 14 then 0xdc3abded
    else 0xd8fba05a
  }

  function Row8(j: bv32): bv32 {
    if j == 0 then 0x690ce0ee
    else if j == 1 then 0x6dcdfd59
    else if j == 2 then 0x608edb80
    else if j == 3 then 0x644fc637
    else if j == 4 then 0x7a089632
    else if j == 5 then 0x7ec98b85
    else if j == 6 then 0x738aad5c
    else if j == 7 then 0x774bb0eb
    else if j == 8 then 0x4f040d56
    else if j == 9 then 0x4bc510e1
    else if j == 10 then 0x46863638
    else if j == 11 then 0x42472b8f
    else if j == 12 then 0x5c007b8a
    else if j == 13 then 0x58c1663d
    else if j == 14 then 0x558240e4
    else 0x51435d53
  }

  function Row9(j: bv32): bv32 {
    if j == 0 then 0x251d3b9e
    else if j == 1 then 0x21dc2629
    else if j == 2 then 0x2c9f00f0
    else if j == 3 then 0x285e1d47
    else if j == 4 then 0x36194d42
    else if j == 5 then 0x32d850f5
    else if j == 6 then 0x3f9b762c
    else if j == 7 then 0x3b5a6b9b
    else if j == 8 then 0x0315d626
    else if j == 9 then 0x07d4cb91
    else if j == 10 then 0x0a97ed48
    else if j == 11 then 0x0e56f0ff
    else if j == 12 then 0x1011a0fa
    else if j == 13 then 0x14d0bd4d
    else if j == 14 then 0x19939b94
    else 0x1d528623
  }

  function Row10(j: bv32): bv32 {
    if j == 0 then 0xf12f560e
    else if j == 1 then 0xf5ee4bb9
    else if j == 2 then 0xf8ad6d60
    else if j == 3 then 0xfc6c70d7
    else if j == 4 then 0xe22b20d2
    else if j == 5 then 0xe6ea3d65
    else if j == 6 then 0xeba91bbc
    else if j == 7 then 0xef68060b
    else if j == 8 then 0xd727bbb6
    else if j == 9 then 0xd3e6a601
    else if j == 10 then 0xdea580d8
    else if j == 11 then 0xda649d6f
    else if j == 12 then 0xc423cd6a
    else if j == 13 then 0xc0e2d0dd
    else if j == 14 then 0xcda1f604
    else 0xc960ebb3
  }

  function Row11(j: bv32): bv32 {
    if j == 0 then 0xbd3e8d7e
    else if j == 1 then 0xb9ff90c9
    else if j == 2 then 0xb4bcb610
    else if j == 3 then 0xb07daba7
    else if j == 4 then 0xae3afba2
    else if j == 5 then 0xaafbe615
    else if j == 6 then 0xa7b8c0cc
    else if j == 7 then 0xa379dd7b
    else if j == 8 then 0x9b3660c6
    else if j == 9 then 0x9ff77d71
    else if j == 10 then 0x92b45ba8
    else if j == 11 then 0x9675461f
    else if j == 12 then 0x8832161a
    else if j == 13 then 0x8cf30bad
    else if j == 14 then 0x81b02d74
    else 0x857130c3
  }

  function Row12(j: bv32): bv32 {
    if j == 0 then 0x5d8a9099
    else if j == 1 then 0x594b8d2e
    else if j == 2 then 0x5408abf7
    else if j == 3 then 0x50c9b640
    else if j == 4 then 0x4e8ee645
    else if j == 5 then 0x4a4ffbf2
    else if j == 6 then 0x470cdd2b
    else if j == 7 then 0x43cdc09c
    else if j == 8 then 0x7b827d21
    else if j == 9 then 0x7f436096
    else if j == 10 then 0x7200464f
    else if j == 11 then 0x76c15bf8
    else if j == 12 then 0x68860bfd
    else if j == 13 then 0x6c47164a
    else if j == 14 then 0x61043093
    else 0x65c52d24
  }

  function Row13(j: bv32): bv32 {
    if j == 0 then 0x119b4be9
    else if j == 1 then 0x155a565e
    else if j == 2 then 0x18197087
    else if j == 3 then 0x1cd86d30
    else if j == 4 then 0x029f3d35
    else if j == 5 then 0x065e2082
    else if j == 6 then 0x0b1d065b
    else if j == 7 then 0x0fdc1bec
    else if j == 8 then 0x3793a651
    else if j == 9 then 0x3352bbe6
    else if j == 10 then 0x3e119d3f
    else if j == 11 then 0x3ad08088
    else if j == 12 then 0x2497d08d
    else if j == 13 then 0x2056cd3a
    else if j == 14 then 0x2d15ebe3
    else 0x29d4f654
  }

  function Row14(j: bv32): bv32 {
    if j == 0 then 0xc5a92679
    else if j == 1 then 0xc1683bce
    else if j == 2 then 0xcc2b1d17
    else if j == 3 then 0xc8ea00a0
    else if j == 4 then 0xd6ad50a5
    else if j == 5 then 0xd26c4d12
    else if j == 6 then 0xdf2f6bcb
    else if j == 7 then 0xdbee767c
    else if j == 8 then 0xe3a1cbc1
    else if j == 9 then 0xe760d676
    else if j == 10 then 0xea23f0af
    else if j == 11 then 0xeee2ed18
    else if j == 12 then 0xf0a5bd1d
    else if j == 13 then 0xf464a0aa
    else if j == 14 then 0xf9278673
    else 0xfde69bc4
  }

  function Row15(j: bv32): bv32 {
    if j == 0 then 0x89b8fd09
    else if j == 1 then 0x8d79e0be
    else if j == 2 then 0x803ac667
    else if j == 3 then 0x84fbdbd0
    else if j == 4 then 0x9abc8bd5
    else if j == 5 then 0x9e7d9662
    else if j == 6 then 0x933eb0bb
    else if j == 7 then 0x97ffad0c
    else if j == 8 then 0xafb010b1
    else if j == 9 then 0xab710d06
    else if j == 10 then 0xa6322bdf
    else if j == 11 then 0xa2f33668
    else if j == 12 then 0xbcb4666d
    else if j == 13 then 0xb8757bda
    else if j == 14 then 0xb5365d03
    else 0xb1f740b4
  }

  function Table(i: bv32): bv32 {
    var j := i & 15;
    if i >> 4 == 0 then Row0(j)
    else if i >> 4 == 1 then Row1(j)
    else if i >> 4 == 2 then Row2(j)
    else if i >> 4 == 3 then Row3(j)
    else if i >> 4 == 4 then Row4(j)
    else if i >> 4 == 5 then Row5(j)
    else if i >> 4 == 6 then Row6(j)
    else if i >> 4 == 7 then Row7(j)
    else if i >> 4 == 8 then Row8(j)
    else if i >> 4 == 9 then Row9(j)
    else if i >> 4 == 10 then Row10(j)
    else if i >> 4 == 11 then Row11(j)
    else if i >> 4 == 12 then Row12(j)
    else if i >> 4 == 13 then Row13(j)
    else if i >> 4 == 14 then Row14(j)
    else Row15(j)
  }

  /** Eight zero bits after the byte `i` at the top of the register. */
  function Eight(i: bv32): (r: bv32) {
    var c0 := i << 24;
    var c1 := BitStep(c0, 0);
    var c2 := BitStep(c1, 0);
    var c3 := BitStep(c2, 0);
    var c4 := BitStep(c3, 0);
    var c5 := BitStep(c4, 0);
    var c6 := BitStep(c5, 0);
    var c7 := BitStep(c6, 0);
    BitStep(c7, 0)
  }

  lemma Row0Divides(i: bv32)
    requires i >> 4 == 0
    ensures Row0(i & 15) == Eight(i)
  {
  }

  lemma Row1Divides(i: bv32)
    requires i >> 4 == 1
    ensures Row1(i & 15) == Eight(i)
  {
  }

  lemma Row2Divides(i: bv32)
    requires i >> 4 == 2
    ensures Row2(i & 15) == Eight(i)
  {
  }

  lemma Row3Divides(i: bv32)
    requires i >> 4 == 3
    ensures Row3(i & 15) == Eight(i)
  {
  }

  lemma Row4Divides(i: bv32)
    requires i >> 4 == 4
    ensures Row4(i & 15) == Eight(i)
  {
  }

  lemma Row5Divides(i: bv32)
    requires i >> 4 == 5
    ensures Row5(i & 15) == Eight(i)
  {
  }

  lemma Row6Divides(i: bv32)
    requires i >> 4 == 6
    ensures Row6(i & 15) == Eight(i)
  {
  }

  lemma Row7Divides(i: bv32)
    requires i >> 4 == 7
    ensures Row7(i & 15) == Eight(i)
  {
  }

  lemma Row8Divides(i: bv32)
    requires i >> 4 == 8
    ensures Row8(i & 15) == Eight(i)
  {
  }

  lemma Row9Divides(i: bv32)
    requires i >> 4 == 9
    ensures Row9(i & 15) == Eight(i)
  {
  }

  lemma Row10Divides(i: bv32)
    requires i >> 4 == 10
    ensures Row10(i & 15) == Eight(i)
  {
  }

  lemma Row11Divides(i: bv32)
    requires i >> 4 == 11
    ensures Row11(i & 15) == Eight(i)
  {
  }

  lemma Row12Divides(i: bv32)
    requires i >> 4 == 12
    ensures Row12(i & 15) == Eight(i)
  {
  }

  lemma Row13Divides(i: bv32)
    requires i >> 4 == 13
    ensures Row13(i & 15) == Eight(i)
  {
  }

  lemma Row14Divides(i: bv32)
    requires i >> 4 == 14
    ensures Row14(i & 15) == Eight(i)
  {
  }

  lemma Row15Divides(i: bv32)
    requires i >> 4 == 15
    ensures Row15(i & 15) == Eight(i)
  {
  }

  lemma LastRow(i: bv32)
    requires i < 256
    ensures || i >> 4 == 0 || i >> 4 == 1 || i >> 4 == 2 || i >> 4 == 3
            || i >> 4 == 4 || i >> 4 == 5 || i >> 4 == 6 || i >> 4 == 7
            || i >> 4 == 8 || i >> 4 == 9 || i >> 4 == 10 || i >> 4 == 11
            || i >> 4 == 12 || i >> 4 == 13 || i >> 4 == 14 || i >> 4 == 15
  {
  }

  /** Every entry of the table is its index divided. */
  lemma TableDivides(i: bv32)
    requires i < 256
    ensures Table(i) == Eight(i)
  {
    hide Eight, Row0, Row1, Row2, Row3, Row4, Row5, Row6, Row7, Row8, Row9, Row10, Row11, Row12, Row13, Row14, Row15;
    if i >> 4 == 0 { Row0Divides(i); }
    if i >> 4 == 1 { Row1Divides(i); }
    if i >> 4 == 2 { Row2Divides(i); }
    if i >> 4 == 3 { Row3Divides(i); }
    if i >> 4 == 4 { Row4Divides(i); }
    if i >> 4 == 5 { Row5Divides(i); }
    if i >> 4 == 6 { Row6Divides(i); }
    if i >> 4 == 7 { Row7Divides(i); }
    if i >> 4 == 8 { Row8Divides(i); }
    if i >> 4 == 9 { Row9Divides(i); }
    if i >> 4 == 10 { Row10Divides(i); }
    if i >> 4 == 11 { Row11Divides(i); }
    if i >> 4 == 12 { Row12Divides(i); }
    if i >> 4 == 13 { Row13Divides(i); }
    if i >> 4 == 14 { Row14Divides(i); }
    if i >> 4 == 15 { Row15Divides(i); }
    LastRow(i);
  }

  lemma UpXor(a: bv32, b: bv32)
    ensures Up(Xor(a, b)) == Xor(Up(a), Up(b))
  {
  }

  lemma TopXor(a: bv32, b: bv32)
    ensures Top(Xor(a, b)) == Xor(Top(a), Top(b))
  {
  }

  lemma BitsAssociate(a: bv32, b: bv32, c: bv32)
    ensures (a ^ b) ^ c == a ^ (b ^ c)
  {
  }

  lemma XorSwap(a: bv32, b: bv32, c: bv32)
    ensures Xor(Xor(a, b), c) == Xor(Xor(a, c), b)
  {
    calc {
      (a ^ b) ^ c;
      { BitsAssociate(a, b, c); }
      a ^ (b ^ c);
      a ^ (c ^ b);
      { BitsAssociate(a, c, b); }
      (a ^ c) ^ b;
    }
  }

  lemma XorCancel(a: bv32, b: bv32)
    ensures Xor(Xor(a, b), b) == a && Xor(a, 0) == a
  {
  }

  /** A message bit still to come cancels against the copy of it in the register. */
  lemma StepSplits(z: bv32, y: bv32, bit: bv32)
    requires Top(y) == bit
    ensures BitStep(Xor(z, y), bit) == Xor(BitStep(z, 0), Up(y))
  {
    hide Xor, Up, Top;
    UpXor(z, y);
    TopXor(z, y);
    XorCancel(Top(z), bit);
    XorSwap(Up(z), Up(y), POLYNOMIAL);
    XorCancel(Top(z), 0);
  }

  /** The register without its top byte, but with the message byte in its place. */
  function Carry(crc: bv32, b: bv8): (y: bv32) {
    (crc & 0xffffff) ^ ((b as bv32) << 24)
  }

  function TopByte(crc: bv32, b: bv8): (i: bv32) {
    ((crc >> 24) ^ (b as bv32)) & 255
  }

  lemma CarryStarts(crc: bv32, b: bv8)
    ensures crc == Xor(TopByte(crc, b) << 24, Carry(crc, b))
  {
  }

  lemma CarryBits(crc: bv32, b: bv8)
    ensures Top(Carry(crc, b)) == Bit(b, 0)
    ensures Top(Up(Carry(crc, b))) == Bit(b, 1)
    ensures Top(Up(Up(Carry(crc, b)))) == Bit(b, 2)
    ensures Top(Up(Up(Up(Carry(crc, b))))) == Bit(b, 3)
    ensures Top(Up(Up(Up(Up(Carry(crc, b)))))) == Bit(b, 4)
    ensures Top(Up(Up(Up(Up(Up(Carry(crc, b))))))) == Bit(b, 5)
    ensures Top(Up(Up(Up(Up(Up(Up(Carry(crc, b)))))))) == Bit(b, 6)
    ensures Top(Up(Up(Up(Up(Up(Up(Up(Carry(crc, b))))))))) == Bit(b, 7)
  {
  }

  lemma CarryEnds(crc: bv32, b: bv8)
    ensures Up(Up(Up(Up(Up(Up(Up(Up(Carry(crc, b))))))))) == crc << 8
  {
  }

  /** The register splits: what the top byte contributes is the table's, the rest only moves up. */
  lemma ByteSplits(crc: bv32, b: bv8)
    ensures ByteDivide(crc, b) == Xor(Eight(TopByte(crc, b)), crc << 8)
  {
    hide Xor, Up, Top, Bit, BitStep, Carry, TopByte;
    CarryStarts(crc, b);
    CarryBits(crc, b);
    CarryEnds(crc, b);
    var z0, y0 := TopByte(crc, b) << 24, Carry(crc, b);
    StepSplits(z0, y0, Bit(b, 0));
    var z1, y1 := BitStep(z0, 0), Up(y0);
    StepSplits(z1, y1, Bit(b, 1));
    var z2, y2 := BitStep(z1, 0), Up(y1);
    StepSplits(z2, y2, Bit(b, 2));
    var z3, y3 := BitStep(z2, 0), Up(y2);
    StepSplits(z3, y3, Bit(b, 3));
    var z4, y4 := BitStep(z3, 0), Up(y3);
    StepSplits(z4, y4, Bit(b, 4));
    var z5, y5 := BitStep(z4, 0), Up(y4);
    StepSplits(z5, y5, Bit(b, 5));
    var z6, y6 := BitStep(z5, 0), Up(y5);
    StepSplits(z6, y6, Bit(b, 6));
    var z7, y7 := BitStep(z6, 0), Up(y6);
    StepSplits(z7, y7, Bit(b, 7));
    var z8, y8 := BitStep(z7, 0), Up(y7);
  }

  /** One round of xcrc32. */
  function Round(crc: bv32, b: bv8): (r: bv32) {
    (crc << 8) ^ Table(TopByte(crc, b))
  }

  lemma TopByteSmall(crc: bv32, b: bv8)
    ensures TopByte(crc, b) < 256
  {
  }

  lemma RoundDivides(crc: bv32, b: bv8)
    ensures Round(crc, b) == ByteDivide(crc, b)
  {
    hide Table, Eight, ByteDivide, TopByte;
    ByteSplits(crc, b);
    TopByteSmall(crc, b);
    TableDivides(TopByte(crc, b));
  }

  // ---------------------------------------------------------- whole buffers

  /** The division of a concatenation continues from the first part. */
  lemma {:induction false} DivideConcat(crc: bv32, a: seq<bv8>, b: seq<bv8>)
    ensures Divide(crc, a + b) == Divide(Divide(crc, a), b)
    decreases |a|
  {
    hide ByteDivide;
    if a == [] {
      assert a + b == b;
    } else {
      assert (a + b)[0] == a[0] && (a + b)[1..] == a[1..] + b;
      DivideConcat(ByteDivide(crc, a[0]), a[1..], b);
    }
  }

  /** xcrc32 is the bit-by-bit division of the buffer, starting from `init`. */
  method Xcrc32(buf: seq<bv8>, init: bv32) returns (crc: bv32)
    ensures crc == Divide(init, buf)
  {
    hide ByteDivide, Round;
    crc := init;
    for i := 0 to |buf|
      invariant crc == Divide(init, buf[..i])
    {
      RoundDivides(crc, buf[i]);
      assert buf[..i + 1] == buf[..i] + [buf[i]];
      DivideConcat(init, buf[..i], [buf[i]]);
      assert [buf[i]][1..] == [];
      crc := Round(crc, buf[i]);
    }
    assert buf[..|buf|] == buf;
  }

  /** The checksum of a concatenation is that of its second part seeded with that of its first. */
  method Xcrc32Concat(a: seq<bv8>, b: seq<bv8>, init: bv32) returns (whole: bv32, parts: bv32)
    ensures whole == parts == Divide(init, a + b)
  {
    whole := Xcrc32(a + b, init);
    var first := Xcrc32(a, init);
    parts := Xcrc32(b, first);
    DivideConcat(init, a, b);
  }
}
