/**
 The Huffman code of RFC 7541 Appendix B, as the two arrays `huff_bits` and
 `huff_codes` of the client hold it, and the proof that it is a complete
 prefix-free code.

 The code is canonical: sorted by length and then by symbol, the codes of one
 length are consecutive numbers. The 21 lengths in use are numbered 0 to 20.
 */
module HuffmanTable {
  import opened Bits
  import opened HuffmanCode
  import opened CanonicalCode
  import opened Wrappers

  /** One row of a table. */
  function Pick(j: nat, a: nat, b: nat, c: nat, d: nat, e: nat, f: nat, g: nat, h: nat): nat {
    if j < 4 then if j < 2 then if j < 1 then a else b else if j < 3 then c else d
    else if j < 6 then if j < 5 then e else f else if j < 7 then g else h
  }

  /** huff_bits: the code length of each symbol; 256 is end-of-string. */
  function CodeLength(i: nat): (r: nat)
    requires i <= 256
  {
    if i < 136 then
      if i < 72 then
        if i < 40 then
          if i < 24 then
            if i < 16 then
              if i < 8 then
                Pick(i, 13, 23, 28, 28, 28, 28, 28, 28)
              else
                Pick(i - 8, 28, 24, 30, 28, 28, 30, 28, 28)
            else
              Pick(i - 16, 28, 28, 28, 28, 28, 28, 30, 28)
          else
            if i < 32 then
              Pick(i - 24, 28, 28, 28, 28, 28, 28, 28, 28)
            else
              Pick(i - 32, 6, 10, 10, 12, 13, 6, 8, 11)
        else
          if i < 56 then
            if i < 48 then
              Pick(i - 40, 10, 10, 8, 11, 8, 6, 6, 6)
            else
              Pick(i - 48, 5, 5, 5, 6, 6, 6, 6, 6)
          else
            if i < 64 then
              Pick(i - 56, 6, 6, 7, 8, 15, 6, 12, 10)
            else
              Pick(i - 64, 13, 6, 7, 7, 7, 7, 7, 7)
      else
        if i < 104 then
          if i < 88 then
            if i < 80 then
              Pick(i - 72, 7, 7, 7, 7, 7, 7, 7, 7)
            else
              Pick(i - 80, 7, 7, 7, 7, 7, 7, 7, 7)
          else
            if i < 96 then
              Pick(i - 88, 8, 7, 8, 13, 19, 13, 14, 6)
            else
              Pick(i - 96, 15, 5, 6, 5, 6, 5, 6, 6)
        else
          if i < 120 then
            if i < 112 then
              Pick(i - 104, 6, 5, 7, 7, 6, 6, 6, 5)
            else
              Pick(i - 112, 6, 7, 6, 5, 5, 6, 7, 7)
          else
            if i < 128 then
              Pick(i - 120, 7, 7, 7, 15, 11, 14, 13, 28)
            else
              Pick(i - 128, 20, 22, 20, 20, 22, 22, 22, 23)
    else
      if i < 200 then
        if i < 168 then
          if i < 152 then
            if i < 144 then
              Pick(i - 136, 22, 23, 23, 23, 23, 23, 24, 23)
            else
              Pick(i - 144, 24, 24, 22, 23, 24, 23, 23, 23)
          else
            if i < 160 then
              Pick(i - 152, 23, 21, 22, 23, 22, 23, 23, 24)
            else
              Pick(i - 160, 22, 21, 20, 22, 22, 23, 23, 21)
        else
          if i < 184 then
            if i < 176 then
              Pick(i - 168, 23, 22, 22, 24, 21, 22, 23, 23)
            else
              Pick(i - 176, 21, 21, 22, 21, 23, 22, 23, 23)
          else
            if i < 192 then
              Pick(i - 184, 20, 22, 22, 22, 23, 22, 22, 23)
            else
              Pick(i - 192, 26, 26, 20, 19, 22, 23, 22, 25)
      else
        if i < 232 then
          if i < 216 then
            if i < 208 then
              Pick(i - 200, 26, 26, 26, 27, 27, 26, 24, 25)
            else
              Pick(i - 208, 19, 21, 26, 27, 27, 26, 27, 24)
          else
            if i < 224 then
              Pick(i - 216, 21, 21, 26, 26, 28, 27, 27, 27)
            else
              Pick(i - 224, 20, 24, 20, 21, 22, 21, 21, 23)
        else
          if i < 248 then
            if i < 240 then
              Pick(i - 232, 22, 22, 25, 25, 24, 24, 26, 23)
            else
              Pick(i - 240, 26, 27, 26, 26, 27, 27, 27, 27)
          else
            if i < 256 then
              Pick(i - 248, 27, 28, 27, 27, 27, 27, 27, 26)
            else
              30
  }

  /** huff_codes: the code of each symbol, right aligned. */
  function CodeWord(i: nat): (r: nat)
    requires i <= 256
  {
    if i < 136 then
      if i < 72 then
        if i < 40 then
          if i < 24 then
            if i < 16 then
              if i < 8 then
                Pick(i, 0x1ff8, 0x7fffd8, 0xfffffe2, 0xfffffe3, 0xfffffe4, 0xfffffe5, 0xfffffe6, 0xfffffe7)
              else
                Pick(i - 8, 0xfffffe8, 0xffffea, 0x3ffffffc, 0xfffffe9, 0xfffffea, 0x3ffffffd, 0xfffffeb, 0xfffffec)
            else
              Pick(i - 16, 0xfffffed, 0xfffffee, 0xfffffef, 0xffffff0, 0xffffff1, 0xffffff2, 0x3ffffffe, 0xffffff3)
          else
            if i < 32 then
              Pick(i - 24, 0xffffff4, 0xffffff5, 0xffffff6, 0xffffff7, 0xffffff8, 0xffffff9, 0xffffffa, 0xffffffb)
            else
              Pick(i - 32, 0x14, 0x3f8, 0x3f9, 0xffa, 0x1ff9, 0x15, 0xf8, 0x7fa)
        else
          if i < 56 then
            if i < 48 then
              Pick(i - 40, 0x3fa, 0x3fb, 0xf9, 0x7fb, 0xfa, 0x16, 0x17, 0x18)
            else
              Pick(i - 48, 0x0, 0x1, 0x2, 0x19, 0x1a, 0x1b, 0x1c, 0x1d)
          else
            if i < 64 then
              Pick(i - 56, 0x1e, 0x1f, 0x5c, 0xfb, 0x7ffc, 0x20, 0xffb, 0x3fc)
            else
              Pick(i - 64, 0x1ffa, 0x21, 0x5d, 0x5e, 0x5f, 0x60, 0x61, 0x62)
      else
        if i < 104 then
          if i < 88 then
            if i < 80 then
              Pick(i - 72, 0x63, 0x64, 0x65, 0x66, 0x67, 0x68, 0x69, 0x6a)
            else
              Pick(i - 80, 0x6b, 0x6c, 0x6d, 0x6e, 0x6f, 0x70, 0x71, 0x72)
          else
            if i < 96 then
              Pick(i - 88, 0xfc, 0x73, 0xfd, 0x1ffb, 0x7fff0, 0x1ffc, 0x3ffc, 0x22)
            else
              Pick(i - 96, 0x7ffd, 0x3, 0x23, 0x4, 0x24, 0x5, 0x25, 0x26)
        else
          if i < 120 then
            if i < 112 then
              Pick(i - 104, 0x27, 0x6, 0x74, 0x75, 0x28, 0x29, 0x2a, 0x7)
            else
              Pick(i - 112, 0x2b, 0x76, 0x2c, 0x8, 0x9, 0x2d, 0x77, 0x78)
          else
            if i < 128 then
              Pick(i - 120, 0x79, 0x7a, 0x7b, 0x7ffe, 0x7fc, 0x3ffd, 0x1ffd, 0xffffffc)
            else
              Pick(i - 128, 0xfffe6, 0x3fffd2, 0xfffe7, 0xfffe8, 0x3fffd3, 0x3fffd4, 0x3fffd5, 0x7fffd9)
    else
      if i < 200 then
        if i < 168 then
          if i < 152 then
            if i < 144 then
              Pick(i - 136, 0x3fffd6, 0x7fffda, 0x7fffdb, 0x7fffdc, 0x7fffdd, 0x7fffde, 0xffffeb, 0x7fffdf)
            else
              Pick(i - 144, 0xffffec, 0xffffed, 0x3fffd7, 0x7fffe0, 0xffffee, 0x7fffe1, 0x7fffe2, 0x7fffe3)
          else
            if i < 160 then
              Pick(i - 152, 0x7fffe4, 0x1fffdc, 0x3fffd8, 0x7fffe5, 0x3fffd9, 0x7fffe6, 0x7fffe7, 0xffffef)
            else
              Pick(i - 160, 0x3fffda, 0x1fffdd, 0xfffe9, 0x3fffdb, 0x3fffdc, 0x7fffe8, 0x7fffe9, 0x1fffde)
        else
          if i < 184 then
            if i < 176 then
              Pick(i - 168, 0x7fffea, 0x3fffdd, 0x3fffde, 0xfffff0, 0x1fffdf, 0x3fffdf, 0x7fffeb, 0x7fffec)
            else
              Pick(i - 176, 0x1fffe0, 0x1fffe1, 0x3fffe0, 0x1fffe2, 0x7fffed, 0x3fffe1, 0x7fffee, 0x7fffef)
          else
            if i < 192 then
              Pick(i - 184, 0xfffea, 0x3fffe2, 0x3fffe3, 0x3fffe4, 0x7ffff0, 0x3fffe5, 0x3fffe6, 0x7ffff1)
            else
              Pick(i - 192, 0x3ffffe0, 0x3ffffe1, 0xfffeb, 0x7fff1, 0x3fffe7, 0x7ffff2, 0x3fffe8, 0x1ffffec)
      else
        if i < 232 then
          if i < 216 then
            if i < 208 then
              Pick(i - 200, 0x3ffffe2, 0x3ffffe3, 0x3ffffe4, 0x7ffffde, 0x7ffffdf, 0x3ffffe5, 0xfffff1, 0x1ffffed)
            else
              Pick(i - 208, 0x7fff2, 0x1fffe3, 0x3ffffe6, 0x7ffffe0, 0x7ffffe1, 0x3ffffe7, 0x7ffffe2, 0xfffff2)
          else
            if i < 224 then
              Pick(i - 216, 0x1fffe4, 0x1fffe5, 0x3ffffe8, 0x3ffffe9, 0xffffffd, 0x7ffffe3, 0x7ffffe4, 0x7ffffe5)
            else
              Pick(i - 224, 0xfffec, 0xfffff3, 0xfffed, 0x1fffe6, 0x3fffe9, 0x1fffe7, 0x1fffe8, 0x7ffff3)
        else
          if i < 248 then
            if i < 240 then
              Pick(i - 232, 0x3fffea, 0x3fffeb, 0x1ffffee, 0x1ffffef, 0xfffff4, 0xfffff5, 0x3ffffea, 0x7ffff4)
            else
              Pick(i - 240, 0x3ffffeb, 0x7ffffe6, 0x3ffffec, 0x3ffffed, 0x7ffffe7, 0x7ffffe8, 0x7ffffe9, 0x7ffffea)
          else
            if i < 256 then
              Pick(i - 248, 0x7ffffeb, 0xffffffe, 0x7ffffec, 0x7ffffed, 0x7ffffee, 0x7ffffef, 0x7fffff0, 0x3ffffee)
            else
              0x3fffffff
  }

  /** The symbols in the order of their codes read as binary fractions. */
  function SymbolAt(i: nat): (r: nat)
    requires i <= 256
  {
    if i < 136 then
      if i < 72 then
        if i < 40 then
          if i < 24 then
            if i < 16 then
              if i < 8 then
                Pick(i, 48, 49, 50, 97, 99, 101, 105, 111)
              else
                Pick(i - 8, 115, 116, 32, 37, 45, 46, 47, 51)
            else
              Pick(i - 16, 52, 53, 54, 55, 56, 57, 61, 65)
          else
            if i < 32 then
              Pick(i - 24, 95, 98, 100, 102, 103, 104, 108, 109)
            else
              Pick(i - 32, 110, 112, 114, 117, 58, 66, 67, 68)
        else
          if i < 56 then
            if i < 48 then
              Pick(i - 40, 69, 70, 71, 72, 73, 74, 75, 76)
            else
              Pick(i - 48, 77, 78, 79, 80, 81, 82, 83, 84)
          else
            if i < 64 then
              Pick(i - 56, 85, 86, 87, 89, 106, 107, 113, 118)
            else
              Pick(i - 64, 119, 120, 121, 122, 38, 42, 44, 59)
      else
        if i < 104 then
          if i < 88 then
            if i < 80 then
              Pick(i - 72, 88, 90, 33, 34, 40, 41, 63, 39)
            else
              Pick(i - 80, 43, 124, 35, 62, 0, 36, 64, 91)
          else
            if i < 96 then
              Pick(i - 88, 93, 126, 94, 125, 60, 96, 123, 92)
            else
              Pick(i - 96, 195, 208, 128, 130, 131, 162, 184, 194)
        else
          if i < 120 then
            if i < 112 then
              Pick(i - 104, 224, 226, 153, 161, 167, 172, 176, 177)
            else
              Pick(i - 112, 179, 209, 216, 217, 227, 229, 230, 129)
          else
            if i < 128 then
              Pick(i - 120, 132, 133, 134, 136, 146, 154, 156, 160)
            else
              Pick(i - 128, 163, 164, 169, 170, 173, 178, 181, 185)
    else
      if i < 200 then
        if i < 168 then
          if i < 152 then
            if i < 144 then
              Pick(i - 136, 186, 187, 189, 190, 196, 198, 228, 232)
            else
              Pick(i - 144, 233, 1, 135, 137, 138, 139, 140, 141)
          else
            if i < 160 then
              Pick(i - 152, 143, 147, 149, 150, 151, 152, 155, 157)
            else
              Pick(i - 160, 158, 165, 166, 168, 174, 175, 180, 182)
        else
          if i < 184 then
            if i < 176 then
              Pick(i - 168, 183, 188, 191, 197, 231, 239, 9, 142)
            else
              Pick(i - 176, 144, 145, 148, 159, 171, 206, 215, 225)
          else
            if i < 192 then
              Pick(i - 184, 236, 237, 199, 207, 234, 235, 192, 193)
            else
              Pick(i - 192, 200, 201, 202, 205, 210, 213, 218, 219)
      else
        if i < 232 then
          if i < 216 then
            if i < 208 then
              Pick(i - 200, 238, 240, 242, 243, 255, 203, 204, 211)
            else
              Pick(i - 208, 212, 214, 221, 222, 223, 241, 244, 245)
          else
            if i < 224 then
              Pick(i - 216, 246, 247, 248, 250, 251, 252, 253, 254)
            else
              Pick(i - 224, 2, 3, 4, 5, 6, 7, 8, 11)
        else
          if i < 248 then
            if i < 240 then
              Pick(i - 232, 12, 14, 15, 16, 17, 18, 19, 20)
            else
              Pick(i - 240, 21, 23, 24, 25, 26, 27, 28, 29)
          else
            if i < 256 then
              Pick(i - 248, 30, 31, 127, 220, 249, 10, 13, 22)
            else
              256
  }

  /** The g-th code length in use. */
  function GroupLength(g: nat): (r: nat)
    requires g <= 20
  {
    if g < 16 then
      if g < 8 then
        Pick(g, 5, 6, 7, 8, 10, 11, 12, 13)
      else
        Pick(g - 8, 14, 15, 19, 20, 21, 22, 23, 24)
    else
      Pick(g - 16, 25, 26, 27, 28, 30, 30, 30, 30)
  }

  /** The smallest code of the g-th length. */
  function GroupFirst(g: nat): (r: nat)
    requires g <= 20
  {
    if g < 16 then
      if g < 8 then
        Pick(g, 0x0, 0x14, 0x5c, 0xf8, 0x3f8, 0x7fa, 0xffa, 0x1ff8)
      else
        Pick(g - 8, 0x3ffc, 0x7ffc, 0x7fff0, 0xfffe6, 0x1fffdc, 0x3fffd2, 0x7fffd8, 0xffffea)
    else
      Pick(g - 16, 0x1ffffec, 0x3ffffe0, 0x7ffffde, 0xfffffe2, 0x3ffffffc, 0x3ffffffc, 0x3ffffffc, 0x3ffffffc)
  }

  /** How many codes have the g-th length. */
  function GroupCount(g: nat): (r: nat)
    requires g <= 20
  {
    if g < 16 then
      if g < 8 then
        Pick(g, 10, 26, 32, 6, 5, 3, 2, 6)
      else
        Pick(g - 8, 2, 3, 3, 8, 13, 26, 29, 12)
    else
      Pick(g - 16, 4, 15, 19, 29, 4, 4, 4, 4)
  }

  /** The position of the first symbol of the g-th length. */
  function GroupBase(g: nat): (r: nat)
    requires g <= 20
  {
    if g < 16 then
      if g < 8 then
        Pick(g, 0, 10, 36, 68, 74, 79, 82, 84)
      else
        Pick(g - 8, 90, 92, 95, 98, 106, 119, 145, 174)
    else
      Pick(g - 16, 186, 190, 205, 224, 253, 253, 253, 253)
  }

  /** The number of a code length, 21 when no code has it. */
  function GroupOf(length: nat): (g: nat)
    ensures g <= 21
  {
    if length < 5 || length > 30 || length == 9 || length == 16 || length == 17 || length == 18 || length == 29 then 21
    else if length <= 8 then length - 5
    else if length <= 15 then length - 6
    else if length <= 28 then length - 9
    else 20
  }

  /** The table the decoder searches. */
  function Appendix(): (t: Table)
    ensures |t| == 257
    ensures forall s :: 0 <= s < 257 ==> t[s] == Code(CodeLength(s), CodeWord(s))
  {
    seq(257, s requires 0 <= s < 257 => Code(CodeLength(s), CodeWord(s)))
  }

  ghost predicate InGroup(s: nat)
    requires s <= 256
  {
    var g := GroupOf(CodeLength(s));
    && g <= 20
    && GroupLength(g) == CodeLength(s)
    && GroupFirst(g) <= CodeWord(s) < GroupFirst(g) + GroupCount(g)
  }

  /** Where the code of a symbol stands among all the codes. */
  ghost function PositionOf(s: nat): int
    requires s <= 256 && InGroup(s)
  {
    var g := GroupOf(CodeLength(s));
    GroupBase(g) + CodeWord(s) - GroupFirst(g)
  }

  ghost predicate SymbolOk(s: nat)
    requires s <= 256
  {
    InGroup(s) && 0 <= PositionOf(s) <= 256 && SymbolAt(PositionOf(s)) == s
  }

  ghost predicate PositionOk(k: nat)
    requires k <= 256
  {
    SymbolAt(k) <= 256 && InGroup(SymbolAt(k)) && PositionOf(SymbolAt(k)) == k
  }

  lemma Symbols0(s: nat)
    requires 0 <= s < 32
    ensures SymbolOk(s)
  {
  }

  lemma Symbols32(s: nat)
    requires 32 <= s < 64
    ensures SymbolOk(s)
  {
  }

  lemma Symbols64(s: nat)
    requires 64 <= s < 96
    ensures SymbolOk(s)
  {
  }

  lemma Symbols96(s: nat)
    requires 96 <= s < 128
    ensures SymbolOk(s)
  {
  }

  lemma Symbols128(s: nat)
    requires 128 <= s < 160
    ensures SymbolOk(s)
  {
  }

  lemma Symbols160(s: nat)
    requires 160 <= s < 192
    ensures SymbolOk(s)
  {
  }

  lemma Symbols192(s: nat)
    requires 192 <= s < 224
    ensures SymbolOk(s)
  {
  }

  lemma Symbols224(s: nat)
    requires 224 <= s < 257
    ensures SymbolOk(s)
  {
  }

  lemma Symbols(s: nat)
    requires s <= 256
    ensures SymbolOk(s)
  {
    if
    case 0 <= s < 32 => Symbols0(s);
    case 32 <= s < 64 => Symbols32(s);
    case 64 <= s < 96 => Symbols64(s);
    case 96 <= s < 128 => Symbols96(s);
    case 128 <= s < 160 => Symbols128(s);
    case 160 <= s < 192 => Symbols160(s);
    case 192 <= s < 224 => Symbols192(s);
    case 224 <= s < 257 => Symbols224(s);
  }

  lemma Positions0(k: nat)
    requires 0 <= k < 12
    ensures PositionOk(k)
  {
  }

  lemma Positions12(k: nat)
    requires 12 <= k < 24
    ensures PositionOk(k)
  {
  }

  lemma Positions24(k: nat)
    requires 24 <= k < 36
    ensures PositionOk(k)
  {
  }

  lemma Positions36(k: nat)
    requires 36 <= k < 48
    ensures PositionOk(k)
  {
  }

  lemma Positions48(k: nat)
    requires 48 <= k < 60
    ensures PositionOk(k)
  {
  }

  lemma Positions60(k: nat)
    requires 60 <= k < 72
    ensures PositionOk(k)
  {
  }

  lemma Positions72(k: nat)
    requires 72 <= k < 84
    ensures PositionOk(k)
  {
  }

  lemma Positions84(k: nat)
    requires 84 <= k < 96
    ensures PositionOk(k)
  {
  }

  lemma Positions96(k: nat)
    requires 96 <= k < 108
    ensures PositionOk(k)
  {
  }

  lemma Positions108(k: nat)
    requires 108 <= k < 120
    ensures PositionOk(k)
  {
  }

  lemma Positions120(k: nat)
    requires 120 <= k < 132
    ensures PositionOk(k)
  {
  }

  lemma Positions132(k: nat)
    requires 132 <= k < 144
    ensures PositionOk(k)
  {
  }

  lemma Positions144(k: nat)
    requires 144 <= k < 156
    ensures PositionOk(k)
  {
  }

  lemma Positions156(k: nat)
    requires 156 <= k < 168
    ensures PositionOk(k)
  {
  }

  lemma Positions168(k: nat)
    requires 168 <= k < 180
    ensures PositionOk(k)
  {
  }

  lemma Positions180(k: nat)
    requires 180 <= k < 192
    ensures PositionOk(k)
  {
  }

  lemma Positions192(k: nat)
    requires 192 <= k < 204
    ensures PositionOk(k)
  {
  }

  lemma Positions204(k: nat)
    requires 204 <= k < 216
    ensures PositionOk(k)
  {
  }

  lemma Positions216(k: nat)
    requires 216 <= k < 228
    ensures PositionOk(k)
  {
  }

  lemma Positions228(k: nat)
    requires 228 <= k < 240
    ensures PositionOk(k)
  {
  }

  lemma Positions240(k: nat)
    requires 240 <= k < 257
    ensures PositionOk(k)
  {
  }

  lemma Positions(k: nat)
    requires k <= 256
    ensures PositionOk(k)
  {
    if
    case 0 <= k < 12 => Positions0(k);
    case 12 <= k < 24 => Positions12(k);
    case 24 <= k < 36 => Positions24(k);
    case 36 <= k < 48 => Positions36(k);
    case 48 <= k < 60 => Positions48(k);
    case 60 <= k < 72 => Positions60(k);
    case 72 <= k < 84 => Positions72(k);
    case 84 <= k < 96 => Positions84(k);
    case 96 <= k < 108 => Positions96(k);
    case 108 <= k < 120 => Positions108(k);
    case 120 <= k < 132 => Positions120(k);
    case 132 <= k < 144 => Positions132(k);
    case 144 <= k < 156 => Positions144(k);
    case 156 <= k < 168 => Positions156(k);
    case 168 <= k < 180 => Positions168(k);
    case 180 <= k < 192 => Positions180(k);
    case 192 <= k < 204 => Positions192(k);
    case 204 <= k < 216 => Positions204(k);
    case 216 <= k < 228 => Positions216(k);
    case 228 <= k < 240 => Positions228(k);
    case 240 <= k < 257 => Positions240(k);
  }

  /** The groups of the table. */
  function Groups(): (sh: Shape)
    ensures |sh| == 21
    ensures forall g :: 0 <= g < 21 ==> sh[g] == GroupAt(g)
  {
    seq(21, g requires 0 <= g < 21 => GroupAt(g))
  }

  function GroupAt(g: nat): Group
    requires g <= 20
  {
    Group(GroupLength(g), GroupFirst(g), GroupCount(g), GroupBase(g))
  }

  lemma Pow2Table()
    ensures Pow2(0) == 1 && Pow2(2) == 4 && Pow2(3) == 8 && Pow2(4) == 16 && Pow2(5) == 32 && Pow2(6) == 64
    ensures Pow2(7) == 128 && Pow2(8) == 256 && Pow2(9) == 512 && Pow2(10) == 1024 && Pow2(11) == 2048
    ensures Pow2(15) == 0x8000 && Pow2(16) == 0x1_0000 && Pow2(17) == 0x2_0000 && Pow2(18) == 0x4_0000
    ensures Pow2(19) == 0x8_0000 && Pow2(20) == 0x10_0000 && Pow2(22) == 0x40_0000 && Pow2(23) == 0x80_0000
    ensures Pow2(24) == 0x100_0000 && Pow2(25) == 0x200_0000 && Pow2(30) == 0x4000_0000
  {
  }

  ghost predicate LinkOk(g: nat)
    requires 1 <= g <= 20
  {
    5 <= GroupLength(g - 1) <= 30 && 5 <= GroupLength(g) <= 30 && Follows(GroupAt(g - 1), GroupAt(g))
  }

  lemma Links1(g: nat)
    requires 1 <= g < 6
    ensures LinkOk(g)
  {
    Pow2Table();
  }

  lemma Links6(g: nat)
    requires 6 <= g < 11
    ensures LinkOk(g)
  {
    Pow2Table();
  }

  lemma Links11(g: nat)
    requires 11 <= g < 16
    ensures LinkOk(g)
  {
    Pow2Table();
  }

  lemma Links16(g: nat)
    requires 16 <= g < 21
    ensures LinkOk(g)
  {
    Pow2Table();
  }

  lemma Links(g: nat)
    requires 1 <= g <= 20
    ensures LinkOk(g)
  {
    if
    case 1 <= g < 6 => Links1(g);
    case 6 <= g < 11 => Links6(g);
    case 11 <= g < 16 => Links11(g);
    case 16 <= g => Links16(g);
  }

  lemma GroupsChained()
    ensures Chained(Groups())
  {
    forall g: nat | 0 < g < 21
      ensures Linked(Groups(), g) && 5 <= Groups()[g].length <= 30
    {
      Links(g);
    }
    assert Groups()[0] == Group(5, 0, 10, 0);
    assert Groups()[20] == Group(30, 0x3ffffffc, 4, 253);
    Pow2Table();
  }

  lemma SymbolInTable(s: nat)
    requires s <= 256
    ensures Appendix()[s] == Code(CodeLength(s), CodeWord(s))
    ensures var g := GroupOf(CodeLength(s));
            WordOf(Groups(), g, CodeWord(s)) && Groups()[g].length == CodeLength(s)
  {
    Symbols(s);
  }

  lemma AppendixPrefixFree()
    ensures PrefixFree(Appendix())
  {
    forall a, b | 0 <= a < 257 && 0 <= b < 257
      ensures CodeBits(Appendix()[a]) <= CodeBits(Appendix()[b]) ==> a == b
    {
      PrefixIsSameSymbol(a, b);
    }
  }

  lemma PrefixIsSameSymbol(a: nat, b: nat)
    requires a <= 256 && b <= 256
    ensures CodeBits(Appendix()[a]) <= CodeBits(Appendix()[b]) ==> a == b
  {
    SymbolInTable(a);
    SymbolInTable(b);
    GroupsChained();
    PrefixIsSame(Groups(), GroupOf(CodeLength(a)), CodeWord(a), GroupOf(CodeLength(b)), CodeWord(b));
    SameCodeSameSymbol(a, b);
  }

  lemma SameCodeSameSymbol(a: nat, b: nat)
    requires a <= 256 && b <= 256
    ensures CodeLength(a) == CodeLength(b) && CodeWord(a) == CodeWord(b) ==> a == b
  {
    Symbols(a);
    Symbols(b);
  }

  /** Every word of a group belongs to a symbol. */
  lemma SymbolOfWord(g: nat, w: nat) returns (s: nat)
    requires WordOf(Groups(), g, w)
    ensures s <= 256 && CodeLength(s) == Groups()[g].length && CodeWord(s) == w
  {
    var sh := Groups();
    GroupsChained();
    var k := sh[g].base + w - sh[g].first;
    assert sh[20].base + sh[20].count == 257;
    if g < 20 { GroupsOrdered(sh, g, 20); }
    Positions(k);
    s := SymbolAt(k);
    var h := GroupOf(CodeLength(s));
    if g < h { GroupsOrdered(sh, g, h); }
    if h < g { GroupsOrdered(sh, h, g); }
  }

  lemma AppendixComplete()
    ensures Complete(Appendix())
  {
    GroupsChained();
    forall x: seq<bool> | |x| >= 30
      ensures HasCode(Appendix(), x)
    {
      var g, w := LongStartsWithCode(Groups(), x);
      var s := SymbolOfWord(g, w);
      assert Starts(Appendix(), s, x);
    }
  }

  /** RFC 7541 Appendix B is a code the decoder theorem applies to. */
  lemma AppendixWellFormed()
    ensures WellFormed(Appendix())
  {
    forall s | 0 <= s < 257
      ensures 5 <= Appendix()[s].length <= 30 && Appendix()[s].word < Pow2(Appendix()[s].length)
    {
      SymbolInTable(s);
      GroupsChained();
      WordFits(Groups(), GroupOf(CodeLength(s)), CodeWord(s));
    }
    AppendixPrefixFree();
    AppendixComplete();
    EosIsOnes();
  }

  lemma EosIsOnes()
    ensures CodeBits(Appendix()[256]) == Ones(30)
  {
    assert Appendix()[256] == Code(30, 0x3fffffff);
    Pow2Table();
    OnesValue(30);
  }

  /** The Huffman code of a string, and what the decoder answers on a bit string. */
  ghost function HuffEncode(s: seq<Byte>): (x: seq<bool>) {
    AppendixWellFormed(); Encode(Appendix(), s)
  }

  ghost function HuffOutcome(x: seq<bool>, room: nat): (r: Option<seq<Byte>>) {
    AppendixWellFormed(); Outcome(Appendix(), x, room)
  }

  /** Huffman inversion for the table of the client. */
  lemma HuffmanInversion(s: seq<Byte>, pad: nat, room: nat)
    requires pad < 30
    ensures HuffOutcome(HuffEncode(s) + Ones(pad), room) == (if |s| <= room then Some(s) else None)
  {
    AppendixWellFormed();
    OutcomeOfEncoding(Appendix(), s, pad, room);
  }

  /** Exactly which bit strings the client accepts as the string `s`. */
  lemma HuffmanExact(x: seq<bool>, room: nat, s: seq<Byte>)
    ensures HuffOutcome(x, room) == Some(s) <==>
            && |s| <= room
            && (|| HuffEncode(s) + Ones(30) <= x
                || exists pad: nat :: pad < 30 && x == HuffEncode(s) + Ones(pad))
  {
    AppendixWellFormed();
    OutcomeExact(Appendix(), x, room, s);
  }

  /** huff_decode on the client's own table. */
  method DecodeHuffman(src: seq<Byte>, dstmax: nat) returns (r: Option<seq<Byte>>)
    ensures r == HuffOutcome(ByteBits(src), dstmax)
  {
    AppendixWellFormed();
    r := HuffDecode(Appendix(), src, dstmax);
  }
}
