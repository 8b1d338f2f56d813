/**
 Huffman strings (RFC 7541 section 5.2), for any code table: what a bit string
 means, and the decoder of the client proved to compute exactly that meaning.
 */
module HuffmanCode {
  import opened Bits
  import opened Wrappers

  datatype Code = Code(length: nat, word: nat)
  type Table = seq<Code>

  const EOS: nat := 256

  function CodeBits(c: Code): (x: seq<bool>)
    ensures |x| == c.length
  {
    BitsOf(c.word, c.length)
  }

  ghost predicate Sized(t: Table) {
    |t| == 257 && forall s :: 0 <= s < 257 ==> 5 <= t[s].length <= 30
  }

  ghost predicate WordsFit(t: Table) {
    forall s :: 0 <= s < |t| ==> t[s].word < Pow2(t[s].length)
  }

  ghost predicate PrefixFree(t: Table) {
    forall a, b :: 0 <= a < |t| && 0 <= b < |t| && CodeBits(t[a]) <= CodeBits(t[b]) ==> a == b
  }

  /** The code of symbol `s` is how `x` begins. */
  ghost predicate Starts(t: Table, s: nat, x: seq<bool>) {
    s < |t| && CodeBits(t[s]) <= x
  }

  ghost predicate HasCode(t: Table, x: seq<bool>) {
    exists s: nat :: Starts(t, s, x)
  }

  ghost predicate Complete(t: Table) {
    forall x: seq<bool> :: |x| >= 30 ==> HasCode(t, x)
  }

  ghost predicate WellFormed(t: Table) {
    Sized(t) && WordsFit(t) && PrefixFree(t) && Complete(t) && CodeBits(t[EOS]) == Ones(30)
  }

  /** The encoder of the standard: the codes of the bytes, one after the other. */
  ghost function Encode(t: Table, s: seq<Byte>): (x: seq<bool>)
    requires Sized(t)
  {
    if s == [] then [] else CodeBits(t[s[0]]) + Encode(t, s[1..])
  }

  /** The symbols a bit string spells, and what is left when no code fits any more. */
  datatype Parsed = Parsed(out: seq<Byte>, rest: seq<bool>, eos: bool)

  ghost function Parse(t: Table, x: seq<bool>): (p: Parsed)
    requires Sized(t)
    decreases |x|
  {
    if !HasCode(t, x) then Parsed([], x, false)
    else
      var s: nat :| Starts(t, s, x);
      var tail := x[t[s].length..];
      if s == EOS then Parsed([], tail, true)
      else Prepend(s, Parse(t, tail))
  }

  ghost function Prepend(s: Byte, p: Parsed): Parsed {
    Parsed([s] + p.out, p.rest, p.eos)
  }

  lemma UniqueStart(t: Table, a: nat, b: nat, x: seq<bool>)
    requires PrefixFree(t) && Starts(t, a, x) && Starts(t, b, x)
    ensures a == b
  {
    assert t[a].length <= t[b].length ==> CodeBits(t[a]) <= CodeBits(t[b]);
    assert t[b].length <= t[a].length ==> CodeBits(t[b]) <= CodeBits(t[a]);
  }

  lemma ParseStep(t: Table, s: nat, x: seq<bool>)
    requires Sized(t) && PrefixFree(t) && Starts(t, s, x)
    ensures s == EOS ==> Parse(t, x) == Parsed([], x[t[s].length..], true)
    ensures s != EOS ==> Parse(t, x) == Prepend(s, Parse(t, x[t[s].length..]))
  {
    var c: nat :| Starts(t, c, x) && Parse(t, x) ==
      (if c == EOS then Parsed([], x[t[c].length..], true)
       else Prepend(c, Parse(t, x[t[c].length..])));
    UniqueStart(t, s, c, x);
  }

  lemma StartsAppend(t: Table, s: nat, x: seq<bool>, y: seq<bool>)
    requires Starts(t, s, x)
    ensures Starts(t, s, x + y) && (x + y)[t[s].length..] == x[t[s].length..] + y
  {
  }

  /** What parsing reports when it continues after `p` with parse `q` of the remaining bits. */
  ghost function Continue(p: Parsed, q: Parsed): Parsed {
    Parsed(p.out + q.out, q.rest, q.eos)
  }

  lemma ContinuePrepend(s: Byte, p: Parsed, q: Parsed)
    ensures Continue(Prepend(s, p), q) == Prepend(s, Continue(p, q))
  {
    assert ([s] + p.out) + q.out == [s] + (p.out + q.out);
  }

  ghost function Resumed(t: Table, p: Parsed, y: seq<bool>): Parsed
    requires Sized(t)
  {
    if p.eos then Parsed(p.out, p.rest + y, true) else Continue(p, Parse(t, p.rest + y))
  }

  /** Parsing may be interrupted after any prefix and resumed with what it left. */
  lemma {:induction false} ParseAppend(t: Table, x: seq<bool>, y: seq<bool>)
    requires Sized(t) && PrefixFree(t)
    ensures Parse(t, x + y) == Resumed(t, Parse(t, x), y)
    decreases |x|
  {
    if !HasCode(t, x) {
      assert [] + Parse(t, x + y).out == Parse(t, x + y).out;
    } else {
      var s: nat :| Starts(t, s, x);
      var tail := x[t[s].length..];
      StartsAppend(t, s, x, y);
      ParseStep(t, s, x);
      ParseStep(t, s, x + y);
      if s != EOS {
        ParseAppend(t, tail, y);
        PrependResumed(t, s, Parse(t, tail), y);
      }
    }
  }

  lemma PrependResumed(t: Table, s: Byte, p: Parsed, y: seq<bool>)
    requires Sized(t)
    ensures Resumed(t, Prepend(s, p), y) == Prepend(s, Resumed(t, p, y))
  {
    if !p.eos { ContinuePrepend(s, p, Parse(t, p.rest + y)); }
  }

  /** The bits a parse accounts for, put back together. */
  ghost function Unparse(t: Table, p: Parsed): seq<bool>
    requires Sized(t)
  {
    Encode(t, p.out) + (if p.eos then CodeBits(t[EOS]) + p.rest else p.rest)
  }

  lemma UnparsePrepend(t: Table, s: Byte, p: Parsed)
    requires Sized(t)
    ensures Unparse(t, Prepend(s, p)) == CodeBits(t[s]) + Unparse(t, p)
  {
    assert ([s] + p.out)[1..] == p.out;
    assert Encode(t, [s] + p.out) == CodeBits(t[s]) + Encode(t, p.out);
  }

  /** A parse splits its input: the bit string is the codes of the symbols, then the rest. */
  lemma {:induction false} ParseSound(t: Table, x: seq<bool>)
    requires Sized(t) && PrefixFree(t)
    ensures var p := Parse(t, x); x == Unparse(t, p) && (!p.eos ==> !HasCode(t, p.rest))
    decreases |x|
  {
    if HasCode(t, x) {
      var s: nat :| Starts(t, s, x);
      var tail := x[t[s].length..];
      ParseStep(t, s, x);
      assert x == CodeBits(t[s]) + tail;
      if s != EOS {
        ParseSound(t, tail);
        UnparsePrepend(t, s, Parse(t, tail));
      }
    }
  }

  lemma EncodeStarts(t: Table, s: seq<Byte>, r: seq<bool>)
    requires Sized(t) && s != []
    ensures var x := Encode(t, s) + r;
            Starts(t, s[0], x) && x[t[s[0]].length..] == Encode(t, s[1..]) + r
  {
    assert Encode(t, s) + r == CodeBits(t[s[0]]) + (Encode(t, s[1..]) + r);
  }

  /** The encoding of `s` followed by bits that begin no code parses back to `s`. */
  lemma {:induction false} ParseEncode(t: Table, s: seq<Byte>, r: seq<bool>)
    requires Sized(t) && PrefixFree(t) && !HasCode(t, r)
    ensures Parse(t, Encode(t, s) + r) == Parsed(s, r, false)
  {
    hide CodeBits, PrefixFree, Starts;
    if s == [] {
      assert Encode(t, s) + r == r;
    } else {
      EncodeStarts(t, s, r);
      ParseStep(t, s[0], Encode(t, s) + r);
      ParseEncode(t, s[1..], r);
      assert [s[0]] + s[1..] == s;
    }
  }

  /** Padding shorter than the end-of-string code begins no code. */
  lemma OnesAreNoCode(t: Table, n: nat)
    requires WellFormed(t) && n < 30
    ensures !HasCode(t, Ones(n))
  {
    forall s: nat | s < |t|
      ensures !Starts(t, s, Ones(n))
    {
      PrefixOfOnes(CodeBits(t[s]), n);
    }
  }

  lemma PrefixOfOnes(x: seq<bool>, n: nat)
    requires n < 30
    ensures x <= Ones(n) ==> x <= Ones(30) && |x| < 30
  {
  }

  /** What the decoder answers on a bit string, with room for `room` bytes. */
  ghost function Outcome(t: Table, x: seq<bool>, room: nat): (r: Option<seq<Byte>>)
    requires Sized(t)
  {
    var p := Parse(t, x);
    if |p.out| > room then None
    else if p.eos || p.rest == Ones(|p.rest|) then Some(p.out)
    else None
  }

  /** Huffman inversion: a padded encoding decodes to its string whenever there is room. */
  lemma OutcomeOfEncoding(t: Table, s: seq<Byte>, pad: nat, room: nat)
    requires WellFormed(t) && pad < 30
    ensures Outcome(t, Encode(t, s) + Ones(pad), room) == (if |s| <= room then Some(s) else None)
  {
    OnesAreNoCode(t, pad);
    ParseEncode(t, s, Ones(pad));
  }

  /** `x` is the code of `s` and then the end-of-string code or at most 29 ones. */
  ghost predicate Spells(t: Table, x: seq<bool>, s: seq<Byte>)
    requires Sized(t)
  {
    || Encode(t, s) + CodeBits(t[EOS]) <= x
    || exists pad: nat :: pad < 30 && x == Encode(t, s) + Ones(pad)
  }

  /** Exactly which bit strings the decoder accepts, and as what. */
  lemma OutcomeExact(t: Table, x: seq<bool>, room: nat, s: seq<Byte>)
    requires WellFormed(t)
    ensures Outcome(t, x, room) == Some(s) <==> |s| <= room && Spells(t, x, s)
  {
    if Outcome(t, x, room) == Some(s) { AcceptedSpells(t, x, room); }
    if Spells(t, x, s) { SpelledParse(t, x, s); }
  }

  lemma AcceptedSpells(t: Table, x: seq<bool>, room: nat)
    requires WellFormed(t) && Outcome(t, x, room).Some?
    ensures Spells(t, x, Outcome(t, x, room).value)
  {
    hide Parse, Encode, CodeBits, Ones, PrefixFree, Complete, HasCode;
    var p := Parse(t, x);
    ParseSound(t, x);
    if p.eos {
      assert x == (Encode(t, p.out) + CodeBits(t[EOS])) + p.rest;
    } else {
      LeftoverIsShort(t, p.rest);
      assert p.rest == Ones(|p.rest|);
    }
  }

  lemma LeftoverIsShort(t: Table, x: seq<bool>)
    requires Complete(t) && !HasCode(t, x)
    ensures |x| < 30
  {
  }

  lemma SpelledParse(t: Table, x: seq<bool>, s: seq<Byte>)
    requires WellFormed(t) && Spells(t, x, s)
    ensures var p := Parse(t, x); p.out == s && (p.eos || p.rest == Ones(|p.rest|))
  {
    if Encode(t, s) + CodeBits(t[EOS]) <= x {
      var n := |Encode(t, s)|;
      assert x == Encode(t, s) + x[n..];
      TailStarts(Encode(t, s), CodeBits(t[EOS]), x);
      ParseStep(t, EOS, x[n..]);
      ParseUpTo(t, s, x[n..]);
      assert s + [] == s;
    } else {
      var pad: nat :| pad < 30 && x == Encode(t, s) + Ones(pad);
      OnesAreNoCode(t, pad);
      ParseEncode(t, s, Ones(pad));
    }
  }

  lemma TailStarts(a: seq<bool>, b: seq<bool>, x: seq<bool>)
    requires a + b <= x
    ensures b <= x[|a|..]
  {
    assert x[|a|..][..|b|] == x[|a|..|a| + |b|] == (a + b)[|a|..];
  }

  /** Whatever follows it, an encoding is parsed first. */
  lemma ParseUpTo(t: Table, s: seq<Byte>, y: seq<bool>)
    requires Sized(t) && PrefixFree(t)
    ensures Parse(t, Encode(t, s) + y) == Continue(Parsed(s, [], false), Parse(t, y))
  {
    EmptyHasNoCode(t);
    ParseEncode(t, s, []);
    assert Encode(t, s) + [] == Encode(t, s);
    ParseAppend(t, Encode(t, s), y);
    assert [] + y == y;
  }

  lemma EmptyHasNoCode(t: Table)
    requires Sized(t)
    ensures !HasCode(t, [])
  {
    ShortHasNoCode(t, []);
  }

  /** Fewer than five bits begin no code. */
  lemma ShortHasNoCode(t: Table, x: seq<bool>)
    requires Sized(t)
    ensures |x| < 5 ==> !HasCode(t, x)
  {
    forall s: nat | s < 257
      ensures |x| < 5 ==> !Starts(t, s, x)
    {
      assert |CodeBits(t[s])| >= 5;
    }
  }

  /** The comparison the decoder makes: do the top bits of the accumulator spell code `s`? */
  lemma MatchMeansStarts(t: Table, s: nat, acc: nat, live: nat)
    requires Sized(t) && WordsFit(t) && s < 257 && t[s].length <= live
    ensures Low(ShiftRight(acc, live - t[s].length), t[s].length) == t[s].word
            <==> Starts(t, s, BitsOf(acc, live))
  {
    TopBits(acc, live, t[s].length, t[s].word);
  }

  lemma TopBits(acc: nat, live: nat, n: nat, word: nat)
    requires n <= live && word < Pow2(n)
    ensures Low(ShiftRight(acc, live - n), n) == word <==> BitsOf(word, n) <= BitsOf(acc, live)
  {
    hide BitsOf, Low;
    var top := ShiftRight(acc, live - n);
    BitsOfSplit(acc, n, live - n);
    BitsOfLow(top, n, n);
    SameBits(Low(top, n), word, n);
    assert BitsOf(word, n) <= BitsOf(acc, live) <==> BitsOf(word, n) == BitsOf(acc, live)[..n];
  }

  lemma SameBits(v: nat, w: nat, n: nat)
    requires v < Pow2(n) && w < Pow2(n)
    ensures v == w <==> BitsOf(v, n) == BitsOf(w, n)
  {
    if BitsOf(v, n) == BitsOf(w, n) { BitsOfInjective(v, w, n); }
  }

  /** The inner search: the first symbol whose code the live bits begin with. */
  method FindSymbol(t: Table, acc: nat, live: nat) returns (sym: Option<nat>)
    requires Sized(t) && WordsFit(t)
    ensures sym.None? ==> !HasCode(t, BitsOf(acc, live))
    ensures sym.Some? ==> Starts(t, sym.value, BitsOf(acc, live))
  {
    for s := 0 to 257
      invariant forall k :: 0 <= k < s ==> !Starts(t, k, BitsOf(acc, live))
    {
      var n := t[s].length;
      if n != 0 && n <= live {
        MatchMeansStarts(t, s, acc, live);
        if Low(ShiftRight(acc, live - n), n) == t[s].word {
          return Some(s);
        }
      }
    }
    return None;
  }

  /** Shifting a byte into the 64-bit accumulator appends its bits to the live ones. */
  lemma ShiftIn(acc: nat, live: nat, b: Byte)
    requires live <= 56
    ensures BitsOf(Low(acc * 256 + b, 64), live + 8) == BitsOf(acc, live) + BitsOf(b, 8)
  {
    assert Pow2(8) == 256;
    BitsOfConcat(acc, b, live, 8);
    BitsOfLow(acc * 256 + b, live + 8, 64);
  }

  datatype Drained = More(live: nat, out: seq<Byte>) | Ended(out: seq<Byte>) | Full

  /** The parse so far, once the live bits are parsed too. */
  ghost function After(t: Table, out: seq<Byte>, acc: nat, live: nat): Parsed
    requires Sized(t)
  {
    Continue(Parsed(out, [], false), Parse(t, BitsOf(acc, live)))
  }

  /** The inner loop: decode symbols while the live bits begin with a code. */
  method Drain(t: Table, acc: nat, live0: nat, out0: seq<Byte>, dstmax: nat) returns (d: Drained)
    requires WellFormed(t) && |out0| <= dstmax
    ensures DrainedTo(After(t, out0, acc, live0), acc, dstmax, d)
  {
    hide After, Parse, HasCode, PrefixFree, Complete, CodeBits, BitsOf;
    var live: nat, out: seq<Byte> := live0, out0;
    var matched := true;
    ghost var p := After(t, out0, acc, live0);
    while live >= 5 && matched
      invariant |out| <= dstmax
      invariant p == After(t, out, acc, live)
      invariant !matched ==> !HasCode(t, BitsOf(acc, live))
      decreases live, matched
    {
      var sym := FindSymbol(t, acc, live);
      if sym.None? {
        matched := false;
      } else {
        SymbolOff(t, sym.value, out, acc, live);
        if sym.value == EOS {
          return Ended(out);
        }
        if |out| >= dstmax {
          return Full;
        }
        live, out := live - t[sym.value].length, out + [sym.value];
      }
    }
    Stuck(t, out, acc, live);
    return More(live, out);
  }

  ghost predicate DrainedTo(p: Parsed, acc: nat, dstmax: nat, d: Drained) {
    match d
    case More(live, out) => p == Parsed(out, BitsOf(acc, live), false) && |out| <= dstmax && live <= 29
    case Ended(out) => p.eos && out == p.out && |out| <= dstmax
    case Full => |p.out| > dstmax
  }

  /** When no code fits, the live bits are what is left, and a complete code leaves under 30. */
  lemma Stuck(t: Table, out: seq<Byte>, acc: nat, live: nat)
    requires WellFormed(t) && (live < 5 || !HasCode(t, BitsOf(acc, live)))
    ensures live < 30 && After(t, out, acc, live) == Parsed(out, BitsOf(acc, live), false)
  {
    ShortHasNoCode(t, BitsOf(acc, live));
    assert out + [] == out;
  }

  /** Taking a matched symbol off only lowers the number of live bits. */
  lemma SymbolOff(t: Table, s: nat, out: seq<Byte>, acc: nat, live: nat)
    requires Sized(t) && PrefixFree(t) && Starts(t, s, BitsOf(acc, live))
    ensures 5 <= t[s].length <= live
    ensures var p := After(t, out, acc, live);
            if s == EOS then p.eos && p.out == out
            else p == After(t, out + [s], acc, live - t[s].length) && |p.out| > |out|
  {
    LiveStep(t, s, acc, live);
    if s == EOS {
      assert out + [] == out;
    } else {
      ContinueOut(out, s, Parse(t, BitsOf(acc, live - t[s].length)));
    }
  }

  lemma LiveStep(t: Table, s: nat, acc: nat, live: nat)
    requires Sized(t) && PrefixFree(t) && Starts(t, s, BitsOf(acc, live))
    ensures 5 <= t[s].length <= live
    ensures s == EOS ==> Parse(t, BitsOf(acc, live)) == Parsed([], BitsOf(acc, live - t[s].length), true)
    ensures s != EOS ==> Parse(t, BitsOf(acc, live)) == Prepend(s, Parse(t, BitsOf(acc, live - t[s].length)))
  {
    var n := t[s].length;
    assert |CodeBits(t[s])| <= |BitsOf(acc, live)|;
    assert BitsOf(acc, live)[n..] == BitsOf(acc, live - n) by { BitsOfSplit(acc, n, live - n); }
    ParseStep(t, s, BitsOf(acc, live));
  }

  lemma ContinueOut(out: seq<Byte>, s: Byte, q: Parsed)
    ensures Continue(Parsed(out, [], false), Prepend(s, q)) == Continue(Parsed(out + [s], [], false), q)
  {
    assert out + ([s] + q.out) == (out + [s]) + q.out;
  }

  /**
   huff_decode. The accumulator is a 64-bit word; it never holds more than 37
   live bits because a complete code leaves at most 29 undecoded.
   */
  method HuffDecode(t: Table, src: seq<Byte>, dstmax: nat) returns (r: Option<seq<Byte>>)
    requires WellFormed(t)
    ensures r == Outcome(t, ByteBits(src), dstmax)
  {
    hide Parse, HasCode, PrefixFree, Complete, CodeBits, BitsOf, ByteBits, Low;
    var acc: nat, live: nat, out: seq<Byte> := 0, 0, [];
    NothingRead(t, src);
    for i := 0 to |src|
      invariant |out| <= dstmax && live <= 29
      invariant Parse(t, ByteBits(src[..i])) == Parsed(out, BitsOf(acc, live), false)
    {
      NextByte(t, src, i);
      ShiftIn(acc, live, src[i]);
      acc := Low(acc * 256 + src[i], 64);
      live := live + 8;
      assert live <= 37;
      var d := Drain(t, acc, live, out, dstmax);
      match d {
        case More(l, o) =>
          live, out := l, o;
        case Ended(o) =>
          WholeAfter(t, src, i + 1, dstmax);
          return Some(o);
        case Full =>
          WholeAfter(t, src, i + 1, dstmax);
          return None;
      }
    }
    assert src[..|src|] == src;
    if live > 0 {
      PaddingTest(acc, live);
      if Low(acc, live) != Pow2(live) - 1 {
        return None;
      }
    }
    return Some(out);
  }

  /** The padding test: the low bits are all ones exactly when their value is the largest. */
  lemma PaddingTest(acc: nat, live: nat)
    ensures Low(acc, live) == Pow2(live) - 1 <==> BitsOf(acc, live) == Ones(live)
  {
    OnesValue(live);
    BitsOfLow(acc, live, live);
    SameBits(Low(acc, live), Pow2(live) - 1, live);
  }

  lemma NothingRead(t: Table, src: seq<Byte>)
    requires Sized(t)
    ensures Parse(t, ByteBits(src[..0])) == Parsed([], BitsOf(0, 0), false)
  {
    EmptyHasNoCode(t);
  }

  lemma NextByte(t: Table, src: seq<Byte>, i: nat)
    requires WellFormed(t) && i < |src|
    ensures var p := Parse(t, ByteBits(src[..i]));
            !p.eos ==>
              Parse(t, ByteBits(src[..i + 1])) == Continue(p, Parse(t, p.rest + BitsOf(src[i], 8)))
  {
    assert src[..i + 1] == src[..i] + [src[i]];
    ByteBitsConcat(src[..i], [src[i]]);
    assert ByteBits([src[i]]) == BitsOf(src[i], 8) + ByteBits([]) == BitsOf(src[i], 8);
    ParseAppend(t, ByteBits(src[..i]), BitsOf(src[i], 8));
  }

  /** An end of string or too many symbols in a prefix of the input decide the answer. */
  lemma WholeAfter(t: Table, src: seq<Byte>, i: nat, room: nat)
    requires WellFormed(t) && i <= |src|
    ensures var p := Parse(t, ByteBits(src[..i]));
            && (p.eos && |p.out| <= room ==> Outcome(t, ByteBits(src), room) == Some(p.out))
            && (|p.out| > room ==> Outcome(t, ByteBits(src), room) == None)
  {
    assert src == src[..i] + src[i..];
    ByteBitsConcat(src[..i], src[i..]);
    ParseAppend(t, ByteBits(src[..i]), ByteBits(src[i..]));
  }
}
