/** Bytes, powers of two and most-significant-bit-first bit strings. */
module Bits {

  type Byte = b: nat | b < 256

  function Pow2(n: nat): (p: nat)
    ensures p >= 1
  {
    if n == 0 then 1 else 2 * Pow2(n - 1)
  }

  lemma {:induction false} Pow2Add(a: nat, b: nat)
    ensures Pow2(a + b) == Pow2(a) * Pow2(b)
  {
    if b > 0 {
      Pow2Add(a, b - 1);
      assert Pow2(a + b) == 2 * Pow2(a + (b - 1));
      assert Pow2(a) * (2 * Pow2(b - 1)) == 2 * (Pow2(a) * Pow2(b - 1));
    }
  }

  /** The low `n` bits of `v`, most significant first. */
  function BitsOf(v: nat, n: nat): (s: seq<bool>)
    ensures |s| == n
  {
    if n == 0 then [] else BitsOf(v / 2, n - 1) + [v % 2 == 1]
  }

  /** `v >> k`. */
  function ShiftRight(v: nat, k: nat): (r: nat)
    decreases k
  {
    if k == 0 then v else ShiftRight(v / 2, k - 1)
  }

  /** `v << k`, not truncated. */
  function ShiftLeft(v: nat, k: nat): (r: nat)
  {
    if k == 0 then v else 2 * ShiftLeft(v, k - 1)
  }

  /** `v & ((1 << n) - 1)`. */
  function Low(v: nat, n: nat): (r: nat)
    ensures r < Pow2(n)
  {
    if n == 0 then 0 else 2 * Low(v / 2, n - 1) + v % 2
  }

  /** Shifting right by `k` drops the last `k` bits; they are the bits of `v` itself. */
  lemma {:induction false} BitsOfSplit(v: nat, n: nat, k: nat)
    ensures BitsOf(v, n + k) == BitsOf(ShiftRight(v, k), n) + BitsOf(v, k)
    decreases k
  {
    if k > 0 {
      BitsOfSplit(v / 2, n, k - 1);
      var top, low := BitsOf(ShiftRight(v, k), n), BitsOf(v / 2, k - 1);
      assert BitsOf(v, n + k) == (top + low) + [v % 2 == 1] == top + (low + [v % 2 == 1]);
    }
  }

  /** Masking to `m` bits keeps the low `n <= m` of them. */
  lemma {:induction false} BitsOfLow(v: nat, n: nat, m: nat)
    requires n <= m
    ensures BitsOf(Low(v, m), n) == BitsOf(v, n)
  {
    if n > 0 {
      assert Low(v, m) / 2 == Low(v / 2, m - 1);
      BitsOfLow(v / 2, n - 1, m - 1);
    }
  }

  lemma Halved(v: nat, p: nat, w: nat)
    ensures (v * (2 * p) + w) / 2 == v * p + w / 2 && (v * (2 * p) + w) % 2 == w % 2
  {
    assert v * (2 * p) == 2 * (v * p);
  }

  /** `(v << k) | w`, taken apart again. */
  lemma {:induction false} ShiftAndLow(v: nat, w: nat, k: nat)
    requires w < Pow2(k)
    ensures ShiftRight(v * Pow2(k) + w, k) == v && Low(v * Pow2(k) + w, k) == w
  {
    if k > 0 {
      Halved(v, Pow2(k - 1), w);
      ShiftAndLow(v, w / 2, k - 1);
    }
  }

  /** Shifting `w` in at the bottom appends its bits. */
  lemma BitsOfConcat(v: nat, w: nat, n: nat, k: nat)
    requires w < Pow2(k)
    ensures BitsOf(v * Pow2(k) + w, n + k) == BitsOf(v, n) + BitsOf(w, k)
  {
    var x := v * Pow2(k) + w;
    ShiftAndLow(v, w, k);
    BitsOfSplit(x, n, k);
    BitsOfLow(x, k, k);
  }

  lemma {:induction false} ShiftRightAtLeast(v: nat, q: nat, k: nat)
    ensures v >= q * Pow2(k) <==> ShiftRight(v, k) >= q
    decreases k
  {
    if k > 0 {
      var p := Pow2(k - 1);
      assert q * Pow2(k) == 2 * (q * p);
      assert v >= 2 * (q * p) <==> v / 2 >= q * p;
      ShiftRightAtLeast(v / 2, q, k - 1);
    }
  }

  lemma {:induction false} BitsOfInjective(v: nat, w: nat, n: nat)
    requires v < Pow2(n) && w < Pow2(n) && BitsOf(v, n) == BitsOf(w, n)
    ensures v == w
  {
    if n > 0 {
      assert BitsOf(v, n)[..n - 1] == BitsOf(v / 2, n - 1);
      assert BitsOf(w, n)[..n - 1] == BitsOf(w / 2, n - 1);
      assert BitsOf(v, n)[n - 1] == BitsOf(w, n)[n - 1];
      BitsOfInjective(v / 2, w / 2, n - 1);
    }
  }

  /** The number a bit string spells. */
  function ValueOf(x: seq<bool>): (v: nat)
    ensures v < Pow2(|x|)
  {
    if x == [] then 0 else 2 * ValueOf(x[..|x| - 1]) + if x[|x| - 1] then 1 else 0
  }

  lemma {:induction false} BitsOfValue(x: seq<bool>)
    ensures BitsOf(ValueOf(x), |x|) == x
  {
    if x != [] {
      BitsOfValue(x[..|x| - 1]);
      assert x == x[..|x| - 1] + [x[|x| - 1]];
    }
  }

  function Ones(n: nat): (s: seq<bool>)
    ensures |s| == n && forall i :: 0 <= i < n ==> s[i]
  {
    seq(n, _ => true)
  }

  lemma {:induction false} OnesValue(n: nat)
    ensures BitsOf(Pow2(n) - 1, n) == Ones(n)
  {
    if n > 0 {
      OnesValue(n - 1);
      assert (Pow2(n) - 1) / 2 == Pow2(n - 1) - 1 && (Pow2(n) - 1) % 2 == 1;
    }
  }

  /** The bits of a byte string, each byte most significant bit first. */
  function ByteBits(s: seq<Byte>): (x: seq<bool>)
    ensures |x| == 8 * |s|
  {
    if s == [] then [] else BitsOf(s[0], 8) + ByteBits(s[1..])
  }

  lemma {:induction false} ByteBitsConcat(s: seq<Byte>, t: seq<Byte>)
    ensures ByteBits(s + t) == ByteBits(s) + ByteBits(t)
  {
    if s == [] {
      assert s + t == t;
    } else {
      ByteBitsConcat(s[1..], t);
      assert (s + t)[1..] == s[1..] + t;
    }
  }

  /** The byte string with the given bits. */
  function BytesOfBits(x: seq<bool>): (s: seq<Byte>)
    requires |x| % 8 == 0
    ensures |s| == |x| / 8
  {
    if x == [] then [] else
      assert Pow2(8) == 256;
      [ValueOf(x[..8])] + BytesOfBits(x[8..])
  }

  lemma {:induction false} ByteBitsOfBytes(x: seq<bool>)
    requires |x| % 8 == 0
    ensures ByteBits(BytesOfBits(x)) == x
  {
    if x != [] {
      BitsOfValue(x[..8]);
      ByteBitsOfBytes(x[8..]);
      assert BytesOfBits(x)[1..] == BytesOfBits(x[8..]);
      assert x == x[..8] + x[8..];
    }
  }

  lemma Regroup(a: seq<Byte>, b: seq<Byte>, c: seq<Byte>)
    ensures (a + b) + c == a + (b + c)
  {
  }
}
