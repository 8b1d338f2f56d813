/** HPACK integers (RFC 7541 section 5.1), as the client writes and reads them. */
module HpackInt {
  import opened Bits
  import opened Wrappers

  const WORD: nat := 0x1_0000_0000

  /** The continuation bytes: seven bits each, least significant first, the last below 128. */
  function Tail(v: nat): (s: seq<Byte>)
    ensures |s| >= 1
  {
    if v < 128 then [v] else [v % 128 + 128] + Tail(v / 128)
  }

  /** An integer with a `prefix`-bit first byte whose upper bits are `hi`. */
  function IntBytes(v: nat, prefix: nat, hi: nat): (s: seq<Byte>)
    requires 1 <= prefix <= 8 && Low(hi, prefix) == 0 && hi + Pow2(prefix) <= 256
    ensures |s| >= 1
    ensures hi <= s[0] < hi + Pow2(prefix)
  {
    var max := Pow2(prefix) - 1;
    if v < max then [hi + v] else [hi + max] + Tail(v - max)
  }

  /** hpack_encode_int: appends to `out`. */
  method EncodeInt(out: seq<Byte>, value: nat, prefix: nat, hi: nat) returns (r: seq<Byte>)
    requires 1 <= prefix <= 8 && Low(hi, prefix) == 0 && hi + Pow2(prefix) <= 256
    requires value < WORD
    ensures r == out + IntBytes(value, prefix, hi)
  {
    var max := Pow2(prefix) - 1;
    if value < max {
      return out + [hi + value];
    }
    r := out + [hi + max];
    var v: nat := value - max;
    while v >= 128
      invariant r + Tail(v) == out + IntBytes(value, prefix, hi)
    {
      assert r + Tail(v) == (r + [v % 128 + 128]) + Tail(v / 128);
      r := r + [v % 128 + 128];
      v := v / 128;
    }
    r := r + [v];
  }

  /** A decoded integer and how many bytes it took. */
  datatype Int = Int(value: nat, used: nat)

  /** The continuation loop: 32-bit accumulator, at most five bytes. */
  function ReadTail(s: seq<Byte>, acc: nat, m: nat): (r: Option<Int>)
    ensures r.Some? ==> 1 <= r.value.used <= |s| && r.value.value < WORD
  {
    if s == [] then None
    else
      var next := (acc + ShiftLeft(s[0] % 128, m)) % WORD;
      if s[0] < 128 then Some(Int(next, 1))
      else if m + 7 > 28 then None
      else
        match ReadTail(s[1..], next, m + 7)
        case None => None
        case Some(i) => Some(Int(i.value, i.used + 1))
  }

  function ReadInt(s: seq<Byte>, prefix: nat): (r: Option<Int>)
    requires 1 <= prefix <= 8
    ensures r.Some? ==> 1 <= r.value.used <= |s|
  {
    if s == [] then None
    else
      var max := Pow2(prefix) - 1;
      var v := Low(s[0], prefix);
      if v < max then Some(Int(v, 1))
      else
        match ReadTail(s[1..], v, 0)
        case None => None
        case Some(i) => Some(Int(i.value, i.used + 1))
  }

  /** hpack_decode_int, reading `buf` at `p`. */
  method DecodeInt(buf: seq<Byte>, p: nat, prefix: nat) returns (r: Option<Int>)
    requires 1 <= prefix <= 8 && p <= |buf|
    ensures r == ReadInt(buf[p..], prefix)
  {
    if p >= |buf| {
      return None;
    }
    var max := Pow2(prefix) - 1;
    var value: nat := Low(buf[p], prefix);
    if value < max {
      return Some(Int(value, 1));
    }
    var q, m := p + 1, 0;
    ghost var whole := ReadTail(buf[p + 1..], value, 0);
    assert buf[p..][1..] == buf[p + 1..];
    while q < |buf|
      invariant p < q <= |buf| && m <= 28
      invariant match ReadTail(buf[q..], value, m)
                case None => whole == None
                case Some(i) => whole == Some(Int(i.value, i.used + (q - p - 1)))
      decreases |buf| - q
    {
      var b := buf[q];
      assert buf[q..][1..] == buf[q + 1..];
      value := (value + ShiftLeft(b % 128, m)) % WORD;
      q := q + 1;
      if b < 128 {
        return Some(Int(value, q - p));
      }
      m := m + 7;
      if m > 28 {
        return None;
      }
    }
    return None;
  }

  lemma {:induction false} ShiftLeftIsMul(v: nat, m: nat)
    ensures ShiftLeft(v, m) == v * Pow2(m)
  {
    if m > 0 {
      ShiftLeftIsMul(v, m - 1);
      assert v * (2 * Pow2(m - 1)) == 2 * (v * Pow2(m - 1));
    }
  }

  lemma {:induction false} SevenMore(v: nat, m: nat)
    ensures ShiftLeft(v % 128, m) + ShiftLeft(v / 128, m + 7) == ShiftLeft(v, m)
  {
    if m == 0 {
      assert Pow2(7) == 128;
      ShiftLeftIsMul(v / 128, 7);
    } else {
      SevenMore(v, m - 1);
    }
  }

  /** A value of eight bits or more does not fit above shift 21. */
  lemma RoomForMore(v: nat, m: nat)
    requires v >= 128 && m % 7 == 0 && m <= 28 && ShiftLeft(v, m) < WORD
    ensures m + 7 <= 28
  {
    if m == 28 {
      AtTop(v);
    }
  }

  lemma AtTop(v: nat)
    ensures ShiftLeft(v, 28) == v * 0x1000_0000
  {
    assert Pow2(7) == 128;
    Pow2Add(7, 7);
    Pow2Add(14, 14);
    ShiftLeftIsMul(v, 28);
  }

  lemma ReadTailMore(b: Byte, rest: seq<Byte>, acc: nat, m: nat, x: nat, used: nat)
    requires b >= 128 && m + 7 <= 28 && acc + ShiftLeft(b - 128, m) < WORD
    requires ReadTail(rest, acc + ShiftLeft(b - 128, m), m + 7) == Some(Int(x, used))
    ensures ReadTail([b] + rest, acc, m) == Some(Int(x, used + 1))
  {
    assert ([b] + rest)[1..] == rest;
  }

  /** The continuation bytes of `v`, read at shift `m`, add `v << m`. */
  lemma {:induction false} ReadTailOfTail(v: nat, acc: nat, m: nat, rest: seq<Byte>)
    requires m % 7 == 0 && m <= 28 && acc + ShiftLeft(v, m) < WORD
    ensures ReadTail(Tail(v) + rest, acc, m) == Some(Int(acc + ShiftLeft(v, m), |Tail(v)|))
    decreases v
  {
    if v >= 128 {
      SevenMore(v, m);
      RoomForMore(v, m);
      ReadTailOfTail(v / 128, acc + ShiftLeft(v % 128, m), m + 7, rest);
      ReadTailMore(v % 128 + 128, Tail(v / 128) + rest, acc, m, acc + ShiftLeft(v, m), |Tail(v / 128)|);
      TailStep(v, rest);
    }
  }

  lemma TailStep(v: nat, rest: seq<Byte>)
    requires v >= 128
    ensures Tail(v) + rest == [v % 128 + 128] + (Tail(v / 128) + rest)
  {
  }

  /** Integer round trip: every 32-bit value, every prefix, whatever bytes follow. */
  lemma IntRoundTrip(v: nat, prefix: nat, hi: nat, rest: seq<Byte>)
    requires 1 <= prefix <= 8 && Low(hi, prefix) == 0 && hi + Pow2(prefix) <= 256 && v < WORD
    ensures ReadInt(IntBytes(v, prefix, hi) + rest, prefix) == Some(Int(v, |IntBytes(v, prefix, hi)|))
  {
    hide ReadInt, ReadTail, Tail, Low;
    var max := Pow2(prefix) - 1;
    if v < max {
      LowOfFirst(hi, v, prefix);
      ReadShort([hi + v] + rest, prefix, v);
    } else {
      LowOfFirst(hi, max, prefix);
      ReadTailOfTail(v - max, max, 0, rest);
      ReadLong(hi + max, Tail(v - max), rest, prefix, v);
    }
  }

  lemma ReadShort(s: seq<Byte>, prefix: nat, v: nat)
    requires 1 <= prefix <= 8 && s != [] && Low(s[0], prefix) == v < Pow2(prefix) - 1
    ensures ReadInt(s, prefix) == Some(Int(v, 1))
  {
  }

  lemma ReadLong(first: Byte, tail: seq<Byte>, rest: seq<Byte>, prefix: nat, v: nat)
    requires 1 <= prefix <= 8 && Low(first, prefix) == Pow2(prefix) - 1
    requires ReadTail(tail + rest, Pow2(prefix) - 1, 0) == Some(Int(v, |tail|))
    ensures ReadInt([first] + tail + rest, prefix) == Some(Int(v, |[first] + tail|))
  {
    hide ReadTail, Low;
    assert ([first] + tail + rest)[1..] == tail + rest;
  }

  lemma {:induction false} LowOfFirst(hi: nat, low: nat, prefix: nat)
    requires Low(hi, prefix) == 0 && low < Pow2(prefix)
    ensures Low(hi + low, prefix) == low
  {
    if prefix > 0 {
      LowOfFirst(hi / 2, low / 2, prefix - 1);
      assert (hi + low) / 2 == hi / 2 + low / 2;
    }
  }
}
