/**
 Decimal length prefixes, the key labels they frame, and that a framed list of
 labels and values can be read back: two lists never share an encoding.
 */
module LengthPrefix {
  import opened Bits
  import opened Wrappers

  const COLON: Byte := 58
  const LABEL_SIZE: nat := 160

  // ---------------------------------------------------------- decimal numbers

  /** The "%zu" and PRIu64 rendering of `n`. */
  function Decimal(n: nat): (s: seq<Byte>)
    ensures s != [] && forall i :: 0 <= i < |s| ==> 48 <= s[i] <= 57
  {
    if n < 10 then [48 + n] else Decimal(n / 10) + [48 + n % 10]
  }

  ghost function DecimalValue(s: seq<Byte>): int {
    if s == [] then 0 else 10 * DecimalValue(s[..|s| - 1]) + (s[|s| - 1] as int - 48)
  }

  lemma {:induction false} DecimalRoundTrip(n: nat)
    ensures DecimalValue(Decimal(n)) == n
  {
    if n < 10 {
      assert DecimalValue([48 + n][..0]) == 0;
    } else {
      DecimalRoundTrip(n / 10);
      var s := Decimal(n);
      assert s[..|s| - 1] == Decimal(n / 10);
    }
  }

  lemma DecimalInjective(m: nat, n: nat)
    requires Decimal(m) == Decimal(n)
    ensures m == n
  {
    DecimalRoundTrip(m);
    DecimalRoundTrip(n);
  }

  // ---------------------------------------------------------- one prefixed string

  /** The length of `s` in decimal, a colon, and `s`. */
  function Framed(s: seq<Byte>): (r: seq<Byte>)
    ensures r != []
  {
    Decimal(|s|) + [COLON] + s
  }

  /** A framed string can be cut off the front of any buffer in one way only. */
  lemma FramedCut(a: seq<Byte>, x: seq<Byte>, b: seq<Byte>, y: seq<Byte>)
    requires Framed(a) + x == Framed(b) + y
    ensures a == b && x == y
  {
    var da, db := Decimal(|a|), Decimal(|b|);
    assert da + ([COLON] + (a + x)) == Framed(a) + x;
    assert db + ([COLON] + (b + y)) == Framed(b) + y;
    DigitsCut(da, a + x, db, b + y);
    DecimalInjective(|a|, |b|);
    assert a == (a + x)[..|a|] && b == (b + y)[..|b|];
    assert x == (a + x)[|a|..] && y == (b + y)[|b|..];
  }

  predicate Digits(s: seq<Byte>) {
    forall i :: 0 <= i < |s| ==> s[i] != COLON
  }

  lemma DigitsCut(da: seq<Byte>, u: seq<Byte>, db: seq<Byte>, v: seq<Byte>)
    requires Digits(da) && Digits(db) && da + ([COLON] + u) == db + ([COLON] + v)
    ensures da == db && u == v
  {
    var l, r := da + ([COLON] + u), db + ([COLON] + v);
    assert l[|da|] == COLON && r[|db|] == COLON;
    assert forall i :: 0 <= i < |da| ==> l[i] == da[i];
    assert forall i :: 0 <= i < |db| ==> r[i] == db[i];
    assert |da| == |db|;
    assert da == l[..|da|] && db == r[..|db|];
    assert u == l[|da| + 1..] && v == r[|db| + 1..];
  }

  // ---------------------------------------------------------- labels and lists

  /** What a bind or a limit key refers to. */
  datatype Key = RemoteAddr | Header(name: seq<Byte>) | Cookie(name: seq<Byte>)

  const REMOTE_ADDR: seq<Byte> := [114, 101, 109, 111, 116, 101, 95, 97, 100, 100, 114]
  const HEADER: seq<Byte> := [104, 101, 97, 100, 101, 114, 58]
  const COOKIE: seq<Byte> := [99, 111, 111, 107, 105, 101, 58]

  /** authorize_bind_label and http_limit_key_label: the label, unless it does not fit its buffer. */
  function Label(key: Key): (r: Option<seq<Byte>>) {
    var s := match key
      case RemoteAddr => REMOTE_ADDR
      case Header(name) => HEADER + name
      case Cookie(name) => COOKIE + name;
    if |s| >= LABEL_SIZE then None else Some(s)
  }

  lemma LabelLength(key: Key)
    ensures Label(key).Some? ==> |Label(key).value| < LABEL_SIZE
  {
  }

  lemma LabelInjective(a: Key, b: Key)
    requires Label(a).Some? && Label(a) == Label(b)
    ensures a == b
  {
    var s := Label(a).value;
    assert s[0] == if a.RemoteAddr? then 114 else if a.Header? then 104 else 99;
    assert s[0] == if b.RemoteAddr? then 114 else if b.Header? then 104 else 99;
    if !a.RemoteAddr? {
      assert a.name == s[7..] && b.name == s[7..];
    }
  }

  predicate Labelled(keys: seq<Key>) {
    forall i :: 0 <= i < |keys| ==> Label(keys[i]).Some?
  }

  /** Labels and values, alternating, each with its length. */
  function FramedPairs(keys: seq<Key>, values: seq<seq<Byte>>): (r: seq<Byte>)
    requires |keys| == |values| && Labelled(keys)
  {
    if keys == [] then []
    else Framed(Label(keys[0]).value) + Framed(values[0]) + FramedPairs(keys[1..], values[1..])
  }

  lemma {:induction false} FramedPairsInjective(ka: seq<Key>, va: seq<seq<Byte>>, kb: seq<Key>, vb: seq<seq<Byte>>)
    requires |ka| == |va| && Labelled(ka) && |kb| == |vb| && Labelled(kb)
    requires FramedPairs(ka, va) == FramedPairs(kb, vb)
    ensures ka == kb && va == vb
  {
    hide Framed, Label;
    if ka != [] && kb != [] {
      FirstPair(Label(ka[0]).value, va[0], FramedPairs(ka[1..], va[1..]),
                Label(kb[0]).value, vb[0], FramedPairs(kb[1..], vb[1..]));
      LabelInjective(ka[0], kb[0]);
      FramedPairsInjective(ka[1..], va[1..], kb[1..], vb[1..]);
      assert ka == [ka[0]] + ka[1..] && kb == [kb[0]] + kb[1..];
      assert va == [va[0]] + va[1..] && vb == [vb[0]] + vb[1..];
    }
  }

  lemma FirstPair(la: seq<Byte>, va: seq<Byte>, ra: seq<Byte>, lb: seq<Byte>, vb: seq<Byte>, rb: seq<Byte>)
    requires Framed(la) + Framed(va) + ra == Framed(lb) + Framed(vb) + rb
    ensures la == lb && va == vb && ra == rb
  {
    hide Framed;
    assert Framed(la) + (Framed(va) + ra) == Framed(la) + Framed(va) + ra;
    assert Framed(lb) + (Framed(vb) + rb) == Framed(lb) + Framed(vb) + rb;
    FramedCut(la, Framed(va) + ra, lb, Framed(vb) + rb);
    FramedCut(va, ra, vb, rb);
  }

  /** Appending one pair: what a builder loop does. */
  lemma {:induction false} FramedPairsSnoc(keys: seq<Key>, values: seq<seq<Byte>>, n: nat)
    requires |keys| == |values| && Labelled(keys) && n < |keys|
    ensures FramedPairs(keys[..n + 1], values[..n + 1]) ==
            FramedPairs(keys[..n], values[..n]) + (Framed(Label(keys[n]).value) + Framed(values[n]))
    decreases n
  {
    hide Framed, Label;
    var k1, v1 := keys[..n + 1], values[..n + 1];
    if n == 0 {
      assert k1[1..] == [] && keys[..0] == [];
    } else {
      FramedPairsSnoc(keys[1..], values[1..], n - 1);
      assert k1[1..] == keys[1..][..n] && v1[1..] == values[1..][..n];
      assert keys[..n][1..] == keys[1..][..n - 1] && values[..n][1..] == values[1..][..n - 1];
    }
  }
}
