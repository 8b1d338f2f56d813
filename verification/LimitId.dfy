/**
 The bucket id of a keyed rate-limit rule: every key's label and normalised value,
 each with its length, built in a growing buffer.
 */
module LimitId {
  import opened Bits
  import opened GrowingBuffer
  import opened LengthPrefix
  import opened Wrappers

  const VALUE_MAX: nat := 4096
  const SIZE_MAX: nat := 0xffff_ffff_ffff_ffff

  /** What a request says for a key: nothing, or a text. */
  type Raw = Option<seq<Byte>>

  /** http_limit_value: a missing, duplicate, empty or overlong value is the empty one. */
  function Normal(key: Key, raw: Raw): (v: seq<Byte>) {
    if raw.None? || (!key.RemoteAddr? && |raw.value| > VALUE_MAX) then [] else raw.value
  }

  /** A value that says nothing: none, an empty one, or a header or cookie of more than 4096 bytes. */
  predicate Mute(key: Key, raw: Raw) {
    raw.None? || raw.value == [] || (!key.RemoteAddr? && |raw.value| > 4096)
  }

  /** Two requests share a bucket for a key exactly when they say the same or both say nothing. */
  lemma SameValue(key: Key, a: Raw, b: Raw)
    ensures Normal(key, a) == Normal(key, b) <==> a == b || (Mute(key, a) && Mute(key, b))
  {
  }

  function Normals(keys: seq<Key>, raws: seq<Raw>): (vs: seq<seq<Byte>>)
    requires |keys| == |raws|
    ensures |vs| == |keys| && forall i :: 0 <= i < |vs| ==> vs[i] == Normal(keys[i], raws[i])
  {
    seq(|keys|, i requires 0 <= i < |keys| => Normal(keys[i], raws[i]))
  }

  /** The found header or cookie is handed on; an address and the empty value are copied. */
  predicate Copied(key: Key, raw: Raw) {
    key.RemoteAddr? || Normal(key, raw) == []
  }

  lemma {:induction false} DecimalShort(n: nat, k: nat)
    requires n < Power10(k)
    ensures k >= 1 ==> |Decimal(n)| <= k
  {
    if n >= 10 {
      if k >= 1 { DecimalShort(n / 10, k - 1); }
    }
  }

  lemma PowerOf20()
    ensures Power10(20) > SIZE_MAX
  {
    assert Power10(2) == 100;
    assert Power10(4) == 10000;
    assert Power10(6) == 1000000;
    assert Power10(8) == 100000000;
    assert Power10(10) == 10000000000;
    assert Power10(12) == 1000000000000;
    assert Power10(14) == 100000000000000;
    assert Power10(16) == 10000000000000000;
    assert Power10(18) == 1000000000000000000;
    assert Power10(20) == 100000000000000000000;
  }

  ghost function Power10(k: nat): nat {
    if k == 0 then 1 else 10 * Power10(k - 1)
  }

  /** The doubled capacity that has room for `need` bytes, unless it leaves size_t. */
  method Doubled(capacity: nat, need: nat) returns (r: Option<nat>)
    ensures r.Some? ==> r.value >= need && r.value >= capacity
    ensures need <= SIZE_MAX / 2 ==> r.Some?
  {
    var bigger := if capacity > 0 then capacity else 64;
    while bigger < need
      invariant bigger >= capacity && bigger > 0
      decreases need - bigger
    {
      if bigger > SIZE_MAX / 2 { return None; }
      bigger := bigger * 2;
    }
    r := Some(bigger);
  }

  /** http_limit_id_add: one framed string at the end of the buffer, followed by a zero byte. */
  method AddFramed(buf: Buffer, s: seq<Byte>, memory: bool) returns (ok: bool)
    requires buf.Valid()
    modifies buf, buf.data
    ensures buf.Valid() && (buf.data == old(buf.data) || fresh(buf.data))
    ensures buf.Contents() == if ok then old(buf.Contents()) + Framed(s) else old(buf.Contents())
    ensures memory && old(buf.len) + |s| + 32 <= SIZE_MAX / 2 ==> ok
  {
    hide Decimal;
    var dec := Decimal(|s|) + [COLON];
    ghost var before := buf.Contents();
    if |s| <= SIZE_MAX { FramedLength(s); }
    if |dec| >= 32 { return false; }
    var need := buf.len + |dec| + |s| + 1;
    if need > buf.data.Length {
      var capacity := Doubled(buf.data.Length, need);
      if capacity.None? || !memory { return false; }
      buf.Grow(capacity.value);
    }
    buf.Append(dec);
    buf.Append(s);
    buf.data[buf.len] := 0;
    assert buf.Contents() == before + dec + s == before + (dec + s);
    ok := true;
  }

  lemma FramedLength(s: seq<Byte>)
    requires |s| <= SIZE_MAX
    ensures |Framed(s)| <= |s| + 21
  {
    PowerOf20();
    DecimalShort(|s|, 20);
  }

  /** A key takes at most this much of an id. */
  const KEY_ROOM: nat := 5000

  predicate Small(keys: seq<Key>, raws: seq<Raw>) {
    && |keys| == |raws| <= 8
    && (forall i :: 0 <= i < |keys| && keys[i].RemoteAddr? && raws[i].Some? ==> |raws[i].value| <= VALUE_MAX)
  }

  /**
   http_limit_build_id over what a request says for a rule's keys: the id is exactly the framing of their labels and
   normalised values, and with memory and the configured limits it is always built. Each key allocates up to three
   times: its value, and the buffer for its label and for its value.
   */
  method BuildId(keys: seq<Key>, raws: seq<Raw>, memory: nat -> bool) returns (id: Option<seq<Byte>>)
    requires |keys| == |raws|
    ensures id.Some? ==> Labelled(keys) && id.value == FramedPairs(keys, Normals(keys, raws))
    ensures (forall m :: memory(m)) && Labelled(keys) && Small(keys, raws) ==> id.Some?
  {
    var buf := new Buffer();
    ghost var values := Normals(keys, raws);
    for i := 0 to |keys|
      invariant fresh(buf) && fresh(buf.data) && buf.Valid()
      invariant Labelled(keys[..i]) && buf.Contents() == FramedPairs(keys[..i], values[..i])
      invariant Small(keys, raws) ==> buf.len <= i * KEY_ROOM
    {
      hide Framed, Label, FramedPairs, Normals;
      var name, value := Label(keys[i]), Normal(keys[i], raws[i]);
      if name.None? {
        assert !Labelled(keys);
        return None;
      }
      if Copied(keys[i], raws[i]) && !memory(3 * i) { return None; }
      LabelLength(keys[i]);
      FramedLength(name.value);
      ghost var before := buf.Contents();
      var ok := AddFramed(buf, name.value, memory(3 * i + 1));
      if !ok { return None; }
      ok := AddFramed(buf, value, memory(3 * i + 2));
      if !ok { return None; }
      if Small(keys, raws) { FramedLength(value); }
      AddedPair(keys, values, i, before);
      assert buf.Contents() == before + Framed(name.value) + Framed(values[i]);
    }
    assert keys[..|keys|] == keys && values[..|keys|] == values;
    id := Some(buf.data[..buf.len]);
  }

  lemma AddedPair(keys: seq<Key>, values: seq<seq<Byte>>, i: nat, before: seq<Byte>)
    requires |keys| == |values| && i < |keys| && Labelled(keys[..i]) && Label(keys[i]).Some?
    requires before == FramedPairs(keys[..i], values[..i])
    ensures Labelled(keys[..i + 1])
    ensures before + Framed(Label(keys[i]).value) + Framed(values[i]) == FramedPairs(keys[..i + 1], values[..i + 1])
  {
    hide Framed, Label, FramedPairs;
    var k1, v1 := keys[..i + 1], values[..i + 1];
    FramedPairsSnoc(k1, v1, i);
    assert k1[..i] == keys[..i] && v1[..i] == values[..i] && k1[..i + 1] == k1 && v1[..i + 1] == v1;
  }
}
