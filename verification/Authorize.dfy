/**
 Bound authorization tokens: the message that is authenticated, the buffer it is built in,
 and the buckets a presented token is accepted for. The keyed hash is a parameter.
 */
module Authorize {
  import opened Bits
  import opened GrowingBuffer
  import opened LengthPrefix
  import opened Wrappers

  const VALUE_MAX: nat := 4096
  const MESSAGE_MAX: nat := 65536
  const SECRET_MAX: nat := 1024 * 1024
  const HEX_LENGTH: nat := 64
  const VERSION: seq<Byte> := [118, 49]

  /** HMAC-SHA256 in hexadecimal of a message under a secret, or a library failure. */
  type Mac = (seq<Byte>, seq<Byte>) -> Option<seq<Byte>>

  // ---------------------------------------------------------- the message

  predicate Bindable(key: Key, value: seq<Byte>) {
    && (key.RemoteAddr? || key.name != [])
    && Label(key).Some?
    && 0 < |value| <= VALUE_MAX
  }

  predicate AllBindable(keys: seq<Key>, values: seq<seq<Byte>>) {
    |keys| == |values| && forall i :: 0 <= i < |keys| ==> Bindable(keys[i], values[i])
  }

  lemma BindableLabelled(keys: seq<Key>, values: seq<seq<Byte>>)
    requires AllBindable(keys, values)
    ensures Labelled(keys)
  {
    forall i | 0 <= i < |keys| ensures Label(keys[i]).Some? { assert Bindable(keys[i], values[i]); }
  }

  function BoundMessage(bucket: nat, keys: seq<Key>, values: seq<seq<Byte>>): (m: seq<Byte>)
    requires AllBindable(keys, values)
  {
    BindableLabelled(keys, values);
    VERSION + Framed(Decimal(bucket)) + FramedPairs(keys, values)
  }

  /** Two bound messages are the same only for the same bucket, binds and values. */
  lemma BoundMessageInjective(ba: nat, ka: seq<Key>, va: seq<seq<Byte>>, bb: nat, kb: seq<Key>, vb: seq<seq<Byte>>)
    requires AllBindable(ka, va) && AllBindable(kb, vb)
    requires BoundMessage(ba, ka, va) == BoundMessage(bb, kb, vb)
    ensures ba == bb && ka == kb && va == vb
  {
    hide Framed, FramedPairs, Decimal;
    BindableLabelled(ka, va);
    BindableLabelled(kb, vb);
    var fa, fb := Framed(Decimal(ba)), Framed(Decimal(bb));
    var pa, pb := FramedPairs(ka, va), FramedPairs(kb, vb);
    assert fa + pa == (VERSION + fa + pa)[2..];
    assert fb + pb == (VERSION + fb + pb)[2..];
    FramedCut(Decimal(ba), pa, Decimal(bb), pb);
    DecimalInjective(ba, bb);
    FramedPairsInjective(ka, va, kb, vb);
  }

  // ---------------------------------------------------------- building it

  /**
   authorize_msg_add: append within 64 KiB, or fail and change nothing. `memory` says which sizes can be
   allocated; the sizes of one message only grow.
   */
  method Add(buf: Buffer, p: seq<Byte>, memory: nat -> bool) returns (ok: bool)
    requires buf.Valid() && buf.len <= MESSAGE_MAX
    modifies buf, buf.data
    ensures buf.Valid() && buf.len <= MESSAGE_MAX && (buf.data == old(buf.data) || fresh(buf.data))
    ensures buf.Contents() == if ok then old(buf.Contents()) + p else old(buf.Contents())
    ensures ok ==> old(buf.len) + |p| <= MESSAGE_MAX
    ensures (forall size :: memory(size)) && old(buf.len) + |p| <= MESSAGE_MAX ==> ok
  {
    if p == [] {
      assert buf.Contents() + p == buf.Contents();
      return true;
    }
    if buf.len + |p| > MESSAGE_MAX { return false; }
    if buf.len + |p| > buf.data.Length {
      var capacity := if buf.data.Length > 0 then buf.data.Length else 128;
      while capacity < buf.len + |p|
        invariant buf.data.Length <= capacity && capacity > 0
        decreases buf.len + |p| - capacity
      {
        if capacity > MESSAGE_MAX / 2 {
          capacity := MESSAGE_MAX;
          break;
        }
        capacity := capacity * 2;
      }
      if !memory(capacity) { return false; }
      buf.Grow(capacity);
    }
    buf.Append(p);
    ok := true;
  }

  /** authorize_msg_add_lp; a failure may leave the length prefix behind, and the caller gives up. */
  method AddFramed(buf: Buffer, s: seq<Byte>, memory: nat -> bool) returns (ok: bool)
    requires buf.Valid() && buf.len <= MESSAGE_MAX
    modifies buf, buf.data
    ensures buf.Valid() && buf.len <= MESSAGE_MAX && (buf.data == old(buf.data) || fresh(buf.data))
    ensures ok ==> |s| <= VALUE_MAX && buf.Contents() == old(buf.Contents()) + Framed(s)
    ensures ok ==> old(buf.len) + |Framed(s)| <= MESSAGE_MAX
    ensures (forall size :: memory(size)) && |s| <= VALUE_MAX && old(buf.len) + |Framed(s)| <= MESSAGE_MAX ==> ok
  {
    hide Decimal, Framed;
    if |s| > VALUE_MAX { return false; }
    var dec := Decimal(|s|) + [COLON];
    FramedIs(s, dec);
    ghost var before := buf.Contents();
    ok := Add(buf, dec, memory);
    if !ok { return false; }
    assert buf.Contents() == before + dec;
    ok := Add(buf, s, memory);
    Joined(before, dec, s);
  }

  lemma Joined(a: seq<Byte>, b: seq<Byte>, c: seq<Byte>)
    ensures a + b + c == a + (b + c) && |a + b| == |a| + |b|
  {
  }

  lemma FramedIs(s: seq<Byte>, dec: seq<Byte>)
    requires dec == Decimal(|s|) + [COLON]
    ensures Framed(s) == dec + s
  {
  }

  /** The label and the value of one bind; a failure may leave a part of them behind. */
  method AddBind(buf: Buffer, name: seq<Byte>, value: seq<Byte>, memory: nat -> bool) returns (ok: bool)
    requires buf.Valid() && buf.len <= MESSAGE_MAX
    modifies buf, buf.data
    ensures buf.Valid() && buf.len <= MESSAGE_MAX && (buf.data == old(buf.data) || fresh(buf.data))
    ensures ok ==> |name| <= VALUE_MAX && |value| <= VALUE_MAX
    ensures ok ==> buf.Contents() == old(buf.Contents()) + (Framed(name) + Framed(value))
    ensures (forall size :: memory(size)) && |name| <= VALUE_MAX && |value| <= VALUE_MAX ==>
              ok || old(buf.len) + |Framed(name) + Framed(value)| > MESSAGE_MAX
  {
    hide Framed;
    ghost var before := buf.Contents();
    Joined(before, Framed(name), Framed(value));
    ok := AddFramed(buf, name, memory);
    if ok { ok := AddFramed(buf, value, memory); }
  }

  /** The message fits and every bind is usable. */
  ghost predicate Issuable(bucket: nat, keys: seq<Key>, values: seq<seq<Byte>>) {
    && |Decimal(bucket)| < 32 && AllBindable(keys, values)
    && |BoundMessage(bucket, keys, values)| <= MESSAGE_MAX
  }

  /** The framing of a longer list is longer: a prefix that does not fit dooms the message. */
  lemma {:induction false} FramedPairsPrefix(keys: seq<Key>, values: seq<seq<Byte>>, n: nat)
    requires |keys| == |values| && Labelled(keys) && n <= |keys|
    ensures |FramedPairs(keys[..n], values[..n])| <= |FramedPairs(keys, values)|
    decreases |keys| - n
  {
    hide Framed, Label, FramedPairs;
    if n < |keys| {
      FramedPairsSnoc(keys, values, n);
      FramedPairsPrefix(keys, values, n + 1);
    } else {
      assert keys[..n] == keys && values[..n] == values;
    }
  }

  /** The message while the loop of authorize_compute_bound has added `n` binds. */
  ghost function Partial(bucket: nat, keys: seq<Key>, values: seq<seq<Byte>>, n: nat): seq<Byte>
    requires n <= |keys| == |values| && AllBindable(keys[..n], values[..n])
  {
    BoundMessage(bucket, keys[..n], values[..n])
  }

  /** How one more bind extends the message, and that it keeps within the whole one. */
  lemma PartialStep(bucket: nat, keys: seq<Key>, values: seq<seq<Byte>>, n: nat)
    requires n < |keys| == |values| && AllBindable(keys[..n], values[..n]) && Bindable(keys[n], values[n])
    ensures AllBindable(keys[..n + 1], values[..n + 1])
    ensures var added := Framed(Label(keys[n]).value) + Framed(values[n]);
            && Partial(bucket, keys, values, n + 1) == Partial(bucket, keys, values, n) + added
            && (Issuable(bucket, keys, values) ==> |Partial(bucket, keys, values, n)| + |added| <= MESSAGE_MAX)
  {
    hide Framed, Label, FramedPairs, Decimal;
    var k1, v1 := keys[..n + 1], values[..n + 1];
    BindableLabelled(keys[..n], values[..n]);
    forall i | 0 <= i < |k1| ensures Bindable(k1[i], v1[i]) {
      if i < n { assert Bindable(keys[..n][i], values[..n][i]); }
    }
    BindableLabelled(k1, v1);
    FramedPairsSnoc(k1, v1, n);
    assert k1[..n] == keys[..n] && v1[..n] == values[..n] && k1[..n + 1] == k1 && v1[..n + 1] == v1;
    if Issuable(bucket, keys, values) {
      BindableLabelled(keys, values);
      FramedPairsPrefix(keys, values, n + 1);
    }
  }

  /** The tag authorize_compute_bound writes, or none. */
  function Tag(mac: Mac, secret: seq<Byte>, bucket: nat, keys: seq<Key>,
               values: seq<seq<Byte>>): (t: Option<seq<Byte>>)
  {
    if secret == [] || |secret| > SECRET_MAX || |Decimal(bucket)| >= 32 then None
    else if keys == [] then mac(secret, secret + [COLON] + Decimal(bucket))
    else if AllBindable(keys, values) && |BoundMessage(bucket, keys, values)| <= MESSAGE_MAX then
      mac(secret, BoundMessage(bucket, keys, values))
    else None
  }

  /** The loop that builds the bound message. */
  method BuildMessage(bucket: nat, keys: seq<Key>, values: seq<seq<Byte>>, memory: nat -> bool)
    returns (m: Option<seq<Byte>>)
    requires |keys| == |values|
    ensures m.Some? ==> Issuable(bucket, keys, values) && m.value == BoundMessage(bucket, keys, values)
    ensures (forall size :: memory(size)) && Issuable(bucket, keys, values) ==> m.Some?
  {
    hide Framed, Label, FramedPairs, Decimal;
    var dec := Decimal(bucket);
    if |dec| >= 32 { return None; }
    var buf := new Buffer();
    var ok := Add(buf, VERSION, memory);
    if !ok { return None; }
    StartsMessage(bucket, keys, values);
    ok := AddFramed(buf, dec, memory);
    if !ok { return None; }
    for i := 0 to |keys|
      invariant fresh(buf) && fresh(buf.data) && buf.Valid() && buf.len <= MESSAGE_MAX
      invariant AllBindable(keys[..i], values[..i])
      invariant buf.Contents() == Partial(bucket, keys, values, i)
    {
      hide Partial, AllBindable;
      var name := Label(keys[i]);
      if (!keys[i].RemoteAddr? && keys[i].name == []) || values[i] == [] || name.None? {
        NotBindable(keys, values, i);
        return None;
      }
      LabelLength(keys[i]);
      ok := AddBind(buf, name.value, values[i], memory);
      if ok || |values[i]| <= VALUE_MAX {
        PartialStep(bucket, keys, values, i);
      } else {
        NotBindable(keys, values, i);
      }
      if !ok { return None; }
    }
    assert keys[..|keys|] == keys && values[..|keys|] == values;
    m := Some(buf.data[..buf.len]);
  }

  lemma StartsMessage(bucket: nat, keys: seq<Key>, values: seq<seq<Byte>>)
    requires |keys| == |values|
    ensures AllBindable(keys[..0], values[..0])
    ensures Partial(bucket, keys, values, 0) == VERSION + Framed(Decimal(bucket))
  {
  }

  lemma NotBindable(keys: seq<Key>, values: seq<seq<Byte>>, i: nat)
    requires i < |keys| == |values| && !Bindable(keys[i], values[i])
    ensures !AllBindable(keys, values)
  {
  }

  /** authorize_compute_bound, with authorize_compute for no binds. */
  method ComputeBound(mac: Mac, secret: seq<Byte>, bucket: nat, keys: seq<Key>, values: seq<seq<Byte>>,
                      memory: nat -> bool)
    returns (t: Option<seq<Byte>>)
    requires |keys| == |values|
    ensures t == Tag(mac, secret, bucket, keys, values) || t.None?
    ensures (forall size :: memory(size)) ==> t == Tag(mac, secret, bucket, keys, values)
  {
    hide Framed, Label, FramedPairs, Decimal, AllBindable, BoundMessage;
    if secret == [] || |secret| > SECRET_MAX { return None; }
    var dec := Decimal(bucket);
    if |dec| >= 32 { return None; }
    if keys == [] {
      if !memory(|secret| + 1 + |dec|) { return None; }
      return mac(secret, secret + [COLON] + dec);
    }
    var m := BuildMessage(bucket, keys, values, memory);
    if m.None? { return None; }
    t := mac(secret, m.value);
  }

  // ---------------------------------------------------------- accepting a token

  datatype Verdict = Missing | Wrong | Match

  /** The buckets a token is accepted for: the current one and its neighbours. */
  predicate InWindow(bucket: nat, current: nat) {
    current <= bucket + 1 && bucket <= current + 1
  }

  /** All three tags can be computed, and the presented one is the tag of a bucket in the window. */
  ghost predicate Accepts(mac: Mac, secret: seq<Byte>, period: nat, presented: seq<Byte>, now: int,
                          keys: seq<Key>, values: seq<seq<Byte>>)
    requires period > 0
  {
    && |presented| == HEX_LENGTH && now >= 0
    && (forall b: nat :: InWindow(b, now / period) ==> Tag(mac, secret, b, keys, values).Some?)
    && exists b: nat :: InWindow(b, now / period) && Tag(mac, secret, b, keys, values) == Some(presented)
  }

  /** authorize_validate_bound. */
  method ValidateBound(mac: Mac, secret: seq<Byte>, period: nat, presented: seq<Byte>, now: int,
                       keys: seq<Key>, values: seq<seq<Byte>>, memory: nat -> nat -> bool)
    returns (v: Verdict)
    requires |keys| == |values|
    ensures v.Missing? <==> secret == [] || period == 0 || presented == []
    ensures v.Match? ==> period > 0 && Accepts(mac, secret, period, presented, now, keys, values)
    ensures (forall call, size :: memory(call)(size)) && !v.Missing? ==>
              (Accepts(mac, secret, period, presented, now, keys, values) ==> v.Match?)
  {
    hide Tag;
    if secret == [] || period == 0 || presented == [] { return Missing; }
    if |presented| != HEX_LENGTH || now < 0 { return Wrong; }
    var bucket: nat := now / period;
    var ok := false;
    for delta := 0 to 3
      invariant forall b: nat :: InWindow(b, bucket) && b + 1 < bucket + delta ==>
                  Tag(mac, secret, b, keys, values).Some?
      invariant ok <==> exists b: nat ::
                  InWindow(b, bucket) && b + 1 < bucket + delta && Tag(mac, secret, b, keys, values) == Some(presented)
      invariant bucket == 0 && delta > 0 ==> Tag(mac, secret, 0, keys, values).Some?
    {
      var valid := delta > 0 || bucket > 0;
      var b: nat := if bucket + delta > 0 then bucket + delta - 1 else 0;
      var wanted := ComputeBound(mac, secret, b, keys, values, memory(delta));
      if wanted.None? {
        assert InWindow(b, bucket);
        return Wrong;
      }
      if valid && presented == wanted.value { ok := true; }
    }
    return if ok then Match else Wrong;
  }

  // ---------------------------------------------------------- what a token is good for

  /** A bucket with the binds and values a token is issued for or presented with. */
  datatype Claim = Claim(bucket: nat, keys: seq<Key>, values: seq<seq<Byte>>)

  ghost predicate ClaimOk(c: Claim) {
    |c.keys| == |c.values| && AllBindable(c.keys, c.values)
  }

  /** What is authenticated: with binds the bound message, without them secret, colon and bucket. */
  ghost function MessageOf(secret: seq<Byte>, c: Claim): (m: seq<Byte>)
    requires ClaimOk(c)
  {
    if c.keys == [] then secret + [COLON] + Decimal(c.bucket) else BoundMessage(c.bucket, c.keys, c.values)
  }

  function TagOf(mac: Mac, secret: seq<Byte>, c: Claim): (t: Option<seq<Byte>>) {
    Tag(mac, secret, c.bucket, c.keys, c.values)
  }

  lemma TagAuthenticates(mac: Mac, secret: seq<Byte>, c: Claim)
    requires TagOf(mac, secret, c).Some? && |c.keys| == |c.values|
    ensures ClaimOk(c) && TagOf(mac, secret, c) == mac(secret, MessageOf(secret, c))
  {
    hide BoundMessage, Decimal;
  }

  /** When there is a tag: the limits on the secret, the bucket and the message, and a hash that can be computed. */
  lemma TagExactly(mac: Mac, secret: seq<Byte>, c: Claim)
    requires |c.keys| == |c.values|
    ensures TagOf(mac, secret, c).Some? <==>
            && 1 <= |secret| <= 1048576 && |Decimal(c.bucket)| <= 31
            && ClaimOk(c) && (c.keys != [] ==> |MessageOf(secret, c)| <= 65536)
            && mac(secret, MessageOf(secret, c)).Some?
  {
    hide BoundMessage, Decimal;
  }

  /** Which binds and values can be used: a value of 1 to 4096 bytes under the address or a name of 1 to 152 bytes. */
  lemma ClaimExactly(c: Claim)
    requires |c.keys| == |c.values|
    ensures ClaimOk(c) <==> forall i :: 0 <= i < |c.keys| ==>
              && 1 <= |c.values[i]| <= 4096
              && (c.keys[i].RemoteAddr? || 1 <= |c.keys[i].name| <= 152)
  {
  }

  lemma UnboundInjective(secret: seq<Byte>, a: nat, b: nat)
    requires secret + [COLON] + Decimal(a) == secret + [COLON] + Decimal(b)
    ensures a == b
  {
    var n := |secret| + 1;
    assert Decimal(a) == (secret + [COLON] + Decimal(a))[n..] && Decimal(b) == (secret + [COLON] + Decimal(b))[n..];
    DecimalInjective(a, b);
  }

  /** Claims that are both bound or both unbound have one message only when they are the same. */
  lemma MessageInjective(secret: seq<Byte>, a: Claim, b: Claim)
    requires ClaimOk(a) && ClaimOk(b) && (a.keys == [] <==> b.keys == [])
    requires MessageOf(secret, a) == MessageOf(secret, b)
    ensures a == b
  {
    hide BoundMessage, Decimal;
    if a.keys == [] {
      UnboundInjective(secret, a.bucket, b.bucket);
    } else {
      BoundMessageInjective(a.bucket, a.keys, a.values, b.bucket, b.keys, b.values);
    }
  }

  /** An unbound message is no bound one, unless the secret starts like the bound message. */
  lemma MixedDiffer(secret: seq<Byte>, a: Claim, b: Claim)
    requires ClaimOk(a) && ClaimOk(b) && a.keys == [] && b.keys != [] && secret != [] && !(VERSION <= secret)
    ensures MessageOf(secret, a) != MessageOf(secret, b)
  {
    hide Framed, FramedPairs, Decimal;
    BindableLabelled(b.keys, b.values);
    var m, n := MessageOf(secret, a), MessageOf(secret, b);
    assert n[0] == 118 && n[1] == 49;
    assert m[0] == secret[0] && m[1] == if |secret| == 1 then COLON else secret[1];
  }

  /** The keyed hash gives the two claims one tag only if they have one message. */
  ghost predicate Separates(mac: Mac, secret: seq<Byte>, a: Claim, b: Claim) {
    ClaimOk(a) && ClaimOk(b) && MessageOf(secret, a) != MessageOf(secret, b) ==>
      mac(secret, MessageOf(secret, a)) != mac(secret, MessageOf(secret, b))
  }

  /** The claim a presented token is checked against in a bucket. */
  function Presented(c: Claim, bucket: nat): (r: Claim) {
    c.(bucket := bucket)
  }

  /**
   Where the keyed hash separates the messages, a token issued for a claim is accepted exactly when a bucket of the
   window gives its message with the presented binds and values.
   */
  lemma TokenMessage(mac: Mac, secret: seq<Byte>, period: nat, now: nat, issued: Claim, shown: Claim)
    requires period > 0 && |issued.keys| == |issued.values| && |shown.keys| == |shown.values|
    requires TagOf(mac, secret, issued).Some? && |TagOf(mac, secret, issued).value| == 64
    requires forall b: nat :: InWindow(b, now / period) ==> TagOf(mac, secret, Presented(shown, b)).Some?
    requires forall b: nat :: InWindow(b, now / period) ==> Separates(mac, secret, Presented(shown, b), issued)
    ensures ClaimOk(issued) && ClaimOk(shown)
    ensures Accepts(mac, secret, period, TagOf(mac, secret, issued).value, now, shown.keys, shown.values) <==>
            exists b: nat :: InWindow(b, now / period) &&
              MessageOf(secret, Presented(shown, b)) == MessageOf(secret, issued)
  {
    hide MessageOf, Tag;
    var token := TagOf(mac, secret, issued).value;
    TagAuthenticates(mac, secret, issued);
    forall b: nat | InWindow(b, now / period)
      ensures ClaimOk(Presented(shown, b))
      ensures Tag(mac, secret, b, shown.keys, shown.values) == Some(token) <==>
              MessageOf(secret, Presented(shown, b)) == MessageOf(secret, issued)
    {
      assert TagOf(mac, secret, Presented(shown, b)).Some?;
      TagAuthenticates(mac, secret, Presented(shown, b));
      assert Separates(mac, secret, Presented(shown, b), issued);
    }
    assert InWindow(now / period, now / period) && TagOf(mac, secret, Presented(shown, now / period)).Some?;
    forall b: nat | InWindow(b, now / period) ensures Tag(mac, secret, b, shown.keys, shown.values).Some? {
      assert TagOf(mac, secret, Presented(shown, b)).Some?;
    }
  }

  /**
   A token issued for one bucket and one list of binds and values, possibly empty, is accepted exactly in the window
   of that bucket and for that list. Between an empty and a non-empty list nothing is accepted, unless the secret
   starts like the bound message.
   */
  lemma TokenScope(mac: Mac, secret: seq<Byte>, period: nat, now: nat, issued: Claim, shown: Claim)
    requires period > 0 && |issued.keys| == |issued.values| && |shown.keys| == |shown.values|
    requires TagOf(mac, secret, issued).Some? && |TagOf(mac, secret, issued).value| == 64
    requires forall b: nat :: InWindow(b, now / period) ==> TagOf(mac, secret, Presented(shown, b)).Some?
    requires forall b: nat :: InWindow(b, now / period) ==> Separates(mac, secret, Presented(shown, b), issued)
    ensures var ok := Accepts(mac, secret, period, TagOf(mac, secret, issued).value, now, shown.keys, shown.values);
            && ((shown.keys == [] <==> issued.keys == []) ==>
                  (ok <==> && -1 <= issued.bucket - now / period <= 1
                           && shown.keys == issued.keys && shown.values == issued.values))
            && (!(shown.keys == [] <==> issued.keys == []) && !(VERSION <= secret) ==> !ok)
  {
    hide MessageOf, Tag, Separates;
    TokenMessage(mac, secret, period, now, issued, shown);
    NoEmptySecret(mac, secret, issued);
    if shown.keys == [] <==> issued.keys == [] {
      forall b: nat | MessageOf(secret, Presented(shown, b)) == MessageOf(secret, issued)
        ensures Presented(shown, b) == issued
      {
        MessageInjective(secret, Presented(shown, b), issued);
      }
      if shown.keys == issued.keys && shown.values == issued.values {
        assert Presented(shown, issued.bucket) == issued;
      }
    } else if !(VERSION <= secret) {
      forall b: nat ensures MessageOf(secret, Presented(shown, b)) != MessageOf(secret, issued) {
        if shown.keys == [] {
          MixedDiffer(secret, Presented(shown, b), issued);
        } else {
          MixedDiffer(secret, issued, Presented(shown, b));
        }
      }
    }
  }

  lemma NoEmptySecret(mac: Mac, secret: seq<Byte>, c: Claim)
    requires TagOf(mac, secret, c).Some?
    ensures secret != []
  {
    hide BoundMessage, Decimal, AllBindable;
  }
}
