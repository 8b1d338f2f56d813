/**
 Percent-encoding into a buffer of fixed capacity, and decoding: what is decoded is always
 a prefix of what was encoded, and all of it when the buffer has the recommended size.
 */
module UrlCode {
  import opened Bits
  import opened Wrappers

  const PERCENT: Byte := 37
  const PLUS: Byte := 43
  const SPACE: Byte := 32
  const MINUS: Byte := 45

  predicate Unreserved(c: Byte) {
    || 65 <= c <= 90 || 97 <= c <= 122 || 48 <= c <= 57
    || c == 45 || c == 95 || c == 46 || c == 126
  }

  /** A lower-case hexadecimal digit. */
  function HexDigit(v: nat): (c: Byte)
    requires v < 16
    ensures HexValue(c) == Some(v)
  {
    if v < 10 then 48 + v else 87 + v
  }

  function HexValue(c: Byte): (v: Option<nat>)
    ensures v.Some? ==> v.value < 16
  {
    if 48 <= c <= 57 then Some(c - 48)
    else if 97 <= c <= 102 then Some(c - 87)
    else if 65 <= c <= 70 then Some(c - 55)
    else None
  }

  function Piece(c: Byte): (s: seq<Byte>)
    ensures |s| == 1 || |s| == 3
  {
    if Unreserved(c) then [c] else [PERCENT, HexDigit(c / 16), HexDigit(c % 16)]
  }

  /** How many bytes of `src` are encoded into `room` bytes, one of them for the final zero. */
  function Fitting(src: seq<Byte>, room: nat): (n: nat)
    ensures n <= |src|
  {
    if src == [] || |Piece(src[0])| + 1 > room then 0 else 1 + Fitting(src[1..], room - |Piece(src[0])|)
  }

  function Encoded(src: seq<Byte>): (s: seq<Byte>) {
    if src == [] then [] else Piece(src[0]) + Encoded(src[1..])
  }

  // ---------------------------------------------------------- escapes

  predicate IsSpace(c: Byte) {
    c == 32 || 9 <= c <= 13
  }

  /** The at most two characters after a percent sign, up to the end of the string. */
  function Digits(s: seq<Byte>): (t: seq<Byte>)
    ensures |t| <= 2 && t <= s
  {
    if s == [] || s[0] == 0 then []
    else if |s| == 1 || s[1] == 0 then s[..1]
    else s[..2]
  }

  /**
   What sscanf with "%x" stores, as a byte: white space and a sign are skipped, and one digit is enough.
   `bare` is what the C library makes of a hexadecimal prefix without digits.
   */
  function Scan(t: seq<Byte>, bare: Option<Byte>): (v: Option<Byte>)
    decreases |t|
  {
    if t == [] then None
    else if IsSpace(t[0]) then Scan(t[1..], bare)
    else if t[0] == PLUS || t[0] == MINUS then
      if |t| < 2 || HexValue(t[1]).None? then None
      else
        var d := HexValue(t[1]).value;
        Some(if t[0] == PLUS || d == 0 then d else 256 - d)
    else if HexValue(t[0]).None? then None
    else if |t| < 2 then Some(HexValue(t[0]).value)
    else if t[0] == 48 && (t[1] == 120 || t[1] == 88) then bare
    else if HexValue(t[1]).None? then Some(HexValue(t[0]).value)
    else Some(16 * HexValue(t[0]).value + HexValue(t[1]).value)
  }

  /** The rest of the text behind an escape. */
  function Skip(s: seq<Byte>, n: nat): (r: seq<Byte>)
    ensures |r| == if n < |s| then |s| - n else 0
  {
    if n <= |s| then s[n..] else []
  }

  /**
   Decoding; `last` is the value of the last escape that could be read, which one that cannot repeats.
   `None` when there is none yet: the variable is then used before it is set.
   */
  function Decoded(s: seq<Byte>, last: Option<Byte>, bare: Option<Byte>): (r: Option<seq<Byte>>)
    decreases |s|
  {
    if s == [] then Some([])
    else if s[0] != PERCENT then
      Prefixed([if s[0] == PLUS then SPACE else s[0]], Decoded(s[1..], last, bare))
    else
      var v := Scan(Digits(s[1..]), bare);
      var now := if v.Some? then v else last;
      if now.None? then None else Prefixed([now.value], Decoded(Skip(s, 3), now, bare))
  }

  function Prefixed(head: seq<Byte>, r: Option<seq<Byte>>): (s: Option<seq<Byte>>) {
    if r.None? then None else Some(head + r.value)
  }

  /** The characters after the first percent sign of a text. */
  function FirstEscape(s: seq<Byte>): (t: Option<seq<Byte>>) {
    if s == [] then None else if s[0] == PERCENT then Some(Digits(s[1..])) else FirstEscape(s[1..])
  }

  lemma {:induction false} OnceSetStaysSet(s: seq<Byte>, last: Byte, bare: Option<Byte>)
    ensures Decoded(s, Some(last), bare).Some?
    decreases |s|
  {
    hide Scan, Digits;
    if s != [] {
      if s[0] != PERCENT {
        OnceSetStaysSet(s[1..], last, bare);
      } else {
        var v := Scan(Digits(s[1..]), bare);
        OnceSetStaysSet(Skip(s, 3), if v.Some? then v.value else last, bare);
      }
    }
  }

  /** Decoding depends on the unset variable exactly when the first escape of the text cannot be read. */
  lemma {:induction false} UnsetExactly(s: seq<Byte>, bare: Option<Byte>)
    ensures Decoded(s, None, bare).None? <==> FirstEscape(s).Some? && Scan(FirstEscape(s).value, bare).None?
    decreases |s|
  {
    hide Scan, Digits;
    if s != [] {
      if s[0] != PERCENT {
        UnsetExactly(s[1..], bare);
      } else {
        var v := Scan(Digits(s[1..]), bare);
        if v.Some? { OnceSetStaysSet(Skip(s, 3), v.value, bare); }
      }
    }
  }

  // ---------------------------------------------------------- what the texts look like

  /** The characters that stand for themselves: letters, digits and four marks. */
  predicate Plain(c: char) {
    'A' <= c <= 'Z' || 'a' <= c <= 'z' || '0' <= c <= '9' || c in "-_.~"
  }

  /** A text of plain characters and of escapes with two small hexadecimal digits. */
  predicate Escaped(s: seq<Byte>) {
    || s == []
    || (Plain(s[0] as char) && Escaped(s[1..]))
    || (|s| >= 3 && s[0] as char == '%' && s[1] as char in "0123456789abcdef" && s[2] as char in "0123456789abcdef"
        && Escaped(s[3..]))
  }

  lemma DigitText(v: nat)
    requires v < 16
    ensures HexDigit(v) as char in "0123456789abcdef" && HexDigit(v) as char == "0123456789abcdef"[v]
  {
    assert "0123456789abcdef"[v] as int == HexDigit(v);
  }

  /** A byte stands for itself exactly when it is plain, and is otherwise a percent sign and its two digits. */
  lemma PieceExact(c: Byte)
    ensures Encoded([c]) ==
            if Plain(c as char) then [c]
            else ['%' as int, "0123456789abcdef"[c / 16] as int, "0123456789abcdef"[c % 16] as int]
  {
    DigitText(c / 16);
    DigitText(c % 16);
    assert [c][1..] == [];
  }

  /** What is written is plain characters and escapes only, whatever is encoded. */
  lemma {:induction false} OnlyEscapes(src: seq<Byte>)
    ensures Escaped(Encoded(src))
  {
    hide HexDigit;
    if src != [] {
      OnlyEscapes(src[1..]);
      var c, rest := src[0], Encoded(src[1..]);
      if Unreserved(c) {
        assert (Piece(c) + rest)[1..] == rest;
      } else {
        DigitText(c / 16);
        DigitText(c % 16);
        assert (Piece(c) + rest)[3..] == rest;
      }
    }
  }

  /** A text without a percent sign is kept, with a space for every plus. */
  lemma {:induction false} PlusIsSpace(s: seq<Byte>, last: Option<Byte>, bare: Option<Byte>)
    requires forall i :: 0 <= i < |s| ==> s[i] as char != '%'
    ensures var r := Decoded(s, last, bare);
            r.Some? && |r.value| == |s| &&
            forall i :: 0 <= i < |s| ==> r.value[i] as char == if s[i] as char == '+' then ' ' else s[i] as char
  {
    if s != [] {
      PlusIsSpace(s[1..], last, bare);
      var r := Decoded(s, last, bare).value;
      forall i | 0 <= i < |s| ensures r[i] as char == if s[i] as char == '+' then ' ' else s[i] as char {
        if i > 0 { assert r[i] == Decoded(s[1..], last, bare).value[i - 1] && s[i] == s[1..][i - 1]; }
      }
    }
  }

  /** What an escape of two characters is; "0x" and "0X" are what the C library makes of them. */
  function TwoCharacters(a: Byte, b: Byte, bare: Option<Byte>): (v: Option<Byte>) {
    var high, low := HexValue(a), HexValue(b);
    if a as char == '0' && b as char in "xX" then bare
    else if high.Some? && low.Some? then Some(16 * high.value + low.value)
    else if high.Some? then high
    else if low.None? then None
    else if a as char == '+' || IsSpace(a) then low
    else if a as char == '-' then Some((256 - low.value) % 256)
    else None
  }

  /** Every escape: its two characters, or the one before the end of the text. */
  lemma EscapeExact(a: Byte, b: Byte, rest: seq<Byte>, bare: Option<Byte>)
    requires a != 0 && b != 0
    ensures Scan(Digits([a, b] + rest), bare) == TwoCharacters(a, b, bare)
    ensures Scan(Digits([a]), bare) == Scan(Digits([a, 0] + rest), bare) == HexValue(a)
    ensures Scan(Digits([]), bare) == Scan(Digits([0] + rest), bare) == None
  {
    assert Digits([a, b] + rest) == [a, b] && Digits([a]) == [a] && Digits([a, 0] + rest) == [a];
    ScanOne(a, bare);
    ScanOne(b, bare);
    assert [a, b][1..] == [b];
  }

  lemma ScanOne(a: Byte, bare: Option<Byte>)
    ensures Scan([a], bare) == HexValue(a)
  {
    assert [a][1..] == [];
  }

  /** Hexadecimal digits, in either case. */
  lemma DigitValues(v: nat, c: Byte)
    requires v < 16
    ensures HexValue(c).Some? <==> '0' <= c as char <= '9' || 'a' <= c as char <= 'f' || 'A' <= c as char <= 'F'
    ensures HexValue("0123456789abcdef"[v] as int) == HexValue("0123456789ABCDEF"[v] as int) == Some(v)
  {
    assert "0123456789ABCDEF"[v] as int == if v < 10 then 48 + v else 55 + v;
    DigitText(v);
  }

  /** An input whose decoding depends on the unset variable: "%zz". */
  lemma UnreadableEscape(bare: Option<Byte>)
    ensures Decoded([PERCENT, 122, 122], None, bare) == None
  {
    var s: seq<Byte> := [PERCENT, 122, 122];
    assert Digits(s[1..]) == [122, 122];
  }

  lemma HexPair(c: Byte, rest: seq<Byte>, bare: Option<Byte>)
    ensures var s := [PERCENT, HexDigit(c / 16), HexDigit(c % 16)] + rest;
            Scan(Digits(s[1..]), bare) == Some(c)
  {
    var s := [PERCENT, HexDigit(c / 16), HexDigit(c % 16)] + rest;
    assert Digits(s[1..]) == [HexDigit(c / 16), HexDigit(c % 16)];
  }

  lemma {:induction false} DecodeEncoded(src: seq<Byte>, last: Option<Byte>, bare: Option<Byte>)
    ensures Decoded(Encoded(src), last, bare) == Some(src)
    decreases |src|
  {
    hide Scan, Digits, HexDigit;
    if src != [] {
      var c, rest := src[0], Encoded(src[1..]);
      var s := Piece(c) + rest;
      if Unreserved(c) {
        DecodeEncoded(src[1..], last, bare);
        assert s[1..] == rest;
      } else {
        DecodeEncoded(src[1..], Some(c), bare);
        HexPair(c, rest, bare);
        assert Skip(s, 3) == rest;
      }
      assert src == [c] + src[1..];
    }
  }

  lemma {:induction false} AllFits(src: seq<Byte>, room: nat)
    requires room >= 3 * |src| + 1
    ensures Fitting(src, room) == |src|
  {
    if src != [] { AllFits(src[1..], room - |Piece(src[0])|); }
  }

  /** The encoding that fits keeps a byte for the final zero. */
  lemma {:induction false} FittingFits(src: seq<Byte>, room: nat)
    requires room >= 1
    ensures |Encoded(src[..Fitting(src, room)])| < room
  {
    var n := Fitting(src, room);
    if n > 0 {
      FittingFits(src[1..], room - |Piece(src[0])|);
      assert src[..n][1..] == src[1..][..n - 1];
    }
  }

  /** And no further byte would have fitted. */
  lemma {:induction false} FittingStops(src: seq<Byte>, room: nat)
    requires Fitting(src, room) < |src|
    ensures |Encoded(src[..Fitting(src, room) + 1])| >= room
  {
    var n := Fitting(src, room);
    if n > 0 {
      FittingStops(src[1..], room - |Piece(src[0])|);
      assert src[..n + 1][1..] == src[1..][..n];
    }
  }

  lemma {:induction false} EncodedSnoc(src: seq<Byte>, c: Byte)
    ensures Encoded(src + [c]) == Encoded(src) + Piece(c)
  {
    hide Piece;
    if src == [] {
      assert (src + [c])[1..] == [];
    } else {
      EncodedSnoc(src[1..], c);
      assert (src + [c])[0] == src[0] && (src + [c])[1..] == src[1..] + [c];
    }
  }

  lemma FittingStep(src: seq<Byte>, i: nat, room: nat)
    requires i <= |src|
    ensures i == |src| ==> Fitting(src[i..], room) == 0
    ensures i < |src| && |Piece(src[i])| + 1 > room ==> Fitting(src[i..], room) == 0
    ensures i < |src| && |Piece(src[i])| + 1 <= room ==>
              Fitting(src[i..], room) == 1 + Fitting(src[i + 1..], room - |Piece(src[i])|)
  {
    if i < |src| { assert src[i..][1..] == src[i + 1..]; }
  }

  /** urlencode: as many whole pieces as fit, and a zero after them. */
  method UrlEncode(dest: array<Byte>, src: seq<Byte>) returns (length: nat)
    modifies dest
    ensures dest.Length == 0 ==> length == 0
    ensures dest.Length > 0 ==>
              var n := Fitting(src, dest.Length);
              length < dest.Length && dest[..length] == Encoded(src[..n]) && dest[length] == 0
  {
    hide Fitting, Encoded, Piece;
    if dest.Length == 0 { return 0; }
    dest[0] := 0;
    length := 0;
    assert src[0..] == src && src[..0] == [];
    Nothing();
    var i := 0;
    while i < |src|
      invariant i <= |src| && length < dest.Length
      invariant Fitting(src, dest.Length) == i + Fitting(src[i..], dest.Length - length)
      invariant dest[..length] == Encoded(src[..i]) && dest[length] == 0
    {
      var piece := Piece(src[i]);
      FittingStep(src, i, dest.Length - length);
      if length + |piece| + 1 > dest.Length { break; }
      EncodedSnoc(src[..i], src[i]);
      assert src[..i + 1] == src[..i] + [src[i]];
      Write(dest, length, piece);
      length := length + |piece|;
      i := i + 1;
    }
    FittingStep(src, i, dest.Length - length);
  }

  lemma Nothing()
    ensures Encoded([]) == []
  {
  }

  /** One piece and the zero after it. */
  method Write(dest: array<Byte>, at: nat, piece: seq<Byte>)
    requires at + |piece| < dest.Length
    modifies dest
    ensures dest[..at + |piece|] == old(dest[..at]) + piece && dest[at + |piece|] == 0
  {
    for j := 0 to |piece|
      invariant dest[..at] == old(dest[..at]) && dest[at..at + j] == piece[..j]
    {
      dest[at + j] := piece[j];
    }
    dest[at + |piece|] := 0;
    assert dest[..at + |piece|] == dest[..at] + dest[at..at + |piece|];
  }

  lemma PrefixedTwice(a: seq<Byte>, b: seq<Byte>, r: Option<seq<Byte>>)
    ensures Prefixed(a, Prefixed(b, r)) == Prefixed(a + b, r) && Prefixed([], r) == r
  {
    if r.Some? { assert a + (b + r.value) == a + b + r.value && [] + r.value == r.value; }
  }

  /** urldecode; `None` where it would use its variable unset. */
  method UrlDecode(src: seq<Byte>, bare: Option<Byte>) returns (r: Option<seq<Byte>>)
    ensures r == Decoded(src, None, bare)
  {
    hide Scan, Digits;
    var dest: seq<Byte> := [];
    var last: Option<Byte> := None;
    var i := 0;
    assert Skip(src, 0) == src;
    PrefixedTwice([], [], Decoded(src, None, bare));
    while i < |src|
      invariant Decoded(src, None, bare) == Prefixed(dest, Decoded(Skip(src, i), last, bare))
    {
      var rest := Skip(src, i);
      var c: Byte;
      if src[i] != PERCENT {
        c := if src[i] == PLUS then SPACE else src[i];
        assert rest[1..] == Skip(src, i + 1);
        i := i + 1;
      } else {
        var v := Scan(Digits(src[i + 1..]), bare);
        assert rest[1..] == src[i + 1..];
        if v.Some? {
          last := v;
        }
        if last.None? { return None; }
        c := last.value;
        assert Skip(rest, 3) == Skip(src, i + 3);
        i := i + 3;
      }
      PrefixedTwice(dest, [c], Decoded(Skip(src, i), last, bare));
      dest := dest + [c];
    }
    assert Skip(src, i) == [] && dest + [] == dest;
    r := Some(dest);
  }

  /**
   The round trip through a buffer of `capacity` bytes: decoding gives a prefix of the source, never a
   split escape, and the whole source when the capacity is three times its length and one more.
   */
  lemma RoundTrip(src: seq<Byte>, capacity: nat, bare: Option<Byte>)
    ensures var n := Fitting(src, capacity);
            && Decoded(Encoded(src[..n]), None, bare) == Some(src[..n])
            && (capacity >= 3 * |src| + 1 ==> Decoded(Encoded(src[..n]), None, bare) == Some(src))
            && (capacity >= 1 ==> |Encoded(src[..n])| < capacity)
            && (capacity == 0 ==> n == 0)
  {
    hide Decoded, Encoded;
    var n := Fitting(src, capacity);
    DecodeEncoded(src[..n], None, bare);
    if capacity >= 1 { FittingFits(src, capacity); }
    if capacity >= 3 * |src| + 1 {
      AllFits(src, capacity);
      assert src[..n] == src;
    }
  }
}
