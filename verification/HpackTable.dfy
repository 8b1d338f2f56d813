/**
 The header tables of HPACK: the static table (RFC 7541 Appendix A), the
 client's dynamic table of at most 64 entries, and the size-evicting dynamic
 table of the standard (RFC 7541 sections 2.3.2 and 4).
 */
module HpackTable {
  import opened Bits
  import opened Wrappers

  datatype Header = Header(name: seq<Byte>, value: seq<Byte>)

  const STATIC_ENTRIES: nat := 61
  const DYN_MAX: nat := 64
  const DYN_NAME_SIZE: nat := 128
  const DYN_VALUE_SIZE: nat := 256

  /** The bytes of an ASCII literal. */
  function Ascii(s: string): (b: seq<Byte>)
    ensures |b| == |s|
  {
    seq(|s|, i requires 0 <= i < |s| => if s[i] as int < 128 then s[i] as int else 63)
  }

  /** hpack_static_name. */
  function StaticName(idx: nat): (s: string)
    requires 1 <= idx <= 61
  {
    match idx
    case 1 => ":authority" case 2 | 3 => ":method" case 4 | 5 => ":path" case 6 | 7 => ":scheme"
    case 8 | 9 | 10 | 11 | 12 | 13 | 14 => ":status" case 15 => "accept-charset" case 16 => "accept-encoding"
    case 17 => "accept-language" case 18 => "accept-ranges" case 19 => "accept"
    case 20 => "access-control-allow-origin" case 21 => "age" case 22 => "allow" case 23 => "authorization"
    case 24 => "cache-control" case 25 => "content-disposition" case 26 => "content-encoding"
    case 27 => "content-language" case 28 => "content-length" case 29 => "content-location" case 30 => "content-range"
    case 31 => "content-type" case 32 => "cookie" case 33 => "date" case 34 => "etag" case 35 => "expect"
    case 36 => "expires" case 37 => "from" case 38 => "host" case 39 => "if-match" case 40 => "if-modified-since"
    case 41 => "if-none-match" case 42 => "if-range" case 43 => "if-unmodified-since" case 44 => "last-modified"
    case 45 => "link" case 46 => "location" case 47 => "max-forwards" case 48 => "proxy-authenticate"
    case 49 => "proxy-authorization" case 50 => "range" case 51 => "referer" case 52 => "refresh"
    case 53 => "retry-after" case 54 => "server" case 55 => "set-cookie" case 56 => "strict-transport-security"
    case 57 => "transfer-encoding" case 58 => "user-agent" case 59 => "vary" case 60 => "via"
    case _ => "www-authenticate"
  }

  /** hpack_static_value. */
  function StaticValue(idx: nat): (s: string)
    requires 1 <= idx <= 61
  {
    match idx
    case 2 => "GET" case 3 => "POST" case 4 => "/" case 5 => "/index.html" case 6 => "http" case 7 => "https"
    case 8 => "200" case 9 => "204" case 10 => "206" case 11 => "304" case 12 => "400" case 13 => "404"
    case 14 => "500" case 16 => "gzip, deflate" case _ => ""
  }

  function StaticEntry(idx: nat): (h: Header)
    requires 1 <= idx <= 61
  {
    Header(Ascii(StaticName(idx)), Ascii(StaticValue(idx)))
  }

  /** hpack_lookup against a dynamic table, newest entry first. */
  function Lookup(table: seq<Header>, idx: nat): (r: Option<Header>)
  {
    if idx == 0 then None
    else if idx <= STATIC_ENTRIES then Some(StaticEntry(idx))
    else if idx - STATIC_ENTRIES - 1 < |table| then Some(table[idx - STATIC_ENTRIES - 1])
    else None
  }

  predicate Storable(h: Header) {
    |h.name| < DYN_NAME_SIZE && |h.value| < DYN_VALUE_SIZE
  }

  function Cut(s: seq<Header>, n: nat): (r: seq<Header>) {
    if |s| <= n then s else s[..n]
  }

  /** The table after one insertion. */
  function Inserted(table: seq<Header>, h: Header): (r: seq<Header>) {
    if Storable(h) then Cut([h] + table, DYN_MAX) else table
  }

  /** hpack_dtable: 64 slots, the first `n` in use, newest first. */
  class DynTable {
    const e: array<Header>
    var n: nat

    ghost predicate Valid()
      reads this
    {
      e.Length == DYN_MAX && n <= DYN_MAX
    }

    ghost function Contents(): seq<Header>
      requires Valid()
      reads this, e
    {
      e[..n]
    }

    constructor ()
      ensures Valid() && fresh(e) && Contents() == []
    {
      e := new Header[DYN_MAX](_ => Header([], []));
      n := 0;
    }

    /** hpack_dtable_insert: move every entry one slot down, then write slot 0. */
    method Insert(h: Header)
      requires Valid()
      modifies this, e
      ensures Valid() && Contents() == Inserted(old(Contents()), h)
    {
      if |h.name| >= DYN_NAME_SIZE || |h.value| >= DYN_VALUE_SIZE {
        return;
      }
      if n >= DYN_MAX {
        n := DYN_MAX - 1;
      }
      var i := n;
      while i > 0
        invariant 0 <= i <= n < DYN_MAX
        invariant forall k :: 0 <= k < i ==> e[k] == old(e[k])
        invariant forall k :: i < k <= n ==> e[k] == old(e[k - 1])
        modifies e
      {
        e[i] := e[i - 1];
        i := i - 1;
      }
      e[0] := h;
      n := n + 1;
      ghost var after := Cut([h] + old(Contents()), DYN_MAX);
      assert |after| == n && forall k :: 0 <= k < n ==> e[k] == after[k];
    }

    method Find(idx: nat) returns (r: Option<Header>)
      requires Valid()
      ensures r == Lookup(Contents(), idx)
    {
      if idx == 0 {
        return None;
      }
      if idx <= STATIC_ENTRIES {
        return Some(StaticEntry(idx));
      }
      if idx - STATIC_ENTRIES - 1 >= n {
        return None;
      }
      return Some(e[idx - STATIC_ENTRIES - 1]);
    }
  }

  /** The table after a sequence of insertions, oldest first. */
  function InsertAll(table: seq<Header>, hs: seq<Header>): (r: seq<Header>)
  {
    if hs == [] then table else Inserted(InsertAll(table, hs[..|hs| - 1]), hs[|hs| - 1])
  }

  function Newest(hs: seq<Header>): (r: seq<Header>)
    ensures |r| == |hs|
  {
    if hs == [] then [] else [hs[|hs| - 1]] + Newest(hs[..|hs| - 1])
  }

  /** The dynamic table is always the newest-first insertion history, cut to 64 entries. */
  lemma {:induction false} TableIsHistory(hs: seq<Header>)
    requires forall h :: h in hs ==> Storable(h)
    ensures InsertAll([], hs) == Cut(Newest(hs), DYN_MAX)
  {
    if hs != [] {
      var init, h := hs[..|hs| - 1], hs[|hs| - 1];
      TableIsHistory(init);
      CutCons(h, Newest(init), DYN_MAX);
    }
  }

  lemma CutCons(h: Header, s: seq<Header>, n: nat)
    requires n > 0
    ensures Cut([h] + Cut(s, n), n) == Cut([h] + s, n)
  {
  }

  // ---------------------------------------------------------------- RFC 7541

  function EntrySize(h: Header): (n: nat)
    ensures n >= 32
  {
    |h.name| + |h.value| + 32
  }

  function TableSize(s: seq<Header>): (n: nat) {
    if s == [] then 0 else EntrySize(s[0]) + TableSize(s[1..])
  }

  /** Section 4.3: drop the oldest entries until the rest fits the budget. */
  function Evict(s: seq<Header>, budget: nat): (r: seq<Header>)
    ensures r <= s && TableSize(r) <= budget
  {
    if TableSize(s) <= budget then s else Evict(s[..|s| - 1], budget)
  }

  datatype RfcTable = RfcTable(entries: seq<Header>, max: nat)

  /** Section 4.4: an entry larger than the table empties it. */
  function RfcInserted(t: RfcTable, h: Header): (r: RfcTable) {
    if EntrySize(h) > t.max then t.(entries := [])
    else t.(entries := [h] + Evict(t.entries, t.max - EntrySize(h)))
  }

  function RfcResized(t: RfcTable, max: nat): (r: RfcTable) {
    RfcTable(Evict(t.entries, max), max)
  }

  /** Every index up to 64 that is live in the standard's table names the same header here. */
  ghost predicate Agree(rfc: seq<Header>, table: seq<Header>) {
    Cut(rfc, DYN_MAX) <= table && |table| <= DYN_MAX
  }

  lemma AgreeAfterInsert(t: RfcTable, table: seq<Header>, h: Header)
    requires Agree(t.entries, table) && Storable(h)
    ensures Agree(RfcInserted(t, h).entries, Inserted(table, h))
  {
    if EntrySize(h) <= t.max {
      var kept := Evict(t.entries, t.max - EntrySize(h));
      assert Agree(kept, table);
      var a, b := Cut([h] + kept, DYN_MAX), Inserted(table, h);
      assert forall k :: 0 <= k < |a| ==> a[k] == b[k];
    }
  }

  lemma AgreeAfterResize(t: RfcTable, table: seq<Header>, max: nat)
    requires Agree(t.entries, table)
    ensures Agree(RfcResized(t, max).entries, table)
  {
  }

  /** An index that is live in the standard's table and at most 125 resolves to the same header. */
  lemma LiveIndexAgrees(rfc: seq<Header>, table: seq<Header>, idx: nat)
    requires Agree(rfc, table) && Lookup(rfc, idx).Some? && idx <= STATIC_ENTRIES + DYN_MAX
    ensures Lookup(table, idx) == Lookup(rfc, idx)
  {
    if idx > STATIC_ENTRIES {
      assert Cut(rfc, DYN_MAX)[idx - STATIC_ENTRIES - 1] == table[idx - STATIC_ENTRIES - 1];
    }
  }
}
