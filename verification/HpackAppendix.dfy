/** The static table of HPACK as RFC 7541 Appendix A prints it, entry by entry, and that the client's is the same. */
module HpackAppendix {
  import opened HpackTable

  /** Name and value of an entry. */
  function Printed(idx: nat): (e: (string, string))
    requires 1 <= idx <= 61
  {
    match idx
    case 1 => (":authority", "")
    case 2 => (":method", "GET")
    case 3 => (":method", "POST")
    case 4 => (":path", "/")
    case 5 => (":path", "/index.html")
    case 6 => (":scheme", "http")
    case 7 => (":scheme", "https")
    case 8 => (":status", "200")
    case 9 => (":status", "204")
    case 10 => (":status", "206")
    case 11 => (":status", "304")
    case 12 => (":status", "400")
    case 13 => (":status", "404")
    case 14 => (":status", "500")
    case 15 => ("accept-charset", "")
    case 16 => ("accept-encoding", "gzip, deflate")
    case 17 => ("accept-language", "")
    case 18 => ("accept-ranges", "")
    case 19 => ("accept", "")
    case 20 => ("access-control-allow-origin", "")
    case 21 => ("age", "")
    case 22 => ("allow", "")
    case 23 => ("authorization", "")
    case 24 => ("cache-control", "")
    case 25 => ("content-disposition", "")
    case 26 => ("content-encoding", "")
    case 27 => ("content-language", "")
    case 28 => ("content-length", "")
    case 29 => ("content-location", "")
    case 30 => ("content-range", "")
    case 31 => ("content-type", "")
    case 32 => ("cookie", "")
    case 33 => ("date", "")
    case 34 => ("etag", "")
    case 35 => ("expect", "")
    case 36 => ("expires", "")
    case 37 => ("from", "")
    case 38 => ("host", "")
    case 39 => ("if-match", "")
    case 40 => ("if-modified-since", "")
    case 41 => ("if-none-match", "")
    case 42 => ("if-range", "")
    case 43 => ("if-unmodified-since", "")
    case 44 => ("last-modified", "")
    case 45 => ("link", "")
    case 46 => ("location", "")
    case 47 => ("max-forwards", "")
    case 48 => ("proxy-authenticate", "")
    case 49 => ("proxy-authorization", "")
    case 50 => ("range", "")
    case 51 => ("referer", "")
    case 52 => ("refresh", "")
    case 53 => ("retry-after", "")
    case 54 => ("server", "")
    case 55 => ("set-cookie", "")
    case 56 => ("strict-transport-security", "")
    case 57 => ("transfer-encoding", "")
    case 58 => ("user-agent", "")
    case 59 => ("vary", "")
    case 60 => ("via", "")
    case _ => ("www-authenticate", "")
  }

  predicate EntryOk(idx: nat)
    requires 1 <= idx <= 61
  {
    && StaticName(idx) == Printed(idx).0 && StaticValue(idx) == Printed(idx).1
    && |Printed(idx).0| <= 27 && |Printed(idx).1| <= 13
  }

  lemma Entries1(idx: nat)
    requires 1 <= idx <= 14
    ensures EntryOk(idx)
  {
  }

  lemma Entries15(idx: nat)
    requires 15 <= idx <= 38
    ensures EntryOk(idx)
  {
  }

  lemma Entries39(idx: nat)
    requires 39 <= idx <= 61
    ensures EntryOk(idx)
  {
  }

  /** The client's static table is the one of the standard. */
  lemma StaticTableExact(idx: nat)
    requires 1 <= idx <= 61
    ensures StaticEntry(idx) == Header(Ascii(Printed(idx).0), Ascii(Printed(idx).1))
    ensures |StaticEntry(idx).name| <= 27 && |StaticEntry(idx).value| <= 13
  {
    hide StaticName, StaticValue, Printed, Ascii;
    if idx <= 14 {
      Entries1(idx);
    } else if idx <= 38 {
      Entries15(idx);
    } else {
      Entries39(idx);
    }
  }
}
