/** The binary search that finds a requesting peer's server by name. */
module PeerSearch {
  import opened Bits
  import opened Wrappers

  type Name = seq<Byte>

  /** strcmp(a, b) < 0. */
  predicate Less(a: Name, b: Name) {
    b != [] && (a == [] || a[0] < b[0] || (a[0] == b[0] && Less(a[1..], b[1..])))
  }

  lemma {:induction false} LessIrreflexive(a: Name)
    ensures !Less(a, a)
  {
    if a != [] { LessIrreflexive(a[1..]); }
  }

  lemma {:induction false} LessTransitive(a: Name, b: Name, c: Name)
    requires Less(a, b) && Less(b, c)
    ensures Less(a, c)
  {
    if a != [] && a[0] == b[0] == c[0] { LessTransitive(a[1..], b[1..], c[1..]); }
  }

  lemma {:induction false} LessTotal(a: Name, b: Name)
    ensures a == b || Less(a, b) || Less(b, a)
  {
    if a != [] && b != [] && a[0] == b[0] {
      LessTotal(a[1..], b[1..]);
      assert a == [a[0]] + a[1..] && b == [b[0]] + b[1..];
    }
  }

  /** The order qsort leaves distinct names in. */
  ghost predicate Sorted(names: seq<Name>) {
    forall i, j :: 0 <= i < j < |names| ==> Less(names[i], names[j])
  }

  /** Everything on one side of a probe can be ruled out. */
  lemma Below(names: seq<Name>, wanted: Name, probe: nat, i: nat)
    requires Sorted(names) && i <= probe < |names| && Less(names[probe], wanted)
    ensures names[i] != wanted
  {
    if i < probe { LessTransitive(names[i], names[probe], wanted); }
    LessIrreflexive(wanted);
  }

  lemma Above(names: seq<Name>, wanted: Name, probe: nat, i: nat)
    requires Sorted(names) && probe <= i < |names| && Less(wanted, names[probe])
    ensures names[i] != wanted
  {
    if probe < i { LessTransitive(wanted, names[probe], names[i]); }
    LessIrreflexive(wanted);
  }

  /** get_server_oplog_by_node: the server of that name, and none exactly when there is none. */
  method FindServer(names: seq<Name>, wanted: Name) returns (found: Option<nat>)
    requires Sorted(names)
    ensures found.Some? ==> found.value < |names| && names[found.value] == wanted
    ensures found.None? <==> wanted !in names
  {
    if |names| == 0 { return None; }
    var min, max := 0, |names| - 1;
    while min <= max
      invariant 0 <= min <= |names| && 0 <= max < |names| && min <= max + 1
      invariant forall i :: 0 <= i < |names| && names[i] == wanted ==> min <= i <= max
      decreases max + 1 - min
    {
      var probe := (min + max) / 2;
      if names[probe] == wanted { return Some(probe); }
      if Less(names[probe], wanted) {
        forall i | 0 <= i <= probe ensures names[i] != wanted { Below(names, wanted, probe, i); }
        min := probe + 1;
        if min > |names| { return None; }
      } else {
        LessTotal(names[probe], wanted);
        forall i | probe <= i < |names| ensures names[i] != wanted { Above(names, wanted, probe, i); }
        if probe == 0 { return None; }
        max := probe - 1;
      }
    }
    return None;
  }
}
