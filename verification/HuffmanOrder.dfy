/**
 The Huffman code is the canonical one of its lengths: words are given in the order of the lengths, and within a
 length in the order of the symbols. With the chain of groups this leaves no choice of a word once the lengths are
 known.
 */
module HuffmanOrder {
  import opened Bits
  import opened HuffmanCode
  import opened CanonicalCode
  import opened HuffmanTable

  /** A position where a new length begins. */
  predicate Border(k: nat) {
    k in {10, 36, 68, 74, 79, 82, 84, 90, 92, 95, 98, 106, 119, 145, 174, 186, 190, 205, 224, 253}
  }

  predicate Ascends(k: nat)
    requires k < 256
  {
    Border(k + 1) || SymbolAt(k) < SymbolAt(k + 1)
  }

  lemma AscendsBelow(k: nat)
    requires k < 128
    ensures Ascends(k)
  {
  }

  lemma AscendsAbove(k: nat)
    requires 128 <= k < 256
    ensures Ascends(k)
  {
  }

  /** Inside a group there is no border. */
  lemma NoBorder(g: nat, k: nat)
    requires g <= 20 && GroupBase(g) < k < GroupBase(g) + GroupCount(g)
    ensures !Border(k)
  {
  }

  lemma {:induction false} Ascending(g: nat, p: nat, q: nat)
    requires g <= 20 && GroupBase(g) <= p < q < GroupBase(g) + GroupCount(g) && q <= 256
    ensures SymbolAt(p) < SymbolAt(q)
    decreases q
  {
    hide SymbolAt, GroupBase, GroupCount, Border;
    if q <= 128 { AscendsBelow(q - 1); } else { AscendsAbove(q - 1); }
    NoBorder(g, q);
    if p < q - 1 { Ascending(g, p, q - 1); }
  }

  /** Codes of one length are in the order of their symbols. */
  lemma Canonical(a: nat, b: nat)
    requires a < b <= 256 && CodeLength(a) == CodeLength(b)
    ensures CodeWord(a) < CodeWord(b)
  {
    hide SymbolAt, CodeLength, CodeWord, GroupOf, GroupBase, GroupCount, GroupFirst;
    Symbols(a);
    Symbols(b);
    var g := GroupOf(CodeLength(a));
    if CodeWord(b) <= CodeWord(a) {
      if CodeWord(b) < CodeWord(a) { Ascending(g, PositionOf(b), PositionOf(a)); }
      assert false;
    }
  }
}
