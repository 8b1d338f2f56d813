/**
 Canonical prefix codes: the codes of one length are consecutive numbers, and
 the lengths in use are numbered from 0. A shape whose groups tile the 30-bit
 strings yields a complete prefix-free code, whatever the symbols are.
 */
module CanonicalCode {
  import opened Arithmetic
  import opened Bits
  import opened HuffmanCode

  /** Per group: the code length, the smallest code, how many, and the position of the first. */
  datatype Group = Group(length: nat, first: nat, count: nat, base: nat)

  type Shape = seq<Group>

  /** How many 30-bit strings begin with one code of the group. */
  function Weight(g: Group): (w: nat)
    requires g.length <= 30
  {
    Pow2(30 - g.length)
  }

  /** The groups follow each other without gap or overlap, in positions and in 30-bit strings. */
  ghost predicate Chained(sh: Shape) {
    && |sh| > 0 && sh[0].first == 0
    && (forall g :: 0 <= g < |sh| ==> 5 <= sh[g].length <= 30)
    && (forall g: nat :: 0 < g < |sh| ==> Linked(sh, g))
    && (sh[|sh| - 1].first + sh[|sh| - 1].count) * Weight(sh[|sh| - 1]) == Pow2(30)
  }

  ghost predicate Linked(sh: Shape, g: nat)
    requires 0 < g < |sh|
  {
    sh[g - 1].length <= 30 && sh[g].length <= 30 && Follows(sh[g - 1], sh[g])
  }

  ghost predicate Follows(g: Group, h: Group)
    requires g.length <= 30 && h.length <= 30
  {
    && g.length < h.length
    && g.base + g.count == h.base
    && (g.first + g.count) * Weight(g) == h.first * Weight(h)
  }

  /** The first 30-bit string of group `g`, or the end of the last group. */
  ghost function Start(sh: Shape, g: nat): int
    requires Chained(sh) && g <= |sh|
  {
    if g == |sh| then Pow2(30) else sh[g].first * Weight(sh[g])
  }

  lemma StartNext(sh: Shape, g: nat)
    requires Chained(sh) && g < |sh|
    ensures Start(sh, g + 1) == (sh[g].first + sh[g].count) * Weight(sh[g])
  {
    assert g + 1 < |sh| ==> Linked(sh, g + 1);
  }

  lemma {:induction false} StartMonotone(sh: Shape, g: nat, h: nat)
    requires Chained(sh) && g <= h <= |sh|
    ensures Start(sh, g) <= Start(sh, h)
  {
    if g < h {
      StartMonotone(sh, g, h - 1);
      StartNext(sh, h - 1);
      MulMonotone(sh[h - 1].first, sh[h - 1].first + sh[h - 1].count, Weight(sh[h - 1]));
    }
  }

  lemma {:induction false} GroupsOrdered(sh: Shape, g: nat, h: nat)
    requires Chained(sh) && g < h < |sh|
    ensures sh[g].base + sh[g].count <= sh[h].base && sh[g].length < sh[h].length
  {
    assert Linked(sh, h);
    if g < h - 1 { GroupsOrdered(sh, g, h - 1); }
  }

  /** `w` is a code of group `g`. */
  ghost predicate WordOf(sh: Shape, g: nat, w: nat) {
    g < |sh| && sh[g].first <= w < sh[g].first + sh[g].count
  }

  /** The codes of one group end before those of a later group begin. */
  lemma LaterIsLarger(sh: Shape, g: nat, w: nat, h: nat, v: nat)
    requires Chained(sh) && WordOf(sh, g, w) && WordOf(sh, h, v) && g < h
    ensures sh[g].length < sh[h].length
    ensures v >= (w + 1) * Pow2(sh[h].length - sh[g].length)
  {
    GroupsOrdered(sh, g, h);
    StartNext(sh, g);
    StartMonotone(sh, g + 1, h);
    Pow2Add(sh[h].length - sh[g].length, 30 - sh[h].length);
    Rescale(w + 1, sh[g].first + sh[g].count, sh[h].first, v,
            Weight(sh[g]), Pow2(sh[h].length - sh[g].length), Weight(sh[h]));
  }

  lemma MulAssociates(a: nat, b: nat, c: nat)
    ensures (a * b) * c == a * (b * c)
  {
  }

  lemma Rescale(a: nat, b: nat, c: nat, v: nat, big: nat, factor: nat, small: nat)
    requires a <= b && c <= v && b * big <= c * small && big == factor * small && small > 0
    ensures v >= a * factor
  {
    MulMonotone(a, b, big);
    MulMonotone(c, v, small);
    MulAssociates(a, factor, small);
    MulCancel(a * factor, v, small);
  }

  lemma WordFits(sh: Shape, g: nat, w: nat)
    requires Chained(sh) && WordOf(sh, g, w)
    ensures w < Pow2(sh[g].length)
  {
    StartNext(sh, g);
    StartMonotone(sh, g + 1, |sh|);
    Pow2Add(sh[g].length, 30 - sh[g].length);
    MulCancel(sh[g].first + sh[g].count, Pow2(sh[g].length), Weight(sh[g]));
  }

  /** A code of one group is no prefix of a code of a later one. */
  lemma NotAPrefix(sh: Shape, g: nat, w: nat, h: nat, v: nat)
    requires Chained(sh) && WordOf(sh, g, w) && WordOf(sh, h, v) && g < h
    ensures !(BitsOf(w, sh[g].length) <= BitsOf(v, sh[h].length))
  {
    LaterIsLarger(sh, g, w, h, v);
    WordFits(sh, g, w);
    WordFits(sh, h, v);
    LargerIsNoExtension(w, sh[g].length, v, sh[h].length);
  }

  lemma LargerIsNoExtension(w: nat, l: nat, v: nat, m: nat)
    requires l < m && w < Pow2(l) && (w + 1) * Pow2(m - l) <= v < Pow2(m)
    ensures !(BitsOf(w, l) <= BitsOf(v, m))
  {
    var top := ShiftRight(v, m - l);
    ShiftRightAtLeast(v, w + 1, m - l);
    TopFits(v, l, m);
    PrefixIsTop(w, l, v, m);
  }

  lemma TopFits(v: nat, l: nat, m: nat)
    requires l <= m && v < Pow2(m)
    ensures ShiftRight(v, m - l) < Pow2(l)
  {
    Pow2Add(l, m - l);
    ShiftRightAtLeast(v, Pow2(l), m - l);
  }

  lemma PrefixIsTop(w: nat, l: nat, v: nat, m: nat)
    requires l <= m && w < Pow2(l) && ShiftRight(v, m - l) < Pow2(l)
    ensures BitsOf(w, l) <= BitsOf(v, m) ==> w == ShiftRight(v, m - l)
  {
    var top := ShiftRight(v, m - l);
    BitsOfSplit(v, l, m - l);
    assert BitsOf(v, m)[..l] == BitsOf(top, l);
    SameBits(w, top, l);
  }

  /** Two codes of a shape, one a prefix of the other, are the same code. */
  lemma PrefixIsSame(sh: Shape, g: nat, w: nat, h: nat, v: nat)
    requires Chained(sh) && WordOf(sh, g, w) && WordOf(sh, h, v)
    ensures BitsOf(w, sh[g].length) <= BitsOf(v, sh[h].length) ==> g == h && w == v
  {
    if g < h {
      NotAPrefix(sh, g, w, h, v);
    } else if h < g {
      GroupsOrdered(sh, h, g);
    } else {
      WordFits(sh, g, w);
      WordFits(sh, h, v);
      SameBits(w, v, sh[g].length);
    }
  }

  lemma {:induction false} FindGroup(sh: Shape, v: nat, g: nat) returns (h: nat)
    requires Chained(sh) && g < |sh| && Start(sh, g) <= v < Pow2(30)
    ensures h < |sh| && Start(sh, h) <= v < Start(sh, h + 1)
    decreases |sh| - g
  {
    if v < Start(sh, g + 1) {
      h := g;
    } else {
      h := FindGroup(sh, v, g + 1);
    }
  }

  /** Every bit string of at least 30 bits begins with a code of the shape. */
  lemma LongStartsWithCode(sh: Shape, x: seq<bool>) returns (g: nat, w: nat)
    requires Chained(sh) && |x| >= 30
    ensures WordOf(sh, g, w) && BitsOf(w, sh[g].length) <= x
  {
    var v := ValueOf(x[..30]);
    BitsOfValue(x[..30]);
    g := FindGroup(sh, v, 0);
    StartNext(sh, g);
    var l := sh[g].length;
    w := ShiftRight(v, 30 - l);
    ShiftRightAtLeast(v, sh[g].first, 30 - l);
    ShiftRightAtLeast(v, sh[g].first + sh[g].count, 30 - l);
    BitsOfSplit(v, l, 30 - l);
    assert BitsOf(w, l) == x[..30][..l] == x[..l];
  }
}
