/** Which rules a request target concerns, and that the query has no say in it. */
module LimitPath {
  import opened Bits
  import opened Gcra
  import opened HttpLimit
  import opened LengthPrefix
  import opened LimitTable
  import opened Wrappers

  /** The target is the path, or the path and a query. */
  predicate Concerns(c: Config, uri: seq<Byte>) {
    QUERY !in c.path && (uri == c.path || c.path + [QUERY] <= uri)
  }

  lemma {:induction false} CutAtQuery(p: seq<Byte>, t: seq<Byte>)
    requires QUERY !in p
    ensures BeforeQuery(p) == p && BeforeQuery(p + [QUERY] + t) == p
  {
    if p == [] {
      assert (p + [QUERY] + t)[0] == QUERY;
    } else {
      var s := p + [QUERY] + t;
      assert s[0] == p[0] && s[1..] == p[1..] + [QUERY] + t;
      CutAtQuery(p[1..], t);
    }
  }

  lemma MatchesExactly(c: Config, q: Request)
    ensures Matches(c, q) <==> Concerns(c, q.uri)
  {
    if Concerns(c, q.uri) {
      if q.uri == c.path {
        CutAtQuery(c.path, []);
      } else {
        var t := q.uri[|c.path| + 1..];
        assert q.uri == c.path + [QUERY] + t;
        CutAtQuery(c.path, t);
      }
    }
  }

  /** A request with a query is answered, and changes the rules, as the same request without it. */
  lemma QueryIgnored(cs: seq<Config>, ss: seq<State>, q: Request, p: seq<Byte>, t: seq<Byte>)
    requires ConfigsOk(cs) && |ss| == |cs| && Fits(cs, q) && QUERY !in p
    ensures var plain, queried := q.(uri := p), q.(uri := p + [QUERY] + t);
            && Answer(cs, ss, plain) == Answer(cs, ss, queried)
            && After(cs, ss, plain) == After(cs, ss, queried)
  {
    CutAtQuery(p, t);
    SameMatches(cs, ss, q.(uri := p), q.(uri := p + [QUERY] + t));
  }

  lemma SameMatches(cs: seq<Config>, ss: seq<State>, a: Request, b: Request)
    requires ConfigsOk(cs) && |ss| == |cs| && Fits(cs, a)
    requires b == a.(uri := b.uri) && BeforeQuery(a.uri) == BeforeQuery(b.uri)
    ensures Answer(cs, ss, a) == Answer(cs, ss, b) && After(cs, ss, a) == After(cs, ss, b)
  {
    hide RulePlan, IdOf, RuleCommitted, RulePlanned, BeforeQuery;
    forall k: nat | k < |cs|
      ensures Matches(cs[k], a) == Matches(cs[k], b) && DeniedBy(cs, ss, a, k) == DeniedBy(cs, ss, b, k)
    {
    }
    SameCulprit(cs, ss, a, b, 0);
    assert AnyMatch(cs, a) <==> AnyMatch(cs, b) by { SameAny(cs, a, b); }
    assert Denied(cs, ss, a) <==> Denied(cs, ss, b);
  }

  lemma SameAny(cs: seq<Config>, a: Request, b: Request)
    requires forall k: nat :: k < |cs| ==> Matches(cs[k], a) == Matches(cs[k], b)
    ensures AnyMatch(cs, a) <==> AnyMatch(cs, b)
  {
    hide Matches;
    if AnyMatch(cs, a) { var k :| 0 <= k < |cs| && Matches(cs[k], a); assert Matches(cs[k], b); }
    if AnyMatch(cs, b) { var k :| 0 <= k < |cs| && Matches(cs[k], b); assert Matches(cs[k], a); }
  }

  lemma {:induction false} SameCulprit(cs: seq<Config>, ss: seq<State>, a: Request, b: Request, from: nat)
    requires ConfigsOk(cs) && |ss| == |cs| && Fits(cs, a) && Fits(cs, b) && from <= |cs|
    requires forall k: nat :: k < |cs| ==> DeniedBy(cs, ss, a, k) == DeniedBy(cs, ss, b, k)
    ensures Culprit(cs, ss, a, from) == Culprit(cs, ss, b, from)
    decreases |cs| - from
  {
    hide DeniedBy;
    if from < |cs| { SameCulprit(cs, ss, a, b, from + 1); }
  }

  /** A rule the target does not concern is left as it was, and its state has no say in the answer. */
  lemma StandsAside(cs: seq<Config>, ss: seq<State>, q: Request, k: nat, other: State)
    requires ConfigsOk(cs) && |ss| == |cs| && Fits(cs, q) && k < |cs| && !Concerns(cs[k], q.uri)
    ensures After(cs, ss, q)[k] == ss[k] && Answer(cs, ss[k := other], q) == Answer(cs, ss, q)
    ensures forall j: nat :: j < |cs| && j != k ==> After(cs, ss[k := other], q)[j] == After(cs, ss, q)[j]
  {
    hide RulePlan, IdOf, RuleCommitted, RulePlanned, BeforeQuery, Concerns;
    MatchesExactly(cs[k], q);
    var tt := ss[k := other];
    forall j: nat | j < |cs| ensures DeniedBy(cs, ss, q, j) == DeniedBy(cs, tt, q, j) { }
    SameCulpritOf(cs, ss, tt, q, 0);
    assert Denied(cs, ss, q) <==> Denied(cs, tt, q);
  }

  lemma {:induction false} SameCulpritOf(cs: seq<Config>, ss: seq<State>, tt: seq<State>, q: Request, from: nat)
    requires ConfigsOk(cs) && |ss| == |tt| == |cs| && Fits(cs, q) && from <= |cs|
    requires forall k: nat :: k < |cs| ==> DeniedBy(cs, ss, q, k) == DeniedBy(cs, tt, q, k)
    ensures Culprit(cs, ss, q, from) == Culprit(cs, tt, q, from)
    decreases |cs| - from
  {
    hide DeniedBy;
    if from < |cs| { SameCulpritOf(cs, ss, tt, q, from + 1); }
  }

  /** A rule the target concerns takes part: its denial refuses the request, and an allowed one advances it. */
  lemma TakesPart(cs: seq<Config>, ss: seq<State>, q: Request, k: nat)
    requires ConfigsOk(cs) && |ss| == |cs| && Fits(cs, q) && k < |cs| && Concerns(cs[k], q.uri)
    ensures ConfigOk(cs[k])
    ensures RulePlan(cs[k], ss[k], IdOf(cs[k], q.values[k]), q.now).Deny? ==> !Answer(cs, ss, q).Allow?
    ensures Answer(cs, ss, q).Allow? ==>
              q.built && Advanced(cs[k], ss[k], After(cs, ss, q)[k], IdOf(cs[k], q.values[k]), q.now)
  {
    hide RulePlan, IdOf, RuleCommitted, RulePlanned, BeforeQuery, Concerns, Advanced, Answer;
    MatchesExactly(cs[k], q);
    assert AnyMatch(cs, q);
    if RulePlan(cs[k], ss[k], IdOf(cs[k], q.values[k]), q.now).Deny? { assert DeniedBy(cs, ss, q, k); }
    if Allowed(cs, ss, q) { AdmissionAdvancesAll(cs, ss, q, k); }
  }

  /** A request a rule concerns and whose id could not be built is refused for a second and changes nothing. */
  lemma UnbuiltRefused(cs: seq<Config>, ss: seq<State>, q: Request, k: nat)
    requires ConfigsOk(cs) && |ss| == |cs| && Fits(cs, q) && k < |cs| && Concerns(cs[k], q.uri) && !q.built
    ensures Answer(cs, ss, q) == Refuse(1) && After(cs, ss, q) == ss
  {
    hide RulePlan, IdOf, RuleCommitted, RulePlanned, BeforeQuery, Concerns;
    MatchesExactly(cs[k], q);
    assert AnyMatch(cs, q);
  }

  /** A target that concerns no rule is always allowed. */
  lemma Unlimited(cs: seq<Config>, ss: seq<State>, q: Request)
    requires ConfigsOk(cs) && |ss| == |cs| && Fits(cs, q) && forall k :: 0 <= k < |cs| ==> !Concerns(cs[k], q.uri)
    ensures Answer(cs, ss, q) == Allow && After(cs, ss, q) == ss
  {
    hide RulePlan, IdOf, RuleCommitted, RulePlanned, BeforeQuery, Concerns;
    forall k | 0 <= k < |cs| ensures !Matches(cs[k], q) { MatchesExactly(cs[k], q); }
  }
}
