/**
 http_limit_check over every run: all matching rules decide together, an unbounded map per
 rule gives the same decisions, and no client exceeds its rate in any window.
 */
module HttpLimit {
  import opened Bits
  import opened Gcra
  import opened LengthPrefix
  import opened LimitTable
  import opened Wrappers

  const QUERY: Byte := 63

  /** The configured part of a rule; a rule without keys has one bucket. */
  datatype Config = Config(path: seq<Byte>, keys: seq<Key>, rate: Rate)

  /** The changing part: the single bucket, or the table of a keyed rule. */
  datatype State = State(bucket: Option<nat>, table: Table)

  /** `values[k]` are the normalised values for the keys of rule `k`; `built` when ids could be allocated. */
  datatype Request = Request(uri: seq<Byte>, values: seq<seq<seq<Byte>>>, now: nat, built: bool)

  datatype Outcome = Allow | Refuse(retry: nat)

  ghost predicate ConfigOk(c: Config) {
    RateOk(c.rate) && Labelled(c.keys)
  }

  ghost predicate ConfigsOk(cs: seq<Config>) {
    forall k :: 0 <= k < |cs| ==> ConfigOk(cs[k])
  }

  ghost predicate Fits(cs: seq<Config>, q: Request) {
    |q.values| == |cs| && forall k :: 0 <= k < |cs| ==> |q.values[k]| == |cs[k].keys|
  }

  // ---------------------------------------------------------- one rule

  /** The part of a request target before the query. */
  function BeforeQuery(uri: seq<Byte>): (p: seq<Byte>)
    ensures p <= uri && QUERY !in p
    ensures |p| < |uri| ==> uri[|p|] == QUERY
  {
    if uri == [] || uri[0] == QUERY then [] else [uri[0]] + BeforeQuery(uri[1..])
  }

  predicate Matches(c: Config, q: Request) {
    BeforeQuery(q.uri) == c.path
  }

  function IdOf(c: Config, values: seq<seq<Byte>>): (id: Id)
    requires |values| == |c.keys| && Labelled(c.keys)
  {
    FramedPairs(c.keys, values)
  }

  function RulePlan(c: Config, s: State, id: Id, now: nat): (p: Plan) {
    if c.keys == [] then GcraPlan(s.bucket, now, c.rate) else TablePlan(s.table, id, now, c.rate)
  }

  function RulePlanned(c: Config, s: State, id: Id, now: nat): (r: State) {
    if c.keys == [] then s else s.(table := Planned(s.table, id, now))
  }

  function RuleCommitted(c: Config, s: State, id: Id, now: nat, tat: nat): (r: State) {
    if c.keys == [] then s.(bucket := Some(tat)) else s.(table := Committed(s.table, id, now, tat))
  }

  // ---------------------------------------------------------- all rules of a request

  predicate Denies(c: Config, s: State, values: seq<seq<Byte>>, q: Request)
    requires |values| == |c.keys| && Labelled(c.keys)
  {
    Matches(c, q) && RulePlan(c, s, IdOf(c, values), q.now).Deny?
  }

  ghost predicate Denied(cs: seq<Config>, ss: seq<State>, q: Request)
    requires ConfigsOk(cs) && |ss| == |cs| && Fits(cs, q)
  {
    exists k :: 0 <= k < |cs| && DeniedBy(cs, ss, q, k)
  }

  ghost predicate DeniedBy(cs: seq<Config>, ss: seq<State>, q: Request, k: nat)
    requires ConfigsOk(cs) && |ss| == |cs| && Fits(cs, q) && k < |cs|
  {
    assert ConfigOk(cs[k]);
    Denies(cs[k], ss[k], q.values[k], q)
  }

  ghost predicate AnyMatch(cs: seq<Config>, q: Request) {
    exists k :: 0 <= k < |cs| && Matches(cs[k], q)
  }

  ghost predicate Allowed(cs: seq<Config>, ss: seq<State>, q: Request)
    requires ConfigsOk(cs) && |ss| == |cs| && Fits(cs, q)
  {
    !AnyMatch(cs, q) || (q.built && !Denied(cs, ss, q))
  }

  /** One rule's state after the request. */
  function RuleAfter(c: Config, s: State, values: seq<seq<Byte>>, q: Request, allowed: bool): (r: State)
    requires |values| == |c.keys| && Labelled(c.keys)
  {
    if !Matches(c, q) || !q.built then s
    else
      var id := IdOf(c, values);
      var p := RulePlan(c, s, id, q.now);
      if allowed && p.Admit? then RuleCommitted(c, s, id, q.now, p.newTat) else RulePlanned(c, s, id, q.now)
  }

  ghost function After(cs: seq<Config>, ss: seq<State>, q: Request): (r: seq<State>)
    requires ConfigsOk(cs) && |ss| == |cs| && Fits(cs, q)
    ensures |r| == |cs|
  {
    var allowed := Allowed(cs, ss, q);
    seq(|cs|, k requires 0 <= k < |cs| =>
      assert ConfigOk(cs[k]); RuleAfter(cs[k], ss[k], q.values[k], q, allowed))
  }

  /** The first rule that denies. */
  ghost function Culprit(cs: seq<Config>, ss: seq<State>, q: Request, from: nat): (k: nat)
    requires ConfigsOk(cs) && |ss| == |cs| && Fits(cs, q) && from <= |cs|
    ensures from <= k <= |cs| && (k < |cs| ==> DeniedBy(cs, ss, q, k))
    ensures forall j :: from <= j < k ==> !DeniedBy(cs, ss, q, j)
    decreases |cs| - from
  {
    if from == |cs| || DeniedBy(cs, ss, q, from) then from else Culprit(cs, ss, q, from + 1)
  }

  /** The answer of http_limit_check. */
  ghost function Answer(cs: seq<Config>, ss: seq<State>, q: Request): (r: Outcome)
    requires ConfigsOk(cs) && |ss| == |cs| && Fits(cs, q)
    ensures r.Allow? <==> Allowed(cs, ss, q)
  {
    if Allowed(cs, ss, q) then Allow
    else if !q.built then Refuse(1)
    else
      var k := Culprit(cs, ss, q, 0);
      assert ConfigOk(cs[k]);
      Refuse(RulePlan(cs[k], ss[k], IdOf(cs[k], q.values[k]), q.now).retry)
  }

  // ---------------------------------------------------------- the unbounded limiter

  ghost predicate StateOk(c: Config, s: State, m: Buckets, clock: nat) {
    if c.keys == [] then
      s.bucket == Lookup(m, []) && Bounded(s.bucket, clock, c.rate)
    else
      TableOk(s.table, clock) && Represents(s.table, m, clock)
  }

  ghost predicate Refines(cs: seq<Config>, ss: seq<State>, ms: seq<Buckets>, clock: nat) {
    |ss| == |ms| == |cs| && forall k :: 0 <= k < |cs| ==> StateOk(cs[k], ss[k], ms[k], clock)
  }

  /** A keyed rule with no place for a new client. */
  predicate NoRoom(c: Config, s: State, id: Id, now: nat) {
    c.keys != [] && PlaceOf(s.table, id, now).Full?
  }

  /** A rule decides by its map unless it has no room. */
  lemma RuleDecides(c: Config, s: State, m: Buckets, clock: nat, values: seq<seq<Byte>>, now: nat)
    requires ConfigOk(c) && StateOk(c, s, m, clock) && clock <= now && |values| == |c.keys|
    ensures var id := IdOf(c, values);
            RulePlan(c, s, id, now) ==
              if NoRoom(c, s, id, now) then Deny(TABLE_RETRY) else GcraPlan(Lookup(m, id), now, c.rate)
  {
    if c.keys != [] { TableDecides(s.table, m, clock, IdOf(c, values), now, c.rate); }
  }

  function RuleMapAfter(c: Config, m: Buckets, id: Id, now: nat, commit: bool): (r: Buckets) {
    var p := GcraPlan(Lookup(m, id), now, c.rate);
    if commit && p.Admit? then m[id := p.newTat] else m
  }

  /** Planning and committing one rule keep its invariant and follow its map. */
  lemma RuleKeeps(c: Config, s: State, m: Buckets, clock: nat, values: seq<seq<Byte>>, q: Request, allowed: bool)
    requires ConfigOk(c) && StateOk(c, s, m, clock) && clock <= q.now && |values| == |c.keys|
    requires allowed && Matches(c, q) && q.built ==> RulePlan(c, s, IdOf(c, values), q.now).Admit?
    ensures StateOk(c, RuleAfter(c, s, values, q, allowed),
                    RuleMapAfter(c, m, IdOf(c, values), q.now, allowed && Matches(c, q) && q.built), q.now)
  {
    hide GcraPlan, PlaceOf, Committed, Planned, TableOk, Represents;
    var id := IdOf(c, values);
    RuleDecides(c, s, m, clock, values, q.now);
    if c.keys == [] {
      BucketKeeps(s.bucket, clock, q.now, c.rate);
    } else {
      PlannedKeeps(s.table, m, clock, id, q.now);
      TableAges(s.table, m, clock, q.now);
      if allowed && Matches(c, q) && q.built {
        AdmitSoon(Lookup(m, id), q.now, c.rate);
        CommittedKeeps(s.table, m, clock, id, q.now, GcraPlan(Lookup(m, id), q.now, c.rate).newTat);
      }
    }
  }

  lemma BucketKeeps(tat: Option<nat>, clock: nat, now: nat, rate: Rate)
    requires Bounded(tat, clock, rate) && clock <= now
    ensures Bounded(tat, now, rate)
    ensures GcraPlan(tat, now, rate).Admit? ==> Bounded(Some(GcraPlan(tat, now, rate).newTat), now, rate)
  {
  }

  lemma AdmitSoon(tat: Option<nat>, now: nat, rate: Rate)
    requires rate.tau + rate.interval <= SECOND && GcraPlan(tat, now, rate).Admit?
    ensures GcraPlan(tat, now, rate).newTat <= now + SECOND
  {
  }

  lemma TableAges(t: Table, m: Buckets, clock: nat, now: nat)
    requires TableOk(t, clock) && Represents(t, m, clock) && clock <= now
    ensures TableOk(t, now) && Represents(t, m, now)
  {
    forall i | 0 <= i < |t| ensures SlotOk(t[i], now) { assert SlotOk(t[i], clock); }
  }

  ghost predicate MapDenies(cs: seq<Config>, ms: seq<Buckets>, q: Request, k: nat)
    requires ConfigsOk(cs) && |ms| == |cs| && Fits(cs, q) && k < |cs|
  {
    assert ConfigOk(cs[k]);
    Matches(cs[k], q) && GcraPlan(Lookup(ms[k], IdOf(cs[k], q.values[k])), q.now, cs[k].rate).Deny?
  }

  /** Decision and update of the unbounded limiter; `full` is a refusal for lack of room. */
  ghost predicate MapAllowed(cs: seq<Config>, ms: seq<Buckets>, q: Request, full: bool)
    requires ConfigsOk(cs) && |ms| == |cs| && Fits(cs, q)
  {
    !AnyMatch(cs, q) || (q.built && !full && forall k :: 0 <= k < |cs| ==> !MapDenies(cs, ms, q, k))
  }

  ghost function MapAfter(cs: seq<Config>, ms: seq<Buckets>, q: Request, full: bool): (r: seq<Buckets>)
    requires ConfigsOk(cs) && |ms| == |cs| && Fits(cs, q)
    ensures |r| == |cs|
  {
    var allowed := MapAllowed(cs, ms, q, full);
    seq(|cs|, k requires 0 <= k < |cs| =>
      assert ConfigOk(cs[k]);
      RuleMapAfter(cs[k], ms[k], IdOf(cs[k], q.values[k]), q.now, allowed && Matches(cs[k], q) && q.built))
  }

  ghost predicate Crowded(cs: seq<Config>, ss: seq<State>, q: Request)
    requires ConfigsOk(cs) && |ss| == |cs| && Fits(cs, q)
  {
    exists k :: 0 <= k < |cs| && CrowdedAt(cs, ss, q, k)
  }

  ghost predicate CrowdedAt(cs: seq<Config>, ss: seq<State>, q: Request, k: nat)
    requires ConfigsOk(cs) && |ss| == |cs| && Fits(cs, q) && k < |cs|
  {
    assert ConfigOk(cs[k]);
    Matches(cs[k], q) && NoRoom(cs[k], ss[k], IdOf(cs[k], q.values[k]), q.now)
  }

  lemma SameDecision(cs: seq<Config>, ss: seq<State>, ms: seq<Buckets>, clock: nat, q: Request)
    requires ConfigsOk(cs) && Refines(cs, ss, ms, clock) && Fits(cs, q) && clock <= q.now
    ensures Allowed(cs, ss, q) <==> MapAllowed(cs, ms, q, Crowded(cs, ss, q))
  {
    hide RulePlan, GcraPlan, NoRoom, StateOk, Matches, IdOf;
    forall k | 0 <= k < |cs| ensures DeniedBy(cs, ss, q, k) <==> CrowdedAt(cs, ss, q, k) || MapDenies(cs, ms, q, k) {
      assert ConfigOk(cs[k]);
      RuleDecides(cs[k], ss[k], ms[k], clock, q.values[k], q.now);
    }
  }

  /** One request: the same decision as the maps', and the tables follow the maps. */
  lemma StepRefines(cs: seq<Config>, ss: seq<State>, ms: seq<Buckets>, clock: nat, q: Request)
    requires ConfigsOk(cs) && Refines(cs, ss, ms, clock) && Fits(cs, q) && clock <= q.now
    ensures Allowed(cs, ss, q) <==> MapAllowed(cs, ms, q, Crowded(cs, ss, q))
    ensures Refines(cs, After(cs, ss, q), MapAfter(cs, ms, q, Crowded(cs, ss, q)), q.now)
  {
    hide RulePlan, RuleAfter, RuleMapAfter, StateOk, IdOf;
    SameDecision(cs, ss, ms, clock, q);
    var allowed := Allowed(cs, ss, q);
    forall k | 0 <= k < |cs|
      ensures StateOk(cs[k], After(cs, ss, q)[k], MapAfter(cs, ms, q, Crowded(cs, ss, q))[k], q.now)
    {
      assert ConfigOk(cs[k]);
      assert allowed && Matches(cs[k], q) && q.built ==> !DeniedBy(cs, ss, q, k);
      RuleKeeps(cs[k], ss[k], ms[k], clock, q.values[k], q, allowed);
    }
  }

  // ---------------------------------------------------------- whole runs

  ghost predicate Clocked(cs: seq<Config>, clock: nat, qs: seq<Request>)
    decreases |qs|
  {
    qs != [] ==> Fits(cs, qs[0]) && clock <= qs[0].now && Clocked(cs, qs[0].now, qs[1..])
  }

  /** The decisions of a run of requests. */
  ghost function Decisions(cs: seq<Config>, ss: seq<State>, clock: nat, qs: seq<Request>): (ds: seq<bool>)
    requires ConfigsOk(cs) && |ss| == |cs| && Clocked(cs, clock, qs)
    ensures |ds| == |qs|
    decreases |qs|
  {
    if qs == [] then []
    else [Allowed(cs, ss, qs[0])] + Decisions(cs, After(cs, ss, qs[0]), qs[0].now, qs[1..])
  }

  /** Which requests met a matching rule without room. */
  ghost function Crowding(cs: seq<Config>, ss: seq<State>, clock: nat, qs: seq<Request>): (fs: seq<bool>)
    requires ConfigsOk(cs) && |ss| == |cs| && Clocked(cs, clock, qs)
    ensures |fs| == |qs|
    decreases |qs|
  {
    if qs == [] then []
    else [Crowded(cs, ss, qs[0])] + Crowding(cs, After(cs, ss, qs[0]), qs[0].now, qs[1..])
  }

  /** The decisions of the unbounded limiter, with refusals for lack of room given. */
  ghost function MapDecisions(cs: seq<Config>, ms: seq<Buckets>, clock: nat, qs: seq<Request>,
                              full: seq<bool>): (ds: seq<bool>)
    requires ConfigsOk(cs) && |ms| == |cs| && Clocked(cs, clock, qs) && |full| == |qs|
    ensures |ds| == |qs|
    decreases |qs|
  {
    if qs == [] then []
    else [MapAllowed(cs, ms, qs[0], full[0])] +
         MapDecisions(cs, MapAfter(cs, ms, qs[0], full[0]), qs[0].now, qs[1..], full[1..])
  }

  /** Every run: the bounded tables decide as unbounded maps, up to refusals for lack of room. */
  lemma {:induction false} RunRefines(cs: seq<Config>, ss: seq<State>, ms: seq<Buckets>, clock: nat, qs: seq<Request>)
    requires ConfigsOk(cs) && Refines(cs, ss, ms, clock) && Clocked(cs, clock, qs)
    ensures Decisions(cs, ss, clock, qs) == MapDecisions(cs, ms, clock, qs, Crowding(cs, ss, clock, qs))
    decreases |qs|
  {
    hide Allowed, After, MapAllowed, MapAfter, Crowded, StateOk, Fits;
    if qs != [] {
      var full := Crowding(cs, ss, clock, qs);
      StepRefines(cs, ss, ms, clock, qs[0]);
      assert full[1..] == Crowding(cs, After(cs, ss, qs[0]), qs[0].now, qs[1..]);
      RunRefines(cs, After(cs, ss, qs[0]), MapAfter(cs, ms, qs[0], full[0]), qs[0].now, qs[1..]);
    }
  }

  /** Fresh rules: no bucket used, no slot taken. */
  function Fresh(cs: seq<Config>): (ss: seq<State>)
    ensures |ss| == |cs|
  {
    seq(|cs|, _ => State(None, []))
  }

  function Empty(cs: seq<Config>): (ms: seq<Buckets>)
    ensures |ms| == |cs|
  {
    seq(|cs|, _ => map[])
  }

  lemma FreshRefines(cs: seq<Config>, clock: nat)
    ensures Refines(cs, Fresh(cs), Empty(cs), clock)
  {
    forall k | 0 <= k < |cs| ensures StateOk(cs[k], Fresh(cs)[k], Empty(cs)[k], clock) {
      assert Fresh(cs)[k] == State(None, []) && Empty(cs)[k] == map[];
    }
  }

  // ---------------------------------------------------------- the rate of one client

  /** When rule `k` admitted requests with these key values. */
  ghost function AdmittedAt(cs: seq<Config>, ss: seq<State>, clock: nat, qs: seq<Request>, k: nat,
                            values: seq<seq<Byte>>): (times: seq<nat>)
    requires ConfigsOk(cs) && |ss| == |cs| && Clocked(cs, clock, qs) && k < |cs|
    decreases |qs|
  {
    if qs == [] then []
    else
      var rest := AdmittedAt(cs, After(cs, ss, qs[0]), qs[0].now, qs[1..], k, values);
      if Matches(cs[k], qs[0]) && qs[0].values[k] == values && Allowed(cs, ss, qs[0]) then [qs[0].now] + rest else rest
  }

  lemma {:induction false} AdmittedAfterClock(cs: seq<Config>, ss: seq<State>, clock: nat, qs: seq<Request>, k: nat,
                                              values: seq<seq<Byte>>)
    requires ConfigsOk(cs) && |ss| == |cs| && Clocked(cs, clock, qs) && k < |cs|
    ensures var times := AdmittedAt(cs, ss, clock, qs, k, values); times != [] ==> clock <= times[0]
    decreases |qs|
  {
    hide Allowed, After, Matches;
    if qs != [] { AdmittedAfterClock(cs, After(cs, ss, qs[0]), qs[0].now, qs[1..], k, values); }
  }

  /** What one request does to the bucket of one client of one rule. */
  lemma BucketStep(cs: seq<Config>, ss: seq<State>, ms: seq<Buckets>, clock: nat, q: Request, k: nat,
                   values: seq<seq<Byte>>)
    requires ConfigsOk(cs) && Refines(cs, ss, ms, clock) && Fits(cs, q) && clock <= q.now
    requires k < |cs| && |values| == |cs[k].keys| && Labelled(cs[k].keys)
    ensures var id := IdOf(cs[k], values);
            var before := Lookup(ms[k], id);
            var after := Lookup(MapAfter(cs, ms, q, Crowded(cs, ss, q))[k], id);
            if Matches(cs[k], q) && q.values[k] == values && Allowed(cs, ss, q) then
              GcraPlan(before, q.now, cs[k].rate).Admit? && after == Some(GcraPlan(before, q.now, cs[k].rate).newTat)
            else after == before
  {
    hide GcraPlan, FramedPairs, StateOk, RulePlan;
    SameDecision(cs, ss, ms, clock, q);
    assert ConfigOk(cs[k]);
    if q.values[k] != values && IdOf(cs[k], values) == IdOf(cs[k], q.values[k]) {
      FramedPairsInjective(cs[k].keys, values, cs[k].keys, q.values[k]);
    }
    assert Matches(cs[k], q) && Allowed(cs, ss, q) ==> !MapDenies(cs, ms, q, k);
  }

  /** The admissions of one client are admissions of one generic cell rate bucket. */
  lemma {:induction false} ClientIsBucket(cs: seq<Config>, ss: seq<State>, ms: seq<Buckets>, clock: nat,
                                          qs: seq<Request>,
                                          k: nat, values: seq<seq<Byte>>)
    requires ConfigsOk(cs) && Refines(cs, ss, ms, clock) && Clocked(cs, clock, qs)
    requires k < |cs| && |values| == |cs[k].keys| && Labelled(cs[k].keys)
    ensures Admissions(Lookup(ms[k], IdOf(cs[k], values)), AdmittedAt(cs, ss, clock, qs, k, values), cs[k].rate)
    decreases |qs|
  {
    hide GcraPlan, IdOf, Allowed, After, MapAfter, Matches, Crowded, Lookup, StateOk, Fits, MapAllowed;
    if qs != [] {
      var q := qs[0];
      var next, nextMap := After(cs, ss, q), MapAfter(cs, ms, q, Crowded(cs, ss, q));
      StepRefines(cs, ss, ms, clock, q);
      BucketStep(cs, ss, ms, clock, q, k, values);
      ClientIsBucket(cs, next, nextMap, q.now, qs[1..], k, values);
      AdmittedAfterClock(cs, next, q.now, qs[1..], k, values);
      var rest := AdmittedAt(cs, next, q.now, qs[1..], k, values);
      assert ([q.now] + rest)[1..] == rest;
    }
  }

  /**
   The rate bound over every run from fresh rules: in any window of `length` nanoseconds a rule admits
   at most rps plus length / interval requests with the same key values.
   */
  lemma ClientRate(cs: seq<Config>, clock: nat, qs: seq<Request>, k: nat, values: seq<seq<Byte>>, lo: nat, length: nat)
    requires ConfigsOk(cs) && Clocked(cs, clock, qs) && k < |cs| && |values| == |cs[k].keys|
    ensures cs[k].rate.interval > 0
    ensures CountIn(AdmittedAt(cs, Fresh(cs), clock, qs, k, values), lo, lo + length)
            <= cs[k].rate.rps + length / cs[k].rate.interval
  {
    hide AdmittedAt, Admissions, CountIn, Clocked, FramedPairs;
    assert ConfigOk(cs[k]);
    FreshRefines(cs, clock);
    ClientIsBucket(cs, Fresh(cs), Empty(cs), clock, qs, k, values);
    var times := AdmittedAt(cs, Fresh(cs), clock, qs, k, values);
    RateBound(Lookup(Empty(cs)[k], IdOf(cs[k], values)), times, cs[k].rate, lo, length);
  }

  // ---------------------------------------------------------- all or nothing

  /** No arrival time differs; only the time of last use may. */
  ghost predicate SameTimes(s: State, r: State) {
    && r.bucket == s.bucket && |r.table| == |s.table|
    && forall i :: 0 <= i < |s.table| ==> r.table[i] == s.table[i].(last := r.table[i].last)
  }

  /** A refused request changes no arrival time of any rule. */
  lemma RefusalKeepsTimes(cs: seq<Config>, ss: seq<State>, q: Request, k: nat)
    requires ConfigsOk(cs) && |ss| == |cs| && Fits(cs, q) && k < |cs| && !Allowed(cs, ss, q)
    ensures SameTimes(ss[k], After(cs, ss, q)[k])
  {
    hide Allowed, RulePlan, IdOf, Matches;
    assert ConfigOk(cs[k]);
  }

  /** The new state has the bucket of `id` one interval on, and no other time changed but that of an idle slot. */
  ghost predicate Advanced(c: Config, s: State, r: State, id: Id, now: nat) {
    if c.keys == [] then r == s.(bucket := Some(Base(s.bucket, now) + c.rate.interval))
    else
      && r.bucket == s.bucket && |s.table| <= |r.table| <= |s.table| + 1
      && exists i :: 0 <= i < |r.table|
          && r.table[i].id == id && r.table[i].have
          && r.table[i].tat == Base(Recall(s.table, id, now), now) + c.rate.interval
          && (i < |s.table| ==> s.table[i].id == id || IsIdle(s.table[i], now))
          && forall j :: 0 <= j < |r.table| && j != i ==> j < |s.table| && r.table[j] == s.table[j]
  }

  /** An allowed request advances every matching rule by one interval, and leaves the others. */
  lemma AdmissionAdvancesAll(cs: seq<Config>, ss: seq<State>, q: Request, k: nat)
    requires ConfigsOk(cs) && |ss| == |cs| && Fits(cs, q) && k < |cs| && Allowed(cs, ss, q)
    ensures Labelled(cs[k].keys)
    ensures if Matches(cs[k], q) then Advanced(cs[k], ss[k], After(cs, ss, q)[k], IdOf(cs[k], q.values[k]), q.now)
            else After(cs, ss, q)[k] == ss[k]
  {
    hide IdOf, PlaceOf, Recall, Matches;
    assert ConfigOk(cs[k]);
    if Matches(cs[k], q) {
      assert AnyMatch(cs, q) && !DeniedBy(cs, ss, q, k);
      CommitAdvances(cs[k], ss[k], IdOf(cs[k], q.values[k]), q.now);
    }
  }

  lemma CommitAdvances(c: Config, s: State, id: Id, now: nat)
    requires RulePlan(c, s, id, now).Admit?
    ensures Advanced(c, s, RuleCommitted(c, s, id, now, RulePlan(c, s, id, now).newTat), id, now)
  {
    hide Recall;
    var r := RuleCommitted(c, s, id, now, RulePlan(c, s, id, now).newTat);
    if c.keys != [] {
      var p := PlaceOf(s.table, id, now);
      var i := if p.Append? then |s.table| else p.at;
      assert r.table[i].id == id;
    }
  }

  // ---------------------------------------------------------- Retry-After

  /** A refusal names one minute when the first denying rule has no room, and one second otherwise. */
  lemma RetryAfter(cs: seq<Config>, ss: seq<State>, ms: seq<Buckets>, clock: nat, q: Request)
    requires ConfigsOk(cs) && Refines(cs, ss, ms, clock) && Fits(cs, q) && clock <= q.now && !Allowed(cs, ss, q)
    ensures Answer(cs, ss, q) ==
            Refuse(if q.built && CrowdedAt(cs, ss, q, Culprit(cs, ss, q, 0)) then TABLE_RETRY else 1)
  {
    hide RulePlan, GcraPlan, NoRoom, Matches;
    if q.built {
      var k := Culprit(cs, ss, q, 0);
      assert ConfigOk(cs[k]);
      RuleDecides(cs[k], ss[k], ms[k], clock, q.values[k], q.now);
      if !CrowdedAt(cs, ss, q, k) {
        DenialIsOneSecond(cs[k], ss[k], ms[k], clock, IdOf(cs[k], q.values[k]), q.now);
      }
    }
  }

  /** Every known bucket is at most one burst ahead of its clock. */
  lemma DenialIsOneSecond(c: Config, s: State, m: Buckets, clock: nat, id: Id, now: nat)
    requires ConfigOk(c) && StateOk(c, s, m, clock) && clock <= now && (c.keys == [] ==> id == [])
    requires GcraPlan(Lookup(m, id), now, c.rate).Deny?
    ensures GcraPlan(Lookup(m, id), now, c.rate) == Deny(1)
  {
  }

  ghost function StatesAfter(cs: seq<Config>, ss: seq<State>, clock: nat, qs: seq<Request>): (r: seq<State>)
    requires ConfigsOk(cs) && |ss| == |cs| && Clocked(cs, clock, qs)
    ensures |r| == |cs|
    decreases |qs|
  {
    if qs == [] then ss else StatesAfter(cs, After(cs, ss, qs[0]), qs[0].now, qs[1..])
  }

  ghost function ClockAfter(clock: nat, qs: seq<Request>): nat {
    if qs == [] then clock else qs[|qs| - 1].now
  }

  /** A run that admits none of a client's requests leaves its bucket alone. */
  lemma {:induction false} QuietBucket(cs: seq<Config>, ss: seq<State>, ms: seq<Buckets>, clock: nat, qs: seq<Request>,
                                       k: nat, values: seq<seq<Byte>>)
    returns (last: seq<Buckets>)
    requires ConfigsOk(cs) && Refines(cs, ss, ms, clock) && Clocked(cs, clock, qs)
    requires k < |cs| && |values| == |cs[k].keys| && Labelled(cs[k].keys)
    requires AdmittedAt(cs, ss, clock, qs, k, values) == []
    ensures Refines(cs, StatesAfter(cs, ss, clock, qs), last, ClockAfter(clock, qs))
    ensures Lookup(last[k], IdOf(cs[k], values)) == Lookup(ms[k], IdOf(cs[k], values))
    decreases |qs|
  {
    hide GcraPlan, IdOf, Allowed, After, MapAfter, Matches, Crowded, Lookup, StateOk, Fits, MapAllowed;
    if qs == [] {
      last := ms;
    } else {
      var q := qs[0];
      StepRefines(cs, ss, ms, clock, q);
      BucketStep(cs, ss, ms, clock, q, k, values);
      last := QuietBucket(cs, After(cs, ss, q), MapAfter(cs, ms, q, Crowded(cs, ss, q)), q.now, qs[1..], k, values);
    }
  }

  // ---------------------------------------------------------- a slot in use stays

  /** The id has a slot that was used at `since` or later. */
  ghost predicate UsedSince(t: Table, id: Id, since: nat) {
    exists i :: 0 <= i < |t| && t[i].id == id && t[i].last >= since
  }

  lemma PlannedStays(t: Table, id: Id, since: nat, other: Id, now: nat)
    requires UsedSince(t, id, since)
    ensures UsedSince(Planned(t, other, now), id, since)
  {
    hide PlaceOf;
    var i :| 0 <= i < |t| && t[i].id == id && t[i].last >= since;
    assert Planned(t, other, now)[i].id == id;
  }

  /** No slot is given away within a minute of its last use. */
  lemma CommittedStays(t: Table, id: Id, since: nat, other: Id, now: nat, tat: nat)
    requires UsedSince(t, id, since) && now < since + IDLE
    ensures UsedSince(Committed(t, other, now, tat), id, since)
  {
    hide IndexOf, FirstIdle;
    var i :| 0 <= i < |t| && t[i].id == id && t[i].last >= since;
    assert Committed(t, other, now, tat)[i].id == id;
  }

  lemma StepStays(cs: seq<Config>, ss: seq<State>, q: Request, k: nat, id: Id, since: nat)
    requires ConfigsOk(cs) && |ss| == |cs| && Fits(cs, q) && k < |cs| && q.now < since + IDLE
    requires UsedSince(ss[k].table, id, since)
    ensures UsedSince(After(cs, ss, q)[k].table, id, since)
  {
    hide UsedSince, RulePlan, IdOf, Planned, Committed, Allowed, Matches;
    assert ConfigOk(cs[k]);
    var other := IdOf(cs[k], q.values[k]);
    PlannedStays(ss[k].table, id, since, other, q.now);
    var p := RulePlan(cs[k], ss[k], other, q.now);
    if p.Admit? { CommittedStays(ss[k].table, id, since, other, q.now, p.newTat); }
  }

  lemma {:induction false} RunStays(cs: seq<Config>, ss: seq<State>, clock: nat, qs: seq<Request>, k: nat, id: Id,
                                    since: nat)
    requires ConfigsOk(cs) && |ss| == |cs| && Clocked(cs, clock, qs) && k < |cs| && ClockAfter(clock, qs) < since + IDLE
    requires UsedSince(ss[k].table, id, since)
    ensures UsedSince(StatesAfter(cs, ss, clock, qs)[k].table, id, since)
    decreases |qs|
  {
    hide UsedSince, After, Fits;
    if qs != [] {
      ClockGrows(cs, qs[0].now, qs[1..]);
      assert ClockAfter(qs[0].now, qs[1..]) == ClockAfter(clock, qs);
      StepStays(cs, ss, qs[0], k, id, since);
      RunStays(cs, After(cs, ss, qs[0]), qs[0].now, qs[1..], k, id, since);
    }
  }

  lemma {:induction false} ClockGrows(cs: seq<Config>, clock: nat, qs: seq<Request>)
    requires Clocked(cs, clock, qs)
    ensures clock <= ClockAfter(clock, qs)
    decreases |qs|
  {
    if qs != [] {
      ClockGrows(cs, qs[0].now, qs[1..]);
      assert ClockAfter(qs[0].now, qs[1..]) == ClockAfter(clock, qs);
    }
  }

  /** A client that a keyed rule denies for its rate has a slot, and the denial marks it used. */
  lemma DenialMarks(c: Config, s: State, m: Buckets, clock: nat, id: Id, now: nat)
    requires ConfigOk(c) && StateOk(c, s, m, clock) && clock <= now && c.keys != []
    requires RulePlan(c, s, id, now).Deny? && !NoRoom(c, s, id, now)
    ensures UsedSince(RulePlanned(c, s, id, now).table, id, now)
  {
    var p := PlaceOf(s.table, id, now);
    assert p.Held?;
    assert SlotOk(s.table[p.at], clock);
    assert Planned(s.table, id, now)[p.at].id == id;
  }

  lemma UsedHasRoom(c: Config, s: State, id: Id, since: nat, later: nat)
    requires UsedSince(s.table, id, since)
    ensures !NoRoom(c, s, id, later)
  {
  }

  /**
   Waiting the second works: a rule that refused a client for its rate, and admitted none of the client's
   requests since, admits it from one second later on. Only after a minute of silence may its table have no room.
   */
  lemma WaitingSuffices(cs: seq<Config>, ss: seq<State>, ms: seq<Buckets>, clock: nat, q: Request, qs: seq<Request>,
                        k: nat, later: nat)
    requires ConfigsOk(cs) && Refines(cs, ss, ms, clock) && Clocked(cs, clock, [q] + qs)
    requires k < |cs| && Fits(cs, q) && q.built && DeniedBy(cs, ss, q, k) && !CrowdedAt(cs, ss, q, k)
    requires AdmittedAt(cs, ss, clock, [q] + qs, k, q.values[k]) == []
    requires later >= q.now + SECOND && later >= ClockAfter(q.now, qs)
    ensures Labelled(cs[k].keys)
    ensures var s := StatesAfter(cs, ss, clock, [q] + qs)[k];
            var id := IdOf(cs[k], q.values[k]);
            RulePlan(cs[k], s, id, later).Admit? || (later >= q.now + IDLE && NoRoom(cs[k], s, id, later))
  {
    hide RulePlan, NoRoom, Matches, After, Allowed, AdmittedAt, GcraPlan, UsedSince;
    assert ConfigOk(cs[k]);
    var c, values := cs[k], q.values[k];
    RuleDecides(c, ss[k], ms[k], clock, values, q.now);
    assert ([q] + qs)[0] == q;
    var last := QuietBucket(cs, ss, ms, clock, [q] + qs, k, values);
    assert ClockAfter(clock, [q] + qs) == ClockAfter(q.now, qs);
    RuleDecides(c, StatesAfter(cs, ss, clock, [q] + qs)[k], last[k], ClockAfter(q.now, qs), values, later);
    DeniedThenAdmitted(c, ss[k], ms[k], clock, IdOf(c, values), q.now, later);
    if later < q.now + IDLE { SlotSurvives(cs, ss, ms, clock, q, qs, k, later); }
  }

  lemma SlotSurvives(cs: seq<Config>, ss: seq<State>, ms: seq<Buckets>, clock: nat, q: Request, qs: seq<Request>,
                     k: nat, later: nat)
    requires ConfigsOk(cs) && Refines(cs, ss, ms, clock) && Clocked(cs, clock, [q] + qs)
    requires k < |cs| && Fits(cs, q) && q.built && DeniedBy(cs, ss, q, k) && !CrowdedAt(cs, ss, q, k)
    requires ClockAfter(q.now, qs) <= later < q.now + IDLE
    ensures Labelled(cs[k].keys)
    ensures !NoRoom(cs[k], StatesAfter(cs, ss, clock, [q] + qs)[k], IdOf(cs[k], q.values[k]), later)
  {
    hide RulePlan, GcraPlan, UsedSince, StateOk, IdOf;
    assert ConfigOk(cs[k]);
    assert ([q] + qs)[0] == q && ([q] + qs)[1..] == qs;
    if cs[k].keys != [] {
      var id := IdOf(cs[k], q.values[k]);
      DenialMarks(cs[k], ss[k], ms[k], clock, id, q.now);
      assert !Allowed(cs, ss, q);
      assert After(cs, ss, q)[k] == RulePlanned(cs[k], ss[k], id, q.now);
      RunStays(cs, After(cs, ss, q), q.now, qs, k, id, q.now);
      UsedHasRoom(cs[k], StatesAfter(cs, ss, clock, [q] + qs)[k], id, q.now, later);
    }
  }

  lemma DeniedThenAdmitted(c: Config, s: State, m: Buckets, clock: nat, id: Id, now: nat, later: nat)
    requires ConfigOk(c) && StateOk(c, s, m, clock) && clock <= now && later >= now + SECOND
    requires c.keys == [] ==> id == []
    ensures GcraPlan(Lookup(m, id), later, c.rate).Admit?
  {
  }

  // ---------------------------------------------------------- a request after a second of silence

  /** A second after the last request, a request is refused only for lack of room in some matching rule. */
  lemma SilenceClears(cs: seq<Config>, ss: seq<State>, ms: seq<Buckets>, clock: nat, q: Request)
    requires ConfigsOk(cs) && Refines(cs, ss, ms, clock) && Fits(cs, q) && q.now >= clock + SECOND
    ensures Allowed(cs, ss, q) <==> !AnyMatch(cs, q) || (q.built && !Crowded(cs, ss, q))
  {
    hide GcraPlan, NoRoom, StateOk, Matches, FramedPairs;
    SameDecision(cs, ss, ms, clock, q);
    forall k | 0 <= k < |cs| ensures !MapDenies(cs, ms, q, k) {
      assert ConfigOk(cs[k]);
      NoKeysNoId(cs[k], q.values[k]);
      DeniedThenAdmitted(cs[k], ss[k], ms[k], clock, IdOf(cs[k], q.values[k]), clock, q.now);
    }
  }

  lemma NoKeysNoId(c: Config, values: seq<seq<Byte>>)
    requires |values| == |c.keys| && Labelled(c.keys)
    ensures c.keys == [] ==> IdOf(c, values) == []
  {
  }

  /**
   Coming back after the announced second: a refused request is then allowed if and only if no matching rule is
   out of room, which the announced time, that of the first denying rule, does not tell.
   */
  lemma AnnouncedWait(cs: seq<Config>, ss: seq<State>, ms: seq<Buckets>, clock: nat, q: Request, later: nat)
    requires ConfigsOk(cs) && Refines(cs, ss, ms, clock) && Fits(cs, q)
    requires clock <= q.now && !Allowed(cs, ss, q) && q.built
    requires later >= q.now + SECOND
    ensures var again := q.(now := later);
            Allowed(cs, After(cs, ss, q), again) <==> !Crowded(cs, After(cs, ss, q), again)
  {
    hide Allowed, After, MapAfter, Crowded, StateOk, MapAllowed;
    StepRefines(cs, ss, ms, clock, q);
    var again := q.(now := later);
    SilenceClears(cs, After(cs, ss, q), MapAfter(cs, ms, q, Crowded(cs, ss, q)), q.now, again);
    MatchesStill(cs, ss, q, later);
  }

  lemma MatchesStill(cs: seq<Config>, ss: seq<State>, q: Request, later: nat)
    requires ConfigsOk(cs) && |ss| == |cs| && Fits(cs, q) && !Allowed(cs, ss, q)
    ensures AnyMatch(cs, q.(now := later))
  {
    hide Denied;
    var k :| 0 <= k < |cs| && Matches(cs[k], q);
    assert Matches(cs[k], q.(now := later));
  }
}
