/** The rate limiter's rules as objects: slot arrays updated in place, planned first and committed together. */
module LimitClient {
  import opened Bits
  import opened Gcra
  import opened HttpLimit
  import opened LengthPrefix
  import opened LimitTable
  import opened Wrappers
  import LimitId

  /** http_limit_plan; `slot` is -1 when the id is not held, `insert` is 1 to append and 2 to reuse. */
  datatype Entry = Entry(deny: bool, retry: nat, newTat: nat, slot: int, insert: nat, reuseAt: nat)

  /** The entry says what the table would do with the id. */
  ghost predicate Records(e: Entry, c: Config, s: State, id: Id, now: nat) {
    var plan := RulePlan(c, s, id, now);
    var p := PlaceOf(s.table, id, now);
    && (if plan.Admit? then !e.deny && e.newTat == plan.newTat else e.deny && e.retry == plan.retry)
    && (c.keys != [] && !e.deny ==>
          && (if p.Held? then e.slot == p.at else e.slot == -1)
          && (p.Append? <==> e.insert == 1)
          && (p.Reuse? <==> e.insert == 2) && (p.Reuse? ==> e.reuseAt == p.at))
  }

  class Rule {
    const config: Config
    const slots: array<Slot>
    var nslots: nat
    var tat: nat
    var have: bool

    ghost predicate Valid()
      reads this
    {
      slots.Length == SLOTS && nslots <= SLOTS
    }

    ghost function View(): (s: State)
      requires Valid()
      reads this, slots
    {
      State(if have then Some(tat) else None, slots[..nslots])
    }

    /** calloc of a configured rule. */
    constructor (c: Config)
      ensures Valid() && config == c && fresh(slots) && View() == State(None, [])
    {
      config := c;
      slots := new Slot[SLOTS](_ => Slot([], 0, 0, false));
      nslots, tat, have := 0, 0, false;
    }

    /** The scan for the slot that holds an id. */
    method Find(id: Id) returns (i: nat)
      requires Valid()
      ensures i == IndexOf(slots[..nslots], id)
    {
      i := 0;
      while i < nslots && slots[i].id != id
        invariant i <= nslots
        invariant forall j :: 0 <= j < i ==> slots[j].id != id
      {
        i := i + 1;
      }
      IndexIsFirst(slots[..nslots], id, i);
    }

    /** The scan for an idle slot. */
    method FindIdle(now: nat) returns (i: nat)
      requires Valid()
      ensures i == FirstIdle(slots[..nslots], now)
    {
      i := 0;
      while i < nslots && !IsIdle(slots[i], now)
        invariant i <= nslots
        invariant forall j :: 0 <= j < i ==> !IsIdle(slots[j], now)
      {
        i := i + 1;
      }
      IdleIsFirst(slots[..nslots], now, i);
    }

    /** http_limit_rule_plan. */
    method Plan(id: Id, now: nat) returns (e: Entry)
      requires Valid()
      modifies slots
      ensures Valid() && View() == RulePlanned(config, old(View()), id, now)
      ensures Records(e, config, old(View()), id, now)
    {
      hide GcraPlan, IndexOf, FirstIdle;
      if config.keys == [] {
        return Decided(GcraPlan(if have then Some(tat) else None, now, config.rate), -1, 0, 0);
      }
      var i := Find(id);
      if i < nslots {
        slots[i] := Touch(slots[i], now);
        assert slots[..nslots] == old(slots[..nslots])[i := slots[i]];
        return Decided(GcraPlan(if slots[i].have then Some(slots[i].tat) else None, now, config.rate), i, 0, 0);
      }
      if nslots < SLOTS {
        return Decided(GcraPlan(None, now, config.rate), -1, 1, 0);
      }
      var r := FindIdle(now);
      if r < nslots {
        return Decided(GcraPlan(None, now, config.rate), -1, 2, r);
      }
      return Entry(true, TABLE_RETRY, 0, -1, 0, 0);
    }

    /** http_limit_rule_commit of an entry planned when the rule's state was `was`. */
    method Commit(e: Entry, id: Id, now: nat, ghost was: State)
      requires Valid() && |was.table| <= SLOTS && View() == RulePlanned(config, was, id, now)
      requires Records(e, config, was, id, now) && !e.deny
      modifies this, slots
      ensures Valid() && View() == RuleCommitted(config, was, id, now, e.newTat)
    {
      hide GcraPlan, PlaceOf;
      if config.keys == [] {
        tat, have := e.newTat, true;
        return;
      }
      ghost var t := slots[..nslots];
      if e.slot >= 0 {
        slots[e.slot] := Touch(slots[e.slot].(tat := e.newTat, have := true), now);
        assert slots[..nslots] == t[e.slot := slots[e.slot]];
      } else if e.insert == 1 {
        slots[nslots] := Slot(id, e.newTat, now, true);
        nslots := nslots + 1;
        assert slots[..nslots] == t + [Slot(id, e.newTat, now, true)];
      } else if e.insert == 2 {
        slots[e.reuseAt] := Slot(id, e.newTat, now, true);
        assert slots[..nslots] == t[e.reuseAt := Slot(id, e.newTat, now, true)];
      }
    }
  }

  function Decided(p: Plan, slot: int, insert: nat, reuseAt: nat): (e: Entry) {
    if p.Admit? then Entry(false, 1, p.newTat, slot, insert, reuseAt)
    else Entry(true, p.retry, 0, slot, insert, reuseAt)
  }

  lemma IndexIsFirst(t: Table, id: Id, i: nat)
    requires i <= |t| && (i < |t| ==> t[i].id == id) && forall j :: 0 <= j < i ==> t[j].id != id
    ensures i == IndexOf(t, id)
  {
  }

  lemma IdleIsFirst(t: Table, now: nat, i: nat)
    requires i <= |t| && (i < |t| ==> IsIdle(t[i], now)) && forall j :: 0 <= j < i ==> !IsIdle(t[j], now)
    ensures i == FirstIdle(t, now)
  {
  }

  // ---------------------------------------------------------- the rules that match

  const RULES_MAX: nat := 32

  /** The matching rules among the first `n`, in order. */
  ghost function Hits(cs: seq<Config>, q: Request, n: nat): (h: seq<nat>)
    requires n <= |cs|
    ensures |h| <= n && forall j :: 0 <= j < |h| ==> h[j] < n && Matches(cs[h[j]], q)
    ensures forall i, j :: 0 <= i < j < |h| ==> h[i] < h[j]
    ensures forall k :: 0 <= k < n && Matches(cs[k], q) ==> k in h
  {
    if n == 0 then [] else Hits(cs, q, n - 1) + if Matches(cs[n - 1], q) then [n - 1] else []
  }

  /** Rule `k` after `planned` of the hits were planned and `committed` of them committed. */
  ghost function Halfway(c: Config, s: State, values: seq<seq<Byte>>, now: nat, planned: bool,
                         committed: bool): (r: State)
    requires |values| == |c.keys| && Labelled(c.keys)
  {
    var id := IdOf(c, values);
    var p := RulePlan(c, s, id, now);
    if committed && p.Admit? then RuleCommitted(c, s, id, now, p.newTat)
    else if planned then RulePlanned(c, s, id, now)
    else s
  }

  ghost function Configs(rules: seq<Rule>): (cs: seq<Config>)
    ensures |cs| == |rules|
  {
    seq(|rules|, k requires 0 <= k < |rules| => rules[k].config)
  }

  ghost predicate Distinct(rules: seq<Rule>) {
    forall i, j :: 0 <= i < j < |rules| ==> rules[i] != rules[j] && rules[i].slots != rules[j].slots
  }

  ghost predicate AllValid(rules: seq<Rule>)
    reads rules
  {
    forall k :: 0 <= k < |rules| ==> rules[k].Valid()
  }

  ghost function Views(rules: seq<Rule>): (ss: seq<State>)
    requires AllValid(rules)
    reads rules, set k | 0 <= k < |rules| :: rules[k].slots
    ensures |ss| == |rules|
  {
    seq(|rules|,
        k requires 0 <= k < |rules| && AllValid(rules) reads rules, set k | 0 <= k < |rules| :: rules[k].slots =>
          rules[k].View())
  }

  /** The loop that collects the matching rules. */
  method Collect(rules: seq<Rule>, q: Request) returns (hits: seq<nat>)
    requires |rules| <= RULES_MAX
    ensures hits == Hits(Configs(rules), q, |rules|)
  {
    hits := [];
    for i := 0 to |rules|
      invariant hits == Hits(Configs(rules), q, i)
    {
      if Matches(rules[i].config, q) {
        if |hits| < RULES_MAX { hits := hits + [i]; }
      }
    }
  }

  /** Rule `k` is `planned` and `committed` so far, having started as `s`. */
  ghost predicate Stands(r: Rule, s: State, q: Request, k: nat, planned: bool, committed: bool)
    requires ConfigOk(r.config) && k < |q.values| && |q.values[k]| == |r.config.keys|
    reads r, r.slots
  {
    && r.Valid() && |s.table| <= SLOTS
    && r.View() == Halfway(r.config, s, q.values[k], q.now, planned, committed)
  }

  ghost predicate Ready(rules: seq<Rule>, q: Request) {
    && Distinct(rules) && |q.values| == |rules|
    && forall k :: 0 <= k < |rules| ==> ConfigOk(rules[k].config) && |q.values[k]| == |rules[k].config.keys|
  }

  /** The entry of a hit, against the state its rule started in. */
  ghost predicate EntryOk(e: Entry, r: Rule, s: State, q: Request, k: nat, id: Id)
    requires ConfigOk(r.config) && k < |q.values| && |q.values[k]| == |r.config.keys|
  {
    id == IdOf(r.config, q.values[k]) && Records(e, r.config, s, id, q.now)
  }

  ghost predicate Increasing(hits: seq<nat>, n: nat) {
    && (forall j :: 0 <= j < |hits| ==> hits[j] < n)
    && (forall i, j :: 0 <= i < j < |hits| ==> hits[i] < hits[j])
  }

  ghost predicate AllStand(rules: seq<Rule>, ss: seq<State>, q: Request, planned: set<nat>, committed: set<nat>)
    requires Ready(rules, q) && |ss| == |rules|
    reads rules, set k | 0 <= k < |rules| :: rules[k].slots
  {
    forall k: nat :: k < |rules| ==> Stands(rules[k], ss[k], q, k, k in planned, k in committed)
  }

  /** Planning one more hit. */
  method PlanOne(rules: seq<Rule>, q: Request, h: nat, id: Id, ghost ss: seq<State>, ghost planned: set<nat>)
    returns (e: Entry)
    requires Ready(rules, q) && |ss| == |rules| && h < |rules| && h !in planned
    requires id == IdOf(rules[h].config, q.values[h])
    requires AllStand(rules, ss, q, planned, {})
    modifies rules[h].slots
    ensures EntryOk(e, rules[h], ss[h], q, h, id)
    ensures AllStand(rules, ss, q, planned + {h}, {})
  {
    hide Records, RulePlanned, RulePlan, IdOf, Halfway;
    assert Stands(rules[h], ss[h], q, h, false, false);
    HalfwayStarts(rules[h].config, ss[h], q.values[h], q.now);
    e := rules[h].Plan(id, q.now);
    forall k: nat | k < |rules| ensures Stands(rules[k], ss[k], q, k, k in planned + {h}, false) {
      assert old(Stands(rules[k], ss[k], q, k, k in planned, false));
    }
  }

  /** The first loop under the locks: plan every hit, and remember the first refusal. */
  method PlanAll(rules: seq<Rule>, q: Request, hits: seq<nat>, ids: seq<Id>, ghost ss: seq<State>)
    returns (entries: seq<Entry>, deny: bool, retry: nat, ghost first: nat)
    requires Ready(rules, q) && |ss| == |rules| && |ids| == |hits| && Increasing(hits, |rules|)
    requires forall j :: 0 <= j < |hits| ==> ids[j] == IdOf(rules[hits[j]].config, q.values[hits[j]])
    requires AllStand(rules, ss, q, {}, {})
    modifies set k | 0 <= k < |rules| :: rules[k].slots
    ensures EntriesOk(rules, ss, q, hits, ids, entries) && |entries| == |hits|
    ensures AllStand(rules, ss, q, Among(hits), {})
    ensures Summary(entries, deny, retry, first)
  {
    hide AllStand, EntryOk, IdOf, Summary, EntriesOk;
    entries, deny, retry, first := [], false, 1, 0;
    NoEntries(rules, ss, q, hits, ids);
    for i := 0 to |hits|
      invariant |entries| == i && EntriesOk(rules, ss, q, hits, ids, entries)
      invariant AllStand(rules, ss, q, Among(hits[..i]), {})
      invariant Summary(entries, deny, retry, first)
    {
      NotYet(hits, i);
      var e := PlanOne(rules, q, hits[i], ids[i], ss, Among(hits[..i]));
      MoreEntries(rules, ss, q, hits, ids, entries, e);
      SummaryNext(entries, e, deny, retry, first);
      entries := entries + [e];
      if e.deny && !deny {
        deny, retry, first := true, e.retry, i;
      }
    }
    assert hits[..|hits|] == hits;
  }

  /** The entries so far are those of the hits, in order. */
  ghost predicate EntriesOk(rules: seq<Rule>, ss: seq<State>, q: Request, hits: seq<nat>, ids: seq<Id>,
                            entries: seq<Entry>)
    requires Ready(rules, q) && |ss| == |rules| && |ids| == |hits| && Increasing(hits, |rules|)
  {
    && |entries| <= |hits|
    && forall j :: 0 <= j < |entries| ==> EntryOk(entries[j], rules[hits[j]], ss[hits[j]], q, hits[j], ids[j])
  }

  lemma NoEntries(rules: seq<Rule>, ss: seq<State>, q: Request, hits: seq<nat>, ids: seq<Id>)
    requires Ready(rules, q) && |ss| == |rules| && |ids| == |hits| && Increasing(hits, |rules|)
    ensures EntriesOk(rules, ss, q, hits, ids, []) && Summary([], false, 1, 0)
    ensures hits[..0] == [] && Among([]) == {}
  {
  }

  lemma MoreEntries(rules: seq<Rule>, ss: seq<State>, q: Request, hits: seq<nat>, ids: seq<Id>, entries: seq<Entry>,
                    e: Entry)
    requires Ready(rules, q) && |ss| == |rules| && |ids| == |hits| && Increasing(hits, |rules|) && |entries| < |hits|
    requires EntriesOk(rules, ss, q, hits, ids, entries)
    requires var h := hits[|entries|]; EntryOk(e, rules[h], ss[h], q, h, ids[|entries|])
    ensures EntriesOk(rules, ss, q, hits, ids, entries + [e])
  {
    hide EntryOk;
  }

  /** What the loop remembers: the first refusal. */
  ghost predicate Summary(entries: seq<Entry>, deny: bool, retry: nat, first: nat) {
    if deny then
      && first < |entries| && entries[first].deny && retry == entries[first].retry
      && forall i :: 0 <= i < first ==> !entries[i].deny
    else
      forall i :: 0 <= i < |entries| ==> !entries[i].deny
  }

  lemma SummaryNext(entries: seq<Entry>, e: Entry, deny: bool, retry: nat, first: nat)
    requires Summary(entries, deny, retry, first)
    ensures if e.deny && !deny then Summary(entries + [e], true, e.retry, |entries|)
            else Summary(entries + [e], deny, retry, first)
  {
  }

  ghost function Among(hits: seq<nat>): set<nat> {
    set h | h in hits
  }

  lemma NotYet(hits: seq<nat>, i: nat)
    requires i < |hits| && forall a, b :: 0 <= a < b < |hits| ==> hits[a] < hits[b]
    ensures hits[i] !in Among(hits[..i]) && Among(hits[..i + 1]) == Among(hits[..i]) + {hits[i]}
  {
    assert hits[..i + 1] == hits[..i] + [hits[i]];
  }

  lemma HalfwayStarts(c: Config, s: State, values: seq<seq<Byte>>, now: nat)
    requires |values| == |c.keys| && Labelled(c.keys)
    ensures Halfway(c, s, values, now, false, false) == s
    ensures Halfway(c, s, values, now, true, false) == RulePlanned(c, s, IdOf(c, values), now)
  {
  }

  /** Committing one more hit. */
  method CommitOne(rules: seq<Rule>, q: Request, h: nat, id: Id, e: Entry, ghost ss: seq<State>,
                   ghost planned: set<nat>, ghost committed: set<nat>)
    requires Ready(rules, q) && |ss| == |rules| && h < |rules| && h in planned && h !in committed
    requires EntryOk(e, rules[h], ss[h], q, h, id) && !e.deny
    requires AllStand(rules, ss, q, planned, committed)
    modifies rules[h], rules[h].slots
    ensures AllStand(rules, ss, q, planned, committed + {h})
  {
    hide RulePlanned, RulePlan, IdOf, Halfway, RuleCommitted, PlaceOf;
    assert Stands(rules[h], ss[h], q, h, true, false);
    HalfwayStarts(rules[h].config, ss[h], q.values[h], q.now);
    HalfwayEnds(e, rules[h].config, ss[h], q.values[h], q.now);
    rules[h].Commit(e, id, q.now, ss[h]);
    forall k: nat | k < |rules| ensures Stands(rules[k], ss[k], q, k, k in planned, k in committed + {h}) {
      assert old(Stands(rules[k], ss[k], q, k, k in planned, k in committed));
    }
  }

  /** The second loop: commit every hit. */
  method CommitAll(rules: seq<Rule>, q: Request, hits: seq<nat>, ids: seq<Id>, entries: seq<Entry>,
                   ghost ss: seq<State>)
    requires Ready(rules, q) && |ss| == |rules| && |ids| == |hits| == |entries| && Increasing(hits, |rules|)
    requires forall j :: 0 <= j < |hits| ==>
               EntryOk(entries[j], rules[hits[j]], ss[hits[j]], q, hits[j], ids[j]) && !entries[j].deny
    requires AllStand(rules, ss, q, Among(hits), {})
    modifies rules, set k | 0 <= k < |rules| :: rules[k].slots
    ensures AllStand(rules, ss, q, Among(hits), Among(hits))
  {
    for i := 0 to |hits|
      invariant AllStand(rules, ss, q, Among(hits), Among(hits[..i]))
    {
      hide AllStand, EntryOk;
      NotYet(hits, i);
      CommitOne(rules, q, hits[i], ids[i], entries[i], ss, Among(hits), Among(hits[..i]));
    }
    assert hits[..|hits|] == hits;
  }

  lemma HalfwayEnds(e: Entry, c: Config, s: State, values: seq<seq<Byte>>, now: nat)
    requires |values| == |c.keys| && Labelled(c.keys) && Records(e, c, s, IdOf(c, values), now) && !e.deny
    ensures Halfway(c, s, values, now, true, true) == RuleCommitted(c, s, IdOf(c, values), now, e.newTat)
  {
  }

  /** The normalised values of every rule's keys. */
  function ValuesOf(rules: seq<Rule>, raws: seq<seq<LimitId.Raw>>): (vs: seq<seq<seq<Byte>>>)
    requires Told(rules, raws)
    ensures |vs| == |rules|
    ensures forall k :: 0 <= k < |rules| ==> vs[k] == LimitId.Normals(rules[k].config.keys, raws[k])
  {
    seq(|rules|, k requires 0 <= k < |rules| => LimitId.Normals(rules[k].config.keys, raws[k]))
  }

  /** What the request says for every key of every rule. */
  ghost predicate Told(rules: seq<Rule>, raws: seq<seq<LimitId.Raw>>) {
    |raws| == |rules| && forall k :: 0 <= k < |rules| ==> |raws[k]| == |rules[k].config.keys|
  }

  /** Every rule keeps to the configured number of keys and every address to its buffer. */
  ghost predicate AllSmall(rules: seq<Rule>, raws: seq<seq<LimitId.Raw>>)
    requires Told(rules, raws)
  {
    forall k :: 0 <= k < |rules| ==> LimitId.Small(rules[k].config.keys, raws[k])
  }

  /** Ids of all hits, or a failed allocation; `memory(k, m)` is allocation `m` for the id of rule `k`. */
  method BuildIds(rules: seq<Rule>, ghost q: Request, raws: seq<seq<LimitId.Raw>>, hits: seq<nat>,
                  memory: (nat, nat) -> bool)
    returns (ids: Option<seq<Id>>)
    requires Ready(rules, q) && Increasing(hits, |rules|) && Told(rules, raws) && q.values == ValuesOf(rules, raws)
    ensures ids.Some? ==> |ids.value| == |hits|
    ensures ids.Some? ==> forall j :: 0 <= j < |hits| ==> ids.value[j] == IdOf(rules[hits[j]].config, q.values[hits[j]])
    ensures (forall k, m :: memory(k, m)) && AllSmall(rules, raws) ==> ids.Some?
  {
    var built: seq<Id> := [];
    for i := 0 to |hits|
      invariant |built| == i
      invariant forall j :: 0 <= j < i ==> built[j] == IdOf(rules[hits[j]].config, q.values[hits[j]])
    {
      hide FramedPairs, LimitId.Small, LimitId.Normals;
      var h: nat := hits[i];
      var id := LimitId.BuildId(rules[h].config.keys, raws[h], (m: nat) => memory(h, m));
      if id.None? { return None; }
      built := built + [id.value];
    }
    ids := Some(built);
  }

  ghost predicate EntriesTell(cs: seq<Config>, ss: seq<State>, q: Request, hits: seq<nat>, entries: seq<Entry>)
    requires ConfigsOk(cs) && |ss| == |cs| && Fits(cs, q) && hits == Hits(cs, q, |cs|)
  {
    |entries| == |hits| && forall j :: 0 <= j < |hits| ==> DeniedBy(cs, ss, q, hits[j]) == entries[j].deny
  }

  lemma DenierIsHit(cs: seq<Config>, ss: seq<State>, q: Request, k: nat) returns (j: nat)
    requires ConfigsOk(cs) && |ss| == |cs| && Fits(cs, q) && k < |cs| && DeniedBy(cs, ss, q, k)
    ensures j < |Hits(cs, q, |cs|)| && Hits(cs, q, |cs|)[j] == k
  {
    hide RulePlan, IdOf, Hits;
    assert Matches(cs[k], q);
    assert k in Hits(cs, q, |cs|);
    j :| 0 <= j < |Hits(cs, q, |cs|)| && Hits(cs, q, |cs|)[j] == k;
  }

  /** The hits with their entries decide as the rules together do. */
  lemma HitsDecide(cs: seq<Config>, ss: seq<State>, q: Request, hits: seq<nat>, entries: seq<Entry>, deny: bool,
                   retry: nat, first: nat)
    requires ConfigsOk(cs) && |ss| == |cs| && Fits(cs, q) && hits == Hits(cs, q, |cs|)
    requires EntriesTell(cs, ss, q, hits, entries) && Summary(entries, deny, retry, first)
    ensures Denied(cs, ss, q) <==> deny
    ensures deny ==> hits[first] == Culprit(cs, ss, q, 0)
  {
    hide DeniedBy, Culprit, Hits;
    if deny {
      assert DeniedBy(cs, ss, q, hits[first]);
      var k := Culprit(cs, ss, q, 0);
      var j := DenierIsHit(cs, ss, q, k);
      assert entries[j].deny;
    } else if Denied(cs, ss, q) {
      var k: nat :| k < |cs| && DeniedBy(cs, ss, q, k);
      var j := DenierIsHit(cs, ss, q, k);
    }
  }

  /** Every rule starts where it is. */
  lemma AllStart(rules: seq<Rule>, q: Request)
    requires Ready(rules, q) && AllValid(rules)
    ensures ConfigsOk(Configs(rules)) && Fits(Configs(rules), q)
    ensures AllStand(rules, Views(rules), q, {}, {})
  {
    forall k: nat | k < |rules| ensures Stands(rules[k], Views(rules)[k], q, k, false, false) {
      HalfwayStarts(rules[k].config, Views(rules)[k], q.values[k], q.now);
    }
  }

  /** Where the rules stand is where the specification puts them. */
  lemma AllEnd(rules: seq<Rule>, ss: seq<State>, q: Request, hits: seq<nat>, committed: set<nat>)
    requires Ready(rules, q) && |ss| == |rules| && AllStand(rules, ss, q, Among(hits), committed) && q.built
    requires ConfigsOk(Configs(rules)) && Fits(Configs(rules), q) && hits == Hits(Configs(rules), q, |rules|)
    requires committed == if Allowed(Configs(rules), ss, q) then Among(hits) else {}
    ensures AllValid(rules) && Views(rules) == After(Configs(rules), ss, q)
  {
    hide IdOf, RulePlan, RulePlanned, RuleCommitted, Allowed, Hits;
    var cs := Configs(rules);
    forall k: nat | k < |rules|
      ensures rules[k].Valid() && rules[k].View() == After(cs, ss, q)[k]
    {
      assert Stands(rules[k], ss[k], q, k, k in Among(hits), k in committed);
      assert Matches(cs[k], q) <==> k in Among(hits);
    }
  }

  lemma NothingMatches(cs: seq<Config>, ss: seq<State>, q: Request)
    requires ConfigsOk(cs) && |ss| == |cs| && Fits(cs, q) && (!AnyMatch(cs, q) || !q.built)
    ensures After(cs, ss, q) == ss
    ensures Answer(cs, ss, q) == if AnyMatch(cs, q) then Refuse(1) else Allow
  {
    hide IdOf, RulePlan;
  }

  lemma EntriesDecide(rules: seq<Rule>, ss: seq<State>, q: Request, hits: seq<nat>, ids: seq<Id>, entries: seq<Entry>,
                      j: nat)
    requires Ready(rules, q) && |ss| == |rules| && |ids| == |hits| == |entries| && j < |hits| && hits[j] < |rules|
    requires ConfigsOk(Configs(rules)) && Fits(Configs(rules), q) && hits == Hits(Configs(rules), q, |rules|)
    requires EntryOk(entries[j], rules[hits[j]], ss[hits[j]], q, hits[j], ids[j])
    ensures DeniedBy(Configs(rules), ss, q, hits[j]) == entries[j].deny
    ensures entries[j].deny ==>
              var k := hits[j]; var c := Configs(rules)[k];
              entries[j].retry == RulePlan(c, ss[k], IdOf(c, q.values[k]), q.now).retry
  {
    hide RulePlan, IdOf, PlaceOf;
    assert Configs(rules)[hits[j]] == rules[hits[j]].config;
  }

  class Limiter {
    const rules: seq<Rule>

    constructor (rules: seq<Rule>)
      ensures this.rules == rules
    {
      this.rules := rules;
    }

    /**
     http_limit_check: answer and new state are those of the specification; `raws[k]` is what the request says for the
     keys of rule `k`, and `memory(k, m)` allocation `m` for its id.
     */
    method Check(uri: seq<Byte>, raws: seq<seq<LimitId.Raw>>, now: nat, memory: (nat, nat) -> bool)
      returns (r: Outcome, ghost built: bool)
      requires |rules| <= RULES_MAX && AllValid(rules) && Told(rules, raws)
      requires Ready(rules, Request(uri, ValuesOf(rules, raws), now, true))
      modifies rules, set k | 0 <= k < |rules| :: rules[k].slots
      ensures var cs := Configs(rules); var q := Request(uri, ValuesOf(rules, raws), now, built);
              && AllValid(rules) && ConfigsOk(cs) && Fits(cs, q)
              && Views(rules) == After(cs, old(Views(rules)), q)
              && r == Answer(cs, old(Views(rules)), q)
      ensures (forall k, m :: memory(k, m)) && AllSmall(rules, raws) ==> built
    {
      hide After, Answer, Hits, AllStand, EntryOk, IdOf, Views, Increasing, LimitId.Small, ValuesOf;
      var q := Request(uri, ValuesOf(rules, raws), now, true);
      ghost var cs, ss := Configs(rules), Views(rules);
      AllStart(rules, q);
      var hits := Collect(rules, q);
      HitsIncrease(cs, q);
      if hits == [] {
        NothingMatches(cs, ss, q);
        return Allow, true;
      }
      var ids := BuildIds(rules, q, raws, hits, memory);
      if ids.None? {
        NothingMatches(cs, ss, q.(built := false));
        HitsSame(cs, q, q.(built := false));
        return Refuse(1), false;
      }
      var entries, deny, retry, first := PlanAll(rules, q, hits, ids.value, ss);
      assert forall j :: 0 <= j < |hits| ==> EntryOk(entries[j], rules[hits[j]], ss[hits[j]], q, hits[j], ids.value[j]);
      forall j | 0 <= j < |hits| ensures DeniedBy(cs, ss, q, hits[j]) == entries[j].deny {
        EntriesDecide(rules, ss, q, hits, ids.value, entries, j);
      }
      HitsDecide(cs, ss, q, hits, entries, deny, retry, first);
      if deny {
        EntriesDecide(rules, ss, q, hits, ids.value, entries, first);
        RefusedAnswer(cs, ss, q, hits[first]);
        r := Refuse(retry);
      } else {
        CommitAll(rules, q, hits, ids.value, entries, ss);
        r := Allow;
      }
      AllEnd(rules, ss, q, hits, if deny then {} else Among(hits));
      built := true;
    }
  }

  lemma HitsIncrease(cs: seq<Config>, q: Request)
    ensures Increasing(Hits(cs, q, |cs|), |cs|)
    ensures AnyMatch(cs, q) <==> Hits(cs, q, |cs|) != []
  {
    if Hits(cs, q, |cs|) != [] { assert Matches(cs[Hits(cs, q, |cs|)[0]], q); }
  }

  lemma HitsSame(cs: seq<Config>, q: Request, r: Request)
    requires q.uri == r.uri
    ensures AnyMatch(cs, q) <==> AnyMatch(cs, r)
  {
    forall k | 0 <= k < |cs| ensures Matches(cs[k], q) <==> Matches(cs[k], r) { }
  }

  lemma RefusedAnswer(cs: seq<Config>, ss: seq<State>, q: Request, k: nat)
    requires ConfigsOk(cs) && |ss| == |cs| && Fits(cs, q) && k < |cs| && k == Culprit(cs, ss, q, 0) && q.built
    requires DeniedBy(cs, ss, q, k)
    ensures !Allowed(cs, ss, q) && Labelled(cs[k].keys)
    ensures Answer(cs, ss, q) == Refuse(RulePlan(cs[k], ss[k], IdOf(cs[k], q.values[k]), q.now).retry)
  {
    hide RulePlan, IdOf, Culprit;
    assert ConfigOk(cs[k]) && Matches(cs[k], q);
  }
}
