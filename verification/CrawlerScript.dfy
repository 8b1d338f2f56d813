/**
 The order of a page's requests: over every run each page sends a prefix of one script, a page that is done has
 sent all of it, and which events let a page go on to its metrics or fail it.
 */
module CrawlerScript {
  import opened Crawler
  import opened CrawlerSafety
  import opened Wrappers

  /** The requests of a page that runs to its end. */
  function Script(env: Env, url: nat): (s: seq<Kind>) {
    [Context, Target, Attach, Domain, Domain, Domain, Domain, Navigate, Perf, Entries]
    + (if env.shot(url) then [Shot] else []) + [Close, Dispose]
  }

  /** Where a request stands in the script, the first of the four domain requests for all of them. */
  function Place(env: Env, url: nat, kind: Kind): (n: nat) {
    match kind
    case Context => 0
    case Target => 1
    case Attach => 2
    case Domain => 3
    case Navigate => 7
    case Perf => 8
    case Entries => 9
    case Shot => 10
    case Close => if env.shot(url) then 11 else 10
    case Dispose => if env.shot(url) then 12 else 11
  }

  /** The pending entries of a page are all for one kind of request. */
  ghost predicate OnlyAwaits(pending: seq<Pending>, p: nat, kind: Kind) {
    forall i :: 0 <= i < |pending| && pending[i].page == p ==> pending[i].kind == kind
  }

  predicate NoTimer(g: Page) {
    !g.idleTimer && !g.navTimer
  }

  /** What a page has sent fits its step and its requests in flight. */
  ghost predicate StepFits(env: Env, pending: seq<Pending>, p: nat, g: Page) {
    match g.stage
    case Busy(k) =>
      && OnlyAwaits(pending, p, k) && (k.Shot? ==> env.shot(g.url)) && NoTimer(g)
      && (if k.Domain? then g.domains <= 4 && |g.asked| == 7 - g.domains + g.waiting <= 7
          else g.waiting <= 1 && |g.asked| == Place(env, g.url, k) + g.waiting)
    case WaitIdle => g.waiting == 0 && |g.asked| == 8
    case _ => false
  }

  ghost predicate Follows(env: Env, g: Page) {
    g.asked <= Script(env, g.url) && (g.stage.Done? ==> g.asked == Script(env, g.url))
  }

  ghost predicate PageScript(env: Env, pending: seq<Pending>, p: nat, g: Page) {
    Follows(env, g) && (g.live && !g.finished ==> StepFits(env, pending, p, g))
  }

  ghost predicate AllOwned(w: World) {
    forall i :: 0 <= i < |w.pending| ==> w.pending[i].page < |w.store|
  }

  /** Every page but one keeps to its script. */
  ghost predicate OthersScript(env: Env, w: World, p: nat) {
    AllOwned(w) && forall q: nat :: q < |w.store| && q != p ==> PageScript(env, w.pending, q, w.store[q])
  }

  ghost predicate AllScript(env: Env, w: World) {
    AllOwned(w) && forall q: nat :: q < |w.store| ==> PageScript(env, w.pending, q, w.store[q])
  }

  /** Requests sent, idle count and step of every page but one are as they were. */
  ghost predicate Apart(w: World, r: World, p: nat) {
    && |w.store| <= |r.store|
    && forall q: nat :: q < |w.store| && q != p ==>
         && r.store[q].asked == w.store[q].asked && r.store[q].ticks == w.store[q].ticks
         && r.store[q].stage == w.store[q].stage && (w.store[q].finished ==> r.store[q].finished)
  }

  /** The same for one page. */
  ghost predicate Still(a: Page, b: Page) {
    b.asked == a.asked && b.ticks == a.ticks && b.stage == a.stage
  }

  lemma ApartTrans(a: World, b: World, c: World, p: nat)
    requires Apart(a, b, p) && Apart(b, c, p)
    ensures Apart(a, c, p)
  {
  }

  // ---------------------------------------------------------- one request

  lemma ScriptAt(env: Env, url: nat, kind: Kind)
    requires kind.Shot? ==> env.shot(url)
    ensures |Script(env, url)| == if env.shot(url) then 13 else 12
    ensures Place(env, url, kind) < |Script(env, url)| && Script(env, url)[Place(env, url, kind)] == kind
    ensures forall i :: 3 <= i < 7 ==> Script(env, url)[i] == Domain
  {
  }

  lemma Longer(env: Env, url: nat, asked: seq<Kind>, kind: Kind)
    requires asked <= Script(env, url) && |asked| < |Script(env, url)| && Script(env, url)[|asked|] == kind
    ensures asked + [kind] <= Script(env, url)
  {
  }

  /** The page is in a step whose request, or next domain request, has not been sent. */
  ghost predicate MaySend(env: Env, w: World, p: nat, kind: Kind)
    requires p < |w.store|
  {
    var g := w.store[p];
    && g.live && !g.finished && g.stage == Busy(kind) && g.asked <= Script(env, g.url) && NoTimer(g)
    && OnlyAwaits(w.pending, p, kind) && (kind.Shot? ==> env.shot(g.url))
    && (if kind.Domain? then g.domains <= 4 && |g.asked| == 7 - g.domains + g.waiting < 7
        else g.waiting == 0 && |g.asked| == Place(env, g.url, kind))
  }

  /** What a send may change of its page. */
  ghost predicate SentBy(a: Page, b: Page, kind: Kind) {
    || b == a
    || b == a.(waiting := a.waiting + 1, lost := b.lost, asked := a.asked + [kind])
  }

  /** A new entry of one page does not concern the others. */
  lemma OthersAppend(env: Env, pending: seq<Pending>, e: Pending, q: nat, g: Page)
    requires PageScript(env, pending, q, g) && e.page != q
    ensures PageScript(env, pending + [e], q, g)
  {
    hide Script, Place;
  }

  lemma SentPage(env: Env, pending: seq<Pending>, p: nat, g: Page, kind: Kind, h: Page)
    requires g.live && !g.finished && g.stage == Busy(kind) && g.asked <= Script(env, g.url) && NoTimer(g)
    requires OnlyAwaits(pending, p, kind) && (kind.Shot? ==> env.shot(g.url)) && SentBy(g, h, kind)
    requires if kind.Domain? then g.domains <= 4 && |g.asked| == 7 - g.domains + g.waiting < 7
             else g.waiting == 0 && |g.asked| == Place(env, g.url, kind)
    ensures PageScript(env, pending, p, h)
  {
    hide Script, Place, OnlyAwaits;
    ScriptAt(env, g.url, kind);
    DomainPlace(env, g.url);
    if kind.Domain? { DomainsFollow(env, g.url, g.asked); }
    Longer(env, g.url, g.asked, kind);
  }

  lemma DomainPlace(env: Env, url: nat)
    ensures Place(env, url, Domain) == 3 && Place(env, url, Navigate) == 7
  {
  }

  lemma DomainsFollow(env: Env, url: nat, asked: seq<Kind>)
    requires 3 <= |asked| < 7
    ensures Script(env, url)[|asked|] == Domain
  {
  }

  lemma SendScript(env: Env, w: World, p: nat, kind: Kind)
    requires p < |w.store| && OthersScript(env, w, p) && MaySend(env, w, p, kind)
    ensures var r := Send(env, w, p, kind);
            && AllScript(env, r) && Apart(w, r, p) && |r.store| == |w.store| && SentBy(w.store[p], r.store[p], kind)
            && r.timers == w.timers && OnlyAwaits(r.pending, p, kind)
  {
    hide PageScript, Script, Place;
    var r := Send(env, w, p, kind);
    assert SentBy(w.store[p], r.store[p], kind);
    SentPage(env, r.pending, p, w.store[p], kind, r.store[p]);
    forall q: nat | q < |r.store| ensures PageScript(env, r.pending, q, r.store[q]) {
      if q != p {
        assert PageScript(env, w.pending, q, w.store[q]);
        OthersAppend(env, w.pending, Pending(w.nextId, kind, p), q, w.store[q]);
      }
    }
  }

  lemma AdvanceScript(env: Env, w: World, p: nat, kind: Kind)
    requires p < |w.store| && OthersScript(env, w, p)
    requires MaySend(env, SetPage(w, p, w.store[p].(stage := Busy(kind))), p, kind)
    ensures var r := Advance(env, w, p, kind);
            && AllScript(env, r) && Apart(w, r, p) && |r.store| == |w.store| && r.timers == w.timers
            && SentBy(w.store[p].(stage := Busy(kind)), r.store[p], kind) && OnlyAwaits(r.pending, p, kind)
  {
    hide Send, PageScript, MaySend;
    var n := SetPage(w, p, w.store[p].(stage := Busy(kind)));
    OthersTweak(env, w, p, n.store[p]);
    SendScript(env, n, p, kind);
  }

  lemma OthersTweak(env: Env, w: World, p: nat, g: Page)
    requires p < |w.store| && OthersScript(env, w, p)
    ensures OthersScript(env, SetPage(w, p, g), p) && Apart(w, SetPage(w, p, g), p)
  {
    hide PageScript;
  }

  lemma Tweak(env: Env, w: World, p: nat, g: Page)
    requires p < |w.store| && OthersScript(env, w, p) && PageScript(env, w.pending, p, g)
    ensures AllScript(env, SetPage(w, p, g)) && Apart(w, SetPage(w, p, g), p)
  {
    hide PageScript;
  }

  lemma AllIsOthers(env: Env, w: World, p: nat)
    requires AllScript(env, w)
    ensures OthersScript(env, w, p)
  {
    hide PageScript;
  }

  // ---------------------------------------------------------- slots

  lemma StartScript(env: Env, w: World, url: nat)
    requires AllScript(env, w)
    ensures var r := StartPage(env, w, url); AllScript(env, r) && Apart(w, r, |w.store|) && r.timers == w.timers
  {
    hide Send, Script, Place;
    var p := |w.store|;
    var g := NewPage(url).(stage := Busy(Context));
    var n := w.(store := w.store + [g]);
    assert Place(env, url, Context) == 0 by { ScriptAt(env, url, Context); FirstPlace(env, url); }
    forall q: nat | q < p ensures PageScript(env, n.pending, q, n.store[q]) {
      assert PageScript(env, w.pending, q, w.store[q]);
    }
    SendScript(env, n, p, Context);
    var sent := Send(env, n, p, Context);
    var h := sent.store[p].(deadline := w.now + BUDGET_MIN + env.budget(url));
    assert PageScript(env, sent.pending, p, sent.store[p]);
    Tweak(env, sent, p, h);
    var r := SetPage(sent, p, h).(active := [p] + w.active);
    forall q: nat | q < |r.store| ensures PageScript(env, r.pending, q, r.store[q]) {
      assert PageScript(env, SetPage(sent, p, h).pending, q, SetPage(sent, p, h).store[q]);
    }
  }

  lemma FirstPlace(env: Env, url: nat)
    ensures Place(env, url, Context) == 0
  {
  }

  /** Only fields other than pages and entries differ. */
  lemma SameScript(env: Env, w: World, r: World)
    requires AllScript(env, w) && r.store == w.store && r.pending == w.pending
    ensures AllScript(env, r)
  {
    hide PageScript;
    forall q: nat | q < |r.store| ensures PageScript(env, r.pending, q, r.store[q]) {
      assert PageScript(env, w.pending, q, w.store[q]);
    }
  }

  lemma {:induction false} FillScript(env: Env, w: World, left: nat)
    requires AllScript(env, w)
    ensures var r := Fill(env, w, left); AllScript(env, r) && Apart(w, r, |w.store|) && r.timers == w.timers
    decreases if w.queue.Some? && w.idx <= |w.queue.value| then |w.queue.value| - w.idx else 0
  {
    hide AllScript, StartPage, Apart;
    if w.queue.None? || left == 0 || w.idx >= |w.queue.value| || |w.active| >= env.slots {
      ApartSelf(w, |w.store|);
    } else {
      var url := w.queue.value[w.idx];
      var next := w.(idx := w.idx + 1, taken := w.taken + [url]);
      var n := TakeNext(env, w);
      if Starts(env, w) {
        SameScript(env, w, next.(starts := w.starts + 1));
        StartScript(env, next.(starts := w.starts + 1), url);
        ApartFields(w, next.(starts := w.starts + 1), n, |w.store|);
      } else {
        SameScript(env, w, n);
        ApartSelf(n, |w.store|);
        ApartFields(w, n, n, |w.store|);
      }
      FillScript(env, n, if Starts(env, w) then left - 1 else left);
      ApartGrow(w, n, Fill(env, w, left));
    }
  }

  lemma ApartSelf(w: World, p: nat)
    ensures Apart(w, w, p)
  {
  }

  lemma ApartGrow(a: World, b: World, c: World)
    requires Apart(a, b, |a.store|) && Apart(b, c, |b.store|)
    ensures Apart(a, c, |a.store|)
  {
  }

  lemma FillSlotsScript(env: Env, w: World)
    requires AllScript(env, w)
    ensures var r := FillSlots(env, w); AllScript(env, r) && Apart(w, r, |w.store|) && r.timers == w.timers
  {
    hide AllScript, Fill;
    ApartSelf(w, |w.store|);
    if w.connected && w.queue.Some? {
      FillScript(env, w, env.batch);
      var f := Fill(env, w, env.batch);
      SameScript(env, f, MaybeFinish(f));
    }
  }

  lemma OnPageDoneScript(env: Env, w: World, p: nat)
    requires AllScript(env, w)
    ensures var r := OnPageDone(env, w, p); AllScript(env, r) && Apart(w, r, |w.store|) && r.timers == w.timers
  {
    hide AllScript, FillSlots, Apart, Remove;
    var n := w.(active := Remove(w.active, p), done := w.done + 1, reported := w.reported + [p]);
    SameScript(env, w, n);
    FillSlotsScript(env, n);
    ApartFields(w, n, FillSlots(env, n), |w.store|);
  }

  lemma ApartFields(w: World, n: World, r: World, p: nat)
    requires n.store == w.store && Apart(n, r, p)
    ensures Apart(w, r, p)
  {
  }

  // ---------------------------------------------------------- the end of a page

  lemma EmitDoneScript(env: Env, w: World, p: nat)
    requires p < |w.store| && AllScript(env, w)
    ensures var r := EmitDone(env, w, p); AllScript(env, r) && Apart(w, r, |w.store|) && r.timers == w.timers
  {
    hide OnPageDone, Script, Place, OnlyAwaits;
    ApartSelf(w, |w.store|);
    var g := w.store[p];
    if g.live && !g.emitted {
      var n := SetPage(w, p, g.(emitted := true));
      AllIsOthers(env, w, p);
      assert PageScript(env, w.pending, p, g);
      Tweak(env, w, p, n.store[p]);
      OnPageDoneScript(env, n, p);
    }
  }

  lemma FinishedFollows(env: Env, pending: seq<Pending>, p: nat, g: Page)
    requires Follows(env, g) && (!g.live || g.finished)
    ensures PageScript(env, pending, p, g)
  {
  }

  lemma TryFinishScript(env: Env, w: World, p: nat)
    requires p < |w.store| && OthersScript(env, w, p) && Follows(env, w.store[p])
    ensures var r := TryFinish(env, w, p); AllScript(env, r) && Apart(w, r, |w.store|) && r.timers == w.timers
  {
    hide EmitDone, PageScript, Script;
    ApartSelf(w, |w.store|);
    var g := w.store[p];
    if !g.live || g.finished {
      FinishedFollows(env, w.pending, p, g);
      Tweak(env, w, p, g);
      assert SetPage(w, p, g) == w;
    } else {
      var h := StopTimers(g.(finished := true));
      FinishedFollows(env, w.pending, p, h);
      Tweak(env, w, p, h);
      EmitDoneScript(env, SetPage(w, p, h), p);
    }
  }

  lemma PageErrorScript(env: Env, w: World, p: nat)
    requires p < |w.store| && OthersScript(env, w, p) && Follows(env, w.store[p])
    ensures var r := PageError(env, w, p);
            && AllScript(env, r) && Apart(w, r, p) && r.timers == w.timers
            && r.store[p].asked == w.store[p].asked && r.store[p].ticks == w.store[p].ticks
            && (if w.store[p].live && !w.store[p].finished then r.store[p].stage == Failed && r.store[p].finished
                else r.store[p].stage == w.store[p].stage)
  {
    hide TryFinish, PageScript, Script;
    var g := w.store[p];
    var m := Mute(w, env.extra(w.nextId));
    var n := SetPage(m, p, g.(stage := Failed));
    OthersFields(env, w, m, p);
    OthersTweak(env, m, p, g.(stage := Failed));
    TryFinishScript(env, w, p);
    TryFinishScript(env, n, p);
    FinishSets(env, n, p);
    if !g.live || g.finished {
      assert TryFinish(env, w, p) == w by { Unfinished(env, w, p); }
    }
  }

  lemma FinishSets(env: Env, w: World, p: nat)
    requires p < |w.store| && OthersScript(env, w, p) && Follows(env, w.store[p])
    ensures p < |TryFinish(env, w, p).store| && (w.store[p].live ==> TryFinish(env, w, p).store[p].finished)
  {
    hide EmitDone, PageScript, Script;
    var g := w.store[p];
    if g.live && !g.finished {
      var h := StopTimers(g.(finished := true));
      FinishedFollows(env, w.pending, p, h);
      Tweak(env, w, p, h);
      EmitDoneScript(env, SetPage(w, p, h), p);
    }
  }

  lemma Unfinished(env: Env, w: World, p: nat)
    requires p < |w.store| && (!w.store[p].live || w.store[p].finished)
    ensures TryFinish(env, w, p) == w
  {
  }

  lemma OthersFields(env: Env, w: World, r: World, p: nat)
    requires OthersScript(env, w, p) && r.store == w.store && r.pending == w.pending
    ensures OthersScript(env, r, p)
  {
    hide PageScript;
  }

  lemma ForceFinishScript(env: Env, w: World, p: nat)
    requires p < |w.store| && AllScript(env, w)
    ensures var r := ForceFinish(env, w, p); AllScript(env, r) && Apart(w, r, |w.store|) && r.timers == w.timers
  {
    hide OnPageDone, PageScript, Script;
    ApartSelf(w, |w.store|);
    var g := w.store[p];
    if !g.emitted {
      AllIsOthers(env, w, p);
      assert PageScript(env, w.pending, p, g);
      var h := StopTimers(g.(finished := true, live := false, waiting := 0, deadline := 0, emitted := true));
      ScriptFollows(env, w.pending, p, g);
      FinishedFollows(env, w.pending, p, h);
      Tweak(env, w, p, h);
      OnPageDoneScript(env, SetPage(w, p, h), p);
    }
  }

  lemma ScriptFollows(env: Env, pending: seq<Pending>, p: nat, g: Page)
    requires PageScript(env, pending, p, g)
    ensures Follows(env, g)
  {
  }

  // ---------------------------------------------------------- answers

  /** The page is between two steps: what it awaited has been answered. */
  ghost predicate Answered(env: Env, w: World, p: nat, kind: Kind)
    requires p < |w.store|
  {
    var g := w.store[p];
    && g.live && !g.finished && g.stage == Busy(kind) && g.asked <= Script(env, g.url)
    && (kind.Shot? ==> env.shot(g.url))
    && EntriesOf(w.pending, p) <= g.waiting && OnlyAwaits(w.pending, p, kind) && NoTimer(g)
    && (if kind.Domain? then g.domains <= 4 && |g.asked| == 7 - g.domains + g.waiting <= 7
        else g.waiting == 0 && |g.asked| == Place(env, g.url, kind) + 1)
  }

  lemma {:induction false} NoneAwaited(pending: seq<Pending>, p: nat, kind: Kind)
    requires EntriesOf(pending, p) == 0
    ensures OnlyAwaits(pending, p, kind)
  {
    if pending != [] {
      NoneAwaited(pending[1..], p, kind);
      forall i | 0 <= i < |pending| && pending[i].page == p ensures pending[i].kind == kind {
        assert i > 0 && pending[1..][i - 1] == pending[i];
      }
    }
  }

  /** A page with nothing in flight goes on to the next request of its script. */
  lemma NextScript(env: Env, w: World, p: nat, next: Kind)
    requires p < |w.store| && OthersScript(env, w, p)
    requires var g := w.store[p];
             && g.live && !g.finished && g.asked <= Script(env, g.url) && (next.Shot? ==> env.shot(g.url)) && NoTimer(g)
             && EntriesOf(w.pending, p) == 0 == g.waiting && !next.Domain? && |g.asked| == Place(env, g.url, next)
    ensures var r := Advance(env, w, p, next);
            && AllScript(env, r) && Apart(w, r, p) && |r.store| == |w.store| && r.timers == w.timers
            && SentBy(w.store[p].(stage := Busy(next)), r.store[p], next)
  {
    hide Advance, Script, Place, OthersScript, AllScript;
    NoneAwaited(w.pending, p, next);
    AdvanceScript(env, w, p, next);
  }

  lemma Places(env: Env, url: nat)
    ensures Place(env, url, Target) == 1 && Place(env, url, Attach) == 2 && Place(env, url, Domain) == 3
    ensures Place(env, url, Context) == 0 && Place(env, url, Navigate) == 7 && Place(env, url, Perf) == 8
    ensures Place(env, url, Entries) == 9 && Place(env, url, Shot) == 10
    ensures Place(env, url, Close) == (if env.shot(url) then 11 else 10)
    ensures Place(env, url, Dispose) == Place(env, url, Close) + 1
    ensures |Script(env, url)| == Place(env, url, Dispose) + 1
  {
  }

  /** What an answer does to its own page. */
  ghost predicate AnswerEffect(env: Env, w: World, a: Page, b: Page, kind: Kind, ok: bool) {
    && a.asked <= b.asked && b.ticks <= a.ticks
    && (Perf in b.asked && Perf !in a.asked ==> kind == Navigate && !env.timer(w.timers))
    && (b.stage == Failed ==> (!ok && kind in {Context, Target, Attach}) || (kind == Attach && !env.timer(w.timers)))
    && (!ok && kind in {Context, Target, Attach} ==> b.stage == Failed && b.finished && b.asked == a.asked)
  }

  lemma SentEffect(env: Env, w: World, a: Page, b: Page, kind: Kind, ok: bool, next: Kind)
    requires SentBy(a.(stage := Busy(next)), b, next) && (next == Perf ==> kind == Navigate && !env.timer(w.timers))
    requires ok || kind !in {Context, Target, Attach}
    ensures AnswerEffect(env, w, a, b, kind, ok)
  {
  }

  /** Only domain requests have been added. */
  ghost predicate DomainsAdded(a: Page, b: Page) {
    && b == a.(waiting := b.waiting, lost := b.lost, asked := b.asked)
    && a.asked <= b.asked && |b.asked| - |a.asked| == b.waiting - a.waiting
    && forall i :: |a.asked| <= i < |b.asked| ==> b.asked[i] == Domain
  }

  lemma OneDomain(a: Page, b: Page, c: Page)
    requires DomainsAdded(a, b) && SentBy(b, c, Domain)
    ensures DomainsAdded(a, c) && |c.asked| <= |b.asked| + 1
  {
  }

  /** The four requests of step_enable_domains. */
  ghost function DomainsSent(env: Env, s: World, p: nat): (d: World)
    requires p < |s.store|
  {
    Send(env, Send(env, Send(env, Advance(env, s, p, Domain), p, Domain), p, Domain), p, Domain)
  }

  lemma FourDomains(env: Env, s: World, p: nat)
    requires p < |s.store| && OthersScript(env, s, p)
    requires MaySend(env, SetPage(s, p, s.store[p].(stage := Busy(Domain))), p, Domain)
    requires s.store[p].domains == 4 && |s.store[p].asked| == 3
    ensures var d := DomainsSent(env, s, p);
            && AllScript(env, d) && Apart(s, d, p) && p < |d.store|
            && DomainsAdded(s.store[p].(stage := Busy(Domain)), d.store[p])
  {
    hide Send, Advance, Script, Place, PageScript, OthersScript, AllScript, Apart, SentBy, DomainsAdded, MaySend;
    var g := s.store[p].(stage := Busy(Domain));
    MaySendLive(env, SetPage(s, p, g), p, Domain);
    AdvanceScript(env, s, p, Domain);
    var a := Advance(env, s, p, Domain);
    NoDomain(g);
    OneDomain(g, g, a.store[p]);
    Loaded(g, a.store[p], 4);
    MoreDomains(env, a, p, 3);
    var b := Send(env, a, p, Domain);
    OneDomain(g, a.store[p], b.store[p]);
    Loaded(g, b.store[p], 4);
    MoreDomains(env, b, p, 2);
    var c := Send(env, b, p, Domain);
    OneDomain(g, b.store[p], c.store[p]);
    Loaded(g, c.store[p], 4);
    MoreDomains(env, c, p, 1);
    var d := Send(env, c, p, Domain);
    OneDomain(g, c.store[p], d.store[p]);
    ApartTrans(s, a, b, p);
    ApartTrans(s, b, c, p);
    ApartTrans(s, c, d, p);
  }

  lemma MaySendLive(env: Env, w: World, p: nat, kind: Kind)
    requires p < |w.store| && MaySend(env, w, p, kind)
    ensures w.store[p].live && !w.store[p].finished
  {
  }

  lemma NoDomain(g: Page)
    ensures DomainsAdded(g, g)
  {
  }

  lemma Loaded(a: Page, b: Page, domains: nat)
    requires DomainsAdded(a, b) && a.domains == domains
    ensures b.live == a.live && b.finished == a.finished && b.stage == a.stage && b.domains == domains
  {
  }

  lemma DomainsEffect(env: Env, w: World, a: Page, b: Page)
    requires DomainsAdded(a.(stage := Busy(Domain), domains := 4), b)
    ensures AnswerEffect(env, w, a, b, Attach, true)
  {
    if Perf in b.asked {
      var i :| 0 <= i < |b.asked| && b.asked[i] == Perf;
      assert i < |a.asked| && a.asked[i] == Perf;
    }
  }

  lemma EnableDomainsScript(env: Env, w: World, p: nat)
    requires p < |w.store| && OthersScript(env, w, p) && Answered(env, w, p, Attach)
    ensures var r := EnableDomains(env, w, p);
            AllScript(env, r) && Apart(w, r, p) && AnswerEffect(env, w, w.store[p], r.store[p], Attach, true)
  {
    hide Send, Advance, PageError, Script, Place, PageScript, OthersScript, AllScript, DomainsAdded;
    Places(env, w.store[p].url);
    var n := w.(timers := w.timers + 1);
    OthersFields(env, w, n, p);
    if !env.timer(w.timers) {
      PageErrorScript(env, n, p);
    } else {
      var s := SetPage(n, p, w.store[p].(domains := 4));
      OthersTweak(env, n, p, s.store[p]);
      NoneAwaited(w.pending, p, Domain);
      FourDomains(env, s, p);
      var d := DomainsSent(env, s, p);
      assert EnableDomains(env, w, p) == Mute(d, env.extra(w.nextId));
      SameScript(env, d, Mute(d, env.extra(w.nextId)));
      DomainsEffect(env, w, w.store[p], d.store[p]);
    }
  }

  /** With `left` domain requests to send there is room for one more. */
  lemma MoreDomains(env: Env, w: World, p: nat, left: nat)
    requires p < |w.store| && AllScript(env, w) && 0 < left
    requires var g := w.store[p];
             g.live && !g.finished && g.stage == Busy(Domain) && g.domains == 4 && |g.asked| <= 7 - left
    requires OnlyAwaits(w.pending, p, Domain)
    ensures var r := Send(env, w, p, Domain);
            && AllScript(env, r) && Apart(w, r, p) && |r.store| == |w.store| && SentBy(w.store[p], r.store[p], Domain)
            && OnlyAwaits(r.pending, p, Domain) && r.timers == w.timers
  {
    hide Send, Script, Place;
    AllIsOthers(env, w, p);
    assert PageScript(env, w.pending, p, w.store[p]);
    SendScript(env, w, p, Domain);
  }

  lemma WaitForIdleScript(env: Env, w: World, p: nat)
    requires p < |w.store| && OthersScript(env, w, p) && Answered(env, w, p, Navigate)
    ensures var r := WaitForIdle(env, w, p);
            && AllScript(env, r) && Apart(w, r, p) && AnswerEffect(env, w, w.store[p], r.store[p], Navigate, true)
            && AnswerEffect(env, w, w.store[p], r.store[p], Navigate, false)
            && (r.store[p].stage == WaitIdle ==> r.store[p].ticks == 0)
  {
    hide Advance, Script, Place, PageScript, OthersScript, AllScript;
    Places(env, w.store[p].url);
    var g := w.store[p].(stage := WaitIdle, ticks := 0);
    var n := w.(timers := w.timers + 2);
    OthersFields(env, w, n, p);
    if !env.timer(w.timers) {
      OthersTweak(env, n, p, g);
      NextScript(env, SetPage(n, p, g), p, Perf);
      SentEffect(env, w, g, Advance(env, SetPage(n, p, g), p, Perf).store[p], Navigate, true, Perf);
    } else {
      var h := g.(idleTimer := true, navTimer := env.timer(w.timers + 1));
      IdlePage(env, w.pending, p, h);
      Tweak(env, n, p, h);
    }
  }

  lemma IdlePage(env: Env, pending: seq<Pending>, p: nat, g: Page)
    requires g.stage == WaitIdle && g.asked <= Script(env, g.url) && g.waiting == 0 && |g.asked| == 8
    ensures PageScript(env, pending, p, g)
  {
  }

  lemma AnyEffect(env: Env, w: World, a: Page, b: Page, kind: Kind)
    requires Still(a, b) && a.stage == Busy(kind)
    ensures AnswerEffect(env, w, a, b, kind, true)
    ensures kind !in {Context, Target, Attach} ==> AnswerEffect(env, w, a, b, kind, false)
  {
  }

  lemma AnsweredPage(env: Env, w: World, p: nat)
    requires p < |w.store| && Answered(env, w, p, Domain)
    ensures PageScript(env, w.pending, p, w.store[p])
  {
    hide Script, Place, OnlyAwaits;
  }

  lemma WholeScript(env: Env, url: nat, asked: seq<Kind>)
    requires asked <= Script(env, url) && |asked| == |Script(env, url)|
    ensures asked == Script(env, url)
  {
  }

  lemma DisposeScript(env: Env, w: World, p: nat, ok: bool)
    requires p < |w.store| && OthersScript(env, w, p) && Answered(env, w, p, Dispose)
    ensures var r := Continue(env, w, p, Dispose, ok);
            AllScript(env, r) && Apart(w, r, p) && AnswerEffect(env, w, w.store[p], r.store[p], Dispose, ok)
  {
    hide TryFinish, Script, Place, PageScript, OthersScript, AllScript;
    var g := w.store[p].(stage := Done);
    Places(env, g.url);
    WholeScript(env, g.url, g.asked);
    OthersTweak(env, w, p, g);
    TryFinishScript(env, SetPage(w, p, g), p);
  }

  lemma ContinueScript(env: Env, w: World, p: nat, kind: Kind, ok: bool)
    requires p < |w.store| && OthersScript(env, w, p) && Answered(env, w, p, kind)
    ensures var r := Continue(env, w, p, kind, ok);
            AllScript(env, r) && Apart(w, r, p) && AnswerEffect(env, w, w.store[p], r.store[p], kind, ok)
  {
    hide Advance, PageError, EnableDomains, WaitForIdle, TryFinish, Script, Place, PageScript, OthersScript, AllScript,
         SentBy, AnswerEffect;
    var g := w.store[p];
    Places(env, g.url);
    match kind
    case Context => if ok { Goes(env, w, p, kind, ok, Target); } else { Fails(env, w, p, kind); }
    case Target => if ok { Goes(env, w, p, kind, ok, Attach); } else { Fails(env, w, p, kind); }
    case Attach => if ok { EnableDomainsScript(env, w, p); } else { Fails(env, w, p, kind); }
    case Domain =>
      if g.domains > 0 {
        AnsweredPage(env, w, p);
        Tweak(env, w, p, g);
        assert SetPage(w, p, g) == w;
        ApartSelf(w, p);
        AnyEffect(env, w, g, g, Domain);
      } else {
        Goes(env, w, p, kind, ok, Navigate);
      }
    case Navigate => WaitForIdleScript(env, w, p);
    case Perf => Goes(env, w, p, kind, ok, Entries);
    case Entries => if env.shot(g.url) { Goes(env, w, p, kind, ok, Shot); } else { Goes(env, w, p, kind, ok, Close); }
    case Shot => Goes(env, w, p, kind, ok, Close);
    case Close => Goes(env, w, p, kind, ok, Dispose);
    case Dispose => DisposeScript(env, w, p, ok);
  }

  lemma Goes(env: Env, w: World, p: nat, kind: Kind, ok: bool, next: Kind)
    requires p < |w.store| && OthersScript(env, w, p) && Answered(env, w, p, kind)
    requires !next.Domain? && next != Perf && (next.Shot? ==> env.shot(w.store[p].url))
    requires w.store[p].waiting == 0 && |w.store[p].asked| == Place(env, w.store[p].url, next)
    requires ok || kind !in {Context, Target, Attach}
    ensures var r := Advance(env, w, p, next);
            && AllScript(env, r) && Apart(w, r, p) && p < |r.store|
            && AnswerEffect(env, w, w.store[p], r.store[p], kind, ok)
  {
    hide Advance, Script, Place, OthersScript, AllScript, Apart;
    NextScript(env, w, p, next);
    SentEffect(env, w, w.store[p], Advance(env, w, p, next).store[p], kind, ok, next);
  }

  lemma Fails(env: Env, w: World, p: nat, kind: Kind)
    requires p < |w.store| && OthersScript(env, w, p) && Answered(env, w, p, kind) && kind in {Context, Target, Attach}
    ensures var r := PageError(env, w, p);
            && AllScript(env, r) && Apart(w, r, p) && p < |r.store|
            && AnswerEffect(env, w, w.store[p], r.store[p], kind, false)
  {
    hide PageError, Script, Place, OthersScript, AllScript;
    PageErrorScript(env, w, p);
  }

  // ---------------------------------------------------------- messages

  /** An unfinished page whose answer has been taken out of the list and not been counted yet. */
  ghost predicate Answering(env: Env, w: World, p: nat, kind: Kind)
    requires p < |w.store|
  {
    var g := w.store[p];
    && g.stage == Busy(kind) && g.asked <= Script(env, g.url) && (kind.Shot? ==> env.shot(g.url))
    && EntriesOf(w.pending, p) + 1 <= g.waiting && OnlyAwaits(w.pending, p, kind) && NoTimer(g)
    && (if kind.Domain? then g.domains <= 4 && |g.asked| == 7 - g.domains + g.waiting <= 7
        else g.waiting == 1 && |g.asked| == Place(env, g.url, kind) + 1)
  }

  lemma RespondScript(env: Env, w: World, p: nat, kind: Kind, ok: bool)
    requires p < |w.store| && OthersScript(env, w, p) && Follows(env, w.store[p])
    requires w.store[p].live && !w.store[p].finished ==> Answering(env, w, p, kind)
    ensures var r := Respond(env, w, p, kind, ok);
            && AllScript(env, r) && Apart(w, r, p)
            && (if w.store[p].live && !w.store[p].finished
                then AnswerEffect(env, w, w.store[p], r.store[p], kind, ok)
                else Still(w.store[p], r.store[p]))
  {
    hide Continue, EmitDone, Script, Place, PageScript, OthersScript, AllScript, EntriesOf, OnlyAwaits;
    var g := w.store[p];
    if g.live && !g.finished {
      var h := g.(waiting := g.waiting - 1);
      var n := SetPage(w, p, h);
      OthersTweak(env, w, p, h);
      var c := CountDown(n, p, kind);
      OthersTweak(env, n, p, c.store[p]);
      assert SetPage(n, p, c.store[p]) == c;
      ContinueScript(env, c, p, kind, ok);
      var r := Continue(env, c, p, kind, ok);
      ApartTrans(w, n, c, p);
      ApartTrans(w, c, r, p);
    } else {
      FinishedRespond(env, w, p, kind, ok);
    }
  }

  lemma FinishedRespond(env: Env, w: World, p: nat, kind: Kind, ok: bool)
    requires p < |w.store| && OthersScript(env, w, p) && Follows(env, w.store[p])
    requires !w.store[p].live || w.store[p].finished
    ensures var r := Respond(env, w, p, kind, ok);
            AllScript(env, r) && Apart(w, r, p) && Still(w.store[p], r.store[p])
  {
    hide Continue, EmitDone, Script, Place, PageScript, OthersScript, AllScript;
    var g := w.store[p];
    FinishedFollows(env, w.pending, p, g);
    Tweak(env, w, p, g);
    assert SetPage(w, p, g) == w;
    ApartSelf(w, |w.store|);
    var n := ResponseDone(env, w, p);
    if g.live {
      var h := g.(waiting := if g.waiting > 0 then g.waiting - 1 else 0);
      FinishedFollows(env, w.pending, p, h);
      Tweak(env, w, p, h);
      EmitDoneScript(env, SetPage(w, p, h), p);
    }
    assert AllScript(env, n) && Apart(w, n, p) && Still(g, n.store[p]);
    StillOver(env, w, n, p, g);
    CountDownFinished(env, n, p, kind);
    ApartTrans(w, n, CountDown(n, p, kind), p);
  }

  lemma StillOver(env: Env, w: World, n: World, p: nat, g: Page)
    requires p < |w.store| && g == w.store[p] && (!g.live || g.finished)
    requires n == ResponseDone(env, w, p) && p < |n.store|
    requires AllScript(env, SetPage(w, p, g.(waiting := if g.waiting > 0 then g.waiting - 1 else 0))) || !g.live
    ensures !n.store[p].live || n.store[p].finished
  {
    hide EmitDone, PageScript;
    if g.live {
      var s := SetPage(w, p, g.(waiting := if g.waiting > 0 then g.waiting - 1 else 0));
      EmitDoneScript(env, s, p);
    }
  }

  lemma CountDownFinished(env: Env, w: World, p: nat, kind: Kind)
    requires p < |w.store| && AllScript(env, w) && (!w.store[p].live || w.store[p].finished)
    ensures AllScript(env, CountDown(w, p, kind)) && Apart(w, CountDown(w, p, kind), p)
    ensures Still(w.store[p], CountDown(w, p, kind).store[p])
    ensures CountDown(w, p, kind).store[p].live == w.store[p].live
    ensures CountDown(w, p, kind).store[p].finished == w.store[p].finished
  {
    hide PageScript, Script;
    AllIsOthers(env, w, p);
    ScriptFollowsAt(env, w, p);
    ApartSelf(w, p);
    if kind.Domain? && w.store[p].domains > 0 {
      var g := w.store[p].(domains := w.store[p].domains - 1);
      FinishedFollows(env, w.pending, p, g);
      Tweak(env, w, p, g);
    }
  }

  lemma ScriptFollowsAt(env: Env, w: World, p: nat)
    requires p < |w.store| && AllScript(env, w)
    ensures Follows(env, w.store[p]) && PageScript(env, w.pending, p, w.store[p])
  {
    hide Script, Place, OnlyAwaits;
    assert PageScript(env, w.pending, p, w.store[p]);
  }

  /** The page and the kind of request a response answers. */
  ghost function OwnerOf(w: World, id: nat): (e: Option<Pending>) {
    var i := Position(w.pending, id);
    if i < |w.pending| then Some(w.pending[i]) else None
  }

  /** Taking an entry out keeps the others to their script. */
  lemma TakenOut(env: Env, w: World, i: nat)
    requires AllScript(env, w) && i < |w.pending| && w.pending[i].page < |w.store|
    ensures OthersScript(env, w.(pending := w.pending[..i] + w.pending[i + 1..]), w.pending[i].page)
    ensures forall q, k :: OnlyAwaits(w.pending, q, k) ==> OnlyAwaits(w.pending[..i] + w.pending[i + 1..], q, k)
  {
    hide Script, Place;
    var rest := w.pending[..i] + w.pending[i + 1..];
    forall j | 0 <= j < |rest| ensures rest[j] == w.pending[if j < i then j else j + 1] { }
    forall q, k | OnlyAwaits(w.pending, q, k) ensures OnlyAwaits(rest, q, k) {
      forall j | 0 <= j < |rest| && rest[j].page == q ensures rest[j].kind == k {
        assert rest[j] == w.pending[if j < i then j else j + 1];
      }
    }
    forall q: nat | q < |w.store| && q != w.pending[i].page ensures PageScript(env, rest, q, w.store[q]) {
      assert PageScript(env, w.pending, q, w.store[q]);
    }
  }

  lemma TakenAnswering(env: Env, w: World, i: nat)
    requires Inv(env, w) && AllScript(env, w) && i < |w.pending| && w.pending[i].page < |w.store|
    ensures var e := w.pending[i]; var n := w.(pending := w.pending[..i] + w.pending[i + 1..]);
            && Follows(env, w.store[e.page])
            && (w.store[e.page].live && !w.store[e.page].finished ==>
                  Answering(env, n, e.page, e.kind) && w.store[e.page].stage == Busy(e.kind))
  {
    hide Script, Place, PendingOk, QueueOk, ListsOk;
    var e := w.pending[i];
    ScriptFollowsAt(env, w, e.page);
    assert PageAt(w, e.page);
    EntriesWithout(w.pending, i, e.page);
    TakenOut(env, w, i);
  }

  lemma MessageScript(env: Env, w: World, id: nat, ok: bool)
    requires Inv(env, w) && AllScript(env, w)
    ensures var r := Message(env, w, id, ok); var e := OwnerOf(w, id);
            && AllScript(env, r)
            && (e.None? ==> r == w)
            && (e.Some? ==>
                  && e.value.page < |w.store| && Apart(w, r, e.value.page)
                  && var a, b := w.store[e.value.page], r.store[e.value.page];
                     if a.live && !a.finished then
                       a.stage == Busy(e.value.kind) && AnswerEffect(env, w, a, b, e.value.kind, ok)
                     else Still(a, b))
  {
    hide Respond, Script, Place, PageScript, OthersScript, AnswerEffect, Answering, Position, Inv;
    var i := Position(w.pending, id);
    if i < |w.pending| {
      OwnerListed(env, w, i);
      TakenAnswering(env, w, i);
      TakenOut(env, w, i);
      RespondScript(env, w.(pending := w.pending[..i] + w.pending[i + 1..]), w.pending[i].page, w.pending[i].kind, ok);
      EffectFields(env, w, w.(pending := w.pending[..i] + w.pending[i + 1..]));
    }
  }

  lemma OwnerListed(env: Env, w: World, i: nat)
    requires AllScript(env, w) && i < |w.pending|
    ensures w.pending[i].page < |w.store|
  {
    hide PageScript;
  }

  lemma EffectFields(env: Env, w: World, n: World)
    requires w.timers == n.timers
    ensures forall a, b, k, ok :: AnswerEffect(env, n, a, b, k, ok) ==> AnswerEffect(env, w, a, b, k, ok)
  {
  }

  // ---------------------------------------------------------- timers and ticks

  /** What an idle tick or a navigation timeout does to its page. */
  ghost predicate TimerEffect(a: Page, b: Page, ends: bool) {
    && b.ticks <= a.ticks + 1
    && (if ends then b.stage == Busy(Perf) && (b.asked == a.asked || b.asked == a.asked + [Perf])
        else b.asked == a.asked && b.stage == a.stage)
  }

  /** The quiet tick that completes the countdown. */
  predicate Settles(g: Page) {
    g.idleTimer && g.live && !g.finished && g.network <= MAX_INFLIGHT && g.ticks + 1 >= IDLE_TICKS
  }

  lemma PerfScript(env: Env, w: World, p: nat, g: Page)
    requires p < |w.store| && Inv(env, w) && AllScript(env, w) && w.store[p].live && !w.store[p].finished
    requires w.store[p].stage == WaitIdle && g == StopTimers(w.store[p].(ticks := g.ticks))
    ensures var r := Advance(env, SetPage(w, p, g), p, Perf);
            && AllScript(env, r) && Apart(w, r, p) && p < |r.store|
            && SentBy(g.(stage := Busy(Perf)), r.store[p], Perf)
  {
    hide Advance, Script, Place, PendingOk, QueueOk, ListsOk, PageScript, OthersScript;
    AllIsOthers(env, w, p);
    OthersTweak(env, w, p, g);
    ScriptFollowsAt(env, w, p);
    WaitingPage(env, w.pending, p, w.store[p]);
    Places(env, g.url);
    assert PageAt(w, p);
    NextScript(env, SetPage(w, p, g), p, Perf);
  }

  lemma WaitingPage(env: Env, pending: seq<Pending>, p: nat, g: Page)
    requires PageScript(env, pending, p, g) && g.live && !g.finished
    ensures g.stage == WaitIdle ==> g.waiting == 0 && |g.asked| == 8 && g.asked <= Script(env, g.url)
    ensures g.stage == WaitIdle || (g.stage.Busy? && NoTimer(g))
  {
    hide Script, Place, OnlyAwaits;
  }

  lemma IdleTickScript(env: Env, w: World, p: nat)
    requires p < |w.store| && Inv(env, w) && AllScript(env, w)
    ensures var r := IdleTick(env, w, p);
            && AllScript(env, r) && Apart(w, r, p) && p < |r.store|
            && TimerEffect(w.store[p], r.store[p], Settles(w.store[p]))
  {
    hide Advance, Script, Place, PageScript, Inv, OnlyAwaits;
    var g := w.store[p];
    AllIsOthers(env, w, p);
    ScriptFollowsAt(env, w, p);
    ApartSelf(w, p);
    if g.live && !g.finished { WaitingPage(env, w.pending, p, g); }
    if Settles(g) {
      PerfScript(env, w, p, StopTimers(g.(ticks := g.ticks + 1)));
    } else if g.idleTimer && g.live && !g.finished {
      var h := g.(ticks := if g.network > MAX_INFLIGHT then 0 else g.ticks + 1);
      IdlePage(env, w.pending, p, h);
      Tweak(env, w, p, h);
    }
  }

  lemma NavTimeoutScript(env: Env, w: World, p: nat)
    requires p < |w.store| && Inv(env, w) && AllScript(env, w)
    ensures var r := NavTimeout(env, w, p); var g := w.store[p];
            && AllScript(env, r) && Apart(w, r, p) && p < |r.store| && r.store[p].ticks == g.ticks
            && TimerEffect(g, r.store[p], g.navTimer && g.live && !g.finished && g.stage == WaitIdle)
  {
    hide Advance, Script, Place, PageScript, Inv;
    var g := w.store[p];
    ApartSelf(w, p);
    if g.navTimer && g.live && !g.finished && g.stage == WaitIdle { PerfScript(env, w, p, StopTimers(g)); }
  }

  lemma NetworkScript(env: Env, w: World, p: nat, begins: bool)
    requires p < |w.store| && AllScript(env, w)
    ensures var r := NetworkEvent(w, p, begins);
            && AllScript(env, r) && Apart(w, r, p) && p < |r.store|
            && r.store[p].asked == w.store[p].asked && r.store[p].stage == w.store[p].stage
            && r.store[p].ticks <= w.store[p].ticks
  {
    hide Script, Place, OnlyAwaits;
    ApartSelf(w, p);
    AllIsOthers(env, w, p);
    assert PageScript(env, w.pending, p, w.store[p]);
    var r := NetworkEvent(w, p, begins);
    Tweak(env, w, p, r.store[p]);
    assert SetPage(w, p, r.store[p]) == r;
  }

  // ---------------------------------------------------------- deadlines, cycles and connections

  /** Requests and idle counts are as they were, and only overdue pages have failed. */
  ghost predicate Checked(w: World, r: World) {
    && |w.store| <= |r.store|
    && forall q: nat :: q < |w.store| ==>
         && r.store[q].asked == w.store[q].asked && r.store[q].ticks == w.store[q].ticks
         && (r.store[q].stage == w.store[q].stage || (r.store[q].stage == Failed && Overdue(w, q)))
  }

  lemma CheckPageScript(env: Env, w: World, p: nat)
    requires p < |w.store| && AllScript(env, w)
    ensures AllScript(env, CheckPage(env, w, p)) && Checked(w, CheckPage(env, w, p))
  {
    hide PageError, ForceFinish, PageScript, Script;
    AllIsOthers(env, w, p);
    ScriptFollowsAt(env, w, p);
    PageErrorScript(env, w, p);
    ForceFinishScript(env, w, p);
  }

  lemma {:induction false} CheckListScript(env: Env, w: World, start: World, todo: seq<nat>)
    requires AllScript(env, w) && Checked(start, w) && SameDeadlines(start, w)
    ensures AllScript(env, CheckList(env, w, todo)) && Checked(start, CheckList(env, w, todo))
    decreases |todo|
  {
    hide CheckPage, AllScript;
    if todo != [] && todo[0] < |w.store| {
      var n := CheckPage(env, w, todo[0]);
      CheckPageScript(env, w, todo[0]);
      CheckedDeadlines(env, w, todo[0]);
      CheckedTrans(start, w, n);
      CheckListScript(env, n, start, todo[1..]);
    }
  }

  /** A page may lose its deadline, and time stands still within a check. */
  ghost predicate SameDeadlines(w: World, r: World) {
    && w.now == r.now && |w.store| <= |r.store|
    && forall q: nat :: q < |w.store| ==> r.store[q].deadline == w.store[q].deadline || r.store[q].deadline == 0
  }

  lemma CheckedTrans(a: World, b: World, c: World)
    requires Checked(a, b) && Checked(b, c) && SameDeadlines(a, b) && SameDeadlines(b, c)
    ensures Checked(a, c) && SameDeadlines(a, c)
  {
  }

  lemma CheckedDeadlines(env: Env, w: World, p: nat)
    requires p < |w.store|
    ensures SameDeadlines(w, CheckPage(env, w, p))
  {
    hide OnPageDone;
    var g := w.store[p];
    var failed := SetPage(Mute(w, env.extra(w.nextId)), p, g.(stage := Failed));
    var stopped := SetPage(failed, p, StopTimers(failed.store[p].(finished := true)));
    DoneDeadlines(env, SetPage(stopped, p, stopped.store[p].(emitted := true)), p);
    var forced := g.(finished := true, live := false, waiting := 0, deadline := 0, emitted := true);
    DoneDeadlines(env, SetPage(w, p, StopTimers(forced)), p);
  }

  lemma DoneDeadlines(env: Env, w: World, p: nat)
    ensures SameDeadlines(w, OnPageDone(env, w, p))
  {
    hide Fill, Remove;
    FillDeadlines(env, w.(active := Remove(w.active, p), done := w.done + 1, reported := w.reported + [p]), env.batch);
  }

  lemma {:induction false} FillDeadlines(env: Env, w: World, left: nat)
    ensures SameDeadlines(w, Fill(env, w, left))
    decreases if w.queue.Some? && w.idx <= |w.queue.value| then |w.queue.value| - w.idx else 0
  {
    if w.queue.Some? && left > 0 && w.idx < |w.queue.value| && |w.active| < env.slots {
      FillDeadlines(env, TakeNext(env, w), if Starts(env, w) then left - 1 else left);
    }
  }

  lemma BeginCycleScript(env: Env, w: World, nodes: seq<nat>)
    requires AllScript(env, w)
    ensures AllScript(env, BeginCycle(env, w, nodes)) && Apart(w, BeginCycle(env, w, nodes), |w.store|)
  {
    hide FillSlots, Gather, AllScript;
    ApartSelf(w, |w.store|);
    var g := Gather(env, Gathered([], 0, w.timers), nodes);
    var n := w.(idx := 0, done := 0, failed := 0, taken := [], timers := g.tries);
    SameScript(env, w, n);
    var s := n.(queue := Some(g.urls));
    SameScript(env, w, s);
    FillSlotsScript(env, s);
  }

  lemma {:induction false} AbandonScript(env: Env, w: World, todo: seq<nat>)
    requires AllScript(env, w)
    ensures AllScript(env, Abandon(w, todo)) && Apart(w, Abandon(w, todo), |w.store|)
    ensures |Abandon(w, todo).store| == |w.store| && Abandon(w, todo).pending == w.pending
    ensures forall q: nat :: q < |w.store| && q in todo && Distinct(todo) && Within(todo, |w.store|) ==>
              !Abandon(w, todo).store[q].live
    ensures forall q: nat :: q < |w.store| && !w.store[q].live ==> !Abandon(w, todo).store[q].live
    decreases |todo|
  {
    hide PageScript, Script;
    ApartSelf(w, |w.store|);
    if todo != [] && todo[0] < |w.store| {
      var g := w.store[todo[0]];
      var h := StopTimers(g.(finished := true, live := false, waiting := 0));
      AllIsOthers(env, w, todo[0]);
      ScriptFollowsAt(env, w, todo[0]);
      FinishedFollows(env, w.pending, todo[0], h);
      Tweak(env, w, todo[0], h);
      AbandonScript(env, SetPage(w, todo[0], h), todo[1..]);
    }
  }

  /** Without entries a world keeps to the script when no page is live and unfinished. */
  lemma NoEntriesScript(env: Env, w: World, r: World)
    requires AllScript(env, w) && r.store == w.store && r.pending == []
    ensures AllScript(env, r)
  {
    hide Script, Place;
    forall q: nat | q < |r.store| ensures PageScript(env, r.pending, q, r.store[q]) {
      assert PageScript(env, w.pending, q, w.store[q]);
    }
  }

  lemma ClosedScript(env: Env, w: World)
    requires AllScript(env, w)
    ensures AllScript(env, Closed(w)) && Apart(w, Closed(w), |w.store|)
  {
    hide Abandon, AllScript;
    SameScript(env, w, w.(active := []));
    AbandonScript(env, w.(active := []), w.active);
    NoEntriesScript(env, Abandon(w.(active := []), w.active), Closed(w));
  }

  lemma ReadyScript(env: Env, w: World, nodes: seq<nat>)
    requires AllScript(env, w)
    ensures AllScript(env, Ready(env, w, nodes)) && Apart(w, Ready(env, w, nodes), |w.store|)
  {
    hide BeginCycle, AllScript;
    ApartSelf(w, |w.store|);
    var n := w.(connected := true, open := true, nextId := 1, pending := [], active := []);
    NoEntriesScript(env, w, n);
    BeginCycleScript(env, n, nodes);
  }

  // ---------------------------------------------------------- every run

  /** What may let a page go on to its metrics. */
  ghost predicate MayMeasure(env: Env, w: World, e: Event, p: nat)
    requires p < |w.store|
  {
    var g := w.store[p];
    match e
    case Tick(q) => q == p && Settles(g)
    case Timeout(q) => q == p && g.navTimer && g.stage == WaitIdle
    case Reply(id, _) =>
      var o := OwnerOf(w, id); o.Some? && o.value.page == p && o.value.kind == Navigate && !env.timer(w.timers)
    case _ => false
  }

  /** What may fail a page. */
  ghost predicate MayFail(env: Env, w: World, e: Event, p: nat)
    requires p < |w.store|
  {
    match e
    case Reply(id, ok) =>
      var o := OwnerOf(w, id);
      && o.Some? && o.value.page == p
      && ((!ok && o.value.kind in {Context, Target, Attach}) || (o.value.kind == Attach && !env.timer(w.timers)))
    case BatchTick => Overdue(w, p)
    case CrawlTick(_) => Overdue(w, p)
    case _ => false
  }

  ghost predicate StepEffect(env: Env, w: World, e: Event, r: World, p: nat)
    requires p < |w.store|
  {
    && p < |r.store| && w.store[p].asked <= r.store[p].asked
    && (Perf in r.store[p].asked && Perf !in w.store[p].asked ==> MayMeasure(env, w, e, p))
    && (r.store[p].stage == Failed && w.store[p].stage != Failed ==> MayFail(env, w, e, p))
    && r.store[p].ticks <= w.store[p].ticks + (if e == Tick(p) then 1 else 0)
    && (Over(w.store[p]) ==> r.store[p].asked == w.store[p].asked)
    && (!Over(w.store[p]) && w.store[p].stage == WaitIdle && !MayMeasure(env, w, e, p) ==>
          r.store[p].asked == w.store[p].asked && r.store[p].stage in {WaitIdle, Failed})
  }

  /** Finished, or no longer live. */
  predicate Over(g: Page) {
    !g.live || g.finished
  }

  lemma StillEffect(env: Env, w: World, e: Event, r: World, p: nat)
    requires p < |w.store| && p < |r.store| && Still(w.store[p], r.store[p])
    ensures StepEffect(env, w, e, r, p)
  {
  }

  lemma ApartEffect(env: Env, w: World, e: Event, r: World, q: nat, p: nat)
    requires p < |w.store| && Apart(w, r, q) && p != q
    ensures StepEffect(env, w, e, r, p)
  {
  }

  lemma ReplyStep(env: Env, w: World, id: nat, ok: bool, p: nat)
    requires Inv(env, w) && AllScript(env, w)
    ensures AllScript(env, Message(env, w, id, ok))
    ensures p < |w.store| ==> StepEffect(env, w, Reply(id, ok), Message(env, w, id, ok), p)
  {
    hide Message, AllScript, Inv, OwnerOf, Script;
    MessageScript(env, w, id, ok);
    var r, o := Message(env, w, id, ok), OwnerOf(w, id);
    if p < |w.store| {
      if o.None? {
        StillEffect(env, w, Reply(id, ok), r, p);
      } else if o.value.page != p {
        ApartEffect(env, w, Reply(id, ok), r, o.value.page, p);
      }
    }
  }

  lemma TimerStep(env: Env, w: World, q: nat, p: nat)
    requires Inv(env, w) && AllScript(env, w) && q < |w.store|
    ensures AllScript(env, IdleTick(env, w, q)) && AllScript(env, NavTimeout(env, w, q))
    ensures p < |w.store| ==> StepEffect(env, w, Tick(q), IdleTick(env, w, q), p)
    ensures p < |w.store| ==> StepEffect(env, w, Timeout(q), NavTimeout(env, w, q), p)
  {
    hide IdleTick, NavTimeout, AllScript, Inv;
    IdleTickScript(env, w, q);
    NavTimeoutScript(env, w, q);
    if p < |w.store| && p != q {
      ApartEffect(env, w, Tick(q), IdleTick(env, w, q), q, p);
      ApartEffect(env, w, Timeout(q), NavTimeout(env, w, q), q, p);
    }
  }

  lemma CheckStep(env: Env, w: World, nodes: seq<nat>, p: nat)
    requires AllScript(env, w)
    ensures AllScript(env, Step(env, w, BatchTick)) && AllScript(env, Step(env, w, CrawlTick(nodes)))
    ensures p < |w.store| ==> StepEffect(env, w, BatchTick, Step(env, w, BatchTick), p)
    ensures p < |w.store| ==> StepEffect(env, w, CrawlTick(nodes), Step(env, w, CrawlTick(nodes)), p)
  {
    hide CheckList, FillSlots, BeginCycle, AllScript;
    CheckedSelf(w);
    CheckListScript(env, w, w, w.active);
    var c := CheckDeadlines(env, w);
    FillSlotsScript(env, c);
    BeginCycleScript(env, c, nodes);
    if p < |w.store| {
      CheckedThen(env, w, c, FillSlots(env, c), BatchTick, p);
      CheckedThen(env, w, c, FillSlots(env, c), CrawlTick(nodes), p);
      CheckedThen(env, w, c, BeginCycle(env, c, nodes), CrawlTick(nodes), p);
      ApartSelf(c, |c.store|);
      CheckedThen(env, w, c, c, CrawlTick(nodes), p);
      StillEffect(env, w, BatchTick, w, p);
      StillEffect(env, w, CrawlTick(nodes), w, p);
    }
  }

  lemma CheckedSelf(w: World)
    ensures Checked(w, w) && SameDeadlines(w, w)
  {
  }

  lemma CheckedThen(env: Env, w: World, c: World, r: World, e: Event, p: nat)
    requires p < |w.store| && Checked(w, c) && Apart(c, r, |c.store|) && (e.BatchTick? || e.CrawlTick?)
    ensures StepEffect(env, w, e, r, p)
  {
  }

  lemma StepScript(env: Env, w: World, e: Event, p: nat)
    requires Inv(env, w) && AllScript(env, w)
    ensures AllScript(env, Step(env, w, e))
    ensures p < |w.store| ==> StepEffect(env, w, e, Step(env, w, e), p)
  {
    hide Message, NetworkEvent, IdleTick, NavTimeout, CheckDeadlines, FillSlots, BeginCycle, Closed, Ready, AllScript,
         Inv, StepEffect, Apart;
    var r := Step(env, w, e);
    match e
    case Reply(id, ok) => ReplyStep(env, w, id, ok, p);
    case Network(q, begins) => NetworkStep(env, w, q, begins, p);
    case Tick(q) => if q < |w.store| { TimerStep(env, w, q, p); } else { SameStep(env, w, e, w, p); }
    case Timeout(q) => if q < |w.store| { TimerStep(env, w, q, p); } else { SameStep(env, w, e, w, p); }
    case BatchTick => CheckStep(env, w, [], p);
    case CrawlTick(nodes) => CheckStep(env, w, nodes, p);
    case SocketDown => SameStep(env, w, e, r, p);
    case SocketClosed =>
      ClosedScript(env, w);
      if p < |w.store| { ApartEffect(env, w, e, r, |w.store|, p); }
    case SocketReady(nodes) =>
      ReadyScript(env, w, nodes);
      if p < |w.store| { ApartEffect(env, w, e, r, |w.store|, p); }
    case Time(_) => SameStep(env, w, e, r, p);
  }

  lemma SameStep(env: Env, w: World, e: Event, r: World, p: nat)
    requires AllScript(env, w) && r.store == w.store && r.pending == w.pending
    ensures AllScript(env, r) && (p < |w.store| ==> StepEffect(env, w, e, r, p))
  {
    hide AllScript;
    SameScript(env, w, r);
    if p < |w.store| { StillEffect(env, w, e, r, p); }
  }

  lemma NetworkStep(env: Env, w: World, q: nat, begins: bool, p: nat)
    requires AllScript(env, w)
    ensures var e := Network(q, begins);
            AllScript(env, Step(env, w, e)) && (p < |w.store| ==> StepEffect(env, w, e, Step(env, w, e), p))
  {
    hide NetworkEvent, AllScript;
    var e := Network(q, begins);
    if q in w.active && q < |w.store| {
      NetworkScript(env, w, q, begins);
      if p < |w.store| && p != q { ApartEffect(env, w, e, Step(env, w, e), q, p); }
    } else {
      SameStep(env, w, e, w, p);
    }
  }

  lemma {:induction false} RunScript(env: Env, w: World, es: seq<Event>)
    requires Inv(env, w) && AllScript(env, w)
    ensures AllScript(env, Run(env, w, es)) && Inv(env, Run(env, w, es))
    decreases |es|
  {
    hide Inv, AllScript, Step, Loose, Grows;
    if es != [] {
      StepScript(env, w, es[0], 0);
      StepKeeps(env, w, es[0]);
      RunScript(env, Step(env, w, es[0]), es[1..]);
    }
  }

  /**
   Over every run each page has sent a prefix of its script: context, target, attachment, four domains, navigation,
   performance, entries, the screenshot exactly when it is asked for, close and disposal. A page that is done has sent
   all.
   */
  lemma ScriptFollowed(env: Env, es: seq<Event>, p: nat)
    requires p < |Run(env, Begin(), es).store|
    ensures var g := Run(env, Begin(), es).store[p];
            g.asked <= Script(env, g.url) && (g.stage == Done ==> g.asked == Script(env, g.url))
  {
    hide Run, Script, Inv;
    BeginOk(env);
    BeginScript(env);
    RunScript(env, Begin(), es);
    ScriptFollowsAt(env, Run(env, Begin(), es), p);
  }

  lemma BeginScript(env: Env)
    ensures AllScript(env, Begin())
  {
  }

  /**
   In any reachable state: performance data is asked for only after the quiet tick that completes the countdown, the
   navigation timeout, or the answer to the navigation when no timer can be allocated; a page fails only by an error
   answer to one of its first three requests, a failed allocation, or its deadline.
   */
  lemma StepReasons(env: Env, es: seq<Event>, e: Event, p: nat)
    requires p < |Run(env, Begin(), es).store|
    ensures var w := Run(env, Begin(), es); StepEffect(env, w, e, Step(env, w, e), p)
  {
    hide Run, Inv, Step, AllScript;
    BeginOk(env);
    BeginScript(env);
    RunScript(env, Begin(), es);
    StepScript(env, Run(env, Begin(), es), e, p);
  }

  /** An error answer to one of the first three requests fails the page, and nothing more is asked for it. */
  lemma ErrorFails(env: Env, es: seq<Event>, id: nat)
    requires var w := Run(env, Begin(), es); var o := OwnerOf(w, id);
             && o.Some? && o.value.page < |w.store| && o.value.kind in {Context, Target, Attach}
             && w.store[o.value.page].live && !w.store[o.value.page].finished
    ensures var w := Run(env, Begin(), es); var p := OwnerOf(w, id).value.page; var r := Step(env, w, Reply(id, false));
            && p < |r.store| && r.store[p].stage == Failed && r.store[p].finished
            && r.store[p].asked == w.store[p].asked
  {
    hide Run, Inv, AllScript, Message, OwnerOf;
    BeginOk(env);
    BeginScript(env);
    RunScript(env, Begin(), es);
    MessageScript(env, Run(env, Begin(), es), id, false);
  }

  // ---------------------------------------------------------- the countdown

  function TicksOf(es: seq<Event>, p: nat): (n: nat) {
    if es == [] then 0 else (if es[0] == Tick(p) then 1 else 0) + TicksOf(es[1..], p)
  }

  /** A page that is over, or waits for idle and has asked for no performance data. */
  ghost predicate Resting(g: Page) {
    Perf !in g.asked && (Over(g) || g.stage == WaitIdle)
  }

  lemma RestingStep(env: Env, w: World, e: Event, p: nat)
    requires Inv(env, w) && AllScript(env, w) && p < |w.store| && Resting(w.store[p]) && e != Timeout(p)
    requires w.store[p].ticks + (if e == Tick(p) then 1 else 0) < IDLE_TICKS
    ensures var r := Step(env, w, e);
            && p < |r.store| && Resting(r.store[p])
            && r.store[p].ticks <= w.store[p].ticks + (if e == Tick(p) then 1 else 0)
  {
    hide Inv, AllScript, Step, Loose, Grows, OwnerOf, Script;
    var r := Step(env, w, e);
    StepScript(env, w, e, p);
    StepKeeps(env, w, e);
    LoosePage(w, r, p);
    FailedIsOver(env, r, p);
    if !Over(w.store[p]) { assert !MayMeasure(env, w, e, p) by { IdleAwaits(env, w, e, p); } }
  }

  lemma FailedIsOver(env: Env, w: World, p: nat)
    requires AllScript(env, w) && p < |w.store|
    ensures w.store[p].stage == Failed ==> Over(w.store[p])
  {
    hide Script, Place;
    ScriptFollowsAt(env, w, p);
  }

  /** While a page waits for idle no answer for it is pending. */
  lemma IdleAwaits(env: Env, w: World, e: Event, p: nat)
    requires Inv(env, w) && AllScript(env, w) && p < |w.store| && !Over(w.store[p]) && w.store[p].stage == WaitIdle
    requires e != Timeout(p) && w.store[p].ticks + (if e == Tick(p) then 1 else 0) < IDLE_TICKS
    ensures !MayMeasure(env, w, e, p)
  {
    hide Inv, AllScript, Message, Script;
    if e.Reply? { MessageScript(env, w, e.id, e.ok); }
  }

  /** Without a timeout, fewer ticks than the countdown lacks do not end the wait for idle. */
  lemma {:induction false} CountdownHolds(env: Env, w: World, es: seq<Event>, p: nat)
    requires Inv(env, w) && AllScript(env, w) && p < |w.store| && Resting(w.store[p])
    requires w.store[p].ticks + TicksOf(es, p) < IDLE_TICKS && forall i :: 0 <= i < |es| ==> es[i] != Timeout(p)
    ensures var r := Run(env, w, es); p < |r.store| && Perf !in r.store[p].asked
    decreases |es|
  {
    hide Inv, AllScript, Step, Loose, Grows, Over;
    if es != [] {
      RestingStep(env, w, es[0], p);
      StepScript(env, w, es[0], p);
      StepKeeps(env, w, es[0]);
      assert forall i :: 0 <= i < |es[1..]| ==> es[1..][i] == es[i + 1];
      CountdownHolds(env, Step(env, w, es[0]), es[1..], p);
    }
  }

  /** A wait for idle starts with the whole countdown ahead. */
  lemma CountdownStarts(env: Env, es: seq<Event>, id: nat, ok: bool)
    requires var w := Run(env, Begin(), es); var o := OwnerOf(w, id);
             && o.Some? && o.value.page < |w.store| && o.value.kind == Navigate && !Over(w.store[o.value.page])
    ensures var w := Run(env, Begin(), es); var p := OwnerOf(w, id).value.page; var r := Step(env, w, Reply(id, ok));
            && p < |r.store|
            && (env.timer(w.timers) ==> r.store[p].stage == WaitIdle && r.store[p].ticks == 0 && r.store[p].idleTimer)
            && (!env.timer(w.timers) ==> r.store[p].stage == Busy(Perf))
  {
    hide Run, Inv, AllScript, Send;
    BeginOk(env);
    BeginScript(env);
    RunScript(env, Begin(), es);
    var w := Run(env, Begin(), es);
    MessageScript(env, w, id, ok);
    var g := w.store[OwnerOf(w, id).value.page];
    SendSize(env);
  }

  lemma SendSize(env: Env)
    ensures forall w: World, p: nat, k: Kind :: p < |w.store| ==>
              var r := Send(env, w, p, k); |r.store| == |w.store| && r.store[p].stage == w.store[p].stage
  {
  }
}
