/**
 A page completes: while its requests are accepted, every answer moves it on, in whatever order answers and the
 events of other pages come, and after fourteen moves at most it has been reported.
 */
module CrawlerProgress {
  import opened Crawler
  import opened CrawlerSafety
  import opened Wrappers

  /** Requests get their entries and timers are allocated. */
  ghost predicate Willing(env: Env) {
    (forall n :: env.send(n) == Queued) && (forall n :: env.timer(n))
  }

  // ---------------------------------------------------------- what leaves a page alone

  /** The page, its entries, the socket and the time are as they were. */
  ghost predicate Same(w: World, r: World, p: nat) {
    && p < |w.store| <= |r.store| && r.store[p] == w.store[p] && r.open == w.open && r.now == w.now
    && forall e: Pending :: e.page == p ==> (e in r.pending <==> e in w.pending)
  }

  lemma SameTrans(a: World, b: World, c: World, p: nat)
    requires Same(a, b, p) && Same(b, c, p)
    ensures Same(a, c, p)
  {
  }

  /** Only fields the page does not see differ. */
  lemma SameFields(w: World, r: World, p: nat)
    requires p < |w.store| && r.store == w.store && r.pending == w.pending && r.open == w.open && r.now == w.now
    ensures Same(w, r, p)
  {
  }

  lemma SetSame(w: World, q: nat, g: Page, p: nat)
    requires p < |w.store| && q < |w.store| && q != p
    ensures Same(w, SetPage(w, q, g), p)
  {
  }

  lemma SendSame(env: Env, w: World, q: nat, kind: Kind, p: nat)
    requires p < |w.store| && q < |w.store| && q != p
    ensures Same(w, Send(env, w, q, kind), p)
  {
  }

  lemma StartSame(env: Env, w: World, url: nat, p: nat)
    requires p < |w.store|
    ensures Same(w, StartPage(env, w, url), p)
  {
    hide Send;
    var n := |w.store|;
    var created := w.(store := w.store + [NewPage(url).(stage := Busy(Context))]);
    assert Same(w, created, p);
    SendSame(env, created, n, Context, p);
    var sent := Send(env, created, n, Context);
    var set1 := SetPage(sent, n, sent.store[n].(deadline := w.now + BUDGET_MIN + env.budget(url)));
    SetSame(sent, n, sent.store[n].(deadline := w.now + BUDGET_MIN + env.budget(url)), p);
    SameFields(set1, set1.(active := [n] + w.active), p);
    SameTrans(w, created, sent, p);
    SameTrans(w, sent, set1, p);
    SameTrans(w, set1, StartPage(env, w, url), p);
  }

  lemma TakeSame(env: Env, w: World, p: nat)
    requires p < |w.store| && w.queue.Some? && w.idx < |w.queue.value|
    ensures Same(w, TakeNext(env, w), p)
  {
    hide StartPage, Same;
    var url := w.queue.value[w.idx];
    var next := w.(idx := w.idx + 1, taken := w.taken + [url]);
    var tried := next.(starts := w.starts + 1);
    SameFields(w, tried, p);
    StartSame(env, tried, url, p);
    SameTrans(w, tried, StartPage(env, tried, url), p);
    SameFields(w, next.(failed := w.failed + 1), p);
    SameFields(w, next.(failed := w.failed + 1, starts := w.starts + 1), p);
  }

  lemma SameSize(w: World, r: World, p: nat)
    requires Same(w, r, p)
    ensures p < |r.store|
  {
  }

  lemma {:induction false} FillSame(env: Env, w: World, left: nat, p: nat)
    requires p < |w.store|
    ensures Same(w, Fill(env, w, left), p)
    decreases if w.queue.Some? && w.idx <= |w.queue.value| then |w.queue.value| - w.idx else 0
  {
    hide TakeNext, Same;
    if w.queue.None? || left == 0 || w.idx >= |w.queue.value| || |w.active| >= env.slots {
      SameFields(w, w, p);
    } else {
      TakeSame(env, w, p);
      SameSize(w, TakeNext(env, w), p);
      FillSame(env, TakeNext(env, w), if Starts(env, w) then left - 1 else left, p);
      SameTrans(w, TakeNext(env, w), Fill(env, w, left), p);
    }
  }

  lemma FillSlotsSame(env: Env, w: World, p: nat)
    requires p < |w.store|
    ensures Same(w, FillSlots(env, w), p)
  {
    hide Fill, Same;
    SameFields(w, w, p);
    FillSame(env, w, env.batch, p);
    var f := Fill(env, w, env.batch);
    SameSize(w, f, p);
    SameFields(f, MaybeFinish(f), p);
    SameTrans(w, f, MaybeFinish(f), p);
  }

  lemma DoneSame(env: Env, w: World, q: nat, p: nat)
    requires p < |w.store|
    ensures Same(w, OnPageDone(env, w, q), p)
  {
    hide FillSlots, Same;
    var u := w.(active := Remove(w.active, q), done := w.done + 1, reported := w.reported + [q]);
    SameFields(w, u, p);
    FillSlotsSame(env, u, p);
    SameTrans(w, u, FillSlots(env, u), p);
  }

  /** The report of another page. */
  lemma ReportSame(env: Env, w: World, q: nat, g: Page, p: nat)
    requires p < |w.store| && q < |w.store| && q != p
    ensures Same(w, OnPageDone(env, SetPage(w, q, g), q), p)
  {
    hide OnPageDone, Same;
    SetSame(w, q, g, p);
    DoneSame(env, SetPage(w, q, g), q, p);
    SameTrans(w, SetPage(w, q, g), OnPageDone(env, SetPage(w, q, g), q), p);
  }

  lemma EndSame(env: Env, w: World, q: nat, p: nat)
    requires p < |w.store| && q < |w.store| && q != p
    ensures Same(w, EmitDone(env, w, q), p) && Same(w, TryFinish(env, w, q), p) && Same(w, ForceFinish(env, w, q), p)
  {
    hide OnPageDone, Same;
    SameFields(w, w, p);
    var g := w.store[q];
    ReportSame(env, w, q, g.(emitted := true), p);
    var forced := g.(finished := true, live := false, waiting := 0, deadline := 0, emitted := true);
    ReportSame(env, w, q, StopTimers(forced), p);
    var f := StopTimers(g.(finished := true));
    var n := SetPage(w, q, f);
    SetSame(w, q, f, p);
    SameFields(n, n, p);
    ReportSame(env, n, q, f.(emitted := true), p);
    SameTrans(w, n, EmitDone(env, n, q), p);
  }

  lemma ErrorSame(env: Env, w: World, q: nat, p: nat)
    requires p < |w.store| && q < |w.store| && q != p
    ensures Same(w, PageError(env, w, q), p)
  {
    hide TryFinish, Same;
    SameFields(w, w, p);
    var m := Mute(w, env.extra(w.nextId));
    var g := w.store[q].(stage := Failed);
    SameFields(w, m, p);
    SetSame(m, q, g, p);
    EndSame(env, SetPage(m, q, g), q, p);
    SameTrans(w, m, SetPage(m, q, g), p);
    SameTrans(w, SetPage(m, q, g), TryFinish(env, SetPage(m, q, g), q), p);
  }

  lemma ResponseSame(env: Env, w: World, q: nat, p: nat)
    requires p < |w.store| && q < |w.store| && q != p
    ensures Same(w, ResponseDone(env, w, q), p)
  {
    hide EmitDone, Same;
    SameFields(w, w, p);
    var g := w.store[q];
    var h := g.(waiting := if g.waiting > 0 then g.waiting - 1 else 0);
    SetSame(w, q, h, p);
    EndSame(env, SetPage(w, q, h), q, p);
    SameTrans(w, SetPage(w, q, h), EmitDone(env, SetPage(w, q, h), q), p);
  }

  lemma AdvanceSame(env: Env, w: World, q: nat, kind: Kind, p: nat)
    requires p < |w.store| && q < |w.store| && q != p
    ensures Same(w, Advance(env, w, q, kind), p)
  {
    hide Send, Same;
    var g := w.store[q].(stage := Busy(kind));
    SetSame(w, q, g, p);
    SendSame(env, SetPage(w, q, g), q, kind, p);
    SameTrans(w, SetPage(w, q, g), Advance(env, w, q, kind), p);
  }

  lemma SendSize(env: Env, w: World, q: nat, kind: Kind)
    requires q < |w.store|
    ensures |Send(env, w, q, kind).store| == |w.store|
  {
  }

  lemma EnableSame(env: Env, w: World, q: nat, p: nat)
    requires p < |w.store| && q < |w.store| && q != p
    ensures Same(w, EnableDomains(env, w, q), p)
  {
    hide Send, Same, PageError;
    var m := w.(timers := w.timers + 1);
    SameFields(w, m, p);
    ErrorSame(env, m, q, p);
    SameTrans(w, m, PageError(env, m, q), p);
    var s := SetPage(m, q, w.store[q].(domains := 4));
    SetSame(m, q, w.store[q].(domains := 4), p);
    SameTrans(w, m, s, p);
    var a := Advance(env, s, q, Domain);
    AdvanceSame(env, s, q, Domain, p);
    SameTrans(w, s, a, p);
    SendSize(env, SetPage(s, q, s.store[q].(stage := Busy(Domain))), q, Domain);
    var b := Send(env, a, q, Domain);
    SendSame(env, a, q, Domain, p);
    SendSize(env, a, q, Domain);
    SameTrans(w, a, b, p);
    var c := Send(env, b, q, Domain);
    SendSame(env, b, q, Domain, p);
    SendSize(env, b, q, Domain);
    SameTrans(w, b, c, p);
    var d := Send(env, c, q, Domain);
    SendSame(env, c, q, Domain, p);
    SendSize(env, c, q, Domain);
    SameTrans(w, c, d, p);
    SameFields(d, Mute(d, env.extra(w.nextId)), p);
    SameTrans(w, d, Mute(d, env.extra(w.nextId)), p);
  }

  lemma WaitSame(env: Env, w: World, q: nat, p: nat)
    requires p < |w.store| && q < |w.store| && q != p
    ensures Same(w, WaitForIdle(env, w, q), p)
  {
    hide Advance, Same;
    var g := w.store[q].(stage := WaitIdle, ticks := 0);
    var n := w.(timers := w.timers + 2);
    SameFields(w, n, p);
    SetSame(n, q, g, p);
    SameTrans(w, n, SetPage(n, q, g), p);
    AdvanceSame(env, SetPage(n, q, g), q, Perf, p);
    SameTrans(w, SetPage(n, q, g), Advance(env, SetPage(n, q, g), q, Perf), p);
    var t := g.(idleTimer := true, navTimer := env.timer(w.timers + 1));
    SetSame(n, q, t, p);
    SameTrans(w, n, SetPage(n, q, t), p);
  }

  lemma ContinueSame(env: Env, w: World, q: nat, kind: Kind, ok: bool, p: nat)
    requires p < |w.store| && q < |w.store| && q != p
    ensures Same(w, Continue(env, w, q, kind, ok), p)
  {
    hide Advance, EnableDomains, WaitForIdle, PageError, TryFinish, Same;
    SameFields(w, w, p);
    forall k: Kind ensures Same(w, Advance(env, w, q, k), p) { AdvanceSame(env, w, q, k, p); }
    ErrorSame(env, w, q, p);
    EnableSame(env, w, q, p);
    WaitSame(env, w, q, p);
    var s := SetPage(w, q, w.store[q].(stage := Done));
    SetSame(w, q, w.store[q].(stage := Done), p);
    EndSame(env, s, q, p);
    SameTrans(w, s, TryFinish(env, s, q), p);
  }

  /** Unlinking an entry of another page. */
  lemma UnlinkSame(w: World, i: nat, p: nat)
    requires p < |w.store| && i < |w.pending| && w.pending[i].page != p
    ensures Same(w, w.(pending := w.pending[..i] + w.pending[i + 1..]), p)
  {
    var s := w.pending[..i] + w.pending[i + 1..];
    forall e: Pending | e.page == p ensures e in s <==> e in w.pending {
      assert w.pending == w.pending[..i] + [w.pending[i]] + w.pending[i + 1..];
    }
  }

  lemma CountDownSame(w: World, q: nat, kind: Kind, p: nat)
    requires p < |w.store| && q < |w.store| && q != p
    ensures Same(w, CountDown(w, q, kind), p)
  {
  }

  /** A response to another page. */
  lemma MessageSame(env: Env, w: World, id: nat, ok: bool, p: nat)
    requires p < |w.store| && (Position(w.pending, id) < |w.pending| ==> w.pending[Position(w.pending, id)].page != p)
    ensures Same(w, Message(env, w, id, ok), p)
  {
    hide ResponseDone, Continue, Same, Position, CountDown;
    SameFields(w, w, p);
    var i := Position(w.pending, id);
    if i < |w.pending| && w.pending[i].page < |w.store| {
      var q, kind := w.pending[i].page, w.pending[i].kind;
      var u := w.(pending := w.pending[..i] + w.pending[i + 1..]);
      UnlinkSame(w, i, p);
      var n := ResponseDone(env, u, q);
      ResponseSame(env, u, q, p);
      SameTrans(w, u, n, p);
      SameSize(w, n, p);
      if q < |n.store| {
        var c := CountDown(n, q, kind);
        CountDownSame(n, q, kind, p);
        CountDownSize(n, q, kind);
        SameTrans(w, n, c, p);
        ContinueSame(env, c, q, kind, ok, p);
        SameTrans(w, c, Continue(env, c, q, kind, ok), p);
      }
    }
  }

  lemma CountDownSize(w: World, q: nat, kind: Kind)
    requires q < |w.store|
    ensures |CountDown(w, q, kind).store| == |w.store|
  {
  }

  lemma TimersSame(env: Env, w: World, q: nat, p: nat)
    requires p < |w.store| && q < |w.store| && q != p
    ensures Same(w, IdleTick(env, w, q), p) && Same(w, NavTimeout(env, w, q), p)
  {
    hide Advance, Same;
    SameFields(w, w, p);
    var g := w.store[q];
    SetSame(w, q, g.(ticks := 0), p);
    SetSame(w, q, g.(ticks := g.ticks + 1), p);
    var a, b := StopTimers(g.(ticks := g.ticks + 1)), StopTimers(g);
    SetSame(w, q, a, p);
    SetSame(w, q, b, p);
    AdvanceSame(env, SetPage(w, q, a), q, Perf, p);
    AdvanceSame(env, SetPage(w, q, b), q, Perf, p);
    SameTrans(w, SetPage(w, q, a), Advance(env, SetPage(w, q, a), q, Perf), p);
    SameTrans(w, SetPage(w, q, b), Advance(env, SetPage(w, q, b), q, Perf), p);
  }

  /** A deadline check leaves a page alone that is not overdue. */
  lemma CheckPageSame(env: Env, w: World, q: nat, p: nat)
    requires p < |w.store| && q < |w.store| && !Overdue(w, p)
    ensures Same(w, CheckPage(env, w, q), p)
  {
    hide PageError, ForceFinish, Same;
    SameFields(w, w, p);
    if q != p {
      ErrorSame(env, w, q, p);
      EndSame(env, w, q, p);
    }
  }

  lemma NotOverdue(w: World, r: World, p: nat)
    requires Same(w, r, p) && !Overdue(w, p)
    ensures !Overdue(r, p)
  {
  }

  lemma {:induction false} CheckListSame(env: Env, w: World, todo: seq<nat>, p: nat)
    requires p < |w.store| && !Overdue(w, p)
    ensures Same(w, CheckList(env, w, todo), p)
    decreases |todo|
  {
    hide CheckPage, Same, Overdue;
    if todo == [] || todo[0] >= |w.store| {
      SameFields(w, w, p);
    } else {
      var n := CheckPage(env, w, todo[0]);
      CheckPageSame(env, w, todo[0], p);
      SameSize(w, n, p);
      NotOverdue(w, n, p);
      CheckListSame(env, n, todo[1..], p);
      SameTrans(w, n, CheckList(env, w, todo), p);
    }
  }

  lemma BeginSame(env: Env, w: World, nodes: seq<nat>, p: nat)
    requires p < |w.store|
    ensures Same(w, BeginCycle(env, w, nodes), p)
  {
    hide FillSlots, Same, Gather;
    SameFields(w, w, p);
    var g := Gather(env, Gathered([], 0, w.timers), nodes);
    var n := w.(idx := 0, done := 0, failed := 0, taken := [], timers := g.tries);
    SameFields(w, n, p);
    var s := n.(queue := Some(g.urls));
    SameFields(w, s, p);
    FillSlotsSame(env, s, p);
    SameTrans(w, s, FillSlots(env, s), p);
  }

  lemma TicksSame(env: Env, w: World, nodes: seq<nat>, p: nat)
    requires p < |w.store| && !Overdue(w, p)
    ensures Same(w, Step(env, w, BatchTick), p) && Same(w, Step(env, w, CrawlTick(nodes)), p)
  {
    hide CheckList, FillSlots, BeginCycle, Same, Overdue;
    SameFields(w, w, p);
    var c := CheckDeadlines(env, w);
    CheckListSame(env, w, w.active, p);
    SameSize(w, c, p);
    FillSlotsSame(env, c, p);
    BeginSame(env, c, nodes, p);
    SameTrans(w, c, FillSlots(env, c), p);
    SameTrans(w, c, BeginCycle(env, c, nodes), p);
  }

  // ---------------------------------------------------------- a page on its way

  /** Every entry of the page is of one kind. */
  ghost predicate AllOf(pending: seq<Pending>, p: nat, kind: Kind) {
    forall e :: e in pending && e.page == p ==> e.kind == kind
  }

  /** A live page whose requests all have entries: in a step with its requests in flight, or waiting for idle. */
  ghost predicate OnTrack(w: World, p: nat) {
    && w.open && p < |w.store|
    && var g := w.store[p];
       && g.live && !g.finished && g.lost == 0
       && (if g.stage.Busy? then
             && !g.idleTimer && !g.navTimer && AllOf(w.pending, p, g.stage.kind)
             && (if g.stage.kind.Domain? then 1 <= g.waiting == g.domains <= 4 else g.waiting == 1 && g.domains == 0)
           else g.stage.WaitIdle? && g.idleTimer && g.navTimer && g.waiting == 0 && g.domains == 0)
  }

  /** How many moves a page has left at most. */
  function StageRank(stage: Stage, domains: nat): (r: nat) {
    match stage
    case Busy(Context) => 14
    case Busy(Target) => 13
    case Busy(Attach) => 12
    case Busy(Domain) => 7 + domains
    case Busy(Navigate) => 7
    case WaitIdle => 6
    case Busy(Perf) => 5
    case Busy(Entries) => 4
    case Busy(Shot) => 3
    case Busy(Close) => 2
    case Busy(Dispose) => 1
    case _ => 0
  }

  ghost function Rank(w: World, p: nat): (r: nat) {
    if p < |w.store| then StageRank(w.store[p].stage, w.store[p].domains) else 0
  }

  /** The page has been reported, or is on its way with at most `left` moves to go. */
  ghost predicate Nearing(w: World, p: nat, left: int) {
    p in w.reported || (OnTrack(w, p) && Rank(w, p) <= left)
  }

  /** An answer to one of the page's requests, or the end of its wait for idle. */
  ghost predicate IsMove(w: World, p: nat, e: Event) {
    match e
    case Reply(id, _) => Position(w.pending, id) < |w.pending| && w.pending[Position(w.pending, id)].page == p
    case Timeout(q) => q == p && p < |w.store| && w.store[p].stage.WaitIdle?
    case Tick(q) =>
      && q == p && p < |w.store| && w.store[p].stage.WaitIdle?
      && w.store[p].network <= MAX_INFLIGHT && w.store[p].ticks + 1 >= IDLE_TICKS
    case _ => false
  }

  lemma SameTrack(w: World, r: World, p: nat)
    requires OnTrack(w, p) && Same(w, r, p)
    ensures OnTrack(r, p) && Rank(r, p) == Rank(w, p)
  {
  }

  // ---------------------------------------------------------- one answer

  /** Between two steps: nothing in flight and no entry left. */
  ghost predicate Between(w: World, p: nat) {
    && w.open && p < |w.store|
    && w.store[p].live && !w.store[p].finished
    && w.store[p].lost == 0 && w.store[p].waiting == 0 && w.store[p].domains == 0
    && !w.store[p].idleTimer && !w.store[p].navTimer && !w.store[p].emitted
    && forall e :: e in w.pending ==> e.page != p
  }

  lemma AdvanceTracks(env: Env, w: World, p: nat, kind: Kind)
    requires Willing(env) && Between(w, p) && !kind.Domain?
    ensures var r := Advance(env, w, p, kind); OnTrack(r, p) && Rank(r, p) == StageRank(Busy(kind), 0)
  {
  }

  lemma EnableTracks(env: Env, w: World, p: nat)
    requires Willing(env) && Between(w, p)
    ensures var r := EnableDomains(env, w, p); OnTrack(r, p) && Rank(r, p) == 11
  {
    hide Between;
    BetweenPage(w, p);
    var m := w.(timers := w.timers + 1);
    var s := SetPage(m, p, w.store[p].(domains := 4, stage := Busy(Domain)));
    EnableStarts(w, p, s);
    assert Advance(env, SetPage(m, p, w.store[p].(domains := 4)), p, Domain) == Send(env, s, p, Domain);
    var a := Send(env, s, p, Domain);
    SendAsks(env, s, p, 0);
    var b := Send(env, a, p, Domain);
    SendAsks(env, a, p, 1);
    var c := Send(env, b, p, Domain);
    SendAsks(env, b, p, 2);
    SendAsks(env, c, p, 3);
  }

  /** `n` of the four domain requests are in flight. */
  ghost predicate Asking(w: World, p: nat, n: nat) {
    && w.open && p < |w.store|
    && var g := w.store[p];
       && g.live && !g.finished && g.lost == 0 && g.waiting == n && g.domains == 4 && g.stage == Busy(Domain)
       && !g.idleTimer && !g.navTimer && AllOf(w.pending, p, Domain)
  }

  lemma EnableStarts(w: World, p: nat, s: World)
    requires Between(w, p)
    requires s == SetPage(w.(timers := w.timers + 1), p, w.store[p].(domains := 4, stage := Busy(Domain)))
    ensures Asking(s, p, 0)
  {
  }

  lemma SendAsks(env: Env, w: World, p: nat, n: nat)
    requires Willing(env) && Asking(w, p, n)
    ensures Asking(Send(env, w, p, Domain), p, n + 1)
  {
  }

  /** Waiting for idle, with its timers. */
  lemma WaitTracks(env: Env, w: World, p: nat)
    requires Willing(env) && Between(w, p)
    ensures var r := WaitForIdle(env, w, p); OnTrack(r, p) && Rank(r, p) == 6
  {
  }

  lemma {:induction false} FillReportsNone(env: Env, w: World, left: nat)
    ensures Fill(env, w, left).reported == w.reported
    decreases if w.queue.Some? && w.idx <= |w.queue.value| then |w.queue.value| - w.idx else 0
  {
    hide TakeNext;
    if w.queue.None? || left == 0 || w.idx >= |w.queue.value| || |w.active| >= env.slots {
    } else {
      TakeReportsNone(env, w);
      FillReportsNone(env, TakeNext(env, w), if Starts(env, w) then left - 1 else left);
    }
  }

  lemma TakeReportsNone(env: Env, w: World)
    requires w.queue.Some? && w.idx < |w.queue.value|
    ensures TakeNext(env, w).reported == w.reported
  {
  }

  lemma DoneReports(env: Env, w: World, p: nat)
    ensures p in OnPageDone(env, w, p).reported
  {
    hide Fill;
    var u := w.(active := Remove(w.active, p), done := w.done + 1, reported := w.reported + [p]);
    FillReportsNone(env, u, env.batch);
    assert u.reported[|w.reported|] == p;
  }

  /** Finishing with nothing in flight reports at once. */
  lemma FinishReports(env: Env, w: World, p: nat)
    requires Between(w, p)
    ensures p in TryFinish(env, w, p).reported && p in PageError(env, w, p).reported
  {
    hide OnPageDone;
    var m := Mute(w, env.extra(w.nextId));
    EmitReports(env, SetPage(w, p, StopTimers(w.store[p].(finished := true))), p);
    var f := SetPage(m, p, w.store[p].(stage := Failed));
    EmitReports(env, SetPage(f, p, StopTimers(f.store[p].(finished := true))), p);
  }

  lemma EmitReports(env: Env, w: World, p: nat)
    requires p < |w.store| && w.store[p].live && !w.store[p].emitted
    ensures p in EmitDone(env, w, p).reported
  {
    hide OnPageDone;
    DoneReports(env, SetPage(w, p, w.store[p].(emitted := true)), p);
  }

  /** Whatever the answer says, a page between its steps moves on or is reported. */
  lemma ContinueMoves(env: Env, w: World, p: nat, kind: Kind, ok: bool)
    requires Willing(env) && Between(w, p)
    ensures Nearing(Continue(env, w, p, kind, ok), p, StageRank(Busy(kind), 1) - 1)
  {
    hide Advance, EnableDomains, WaitForIdle, PageError, TryFinish, OnTrack, Between, Rank;
    BetweenPage(w, p);
    FinishReports(env, w, p);
    EnableTracks(env, w, p);
    WaitTracks(env, w, p);
    forall k: Kind | !k.Domain?
      ensures OnTrack(Advance(env, w, p, k), p) && Rank(Advance(env, w, p, k), p) == StageRank(Busy(k), 0)
    {
      AdvanceTracks(env, w, p, k);
    }
    BetweenDone(w, p);
    FinishReports(env, SetPage(w, p, w.store[p].(stage := Done)), p);
  }

  lemma BetweenPage(w: World, p: nat)
    requires Between(w, p)
    ensures p < |w.store| && w.store[p].domains == 0
  {
  }

  lemma BetweenDone(w: World, p: nat)
    requires Between(w, p)
    ensures p < |w.store| && Between(SetPage(w, p, w.store[p].(stage := Done)), p)
  {
  }

  /** The world once an entry of the page is unlinked and counted, before its callback goes on. */
  function Counted(w: World, i: nat): (r: World)
    requires i < |w.pending| && w.pending[i].page < |w.store| && w.store[w.pending[i].page].waiting > 0
  {
    var p, kind := w.pending[i].page, w.pending[i].kind;
    var g := w.store[p];
    var d := if kind.Domain? && g.domains > 0 then g.domains - 1 else g.domains;
    SetPage(w.(pending := w.pending[..i] + w.pending[i + 1..]), p, g.(waiting := g.waiting - 1, domains := d))
  }

  lemma ReplyContinues(env: Env, w: World, id: nat, ok: bool, p: nat)
    requires OnTrack(w, p) && IsMove(w, p, Reply(id, ok)) && w.store[p].waiting > 0
    ensures var i := Position(w.pending, id);
            Message(env, w, id, ok) == Continue(env, Counted(w, i), p, w.pending[i].kind, ok)
  {
    hide Continue, Position;
    var i := Position(w.pending, id);
    var u := w.(pending := w.pending[..i] + w.pending[i + 1..]);
    var g := w.store[p];
    assert ResponseDone(env, u, p) == SetPage(u, p, g.(waiting := g.waiting - 1));
    assert CountDown(ResponseDone(env, u, p), p, w.pending[i].kind) == Counted(w, i);
  }

  /** With one request in flight, its answer leaves nothing behind. */
  lemma LastAnswer(env: Env, w: World, p: nat, i: nat)
    requires Inv(env, w) && OnTrack(w, p) && i < |w.pending| && w.pending[i].page == p && w.store[p].waiting == 1
    ensures Between(Counted(w, i), p) && w.store[p].stage == Busy(w.pending[i].kind)
  {
    hide EntriesOf, PendingOk, QueueOk, ListsOk;
    assert PageAt(w, p);
    var r := Counted(w, i);
    EntriesWithout(w.pending, i, p);
    NoneLeft(r.pending, p);
    assert w.pending[i] in w.pending;
  }

  lemma {:induction false} NoneLeft(pending: seq<Pending>, p: nat)
    requires EntriesOf(pending, p) == 0
    ensures forall e :: e in pending ==> e.page != p
  {
    if pending != [] {
      NoneLeft(pending[1..], p);
      assert pending == [pending[0]] + pending[1..];
    }
  }

  /** One of several domain answers leaves the others in flight. */
  lemma DomainAnswer(env: Env, w: World, p: nat, i: nat, ok: bool)
    requires OnTrack(w, p) && i < |w.pending| && w.pending[i].page == p && w.store[p].waiting > 1
    ensures var r := Continue(env, Counted(w, i), p, w.pending[i].kind, ok);
            OnTrack(r, p) && Rank(r, p) == Rank(w, p) - 1
  {
    assert w.pending[i] in w.pending;
    var s := w.pending[..i] + w.pending[i + 1..];
    assert forall e :: e in s ==> e in w.pending;
  }

  lemma InFlight(env: Env, w: World, p: nat, i: nat)
    requires Inv(env, w) && OnTrack(w, p) && i < |w.pending| && w.pending[i].page == p
    ensures w.store[p].waiting > 0
  {
    hide EntriesOf, PendingOk, QueueOk, ListsOk;
    assert PageAt(w, p);
    EntriesWithout(w.pending, i, p);
  }

  lemma ReplyMoves(env: Env, w: World, id: nat, ok: bool, p: nat)
    requires Inv(env, w) && Willing(env) && OnTrack(w, p) && IsMove(w, p, Reply(id, ok))
    ensures Nearing(Message(env, w, id, ok), p, Rank(w, p) - 1)
  {
    hide Inv, Message, Continue, Between, Willing, Counted;
    var i := Position(w.pending, id);
    InFlight(env, w, p, i);
    ReplyContinues(env, w, id, ok, p);
    if w.store[p].waiting == 1 {
      LastAnswer(env, w, p, i);
      ContinueMoves(env, Counted(w, i), p, w.pending[i].kind, ok);
      assert StageRank(Busy(w.pending[i].kind), 1) == Rank(w, p);
    } else {
      DomainAnswer(env, w, p, i, ok);
    }
  }

  /** The end of the wait for idle. */
  lemma IdleEnds(env: Env, w: World, p: nat, g: Page)
    requires Inv(env, w) && Willing(env) && OnTrack(w, p) && w.store[p].stage.WaitIdle?
    requires g == StopTimers(w.store[p].(ticks := g.ticks))
    ensures var r := Advance(env, SetPage(w, p, g), p, Perf); OnTrack(r, p) && Rank(r, p) == 5
  {
    hide EntriesOf, PendingOk, QueueOk, ListsOk;
    assert PageAt(w, p);
    NoneLeft(w.pending, p);
    AdvanceTracks(env, SetPage(w, p, g), p, Perf);
  }

  lemma TimerMoves(env: Env, w: World, p: nat)
    requires Inv(env, w) && Willing(env) && OnTrack(w, p)
    ensures Nearing(IdleTick(env, w, p), p, Rank(w, p) - if IsMove(w, p, Tick(p)) then 1 else 0)
    ensures Nearing(NavTimeout(env, w, p), p, Rank(w, p) - if IsMove(w, p, Timeout(p)) then 1 else 0)
  {
    hide Inv, Advance, Willing;
    var g := w.store[p];
    if g.stage.WaitIdle? {
      IdleEnds(env, w, p, StopTimers(g));
      IdleEnds(env, w, p, StopTimers(g.(ticks := g.ticks + 1)));
    }
  }

  lemma NetworkTracks(w: World, p: nat, begins: bool)
    requires OnTrack(w, p)
    ensures OnTrack(NetworkEvent(w, p, begins), p) && Rank(NetworkEvent(w, p, begins), p) == Rank(w, p)
  {
  }

  // ---------------------------------------------------------- every run

  /** The connection is not lost and the socket stays open. */
  predicate Calm(e: Event) {
    !e.SocketDown? && !e.SocketClosed?
  }

  /** Any event: a move brings the page nearer to its report, and nothing else sets it back. */
  lemma StepNears(env: Env, w: World, p: nat, e: Event)
    requires Inv(env, w) && Willing(env) && OnTrack(w, p) && !Overdue(w, p) && Calm(e)
    ensures Nearing(Step(env, w, e), p, Rank(w, p) - if IsMove(w, p, e) then 1 else 0)
  {
    hide Inv, Willing, Message, IdleTick, NavTimeout, NetworkEvent, CheckDeadlines, FillSlots, BeginCycle, Same,
         OnTrack, Rank, Overdue, Position;
    OnTrackPage(w, p);
    match e
    case Reply(id, ok) =>
      if IsMove(w, p, e) {
        ReplyMoves(env, w, id, ok, p);
      } else {
        MessageSame(env, w, id, ok, p);
        SameTrack(w, Message(env, w, id, ok), p);
      }
    case Network(q, begins) =>
      if q == p {
        NetworkTracks(w, p, begins);
      } else if q < |w.store| {
        NetworkSame(w, q, begins, p);
        SameTrack(w, NetworkEvent(w, q, begins), p);
      }
    case Tick(q) =>
      if q == p {
        TimerMoves(env, w, p);
      } else if q < |w.store| {
        TimersSame(env, w, q, p);
        SameTrack(w, IdleTick(env, w, q), p);
      }
    case Timeout(q) =>
      if q == p {
        TimerMoves(env, w, p);
      } else if q < |w.store| {
        TimersSame(env, w, q, p);
        SameTrack(w, NavTimeout(env, w, q), p);
      }
    case BatchTick =>
      TicksSame(env, w, [], p);
      SameTrack(w, Step(env, w, e), p);
    case CrawlTick(nodes) =>
      TicksSame(env, w, nodes, p);
      SameTrack(w, Step(env, w, e), p);
    case SocketReady(nodes) =>
      TrackIsActive(env, w, p);
      NotReadyTwice(env, w, nodes, p);
    case Time(passed) =>
      TimeTracks(w, p, passed);
    case _ =>
  }

  lemma OnTrackPage(w: World, p: nat)
    requires OnTrack(w, p)
    ensures p < |w.store| && w.store[p].live && !w.store[p].finished && Rank(w, p) >= 1
  {
  }

  lemma TrackIsActive(env: Env, w: World, p: nat)
    requires Inv(env, w) && OnTrack(w, p)
    ensures p in w.active
  {
    hide EntriesOf;
    assert PageAt(w, p);
  }

  lemma NetworkSame(w: World, q: nat, begins: bool, p: nat)
    requires p < |w.store| && q < |w.store| && q != p
    ensures Same(w, NetworkEvent(w, q, begins), p)
  {
  }

  lemma TimeTracks(w: World, p: nat, passed: nat)
    requires OnTrack(w, p)
    ensures OnTrack(w.(now := w.now + passed), p) && Rank(w.(now := w.now + passed), p) == Rank(w, p)
  {
  }

  /** How many events of a run move the page. */
  ghost function Moves(env: Env, w: World, p: nat, es: seq<Event>): (n: nat)
    decreases |es|
  {
    if es == [] then 0 else (if IsMove(w, p, es[0]) then 1 else 0) + Moves(env, Step(env, w, es[0]), p, es[1..])
  }

  /** Over every run: as long as its deadline has not come, the page is reported or has made its moves. */
  lemma {:induction false} RunNears(env: Env, w: World, p: nat, es: seq<Event>)
    requires Inv(env, w) && Willing(env) && OnTrack(w, p) && forall i :: 0 <= i < |es| ==> Calm(es[i])
    requires p < |w.store| && Run(env, w, es).now < w.store[p].deadline
    ensures p in Run(env, w, es).reported || Nearing(Run(env, w, es), p, Rank(w, p) - Moves(env, w, p, es))
    decreases |es|
  {
    hide Inv, Willing, OnTrack, Rank, Step, Loose, IsMove;
    if es != [] {
      var r := Step(env, w, es[0]);
      StepKeeps(env, w, es[0]);
      RunKeeps(env, r, es[1..]);
      LooseFacts(w, r, p);
      LooseFacts(r, Run(env, w, es), p);
      StepNears(env, w, p, es[0]);
      if p !in r.reported {
        OnTrackPage(r, p);
        RunNears(env, r, p, es[1..]);
      }
    }
  }

  lemma LooseFacts(w: World, r: World, p: nat)
    requires Loose(w, r) && p < |w.store|
    ensures p < |r.store| && w.now <= r.now && (p in w.reported ==> p in r.reported)
    ensures r.store[p].live ==> r.store[p].deadline == w.store[p].deadline
  {
    assert Later(w.store[p], r.store[p]);
  }

  /**
   In whatever order its requests are answered, and whatever else happens before its deadline on an open
   connection: fourteen moves at most report a page that was just started.
   */
  lemma EveryOrderCompletes(env: Env, w: World, url: nat, es: seq<Event>)
    requires Willing(env) && w.open && Inv(env, StartPage(env, w, url)) && forall i :: 0 <= i < |es| ==> Calm(es[i])
    requires var s := StartPage(env, w, url);
             && Run(env, s, es).now < w.now + BUDGET_MIN + env.budget(url)
             && Moves(env, s, |w.store|, es) >= 14
    ensures |w.store| in Run(env, StartPage(env, w, url), es).reported
  {
    hide Inv, Run, Moves;
    var s, p := StartPage(env, w, url), |w.store|;
    StartTracks(env, w, url);
    RunNears(env, s, p, es);
    var r := Run(env, s, es);
    if p !in r.reported { OnTrackPage(r, p); }
  }

  lemma StartTracks(env: Env, w: World, url: nat)
    requires Willing(env) && w.open && Inv(env, StartPage(env, w, url))
    ensures var s := StartPage(env, w, url);
            && OnTrack(s, |w.store|) && Rank(s, |w.store|) == 14
            && s.store[|w.store|].deadline == w.now + BUDGET_MIN + env.budget(url)
  {
    hide EntriesOf, QueueOk, ListsOk;
    var s, p := StartPage(env, w, url), |w.store|;
    assert PageAt(s, p);
    assert s.pending == w.pending + [Pending(w.nextId, Context, p)];
    EntriesAppend(w.pending, [Pending(w.nextId, Context, p)], p);
    EntriesOne(Pending(w.nextId, Context, p), p);
    NoneLeft(w.pending, p);
  }

  /** A page on its way can always move: one of its requests is pending, or its timeout is running. */
  lemma MoveIsPossible(env: Env, w: World, p: nat) returns (e: Event)
    requires Inv(env, w) && OnTrack(w, p)
    ensures IsMove(w, p, e) && Calm(e)
  {
    hide EntriesOf, QueueOk, ListsOk;
    assert PageAt(w, p);
    if w.store[p].stage.WaitIdle? {
      e := Timeout(p);
    } else {
      var i := SomeEntry(w.pending, p);
      e := Reply(w.pending[i].id, true);
      PositionOf(w, i);
    }
  }

  lemma PositionOf(w: World, i: nat)
    requires PendingOk(w) && i < |w.pending|
    ensures Position(w.pending, w.pending[i].id) == i
  {
  }

  lemma {:induction false} SomeEntry(pending: seq<Pending>, p: nat) returns (i: nat)
    requires EntriesOf(pending, p) > 0
    ensures i < |pending| && pending[i].page == p
  {
    if pending[0].page == p {
      i := 0;
    } else {
      i := SomeEntry(pending[1..], p);
      i := i + 1;
    }
  }
}
