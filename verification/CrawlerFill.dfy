/** How many pages a crawl step starts, how requests on the network are counted, and when a quiet page is measured. */
module CrawlerFill {
  import opened Crawler
  import opened CrawlerSafety
  import opened Wrappers

  // ---------------------------------------------------------- slots

  /**
   Filling slots starts at most `left` pages, in front of the list, and stops only when the queue is used up, the
   slots are taken, or it has started that many.
   */
  lemma {:induction false} FillExact(env: Env, w: World, left: nat)
    requires w.queue.Some? && w.idx <= |w.queue.value|
    ensures var r := Fill(env, w, left);
            && r.queue == w.queue && w.idx <= r.idx <= |w.queue.value| && r.cycles == w.cycles
            && |w.active| <= |r.active| <= |w.active| + left
            && r.active[|r.active| - |w.active|..] == w.active
            && (r.idx == |w.queue.value| || |r.active| >= env.slots || |r.active| == |w.active| + left)
    decreases |w.queue.value| - w.idx
  {
    hide TakeNext, Starts;
    if left > 0 && w.idx < |w.queue.value| && |w.active| < env.slots {
      var n := TakeNext(env, w);
      var rest := if Starts(env, w) then left - 1 else left;
      TakeNextList(env, w);
      FillExact(env, n, rest);
      StillBehind(Fill(env, n, rest).active, n.active, w.active, if Starts(env, w) then 1 else 0);
    }
  }

  lemma StillBehind(r: seq<nat>, n: seq<nat>, w: seq<nat>, k: nat)
    requires |n| <= |r| && r[|r| - |n|..] == n && k <= |n| && n[k..] == w
    ensures r[|r| - |w|..] == w
  {
    assert r[|r| - |n|..][k..] == r[|r| - |n| + k..];
  }

  lemma TakeNextList(env: Env, w: World)
    requires w.queue.Some? && w.idx < |w.queue.value|
    ensures TakeNext(env, w).active == (if Starts(env, w) then [|w.store|] else []) + w.active
    ensures TakeNext(env, w).cycles == w.cycles
  {
  }

  /** A page is started for every configured URL that is taken, unless it cannot be created. */
  lemma TakenStarts(env: Env, w: World)
    requires w.queue.Some? && w.idx < |w.queue.value|
    ensures var url := w.queue.value[w.idx];
            var r := TakeNext(env, w);
            if env.isUrl(url) && env.start(w.starts)
            then |r.store| == |w.store| + 1 && r.store[|w.store|].url == url && r.active == [|w.store|] + w.active
                 && r.failed == w.failed
            else r.store == w.store && r.active == w.active && r.failed == w.failed + 1
  {
  }

  /** No slot was left free for want of trying: the queue is used up, the slots are taken, or a batch was started. */
  predicate Filled(env: Env, active: nat, r: World) {
    r.queue.Some? ==>
      r.idx >= |r.queue.value| || |r.active| >= env.slots || |r.active| == active + env.batch
  }

  lemma FillSlotsFilled(env: Env, w: World)
    requires w.connected && w.queue.Some? && w.idx <= |w.queue.value|
    ensures Filled(env, |w.active|, FillSlots(env, w))
    ensures var r := FillSlots(env, w);
            && (r.queue.Some? ==> r.queue == w.queue && r.cycles == w.cycles)
            && (r.queue.None? ==> |r.cycles| == |w.cycles| + 1 && r.cycles[|w.cycles|].queue == w.queue.value)
  {
    hide Fill;
    FillExact(env, w, env.batch);
  }

  /** A page that is done makes room, which is used at once. */
  lemma DoneFills(env: Env, w: World, p: nat)
    requires w.connected && w.queue.Some? && w.idx <= |w.queue.value|
    ensures var r := OnPageDone(env, w, p); Filled(env, |Remove(w.active, p)|, r) && r.reported == w.reported + [p]
  {
    hide FillSlots, Filled;
    var n := w.(active := Remove(w.active, p), done := w.done + 1, reported := w.reported + [p]);
    FillSlotsFilled(env, n);
    FillReports(env, n);
  }

  lemma FillReports(env: Env, w: World)
    ensures FillSlots(env, w).reported == w.reported
  {
    hide Fill;
    FillReported(env, w, env.batch);
  }

  lemma {:induction false} FillReported(env: Env, w: World, left: nat)
    ensures Fill(env, w, left).reported == w.reported
    decreases if w.queue.Some? && w.idx <= |w.queue.value| then |w.queue.value| - w.idx else 0
  {
    if w.queue.Some? && left > 0 && w.idx < |w.queue.value| && |w.active| < env.slots {
      FillReported(env, TakeNext(env, w), if Starts(env, w) then left - 1 else left);
    }
  }

  /**
   In any reachable state of a connection, either tick fills the slots that are free after its deadline check; and a
   crawl tick that finds no queue starts a new cycle, with all its slots.
   */
  lemma TicksFill(env: Env, es: seq<Event>, nodes: seq<nat>)
    requires Run(env, Begin(), es).connected
    ensures var w := Run(env, Begin(), es);
            var c := CheckDeadlines(env, w);
            && (w.queue.Some? ==> Filled(env, |c.active|, Step(env, w, BatchTick)))
            && Filled(env, |c.active|, Step(env, w, CrawlTick(nodes)))
            && (c.queue.None? ==> c.active == [])
  {
    hide Run, FillSlots, CheckDeadlines, Filled, Gather, PagesOk, PendingOk, ListsOk;
    BeginOk(env);
    RunKeeps(env, Begin(), es);
    var w := Run(env, Begin(), es);
    var c := CheckDeadlines(env, w);
    CheckDeadlinesKeeps(env, w);
    if c.queue.Some? {
      FillSlotsFilled(env, c);
    } else {
      CycleBusy(env, c, nodes);
      NothingToFill(env, c);
    }
  }

  lemma NothingToFill(env: Env, w: World)
    requires w.queue.None?
    ensures FillSlots(env, w) == w && forall k: nat :: Filled(env, k, w)
  {
  }

  lemma CycleBusy(env: Env, w: World, nodes: seq<nat>)
    requires w.connected && w.queue.None? && w.active == []
    ensures Filled(env, 0, BeginCycle(env, w, nodes))
  {
    hide FillSlots, Gather;
    var g := Gather(env, Gathered([], 0, w.timers), nodes);
    var n := w.(idx := 0, done := 0, failed := 0, taken := [], timers := g.tries);
    if g.urls != [] { FillSlotsFilled(env, n.(queue := Some(g.urls))); }
  }

  /** The queue of the new cycle is all the configured URLs, or the cycle is over at once. */
  ghost predicate Started(w: World, urls: seq<nat>, r: World) {
    if r.queue.Some? then r.queue.value == urls
    else |r.cycles| == |w.cycles| + 1 && r.cycles[|w.cycles|].queue == urls
  }

  lemma CycleStarts(env: Env, w: World, nodes: seq<nat>)
    requires w.connected && w.queue.None? && w.active == [] && Urls(env, nodes) != [] && forall k :: env.timer(k)
    ensures Started(w, Urls(env, nodes), BeginCycle(env, w, nodes))
  {
    hide FillSlots, Gather, Urls, Subsequence;
    QueueGathered(env, w.timers, nodes);
    var g := Gather(env, Gathered([], 0, w.timers), nodes);
    var n := w.(idx := 0, done := 0, failed := 0, taken := [], timers := g.tries);
    FillSlotsFilled(env, n.(queue := Some(g.urls)));
  }

  /** With memory, a crawl tick that finds nothing to do and a new connection start a cycle of all configured URLs. */
  lemma CyclesStart(env: Env, es: seq<Event>, nodes: seq<nat>)
    requires Urls(env, nodes) != [] && forall k :: env.timer(k)
    ensures var w := Run(env, Begin(), es);
            var c := CheckDeadlines(env, w);
            && (w.connected && c.queue.None? ==> Started(c, Urls(env, nodes), Step(env, w, CrawlTick(nodes))))
            && (!w.connected ==> Started(w, Urls(env, nodes), Step(env, w, SocketReady(nodes))))
  {
    hide Run, CheckDeadlines, BeginCycle, Urls, Started, PagesOk, PendingOk, ListsOk;
    BeginOk(env);
    RunKeeps(env, Begin(), es);
    var w := Run(env, Begin(), es);
    CheckDeadlinesKeeps(env, w);
    if w.connected {
      if CheckDeadlines(env, w).queue.None? { CycleStarts(env, CheckDeadlines(env, w), nodes); }
    } else {
      var n := w.(connected := true, open := true, nextId := 1, pending := [], active := []);
      CycleStarts(env, n, nodes);
      SameCycles(w, n, Urls(env, nodes), BeginCycle(env, n, nodes));
    }
  }

  lemma SameCycles(w: World, n: World, urls: seq<nat>, r: World)
    requires n.cycles == w.cycles && Started(n, urls, r)
    ensures Started(w, urls, r)
  {
  }

  /**
   A request on an open connection uses up a number, accepted or not; an answer is expected under that number, which
   no other request has, exactly if the request was accepted and its entry allocated.
   */
  lemma NumberUsed(env: Env, es: seq<Event>, p: nat, kind: Kind)
    requires var w := Run(env, Begin(), es); w.open && p < |w.store|
    ensures var w := Run(env, Begin(), es);
            var r := Send(env, w, p, kind);
            && r.nextId == w.nextId + 1 && r.sends == w.sends + 1
            && (forall e :: e in w.pending ==> e.id < w.nextId)
            && r.pending == w.pending + (if env.send(w.sends) == Queued then [Pending(w.nextId, kind, p)] else [])
  {
    hide Run, PagesOk, QueueOk, ListsOk;
    BeginOk(env);
    RunKeeps(env, Begin(), es);
  }

  // ---------------------------------------------------------- network

  /** The requests on the network after events, of which `true` begins one; an end without a beginning is ignored. */
  function OnNetwork(n: nat, bs: seq<bool>): (r: nat)
    decreases |bs|
  {
    if bs == [] then n else OnNetwork(if bs[0] then n + 1 else if n > 0 then n - 1 else 0, bs[1..])
  }

  function NetworkEvents(p: nat, bs: seq<bool>): (es: seq<Event>) {
    if bs == [] then [] else [Network(p, bs[0])] + NetworkEvents(p, bs[1..])
  }

  /** A page of the list that is not finished counts them so, and a beginning starts its countdown anew. */
  lemma {:induction false} NetworkCounted(env: Env, w: World, p: nat, bs: seq<bool>)
    requires p in w.active && p < |w.store| && w.store[p].live && !w.store[p].finished
    ensures var r := Run(env, w, NetworkEvents(p, bs));
            && p < |r.store| && p in r.active
            && r.store[p].network == OnNetwork(w.store[p].network, bs)
            && r.store[p] == w.store[p].(network := r.store[p].network, ticks := r.store[p].ticks)
            && r.store[p].ticks == (if true in bs then 0 else w.store[p].ticks)
    decreases |bs|
  {
    hide Step;
    if bs != [] {
      NetworkOne(env, w, p, bs[0]);
      NetworkCounted(env, Step(env, w, Network(p, bs[0])), p, bs[1..]);
      assert NetworkEvents(p, bs)[1..] == NetworkEvents(p, bs[1..]);
      assert true in bs <==> bs[0] || true in bs[1..];
    }
  }

  lemma NetworkOne(env: Env, w: World, p: nat, begins: bool)
    requires p in w.active && p < |w.store| && w.store[p].live && !w.store[p].finished
    ensures var r := Step(env, w, Network(p, begins));
            && |r.store| == |w.store| && r.active == w.active
            && r.store[p].network == OnNetwork(w.store[p].network, [begins])
            && r.store[p] == w.store[p].(network := r.store[p].network, ticks := r.store[p].ticks)
            && r.store[p].ticks == (if begins then 0 else w.store[p].ticks)
  {
    assert [begins][1..] == [];
  }

  // ---------------------------------------------------------- idle

  function Ticks(p: nat, n: nat): (es: seq<Event>) {
    if n == 0 then [] else [Tick(p)] + Ticks(p, n - 1)
  }

  predicate Counting(g: Page) {
    g.live && !g.finished && g.idleTimer
  }

  /** A page with more requests on the network than it may have is not idle: a tick starts its countdown anew. */
  lemma BusyTick(env: Env, w: World, p: nat)
    requires p < |w.store| && Counting(w.store[p]) && w.store[p].network > MAX_INFLIGHT
    ensures Step(env, w, Tick(p)) == SetPage(w, p, w.store[p].(ticks := 0))
  {
  }

  lemma QuietTick(env: Env, w: World, p: nat)
    requires p < |w.store| && Counting(w.store[p]) && w.store[p].network <= MAX_INFLIGHT
    ensures var g := w.store[p];
            Step(env, w, Tick(p)) ==
              if g.ticks + 1 < IDLE_TICKS then SetPage(w, p, g.(ticks := g.ticks + 1))
              else Advance(env, SetPage(w, p, StopTimers(g.(ticks := g.ticks + 1))), p, Perf)
  {
    hide Advance, StopTimers, SetPage;
  }

  lemma SetTwice(w: World, p: nat, g: Page, h: Page)
    requires p < |w.store|
    ensures SetPage(SetPage(w, p, g), p, h) == SetPage(w, p, h) && SetPage(w, p, g).store[p] == g
  {
    assert w.store[p := g][p := h] == w.store[p := h];
  }

  /** Quiet ticks count up, and the one that completes the countdown measures the page. */
  lemma {:induction false} QuietTicks(env: Env, w: World, p: nat, n: nat)
    requires p < |w.store| && Counting(w.store[p]) && w.store[p].network <= MAX_INFLIGHT
    requires w.store[p].ticks + n <= IDLE_TICKS && n > 0
    ensures var t := w.store[p].ticks;
            var r := Run(env, w, Ticks(p, n));
            r == if t + n < IDLE_TICKS then SetPage(w, p, w.store[p].(ticks := t + n))
                 else Advance(env, SetPage(w, p, StopTimers(w.store[p].(ticks := IDLE_TICKS))), p, Perf)
    ensures w.store[p].ticks + n == IDLE_TICKS ==>
              var g := Run(env, w, Ticks(p, n)).store;
              && p < |g| && g[p].stage == Busy(Perf) && !g[p].idleTimer && !g[p].navTimer
              && g[p].asked == w.store[p].asked + (if w.open && env.send(w.sends) != Refused then [Perf] else [])
    decreases n
  {
    hide Advance, Step;
    var e, g := Ticks(p, n), w.store[p];
    assert e[0] == Tick(p) && e[1..] == Ticks(p, n - 1);
    QuietTick(env, w, p);
    if n > 1 {
      var one := g.(ticks := g.ticks + 1);
      SetTwice(w, p, one, g.(ticks := g.ticks + n));
      SetTwice(w, p, one, StopTimers(g.(ticks := IDLE_TICKS)));
      assert p < |SetPage(w, p, one).store| by { SetSize(w, p, one); }
      QuietTicks(env, SetPage(w, p, one), p, n - 1);
    } else {
      Measured(env, SetPage(w, p, StopTimers(g.(ticks := g.ticks + 1))), p);
    }
  }

  /** A measured page waits for the measurement, which it has asked for if the request was accepted. */
  lemma Measured(env: Env, w: World, p: nat)
    requires p < |w.store|
    ensures var r := Advance(env, w, p, Perf);
            && p < |r.store| && r.store[p].stage == Busy(Perf)
            && r.store[p].idleTimer == w.store[p].idleTimer && r.store[p].navTimer == w.store[p].navTimer
            && r.store[p].asked == w.store[p].asked + (if w.open && env.send(w.sends) != Refused then [Perf] else [])
  {
  }

  lemma SetSize(w: World, p: nat, g: Page)
    requires p < |w.store|
    ensures |SetPage(w, p, g).store| == |w.store|
  {
  }
}
