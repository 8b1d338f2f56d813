/**
 The crawler in memory: the callbacks, ticks and loops that walk and change the linked lists of pages and
 pending entries, each a step of the state machine.
 */
module CrawlerClient {
  import opened Crawler
  import opened CrawlerLists
  import opened CrawlerSafety
  import opened Wrappers

  /** Every entry's page is one of the pages. */
  ghost predicate Owned(list: seq<Entry>, all: seq<PageNode>) {
    forall i :: 0 <= i < |list| ==> list[i].page.no < |all| && all[list[i].page.no] == list[i].page
  }

  lemma OwnedAppend(list: seq<Entry>, e: Entry, all: seq<PageNode>)
    requires Owned(list, all) && e.page.no < |all| && all[e.page.no] == e.page
    ensures Owned(list + [e], all)
  {
  }

  class Browser {
    const env: Env
    const pages: PageList
    const pending: PendingList
    var connected: bool
    var open: bool
    var now: nat
    var nextId: nat
    var queue: Option<seq<nat>>
    var idx: nat
    var done: nat
    var sends: nat
    var starts: nat
    var timers: nat
    ghost var taken: seq<nat>
    ghost var failed: nat
    ghost var reported: seq<nat>
    ghost var cycles: seq<Cycle>
    ghost var Repr: set<object>

    ghost predicate Valid()
      reads this`Repr, Repr - {this}
      ensures Valid() ==> this in Repr
    {
      && this in Repr && pages in Repr && pending in Repr
      && (forall i :: 0 <= i < |pages.all| ==> pages.all[i] in Repr)
      && (forall i :: 0 <= i < |pages.list| ==> pages.list[i] in Repr)
      && (forall i :: 0 <= i < |pending.list| ==> pending.list[i] in Repr)
      && pages.Valid() && pending.Valid() && Owned(pending.list, pages.all)
    }

    ghost predicate Has(n: PageNode)
      reads pages
    {
      n.no < |pages.all| && pages.all[n.no] == n
    }

    ghost function View(): (w: World)
      reads this, pages, pending
    {
      World(connected, open, now, nextId, pending.entries, pages.store, pages.active, queue, idx, done,
            sends, starts, timers, taken, failed, reported, cycles)
    }

    lemma PageOf(n: PageNode)
      requires Valid() && Has(n)
      ensures n.no < |View().store| && View().store[n.no] == n.page
    {
    }

    constructor (env: Env)
      ensures Valid() && fresh(Repr) && this.env == env && View() == Begin()
    {
      this.env := env;
      pages := new PageList();
      pending := new PendingList();
      connected, open, now, nextId, queue, idx, done := false, false, 0, 1, None, 0, 0;
      sends, starts, timers, taken, failed, reported, cycles := 0, 0, 0, [], 0, [], [];
      Repr := {this, pages, pending};
    }

    // -------------------------------------------------------- requests

    method SetPage(n: PageNode, g: Page)
      requires Valid() && Has(n)
      modifies Repr
      ensures Valid() && old(pages.all) <= pages.all && fresh(Repr - old(Repr))
      ensures View() == Crawler.SetPage(old(View()), n.no, g)
      ensures n.page == g && pages.all == old(pages.all) && Repr == old(Repr)
    {
      pages.Set(n, g);
    }

    /** The new entry of a request is appended. */
    method Await(id: nat, kind: Kind, n: PageNode)
      requires Valid() && Has(n)
      modifies Repr
      ensures Valid() && old(pages.all) <= pages.all && fresh(Repr - old(Repr))
      ensures View() == old(View()).(pending := old(View()).pending + [Pending(id, kind, n.no)])
      ensures pages.all == old(pages.all)
    {
      hide PageList.Valid, PendingList.Valid, Owned;
      ghost var before := pending.list;
      var e := pending.Append(id, kind, n);
      OwnedAppend(before, e, pages.all);
      Repr := Repr + {e};
    }

    /** The next number and what becomes of its request. */
    method Number() returns (id: nat, outcome: Sent)
      requires Valid()
      modifies Repr
      ensures Valid() && old(pages.all) <= pages.all && fresh(Repr - old(Repr))
      ensures View() == old(View()).(nextId := nextId, sends := sends)
      ensures id == old(nextId)
      ensures outcome == env.send(old(sends))
      ensures nextId == id + 1
      ensures sends == old(sends) + 1
      ensures pages.all == old(pages.all)
      ensures Repr == old(Repr)
    {
      id, outcome := nextId, env.send(sends);
      nextId, sends := nextId + 1, sends + 1;
    }

    /** page_cdp_send and cdp_send. */
    method Send(n: PageNode, kind: Kind)
      requires Valid() && Has(n)
      modifies Repr
      ensures Valid() && old(pages.all) <= pages.all && fresh(Repr - old(Repr))
      ensures View() == Crawler.Send(env, old(View()), n.no, kind)
      ensures pages.all == old(pages.all)
    {
      hide Valid;
      if !open { return; }
      var id, outcome := Number();
      PageOf(n);
      var g := n.page.(waiting := n.page.waiting + 1, asked := n.page.asked + [kind]);
      if outcome.Queued? {
        SetPage(n, g);
        Await(id, kind, n);
      } else if outcome.Unqueued? {
        SetPage(n, g.(lost := g.lost + 1));
      }
    }

    /** Requests without a callback. */
    method Mute(k: nat)
      requires Valid()
      modifies Repr
      ensures Valid() && old(pages.all) <= pages.all && fresh(Repr - old(Repr))
      ensures View() == Crawler.Mute(old(View()), k)
      ensures pages.all == old(pages.all)
    {
      hide Valid;
      if open { nextId := nextId + k; }
    }

    // -------------------------------------------------------- slots

    lemma ActiveNumbers()
      requires Valid()
      ensures forall p :: p in pages.active ==> p < |pages.store|
      ensures pages.head == null <==> pages.active == []
      ensures |pages.all| == |pages.store| && forall i :: 0 <= i < |pages.all| ==> pages.all[i].no == i
    {
      assert forall p :: p in pages.active ==> exists i :: 0 <= i < |pages.active| && pages.active[i] == p;
    }

    /** A new page, not yet in the list. */
    method Create(g: Page) returns (n: PageNode)
      requires Valid()
      modifies Repr
      ensures Valid() && old(pages.all) <= pages.all && fresh(Repr - old(Repr))
      ensures View() == old(View()).(store := old(View()).store + [g])
      ensures Has(n) && n.no == |old(pages.all)| && n.page == g && pages.all == old(pages.all) + [n]
    {
      hide PageList.Valid, PendingList.Valid, Owned;
      ghost var before := pages.all;
      n := pages.Create(g);
      OwnedGrows(pending.list, before, pages.all);
      Repr := Repr + {n};
    }

    /** The page becomes the head of the list. */
    method Link(n: PageNode)
      requires Valid() && Has(n) && n.no !in pages.active
      modifies Repr
      ensures Valid() && old(pages.all) <= pages.all && fresh(Repr - old(Repr))
      ensures View() == old(View()).(active := [n.no] + old(View()).active)
      ensures pages.all == old(pages.all)
    {
      hide PendingList.Valid, Owned;
      pages.PushFront(n);
    }

    /** cdp_page_start: the page and its first request. */
    method FirstRequest(url: nat) returns (n: PageNode)
      requires Valid()
      modifies Repr
      ensures Valid() && old(pages.all) <= pages.all && fresh(Repr - old(Repr))
      ensures View() == Requested(env, old(View()), url)
      ensures Has(n) && n.no == |old(View()).store|
    {
      hide Valid, Crawler.Send;
      ActiveNumbers();
      n := Create(NewPage(url).(stage := Busy(Context)));
      PageOf(n);
      Send(n, Context);
    }

    /** chromecdp_start_page_for_node. */
    method StartPage(url: nat)
      requires Valid()
      modifies Repr
      ensures Valid() && old(pages.all) <= pages.all && fresh(Repr - old(Repr))
      ensures View() == Crawler.StartPage(env, old(View()), url)
    {
      hide Valid, Crawler.Send;
      ActiveNumbers();
      RequestedLists(env, View(), url);
      var n := FirstRequest(url);
      Link(n);
      PageOf(n);
      SetPage(n, n.page.(deadline := now + BUDGET_MIN + env.budget(url)));
    }

    /** chromecdp_maybe_finish_cycle. */
    method MaybeFinish()
      requires Valid()
      modifies Repr
      ensures Valid() && old(pages.all) <= pages.all && fresh(Repr - old(Repr))
      ensures View() == Crawler.MaybeFinish(old(View()))
    {
      hide Valid;
      ActiveNumbers();
      if queue.None? || idx < |queue.value| || pages.head != null { return; }
      cycles := cycles + [Cycle(queue.value, taken, done, failed)];
      queue, idx := None, 0;
    }

    /** One round of chromecdp_fill_slots: whether a page was started. */
    method TakeNext() returns (started: bool)
      requires Valid() && queue.Some? && idx < |queue.value|
      modifies Repr
      ensures Valid() && old(pages.all) <= pages.all && fresh(Repr - old(Repr))
      ensures View() == Crawler.TakeNext(env, old(View()))
      ensures started == Starts(env, old(View()))
    {
      hide Valid, Crawler.StartPage;
      var url := queue.value[idx];
      idx, taken := idx + 1, taken + [url];
      started := false;
      if !env.isUrl(url) {
        failed := failed + 1;
      } else if !env.start(starts) {
        starts, failed := starts + 1, failed + 1;
      } else {
        starts := starts + 1;
        StartPage(url);
        started := true;
      }
    }

    /** chromecdp_count_pages. */
    method CountPages() returns (k: nat)
      requires Valid()
      ensures k == |pages.active|
    {
      hide PendingList.Valid, Owned;
      k := pages.Count();
    }

    /** chromecdp_fill_slots: the count is taken along the list that each round may lengthen. */
    method FillSlots()
      requires Valid()
      modifies Repr
      ensures Valid() && old(pages.all) <= pages.all && fresh(Repr - old(Repr))
      ensures View() == Crawler.FillSlots(env, old(View()))
    {
      hide Valid, Crawler.TakeNext, Crawler.MaybeFinish, Starts;
      if !connected || queue.None? { return; }
      var started := 0;
      ghost var goal := Fill(env, View(), env.batch);
      while started < env.batch && idx < |queue.value|
        invariant Valid() && old(pages.all) <= pages.all && fresh(Repr - old(Repr))
        invariant queue == old(queue) && started <= env.batch && Fill(env, View(), env.batch - started) == goal
        decreases |queue.value| - idx
      {
        var n := CountPages();
        if n >= env.slots { break; }
        var ok := TakeNext();
        if ok { started := started + 1; }
      }
      assert View() == goal;
      MaybeFinish();
    }

    /** The page is unlinked, if it is linked. */
    method Unlink(n: PageNode)
      requires Valid() && Has(n)
      modifies Repr
      ensures Valid() && old(pages.all) <= pages.all && fresh(Repr - old(Repr))
      ensures View() == old(View()).(active := Remove(old(View()).active, n.no))
      ensures pages.all == old(pages.all)
    {
      hide PendingList.Valid, Owned, Remove;
      pages.Unlink(n);
    }

    /** on_page_done. */
    method OnPageDone(n: PageNode)
      requires Valid() && Has(n)
      modifies Repr
      ensures Valid() && old(pages.all) <= pages.all && fresh(Repr - old(Repr))
      ensures View() == Crawler.OnPageDone(env, old(View()), n.no)
    {
      hide Valid, Remove, Crawler.FillSlots;
      Unlink(n);
      done, reported := done + 1, reported + [n.no];
      FillSlots();
    }

    // -------------------------------------------------------- the end of a page

    /** page_emit_done. */
    method EmitDone(n: PageNode)
      requires Valid() && Has(n) && n.no < |View().store|
      modifies Repr
      ensures Valid() && old(pages.all) <= pages.all && fresh(Repr - old(Repr))
      ensures View() == Crawler.EmitDone(env, old(View()), n.no)
    {
      hide Valid, Crawler.OnPageDone;
      PageOf(n);
      if !n.page.live || n.page.emitted { return; }
      SetPage(n, n.page.(emitted := true));
      OnPageDone(n);
    }

    /** page_try_finish. */
    method TryFinish(n: PageNode)
      requires Valid() && Has(n) && n.no < |View().store|
      modifies Repr
      ensures Valid() && old(pages.all) <= pages.all && fresh(Repr - old(Repr))
      ensures View() == Crawler.TryFinish(env, old(View()), n.no)
    {
      hide Valid, Crawler.EmitDone;
      PageOf(n);
      if !n.page.live || n.page.finished { return; }
      SetPage(n, StopTimers(n.page.(finished := true)));
      if n.page.waiting > 0 { return; }
      EmitDone(n);
    }

    /** page_error and cdp_page_abort. */
    method PageError(n: PageNode)
      requires Valid() && Has(n) && n.no < |View().store|
      modifies Repr
      ensures Valid() && old(pages.all) <= pages.all && fresh(Repr - old(Repr))
      ensures View() == Crawler.PageError(env, old(View()), n.no)
    {
      hide Valid, Crawler.TryFinish;
      PageOf(n);
      if !n.page.live || n.page.finished { return; }
      Mute(env.extra(nextId));
      PageOf(n);
      SetPage(n, n.page.(stage := Failed));
      TryFinish(n);
    }

    /** cdp_page_force_finish. */
    method ForceFinish(n: PageNode)
      requires Valid() && Has(n) && n.no < |View().store|
      modifies Repr
      ensures Valid() && old(pages.all) <= pages.all && fresh(Repr - old(Repr))
      ensures View() == Crawler.ForceFinish(env, old(View()), n.no)
    {
      hide Valid, Crawler.OnPageDone;
      PageOf(n);
      if n.page.emitted { return; }
      SetPage(n, StopTimers(n.page.(finished := true, live := false, waiting := 0, deadline := 0, emitted := true)));
      OnPageDone(n);
    }

    /** page_cdp_rsp_done. */
    method ResponseDone(n: PageNode)
      requires Valid() && Has(n) && n.no < |View().store|
      modifies Repr
      ensures Valid() && old(pages.all) <= pages.all && fresh(Repr - old(Repr))
      ensures View() == Crawler.ResponseDone(env, old(View()), n.no)
    {
      hide Valid, Crawler.EmitDone;
      PageOf(n);
      if !n.page.live { return; }
      SetPage(n, n.page.(waiting := if n.page.waiting > 0 then n.page.waiting - 1 else 0));
      if n.page.finished && n.page.waiting == 0 { EmitDone(n); }
    }

    // -------------------------------------------------------- the steps of a page

    method Advance(n: PageNode, kind: Kind)
      requires Valid() && Has(n) && n.no < |View().store|
      modifies Repr
      ensures Valid() && old(pages.all) <= pages.all && fresh(Repr - old(Repr))
      ensures View() == Crawler.Advance(env, old(View()), n.no, kind)
      ensures pages.all == old(pages.all)
    {
      hide Valid, Crawler.Send;
      PageOf(n);
      SetPage(n, n.page.(stage := Busy(kind)));
      Send(n, kind);
    }

    /** The four requests that share a counter. */
    method SendDomains(n: PageNode)
      requires Valid() && Has(n) && n.no < |View().store|
      modifies Repr
      ensures Valid() && old(pages.all) <= pages.all && fresh(Repr - old(Repr))
      ensures View() == DomainsSent(env, old(View()), n.no)
      ensures pages.all == old(pages.all)
    {
      hide Valid, Crawler.Send, Crawler.Advance;
      Advance(n, Domain);
      PageOf(n);
      Send(n, Domain);
      PageOf(n);
      Send(n, Domain);
      PageOf(n);
      Send(n, Domain);
    }

    /** step_enable_domains. */
    method EnableDomains(n: PageNode)
      requires Valid() && Has(n) && n.no < |View().store|
      modifies Repr
      ensures Valid() && old(pages.all) <= pages.all && fresh(Repr - old(Repr))
      ensures View() == Crawler.EnableDomains(env, old(View()), n.no)
    {
      hide Valid, Crawler.Send, Crawler.Advance, Crawler.PageError, Crawler.Mute;
      var room, extra := env.timer(timers), env.extra(nextId);
      timers := timers + 1;
      PageOf(n);
      if !room {
        PageError(n);
      } else {
        SetPage(n, n.page.(domains := 4));
        SendDomains(n);
        Mute(extra);
      }
    }

    /** step_wait_idle. */
    method WaitForIdle(n: PageNode)
      requires Valid() && Has(n) && n.no < |View().store|
      modifies Repr
      ensures Valid() && old(pages.all) <= pages.all && fresh(Repr - old(Repr))
      ensures View() == Crawler.WaitForIdle(env, old(View()), n.no)
    {
      hide Valid, Crawler.Advance;
      var idle, nav := env.timer(timers), env.timer(timers + 1);
      timers := timers + 2;
      PageOf(n);
      var g := n.page.(stage := WaitIdle, ticks := 0);
      if !idle {
        SetPage(n, g);
        Advance(n, Perf);
      } else {
        SetPage(n, g.(idleTimer := true, navTimer := nav));
      }
    }

    /** The callback of each step, for a page that is live and not finished. */
    method Continue(n: PageNode, kind: Kind, ok: bool)
      requires Valid() && Has(n) && n.no < |View().store|
      modifies Repr
      ensures Valid() && old(pages.all) <= pages.all && fresh(Repr - old(Repr))
      ensures View() == Crawler.Continue(env, old(View()), n.no, kind, ok)
    {
      hide Valid, Crawler.Advance, Crawler.PageError, Crawler.EnableDomains, Crawler.WaitForIdle, Crawler.TryFinish;
      PageOf(n);
      match kind
      case Context => if ok { Advance(n, Target); } else { PageError(n); }
      case Target => if ok { Advance(n, Attach); } else { PageError(n); }
      case Attach => if ok { EnableDomains(n); } else { PageError(n); }
      case Domain => if n.page.domains == 0 { Advance(n, Navigate); }
      case Navigate => WaitForIdle(n);
      case Perf => Advance(n, Entries);
      case Entries => if env.shot(n.page.url) { Advance(n, Shot); } else { Advance(n, Close); }
      case Shot => Advance(n, Close);
      case Close => Advance(n, Dispose);
      case Dispose =>
        SetPage(n, n.page.(stage := Done));
        TryFinish(n);
    }

    lemma EntryOf(i: nat)
      requires Valid()
      ensures |pending.list| == |pending.entries|
      ensures i < |pending.list| ==>
                var e := pending.list[i]; Has(e.page) && pending.entries[i] == Pending(e.id, e.kind, e.page.no)
    {
    }

    /** The entry of a response is found and unlinked. */
    method TakeEntry(id: nat) returns (e: Entry?)
      requires Valid()
      modifies Repr
      ensures Valid() && old(pages.all) <= pages.all && fresh(Repr - old(Repr))
      ensures View() == Taken(old(View()), id)
      ensures pages.all == old(pages.all) && Repr == old(Repr)
      ensures var s := old(View()).pending; var i := Position(s, id);
              && (e == null <==> i == |s|)
              && (e != null ==> Has(e.page) && s[i] == Pending(e.id, e.kind, e.page.no))
    {
      hide PageList.Valid, PendingList.Valid, Owned, Position;
      ghost var before := pending.list;
      EntryOf(Position(pending.entries, id));
      e := pending.Take(id);
      if e != null { OwnedWithout(before, pages.all, Position(old(pending.entries), id)); }
    }

    /** One of the four domain responses. */
    method CountDown(n: PageNode, kind: Kind)
      requires Valid() && Has(n) && n.no < |View().store|
      modifies Repr
      ensures Valid() && old(pages.all) <= pages.all && fresh(Repr - old(Repr))
      ensures View() == Crawler.CountDown(old(View()), n.no, kind)
      ensures pages.all == old(pages.all)
    {
      hide Valid;
      PageOf(n);
      if kind.Domain? && n.page.domains > 0 { SetPage(n, n.page.(domains := n.page.domains - 1)); }
    }

    /** What a response does for its page. */
    method Respond(n: PageNode, kind: Kind, ok: bool)
      requires Valid() && Has(n) && n.no < |View().store|
      modifies Repr
      ensures Valid() && old(pages.all) <= pages.all && fresh(Repr - old(Repr))
      ensures View() == Crawler.Respond(env, old(View()), n.no, kind, ok)
    {
      hide Valid, Crawler.ResponseDone, Crawler.Continue, Crawler.CountDown;
      ResponseDone(n);
      PageOf(n);
      CountDown(n, kind);
      PageOf(n);
      if n.page.live && !n.page.finished { Continue(n, kind, ok); }
    }

    /** cdp_ws_message for a response. */
    method Receive(id: nat, ok: bool)
      requires Valid()
      modifies Repr
      ensures Valid() && old(pages.all) <= pages.all && fresh(Repr - old(Repr))
      ensures View() == Message(env, old(View()), id, ok)
    {
      hide Valid, Crawler.Respond, Position;
      var e := TakeEntry(id);
      if e != null {
        PageOf(e.page);
        Respond(e.page, e.kind, ok);
      }
    }

    // -------------------------------------------------------- timers and ticks

    /** idle_tick. */
    method IdleTick(n: PageNode)
      requires Valid() && Has(n) && n.no < |View().store|
      modifies Repr
      ensures Valid() && old(pages.all) <= pages.all && fresh(Repr - old(Repr))
      ensures View() == Crawler.IdleTick(env, old(View()), n.no)
    {
      hide Valid, Crawler.Advance;
      PageOf(n);
      var g := n.page;
      if !g.idleTimer || !g.live || g.finished { return; }
      if g.network > MAX_INFLIGHT {
        SetPage(n, g.(ticks := 0));
      } else if g.ticks + 1 < IDLE_TICKS {
        SetPage(n, g.(ticks := g.ticks + 1));
      } else {
        SetPage(n, StopTimers(g.(ticks := g.ticks + 1)));
        Advance(n, Perf);
      }
    }

    /** nav_timeout_cb. */
    method NavTimeout(n: PageNode)
      requires Valid() && Has(n) && n.no < |View().store|
      modifies Repr
      ensures Valid() && old(pages.all) <= pages.all && fresh(Repr - old(Repr))
      ensures View() == Crawler.NavTimeout(env, old(View()), n.no)
    {
      hide Valid, Crawler.Advance;
      PageOf(n);
      var g := n.page;
      if !g.navTimer || !g.live || g.finished || !g.stage.WaitIdle? { return; }
      SetPage(n, StopTimers(g));
      Advance(n, Perf);
    }

    /** Network events of a page. */
    method NetworkEvent(n: PageNode, begins: bool)
      requires Valid() && Has(n) && n.no < |View().store|
      modifies Repr
      ensures Valid() && old(pages.all) <= pages.all && fresh(Repr - old(Repr))
      ensures View() == Crawler.NetworkEvent(old(View()), n.no, begins)
    {
      hide Valid;
      PageOf(n);
      var g := n.page;
      if !g.live || g.finished { return; }
      if begins {
        SetPage(n, g.(network := g.network + 1, ticks := 0));
      } else {
        SetPage(n, g.(network := if g.network > 0 then g.network - 1 else 0));
      }
    }

    /** What a deadline check does to one page. */
    method CheckPage(n: PageNode)
      requires Valid() && Has(n) && n.no < |View().store|
      modifies Repr
      ensures Valid() && old(pages.all) <= pages.all && fresh(Repr - old(Repr))
      ensures View() == Crawler.CheckPage(env, old(View()), n.no)
    {
      hide Valid, Crawler.PageError, Crawler.ForceFinish;
      PageOf(n);
      var g := n.page;
      if g.deadline == 0 || now < g.deadline { return; }
      if !g.finished {
        PageError(n);
      } else if !g.emitted {
        ForceFinish(n);
      }
    }

    /** The link of a page leads to the page after it in the list. */
    lemma NextOf(n: PageNode, todo: seq<nat>)
      requires Valid() && Has(n) && todo != [] && todo[0] == n.no && Ends(pages.active, todo)
      ensures n.next == null <==> |todo| == 1
      ensures n.next != null ==> Has(n.next) && n.next.no == todo[1]
    {
      var k := |pages.active| - |todo|;
      assert pages.active[k..][0] == pages.active[k];
      assert pages.list[k] == n && n.next == NodeAt(pages.list, k + 1);
      if |todo| > 1 { assert pages.active[k..][1] == pages.active[k + 1]; }
    }

    /** chromecdp_check_deadlines: the link of a page is read before the check, which may unlink the page and push
     others; what follows it in the list stays. */
    method CheckDeadlines()
      requires Valid()
      modifies Repr
      ensures Valid() && old(pages.all) <= pages.all && fresh(Repr - old(Repr))
      ensures View() == Crawler.CheckDeadlines(env, old(View()))
    {
      hide Valid, Crawler.CheckPage, Ends;
      ActiveNumbers();
      ghost var goal := Crawler.CheckDeadlines(env, View());
      ghost var todo := pages.active;
      var page := pages.head;
      EndsSelf(todo);
      HeadOf();
      while page != null
        invariant Valid() && old(pages.all) <= pages.all && fresh(Repr - old(Repr))
        invariant Ends(pages.active, todo) && CheckList(env, View(), todo) == goal
        invariant page == null <==> todo == []
        invariant page != null ==> Has(page) && page.no == todo[0]
        decreases |todo|
      {
        NextOf(page, todo);
        PageOf(page);
        var next := page.next;
        CheckEnds(env, View(), todo);
        CheckPage(page);
        page, todo := next, todo[1..];
      }
    }

    lemma HeadOf()
      requires Valid()
      ensures pages.head != null ==> Has(pages.head) && pages.active != [] && pages.head.no == pages.active[0]
      ensures pages.head == null ==> pages.active == []
    {
    }

    // -------------------------------------------------------- cycles and connections

    /** crawl_queue_collect over the configured nodes, into an array that doubles. */
    method CollectUrls(nodes: seq<nat>) returns (urls: seq<nat>, tries: nat)
      ensures var g := Gather(env, Gathered([], 0, timers), nodes); urls == g.urls && tries == g.tries
    {
      urls, tries := [], timers;
      var capacity: nat := 0;
      var rest: seq<nat> := nodes;
      while rest != []
        invariant Gather(env, Gathered(urls, capacity, tries), rest) == Gather(env, Gathered([], 0, timers), nodes)
        decreases |rest|
      {
        var node := rest[0];
        rest := rest[1..];
        if !env.isUrl(node) { continue; }
        if |urls| >= capacity {
          tries := tries + 1;
          if !env.timer(tries - 1) { continue; }
          capacity := if capacity > 0 then capacity * 2 else 32;
        }
        urls := urls + [node];
      }
    }

    /** The allocations tried count on. */
    method Tried(tries: nat)
      requires Valid()
      modifies Repr
      ensures Valid() && old(pages.all) <= pages.all && fresh(Repr - old(Repr))
      ensures View() == old(View()).(timers := tries)
    {
      hide Valid;
      timers := tries;
    }

    /** The counters of a new cycle. */
    method Restart()
      requires Valid()
      modifies Repr
      ensures Valid() && old(pages.all) <= pages.all && fresh(Repr - old(Repr))
      ensures View() == old(View()).(idx := 0, done := 0, failed := 0, taken := [])
    {
      hide Valid;
      idx, done, failed, taken := 0, 0, 0, [];
    }

    /** chromecdp_begin_crawl_cycle. */
    method BeginCycle(nodes: seq<nat>)
      requires Valid()
      modifies Repr
      ensures Valid() && old(pages.all) <= pages.all && fresh(Repr - old(Repr))
      ensures View() == Crawler.BeginCycle(env, old(View()), nodes)
    {
      hide Valid, Crawler.FillSlots, Gather;
      ActiveNumbers();
      if pages.head != null || queue.Some? { return; }
      var urls, tries := CollectUrls(nodes);
      Tried(tries);
      Restart();
      if urls == [] { return; }
      queue := Some(urls);
      FillSlots();
    }

    /** An abandoned page keeps its link. */
    method AbandonPage(n: PageNode)
      requires Valid() && Has(n)
      modifies pages`store, n`page
      ensures Valid() && Has(n) && n.no < |old(View()).store|
      ensures var g := old(View()).store[n.no].(finished := true, live := false, waiting := 0);
              View() == Crawler.SetPage(old(View()), n.no, StopTimers(g))
    {
      hide PendingList.Valid, Owned, StopTimers;
      PageOf(n);
      pages.Set(n, StopTimers(n.page.(finished := true, live := false, waiting := 0)));
    }

    lemma InRepr(n: PageNode)
      requires Valid() && Has(n)
      ensures pages in Repr && n in Repr
    {
    }

    /** The walk of chromecdp_abandon_all_pages over a detached chain. */
    method AbandonChain(first: PageNode?, ghost chain: seq<PageNode>, ghost numbers: seq<nat>)
      requires Valid() && Known(chain, numbers, pages.all) && PagesLinked(chain) && first == NodeAt(chain, 0)
      modifies Repr
      ensures Valid() && pages.all == old(pages.all) && Repr == old(Repr)
      ensures View() == Abandon(old(View()), numbers)
    {
      hide Valid, StopTimers, PagesLinked, Known;
      var page := first;
      ghost var k := 0;
      assert numbers[0..] == numbers;
      ChainAt(chain, numbers, 0);
      while page != null
        invariant Valid() && pages.all == old(pages.all) && Repr == old(Repr)
        invariant k <= |chain| && page == NodeAt(chain, k) && PagesLinked(chain)
        invariant Abandon(View(), numbers[k..]) == Abandon(old(View()), numbers)
        decreases |chain| - k
      {
        ChainAt(chain, numbers, k);
        var next := page.next;
        InRepr(page);
        AbandonPage(page);
        page, k := next, k + 1;
      }
      ChainAt(chain, numbers, k);
    }

    lemma ChainAt(chain: seq<PageNode>, numbers: seq<nat>, k: nat)
      requires Known(chain, numbers, pages.all) && PagesLinked(chain) && k <= |chain|
      ensures |numbers| == |chain|
      ensures k < |chain| ==>
                && Has(chain[k]) && chain[k].next == NodeAt(chain, k + 1)
                && numbers[k..] != [] && numbers[k..][0] == chain[k].no && numbers[k..][1..] == numbers[k + 1..]
      ensures k == |chain| ==> numbers[k..] == []
    {
    }

    method Detach() returns (first: PageNode?)
      requires Valid()
      modifies Repr
      ensures Valid() && old(pages.all) <= pages.all && fresh(Repr - old(Repr))
      ensures View() == old(View()).(active := [])
      ensures first == NodeAt(old(pages.list), 0)
      ensures PagesLinked(old(pages.list))
      ensures Known(old(pages.list), old(pages.active), pages.all)
      ensures pages.all == old(pages.all)
    {
      hide PendingList.Valid, Owned;
      first := pages.Detach();
    }

    /** The session's entries are dropped. */
    method Drain()
      requires Valid()
      modifies Repr
      ensures Valid() && old(pages.all) <= pages.all && fresh(Repr - old(Repr))
      ensures View() == old(View()).(pending := [])
      ensures pages.all == old(pages.all)
    {
      hide PageList.Valid;
      pending.Clear();
    }

    /** on_cdp_closed: the list is detached, its pages are abandoned one after the other, then the session goes. */
    method Closed()
      requires Valid()
      modifies Repr
      ensures Valid() && old(pages.all) <= pages.all && fresh(Repr - old(Repr))
      ensures View() == Crawler.Closed(old(View()))
    {
      hide Valid, Abandon, Known, PagesLinked;
      ghost var chain, numbers := pages.list, pages.active;
      var first := Detach();
      AbandonChain(first, chain, numbers);
      Drain();
      var _ := Detach();
      connected, open, queue, idx := false, false, None, 0;
    }

    /** on_cdp_ready of a new session. */
    method Ready(nodes: seq<nat>)
      requires Valid()
      modifies Repr
      ensures Valid() && old(pages.all) <= pages.all && fresh(Repr - old(Repr))
      ensures View() == Crawler.Ready(env, old(View()), nodes)
    {
      hide Valid, Crawler.BeginCycle, Known, PagesLinked;
      if connected { return; }
      Drain();
      var _ := Detach();
      connected, open, nextId := true, true, 1;
      BeginCycle(nodes);
    }

    /** Whether the page with a session is linked. */
    method Linked(n: PageNode) returns (found: bool)
      requires Valid() && Has(n)
      ensures found <==> n.no in pages.active
    {
      hide PendingList.Valid, Owned;
      found := pages.Contains(n);
    }

    ghost predicate NodeOf(e: Event, n: PageNode?)
      reads pages
    {
      (e.Network? || e.Tick? || e.Timeout?) ==> n == NodeAt(pages.all, e.page)
    }

    /** chromecdp_crawl while connected. */
    method OnCrawlTick(nodes: seq<nat>)
      requires Valid()
      modifies Repr
      ensures Valid() && old(pages.all) <= pages.all && fresh(Repr - old(Repr))
      ensures View() == Step(env, old(View()), CrawlTick(nodes))
    {
      hide Valid, Crawler.CheckDeadlines, Crawler.FillSlots, Crawler.BeginCycle;
      if connected {
        CheckDeadlines();
        ActiveNumbers();
        if queue.None? && pages.head == null {
          BeginCycle(nodes);
        } else if queue.Some? {
          FillSlots();
        }
      }
    }

    /** The event loop: any event, in any order, is a step of the state machine. `n` is the page of a timer or of the
     session an event belongs to. */
    method Handle(e: Event, n: PageNode?)
      requires Valid() && Inv(env, View()) && NodeOf(e, n)
      modifies Repr
      ensures Valid() && old(pages.all) <= pages.all && fresh(Repr - old(Repr))
      ensures View() == Step(env, old(View()), e)
      ensures Inv(env, View())
    {
      hide Valid, Inv, Message, Crawler.NetworkEvent, Crawler.IdleTick, Crawler.NavTimeout, Crawler.CheckDeadlines,
           Crawler.FillSlots, Crawler.BeginCycle, Crawler.Closed, Crawler.Ready, Loose;
      StepKeeps(env, View(), e);
      ActiveNumbers();
      match e
      case Reply(id, ok) => Receive(id, ok);
      case Network(_, begins) =>
        if n != null {
          var linked := Linked(n);
          if linked { NetworkEvent(n, begins); }
        }
      case Tick(_) => if n != null { IdleTick(n); }
      case Timeout(_) => if n != null { NavTimeout(n); }
      case BatchTick =>
        if queue.Some? {
          CheckDeadlines();
          FillSlots();
        }
      case CrawlTick(nodes) => OnCrawlTick(nodes);
      case SocketDown => open := false;
      case SocketClosed => Closed();
      case SocketReady(nodes) => Ready(nodes);
      case Time(passed) => now := now + passed;
    }

  }

  /** The world after the entry of a response is taken out. */
  ghost function Taken(w: World, id: nat): (r: World) {
    var i := Position(w.pending, id);
    if i == |w.pending| then w else w.(pending := w.pending[..i] + w.pending[i + 1..])
  }

  lemma OwnedWithout(list: seq<Entry>, all: seq<PageNode>, k: nat)
    requires k < |list| && Owned(list, all)
    ensures Owned(Without(list, k), all)
  {
  }

  // ---------------------------------------------------------- the end of the list

  ghost predicate Ends(s: seq<nat>, t: seq<nat>) {
    |t| <= |s| && s[|s| - |t|..] == t
  }

  lemma EndsSelf(s: seq<nat>)
    ensures Ends(s, s)
  {
  }

  lemma EndsTail(s: seq<nat>, t: seq<nat>)
    requires Ends(s, t) && t != []
    ensures Ends(s, t[1..])
  {
    assert s[|s| - |t|..][1..] == s[|s| - |t| + 1..];
  }

  lemma EndsPush(s: seq<nat>, t: seq<nat>, p: nat)
    requires Ends(s, t)
    ensures Ends([p] + s, t)
  {
    assert ([p] + s)[|s| + 1 - |t|..] == s[|s| - |t|..];
  }

  /** Taking out a page that is not among the last ones, or at their head, keeps what follows. */
  lemma {:induction false} EndsRemove(s: seq<nat>, t: seq<nat>)
    requires Ends(s, t) && t != []
    ensures Ends(Remove(s, t[0]), t[1..])
    decreases |s|
  {
    if |s| == |t| {
      assert s == t;
    } else if s[0] == t[0] {
      assert s[1..][|s| - 1 - |t|..] == t;
      EndsTail(s[1..], t);
    } else {
      assert s[1..][|s| - 1 - |t|..] == t;
      EndsRemove(s[1..], t);
      EndsPush(Remove(s[1..], t[0]), t[1..], s[0]);
    }
  }

  lemma {:induction false} FillEnds(env: Env, w: World, left: nat, t: seq<nat>)
    requires Ends(w.active, t)
    ensures Ends(Fill(env, w, left).active, t)
    decreases if w.queue.Some? && w.idx <= |w.queue.value| then |w.queue.value| - w.idx else 0
  {
    hide Ends, Starts;
    if w.queue.Some? && left > 0 && w.idx < |w.queue.value| && |w.active| < env.slots {
      EndsPush(w.active, t, |w.store|);
      FillEnds(env, TakeNext(env, w), if Starts(env, w) then left - 1 else left, t);
    }
  }

  lemma DoneEnds(env: Env, w: World, t: seq<nat>)
    requires Ends(w.active, t) && t != []
    ensures Ends(OnPageDone(env, w, t[0]).active, t[1..])
  {
    hide Ends, Fill, Remove;
    EndsRemove(w.active, t);
    var unlinked := w.(active := Remove(w.active, t[0]), done := w.done + 1, reported := w.reported + [t[0]]);
    FillEnds(env, unlinked, env.batch, t[1..]);
  }

  /** A deadline check of one page leaves the pages after it linked in their order. */
  lemma CheckEnds(env: Env, w: World, t: seq<nat>)
    requires Ends(w.active, t) && t != [] && t[0] < |w.store|
    ensures Ends(CheckPage(env, w, t[0]).active, t[1..])
  {
    hide Ends, OnPageDone;
    var p := t[0];
    var g := w.store[p];
    EndsTail(w.active, t);
    var failed := SetPage(Mute(w, env.extra(w.nextId)), p, g.(stage := Failed));
    var stopped := SetPage(failed, p, StopTimers(failed.store[p].(finished := true)));
    DoneEnds(env, SetPage(stopped, p, stopped.store[p].(emitted := true)), t);
    var forced := g.(finished := true, live := false, waiting := 0, deadline := 0, emitted := true);
    DoneEnds(env, SetPage(w, p, StopTimers(forced)), t);
  }

  ghost function Requested(env: Env, w: World, url: nat): (r: World) {
    Send(env, w.(store := w.store + [NewPage(url).(stage := Busy(Context))]), |w.store|, Context)
  }

  lemma RequestedLists(env: Env, w: World, url: nat)
    ensures var r := Requested(env, w, url); r.active == w.active && r.now == w.now && |r.store| == |w.store| + 1
  {
  }

  ghost function DomainsSent(env: Env, w: World, p: nat): (r: World)
    requires p < |w.store|
  {
    Send(env, Send(env, Send(env, Advance(env, w, p, Domain), p, Domain), p, Domain), p, Domain)
  }

  lemma OwnedGrows(list: seq<Entry>, all: seq<PageNode>, more: seq<PageNode>)
    requires Owned(list, all) && all <= more
    ensures Owned(list, more)
  {
  }
}
