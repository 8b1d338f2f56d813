/**
 What every step of the crawler keeps: done reported once, requests in flight counted exactly,
 slots bounded, every queued URL accounted for, and overdue pages released.
 */
module CrawlerSafety {
  import opened Crawler
  import opened Wrappers

  // ---------------------------------------------------------- the invariant

  /** The entries of a page in the pending list. */
  ghost function EntriesOf(pending: seq<Pending>, p: nat): (n: nat) {
    if pending == [] then 0 else (if pending[0].page == p then 1 else 0) + EntriesOf(pending[1..], p)
  }

  ghost predicate Distinct(s: seq<nat>) {
    forall i, j :: 0 <= i < j < |s| ==> s[i] != s[j]
  }

  ghost predicate Within(s: seq<nat>, n: nat) {
    forall i :: 0 <= i < |s| ==> s[i] < n
  }

  /** One page against the lists. */
  ghost predicate PageOk(g: Page, entries: nat, active: bool, reported: bool) {
    && (g.live ==> g.waiting == entries + g.lost)
    && (g.live && g.finished && g.waiting == 0 ==> g.emitted)
    && (g.live && g.emitted ==> g.waiting == 0)
    && (active <==> g.live && !g.emitted)
    && (reported <==> g.emitted)
    && (active ==> g.deadline > 0)
    && (g.emitted || !g.live ==> g.finished)
  }

  ghost predicate PageAt(w: World, p: nat)
    requires p < |w.store|
  {
    PageOk(w.store[p], EntriesOf(w.pending, p), p in w.active, p in w.reported)
  }

  ghost predicate PagesOk(w: World) {
    forall p: nat :: p < |w.store| ==> PageAt(w, p)
  }

  ghost predicate PendingOk(w: World) {
    && (forall i :: 0 <= i < |w.pending| ==> w.pending[i].page < |w.store| && w.pending[i].id < w.nextId)
    && (forall i, j :: 0 <= i < j < |w.pending| ==> w.pending[i].id < w.pending[j].id)
  }

  ghost predicate QueueOk(w: World) {
    && (w.queue.Some? ==> w.idx <= |w.queue.value| && w.taken == w.queue.value[..w.idx])
    && (w.queue.Some? ==> w.idx == w.done + |w.active| + w.failed)
    && (w.queue.None? ==> w.active == [])
    && (!w.connected ==> w.queue.None?)
  }

  ghost predicate CycleOk(c: Cycle) {
    c.taken == c.queue && |c.queue| == c.done + c.failed
  }

  ghost predicate ListsOk(env: Env, w: World) {
    && Distinct(w.active) && Within(w.active, |w.store|) && |w.active| <= env.slots
    && Distinct(w.reported) && Within(w.reported, |w.store|)
    && (forall i :: 0 <= i < |w.cycles| ==> CycleOk(w.cycles[i]))
  }

  ghost predicate Inv(env: Env, w: World) {
    PagesOk(w) && PendingOk(w) && QueueOk(w) && ListsOk(env, w)
  }

  // ---------------------------------------------------------- what never goes back

  ghost predicate Later(a: Page, b: Page) {
    && b.url == a.url
    && (a.finished ==> b.finished) && (a.emitted ==> b.emitted) && (!a.live ==> !b.live)
    && (b.live ==> b.deadline == a.deadline && b.lost >= a.lost)
  }

  /** A page that is not abandoned is given up only by a forced report, at or past its deadline. */
  ghost predicate Kept(a: Page, b: Page, now: nat) {
    Later(a, b) && (a.live && !b.live ==> b.emitted && 0 < a.deadline <= now)
  }

  /** A queue stays as it is until its cycle is recorded as finished. */
  ghost predicate QueueKept(w: World, r: World) {
    && w.cycles <= r.cycles
    && (w.queue.Some? ==> || (r.queue == w.queue && r.cycles == w.cycles)
                          || (|w.cycles| < |r.cycles| && r.cycles[|w.cycles|].queue == w.queue.value))
  }

  ghost predicate Grows(w: World, r: World) {
    && |w.store| <= |r.store| && w.now <= r.now && w.reported <= r.reported && QueueKept(w, r)
    && forall p: nat :: p < |w.store| ==> Kept(w.store[p], r.store[p], r.now)
  }

  lemma GrowsTrans(a: World, b: World, c: World)
    requires Grows(a, b) && Grows(b, c)
    ensures Grows(a, c)
  {
    forall p: nat | p < |a.store| ensures Kept(a.store[p], c.store[p], c.now) {
      assert Kept(a.store[p], b.store[p], b.now) && Kept(b.store[p], c.store[p], c.now);
    }
  }

  ghost predicate Fine(env: Env, w: World, r: World) {
    Inv(env, r) && Grows(w, r)
  }

  // ---------------------------------------------------------- lists

  lemma {:induction false} EntriesAppend(a: seq<Pending>, b: seq<Pending>, p: nat)
    ensures EntriesOf(a + b, p) == EntriesOf(a, p) + EntriesOf(b, p)
  {
    if a == [] {
      assert a + b == b;
    } else {
      EntriesAppend(a[1..], b, p);
      assert (a + b)[0] == a[0] && (a + b)[1..] == a[1..] + b;
    }
  }

  lemma EntriesOne(e: Pending, p: nat)
    ensures EntriesOf([e], p) == if e.page == p then 1 else 0
  {
    assert EntriesOf([e][1..], p) == 0;
  }

  lemma EntriesWithout(s: seq<Pending>, i: nat, p: nat)
    requires i < |s|
    ensures EntriesOf(s, p) == EntriesOf(s[..i] + s[i + 1..], p) + (if s[i].page == p then 1 else 0)
  {
    assert s == s[..i] + ([s[i]] + s[i + 1..]);
    EntriesAppend(s[..i], [s[i]] + s[i + 1..], p);
    EntriesAppend([s[i]], s[i + 1..], p);
    EntriesOne(s[i], p);
    EntriesAppend(s[..i], s[i + 1..], p);
  }

  lemma {:induction false} Removed(s: seq<nat>, p: nat)
    requires Distinct(s) && p in s
    ensures |Remove(s, p)| == |s| - 1 && Distinct(Remove(s, p))
    ensures forall q :: q in Remove(s, p) <==> q in s && q != p
  {
    if s[0] != p {
      assert p in s[1..];
      Removed(s[1..], p);
      var r := Remove(s[1..], p);
      assert Remove(s, p) == [s[0]] + r;
      forall q ensures q in Remove(s, p) <==> q in s && q != p {
        assert q in s <==> q == s[0] || q in s[1..];
        assert q in Remove(s, p) <==> q == s[0] || q in r;
      }
      assert s[0] !in s[1..];
    } else {
      forall q ensures q in s[1..] <==> q in s && q != p {
        assert q in s <==> q == s[0] || q in s[1..];
      }
    }
  }

  // ---------------------------------------------------------- requests and page fields

  /** Fields the invariant does not read may change freely. */
  ghost predicate SamePage(a: Page, b: Page) {
    && a.live == b.live && a.finished == b.finished && a.emitted == b.emitted && a.waiting == b.waiting
    && a.lost == b.lost && a.deadline == b.deadline && a.url == b.url
  }

  lemma TweakKeeps(env: Env, w: World, p: nat, g: Page)
    requires Inv(env, w) && p < |w.store| && SamePage(w.store[p], g)
    ensures Fine(env, w, SetPage(w, p, g))
  {
    hide EntriesOf;
    var r := SetPage(w, p, g);
    forall q: nat | q < |r.store| ensures PageAt(r, q) { assert PageAt(w, q); }
  }

  /** The parts of a world that only counters of the environment change. */
  lemma CountersKeep(env: Env, w: World, r: World)
    requires Inv(env, w)
    requires r == w.(sends := r.sends, starts := r.starts, timers := r.timers,
                     open := r.open, nextId := r.nextId, now := r.now)
    requires r.nextId >= w.nextId && r.now >= w.now
    ensures Fine(env, w, r)
  {
    hide EntriesOf;
    forall q: nat | q < |r.store| ensures PageAt(r, q) { assert PageAt(w, q); }
  }

  lemma SendKeeps(env: Env, w: World, p: nat, kind: Kind)
    requires Inv(env, w) && p < |w.store| && w.store[p].live && !w.store[p].finished
    ensures Fine(env, w, Send(env, w, p, kind))
    ensures var r := Send(env, w, p, kind);
            && |r.store| == |w.store| && r.active == w.active
            && r.queue == w.queue && r.idx == w.idx && r.connected == w.connected
            && r.store[p] == w.store[p].(waiting := r.store[p].waiting, lost := r.store[p].lost,
                                         asked := r.store[p].asked)
  {
    hide EntriesOf, PendingOk, QueueOk, ListsOk, PagesOk, Grows;
    var r := Send(env, w, p, kind);
    SendPages(env, w, p, kind);
    SendLists(env, w, p, kind);
  }

  lemma SendGrows(env: Env, w: World, p: nat, kind: Kind)
    requires p < |w.store| && w.store[p].live && !w.store[p].finished
    ensures Grows(w, Send(env, w, p, kind))
  {
  }

  lemma SendPages(env: Env, w: World, p: nat, kind: Kind)
    requires PagesOk(w) && p < |w.store| && w.store[p].live && !w.store[p].finished
    ensures PagesOk(Send(env, w, p, kind)) && Grows(w, Send(env, w, p, kind))
  {
    hide EntriesOf, Grows;
    SendGrows(env, w, p, kind);
    var r := Send(env, w, p, kind);
    forall q: nat | q < |r.store| ensures PageAt(r, q) {
      assert PageAt(w, q);
      EntriesAppend(w.pending, [Pending(w.nextId, kind, p)], q);
      EntriesOne(Pending(w.nextId, kind, p), q);
    }
  }

  lemma SendLists(env: Env, w: World, p: nat, kind: Kind)
    requires PendingOk(w) && QueueOk(w) && ListsOk(env, w) && p < |w.store|
    ensures var r := Send(env, w, p, kind); PendingOk(r) && QueueOk(r) && ListsOk(env, r)
  {
    hide QueueOk, ListsOk;
    SendQueue(env, w, p, kind);
  }

  lemma SendQueue(env: Env, w: World, p: nat, kind: Kind)
    requires QueueOk(w) && ListsOk(env, w) && p < |w.store|
    ensures QueueOk(Send(env, w, p, kind)) && ListsOk(env, Send(env, w, p, kind))
  {
  }

  // ---------------------------------------------------------- slots

  /** Starting a page is linking it and then sending its first request. */
  function Linked(env: Env, w: World, url: nat): (r: World) {
    w.(store := w.store + [NewPage(url).(stage := Busy(Context), deadline := w.now + BUDGET_MIN + env.budget(url))],
       active := [|w.store|] + w.active)
  }

  lemma StartIsLink(env: Env, w: World, url: nat)
    ensures StartPage(env, w, url) == Send(env, Linked(env, w, url), |w.store|, Context)
  {
    var p := |w.store|;
    var created := w.(store := w.store + [NewPage(url).(stage := Busy(Context))]);
    var sent := Send(env, created, p, Context);
    var linked := Linked(env, w, url);
    var r := Send(env, linked, p, Context);
    assert sent.store[p := sent.store[p].(deadline := w.now + BUDGET_MIN + env.budget(url))] == r.store;
  }

  /** A new page takes the next URL. */
  function Taking(w: World, url: nat): (r: World) {
    w.(idx := w.idx + 1, taken := w.taken + [url])
  }

  lemma {:induction false} NoEntries(pending: seq<Pending>, p: nat)
    requires forall i :: 0 <= i < |pending| ==> pending[i].page < p
    ensures EntriesOf(pending, p) == 0
  {
    if pending != [] { NoEntries(pending[1..], p); }
  }

  lemma LinkedPages(env: Env, w: World, url: nat)
    requires PagesOk(w) && PendingOk(w) && ListsOk(env, w)
    ensures PagesOk(Linked(env, w, url))
  {
    hide EntriesOf;
    var r := Linked(env, w, url);
    forall q: nat | q < |r.store| ensures PageAt(r, q) {
      assert q in r.active <==> q == |w.store| || q in w.active;
      if q < |w.store| {
        assert PageAt(w, q);
      } else {
        NoEntries(w.pending, q);
        assert q !in w.active && q !in w.reported;
      }
    }
  }

  lemma StartKeeps(env: Env, w: World, starts: nat)
    requires Inv(env, w) && w.queue.Some? && w.idx < |w.queue.value| && |w.active| < env.slots
    ensures var url := w.queue.value[w.idx];
            var r := StartPage(env, Taking(w, url).(starts := starts), url);
            Fine(env, w, r) && r.queue == w.queue && r.idx == w.idx + 1 && r.connected == w.connected
  {
    hide EntriesOf, Send, PagesOk, NewPage;
    var url := w.queue.value[w.idx];
    var t := Taking(w, url).(starts := starts);
    var l := Linked(env, t, url);
    StartIsLink(env, t, url);
    SamePages(w, t);
    LinkedPages(env, t, url);
    assert w.queue.value[..w.idx + 1] == w.queue.value[..w.idx] + [url];
    LinkedLists(env, t, url);
    assert Inv(env, l);
    NewPageFresh(env, t, url);
    SendKeeps(env, l, |w.store|, Context);
    GrowsTrans(w, l, StartPage(env, t, url));
  }

  lemma NewPageFresh(env: Env, w: World, url: nat)
    ensures var l := Linked(env, w, url);
            l.store[|w.store|].live && !l.store[|w.store|].finished && Grows(w, l)
  {
    var l := Linked(env, w, url);
    forall p: nat | p < |w.store| ensures Kept(w.store[p], l.store[p], l.now) { assert l.store[p] == w.store[p]; }
  }

  lemma SamePages(w: World, r: World)
    requires r == w.(idx := r.idx, taken := r.taken, starts := r.starts, failed := r.failed, done := r.done,
                     queue := r.queue, cycles := r.cycles, timers := r.timers)
    requires QueueKept(w, r)
    ensures PagesOk(w) <==> PagesOk(r)
    ensures Grows(w, r)
  {
    if PagesOk(w) {
      forall q: nat | q < |r.store| ensures PageAt(r, q) { assert PageAt(w, q); }
    }
    if PagesOk(r) {
      forall q: nat | q < |w.store| ensures PageAt(w, q) { assert PageAt(r, q); }
    }
  }

  lemma LinkedLists(env: Env, t: World, url: nat)
    requires PendingOk(t) && ListsOk(env, t) && |t.active| < env.slots
    requires t.queue.Some? && t.connected && t.idx <= |t.queue.value| && t.taken == t.queue.value[..t.idx]
    requires t.idx == t.done + |t.active| + t.failed + 1
    ensures var l := Linked(env, t, url); PendingOk(l) && ListsOk(env, l) && QueueOk(l)
  {
    hide NewPage;
  }

  lemma TakeNextKeeps(env: Env, w: World)
    requires Inv(env, w) && w.connected && w.queue.Some? && w.idx < |w.queue.value| && |w.active| < env.slots
    ensures Fine(env, w, TakeNext(env, w)) && TakeNext(env, w).connected
  {
    hide PagesOk, StartPage, Grows;
    var url := w.queue.value[w.idx];
    if Starts(env, w) {
      StartKeeps(env, w, w.starts + 1);
    } else {
      assert w.queue.value[..w.idx + 1] == w.queue.value[..w.idx] + [url];
      SamePages(w, TakeNext(env, w));
    }
  }

  lemma {:induction false} FillKeeps(env: Env, w: World, left: nat)
    requires Inv(env, w) && w.connected
    ensures var r := Fill(env, w, left); Fine(env, w, r) && r.connected && r.queue == w.queue
    decreases if w.queue.Some? && w.idx <= |w.queue.value| then |w.queue.value| - w.idx else 0
  {
    hide Inv, Grows, TakeNext, Starts;
    if w.queue.None? || left == 0 || w.idx >= |w.queue.value| || |w.active| >= env.slots {
      GrowsSelf(w);
    } else {
      var n := TakeNext(env, w);
      TakeNextKeeps(env, w);
      FillKeeps(env, n, if Starts(env, w) then left - 1 else left);
      GrowsTrans(w, n, Fill(env, w, left));
    }
  }

  lemma FillSlotsKeeps(env: Env, w: World)
    requires Inv(env, w)
    ensures Fine(env, w, FillSlots(env, w)) && FillSlots(env, w).connected == w.connected
  {
    hide PagesOk, Fill, EntriesOf;
    if w.connected && w.queue.Some? {
      FillKeeps(env, w, env.batch);
      var f := Fill(env, w, env.batch);
      var r := MaybeFinish(f);
      SamePages(f, r);
      if r != f {
        assert f.queue.value[..f.idx] == f.queue.value;
        assert CycleOk(r.cycles[|f.cycles|]);
      }
      GrowsTrans(w, f, r);
    }
  }

  // ---------------------------------------------------------- the end of a page

  /** Everything but page `p` is in order. */
  ghost predicate OthersOk(w: World, p: nat) {
    forall q: nat :: q < |w.store| && q != p ==> PageAt(w, q)
  }

  /** A page that ends is unlinked and reported, and its slot used. */
  lemma DoneKeeps(env: Env, w: World, p: nat, g: Page)
    requires p < |w.store| && OthersOk(w, p) && PendingOk(w) && QueueOk(w) && ListsOk(env, w)
    requires p in w.active && p !in w.reported
    requires g.emitted && g.finished && Kept(w.store[p], g, w.now)
    requires g.live ==> g.waiting == 0 == EntriesOf(w.pending, p) + g.lost
    ensures Fine(env, w, OnPageDone(env, SetPage(w, p, g), p))
    ensures var r := OnPageDone(env, SetPage(w, p, g), p); r.connected == w.connected && r.store[p].emitted
  {
    hide EntriesOf, FillSlots;
    var s := SetPage(w, p, g);
    var u := s.(active := Remove(s.active, p), done := s.done + 1, reported := s.reported + [p]);
    Removed(w.active, p);
    forall q: nat | q < |u.store| ensures PageAt(u, q) {
      assert q in u.reported <==> q in w.reported || q == p;
      if q != p { assert PageAt(w, q); }
    }
    forall i | 0 <= i < |u.active| ensures u.active[i] < |u.store| { assert u.active[i] in w.active; }
    FillSlotsKeeps(env, u);
    GrowsTrans(w, u, FillSlots(env, u));
    assert Kept(u.store[p], FillSlots(env, u).store[p], FillSlots(env, u).now);
  }

  lemma EmitDoneKeeps(env: Env, w: World, p: nat)
    requires p < |w.store| && OthersOk(w, p) && PendingOk(w) && QueueOk(w) && ListsOk(env, w)
    requires var g := w.store[p];
             g.live && g.finished && !g.emitted && g.waiting == 0 == EntriesOf(w.pending, p) + g.lost
    requires p in w.active && p !in w.reported
    ensures Fine(env, w, EmitDone(env, w, p)) && EmitDone(env, w, p).connected == w.connected
  {
    hide EntriesOf, OnPageDone;
    DoneKeeps(env, w, p, w.store[p].(emitted := true));
  }

  lemma TryFinishKeeps(env: Env, w: World, p: nat)
    requires Inv(env, w) && p < |w.store|
    ensures var r := TryFinish(env, w, p);
            Fine(env, w, r) && r.connected == w.connected && (w.store[p].live ==> r.store[p].finished)
  {
    hide EntriesOf, EmitDone;
    var g := w.store[p];
    assert PageAt(w, p);
    if g.live && !g.finished {
      var n := SetPage(w, p, StopTimers(g.(finished := true)));
      forall q: nat | q < |n.store| && q != p ensures PageAt(n, q) { assert PageAt(w, q); }
      if g.waiting > 0 {
        assert PageAt(n, p);
      } else {
        EmitDoneKeeps(env, n, p);
        GrowsTrans(w, n, EmitDone(env, n, p));
        assert Kept(n.store[p], EmitDone(env, n, p).store[p], EmitDone(env, n, p).now);
      }
    }
  }

  lemma PageErrorKeeps(env: Env, w: World, p: nat)
    requires Inv(env, w) && p < |w.store|
    ensures var r := PageError(env, w, p);
            Fine(env, w, r) && r.connected == w.connected && (w.store[p].live ==> r.store[p].finished)
  {
    hide EntriesOf, TryFinish, Inv, Grows;
    var g := w.store[p];
    if g.live && !g.finished {
      var m := Mute(w, env.extra(w.nextId));
      CountersKeep(env, w, m);
      var s := SetPage(m, p, g.(stage := Failed));
      TweakKeeps(env, m, p, g.(stage := Failed));
      TryFinishKeeps(env, s, p);
      GrowsTrans(w, m, s);
      GrowsTrans(w, s, TryFinish(env, s, p));
    } else {
      GrowsSelf(w);
    }
  }

  lemma GrowsSelf(w: World)
    ensures Grows(w, w)
  {
  }

  lemma ForceFinishKeeps(env: Env, w: World, p: nat)
    requires Inv(env, w) && p < |w.store| && (w.store[p].live || w.store[p].emitted) && 0 < w.store[p].deadline <= w.now
    ensures var r := ForceFinish(env, w, p);
            Fine(env, w, r) && r.connected == w.connected && p < |r.store| && r.store[p].emitted
  {
    hide EntriesOf, OnPageDone;
    var g := w.store[p];
    assert PageAt(w, p);
    if !g.emitted {
      var e := StopTimers(g.(finished := true, live := false, waiting := 0, deadline := 0, emitted := true));
      DoneKeeps(env, w, p, e);
    }
  }

  // ---------------------------------------------------------- responses

  /** The entry of a response is gone; then the page's count follows. */
  lemma ResponseDoneKeeps(env: Env, w: World, i: nat)
    requires Inv(env, w) && i < |w.pending|
    ensures var u := w.(pending := w.pending[..i] + w.pending[i + 1..]);
            var p := w.pending[i].page;
            p < |w.store| && Fine(env, w, ResponseDone(env, u, p)) && ResponseDone(env, u, p).connected == w.connected
  {
    hide EntriesOf, EmitDone;
    var u := w.(pending := w.pending[..i] + w.pending[i + 1..]);
    var p := w.pending[i].page;
    var g := w.store[p];
    assert PageAt(w, p);
    UnlinkedEntry(w, i);
    if g.live {
      EntriesWithout(w.pending, i, p);
      var n := SetPage(u, p, g.(waiting := g.waiting - 1));
      forall q: nat | q < |n.store| && q != p ensures PageAt(n, q) {
        assert PageAt(w, q);
        EntriesWithout(w.pending, i, q);
      }
      if g.finished && g.waiting == 1 {
        EmitDoneKeeps(env, n, p);
        GrowsTrans(w, n, EmitDone(env, n, p));
      } else {
        assert PageAt(n, p);
      }
    } else {
      forall q: nat | q < |u.store| ensures PageAt(u, q) {
        assert PageAt(w, q);
        EntriesWithout(w.pending, i, q);
      }
    }
  }

  lemma UnlinkedEntry(w: World, i: nat)
    requires PendingOk(w) && i < |w.pending|
    ensures PendingOk(w.(pending := w.pending[..i] + w.pending[i + 1..]))
  {
    var s := w.pending[..i] + w.pending[i + 1..];
    forall j | 0 <= j < |s| ensures s[j] == w.pending[if j < i then j else j + 1] { }
  }

  lemma AdvanceKeeps(env: Env, w: World, p: nat, kind: Kind)
    requires Inv(env, w) && p < |w.store| && w.store[p].live && !w.store[p].finished
    ensures var r := Advance(env, w, p, kind);
            && Fine(env, w, r) && r.connected == w.connected && |r.store| == |w.store|
            && r.store[p].live && !r.store[p].finished
  {
    hide Inv, Grows, Send;
    var g := w.store[p].(stage := Busy(kind));
    TweakKeeps(env, w, p, g);
    SendKeeps(env, SetPage(w, p, g), p, kind);
    GrowsTrans(w, SetPage(w, p, g), Advance(env, w, p, kind));
  }

  lemma EnableDomainsKeeps(env: Env, w: World, p: nat)
    requires Inv(env, w) && p < |w.store| && w.store[p].live && !w.store[p].finished
    ensures Fine(env, w, EnableDomains(env, w, p)) && EnableDomains(env, w, p).connected == w.connected
  {
    hide Inv, Grows, Send, Advance, PageError;
    var m := w.(timers := w.timers + 1);
    CountersKeep(env, w, m);
    PageErrorKeeps(env, m, p);
    GrowsTrans(w, m, PageError(env, m, p));
    var s := SetPage(m, p, w.store[p].(domains := 4));
    TweakKeeps(env, m, p, w.store[p].(domains := 4));
    GrowsTrans(w, m, s);
    var a := Advance(env, s, p, Domain);
    AdvanceKeeps(env, s, p, Domain);
    var b := Send(env, a, p, Domain);
    SendKeeps(env, a, p, Domain);
    var c := Send(env, b, p, Domain);
    SendKeeps(env, b, p, Domain);
    var d := Send(env, c, p, Domain);
    SendKeeps(env, c, p, Domain);
    CountersKeep(env, d, Mute(d, env.extra(w.nextId)));
    GrowsTrans(w, s, a);
    GrowsTrans(w, a, b);
    GrowsTrans(w, b, c);
    GrowsTrans(w, c, d);
    GrowsTrans(w, d, Mute(d, env.extra(w.nextId)));
  }

  lemma WaitForIdleKeeps(env: Env, w: World, p: nat)
    requires Inv(env, w) && p < |w.store| && w.store[p].live && !w.store[p].finished
    ensures Fine(env, w, WaitForIdle(env, w, p)) && WaitForIdle(env, w, p).connected == w.connected
  {
    hide Inv, Grows, Advance;
    var g := w.store[p].(stage := WaitIdle, ticks := 0);
    var n := w.(timers := w.timers + 2);
    CountersKeep(env, w, n);
    if !env.timer(w.timers) {
      TweakKeeps(env, n, p, g);
      AdvanceKeeps(env, SetPage(n, p, g), p, Perf);
      GrowsTrans(w, n, SetPage(n, p, g));
      GrowsTrans(w, SetPage(n, p, g), WaitForIdle(env, w, p));
    } else {
      var t := g.(idleTimer := true, navTimer := env.timer(w.timers + 1));
      TweakKeeps(env, n, p, t);
      GrowsTrans(w, n, SetPage(n, p, t));
    }
  }

  lemma ContinueKeeps(env: Env, w: World, p: nat, kind: Kind, ok: bool)
    requires Inv(env, w) && p < |w.store| && w.store[p].live && !w.store[p].finished
    ensures Fine(env, w, Continue(env, w, p, kind, ok)) && Continue(env, w, p, kind, ok).connected == w.connected
  {
    hide Inv, Grows, Advance, EnableDomains, WaitForIdle, PageError, TryFinish;
    GrowsSelf(w);
    match kind
    case Context => AdvanceKeeps(env, w, p, Target); PageErrorKeeps(env, w, p);
    case Target => AdvanceKeeps(env, w, p, Attach); PageErrorKeeps(env, w, p);
    case Attach => EnableDomainsKeeps(env, w, p); PageErrorKeeps(env, w, p);
    case Domain => AdvanceKeeps(env, w, p, Navigate);
    case Navigate => WaitForIdleKeeps(env, w, p);
    case Perf => AdvanceKeeps(env, w, p, Entries);
    case Entries => AdvanceKeeps(env, w, p, Shot); AdvanceKeeps(env, w, p, Close);
    case Shot => AdvanceKeeps(env, w, p, Close);
    case Close => AdvanceKeeps(env, w, p, Dispose);
    case Dispose =>
      var s := SetPage(w, p, w.store[p].(stage := Done));
      TweakKeeps(env, w, p, w.store[p].(stage := Done));
      TryFinishKeeps(env, s, p);
      GrowsTrans(w, s, TryFinish(env, s, p));
  }

  lemma MessageKeeps(env: Env, w: World, id: nat, ok: bool)
    requires Inv(env, w)
    ensures Fine(env, w, Message(env, w, id, ok)) && Message(env, w, id, ok).connected == w.connected
  {
    hide Grows, ResponseDone, Continue, PagesOk, QueueOk, ListsOk, Position;
    var i := Position(w.pending, id);
    GrowsSelf(w);
    if i < |w.pending| {
      var e := w.pending[i];
      var u := w.(pending := w.pending[..i] + w.pending[i + 1..]);
      ResponseDoneKeeps(env, w, i);
      var n := ResponseDone(env, u, e.page);
      GrowsSize(w, n);
      var c := CountDown(n, e.page, e.kind);
      CountDownKeeps(env, n, e.page, e.kind);
      GrowsTrans(w, n, c);
      if c.store[e.page].live && !c.store[e.page].finished {
        ContinueKeeps(env, c, e.page, e.kind, ok);
        GrowsTrans(w, c, Continue(env, c, e.page, e.kind, ok));
      }
    }
  }

  lemma GrowsSize(w: World, r: World)
    requires Grows(w, r)
    ensures |w.store| <= |r.store|
  {
  }

  lemma CountDownKeeps(env: Env, w: World, p: nat, kind: Kind)
    requires Inv(env, w) && p < |w.store|
    ensures Fine(env, w, CountDown(w, p, kind)) && CountDown(w, p, kind).connected == w.connected
  {
    hide Inv, Grows;
    GrowsSelf(w);
    if kind.Domain? && w.store[p].domains > 0 {
      TweakKeeps(env, w, p, w.store[p].(domains := w.store[p].domains - 1));
    }
  }

  // ---------------------------------------------------------- timers and deadlines

  lemma TimersKeep(env: Env, w: World, p: nat)
    requires Inv(env, w) && p < |w.store|
    ensures Fine(env, w, IdleTick(env, w, p)) && Fine(env, w, NavTimeout(env, w, p))
  {
    hide Inv, Grows, Advance;
    GrowsSelf(w);
    var g := w.store[p];
    if g.live && !g.finished {
      TweakKeeps(env, w, p, g.(ticks := 0));
      TweakKeeps(env, w, p, g.(ticks := g.ticks + 1));
      var a, b := StopTimers(g.(ticks := g.ticks + 1)), StopTimers(g);
      TweakKeeps(env, w, p, a);
      TweakKeeps(env, w, p, b);
      AdvanceKeeps(env, SetPage(w, p, a), p, Perf);
      AdvanceKeeps(env, SetPage(w, p, b), p, Perf);
      GrowsTrans(w, SetPage(w, p, a), Advance(env, SetPage(w, p, a), p, Perf));
      GrowsTrans(w, SetPage(w, p, b), Advance(env, SetPage(w, p, b), p, Perf));
    }
  }

  lemma NetworkKeeps(env: Env, w: World, p: nat, begins: bool)
    requires Inv(env, w) && p < |w.store|
    ensures Fine(env, w, NetworkEvent(w, p, begins))
  {
    hide Inv, Grows;
    GrowsSelf(w);
    var g := w.store[p];
    TweakKeeps(env, w, p, g.(network := g.network + 1, ticks := 0));
    TweakKeeps(env, w, p, g.(network := if g.network > 0 then g.network - 1 else 0));
  }

  /** Overdue at a check: an unfinished page is finished by it, a finished one is released. */
  lemma CheckPageKeeps(env: Env, w: World, p: nat)
    requires Inv(env, w) && p < |w.store| && (w.store[p].live || w.store[p].emitted)
    ensures var r := CheckPage(env, w, p);
            && Fine(env, w, r) && r.connected == w.connected && p < |r.store|
            && (0 < w.store[p].deadline <= w.now ==> r.store[p].finished)
            && (0 < w.store[p].deadline <= w.now && w.store[p].finished ==> r.store[p].emitted)
  {
    hide Grows, PageError, ForceFinish, EntriesOf;
    GrowsSelf(w);
    assert PageAt(w, p);
    PageErrorKeeps(env, w, p);
    GrowsSize(w, PageError(env, w, p));
    if 0 < w.store[p].deadline <= w.now {
      ForceFinishKeeps(env, w, p);
      EndedPage(env, ForceFinish(env, w, p), p);
      GrowsSize(w, ForceFinish(env, w, p));
    }
  }

  ghost predicate Listed(w: World, todo: seq<nat>) {
    forall i :: 0 <= i < |todo| ==> todo[i] < |w.store| && (w.store[todo[i]].live || w.store[todo[i]].emitted)
  }

  lemma ActiveListed(env: Env, w: World)
    requires Inv(env, w)
    ensures Listed(w, w.active)
  {
    forall i | 0 <= i < |w.active| ensures w.store[w.active[i]].live { assert PageAt(w, w.active[i]); }
  }

  lemma ListedAfter(w: World, r: World, todo: seq<nat>)
    requires Listed(w, todo) && Grows(w, r)
    ensures Listed(r, todo)
  {
    forall i | 0 <= i < |todo| ensures r.store[todo[i]].live || r.store[todo[i]].emitted {
      assert Kept(w.store[todo[i]], r.store[todo[i]], r.now);
    }
  }

  /** A check over a list: it keeps the invariant and acts on every overdue page of the list. */
  lemma {:induction false} CheckListKeeps(env: Env, w: World, todo: seq<nat>)
    requires Inv(env, w) && Listed(w, todo)
    ensures Fine(env, w, CheckList(env, w, todo)) && CheckList(env, w, todo).connected == w.connected
    decreases |todo|
  {
    hide Inv, Grows, CheckPage;
    GrowsSelf(w);
    if todo != [] {
      var n := CheckPage(env, w, todo[0]);
      CheckPageKeeps(env, w, todo[0]);
      ListedAfter(w, n, todo);
      CheckListKeeps(env, n, todo[1..]);
      GrowsTrans(w, n, CheckList(env, n, todo[1..]));
    }
  }

  /** A page past its deadline. */
  predicate Overdue(w: World, p: nat) {
    p < |w.store| && 0 < w.store[p].deadline <= w.now
  }

  /** Nothing but a release takes an overdue page off the list, and time does not run back. */
  lemma StaysOverdue(env: Env, w: World, r: World, p: nat)
    requires Inv(env, w) && Fine(env, w, r) && Overdue(w, p) && p in w.active
    ensures r.store[p].emitted || (p in r.active && Overdue(r, p))
  {
    hide EntriesOf;
    assert PageAt(w, p) && PageAt(r, p) && Kept(w.store[p], r.store[p], r.now);
  }

  lemma {:induction false} CheckListActs(env: Env, w: World, todo: seq<nat>, p: nat)
    requires Inv(env, w) && Listed(w, todo) && p in todo && p < |w.store|
    requires w.store[p].emitted || (p in w.active && Overdue(w, p))
    ensures var r := CheckList(env, w, todo);
            p < |r.store| && r.store[p].finished && (w.store[p].finished ==> r.store[p].emitted)
    decreases |todo|
  {
    hide Inv, Grows, CheckPage;
    var q := todo[0];
    var n := CheckPage(env, w, q);
    CheckPageKeeps(env, w, q);
    ListedAfter(w, n, todo);
    CheckListKeeps(env, n, todo[1..]);
    var r := CheckList(env, n, todo[1..]);
    KeptPage(env, w, n, p);
    KeptPage(env, n, r, p);
    EndedPage(env, w, p);
    if q != p && !w.store[p].emitted {
      StaysOverdue(env, w, n, p);
      CheckListActs(env, n, todo[1..], p);
    }
  }

  lemma KeptPage(env: Env, w: World, r: World, p: nat)
    requires Grows(w, r) && p < |w.store|
    ensures p < |r.store| && Kept(w.store[p], r.store[p], r.now)
  {
  }

  lemma EndedPage(env: Env, w: World, p: nat)
    requires Inv(env, w) && p < |w.store|
    ensures w.store[p].emitted ==> w.store[p].finished && p !in w.active
  {
    hide EntriesOf;
    assert PageAt(w, p);
  }

  // ---------------------------------------------------------- cycles and connections

  /** The configured URLs. */
  function Urls(env: Env, nodes: seq<nat>): (s: seq<nat>) {
    if nodes == [] then [] else (if env.isUrl(nodes[0]) then [nodes[0]] else []) + Urls(env, nodes[1..])
  }

  ghost predicate Subsequence(s: seq<nat>, t: seq<nat>)
    decreases |t|
  {
    s == [] || (t != [] && ((s[0] == t[0] && Subsequence(s[1..], t[1..])) || Subsequence(s, t[1..])))
  }

  lemma SubsequenceGrows(x: nat, s: seq<nat>, t: seq<nat>)
    requires Subsequence(s, t)
    ensures Subsequence([x] + s, [x] + t) && Subsequence(s, [x] + t)
  {
    assert ([x] + s)[1..] == s && ([x] + t)[1..] == t;
  }

  lemma CollectAdds(env: Env, g: Gathered, node: nat)
    ensures var us := Collect(env, g, node).urls; us == g.urls || (env.isUrl(node) && us == g.urls + [node])
    ensures env.timer(g.tries) && env.isUrl(node) ==> Collect(env, g, node).urls == g.urls + [node]
  {
  }

  lemma {:induction false} GatherAdds(env: Env, g: Gathered, nodes: seq<nat>) returns (more: seq<nat>)
    ensures Gather(env, g, nodes).urls == g.urls + more && Subsequence(more, Urls(env, nodes))
    ensures (forall k :: env.timer(k)) ==> more == Urls(env, nodes)
    decreases |nodes|
  {
    hide Subsequence, Collect, Urls;
    UrlsStep(env, nodes);
    if nodes == [] {
      more := [];
      NothingFirst(Urls(env, nodes));
    } else {
      var x, next := nodes[0], Collect(env, g, nodes[0]);
      CollectAdds(env, g, x);
      var rest := GatherAdds(env, next, nodes[1..]);
      SubsequenceGrows(x, rest, Urls(env, nodes[1..]));
      if next.urls == g.urls {
        more := rest;
      } else {
        Regroup(g.urls, [x], rest);
        more := [x] + rest;
      }
    }
  }

  lemma UrlsStep(env: Env, nodes: seq<nat>)
    ensures Urls(env, nodes) ==
            if nodes == [] then []
            else if env.isUrl(nodes[0]) then [nodes[0]] + Urls(env, nodes[1..])
            else Urls(env, nodes[1..])
  {
  }

  lemma Regroup(a: seq<nat>, b: seq<nat>, c: seq<nat>)
    ensures (a + b) + c == a + (b + c)
  {
  }

  lemma NothingFirst(t: seq<nat>)
    ensures Subsequence([], t)
  {
  }

  /** The queue of a cycle holds configured URLs in their order, and all of them unless an allocation failed. */
  lemma QueueGathered(env: Env, tries: nat, nodes: seq<nat>)
    ensures Subsequence(Gather(env, Gathered([], 0, tries), nodes).urls, Urls(env, nodes))
    ensures (forall k :: env.timer(k)) ==> Gather(env, Gathered([], 0, tries), nodes).urls == Urls(env, nodes)
  {
    hide Gather, Urls, Subsequence;
    var more := GatherAdds(env, Gathered([], 0, tries), nodes);
    assert [] + more == more;
  }

  lemma BeginCycleKeeps(env: Env, w: World, nodes: seq<nat>)
    requires Inv(env, w) && w.connected
    ensures Fine(env, w, BeginCycle(env, w, nodes))
  {
    hide PagesOk, FillSlots, Grows, Gather;
    GrowsSelf(w);
    if w.active == [] && w.queue.None? {
      var g := Gather(env, Gathered([], 0, w.timers), nodes);
      var n := w.(idx := 0, done := 0, failed := 0, taken := [], timers := g.tries);
      SamePages(w, n);
      if g.urls != [] {
        var s := n.(queue := Some(g.urls));
        SamePages(w, s);
        FillSlotsKeeps(env, s);
        GrowsTrans(w, s, FillSlots(env, s));
      }
    }
  }

  /** Time, flags and pages may also change by a disconnection, which abandons pages unreported. */
  ghost predicate Loose(w: World, r: World) {
    && |w.store| <= |r.store| && w.now <= r.now && w.reported <= r.reported
    && forall p: nat :: p < |w.store| ==> Later(w.store[p], r.store[p])
  }

  lemma LooseTrans(a: World, b: World, c: World)
    requires Loose(a, b) && Loose(b, c)
    ensures Loose(a, c)
  {
    forall p: nat | p < |a.store| ensures Later(a.store[p], c.store[p]) {
      assert Later(a.store[p], b.store[p]) && Later(b.store[p], c.store[p]);
    }
  }

  lemma GrowsLoose(w: World, r: World)
    requires Grows(w, r)
    ensures Loose(w, r)
  {
    forall p: nat | p < |w.store| ensures Later(w.store[p], r.store[p]) { assert Kept(w.store[p], r.store[p], r.now); }
  }

  /** Abandoning a list only changes its pages. */
  lemma {:induction false} AbandonEffect(w: World, todo: seq<nat>)
    requires Within(todo, |w.store|)
    ensures var r := Abandon(w, todo);
            && r == w.(store := r.store) && |r.store| == |w.store|
            && (forall p: nat :: p < |w.store| && p !in todo ==> r.store[p] == w.store[p])
            && (forall p: nat :: p < |w.store| && p in todo ==>
                  && !r.store[p].live && r.store[p].finished
                  && r.store[p].emitted == w.store[p].emitted && Later(w.store[p], r.store[p]))
    decreases |todo|
  {
    if todo != [] {
      var g := StopTimers(w.store[todo[0]].(finished := true, live := false, waiting := 0));
      var n := SetPage(w, todo[0], g);
      AbandonEffect(n, todo[1..]);
      var r := Abandon(n, todo[1..]);
      forall p: nat | p < |w.store| && p in todo
        ensures !r.store[p].live && r.store[p].finished
        ensures r.store[p].emitted == w.store[p].emitted && Later(w.store[p], r.store[p])
      {
        if p in todo[1..] { } else { assert p == todo[0]; }
      }
    }
  }

  lemma ClosedKeeps(env: Env, w: World)
    requires Inv(env, w)
    ensures Inv(env, Closed(w)) && Loose(w, Closed(w)) && Closed(w).active == []
  {
    hide EntriesOf, Abandon;
    var r := Closed(w);
    AbandonEffect(w.(active := []), w.active);
    NoEntriesAtAll();
    forall p: nat | p < |r.store| ensures PageAt(r, p) { assert PageAt(w, p); }
  }

  lemma NoEntriesAtAll()
    ensures forall p :: EntriesOf([], p) == 0
  {
  }

  lemma ReadyKeeps(env: Env, w: World, nodes: seq<nat>)
    requires Inv(env, w)
    ensures Inv(env, Ready(env, w, nodes)) && Loose(w, Ready(env, w, nodes))
  {
    hide EntriesOf, BeginCycle;
    GrowsSelf(w);
    GrowsLoose(w, w);
    if !w.connected {
      var s := w.(connected := true, open := true, nextId := 1, pending := [], active := []);
      NoEntriesAtAll();
      forall p: nat | p < |s.store| ensures PageAt(s, p) { assert PageAt(w, p); }
      BeginCycleKeeps(env, s, nodes);
      GrowsLoose(s, BeginCycle(env, s, nodes));
      LooseTrans(w, s, BeginCycle(env, s, nodes));
    }
  }

  lemma CheckDeadlinesKeeps(env: Env, w: World)
    requires Inv(env, w)
    ensures Fine(env, w, CheckDeadlines(env, w)) && CheckDeadlines(env, w).connected == w.connected
  {
    hide Inv, Grows, CheckList;
    ActiveListed(env, w);
    CheckListKeeps(env, w, w.active);
  }

  lemma TicksKeep(env: Env, w: World, nodes: seq<nat>)
    requires Inv(env, w)
    ensures Fine(env, w, Step(env, w, BatchTick)) && Fine(env, w, Step(env, w, CrawlTick(nodes)))
  {
    hide Inv, Grows, CheckDeadlines, FillSlots, BeginCycle;
    GrowsSelf(w);
    var c := CheckDeadlines(env, w);
    CheckDeadlinesKeeps(env, w);
    FillSlotsKeeps(env, c);
    GrowsTrans(w, c, FillSlots(env, c));
    if w.connected {
      BeginCycleKeeps(env, c, nodes);
      GrowsTrans(w, c, BeginCycle(env, c, nodes));
    }
  }

  /** Every event keeps the invariant. */
  lemma StepKeeps(env: Env, w: World, e: Event)
    requires Inv(env, w)
    ensures Inv(env, Step(env, w, e)) && Loose(w, Step(env, w, e))
    ensures !e.SocketClosed? && !e.SocketReady? ==> Grows(w, Step(env, w, e))
  {
    hide Inv, Grows, Loose, Message, NetworkEvent, IdleTick, NavTimeout, CheckDeadlines, FillSlots, BeginCycle,
         Closed, Ready;
    var r := Step(env, w, e);
    GrowsSelf(w);
    if e.SocketClosed? {
      ClosedKeeps(env, w);
    } else if e.SocketReady? {
      ReadyKeeps(env, w, e.nodes);
    } else {
      match e {
        case Reply(id, ok) => MessageKeeps(env, w, id, ok);
        case Network(p, begins) => if p < |w.store| { NetworkKeeps(env, w, p, begins); }
        case Tick(p) => if p < |w.store| { TimersKeep(env, w, p); }
        case Timeout(p) => if p < |w.store| { TimersKeep(env, w, p); }
        case BatchTick => TicksKeep(env, w, []);
        case CrawlTick(nodes) => TicksKeep(env, w, nodes);
        case SocketDown => CountersKeep(env, w, r);
        case Time(passed) => CountersKeep(env, w, r);
        case _ =>
      }
      GrowsLoose(w, r);
    }
  }

  lemma {:induction false} RunKeeps(env: Env, w: World, es: seq<Event>)
    requires Inv(env, w)
    ensures Inv(env, Run(env, w, es)) && Loose(w, Run(env, w, es))
    decreases |es|
  {
    hide Inv, Loose, Grows, Step;
    if es == [] {
      GrowsSelf(w);
      GrowsLoose(w, w);
    } else {
      StepKeeps(env, w, es[0]);
      RunKeeps(env, Step(env, w, es[0]), es[1..]);
      LooseTrans(w, Step(env, w, es[0]), Run(env, w, es));
    }
  }

  // ---------------------------------------------------------- the results

  lemma BeginOk(env: Env)
    ensures Inv(env, Begin())
  {
  }

  /** A page's requests and its report, from the outside. */
  ghost predicate Accounted(w: World, p: nat)
    requires p < |w.store|
  {
    var g := w.store[p];
    && (g.live ==> g.waiting == EntriesOf(w.pending, p) + g.lost)
    && (g.live && g.finished && g.waiting == 0 ==> p in w.reported)
    && (p in w.active <==> g.live && p !in w.reported)
  }

  /**
   Page completion, over every run: done is reported at most once for a page; a page's count of requests in
   flight is its entries in the pending list and those whose entry was never made; a page that is live,
   finished and has nothing in flight has been reported.
   */
  lemma PageCompletion(env: Env, es: seq<Event>)
    ensures var w := Run(env, Begin(), es);
            && (forall i, j :: 0 <= i < j < |w.reported| ==> w.reported[i] != w.reported[j])
            && (forall p: nat :: p < |w.store| ==> Accounted(w, p))
  {
    hide Run, EntriesOf;
    BeginOk(env);
    RunKeeps(env, Begin(), es);
    var w := Run(env, Begin(), es);
    forall p: nat | p < |w.store| ensures Accounted(w, p) { assert PageAt(w, p); }
  }

  /**
   Crawler slots, over every run: never more active pages than slots; in a cycle the URLs taken are the first of
   the queue and each is done, active or failed; a queue is released only when all of it was taken and none is active.
   */
  lemma CrawlerSlots(env: Env, es: seq<Event>)
    ensures var w := Run(env, Begin(), es);
            && |w.active| <= env.slots && Distinct(w.active)
            && (w.queue.Some? ==> w.idx <= |w.queue.value| && w.taken == w.queue.value[..w.idx])
            && (w.queue.Some? ==> w.idx == w.done + |w.active| + w.failed)
            && (w.queue.None? ==> w.active == [])
            && (forall i :: 0 <= i < |w.cycles| ==> CycleOk(w.cycles[i]))
  {
    hide Run;
    BeginOk(env);
    RunKeeps(env, Begin(), es);
  }

  /**
   Deadlines: a page on the list at a check at or past its deadline is off the list after that check
   or after the next one, whatever happens in between.
   */
  lemma OverdueReleased(env: Env, before: seq<Event>, between: seq<Event>, p: nat)
    requires var w := Run(env, Begin(), before); p in w.active && Overdue(w, p)
    ensures var first := CheckDeadlines(env, Run(env, Begin(), before));
            var second := CheckDeadlines(env, Run(env, first, between));
            p !in second.active && (p in first.active ==> p < |first.store| && first.store[p].finished)
  {
    hide Run, Inv, Loose, Grows, CheckList;
    BeginOk(env);
    RunKeeps(env, Begin(), before);
    var w := Run(env, Begin(), before);
    CheckDeadlinesKeeps(env, w);
    ActiveListed(env, w);
    CheckListActs(env, w, w.active, p);
    var first := CheckDeadlines(env, w);
    RunKeeps(env, first, between);
    SecondCheck(env, w, first, Run(env, first, between), p);
  }

  lemma SecondCheck(env: Env, w: World, first: World, u: World, p: nat)
    requires Inv(env, w) && Fine(env, w, first) && Inv(env, u) && Loose(first, u)
    requires p < |w.store| && p in w.active && Overdue(w, p) && p < |first.store| && first.store[p].finished
    ensures p !in CheckDeadlines(env, u).active
  {
    hide CheckList, EntriesOf;
    assert PageAt(w, p) && PageAt(first, p) && PageAt(u, p);
    assert Kept(w.store[p], first.store[p], first.now) && Later(first.store[p], u.store[p]);
    CheckDeadlinesKeeps(env, u);
    var r := CheckDeadlines(env, u);
    assert Kept(u.store[p], r.store[p], r.now);
    assert PageAt(r, p);
    if p in u.active {
      ActiveListed(env, u);
      CheckListActs(env, u, u.active, p);
    }
  }

  /** Only a lost connection or a finished cycle takes a queue away: then all of it was taken and none was active. */
  lemma QueueReleased(env: Env, es: seq<Event>, e: Event)
    requires Run(env, Begin(), es).queue.Some? && !e.SocketClosed?
    ensures var w := Run(env, Begin(), es);
            var r := Step(env, w, e);
            r.queue != w.queue ==>
              |w.cycles| < |r.cycles| && r.cycles[|w.cycles|].queue == w.queue.value && CycleOk(r.cycles[|w.cycles|])
  {
    hide Run, Step, PagesOk, PendingOk;
    BeginOk(env);
    RunKeeps(env, Begin(), es);
    var w := Run(env, Begin(), es);
    StepKeeps(env, w, e);
    if e.SocketReady? { ReadyWhenConnected(env, w, e.nodes); }
  }

  lemma ReadyWhenConnected(env: Env, w: World, nodes: seq<nat>)
    requires QueueOk(w) && w.queue.Some?
    ensures Step(env, w, SocketReady(nodes)) == w
  {
  }

  /** A page with a request whose entry was never allocated is never reported by itself. */
  lemma LostNeverReported(env: Env, w: World, p: nat)
    requires Inv(env, w) && p < |w.store| && w.store[p].live && w.store[p].lost > 0
    ensures p !in w.reported && p in w.active && w.store[p].waiting > 0
  {
    hide EntriesOf;
    assert PageAt(w, p);
  }

  /**
   In every run such a page stays on the list with its requests counted in flight, until a forced finish
   at or past its deadline or a lost connection.
   */
  lemma LostPageStays(env: Env, es: seq<Event>, e: Event, p: nat)
    requires var w := Run(env, Begin(), es); p < |w.store| && w.store[p].live && w.store[p].lost > 0
    ensures var w := Run(env, Begin(), es);
            var r := Step(env, w, e);
            && p in w.active && p !in w.reported && p < |r.store|
            && (|| (r.store[p].live && r.store[p].lost > 0 && p in r.active && p !in r.reported)
                || (!r.store[p].live && r.store[p].emitted && 0 < w.store[p].deadline <= r.now)
                || (!r.store[p].live && e.SocketClosed?))
  {
    hide Run, Step, Inv, Loose, Grows;
    BeginOk(env);
    RunKeeps(env, Begin(), es);
    var w := Run(env, Begin(), es);
    StepKeeps(env, w, e);
    var r := Step(env, w, e);
    LostNeverReported(env, w, p);
    LoosePage(w, r, p);
    if r.store[p].live {
      LostNeverReported(env, r, p);
    } else if e.SocketReady? {
      NotReadyTwice(env, w, e.nodes, p);
    } else if !e.SocketClosed? {
      KeptPage(env, w, r, p);
    }
  }

  /** One page at a time, and no pending entry can be allocated. */
  function NoEntryEnv(): (env: Env) {
    Env(_ => Unqueued, _ => true, _ => true, _ => true, _ => false, _ => 0, _ => 0, 1, 1)
  }

  /** The first queue of a connection with one configured URL. */
  function FirstQueue(): (w: World) {
    World(true, true, 0, 1, [], [], [], Some([0]), 0, 0, 0, 0, 1, [], 0, [], [])
  }

  lemma FirstReady()
    ensures Ready(NoEntryEnv(), Begin(), [0]) == FillSlots(NoEntryEnv(), FirstQueue())
  {
    hide FillSlots;
    assert Gather(NoEntryEnv(), Gathered([], 0, 0), [0]) == Gathered([0], 32, 1) by { assert [0][1..] == []; }
  }

  lemma FirstFill()
    ensures var w := FillSlots(NoEntryEnv(), FirstQueue());
            |w.store| == 1 && w.store[0].live && w.store[0].lost == 1 && w.store[0].waiting == 1
  {
    var env := NoEntryEnv();
    var taken := TakeNext(env, FirstQueue());
    assert Fill(env, FirstQueue(), 1) == Fill(env, taken, 0) == taken;
  }

  /** Such a page occurs: without memory for its first entry, the first page of a connection is one. */
  lemma LostPageOccurs()
    ensures var w := Run(NoEntryEnv(), Begin(), [SocketReady([0])]);
            |w.store| == 1 && w.store[0].live && w.store[0].lost == 1 && w.store[0].waiting == 1
  {
    hide Ready, FillSlots, Begin, NoEntryEnv, FirstQueue;
    var env, es := NoEntryEnv(), [SocketReady([0])];
    assert Run(env, Begin(), es) == Run(env, Step(env, Begin(), es[0]), es[1..]) == Ready(env, Begin(), [0]);
    FirstReady();
    FirstFill();
  }

  lemma LoosePage(w: World, r: World, p: nat)
    requires Loose(w, r) && p < |w.store|
    ensures p < |r.store| && Later(w.store[p], r.store[p])
  {
  }

  /** With a page on the list the connection is up, and a second ready changes nothing. */
  lemma NotReadyTwice(env: Env, w: World, nodes: seq<nat>, p: nat)
    requires Inv(env, w) && p in w.active
    ensures Step(env, w, SocketReady(nodes)) == w
  {
  }
}
