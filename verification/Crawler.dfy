/**
 The DevTools crawler as a state machine: pages with requests in flight, the session's pending
 list, and the bounded set of active pages drawn from a queue of URLs.
 */
module Crawler {
  import opened Wrappers

  const IDLE_TICKS: nat := 4
  const MAX_INFLIGHT: nat := 2

  /** A page's time budget has at least the smallest navigation timeout. */
  const BUDGET_MIN: nat := 1000

  /** Which step a response continues. */
  datatype Kind = Context | Target | Attach | Domain | Navigate | Perf | Entries | Shot | Close | Dispose

  datatype Stage = Idle | Busy(kind: Kind) | WaitIdle | Done | Failed

  /**
   cdp_page: `live` is the magic number, `waiting` is cdp_inflight, `network` is in_flight. `lost` counts
   requests whose pending entry could not be allocated; `asked` records the requests sent.
   */
  datatype Page = Page(url: nat, live: bool, finished: bool, emitted: bool, waiting: nat, lost: nat, stage: Stage,
                       idleTimer: bool, navTimer: bool, network: nat, ticks: nat, domains: nat, deadline: nat,
                       asked: seq<Kind>)

  datatype Pending = Pending(id: nat, kind: Kind, page: nat)

  /** What became of a request: not sent, sent with or without an entry for its response. */
  datatype Sent = Refused | Queued | Unqueued

  /** What the program cannot choose, by position in the run (`timer` is an allocation), and the fixed settings. */
  datatype Env = Env(send: nat -> Sent, start: nat -> bool, timer: nat -> bool, isUrl: nat -> bool, shot: nat -> bool,
                     extra: nat -> nat, budget: nat -> nat, slots: nat, batch: nat)

  /** A finished crawl cycle. */
  datatype Cycle = Cycle(queue: seq<nat>, taken: seq<nat>, done: nat, failed: nat)

  /**
   Session and crawler state. `store` holds every page ever started; `active` is the page list, newest first.
   `taken`, `failed`, `reported` and `cycles` record the history.
   */
  datatype World = World(connected: bool, open: bool, now: nat, nextId: nat, pending: seq<Pending>,
                         store: seq<Page>, active: seq<nat>,
                         queue: Option<seq<nat>>, idx: nat, done: nat,
                         sends: nat, starts: nat, timers: nat,
                         taken: seq<nat>, failed: nat, reported: seq<nat>, cycles: seq<Cycle>)

  // ---------------------------------------------------------- requests

  function SetPage(w: World, p: nat, g: Page): (r: World)
    requires p < |w.store|
  {
    w.(store := w.store[p := g])
  }

  /** page_cdp_send for a page that is not finished. */
  function Send(env: Env, w: World, p: nat, kind: Kind): (r: World)
    requires p < |w.store|
  {
    var g := w.store[p];
    if !w.open then w
    else
      var n := w.(nextId := w.nextId + 1, sends := w.sends + 1);
      var sent := g.(waiting := g.waiting + 1, asked := g.asked + [kind]);
      match env.send(w.sends)
      case Refused => n
      case Queued => SetPage(n, p, sent).(pending := w.pending + [Pending(w.nextId, kind, p)])
      case Unqueued => SetPage(n, p, sent.(lost := g.lost + 1))
  }

  /** Requests without a response callback only use up numbers. */
  function Mute(w: World, n: nat): (r: World) {
    if w.open then w.(nextId := w.nextId + n) else w
  }

  // ---------------------------------------------------------- slots

  function NewPage(url: nat): (g: Page) {
    Page(url, true, false, false, 0, 0, Idle, false, false, 0, 0, 0, 0, [])
  }

  /** chromecdp_start_page_for_node: the page sends its first request, then is linked and given its deadline. */
  function StartPage(env: Env, w: World, url: nat): (r: World) {
    var p := |w.store|;
    var created := w.(store := w.store + [NewPage(url).(stage := Busy(Context))]);
    var sent := Send(env, created, p, Context);
    SetPage(sent, p, sent.store[p].(deadline := w.now + BUDGET_MIN + env.budget(url))).(active := [p] + w.active)
  }

  /** Whether the next URL of the queue gets a page. */
  predicate Starts(env: Env, w: World)
    requires w.queue.Some? && w.idx < |w.queue.value|
  {
    env.isUrl(w.queue.value[w.idx]) && env.start(w.starts)
  }

  /** Take the next URL of the queue and try to start a page for it. */
  function TakeNext(env: Env, w: World): (r: World)
    requires w.queue.Some? && w.idx < |w.queue.value|
    ensures r.queue == w.queue && r.idx == w.idx + 1
  {
    var url := w.queue.value[w.idx];
    var next := w.(idx := w.idx + 1, taken := w.taken + [url]);
    if !env.isUrl(url) then next.(failed := w.failed + 1)
    else if !env.start(w.starts) then next.(failed := w.failed + 1, starts := w.starts + 1)
    else StartPage(env, next.(starts := w.starts + 1), url)
  }

  /** The loop of chromecdp_fill_slots. */
  function Fill(env: Env, w: World, left: nat): (r: World)
    decreases if w.queue.Some? && w.idx <= |w.queue.value| then |w.queue.value| - w.idx else 0
  {
    if w.queue.None? || left == 0 || w.idx >= |w.queue.value| || |w.active| >= env.slots then w
    else Fill(env, TakeNext(env, w), if Starts(env, w) then left - 1 else left)
  }

  /** chromecdp_maybe_finish_cycle. */
  function MaybeFinish(w: World): (r: World) {
    if w.queue.None? || w.idx < |w.queue.value| || w.active != [] then w
    else w.(queue := None, idx := 0, cycles := w.cycles + [Cycle(w.queue.value, w.taken, w.done, w.failed)])
  }

  function FillSlots(env: Env, w: World): (r: World) {
    if !w.connected || w.queue.None? then w else MaybeFinish(Fill(env, w, env.batch))
  }

  function Remove(s: seq<nat>, p: nat): (r: seq<nat>) {
    if s == [] then [] else if s[0] == p then s[1..] else [s[0]] + Remove(s[1..], p)
  }

  /** on_page_done: unlink, count, and use the free slot. */
  function OnPageDone(env: Env, w: World, p: nat): (r: World) {
    FillSlots(env, w.(active := Remove(w.active, p), done := w.done + 1, reported := w.reported + [p]))
  }

  // ---------------------------------------------------------- the end of a page

  function StopTimers(g: Page): (r: Page) {
    g.(idleTimer := false, navTimer := false)
  }

  /** page_emit_done. */
  function EmitDone(env: Env, w: World, p: nat): (r: World)
    requires p < |w.store|
  {
    var g := w.store[p];
    if !g.live || g.emitted then w else OnPageDone(env, SetPage(w, p, g.(emitted := true)), p)
  }

  /** page_try_finish. */
  function TryFinish(env: Env, w: World, p: nat): (r: World)
    requires p < |w.store|
  {
    var g := w.store[p];
    if !g.live || g.finished then w
    else
      var n := SetPage(w, p, StopTimers(g.(finished := true)));
      if g.waiting > 0 then n else EmitDone(env, n, p)
  }

  /** page_error and cdp_page_abort: best-effort cleanup without callbacks, then finish. */
  function PageError(env: Env, w: World, p: nat): (r: World)
    requires p < |w.store|
  {
    var g := w.store[p];
    if !g.live || g.finished then w
    else TryFinish(env, SetPage(Mute(w, env.extra(w.nextId)), p, g.(stage := Failed)), p)
  }

  /** cdp_page_force_finish. */
  function ForceFinish(env: Env, w: World, p: nat): (r: World)
    requires p < |w.store|
  {
    var g := w.store[p];
    if g.emitted then w
    else
      var forced := g.(finished := true, live := false, waiting := 0, deadline := 0, emitted := true);
      OnPageDone(env, SetPage(w, p, StopTimers(forced)), p)
  }

  /** page_cdp_rsp_done. */
  function ResponseDone(env: Env, w: World, p: nat): (r: World)
    requires p < |w.store|
  {
    var g := w.store[p];
    if !g.live then w
    else
      var left := if g.waiting > 0 then g.waiting - 1 else 0;
      var n := SetPage(w, p, g.(waiting := left));
      if g.finished && left == 0 then EmitDone(env, n, p) else n
  }

  // ---------------------------------------------------------- the steps of a page

  function Advance(env: Env, w: World, p: nat, kind: Kind): (r: World)
    requires p < |w.store|
  {
    Send(env, SetPage(w, p, w.store[p].(stage := Busy(kind))), p, kind)
  }

  /** step_enable_domains: four requests that share a counter, if it can be allocated, and muted settings. */
  function EnableDomains(env: Env, w: World, p: nat): (r: World)
    requires p < |w.store|
  {
    var n := w.(timers := w.timers + 1);
    if !env.timer(w.timers) then PageError(env, n, p)
    else
      var a := Advance(env, SetPage(n, p, w.store[p].(domains := 4)), p, Domain);
      var b := Send(env, a, p, Domain);
      var c := Send(env, b, p, Domain);
      Mute(Send(env, c, p, Domain), env.extra(w.nextId))
  }

  /** step_wait_idle: without a timer the page goes straight on. */
  function WaitForIdle(env: Env, w: World, p: nat): (r: World)
    requires p < |w.store|
  {
    var g := w.store[p].(stage := WaitIdle, ticks := 0);
    var n := w.(timers := w.timers + 2);
    if !env.timer(w.timers) then Advance(env, SetPage(n, p, g), p, Perf)
    else SetPage(n, p, g.(idleTimer := true, navTimer := env.timer(w.timers + 1)))
  }

  /** What the callback of a response does for a page that is live and not finished. */
  function Continue(env: Env, w: World, p: nat, kind: Kind, ok: bool): (r: World)
    requires p < |w.store|
  {
    match kind
    case Context => if ok then Advance(env, w, p, Target) else PageError(env, w, p)
    case Target => if ok then Advance(env, w, p, Attach) else PageError(env, w, p)
    case Attach => if ok then EnableDomains(env, w, p) else PageError(env, w, p)
    case Domain => if w.store[p].domains > 0 then w else Advance(env, w, p, Navigate)
    case Navigate => WaitForIdle(env, w, p)
    case Perf => Advance(env, w, p, Entries)
    case Entries => if env.shot(w.store[p].url) then Advance(env, w, p, Shot) else Advance(env, w, p, Close)
    case Shot => Advance(env, w, p, Close)
    case Close => Advance(env, w, p, Dispose)
    case Dispose => TryFinish(env, SetPage(w, p, w.store[p].(stage := Done)), p)
  }

  /** One of the four domain responses counts down, whatever the page's state. */
  function CountDown(w: World, p: nat, kind: Kind): (r: World)
    requires p < |w.store|
  {
    if kind.Domain? && w.store[p].domains > 0 then SetPage(w, p, w.store[p].(domains := w.store[p].domains - 1)) else w
  }

  function Respond(env: Env, w: World, p: nat, kind: Kind, ok: bool): (r: World)
    requires p < |w.store|
  {
    var n := ResponseDone(env, w, p);
    if p >= |n.store| then n
    else
      var c := CountDown(n, p, kind);
      var g := c.store[p];
      if !g.live || g.finished then c else Continue(env, c, p, kind, ok)
  }

  /** The position of the entry of a response, or the length of the list. */
  function Position(pending: seq<Pending>, id: nat): (i: nat)
    ensures i <= |pending|
    ensures i < |pending| ==> pending[i].id == id
    ensures forall j :: 0 <= j < i ==> pending[j].id != id
  {
    if pending == [] || pending[0].id == id then 0
    else
      var r := Position(pending[1..], id);
      assert forall j :: 0 < j <= r ==> j == r || pending[j] == pending[1..][j - 1];
      r + 1
  }

  /** cdp_ws_message for a response: unlink its entry, then call back. */
  function Message(env: Env, w: World, id: nat, ok: bool): (r: World) {
    var i := Position(w.pending, id);
    if i == |w.pending| || w.pending[i].page >= |w.store| then w
    else
      var e := w.pending[i];
      Respond(env, w.(pending := w.pending[..i] + w.pending[i + 1..]), e.page, e.kind, ok)
  }

  // ---------------------------------------------------------- timers and ticks

  /** idle_tick. */
  function IdleTick(env: Env, w: World, p: nat): (r: World)
    requires p < |w.store|
  {
    var g := w.store[p];
    if !g.idleTimer || !g.live || g.finished then w
    else if g.network > MAX_INFLIGHT then SetPage(w, p, g.(ticks := 0))
    else if g.ticks + 1 < IDLE_TICKS then SetPage(w, p, g.(ticks := g.ticks + 1))
    else Advance(env, SetPage(w, p, StopTimers(g.(ticks := g.ticks + 1))), p, Perf)
  }

  /** nav_timeout_cb. */
  function NavTimeout(env: Env, w: World, p: nat): (r: World)
    requires p < |w.store|
  {
    var g := w.store[p];
    if !g.navTimer || !g.live || g.finished || !g.stage.WaitIdle? then w
    else Advance(env, SetPage(w, p, StopTimers(g)), p, Perf)
  }

  /** Network events of a page count its requests. */
  function NetworkEvent(w: World, p: nat, begins: bool): (r: World)
    requires p < |w.store|
  {
    var g := w.store[p];
    if !g.live || g.finished then w
    else if begins then SetPage(w, p, g.(network := g.network + 1, ticks := 0))
    else SetPage(w, p, g.(network := if g.network > 0 then g.network - 1 else 0))
  }

  /** What a deadline check does to one page of the list. */
  function CheckPage(env: Env, w: World, p: nat): (r: World)
    requires p < |w.store|
  {
    var g := w.store[p];
    if g.deadline == 0 || w.now < g.deadline then w
    else if !g.finished then PageError(env, w, p)
    else if !g.emitted then ForceFinish(env, w, p)
    else w
  }

  /** chromecdp_check_deadlines over the list as it was when the check began. */
  function CheckList(env: Env, w: World, todo: seq<nat>): (r: World)
    decreases |todo|
  {
    if todo == [] || todo[0] >= |w.store| then w else CheckList(env, CheckPage(env, w, todo[0]), todo[1..])
  }

  function CheckDeadlines(env: Env, w: World): (r: World) {
    CheckList(env, w, w.active)
  }

  // ---------------------------------------------------------- cycles and connections

  /** chromecdp_begin_crawl_cycle over the configured nodes. */
  function BeginCycle(env: Env, w: World, nodes: seq<nat>): (r: World) {
    if w.active != [] || w.queue.Some? then w
    else
      var g := Gather(env, Gathered([], 0, w.timers), nodes);
      var n := w.(idx := 0, done := 0, failed := 0, taken := [], timers := g.tries);
      if g.urls == [] then n else FillSlots(env, n.(queue := Some(g.urls)))
  }

  /** A queue being built: its URLs, the capacity of its array, and the allocations tried so far. */
  datatype Gathered = Gathered(urls: seq<nat>, capacity: nat, tries: nat)

  /** crawl_queue_collect: a URL for which the array cannot grow is dropped. */
  function Collect(env: Env, g: Gathered, node: nat): (r: Gathered) {
    if !env.isUrl(node) then g
    else if |g.urls| < g.capacity then g.(urls := g.urls + [node])
    else if !env.timer(g.tries) then g.(tries := g.tries + 1)
    else Gathered(g.urls + [node], if g.capacity == 0 then 32 else 2 * g.capacity, g.tries + 1)
  }

  function Gather(env: Env, g: Gathered, nodes: seq<nat>): (r: Gathered)
    decreases |nodes|
  {
    if nodes == [] then g else Gather(env, Collect(env, g, nodes[0]), nodes[1..])
  }

  /** chromecdp_abandon_all_pages over the list. */
  function Abandon(w: World, todo: seq<nat>): (r: World)
    decreases |todo|
  {
    if todo == [] || todo[0] >= |w.store| then w
    else
      var g := w.store[todo[0]];
      Abandon(SetPage(w, todo[0], StopTimers(g.(finished := true, live := false, waiting := 0))), todo[1..])
  }

  /** on_cdp_closed: the queue, the pages and the session go. */
  function Closed(w: World): (r: World) {
    var n := Abandon(w.(active := []), w.active);
    n.(connected := false, open := false, queue := None, idx := 0, pending := [], active := [])
  }

  /** on_cdp_ready of a new session. */
  function Ready(env: Env, w: World, nodes: seq<nat>): (r: World) {
    if w.connected then w
    else BeginCycle(env, w.(connected := true, open := true, nextId := 1, pending := [], active := []), nodes)
  }

  // ---------------------------------------------------------- runs

  datatype Event =
    | Reply(id: nat, ok: bool)
    | Network(page: nat, begins: bool)
    | Tick(page: nat)
    | Timeout(page: nat)
    | BatchTick
    | CrawlTick(nodes: seq<nat>)
    | SocketDown
    | SocketClosed
    | SocketReady(nodes: seq<nat>)
    | Time(passed: nat)

  function Step(env: Env, w: World, e: Event): (r: World) {
    match e
    case Reply(id, ok) => Message(env, w, id, ok)
    case Network(p, begins) => if p in w.active && p < |w.store| then NetworkEvent(w, p, begins) else w
    case Tick(p) => if p < |w.store| then IdleTick(env, w, p) else w
    case Timeout(p) => if p < |w.store| then NavTimeout(env, w, p) else w
    case BatchTick => if w.queue.None? then w else FillSlots(env, CheckDeadlines(env, w))
    case CrawlTick(nodes) =>
      if !w.connected then w
      else
        var c := CheckDeadlines(env, w);
        if c.queue.None? && c.active == [] then BeginCycle(env, c, nodes)
        else if c.queue.Some? then FillSlots(env, c)
        else c
    case SocketDown => w.(open := false)
    case SocketClosed => Closed(w)
    case SocketReady(nodes) => Ready(env, w, nodes)
    case Time(passed) => w.(now := w.now + passed)
  }

  function Run(env: Env, w: World, es: seq<Event>): (r: World)
    decreases |es|
  {
    if es == [] then w else Run(env, Step(env, w, es[0]), es[1..])
  }

  function Begin(): (w: World) {
    World(false, false, 0, 1, [], [], [], None, 0, 0, 0, 0, 0, [], 0, [], [])
  }
}
