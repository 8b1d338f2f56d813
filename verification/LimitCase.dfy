/**
 Two rules on one path, and a run that brings the first to its rate and fills the table of the second:
 the second that the next refusal announces is not enough.
 */
module LimitCase {
  import opened Bits
  import opened Gcra
  import opened HttpLimit
  import opened LengthPrefix
  import opened LimitTable
  import opened Wrappers

  const ROOT: seq<Byte> := [47]

  /** The interval of 4096 requests a second. */
  const STEP: nat := 244140

  /** 4096 requests a second for everybody, and one a second for each address. */
  function Rules(): (cs: seq<Config>) {
    [Config(ROOT, [], RateOf(SLOTS)), Config(ROOT, [RemoteAddr], RateOf(1))]
  }

  /** The IPv6 addresses ::1, ::2 and so on. */
  function Address(i: nat): (a: seq<Byte>) {
    [COLON, COLON] + Decimal(i + 1)
  }

  /** A call of the client with address number `i`. */
  function Call(i: nat, now: nat): (q: Request) {
    Request(ROOT, [[], [Address(i)]], now, true)
  }

  /** One call of each client from number `i` up to `n`, all at `now`. */
  function Calls(i: nat, n: nat, now: nat): (qs: seq<Request>)
    decreases n - i
  {
    if i >= n then [] else [Call(i, now)] + Calls(i + 1, n, now)
  }

  // ---------------------------------------------------------- the state of the run

  function IdFor(i: nat): (id: Id) {
    Framed(REMOTE_ADDR) + Framed(Address(i))
  }

  /** The slots of the first `n` clients. */
  function Taken(n: nat, now: nat): (t: Table)
    ensures |t| == n && forall i :: 0 <= i < n ==> t[i] == Slot(IdFor(i), now + SECOND, now, true)
  {
    seq(n, i requires 0 <= i < n => Slot(IdFor(i), now + SECOND, now, true))
  }

  /** Both rules after one call of each of the first `n` clients. */
  function States(n: nat, now: nat): (ss: seq<State>)
    ensures |ss| == 2
  {
    [State(if n == 0 then None else Some(now + n * STEP), []), State(None, Taken(n, now))]
  }

  lemma CallFits(i: nat, now: nat)
    ensures ConfigsOk(Rules()) && Fits(Rules(), Call(i, now))
    ensures Labelled([]) && Labelled([RemoteAddr])
    ensures FramedPairs([RemoteAddr], [Address(i)]) == IdFor(i)
    ensures forall k :: 0 <= k < 2 ==> Matches(Rules()[k], Call(i, now))
  {
    assert BeforeQuery(ROOT) == ROOT by { assert BeforeQuery(ROOT[1..]) == []; }
    assert Label(RemoteAddr) == Some(REMOTE_ADDR);
    var keys, values := [RemoteAddr], [Address(i)];
    assert FramedPairs(keys[1..], values[1..]) == [];
    assert Framed(REMOTE_ADDR) + Framed(Address(i)) + [] == IdFor(i);
  }

  /** Clients have different ids. */
  lemma IdsDiffer(i: nat, j: nat)
    requires IdFor(i) == IdFor(j)
    ensures i == j
  {
    hide Framed, Decimal;
    FramedCut(REMOTE_ADDR, Framed(Address(i)), REMOTE_ADDR, Framed(Address(j)));
    assert Framed(Address(i)) + [] == Framed(Address(j)) + [];
    FramedCut(Address(i), [], Address(j), []);
    assert Decimal(i + 1) == Address(i)[2..] == Address(j)[2..] == Decimal(j + 1);
    DecimalInjective(i + 1, j + 1);
  }

  /** A new client is appended while there is a slot, and within a minute finds no place after that. */
  lemma PlaceFor(n: nat, now: nat, later: nat)
    requires n <= SLOTS && now <= later < now + IDLE
    ensures PlaceOf(Taken(n, now), IdFor(n), later) == if n < SLOTS then Append else Full
  {
    hide IdFor;
    forall i | 0 <= i < n ensures Taken(n, now)[i].id != IdFor(n) {
      if IdFor(i) == IdFor(n) { IdsDiffer(i, n); }
    }
    assert forall i :: 0 <= i < n ==> !IsIdle(Taken(n, now)[i], later);
  }

  /** What the first rule plans for the next call. */
  lemma SharedPlan(n: nat, now: nat)
    requires n <= SLOTS
    ensures var p := GcraPlan(States(n, now)[0].bucket, now, RateOf(SLOTS));
            p == if n < SLOTS then Admit(now + (n + 1) * STEP) else Deny(1)
    ensures GcraPlan(States(n, now)[0].bucket, now + SECOND, RateOf(SLOTS)).Admit?
  {
    assert RateOf(SLOTS).interval == STEP && RateOf(SLOTS).tau == 4095 * STEP;
  }

  // ---------------------------------------------------------- one call

  /** What both rules plan for the next client's call. */
  lemma Plans(n: nat, now: nat, later: nat)
    requires n <= SLOTS && now <= later < now + IDLE
    ensures ConfigsOk(Rules()) && Fits(Rules(), Call(n, later))
    ensures forall k :: 0 <= k < 2 ==> Matches(Rules()[k], Call(n, later))
    ensures IdOf(Rules()[1], [Address(n)]) == IdFor(n)
    ensures TablePlan(Taken(n, now), IdFor(n), later, RateOf(1)) ==
            if n < SLOTS then Admit(later + SECOND) else Deny(TABLE_RETRY)
  {
    hide IdFor, Taken, Address;
    CallFits(n, later);
    PlaceFor(n, now, later);
  }

  lemma DeniedIff(n: nat, now: nat, later: nat)
    requires n <= SLOTS && now <= later < now + IDLE
    ensures ConfigsOk(Rules()) && Fits(Rules(), Call(n, later))
    ensures DeniedBy(Rules(), States(n, now), Call(n, later), 0) <==>
            GcraPlan(States(n, now)[0].bucket, later, RateOf(SLOTS)).Deny?
    ensures DeniedBy(Rules(), States(n, now), Call(n, later), 1) <==> n == SLOTS
  {
    hide IdFor, Taken, Address, TablePlan, GcraPlan, BeforeQuery, FramedPairs, RateOf;
    Plans(n, now, later);
  }

  /** A call of a new client while there is a slot is admitted by both rules. */
  lemma CallAdmitted(n: nat, now: nat)
    requires n < SLOTS
    ensures ConfigsOk(Rules()) && Fits(Rules(), Call(n, now))
    ensures Allowed(Rules(), States(n, now), Call(n, now))
    ensures After(Rules(), States(n, now), Call(n, now)) == States(n + 1, now)
  {
    hide IdFor, Address, TablePlan, GcraPlan, BeforeQuery, FramedPairs, RateOf, PlaceOf;
    Plans(n, now, now);
    PlaceFor(n, now, now);
    SharedPlan(n, now);
    DeniedIff(n, now, now);
    assert Taken(n + 1, now) == Taken(n, now) + [Slot(IdFor(n), now + SECOND, now, true)];
  }

  /** After the last slot the first rule refuses, and nothing changes. */
  lemma CallRefused(now: nat)
    ensures ConfigsOk(Rules()) && Fits(Rules(), Call(SLOTS, now))
    ensures Answer(Rules(), States(SLOTS, now), Call(SLOTS, now)) == Refuse(1)
    ensures After(Rules(), States(SLOTS, now), Call(SLOTS, now)) == States(SLOTS, now)
  {
    hide IdFor, Address, Taken, TablePlan, GcraPlan, BeforeQuery, FramedPairs, RateOf, PlaceOf;
    var q := Call(SLOTS, now);
    Plans(SLOTS, now, now);
    PlaceFor(SLOTS, now, now);
    SharedPlan(SLOTS, now);
    DeniedIff(SLOTS, now, now);
    assert Matches(Rules()[0], q);
    assert Culprit(Rules(), States(SLOTS, now), q, 0) == 0;
  }

  /** A second later the first rule admits, and the second has no room. */
  lemma CallCrowdedOut(now: nat)
    ensures ConfigsOk(Rules()) && Fits(Rules(), Call(SLOTS, now + SECOND))
    ensures Answer(Rules(), States(SLOTS, now), Call(SLOTS, now + SECOND)) == Refuse(60)
  {
    hide IdFor, Address, Taken, TablePlan, GcraPlan, BeforeQuery, FramedPairs, RateOf, PlaceOf;
    var q := Call(SLOTS, now + SECOND);
    Plans(SLOTS, now, now + SECOND);
    SharedPlan(SLOTS, now);
    DeniedIff(SLOTS, now, now + SECOND);
    assert Matches(Rules()[0], q);
    assert Culprit(Rules(), States(SLOTS, now), q, 1) == 1;
    assert Culprit(Rules(), States(SLOTS, now), q, 0) == 1;
  }

  // ---------------------------------------------------------- the run

  lemma {:induction false} CallsAdmitted(i: nat, now: nat)
    requires i <= SLOTS
    ensures ConfigsOk(Rules()) && Clocked(Rules(), now, Calls(i, SLOTS, now))
    ensures var qs := Calls(i, SLOTS, now);
            && (forall d :: d in Decisions(Rules(), States(i, now), now, qs) ==> d)
            && StatesAfter(Rules(), States(i, now), now, qs) == States(SLOTS, now)
    decreases SLOTS - i
  {
    hide Rules, States, Address, Allowed, After, Fits, ConfigsOk;
    if i < SLOTS {
      CallAdmitted(i, now);
      CallsAdmitted(i + 1, now);
      var qs := Calls(i, SLOTS, now);
      assert qs[0] == Call(i, now) && qs[0].now == now && qs[1..] == Calls(i + 1, SLOTS, now);
    } else {
      CallFits(i, now);
    }
  }

  /**
   From fresh rules, 4096 clients are admitted once each at one moment. The refusal of the next one announces
   a second, and the same call after that second is refused for another minute.
   */
  lemma AnnouncedSecondIsNotEnough(now: nat)
    ensures ConfigsOk(Rules()) && Fits(Rules(), Call(SLOTS, now)) && Fits(Rules(), Call(SLOTS, now + SECOND))
    ensures var qs := Calls(0, SLOTS, now);
            && Clocked(Rules(), now, qs)
            && (forall d :: d in Decisions(Rules(), Fresh(Rules()), now, qs) ==> d)
            && var ss := StatesAfter(Rules(), Fresh(Rules()), now, qs);
               && Answer(Rules(), ss, Call(SLOTS, now)) == Refuse(1)
               && Answer(Rules(), After(Rules(), ss, Call(SLOTS, now)), Call(SLOTS, now + SECOND)) == Refuse(60)
  {
    FreshStates(now);
    hide *;
    CallsAdmitted(0, now);
    CallRefused(now);
    CallCrowdedOut(now);
  }

  lemma FreshStates(now: nat)
    ensures States(0, now) == Fresh(Rules())
  {
    assert Fresh(Rules())[0] == Fresh(Rules())[1] == State(None, []);
    assert Taken(0, now) == [];
  }
}
