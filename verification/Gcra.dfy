/**
 One rate-limit bucket: the generic cell rate algorithm of http_limit_gcra_plan,
 its rate bound over every run and window, and that the bound is reached.
 */
module Gcra {
  import opened Arithmetic
  import opened Wrappers

  const SECOND: nat := 1_000_000_000

  /** interval_ns and tau_ns of a rule. */
  datatype Rate = Rate(rps: nat, interval: nat, tau: nat)

  ghost predicate RateOk(r: Rate) {
    && 1 <= r.rps <= SECOND && r.interval >= 1
    && r.tau == r.interval * (r.rps - 1)
    && r.tau + r.interval <= SECOND
  }

  /** http_limit_rule_fill: the rate of a rule with 1 to 10^9 requests per second. */
  function RateOf(rps: nat): (r: Rate)
    requires 1 <= rps <= SECOND
    ensures RateOk(r)
  {
    DivisionBounds(rps);
    Rate(rps, SECOND / rps, SECOND / rps * (rps - 1))
  }

  lemma DivisionBounds(rps: nat)
    requires 1 <= rps <= SECOND
    ensures SECOND / rps >= 1 && SECOND / rps * (rps - 1) >= 0
    ensures SECOND / rps * (rps - 1) + SECOND / rps <= SECOND
  {
    var q := SECOND / rps;
    assert SECOND == rps * q + SECOND % rps;
    assert q == 0 ==> rps * q == 0;
    MulMonotone(0, rps - 1, q);
    assert q * (rps - 1) + q == rps * q;
  }

  /** The interval is the whole number of nanoseconds that `rps` of them just fit into a second. */
  lemma IntervalExact(rps: nat)
    requires 1 <= rps <= SECOND
    ensures var r := RateOf(rps);
            && r.rps == rps && r.tau == rps * r.interval - r.interval
            && rps * r.interval <= 1_000_000_000 < rps * (r.interval + 1)
  {
    var q := SECOND / rps;
    assert SECOND == rps * q + SECOND % rps;
    assert rps * (q + 1) == rps * q + rps && q * (rps - 1) == rps * q - q;
  }

  datatype Plan = Admit(newTat: nat) | Deny(retry: nat)

  function Base(tat: Option<nat>, now: nat): (b: nat)
    ensures b >= now
  {
    if tat.None? || tat.value < now then now else tat.value
  }

  /** http_limit_gcra_plan; `tat` is present when the bucket has been used. */
  function GcraPlan(tat: Option<nat>, now: nat, rate: Rate): (p: Plan) {
    var base := Base(tat, now);
    if base - now > rate.tau then
      var sec := (base - now - rate.tau + 999_999_999) / SECOND;
      Deny(if sec < 1 then 1 else sec)
    else Admit(base + rate.interval)
  }

  /** A bucket that never ran ahead by more than one burst. */
  predicate Bounded(tat: Option<nat>, now: nat, rate: Rate) {
    tat.Some? ==> tat.value <= now + rate.tau + rate.interval
  }

  /** With a clock that does not go back, every denial asks for exactly one second, and that suffices. */
  lemma RetryIsOneSecond(tat: Option<nat>, now: nat, rate: Rate)
    requires RateOk(rate) && Bounded(tat, now, rate) && GcraPlan(tat, now, rate).Deny?
    ensures GcraPlan(tat, now, rate) == Deny(1)
    ensures forall later :: later >= now + SECOND ==> GcraPlan(tat, later, rate).Admit?
  {
  }

  // ---------------------------------------------------------- rate bound

  /** Admissions of one bucket, in order: each was planned from the state the previous left. */
  ghost predicate Admissions(tat: Option<nat>, times: seq<nat>, rate: Rate)
    decreases |times|
  {
    times != [] ==>
      && GcraPlan(tat, times[0], rate).Admit?
      && (|times| > 1 ==> times[0] <= times[1])
      && Admissions(Some(GcraPlan(tat, times[0], rate).newTat), times[1..], rate)
  }

  /** Every admission pushes the theoretical arrival time by an interval. */
  lemma {:induction false} TatGrows(tat: nat, times: seq<nat>, rate: Rate, j: nat)
    requires Admissions(Some(tat), times, rate) && j < |times|
    ensures tat + j * rate.interval <= times[j] + rate.tau
    decreases j
  {
    if j > 0 {
      var next := GcraPlan(Some(tat), times[0], rate).newTat;
      TatGrows(next, times[1..], rate, j - 1);
      assert (j - 1) * rate.interval + rate.interval == j * rate.interval;
    }
  }

  lemma {:induction false} AdmissionsSuffix(tat: Option<nat>, times: seq<nat>, rate: Rate, i: nat)
    returns (mid: Option<nat>)
    requires Admissions(tat, times, rate) && i <= |times|
    ensures Admissions(mid, times[i..], rate)
    decreases i
  {
    if i == 0 {
      mid := tat;
      assert times[0..] == times;
    } else {
      mid := AdmissionsSuffix(Some(GcraPlan(tat, times[0], rate).newTat), times[1..], rate, i - 1);
      assert times[1..][i - 1..] == times[i..];
    }
  }

  /** From admission `i` to admission `j` there are at most rps + elapsed / interval of them. */
  lemma SpanBound(tat: Option<nat>, times: seq<nat>, rate: Rate, i: nat, j: nat)
    requires Admissions(tat, times, rate) && i <= j < |times|
    ensures (j - i) * rate.interval <= times[j] - times[i] + rate.tau
  {
    hide Admissions, GcraPlan;
    var mid := AdmissionsSuffix(tat, times, rate, i);
    var s := times[i..];
    if j > i {
      AfterFirst(mid, s, rate);
      TatGrows(GcraPlan(mid, s[0], rate).newTat, s[1..], rate, j - i - 1);
      assert s[1..][j - i - 1] == times[j];
      OneLess(j - i, rate.interval);
    }
  }

  lemma AfterFirst(tat: Option<nat>, times: seq<nat>, rate: Rate)
    requires Admissions(tat, times, rate) && times != []
    ensures var p := GcraPlan(tat, times[0], rate);
            p.Admit? && p.newTat >= times[0] + rate.interval && Admissions(Some(p.newTat), times[1..], rate)
  {
  }

  lemma OneLess(n: nat, w: nat)
    requires n > 0
    ensures (n - 1) * w + w == n * w
  {
  }

  lemma CountFromSpan(n: nat, span: nat, rate: Rate)
    requires RateOk(rate) && n * rate.interval <= span + rate.tau
    ensures n + 1 <= rate.rps + span / rate.interval
  {
    QuotientBounds(span, rate.interval);
    var q: nat := span / rate.interval;
    Regroup(n, q, rate);
    MulCancelStrict(n, q + rate.rps, rate.interval);
  }

  lemma QuotientBounds(span: nat, w: nat)
    requires w > 0
    ensures span / w >= 0 && span < (span / w) * w + w
  {
    var q := span / w;
    assert span == w * q + span % w;
  }

  lemma Regroup(n: nat, q: nat, rate: Rate)
    requires rate.rps >= 1 && rate.tau == rate.interval * (rate.rps - 1)
    ensures (q + rate.rps) * rate.interval == q * rate.interval + rate.interval + rate.tau
  {
    var i := rate.interval;
    assert (q + rate.rps) * i == q * i + rate.rps * i;
    assert i * (rate.rps - 1) + i == rate.rps * i;
  }

  lemma MulCancelStrict(a: nat, b: nat, w: nat)
    requires w > 0 && a * w < b * w
    ensures a < b
  {
    if b <= a { MulMonotone(b, a, w); }
  }

  /** How many of the times lie in the window from `lo` to `hi`. */
  ghost function CountIn(times: seq<nat>, lo: nat, hi: nat): nat
    decreases |times|
  {
    if times == [] then 0
    else (if lo <= times[0] <= hi then 1 else 0) + CountIn(times[1..], lo, hi)
  }

  lemma {:induction false} AdmissionsSorted(tat: Option<nat>, times: seq<nat>, rate: Rate)
    requires Admissions(tat, times, rate)
    ensures forall i, j :: 0 <= i <= j < |times| ==> times[i] <= times[j]
    decreases |times|
  {
    if times != [] { AdmissionsSorted(Some(GcraPlan(tat, times[0], rate).newTat), times[1..], rate); }
  }

  /** In a sorted list the elements of a window are consecutive. */
  lemma {:induction false} CountIsSpan(times: seq<nat>, lo: nat, hi: nat) returns (i: nat, j: nat)
    requires forall i, j :: 0 <= i <= j < |times| ==> times[i] <= times[j]
    ensures CountIn(times, lo, hi) == 0 ||
            (i <= j < |times| && lo <= times[i] <= times[j] <= hi && CountIn(times, lo, hi) <= j - i + 1)
    decreases |times|
  {
    i, j := 0, 0;
    if times != [] {
      var a, b := CountIsSpan(times[1..], lo, hi);
      var rest := CountIn(times[1..], lo, hi);
      if rest == 0 {
        i, j := 0, 0;
      } else if lo <= times[0] <= hi {
        i, j := 0, b + 1;
      } else {
        i, j := a + 1, b + 1;
      }
    }
  }

  /** Rate bound: no window of `length` nanoseconds holds more than rps + length / interval admissions. */
  lemma RateBound(tat: Option<nat>, times: seq<nat>, rate: Rate, lo: nat, length: nat)
    requires RateOk(rate) && Admissions(tat, times, rate)
    ensures CountIn(times, lo, lo + length) <= rate.rps + length / rate.interval
  {
    hide Admissions, CountIn;
    AdmissionsSorted(tat, times, rate);
    var i, j := CountIsSpan(times, lo, lo + length);
    if CountIn(times, lo, lo + length) > 0 {
      SpanBound(tat, times, rate, i, j);
      CountFromSpan(j - i, length, rate);
    } else {
      CountFromSpan(0, length, rate);
    }
  }

  // ---------------------------------------------------------- the bound is reached

  /** The theoretical arrival time before request `n` of the greedy run. */
  function GreedyTat(t: nat, n: nat, rate: Rate): (tat: nat) {
    MulMonotone(0, n, rate.interval); t + n * rate.interval
  }

  /** A full burst at `t`, then one request per interval. */
  function Greedy(t: nat, n: nat, rate: Rate): (now: nat) {
    if n < rate.rps then t else GreedyTat(t, n + 1 - rate.rps, rate)
  }

  /** The times of `n` greedy requests from number `from` on. */
  function GreedyTimes(t: nat, from: nat, n: nat, rate: Rate): (s: seq<nat>)
    ensures |s| == n
    decreases n
  {
    if n == 0 then [] else [Greedy(t, from, rate)] + GreedyTimes(t, from + 1, n - 1, rate)
  }

  lemma GreedyStep(t: nat, n: nat, rate: Rate)
    requires RateOk(rate)
    ensures Greedy(t, n, rate) <= Greedy(t, n + 1, rate)
    ensures GcraPlan(Some(GreedyTat(t, n, rate)), Greedy(t, n, rate), rate) == Admit(GreedyTat(t, n + 1, rate))
  {
    var i := rate.interval;
    assert (n + 1) * i == n * i + i;
    MulMonotone(0, n, i);
    if n < rate.rps {
      MulMonotone(n, rate.rps - 1, i);
      assert i * (rate.rps - 1) == (rate.rps - 1) * i;
    } else {
      var m := n - rate.rps + 1;
      assert n * i == m * i + i * (rate.rps - 1);
      assert (m + 1) * i == m * i + i;
    }
  }

  lemma {:induction false} GreedyAdmitted(t: nat, from: nat, n: nat, rate: Rate)
    requires RateOk(rate)
    ensures Admissions(Some(GreedyTat(t, from, rate)), GreedyTimes(t, from, n, rate), rate)
    decreases n
  {
    hide GcraPlan, GreedyTat, Greedy;
    if n > 0 {
      GreedyStep(t, from, rate);
      GreedyAdmitted(t, from + 1, n - 1, rate);
      assert GreedyTimes(t, from, n, rate)[1..] == GreedyTimes(t, from + 1, n - 1, rate);
    }
  }

  lemma {:induction false} GreedyCount(t: nat, from: nat, n: nat, k: nat, rate: Rate)
    requires RateOk(rate) && from + n <= rate.rps + k
    ensures CountIn(GreedyTimes(t, from, n, rate), t, GreedyTat(t, k, rate)) == n
    decreases n
  {
    hide GreedyTat, Greedy;
    if n > 0 {
      GreedyCount(t, from + 1, n - 1, k, rate);
      assert GreedyTimes(t, from, n, rate)[1..] == GreedyTimes(t, from + 1, n - 1, rate);
      GreedyInWindow(t, from, k, rate);
    }
  }

  lemma GreedyInWindow(t: nat, n: nat, k: nat, rate: Rate)
    requires RateOk(rate) && n < rate.rps + k
    ensures t <= Greedy(t, n, rate) <= GreedyTat(t, k, rate)
  {
    MulMonotone(0, k, rate.interval);
    if n >= rate.rps {
      MulMonotone(0, n - rate.rps + 1, rate.interval);
      MulMonotone(n - rate.rps + 1, k, rate.interval);
    }
  }

  /** The bound is exact: a fresh bucket admits rps + k requests in a window of k intervals. */
  lemma RateBoundReached(t: nat, k: nat, rate: Rate)
    requires RateOk(rate)
    ensures var times := GreedyTimes(t, 0, rate.rps + k, rate);
            && Admissions(None, times, rate)
            && CountIn(times, t, t + k * rate.interval) == rate.rps + k
  {
    GreedyAdmitted(t, 0, rate.rps + k, rate);
    GreedyCount(t, 0, rate.rps + k, k, rate);
    FreshIsNow(t, GreedyTimes(t, 0, rate.rps + k, rate), rate);
  }

  lemma FreshIsNow(t: nat, times: seq<nat>, rate: Rate)
    requires times != [] && times[0] == t && Admissions(Some(GreedyTat(t, 0, rate)), times, rate)
    ensures Admissions(None, times, rate)
  {
    assert GcraPlan(None, t, rate) == GcraPlan(Some(t), t, rate);
  }
}
