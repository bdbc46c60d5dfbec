/** The pacing of `punch_udp` in common.rs: empty packets go out at growing intervals
    until an answer comes or twenty seconds have passed. Times are in microseconds,
    intervals in milliseconds. */
module Punch {

  const FIRST_INTERVAL := 20
  const MAX_INTERVAL := 200
  const MAX_TIME := 20_000_000

  datatype Pace = Pace(interval: nat, sent: nat, last: nat)

  /** A wake-up reads the clock for the limit, for the interval and after sending. */
  datatype Wake = Wake(t1: nat, t2: nat, t3: nat)

  function Grown(interval: nat): nat
  {
    if interval * 3 / 2 <= MAX_INTERVAL then interval * 3 / 2 else MAX_INTERVAL
  }

  predicate TimedOut(start: nat, w: Wake) {
    w.t1 >= start && w.t1 - start > MAX_TIME
  }

  predicate Due(p: Pace, w: Wake) {
    w.t2 >= p.last && w.t2 - p.last >= p.interval * 1000
  }

  function OnWake(p: Pace, w: Wake): Pace
  {
    if Due(p, w) then Pace(Grown(p.interval), p.sent + 1, w.t3) else p
  }

  class Puncher {
    const start: nat
    var retryInterval: nat
    var packetsSent: nat
    var lastSendTime: nat

    ghost function Value(): Pace
      reads this
    {
      Pace(retryInterval, packetsSent, lastSendTime)
    }

    /** The first packet goes out before the loop. */
    constructor (sendTime: nat, start: nat)
      ensures Value() == Pace(FIRST_INTERVAL, 1, sendTime) && this.start == start
    {
      retryInterval, packetsSent, lastSendTime := FIRST_INTERVAL, 1, sendTime;
      this.start := start;
    }

    method Sleep(w: Wake) returns (timedOut: bool)
      requires start <= w.t1 && lastSendTime <= w.t2
      modifies this
      ensures timedOut == TimedOut(start, w)
      ensures Value() == if timedOut then old(Value()) else OnWake(old(Value()), w)
    {
      if w.t1 - start > MAX_TIME {
        return true;
      }
      var elapsed := w.t2 - lastSendTime;
      if elapsed >= retryInterval * 1000 {
        packetsSent := packetsSent + 1;
        var grown := retryInterval * 3 / 2;
        retryInterval := if grown <= MAX_INTERVAL then grown else MAX_INTERVAL;
        lastSendTime := w.t3;
      }
      return false;
    }
  }

  function Min(a: nat, b: nat): nat { if a <= b then a else b }

  /** How far the sleeps and the readings of the clock may be off: a sleep may end at most
      `early` too soon, and the reading for the interval comes at most `late` after the
      one for the limit. */
  datatype Drift = Drift(early: nat, late: nat)

  /** The loop runs on from `awake`, when its sleep began, while the limit is not passed
      and the clock does not go back. */
  predicate Running(p: Pace, awake: nat, start: nat, wakes: seq<Wake>, d: Drift)
    decreases |wakes|
  {
    wakes == []
    || (awake <= wakes[0].t1 <= wakes[0].t2 <= wakes[0].t3
        && wakes[0].t1 + d.early >= awake + p.interval * 1000
        && wakes[0].t2 <= wakes[0].t1 + d.late
        && !TimedOut(start, wakes[0])
        && Running(OnWake(p, wakes[0]), Asleep(p, wakes[0]), start, wakes[1..], d))
  }

  /** When the next sleep begins. */
  function Asleep(p: Pace, w: Wake): nat
  {
    if Due(p, w) then w.t3 else w.t2
  }

  function Run(p: Pace, wakes: seq<Wake>): Pace
    decreases |wakes|
  {
    if wakes == [] then p else Run(OnWake(p, wakes[0]), wakes[1..])
  }

  /** The first packet leaves at `first`, the loop begins at `start`. */
  predicate FromStart(first: nat, start: nat, wakes: seq<Wake>, d: Drift) {
    first <= start && Running(Pace(FIRST_INTERVAL, 1, first), start, start, wakes, d)
  }

  function Sent(first: nat, wakes: seq<Wake>): nat
  {
    Run(Pace(FIRST_INTERVAL, 1, first), wakes).sent
  }

  /** The interval after `n` retries. */
  function Interval(n: nat): nat
  {
    if n == 0 then FIRST_INTERVAL else Grown(Interval(n - 1))
  }

  function Total(n: nat): nat
  {
    if n == 0 then 0 else Total(n - 1) + Interval(n - 1)
  }

  lemma {:induction false} IntervalGrows(n: nat)
    ensures FIRST_INTERVAL <= Interval(n) <= Interval(n + 1) <= MAX_INTERVAL
  {
    if n > 0 {
      IntervalGrows(n - 1);
    }
  }

  lemma {:induction false} FullIntervals(k: nat)
    ensures Interval(k + 6) == 200 && Total(k + 6) == 412 + 200 * k
  {
    if k == 0 {
      assert Interval(1) == 30 && Interval(2) == 45 && Interval(3) == 67;
      assert Interval(4) == 100 && Interval(5) == 150;
      assert Total(3) == 95;
    } else {
      FullIntervals(k - 1);
    }
  }

  /** What the first retry can gain on the loop's start: not more than the sleep is short,
      nor than the interval, nor than the time since the first packet. */
  function Head(first: nat, start: nat, d: Drift): nat
    requires first <= start
  {
    Min(Min(start - first, d.early), 1000 * FIRST_INTERVAL)
  }

  /** The time before which the `n`-th retry cannot come. */
  function Earliest(first: nat, start: nat, d: Drift, n: nat): int
    requires first <= start
  {
    start - Head(first, start, d) + 1000 * Total(n)
  }

  /** Whether `n` retries fit: the check of the limit that precedes the last one comes
      after the one before, and not too long before the last. */
  predicate Fits(first: nat, start: nat, d: Drift, n: nat)
    requires first <= start
  {
    n == 0
    || (Earliest(first, start, d, n - 1) <= start + MAX_TIME
        && Earliest(first, start, d, n) <= start + MAX_TIME + Min(d.early, d.late))
  }

  lemma {:induction false} TotalMonotone(m: nat, n: nat)
    requires m <= n
    ensures Total(m) <= Total(n)
  {
    if m < n {
      TotalMonotone(m, n - 1);
    }
  }

  // No run sends more.

  /** The invariant of the pacing: packets, interval and time advance together. */
  ghost predicate Paced(p: Pace, awake: nat, first: nat, start: nat, d: Drift)
    requires first <= start
  {
    && p.sent > 0 && p.interval == Interval(p.sent - 1)
    && p.last <= awake && start <= awake
    && (if p.sent == 1 then p.last == first else p.last >= Earliest(first, start, d, p.sent - 1))
    && Fits(first, start, d, p.sent - 1)
  }

  lemma WakeIsPaced(p: Pace, awake: nat, first: nat, start: nat, w: Wake, d: Drift)
    requires first <= start && Paced(p, awake, first, start, d)
    requires awake <= w.t1 <= w.t2 <= w.t3 && w.t1 + d.early >= awake + p.interval * 1000
    requires w.t2 <= w.t1 + d.late && !TimedOut(start, w)
    ensures Paced(OnWake(p, w), Asleep(p, w), first, start, d)
  {
    if Due(p, w) {
      var n := p.sent;
      assert Total(n) == Total(n - 1) + Interval(n - 1);
      assert Interval(n) == Grown(Interval(n - 1));
      if n == 1 {
        assert Total(0) == 0 && Interval(0) == FIRST_INTERVAL;
      }
    }
  }

  lemma {:induction false} RunIsPaced(p: Pace, awake: nat, first: nat, start: nat, wakes: seq<Wake>, d: Drift)
    requires first <= start && Paced(p, awake, first, start, d) && Running(p, awake, start, wakes, d)
    ensures Run(p, wakes).sent > 0 && Fits(first, start, d, Run(p, wakes).sent - 1)
    decreases |wakes|
  {
    if wakes != [] {
      WakeIsPaced(p, awake, first, start, wakes[0], d);
      RunIsPaced(OnWake(p, wakes[0]), Asleep(p, wakes[0]), first, start, wakes[1..], d);
    }
  }

  // And one sends as many.

  /** The pace after `m` retries, each as soon as it can be. */
  function PromptPace(first: nat, start: nat, d: Drift, m: nat): Pace
    requires first <= start
  {
    Pace(Interval(m), m + 1, if m == 0 then first else At(first, start, d, m))
  }

  function At(first: nat, start: nat, d: Drift, m: nat): nat
    requires first <= start
  {
    start - Head(first, start, d) + 1000 * Total(m)
  }

  /** A retry that is due at `at`, the limit being checked just before it passes. */
  function PromptWake(start: nat, at: nat): Wake
  {
    Wake(Min(at, start + MAX_TIME), at, at)
  }

  function PromptWakes(first: nat, start: nat, d: Drift, m: nat, n: nat): seq<Wake>
    requires first <= start
    decreases n
  {
    if n == 0 then []
    else [PromptWake(start, At(first, start, d, m + 1))] + PromptWakes(first, start, d, m + 1, n - 1)
  }

  lemma PromptStep(first: nat, start: nat, d: Drift, m: nat, awake: nat)
    requires first <= start && Fits(first, start, d, m + 1)
    requires awake == if m == 0 then start else At(first, start, d, m)
    ensures var p, w := PromptPace(first, start, d, m), PromptWake(start, At(first, start, d, m + 1));
            && awake <= w.t1 <= w.t2 && w.t1 + d.early >= awake + p.interval * 1000
            && w.t2 <= w.t1 + d.late && !TimedOut(start, w) && Due(p, w)
            && OnWake(p, w) == PromptPace(first, start, d, m + 1)
  {
    assert Total(m + 1) == Total(m) + Interval(m);
    assert Interval(m + 1) == Grown(Interval(m));
    if m == 0 {
      assert Total(0) == 0 && Interval(0) == FIRST_INTERVAL;
    }
  }

  lemma FitsBefore(first: nat, start: nat, d: Drift, m: nat, n: nat)
    requires first <= start && m <= n && Fits(first, start, d, n)
    ensures Fits(first, start, d, m)
  {
    TotalMonotone(m, n);
    if 0 < m {
      TotalMonotone(m - 1, n - 1);
    }
  }

  lemma RunStep(p: Pace, awake: nat, start: nat, w: Wake, rest: seq<Wake>, d: Drift)
    requires awake <= w.t1 <= w.t2 <= w.t3 && w.t1 + d.early >= awake + p.interval * 1000
    requires w.t2 <= w.t1 + d.late && !TimedOut(start, w) && Running(OnWake(p, w), Asleep(p, w), start, rest, d)
    ensures Running(p, awake, start, [w] + rest, d) && Run(p, [w] + rest) == Run(OnWake(p, w), rest)
  {
    assert ([w] + rest)[1..] == rest;
  }

  lemma {:induction false} PromptRun(first: nat, start: nat, d: Drift, m: nat, n: nat, awake: nat)
    requires first <= start && Fits(first, start, d, m + n)
    requires awake == if m == 0 then start else At(first, start, d, m)
    ensures Running(PromptPace(first, start, d, m), awake, start, PromptWakes(first, start, d, m, n), d)
    ensures Run(PromptPace(first, start, d, m), PromptWakes(first, start, d, m, n)) == PromptPace(first, start, d, m + n)
    decreases n
  {
    if n > 0 {
      var at := At(first, start, d, m + 1);
      FitsBefore(first, start, d, m + 1, m + n);
      PromptStep(first, start, d, m, awake);
      PromptRun(first, start, d, m + 1, n - 1, at);
      RunStep(PromptPace(first, start, d, m), awake, start, PromptWake(start, at), PromptWakes(first, start, d, m + 1, n - 1), d);
    }
  }

  lemma LongRun(first: nat, start: nat, d: Drift, n: nat) returns (wakes: seq<Wake>)
    requires first <= start && Fits(first, start, d, n)
    ensures FromStart(first, start, wakes, d) && Sent(first, wakes) == n + 1
  {
    wakes := PromptWakes(first, start, d, 0, n);
    PromptRun(first, start, d, 0, n, start);
    assert PromptPace(first, start, d, 0) == Pace(FIRST_INTERVAL, 1, first);
  }

  /** More than `n` packets can leave exactly when `n` retries fit before the limit. */
  lemma SentExactly(first: nat, start: nat, d: Drift, n: nat)
    requires first <= start
    ensures (exists wakes :: FromStart(first, start, wakes, d) && Sent(first, wakes) > n) <==> Fits(first, start, d, n)
  {
    if Fits(first, start, d, n) {
      var wakes := LongRun(first, start, d, n);
    }
    forall wakes | FromStart(first, start, wakes, d) && Sent(first, wakes) > n
      ensures Fits(first, start, d, n)
    {
      SentFits(first, start, d, wakes);
      FitsBefore(first, start, d, n, Sent(first, wakes) - 1);
    }
  }

  lemma SentFits(first: nat, start: nat, d: Drift, wakes: seq<Wake>)
    requires FromStart(first, start, wakes, d)
    ensures Sent(first, wakes) > 0 && Fits(first, start, d, Sent(first, wakes) - 1)
  {
    var p := Pace(FIRST_INTERVAL, 1, first);
    assert Interval(0) == FIRST_INTERVAL;
    RunIsPaced(p, start, first, start, wakes, d);
  }

  /** At most 104 packets leave before the limit stops the loop if and only if what the
      first sleep gains and what the last check misses make up less than twelve
      milliseconds; with sleeps that never end early that is always so. */
  lemma AtMost104(first: nat, start: nat, d: Drift)
    requires first <= start
    ensures (forall wakes :: FromStart(first, start, wakes, d) ==> Sent(first, wakes) <= 104)
            <==> Min(start - first, d.early) + Min(d.early, d.late) < 12_000
  {
    RetryFits(first, start, d, 97);
    NoneSends(first, start, d, 104);
  }

  lemma RetryFits(first: nat, start: nat, d: Drift, k: nat)
    requires first <= start
    ensures Fits(first, start, d, k + 7)
            <==> 1000 * (412 + 200 * k) <= MAX_TIME + Head(first, start, d)
                 && 1000 * (612 + 200 * k) <= MAX_TIME + Head(first, start, d) + Min(d.early, d.late)
  {
    FullIntervals(k);
    FullIntervals(k + 1);
  }

  lemma NoneSends(first: nat, start: nat, d: Drift, n: nat)
    requires first <= start
    ensures (forall wakes :: FromStart(first, start, wakes, d) ==> Sent(first, wakes) <= n) <==> !Fits(first, start, d, n)
  {
    SentExactly(first, start, d, n);
    if Fits(first, start, d, n) {
      var wakes :| FromStart(first, start, wakes, d) && Sent(first, wakes) > n;
      assert !(Sent(first, wakes) <= n);
    }
  }

  /** However early sleeps end and however late the clock is read, no more than 106
      packets leave, and no more than 105 exactly when the loop begins within twelve
      milliseconds of the first packet. */
  lemma AtMost106(first: nat, start: nat, d: Drift, wakes: seq<Wake>)
    requires FromStart(first, start, wakes, d)
    ensures Sent(first, wakes) <= 106
  {
    RetryFits(first, start, d, 99);
    NoneSends(first, start, d, 106);
  }

  lemma AtMost105(first: nat, start: nat)
    requires first <= start
    ensures (forall d, wakes :: FromStart(first, start, wakes, d) ==> Sent(first, wakes) <= 105) <==> start - first < 12_000
  {
    if start - first < 12_000 {
      forall d, wakes | FromStart(first, start, wakes, d) ensures Sent(first, wakes) <= 105 {
        RetryFits(first, start, d, 98);
        NoneSends(first, start, d, 105);
      }
    } else {
      var d := Drift(212_000, 212_000);
      RetryFits(first, start, d, 98);
      NoneSends(first, start, d, 105);
    }
  }

  /** And 104 do leave in some run, whatever the drift. */
  lemma All104(first: nat, start: nat, d: Drift)
    requires first <= start
    ensures exists wakes :: FromStart(first, start, wakes, d) && Sent(first, wakes) == 104
  {
    RetryFits(first, start, d, 96);
    var wakes := LongRun(first, start, d, 103);
  }

  /** A run that sends 105: the last sleep ends twelve milliseconds early, just within the
      limit, and the interval is read twelve later. */
  lemma Sends105(start: nat)
    ensures exists wakes :: FromStart(start, start, wakes, Drift(12_000, 12_000)) && Sent(start, wakes) == 105
  {
    RetryFits(start, start, Drift(12_000, 12_000), 97);
    var wakes := LongRun(start, start, Drift(12_000, 12_000), 104);
  }
}
