/** What holds of the registration loop over whole runs. */
module RegistrationProofs {
  import opened Common
  import opened Registration

  datatype Event = Response(now: nat) | TimerTick(now: nat, public: bool)

  function Next(r: Reg, e: Event): Reg
  {
    match e
    case Response(now) => Resp(r, now)
    case TimerTick(now, public) => Tick(r, now, public)
  }

  function Run(r: Reg, events: seq<Event>): Reg
    decreases |events|
  {
    if events == [] then r else Run(Next(r, events[0]), events[1..])
  }

  // Status.

  /** The failure count decides what the host's status says, and the remembered latency
      is the published one unless the status is a failure. */
  ghost predicate Coupled(r: Reg) {
    && (r.fails >= 4 ==> r.published == Some(-1))
    && (2 <= r.fails < 4 ==> r.published == Some(0))
    && (match r.published
        case None => r.oldLatency == 0
        case Some(v) => r.oldLatency == v || (r.oldLatency == 0 && v <= 0))
    && (r.lastSent.None? ==> r.fails == 0)
  }

  ghost predicate TimeoutInRange(r: Reg) {
    && r.regTimeout % 3000 == 0
    && 3000 <= r.regTimeout <= 30_000
    && r.regTimeout <= 3000 * (r.fails + 1)
  }

  lemma {:induction false} RunKeepsInvariants(r: Reg, events: seq<Event>)
    requires Coupled(r) && TimeoutInRange(r)
    ensures Coupled(Run(r, events)) && TimeoutInRange(Run(r, events))
    decreases |events|
  {
    if events != [] {
      RunKeepsInvariants(Next(r, events[0]), events[1..]);
    }
  }

  /** In every reachable state. */
  lemma Reachable(start: nat, events: seq<Event>)
    ensures Coupled(Run(Initial(start), events)) && TimeoutInRange(Run(Initial(start), events))
  {
    RunKeepsInvariants(Initial(start), events);
  }

  /** A host marked as gone comes back with a response exactly when its latency sample is
      at most a second; a later response leaves the mark. */
  lemma ComesBack(start: nat, events: seq<Event>, now: nat)
    requires Run(Initial(start), events).published == Some(-1)
    ensures var r := Run(Initial(start), events);
            Resp(r, now).published != Some(-1) <==> Accepted(Sample(r, now))
  {
    Reachable(start, events);
  }

  /** Registrations every three seconds, from the `k`-th on, that nobody answers. */
  function Unanswered(k: nat, n: nat): seq<Event>
    decreases n
  {
    if n == 0 then [] else [TimerTick(3_000_000 * k, false)] + Unanswered(k + 1, n - 1)
  }

  function Silent(fails: nat): Reg
  {
    Reg(fails, 3000, None, Some(3_000_000 * fails), 0, 0, 0,
        if fails >= 4 then Some(-1) else if fails >= 2 then Some(0) else None)
  }

  lemma {:induction false} SilentRun(k: nat, n: nat)
    requires k + n <= 20
    ensures Run(Silent(k), Unanswered(k + 1, n)) == Silent(k + n)
    decreases n
  {
    if n > 0 {
      var events := Unanswered(k + 1, n);
      assert Next(Silent(k), events[0]) == Silent(k + 1);
      assert events[1..] == Unanswered(k + 2, n - 1);
      SilentRun(k + 1, n - 1);
    }
  }

  /** A run that leaves the mark: four timeouts, then a response a microsecond more than
      a second after the last registration. */
  lemma SlowResponseKeepsMark(n: nat)
    requires n == 4
    ensures var r := Run(Initial(0), Unanswered(0, n + 1));
            && r.fails == 4 && r.published == Some(-1)
            && Resp(r, 13_000_001).published == Some(-1) && Resp(r, 13_000_000).published == Some(1_000_000)
  {
    var events := Unanswered(0, n + 1);
    assert Next(Initial(0), events[0]) == Silent(0);
    assert events[1..] == Unanswered(1, n);
    SilentRun(0, n);
  }

  /** After every accepted response the published latency is within a fifth, or three
      milliseconds, of the moving average. */
  lemma PublishedTracksAverage(start: nat, events: seq<Event>, now: nat)
    requires Accepted(Sample(Run(Initial(start), events), now))
    ensures var r := Resp(Run(Initial(start), events), now);
            && r.published.Some?
            && Abs(r.emaLatency - r.published.value) <= Max(3000, r.emaLatency / 5)
  {
    Reachable(start, events);
  }

  /** While the average stays within that band of the remembered latency nothing is
      published; outside it the average itself is. */
  lemma QuietWithinBand(start: nat, events: seq<Event>, now: nat)
    requires var r := Run(Initial(start), events); Accepted(Sample(r, now)) && r.oldLatency > 0
    ensures var r := Run(Initial(start), events);
            var s := Resp(r, now);
            s.published == if Abs(s.emaLatency - r.oldLatency) <= Max(3000, s.emaLatency / 5)
                           then Some(r.oldLatency) else Some(s.emaLatency)
  {
    Reachable(start, events);
  }

  lemma {:induction false} QuietBeforeInterval(r: Reg, now: nat, events: seq<Event>)
    requires r.lastSent.None? && r.lastResp == Some(now) && Ticks(events)
    requires forall i :: 0 <= i < |events| ==> now <= events[i].now < now + 15_000_000
    ensures Run(r, events) == r
    decreases |events|
  {
    if events != [] {
      QuietBeforeInterval(r, now, events[1..]);
    }
  }

  /** After a response no tick registers for fifteen seconds, and the first tick after
      them does. */
  lemma RegistersEveryInterval(r: Reg, now: nat, quiet: seq<Event>, t: nat)
    requires Ticks(quiet) && t >= now + 15_000_000
    requires forall i :: 0 <= i < |quiet| ==> now <= quiet[i].now < now + 15_000_000
    ensures Run(Resp(r, now), quiet) == Resp(r, now)
    ensures Sends(Run(Resp(r, now), quiet), t)
  {
    QuietBeforeInterval(Resp(r, now), now, quiet);
  }

  // Back-off.

  function Backoff(fails: nat): nat
  {
    if fails < 10 then 3000 * (fails + 1) else 30_000
  }

  /** The sum of the first `k` timeouts under back-off, in milliseconds. */
  function Wait(k: nat): nat
  {
    if k == 0 then 0 else Wait(k - 1) + Backoff(k - 1)
  }

  predicate Ticks(events: seq<Event>) {
    forall i :: 0 <= i < |events| ==> events[i].TimerTick?
  }

  predicate PublicTicks(events: seq<Event>) {
    forall i :: 0 <= i < |events| ==> events[i].TimerTick? && events[i].public
  }

  /** Without a response, on a public server, each further failure takes its timeout. */
  lemma {:induction false} SilenceTakesTime(r: Reg, events: seq<Event>)
    requires r.lastSent.Some? && r.regTimeout == Backoff(r.fails) && PublicTicks(events)
    ensures var e := Run(r, events);
            && e.lastSent.Some? && e.regTimeout == Backoff(e.fails) && e.fails >= r.fails
            && e.lastSent.value - r.lastSent.value >= 1000 * (Wait(e.fails) - Wait(r.fails))
    decreases |events|
  {
    if events != [] {
      var r' := Next(r, events[0]);
      assert r'.fails == r.fails + 1 ==> Wait(r'.fails) == Wait(r.fails) + Backoff(r.fails);
      SilenceTakesTime(r', events[1..]);
    }
  }

  /** On a public server, from the first unanswered registration sent at `now` on,
      reaching the k-th failure takes at least the sum of the first k timeouts, and the
      timeout in force is exactly the k-th step of the back-off. */
  lemma BackoffBound(start: nat, events: seq<Event>, now: nat, silence: seq<Event>)
    requires var r := Run(Initial(start), events); r.lastSent.None? && Sends(r, now)
    requires PublicTicks(silence)
    ensures var e := Run(Tick(Run(Initial(start), events), now, true), silence);
            && e.regTimeout == Backoff(e.fails)
            && e.lastSent.Some? && e.lastSent.value >= now + 1000 * Wait(e.fails)
  {
    Reachable(start, events);
    SilenceTakesTime(Tick(Run(Initial(start), events), now, true), silence);
  }

  lemma {:induction false} WaitMonotone(j: nat, k: nat)
    requires j <= k
    ensures Wait(j) <= Wait(k)
  {
    if j < k {
      WaitMonotone(j, k - 1);
    }
  }

  /** So the status -1 appears no sooner than thirty seconds after that registration. */
  lemma GoneAfterThirtySeconds(start: nat, events: seq<Event>, now: nat, silence: seq<Event>)
    requires var r := Run(Initial(start), events); r.lastSent.None? && Sends(r, now)
    requires PublicTicks(silence)
    ensures var e := Run(Tick(Run(Initial(start), events), now, true), silence);
            e.fails >= 4 ==> e.published == Some(-1) && e.lastSent.Some? && e.lastSent.value >= now + 30_000_000
  {
    var r := Run(Initial(start), events);
    BackoffBound(start, events, now, silence);
    Reachable(start, events);
    RunKeepsInvariants(r, [TimerTick(now, true)]);
    assert Run(r, [TimerTick(now, true)]) == Tick(r, now, true);
    RunKeepsInvariants(Tick(r, now, true), silence);
    var e := Run(Tick(r, now, true), silence);
    if e.fails >= 4 {
      WaitMonotone(4, e.fails);
      assert Wait(4) == Wait(3) + 12_000 && Wait(3) == Wait(2) + 9_000 && Wait(2) == Wait(1) + 6_000 && Wait(1) == Wait(0) + 3_000;
    }
  }

  /** On any server each failure takes at least three seconds. */
  lemma {:induction false} FailuresAreSlow(r: Reg, events: seq<Event>)
    requires r.lastSent.Some? && r.regTimeout >= 3000 && Ticks(events)
    ensures var e := Run(r, events);
            && e.lastSent.Some? && e.fails >= r.fails
            && e.lastSent.value - r.lastSent.value >= 3_000_000 * (e.fails - r.fails)
    decreases |events|
  {
    if events != [] {
      FailuresAreSlow(Next(r, events[0]), events[1..]);
    }
  }

  /** The ticks that come exactly when the timeouts run out. */
  function PromptTicks(now: nat, from: nat, k: nat): seq<Event>
    requires from <= k
    decreases k - from
  {
    if from == k then []
    else [TimerTick(now + 1000 * Backoff(from), true)] + PromptTicks(now + 1000 * Backoff(from), from + 1, k)
  }

  /** The bound is reached: prompt ticks make the k-th failure exactly then. */
  lemma {:induction false} BoundIsReached(r: Reg, k: nat)
    requires r.lastSent.Some? && r.regTimeout == Backoff(r.fails) && r.fails <= k
    ensures var e := Run(r, PromptTicks(r.lastSent.value, r.fails, k));
            e.fails == k && e.lastSent == Some(r.lastSent.value + 1000 * (Wait(k) - Wait(r.fails)))
    decreases k - r.fails
  {
    if r.fails < k {
      var now := r.lastSent.value + 1000 * Backoff(r.fails);
      var r' := Tick(r, now, true);
      var ticks := PromptTicks(r.lastSent.value, r.fails, k);
      assert ticks[1..] == PromptTicks(now, r.fails + 1, k);
      assert Next(r, ticks[0]) == r';
      assert Wait(r.fails + 1) == Wait(r.fails) + Backoff(r.fails);
      BoundIsReached(r', k);
    }
  }

  // The moving average.

  predicate SamplesWithin(r: Reg, events: seq<Event>, lo: nat, hi: nat)
    decreases |events|
  {
    events == []
    || ((events[0].Response? && Accepted(Sample(r, events[0].now)) ==> lo <= Sample(r, events[0].now) <= hi)
        && SamplesWithin(Next(r, events[0]), events[1..], lo, hi))
  }

  ghost predicate InBand(ema: nat, lo: nat, hi: nat) {
    ema == 0 || lo / 30 * 30 <= ema <= hi
  }

  /** Truncating twice never takes the average below the whole thirtieths of the smallest
      sample, so it stays within 29 microseconds of the samples' range. */
  lemma {:induction false} AverageStaysInBand(r: Reg, events: seq<Event>, lo: nat, hi: nat)
    requires lo <= hi && InBand(r.emaLatency, lo, hi) && SamplesWithin(r, events, lo, hi)
    ensures InBand(Run(r, events).emaLatency, lo, hi)
    ensures r.emaLatency > 0 && lo >= 30 ==> lo - 29 <= Run(r, events).emaLatency <= hi
    decreases |events|
  {
    if events != [] {
      EmaInBand(r.emaLatency, Sample(r, if events[0].Response? then events[0].now else 0), lo, hi);
      AverageStaysInBand(Next(r, events[0]), events[1..], lo, hi);
    }
  }

  lemma EmaInBand(ema: nat, sample: int, lo: nat, hi: nat)
    requires InBand(ema, lo, hi)
    ensures lo <= sample <= hi ==> InBand(Ema(ema, sample), lo, hi)
    ensures lo <= sample <= hi && lo >= 30 ==> Ema(ema, sample) > 0
  {
  }

  function Iterate(ema: nat, sample: nat, n: nat): nat
    decreases n
  {
    if n == 0 then ema else Iterate(Ema(ema, sample), sample, n - 1)
  }

  /** The margin is real: under a constant latency of at least 30 the average sinks to the
      whole thirtieths of it within 29 responses, and stays there. */
  lemma {:induction false} AverageSettles(ema: nat, sample: nat, n: nat)
    requires sample >= 30 && sample / 30 * 30 <= ema <= sample / 30 * 30 + n
    ensures Iterate(ema, sample, n) == sample / 30 * 30
    decreases n
  {
    if n > 0 {
      var q := sample / 30;
      var e := Ema(ema, sample);
      assert e == q + ema * 29 / 30;
      assert ema == 30 * q ==> e == 30 * q;
      assert ema > 30 * q ==> 30 * q <= e < ema;
      AverageSettles(e, sample, n - 1);
    }
  }

  /** The average has a memory of twenty-nine parts in thirty: in whatever state, a response
      within a second moves it by a thirtieth of the way to the sample, less at most two
      microseconds of truncation; an average of zero takes the sample, and a later response
      leaves the average alone. A response nobody waits for counts as immediate. */
  lemma AverageRemembers(r: Reg, now: nat)
    requires r.lastSent.Some? ==> r.lastSent.value <= now
    ensures var s := if r.lastSent.Some? then now - r.lastSent.value else 0;
            var e, e' := r.emaLatency, Resp(r, now).emaLatency;
            && (s <= 1_000_000 && e == 0 ==> e' == s)
            && (s <= 1_000_000 && e > 0 ==> s + 29 * e - 58 <= 30 * e' <= s + 29 * e)
            && (s > 1_000_000 ==> e' == e)
  {
  }

  /** Any response ends the wait and the back-off. */
  lemma ResponseResets(r: Reg, now: nat)
    ensures var r' := Resp(r, now);
            && r'.fails == 0 && r'.regTimeout == 3000 && r'.lastSent == None && r'.lastResp == Some(now)
            && r'.lastDns == r.lastDns
  {
  }

  predicate Outstanding(r: Reg, now: nat) {
    r.lastSent.Some? && now < r.lastSent.value + 1000 * r.regTimeout
  }

  predicate Resting(r: Reg, now: nat) {
    r.lastSent.None? && r.lastResp.Some? && now < r.lastResp.value + 15_000_000
  }

  /** What a tick does in whatever state: nothing while a registration is outstanding or the
      last response is recent; the first registration of a wait is no failure, each further
      one is, and on a public server lengthens the timeout. */
  lemma TickMeaning(r: Reg, now: nat, public: bool)
    requires r.lastSent.Some? ==> r.lastSent.value <= now
    requires r.lastResp.Some? ==> r.lastResp.value <= now
    ensures var r' := Tick(r, now, public);
            && (Outstanding(r, now) || Resting(r, now) ==> r' == r)
            && (!Outstanding(r, now) && !Resting(r, now) ==>
                  && r'.lastSent == Some(now)
                  && r'.fails == r.fails + (if r.lastSent.Some? then 1 else 0)
                  && (r'.regTimeout == r.regTimeout
                      || (public && r.lastSent.Some? && r.regTimeout < 30_000 && r'.regTimeout == r.regTimeout + 3000))
                  && (public && r.lastSent.Some? && r.regTimeout < 30_000 ==> r'.regTimeout > r.regTimeout))
  {
  }

  /** The address is looked up anew exactly at a failure after three, more than sixty
      seconds after it was last. */
  lemma LookupMeaning(r: Reg, now: nat, public: bool)
    requires r.lastDns < now && (r.lastSent.Some? ==> r.lastSent.value <= now)
    ensures Tick(r, now, public).lastDns == now <==>
            (r.lastSent.Some? && !Outstanding(r, now) && r.fails >= 3 && now >= r.lastDns + 60_001_000)
    ensures Tick(r, now, public).lastDns != now ==> Tick(r, now, public).lastDns == r.lastDns
  {
  }
}
