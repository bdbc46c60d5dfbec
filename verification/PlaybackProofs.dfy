/** What holds of the playback buffer over whole runs. */
module PlaybackProofs {
  import opened Common
  import opened Ring
  import opened Playback

  /** Every action may follow every other, as long as the decoder's thread keeps its own
      order: an evaluation that has begun ends with the thinning. */
  predicate Possible(s: State, ops: seq<Op>)
    requires s.Valid()
    decreases |ops|
  {
    ops == [] || (Enabled(s, ops[0]) && Possible(Step(s, ops[0]), ops[1..]))
  }

  function Run(s: State, ops: seq<Op>): (r: State)
    requires s.Valid() && Possible(s, ops)
    ensures r.Valid()
    decreases |ops|
  {
    if ops == [] then s else Run(Step(s, ops[0]), ops[1..])
  }

  ghost predicate Leads(s: State, op: Op, r: State) {
    s.Valid() && Enabled(s, op) && Step(s, op) == r
  }

  lemma RunCons(s: State, op: Op, s1: State, rest: seq<Op>)
    requires Leads(s, op, s1) && s1.Valid() && Possible(s1, rest)
    ensures Possible(s, [op] + rest) && Run(s, [op] + rest) == Run(s1, rest)
  {
    assert ([op] + rest)[1..] == rest;
  }

  // What is played.

  /** The positions, counted in everything ever pushed, of the samples handed to the
      sound device. */
  function Played(s: State, ops: seq<Op>): seq<nat>
    requires s.Valid() && Possible(s, ops)
    decreases |ops|
  {
    if ops == [] then []
    else (if ops[0].Play? then Positions(s.window.start, Min(ops[0].n, |s.window.Contents()|)) else [])
         + Played(Step(s, ops[0]), ops[1..])
  }

  function Positions(from: nat, n: nat): (r: seq<nat>)
    ensures |r| == n && forall k :: 0 <= k < n ==> r[k] == from + k
  {
    seq(n, k requires 0 <= k < n => from + k)
  }

  ghost predicate Increasing(s: seq<nat>) {
    forall i, j :: 0 <= i < j < |s| ==> s[i] < s[j]
  }

  /** Over every run, changes of format included, the ring holds the samples pushed last,
      played samples come out in the order they were pushed, and none is played twice. */
  lemma {:induction false} PlayedInOrder(s: State, ops: seq<Op>)
    requires s.Valid() && Possible(s, ops)
    ensures var r := Run(s, ops).window;
            && s.window.pushed <= r.pushed && s.window.start <= r.start
            && r.Contents() == Last(r.pushed, |r.Contents()|)
            && Increasing(Played(s, ops))
            && (forall k :: 0 <= k < |Played(s, ops)| ==> s.window.start <= Played(s, ops)[k] < r.start)
    decreases |ops|
  {
    if ops != [] {
      StepMovesOn(s, ops[0]);
      PlayedInOrder(Step(s, ops[0]), ops[1..]);
    }
  }

  lemma StepMovesOn(s: State, op: Op)
    requires s.Valid() && Enabled(s, op)
    ensures var w, r := s.window, Step(s, op).window;
            && w.pushed <= r.pushed && w.start <= r.start
            && (op.Play? ==> r.start == w.start + Min(op.n, |w.Contents()|))
  {
  }

  // The counters.

  /** How often each bucket was hit. */
  function Histogram(levels: seq<Level>): (c: seq<nat>)
    requires forall i :: 0 <= i < |levels| ==> levels[i].rate > 0
    ensures |c| == BUCKETS
  {
    if levels == [] then seq(BUCKETS, _ => 0)
    else
      var last := levels[|levels| - 1];
      Counted(Histogram(levels[..|levels| - 1]), Bucket(last.having, last.rate))
  }

  /** The counters, or those taken for evaluation, are the histogram of the levels
      appended since the last evaluation. */
  ghost predicate Faithful(s: State)
    requires s.Valid()
  {
    && (forall i :: 0 <= i < |s.levels| ==> s.levels[i].rate > 0)
    && Histogram(s.levels) == (if s.due.Some? then s.due.value else s.counts)
    && (s.due.Some? ==> s.counts == seq(BUCKETS, _ => 0))
  }

  lemma StepIsFaithful(s: State, op: Op)
    requires s.Valid() && Enabled(s, op) && Faithful(s)
    ensures Faithful(Step(s, op))
  {
    if op.Append? {
      var r := Step(s, op);
      assert r.levels[..|s.levels|] == s.levels;
    }
  }

  lemma {:induction false} RunIsFaithful(s: State, ops: seq<Op>)
    requires s.Valid() && Possible(s, ops) && Faithful(s)
    ensures Faithful(Run(s, ops))
    decreases |ops|
  {
    if ops != [] {
      StepIsFaithful(s, ops[0]);
      RunIsFaithful(Step(s, ops[0]), ops[1..]);
    }
  }

  lemma {:induction false} EveryLevelCounted(levels: seq<Level>, i: nat)
    requires i < |levels| && forall k :: 0 <= k < |levels| ==> levels[k].rate > 0
    ensures Histogram(levels)[Bucket(levels[i].having, levels[i].rate)] > 0
  {
    if i < |levels| - 1 {
      EveryLevelCounted(levels[..|levels| - 1], i);
    }
  }

  // Shrinking.

  /** A shrink drops an even number of samples, less than a third of what is buffered. */
  lemma ShrinkIsSmall(c: seq<nat>, cap: nat, having: nat)
    requires c != []
    ensures ShrinkBy(c, cap, having) % 2 == 0
    ensures ShrinkBy(c, cap, having) > 0 ==> 3 * ShrinkBy(c, cap, having) < having
  {
  }

  lemma ShrinkUnderMarks(c: seq<nat>, rate: nat, having: nat)
    requires c != [] && ShrinkBy(c, 3 * rate, having) > 0
    ensures Mode(c) >= 6 && LeadingEmpty(c) >= 2
    ensures 15 * (ShrinkBy(c, 3 * rate, having) - 1) <= rate * LeadingEmpty(c)
  {
    var zero := LeadingEmpty(c);
    var mark := Min(Mode(c), zero * 2 / 3 * 4);
    assert ShrinkBy(c, 3 * rate, having) == SkipCount(3 * rate, mark);
    if zero < 2 {
      NoMarkNoSkip(3 * rate, mark);
      assert false;
    }
    Scaled(rate, mark, zero);
    RoundedUp(3 * rate * mark / 120);
  }

  lemma NoMarkNoSkip(cap: nat, mark: nat)
    requires mark == 0
    ensures SkipCount(cap, mark) == 0
  {
  }

  lemma RoundedUp(q: nat)
    ensures q <= RoundUpEven(q) <= q + 1
  {
  }

  lemma Scaled(rate: nat, mark: nat, zero: nat)
    requires 3 * mark <= 8 * zero
    ensures 3 * rate * mark / 120 * 15 <= rate * zero
  {
    assert 3 * rate * mark == rate * (3 * mark) <= rate * (8 * zero) == 8 * (rate * zero);
  }

  /** What a level of the histogram says of its first hit bucket. */
  lemma LevelAboveEmpty(levels: seq<Level>, i: nat)
    requires i < |levels| && forall k :: 0 <= k < |levels| ==> levels[k].rate > 0
    ensures levels[i].having * 10 >= LeadingEmpty(Histogram(levels)) * levels[i].rate
  {
    var l, zero := levels[i], LeadingEmpty(Histogram(levels));
    EveryLevelCounted(levels, i);
    assert zero <= Bucket(l.having, l.rate) <= l.having * 10 / l.rate;
    DivideAtLeast(l.having * 10, l.rate, zero);
  }

  /** In every reachable state in which the evaluation drops something, the fullest bucket
      of the levels counted since the last evaluation is at 600 ms or more and no level was
      below 200 ms; and, but for a rounding sample, what goes lasts at most two thirds of
      the time of the lowest of them. */
  lemma ShrinkLeavesReserve(ops: seq<Op>)
    requires Possible(Initial(), ops) && Run(Initial(), ops).due.Some?
    ensures var s := Run(Initial(), ops);
            var skip := Step(s, Thin).window.start - s.window.start;
            && (forall i :: 0 <= i < |s.levels| ==> s.levels[i].rate > 0)
            && (skip > 0 ==>
                  && Mode(Histogram(s.levels)) >= 6
                  && forall i :: 0 <= i < |s.levels| ==>
                       && s.levels[i].having * 10 >= 2 * s.levels[i].rate
                       && 3 * (skip - 1) * s.levels[i].rate <= 2 * s.levels[i].having * s.rate)
  {
    var s := Run(Initial(), ops);
    var skip := Step(s, Thin).window.start - s.window.start;
    assert Faithful(Initial());
    RunIsFaithful(Initial(), ops);
    var c, having := s.due.value, |s.window.Contents()|;
    ShrinkIsSmall(c, s.window.cap, having);
    assert skip == ShrinkBy(c, 3 * s.rate, having);
    if skip > 0 {
      ShrinkUnderMarks(c, s.rate, having);
      forall i | 0 <= i < |s.levels|
        ensures s.levels[i].having * 10 >= 2 * s.levels[i].rate
        ensures 3 * (skip - 1) * s.levels[i].rate <= 2 * s.levels[i].having * s.rate
      {
        LevelAboveEmpty(s.levels, i);
        InProportion(skip - 1, s.rate, LeadingEmpty(c), s.levels[i].having, s.levels[i].rate);
      }
    }
  }

  lemma InProportion(drop: nat, rate: nat, zero: nat, having: nat, at: nat)
    requires 15 * drop <= rate * zero && zero * at <= having * 10 && zero >= 2
    ensures 3 * drop * at <= 2 * having * rate && 2 * at <= having * 10
  {
    assert 15 * drop * at <= rate * zero * at;
    assert rate * zero * at == rate * (zero * at) <= rate * (having * 10);
    assert 15 * drop * at == 5 * (3 * drop * at);
    assert rate * (having * 10) == 5 * (2 * having * rate);
    assert zero * at >= 2 * at;
  }

  // The fill levels.

  lemma DivideAtLeast(a: nat, b: nat, k: nat)
    requires b > 0
    ensures a / b >= k <==> a >= k * b
  {
    var q := a / b;
    assert q * b <= a < (q + 1) * b;
    if q >= k {
      assert q * b >= k * b;
    } else {
      assert (q + 1) * b <= k * b;
    }
  }

  /** The clamp to the last bucket acts only on a full buffer. */
  lemma ClampMeansFull(having: nat, rate: nat)
    requires rate > 0 && having <= 3 * rate
    ensures having * 10 / rate > 29 <==> having == 3 * rate
    ensures Bucket(having, rate) == 29 <==> having * 10 >= 29 * rate
  {
    DivideAtLeast(having * 10, rate, 30);
    DivideAtLeast(having * 10, rate, 29);
  }

  // The 600 ms.

  /** Whether a fifteenth of the ring, rounded to an even number as the skip is, makes
      a drop wait for 600 ms. */
  predicate FifthHolds(rate: nat) {
    rate % 5 <= 1 || rate / 5 % 2 == 1
  }

  predicate WaitsFor600(c: seq<nat>, rate: nat)
    requires c != []
  {
    || Mode(c) < 6 || LeadingEmpty(c) < 2
    || (Mode(c) >= 8 && LeadingEmpty(c) >= 3 && (FifthHolds(rate) || (Mode(c) >= 9 && LeadingEmpty(c) >= 5)))
  }

  /** The comment on the shrink says it never drops when less than 600 ms are buffered.
      That holds of a histogram exactly when it drops nothing at all, or its fullest bucket
      is at 800 ms or more and no level was below 300 ms, with room for rounding. */
  lemma SixHundredMillis(c: seq<nat>, rate: nat)
    requires |c| == BUCKETS && rate >= 54
    ensures (forall having: nat :: having <= 3 * rate && ShrinkBy(c, 3 * rate, having) > 0 ==> having * 10 >= 6 * rate)
            <==> WaitsFor600(c, rate)
  {
    var mark := Min(Mode(c), LeadingEmpty(c) * 2 / 3 * 4);
    var skip := SkipCount(3 * rate, mark);
    SkipPerMark(rate, mark);
    if Mode(c) >= 6 && LeadingEmpty(c) >= 2 {
      assert mark >= 4 && skip > 0;
      assert mark == 8 <==> (Mode(c) >= 8 && LeadingEmpty(c) >= 3 && !(Mode(c) >= 9 && LeadingEmpty(c) >= 5));
      assert WaitsFor600(c, rate) <==> mark >= 9 || (mark == 8 && FifthHolds(rate));
      LeastDropped(c, rate);
      assert ShrinkBy(c, 3 * rate, 3 * skip + 1) == skip;
    }
  }

  /** What must be buffered for a drop is one sample more than three times the drop. */
  lemma LeastDropped(c: seq<nat>, rate: nat)
    requires c != [] && Mode(c) >= 6
    ensures var skip := SkipCount(3 * rate, Min(Mode(c), LeadingEmpty(c) * 2 / 3 * 4));
            forall having: nat :: ShrinkBy(c, 3 * rate, having) > 0 <==> skip > 0 && having >= 3 * skip + 1
  {
  }

  lemma SkipPerMark(rate: nat, mark: nat)
    requires rate >= 54 && mark < BUCKETS
    ensures SkipFits(rate, mark, SkipCount(3 * rate, mark))
  {
    MarkTimes(rate, mark);
    SkipOfProduct(rate, mark, rate * mark, 3 * rate * mark / 120);
  }

  lemma MarkTimes(rate: nat, mark: nat)
    requires mark < BUCKETS
    ensures var x := rate * mark;
            && 3 * rate * mark == 3 * x && x <= 29 * rate
            && (mark <= 7 ==> x <= 7 * rate) && (mark >= 4 ==> x >= 4 * rate)
            && (mark >= 9 ==> x >= 9 * rate) && (mark == 8 ==> x == 8 * rate)
  {
  }

  predicate SkipFits(rate: nat, mark: nat, skip: nat) {
    && 3 * skip + 1 <= 3 * rate
    && (mark >= 4 ==> skip > 0)
    && (mark <= 7 ==> 30 * skip + 10 < 6 * rate)
    && (mark == 8 ==> (30 * skip + 10 >= 6 * rate <==> FifthHolds(rate)))
    && (mark >= 9 ==> 30 * skip + 10 >= 6 * rate)
  }

  lemma SkipOfProduct(rate: nat, mark: nat, x: nat, q: nat)
    requires rate >= 54 && x <= 29 * rate && 40 * q <= x < 40 * q + 40
    requires (mark <= 7 ==> x <= 7 * rate) && (mark >= 4 ==> x >= 4 * rate)
    requires (mark >= 9 ==> x >= 9 * rate) && (mark == 8 ==> x == 8 * rate)
    ensures SkipFits(rate, mark, RoundUpEven(q))
  {
    assert q <= RoundUpEven(q) <= q + 1;
    if mark == 8 {
      assert q == rate / 5;
    }
  }

  /** Two hits of one bucket and one of another. */
  function TwoAndOne(m: nat, n: nat): (c: seq<nat>)
    requires m < BUCKETS && n < BUCKETS && m != n
    ensures |c| == BUCKETS && c == Counted(Counted(Counted(seq(BUCKETS, _ => 0), m), m), n)
  {
    seq(BUCKETS, k => if k == m then 2 else if k == n then 1 else 0)
  }

  lemma TwoAndOneMarks(m: nat, n: nat)
    requires 0 < m < BUCKETS && n < BUCKETS && m != n
    ensures LeadingEmpty(TwoAndOne(m, n)) == Min(m, n) && Mode(TwoAndOne(m, n)) == m
  {
    var c := TwoAndOne(m, n);
    LeadingIsUnique(c, Min(m, n));
    ModeMeaning(c);
    assert c[m] == 2;
  }

  /** Two appends that leave the same level, what the sound device takes, and an append
      that brings the evaluation. */
  function TwoLevels(b1: seq<Sample>, taken: nat, b2: seq<Sample>): seq<Op>
  {
    [Append(b1, 1), Append([], 1), Play(taken), Append(b2, 12001), Thin]
  }

  lemma TwoLevelsRun(s: State, b1: seq<Sample>, taken: nat, b2: seq<Sample>)
    requires Untouched(s) && taken <= |b1| <= s.window.cap && |b1| - taken + |b2| <= s.window.cap
    requires Bucket(|b1|, s.rate) != Bucket(|b1| - taken + |b2|, s.rate)
    ensures Possible(s, TwoLevels(b1, taken, b2))
    ensures Run(s, TwoLevels(b1, taken, b2)) == OnThin(BeforeThinning(s, b1, taken, b2))
  {
    var s2 := AtLevel(s, b1);
    var s3 := s2.(window := s2.window.(start := taken));
    var s4 := BeforeThinning(s, b1, taken, b2);
    FirstLevels(s, b1);
    LastLevel(s, b1, taken, b2);
    FiveSteps(s, Append(b1, 1), OnAppend(s, b1, 1), Append([], 1), s2, Play(taken), s3, Append(b2, 12001), s4,
              Thin, OnThin(s4));
  }

  lemma ThinnedWindow(s: State, b1: seq<Sample>, taken: nat, b2: seq<Sample>)
    requires Untouched(s) && taken <= |b1| <= s.window.cap && |b1| - taken + |b2| <= s.window.cap
    requires Bucket(|b1|, s.rate) != Bucket(|b1| - taken + |b2|, s.rate)
    ensures var m, n := Bucket(|b1|, s.rate), Bucket(|b1| - taken + |b2|, s.rate);
            OnThin(BeforeThinning(s, b1, taken, b2)).window
            == Drop(Window(s.window.cap, b1 + b2, taken), ShrinkBy(TwoAndOne(m, n), s.window.cap, |b1| - taken + |b2|))
  {
  }

  ghost predicate Untouched(s: State) {
    && s.Valid() && s.window.pushed == [] && s.counts == seq(BUCKETS, _ => 0)
    && s.lastShrink == 0 && s.due.None? && s.levels == []
  }

  /** After the first two appends. */
  function AtLevel(s: State, b1: seq<Sample>): (r: State)
    requires s.Valid() && |b1| <= s.window.cap
    ensures r.Valid()
  {
    var m, l := Bucket(|b1|, s.rate), Level(|b1|, s.rate);
    State(Window(s.window.cap, b1, 0), s.rate, Counted(Counted(s.counts, m), m), 1, None, [l, l])
  }

  function BeforeThinning(s: State, b1: seq<Sample>, taken: nat, b2: seq<Sample>): (r: State)
    requires s.Valid() && taken <= |b1| && |b1| - taken + |b2| <= s.window.cap
    requires Bucket(|b1|, s.rate) != Bucket(|b1| - taken + |b2|, s.rate)
    ensures r.Valid()
  {
    var l, l' := Level(|b1|, s.rate), Level(|b1| - taken + |b2|, s.rate);
    State(Window(s.window.cap, b1 + b2, taken), s.rate, seq(BUCKETS, _ => 0), 12001,
          Some(TwoAndOne(Bucket(l.having, s.rate), Bucket(l'.having, s.rate))), [l, l] + [l'])
  }

  lemma FirstLevels(s: State, b1: seq<Sample>)
    requires Untouched(s) && |b1| <= s.window.cap
    ensures Leads(s, Append(b1, 1), OnAppend(s, b1, 1))
    ensures Leads(OnAppend(s, b1, 1), Append([], 1), AtLevel(s, b1))
  {
    assert [] + b1 == b1;
    AppendNothing(OnAppend(s, b1, 1), 1);
  }

  lemma LastLevel(s: State, b1: seq<Sample>, taken: nat, b2: seq<Sample>)
    requires Untouched(s) && taken <= |b1| <= s.window.cap && |b1| - taken + |b2| <= s.window.cap
    requires Bucket(|b1|, s.rate) != Bucket(|b1| - taken + |b2|, s.rate)
    ensures var s2, s4 := AtLevel(s, b1), BeforeThinning(s, b1, taken, b2);
            var s3 := s2.(window := s2.window.(start := taken));
            Leads(s2, Play(taken), s3) && Leads(s3, Append(b2, 12001), s4) && Leads(s4, Thin, OnThin(s4))
  {
  }

  lemma AppendNothing(s: State, now: int)
    requires s.Valid() && s.due.None? && !IsDue(s.lastShrink, now)
    ensures Push(s.window, []) == s.window
    ensures OnAppend(s, [], now) == s.(counts := Counted(s.counts, Bucket(|s.window.Contents()|, s.rate)),
                                       lastShrink := Ticked(s.lastShrink, now),
                                       levels := s.levels + [Level(|s.window.Contents()|, s.rate)])
  {
    assert s.window.pushed + [] == s.window.pushed;
  }

  lemma FiveSteps(s: State, a: Op, s1: State, b: Op, s2: State, c: Op, s3: State, d: Op, s4: State, e: Op, s5: State)
    requires Leads(s, a, s1) && Leads(s1, b, s2) && Leads(s2, c, s3) && Leads(s3, d, s4) && Leads(s4, e, s5)
    ensures Possible(s, [a, b, c, d, e]) && Run(s, [a, b, c, d, e]) == s5
  {
    RunCons(s4, e, s5, []);
    RunCons(s3, d, s4, [e]);
    RunCons(s2, c, s3, [d, e]);
    RunCons(s1, b, s2, [c, d, e]);
    RunCons(s, a, s1, [b, c, d, e]);
  }

  /** A run in which samples are dropped although only 562 ms are buffered. */
  lemma ThinnedBelow600(b1: seq<Sample>)
    requires |b1| == 70_000
    ensures var s0 := Initial();
            && Possible(s0, TwoLevels(b1, 16_000, []))
            && Run(s0, TwoLevels(b1, 16_000, [])).window == Window(288_000, b1, 16_000 + 16_800)
            && 54_000 * 10 < 6 * s0.rate
  {
    var s0 := Initial();
    assert Bucket(70_000, s0.rate) == 7 && Bucket(54_000, s0.rate) == 5;
    TwoLevelsRun(s0, b1, 16_000, []);
    ThinnedWindow(s0, b1, 16_000, []);
    assert b1 + [] == b1;
    TwoAndOneMarks(7, 5);
    ThinnedBy(TwoAndOne(7, 5));
  }

  lemma ThinnedBy(c: seq<nat>)
    requires c != [] && LeadingEmpty(c) == 5 && Mode(c) == 7
    ensures ShrinkBy(c, 288_000, 54_000) == 16_800
  {
  }
}
