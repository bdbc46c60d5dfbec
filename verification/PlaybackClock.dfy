/** When the playback buffer evaluates its histogram, and how much it then drops. */
module PlaybackClock {
  import opened Common
  import opened Ring
  import opened Playback
  import opened PlaybackProofs

  // The times at which some buffer evaluates, read off the actions alone.

  predicate Timed(op: Op) { op.Append? || op.Elsewhere? }

  /** The clock reads milliseconds since 1970. */
  predicate ClockRuns(ops: seq<Op>) {
    forall i :: 0 <= i < |ops| && Timed(ops[i]) ==> ops[i].now > 0
  }

  /** The last beat: the first reading of the clock, then each reading at least twelve
      seconds after the beat before. */
  function LastBeat(ops: seq<Op>): Option<int>
  {
    if ops == [] then None
    else
      var before, op := LastBeat(ops[..|ops| - 1]), ops[|ops| - 1];
      if Timed(op) && (before.None? || op.now >= before.value + 12_000) then Some(op.now) else before
  }

  /** Whether action `i` begins an evaluation, of this buffer or another. */
  predicate Beats(ops: seq<Op>, i: nat)
    requires i < |ops|
  {
    Timed(ops[i]) && LastBeat(ops[..i]).Some? && ops[i].now >= LastBeat(ops[..i]).value + 12_000
  }

  lemma {:induction false} ClockIsLastBeat(ops: seq<Op>, n: nat)
    requires Possible(Initial(), ops) && ClockRuns(ops) && n <= |ops|
    ensures Possible(Initial(), ops[..n])
    ensures Run(Initial(), ops[..n]).lastShrink == match LastBeat(ops[..n]) case None => 0 case Some(t) => t
    ensures LastBeat(ops[..n]).Some? ==> LastBeat(ops[..n]).value > 0
  {
    PrefixPossible(Initial(), ops, n);
    if n > 0 {
      ClockIsLastBeat(ops, n - 1);
      LastStep(Initial(), ops, n - 1);
      assert ops[..n][..n - 1] == ops[..n - 1];
    }
  }

  lemma {:induction false} PrefixPossible(s: State, ops: seq<Op>, n: nat)
    requires s.Valid() && Possible(s, ops) && n <= |ops|
    ensures Possible(s, ops[..n])
    decreases n
  {
    if n > 0 {
      PrefixPossible(Step(s, ops[0]), ops[1..], n - 1);
      assert ops[..n][1..] == ops[1..][..n - 1];
    }
  }

  lemma {:induction false} LastStep(s: State, ops: seq<Op>, n: nat)
    requires s.Valid() && Possible(s, ops) && n < |ops|
    ensures Possible(s, ops[..n]) && Possible(s, ops[..n + 1]) && Enabled(Run(s, ops[..n]), ops[n])
    ensures Run(s, ops[..n + 1]) == Step(Run(s, ops[..n]), ops[n])
    decreases n
  {
    PrefixPossible(s, ops, n);
    PrefixPossible(s, ops, n + 1);
    if n > 0 {
      LastStep(Step(s, ops[0]), ops[1..], n - 1);
      assert ops[..n][1..] == ops[1..][..n - 1] && ops[..n + 1][1..] == ops[1..][..n];
    } else {
      assert ops[..1][1..] == [];
    }
  }

  /** Over every run an append begins an evaluation exactly when it comes twelve seconds
      or more after the last beat. */
  lemma EvaluatesExactly(ops: seq<Op>, i: nat)
    requires Possible(Initial(), ops) && ClockRuns(ops) && i < |ops| && ops[i].Append?
    ensures Possible(Initial(), ops[..i + 1])
    ensures Run(Initial(), ops[..i + 1]).due.Some? <==> Beats(ops, i)
  {
    ClockIsLastBeat(ops, i);
    LastStep(Initial(), ops, i);
  }

  /** Two evaluations, of this buffer or others, are at least twelve seconds apart. */
  lemma EvaluationsApart(ops: seq<Op>, i: nat, j: nat)
    requires i < j < |ops| && Beats(ops, i) && Beats(ops, j)
    ensures ops[j].now >= ops[i].now + 12_000
  {
    assert ops[..i + 1][..i] == ops[..i];
    BeatsGrow(ops, i + 1, j);
  }

  lemma {:induction false} BeatsGrow(ops: seq<Op>, m: nat, n: nat)
    requires m <= n <= |ops| && LastBeat(ops[..m]).Some?
    ensures LastBeat(ops[..n]).Some? && LastBeat(ops[..n]).value >= LastBeat(ops[..m]).value
  {
    if m < n {
      BeatsGrow(ops, m, n - 1);
      assert ops[..n][..n - 1] == ops[..n - 1];
    }
  }

  /** And the first append or other reading of the clock twelve seconds after an
      evaluation, or after the very first reading, begins the next one. */
  lemma NextEvaluation(ops: seq<Op>, i: nat, j: nat)
    requires i < j < |ops| && Timed(ops[i]) && (Beats(ops, i) || LastBeat(ops[..i]).None?)
    requires Timed(ops[j]) && ops[j].now >= ops[i].now + 12_000
    requires forall k :: i < k < j ==> !Beats(ops, k)
    ensures Beats(ops, j)
  {
    assert ops[..i + 1][..i] == ops[..i];
    BeatsRest(ops, i + 1, j);
  }

  lemma {:induction false} BeatsRest(ops: seq<Op>, m: nat, n: nat)
    requires m <= n <= |ops| && LastBeat(ops[..m]).Some?
    requires forall k :: m <= k < n ==> !Beats(ops, k)
    ensures LastBeat(ops[..n]) == LastBeat(ops[..m])
  {
    if m < n {
      BeatsRest(ops, m, n - 1);
      assert ops[..n][..n - 1] == ops[..n - 1];
      assert !Beats(ops, n - 1);
    }
  }

  // How much is dropped.

  /** The lowest of the fullest buckets from 1 up. */
  predicate IsMode(c: seq<nat>, m: nat) {
    0 < m < |c| && c[m] > 0 && forall k :: 1 <= k < |c| ==> c[k] <= c[m] && (k < m ==> c[k] < c[m])
  }

  predicate IsFirstHit(c: seq<nat>, z: nat) {
    z < |c| && c[z] > 0 && forall k :: 0 <= k < z ==> c[k] == 0
  }

  /** Nothing, or an even number of samples as near as can be to a fortieth of `mark`
      seconds; and that only if more than three times as much is buffered. */
  ghost predicate DropsFor(rate: nat, mark: nat, having: nat, drop: nat) {
    exists near: nat :: near % 2 == 0 && 40 * near <= rate * mark + 40 < 40 * near + 80
      && drop == if having > 3 * near then near else 0
  }

  /** What the evaluation drops, told by the histogram alone: with the fullest bucket at
      600 ms or more, for the lesser of it and four for every two of three empty buckets at
      the low end; otherwise nothing. */
  lemma DropExactly(c: seq<nat>, rate: nat, having: nat, m: nat, z: nat)
    requires IsMode(c, m) && IsFirstHit(c, z)
    ensures m < 6 ==> ShrinkBy(c, 3 * rate, having) == 0
    ensures m >= 6 ==> DropsFor(rate, Min(m, z * 2 / 3 * 4), having, ShrinkBy(c, 3 * rate, having))
  {
    LeadingIsUnique(c, z);
    ModeIsUnique(c, m);
    if m >= 6 {
      NearestEven(rate, Min(m, z * 2 / 3 * 4));
    }
  }

  lemma ModeIsUnique(c: seq<nat>, m: nat)
    requires IsMode(c, m)
    ensures Mode(c) == m
  {
    ModeMeaning(c);
    var n := Mode(c);
    assert n != 0 ==> c[n] <= c[m] <= c[n];
  }

  lemma NearestEven(rate: nat, mark: nat)
    ensures var near := SkipCount(3 * rate, mark); near % 2 == 0 && 40 * near <= rate * mark + 40 < 40 * near + 80
  {
    var x := rate * mark;
    assert 3 * rate * mark == 3 * x;
  }

  // What the counters count.

  /** A level falls into the bucket of its tenths of a second, from 2.9 s on into the last. */
  lemma BucketMeaning(having: nat, rate: nat, k: nat)
    requires rate > 0 && k < 30
    ensures Bucket(having, rate) == k <==>
            k * rate <= 10 * having && (k < 29 ==> 10 * having < (k + 1) * rate)
  {
    DivideAtLeast(having * 10, rate, k);
    DivideAtLeast(having * 10, rate, k + 1);
  }

  predicate InTenth(l: Level, k: nat) {
    k * l.rate <= 10 * l.having && (k < 29 ==> 10 * l.having < (k + 1) * l.rate)
  }

  function HowMany(levels: seq<Level>, k: nat): nat
  {
    if levels == [] then 0
    else HowMany(levels[..|levels| - 1], k) + if InTenth(levels[|levels| - 1], k) then 1 else 0
  }

  lemma {:induction false} HistogramMeaning(levels: seq<Level>, k: nat)
    requires k < 30 && forall i :: 0 <= i < |levels| ==> levels[i].rate > 0
    ensures |Histogram(levels)| == 30 && Histogram(levels)[k] == HowMany(levels, k)
  {
    if levels != [] {
      var l := levels[|levels| - 1];
      HistogramMeaning(levels[..|levels| - 1], k);
      BucketMeaning(l.having, l.rate, k);
    }
  }

  /** Over every run each counter, or what was taken of it for evaluation, says how many
      levels since the last evaluation lay in its tenth of a second. */
  lemma CountersMeaning(ops: seq<Op>, k: nat)
    requires Possible(Initial(), ops) && k < 30
    ensures var s := Run(Initial(), ops);
            (if s.due.Some? then s.due.value else s.counts)[k] == HowMany(s.levels, k)
  {
    assert Faithful(Initial());
    RunIsFaithful(Initial(), ops);
    HistogramMeaning(Run(Initial(), ops).levels, k);
  }
}
