/** When the playback buffer is always cut between frames of `c` channels. */
module PlaybackFrames {
  import opened Common
  import opened Ring
  import opened Playback
  import opened PlaybackProofs

  // Remainders.

  lemma ModUnique(x: nat, q: nat, r: nat, c: nat)
    requires r < c && x == q * c + r
    ensures x % c == r
  {
    DivideAtLeast(x, c, q);
    DivideAtLeast(x, c, q + 1);
    assert (q + 1) * c == q * c + c;
    assert x / c == q;
  }

  lemma ModMultiple(q: nat, b: nat, c: nat)
    requires c > 0
    ensures (q * c + b) % c == b % c
  {
    assert (q + b / c) * c == q * c + b / c * c;
    ModUnique(q * c + b, q + b / c, b % c, c);
  }

  lemma AddMultiple(a: nat, b: nat, c: nat)
    requires c > 0 && a % c == 0
    ensures (a + b) % c == b % c
  {
    assert a == a / c * c;
    ModMultiple(a / c, b, c);
  }

  lemma LessMultiple(a: nat, b: nat, c: nat)
    requires c > 0 && a % c == 0 && b % c == 0 && b <= a
    ensures (a - b) % c == 0
  {
    AddMultiple(b, a - b, c);
  }

  // Formats whose shrinks are whole frames.

  /** The condition on a format: a sample rate, and `c` channels. */
  predicate ShrinksWhole(sampleRate: nat, c: nat) {
    c <= 2 || sampleRate % (if c % 2 == 0 then 40 else 80) == 0
  }

  lemma ShrinkIsWhole(counts: seq<nat>, sampleRate: nat, c: nat, having: nat)
    requires counts != [] && c > 0 && ShrinksWhole(sampleRate, c)
    ensures ShrinkBy(counts, 3 * (sampleRate * c), having) % c == 0
  {
    var cap, mark := 3 * (sampleRate * c), Min(Mode(counts), LeadingEmpty(counts) * 2 / 3 * 4);
    if c == 2 {
      ShrinkIsSmall(counts, cap, having);
    } else if c > 2 {
      SkipIsWhole(sampleRate, c, mark);
      AllOrNothing(counts, cap, having);
      ZeroIsWhole(c);
    }
  }

  lemma AllOrNothing(counts: seq<nat>, cap: nat, having: nat)
    requires counts != []
    ensures var skip := ShrinkBy(counts, cap, having);
            skip == 0 || skip == SkipCount(cap, Min(Mode(counts), LeadingEmpty(counts) * 2 / 3 * 4))
  {
  }

  lemma ZeroIsWhole(c: nat)
    requires c > 0
    ensures 0 % c == 0
  {
  }

  lemma SkipIsWhole(sampleRate: nat, c: nat, mark: nat)
    requires c > 2 && ShrinksWhole(sampleRate, c)
    ensures SkipCount(3 * (sampleRate * c), mark) % c == 0
  {
    var k := sampleRate / 40;
    assert sampleRate == 40 * k && (c % 2 == 0 || k % 2 == 0);
    Fortieth(sampleRate, k, c);
    EvenProduct(k, c);
    WholeSkip(k, c, mark, sampleRate * c);
  }

  lemma Fortieth(a: nat, k: nat, c: nat)
    requires a == 40 * k
    ensures a * c == 40 * (k * c)
  {
  }

  lemma EvenProduct(a: nat, b: nat)
    requires a % 2 == 0 || b % 2 == 0
    ensures a * b % 2 == 0
  {
    if a % 2 == 0 {
      TwiceIsEven(a / 2, b);
      assert a == 2 * (a / 2);
    } else {
      TwiceIsEven(b / 2, a);
      assert b == 2 * (b / 2);
    }
  }

  lemma TwiceIsEven(a: nat, b: nat)
    ensures 2 * a * b % 2 == 0 && b * (2 * a) % 2 == 0
  {
    assert 2 * a * b == 2 * (a * b) == b * (2 * a);
  }

  lemma WholeSkip(k: nat, c: nat, mark: nat, n: nat)
    requires c > 0 && n == 40 * (k * c) && k * c % 2 == 0
    ensures SkipCount(3 * n, mark) % c == 0
  {
    var q := k * c * mark;
    SkipOfMark(k * c, mark, n);
    EvenProduct(k * c, mark);
    SkipOfEven(3 * n, mark, q);
    Swap(k, c, mark);
    ModUnique(q, k * mark, 0, c);
  }

  lemma SkipOfMark(p: nat, mark: nat, n: nat)
    requires n == 40 * p
    ensures 3 * n * mark == 120 * (p * mark)
  {
  }

  lemma SkipOfEven(cap: nat, mark: nat, q: nat)
    requires cap * mark == 120 * q && q % 2 == 0
    ensures SkipCount(cap, mark) == q
  {
  }

  lemma Swap(k: nat, c: nat, mark: nat)
    ensures k * c * mark == k * mark * c
  {
  }

  // Formats with a shrink that is not.

  /** A water mark under which a format that is not in order slips. */
  function SlipMark(sampleRate: nat): nat
  {
    if sampleRate % 2 == 1 then 20
    else if sampleRate % 4 == 2 then 10
    else if sampleRate % 8 == 4 then 15
    else if sampleRate % 40 == 16 || sampleRate % 40 == 24 then 6
    else 7
  }

  /** Then the frames to skip are not a whole number, by far. */
  lemma FarFromWhole(sampleRate: nat)
    requires sampleRate % 40 != 0
    ensures 14 <= sampleRate * SlipMark(sampleRate) % 40 <= 26
  {
    MarkTable(sampleRate);
    OfMark(sampleRate, SlipMark(sampleRate), sampleRate * SlipMark(sampleRate));
  }

  predicate MarkFor(n: nat, m: nat) {
    || (n % 2 == 1 && m == 20) || (n % 4 == 2 && m == 10) || (n % 8 == 4 && m == 15)
    || (n % 40 in {16, 24} && m == 6) || (n % 40 in {8, 32} && m == 7)
  }

  lemma MarkTable(n: nat)
    requires n % 40 != 0
    ensures MarkFor(n, SlipMark(n))
  {
    LowBits(n, n / 8, n % 8);
    if n % 8 == 0 {
      Eighths(n, n / 8);
    }
  }

  lemma LowBits(n: nat, k: nat, r: nat)
    requires n == 8 * k + r && r < 8
    ensures n % 8 == r && n % 4 == r % 4 && n % 2 == r % 2
  {
    RemainderOf(n, k, 8, r);
    RemainderOf(n, 2 * k + r / 4, 4, r % 4);
    RemainderOf(n, 4 * k + r / 2, 2, r % 2);
  }

  lemma RemainderOf(n: nat, q: nat, d: nat, r: nat)
    requires n == q * d + r && r < d
    ensures n % d == r
  {
    ModUnique(n, q, r, d);
  }

  lemma Eighths(n: nat, k: nat)
    requires n == 8 * k
    ensures n % 40 in {0, 8, 16, 24, 32}
  {
    Remainder(n, k / 5, 8 * (k % 5));
  }

  /** `x` is `n` times a mark. */
  predicate TimesMark(n: nat, m: nat, x: nat) {
    && (m == 20 ==> x == 20 * n) && (m == 10 ==> x == 10 * n) && (m == 15 ==> x == 15 * n)
    && (m == 6 ==> x == 6 * n) && (m == 7 ==> x == 7 * n)
  }

  lemma OfMark(n: nat, m: nat, x: nat)
    requires MarkFor(n, m) && TimesMark(n, m, x)
    ensures 14 <= x % 40 <= 26
  {
    if m == 20 {
      Remainder(x, n / 2, 20);
    } else if m == 10 {
      Remainder(x, n / 4, 20);
    } else if m == 15 {
      Remainder(x, n / 8 * 3 + 1, 20);
    } else if m == 6 {
      Remainder(x, n / 40 * 6 + n % 40 / 8, n % 40);
    } else {
      Remainder(x, n / 40 * 7 + (if n % 40 == 8 then 1 else 5), if n % 40 == 8 then 16 else 24);
    }
  }

  lemma Remainder(x: nat, q: nat, r: nat)
    requires x == 40 * q + r && r < 40
    ensures x % 40 == r
  {
  }

  lemma NearMultiple(x: nat, c: nat, k: nat)
    requires c >= 3 && 14 <= x % 40 <= 26
    ensures !(40 * (c * k) - 40 <= c * x < 40 * (c * k) + 40)
  {
    var t, r := x / 40, x % 40;
    Distribute(c, t, r);
    ScaleUp(14, r, c);
    ScaleUp(r, 26, c);
    if k <= t {
      ScaleUp(k, t, c);
    } else {
      ScaleUp(t + 1, k, c);
      Distribute(c, 0, t + 1);
    }
    Apart(c, c * t, c * r, c * k, k <= t);
  }

  lemma Distribute(c: nat, t: nat, r: nat)
    ensures c * (40 * t + r) == 40 * (c * t) + c * r && c * (t + 1) == c * t + c
  {
  }

  lemma ScaleUp(a: nat, b: nat, c: nat)
    requires a <= b
    ensures c * a <= c * b
  {
  }

  lemma Apart(c: nat, a: nat, b: nat, k: nat, below: bool)
    requires c >= 3 && c * 14 <= b <= c * 26 && (if below then k <= a else a + c <= k)
    ensures !(40 * k - 40 <= 40 * a + b < 40 * k + 40)
  {
  }

  lemma SkipSlips(sampleRate: nat, c: nat)
    requires c > 0 && !ShrinksWhole(sampleRate, c)
    ensures SkipCount(3 * (sampleRate * c), SlipMark(sampleRate)) % c != 0
  {
    if sampleRate % 40 != 0 {
      FarSlips(sampleRate, c, SlipMark(sampleRate));
    } else {
      var k := sampleRate / 40;
      OddFortieth(sampleRate, c);
      Fortieth(sampleRate, k, c);
      OddSkip(k, c);
      OddSkipSlips(k, c, 3 * (sampleRate * c), SlipMark(sampleRate));
    }
  }

  lemma OddFortieth(sampleRate: nat, c: nat)
    requires sampleRate % 40 == 0 && !ShrinksWhole(sampleRate, c)
    ensures sampleRate == 40 * (sampleRate / 40) && sampleRate / 40 % 2 == 1 && c % 2 == 1
    ensures SlipMark(sampleRate) == 7
  {
    var k := sampleRate / 40;
    assert sampleRate == 40 * k;
    Eightieth(sampleRate, k);
    LowBits(sampleRate, 5 * k, 0);
  }

  lemma Eightieth(n: nat, k: nat)
    requires n == 40 * k
    ensures n % 80 == 0 <==> k % 2 == 0
  {
    RemainderOf(n, k / 2, 80, 40 * (k % 2));
  }

  lemma FarSlips(sampleRate: nat, c: nat, m: nat)
    requires c >= 3 && sampleRate % 40 != 0 && m == SlipMark(sampleRate)
    ensures SkipCount(3 * (sampleRate * c), m) % c != 0
  {
    FarFromWhole(sampleRate);
    Reorder(sampleRate, c, m);
    FarSkipSlips(sampleRate * m, c, 3 * (sampleRate * c) * m);
  }

  lemma Reorder(a: nat, c: nat, m: nat)
    ensures 3 * (a * c) * m == 3 * (c * (a * m))
  {
    assert a * c * m == c * (a * m);
  }

  lemma OddSkipSlips(k: nat, c: nat, cap: nat, m: nat)
    requires c >= 3 && cap == 120 * (k * c) && k * c * 7 % 2 == 1 && m == 7
    ensures SkipCount(cap, m) % c != 0
  {
    SkipOfOdd(k * c, cap, m);
    SevenTimes(k, c);
    ModUnique(k * c * 7 + 1, 7 * k, 1, c);
  }

  lemma SkipOfOdd(p: nat, cap: nat, m: nat)
    requires cap == 120 * p && p * 7 % 2 == 1 && m == 7
    ensures SkipCount(cap, m) == p * 7 + 1
  {
    assert cap * m == 120 * (p * 7);
  }

  lemma SevenTimes(k: nat, c: nat)
    ensures k * c * 7 == 7 * k * c
  {
  }

  lemma FarSkipSlips(x: nat, c: nat, n: nat)
    requires c >= 3 && 14 <= x % 40 <= 26 && n == 3 * (c * x)
    ensures RoundUpEven(n / 120) % c != 0
  {
    var skip := RoundUpEven(n / 120);
    var k := skip / c;
    NearMultiple(x, c, k);
    assert skip % c == 0 ==> skip == c * k;
  }

  lemma OddSkip(k: nat, c: nat)
    requires k % 2 == 1 && c % 2 == 1
    ensures k * c * 7 % 2 == 1
  {
    var a, b := k / 2, c / 2;
    OddProduct(a, b);
    assert k == 2 * a + 1 && c == 2 * b + 1;
    SevenOdds(k * c);
  }

  lemma SevenOdds(p: nat)
    requires p % 2 == 1
    ensures p * 7 % 2 == 1
  {
  }

  lemma OddProduct(a: nat, b: nat)
    ensures (2 * a + 1) * (2 * b + 1) % 2 == 1
  {
    assert (2 * a + 1) * (2 * b + 1) == 2 * (2 * a * b + a + b) + 1;
  }

  /** The frames whose time falls into the bucket of that mark. */
  function SlipFrames(sampleRate: nat): nat
  {
    (sampleRate * SlipMark(sampleRate) + 9) / 10
  }

  lemma FramesInBucket(sampleRate: nat)
    requires sampleRate > 0
    ensures var m, f := SlipMark(sampleRate), SlipFrames(sampleRate);
            m * sampleRate <= 10 * f < (m + 1) * sampleRate && f <= 3 * sampleRate
  {
    var m := SlipMark(sampleRate);
    if sampleRate % 40 != 0 {
      MarkTable(sampleRate);
    }
    RoundUpInBucket(sampleRate, m, sampleRate * m);
    assert (m + 1) * sampleRate == sampleRate * m + sampleRate;
  }

  lemma RoundUpInBucket(n: nat, m: nat, x: nat)
    requires n > 0 && (MarkFor(n, m) || (n % 40 == 0 && m == 7)) && TimesMark(n, m, x)
    ensures var f := (x + 9) / 10; x <= 10 * f < x + n && f <= 3 * n
  {
    if m == 15 {
      FifteenTenths(n, x);
    }
    assert m == 6 || m == 7 ==> (n == 8 && x == 56) || n >= 16;
    RoundUpTenth(x, n);
  }

  lemma FifteenTenths(n: nat, x: nat)
    requires n % 8 == 4 && x == 15 * n
    ensures x % 10 == 0
  {
    var k := n / 8;
    assert x == 10 * (12 * k + 6);
  }

  lemma RoundUpTenth(x: nat, n: nat)
    requires x <= 20 * n && (x % 10 == 0 || n >= 16 || (n == 8 && x == 56)) && n > 0
    ensures var f := (x + 9) / 10; x <= 10 * f < x + n && f <= 3 * n
  {
  }

  lemma LevelInBucket(sampleRate: nat, c: nat)
    requires sampleRate > 0 && c > 0
    ensures sampleRate * c > 0 && SlipFrames(sampleRate) * c <= 3 * (sampleRate * c)
    ensures Bucket(SlipFrames(sampleRate) * c, sampleRate * c) == SlipMark(sampleRate)
  {
    FramesInBucket(sampleRate);
    TimesChannels(sampleRate, SlipMark(sampleRate), SlipFrames(sampleRate), c);
  }

  lemma TimesChannels(sampleRate: nat, m: nat, f: nat, c: nat)
    requires c > 0 && sampleRate > 0 && m * sampleRate <= 10 * f < (m + 1) * sampleRate && f <= 3 * sampleRate && m <= 29
    ensures sampleRate * c > 0 && f * c <= 3 * (sampleRate * c) && Bucket(f * c, sampleRate * c) == m
  {
    Times(f, 3, sampleRate, c);
    TimesBelow(m, sampleRate, f, c);
    TimesAbove(m + 1, sampleRate, f, c);
    assert sampleRate * c > 0;
    BetweenTenths(f * c, sampleRate * c, m);
  }

  lemma TimesBelow(m: nat, b: nat, f: nat, c: nat)
    requires m * b <= 10 * f
    ensures m * (b * c) <= 10 * (f * c)
  {
    ScaleUp(m * b, 10 * f, c);
    Regroup(m, b, c);
    Regroup(10, f, c);
  }

  lemma TimesAbove(m: nat, b: nat, f: nat, c: nat)
    requires 10 * f < m * b && c > 0
    ensures 10 * (f * c) < m * (b * c)
  {
    ScaleUp(10 * f + 1, m * b, c);
    Regroup(m, b, c);
    Regroup(10, f, c);
    assert c * (10 * f + 1) == c * (10 * f) + c;
  }

  lemma Regroup(a: nat, b: nat, c: nat)
    ensures c * (a * b) == a * (b * c)
  {
  }

  lemma BetweenTenths(level: nat, rate: nat, m: nat)
    requires rate > 0 && m * rate <= level * 10 < (m + 1) * rate && m <= 29
    ensures Bucket(level, rate) == m
  {
    DivideAtLeast(level * 10, rate, m);
    DivideAtLeast(level * 10, rate, m + 1);
  }

  lemma Times(a: nat, k: nat, b: nat, c: nat)
    requires a <= k * b
    ensures a * c <= k * (b * c)
  {
    assert a * c <= k * b * c;
    assert k * b * c == k * (b * c);
  }

  /** With two hits at the mark and a full buffer, the skip under that mark is dropped. */
  lemma SlipDrops(sampleRate: nat, c: nat)
    requires sampleRate > 0 && c > 0 && !ShrinksWhole(sampleRate, c)
    ensures var cap, m := 3 * (sampleRate * c), SlipMark(sampleRate);
            ShrinkBy(TwoAndOne(m, 29), cap, cap) == SkipCount(cap, m)
  {
    var cap, m := 3 * (sampleRate * c), SlipMark(sampleRate);
    var counts := TwoAndOne(m, 29);
    TwoAndOneMarks(m, 29);
    assert Min(Mode(counts), LeadingEmpty(counts) * 2 / 3 * 4) == m;
    SkipSlips(sampleRate, c);
    assert sampleRate * c >= 3;
    assert cap * m <= cap * 20;
    assert SkipCount(cap, m) * 3 < cap;
  }

  /** A shrink drops whole frames, whatever the histogram and the level, exactly in the
      formats with at most two channels or a rate that is a multiple of 40, of 80 if the
      number of channels is odd. */
  lemma ShrinkKeepsFrames(sampleRate: nat, c: nat)
    requires sampleRate > 0 && c > 0
    ensures (forall counts: seq<nat>, having: nat :: |counts| == BUCKETS && having <= 3 * (sampleRate * c) ==>
               ShrinkBy(counts, 3 * (sampleRate * c), having) % c == 0)
            <==> ShrinksWhole(sampleRate, c)
  {
    if ShrinksWhole(sampleRate, c) {
      forall counts: seq<nat>, having: nat | |counts| == BUCKETS && having <= 3 * (sampleRate * c)
        ensures ShrinkBy(counts, 3 * (sampleRate * c), having) % c == 0
      {
        ShrinkIsWhole(counts, sampleRate, c, having);
      }
    } else {
      var cap, m := 3 * (sampleRate * c), SlipMark(sampleRate);
      SlipDrops(sampleRate, c);
      SkipSlips(sampleRate, c);
      assert ShrinkBy(TwoAndOne(m, 29), cap, cap) % c != 0;
    }
  }

  // Runs.

  /** Appends and reads of whole frames; a change of format keeps the channels. */
  predicate WholeFrames(op: Op, c: nat)
    requires c > 0
  {
    match op
    case Resize(sampleRate, channels) => channels == c && ShrinksWhole(sampleRate, c)
    case Append(b, _) => |b| % c == 0
    case Play(n) => n % c == 0
    case _ => true
  }

  ghost predicate BetweenFrames(s: State, c: nat)
    requires c > 0
  {
    && s.window.start % c == 0 && |s.window.pushed| % c == 0
    && exists sampleRate :: s.rate == sampleRate * c && ShrinksWhole(sampleRate, c)
  }

  lemma WholeStep(s: State, op: Op, c: nat)
    requires s.Valid() && Enabled(s, op) && c > 0 && BetweenFrames(s, c) && WholeFrames(op, c)
    ensures BetweenFrames(Step(s, op), c)
  {
    var sampleRate :| s.rate == sampleRate * c && ShrinksWhole(sampleRate, c);
    match op
    case Resize(newRate, _) => assert Step(s, op).rate == newRate * c;
    case Append(b, _) => WholeAppend(s.window, b, sampleRate, c);
    case Thin => {
      var counts, having := s.due.value, |s.window.Contents()|;
      ShrinkIsWhole(counts, sampleRate, c, having);
      WholeDrop(s.window, ShrinkBy(counts, s.window.cap, having), c);
    }
    case Play(n) => WholeDrop(s.window, n, c);
    case Elsewhere(_) =>
  }

  lemma WholeAppend(w: Window, b: seq<Sample>, sampleRate: nat, c: nat)
    requires w.Valid() && c > 0 && w.start % c == 0 && |w.pushed| % c == 0 && |b| % c == 0
    requires w.cap == 3 * (sampleRate * c)
    ensures Push(w, b).start % c == 0 && |Push(w, b).pushed| % c == 0
  {
    AddMultiple(|w.pushed|, |b|, c);
    assert w.cap == 3 * sampleRate * c + 0;
    ModUnique(w.cap, 3 * sampleRate, 0, c);
    if |w.pushed| + |b| >= w.cap {
      LessMultiple(|w.pushed| + |b|, w.cap, c);
    }
  }

  lemma WholeDrop(w: Window, n: nat, c: nat)
    requires w.Valid() && c > 0 && w.start % c == 0 && |w.pushed| % c == 0 && n % c == 0
    ensures Drop(w, n).start % c == 0
  {
    AddMultiple(w.start, n, c);
  }

  lemma {:induction false} FramesAreKept(s: State, ops: seq<Op>, c: nat)
    requires s.Valid() && Possible(s, ops) && c > 0 && BetweenFrames(s, c)
    requires forall i :: 0 <= i < |ops| ==> WholeFrames(ops[i], c)
    ensures BetweenFrames(Run(s, ops), c)
    decreases |ops|
  {
    if ops != [] {
      WholeStep(s, ops[0], c);
      FramesAreKept(Step(s, ops[0]), ops[1..], c);
    }
  }

  /** With two channels the buffer is always cut between frames: over every run of even
      appends and even reads, through all changes of the rate, an even number of samples
      has left the front. */
  lemma StereoNeverSlips(ops: seq<Op>)
    requires Possible(Initial(), ops)
    requires forall i :: 0 <= i < |ops| ==>
               match ops[i]
               case Resize(_, channels) => channels == 2
               case Append(b, _) => |b| % 2 == 0
               case Play(n) => n % 2 == 0
               case _ => true
    ensures Run(Initial(), ops).window.start % 2 == 0
  {
    assert Initial().rate == 48000 * 2 && ShrinksWhole(48000, 2);
    assert BetweenFrames(Initial(), 2);
    FramesAreKept(Initial(), ops, 2);
  }

  /** The buffer made ready for a format. */
  function Started(sampleRate: nat, c: nat): (s: State)
    requires sampleRate > 0 && c > 0
    ensures s.Valid() && s.rate == sampleRate * c && s.window == Window(3 * (sampleRate * c), [], 0)
    ensures s.counts == Initial().counts && s.lastShrink == 0 && s.due.None? && s.levels == []
  {
    assert sampleRate * c > 0;
    Step(Initial(), Resize(sampleRate, c))
  }

  predicate OfFormat(op: Op, c: nat)
    requires c > 0
  {
    match op
    case Resize(_, _) => false
    case Append(b, _) => |b| % c == 0
    case Play(n) => n % c == 0
    case _ => true
  }

  /** Whole frames in, whole frames out: then the front is always between frames. */
  ghost predicate NeverCutsFrames(sampleRate: nat, c: nat)
    requires sampleRate > 0 && c > 0
  {
    forall ops :: Possible(Started(sampleRate, c), ops) && (forall i :: 0 <= i < |ops| ==> OfFormat(ops[i], c)) ==>
      Run(Started(sampleRate, c), ops).window.start % c == 0
  }

  /** Over all runs in one format the buffer never cuts a frame apart if and only if the
      format has at most two channels or a rate that is a multiple of 40, of 80 if the
      number of channels is odd. */
  lemma NeverCutsFramesExactly(sampleRate: nat, c: nat)
    requires sampleRate > 0 && c > 0
    ensures NeverCutsFrames(sampleRate, c) <==> ShrinksWhole(sampleRate, c)
  {
    var s0 := Started(sampleRate, c);
    if ShrinksWhole(sampleRate, c) {
      forall ops | Possible(s0, ops) && forall i :: 0 <= i < |ops| ==> OfFormat(ops[i], c)
        ensures Run(s0, ops).window.start % c == 0
      {
        assert BetweenFrames(s0, c);
        FramesAreKept(s0, ops, c);
      }
    } else {
      var level := SlipFrames(sampleRate) * c;
      LevelInBucket(sampleRate, c);
      var b1: seq<Sample> := seq(level, _ => 0.0);
      var b2: seq<Sample> := seq(3 * (sampleRate * c) - level, _ => 0.0);
      SlipRun(sampleRate, c, b1, b2);
    }
  }

  /** A run of a format out of order that cuts a frame: twice a level at the slipping
      mark, then a full buffer that is thinned. */
  lemma SlipRun(sampleRate: nat, c: nat, b1: seq<Sample>, b2: seq<Sample>)
    requires sampleRate > 0 && c > 0 && !ShrinksWhole(sampleRate, c)
    requires |b1| == SlipFrames(sampleRate) * c && |b1| + |b2| == 3 * (sampleRate * c)
    ensures var ops := TwoLevels(b1, 0, b2);
            && (forall i :: 0 <= i < |ops| ==> OfFormat(ops[i], c))
            && Possible(Started(sampleRate, c), ops)
            && Run(Started(sampleRate, c), ops).window.start == SkipCount(3 * (sampleRate * c), SlipMark(sampleRate))
            && SkipCount(3 * (sampleRate * c), SlipMark(sampleRate)) % c != 0
  {
    var s0 := Started(sampleRate, c);
    SlipHits(sampleRate, c);
    TwoLevelsRun(s0, b1, 0, b2);
    SlipThins(sampleRate, c, s0, b1, b2);
    SlipLevels(sampleRate, c);
    LevelsOfFormat(b1, b2, c);
    SkipSlips(sampleRate, c);
  }

  lemma LevelsOfFormat(b1: seq<Sample>, b2: seq<Sample>, c: nat)
    requires c > 0 && |b1| % c == 0 && |b2| % c == 0
    ensures forall i :: 0 <= i < |TwoLevels(b1, 0, b2)| ==> OfFormat(TwoLevels(b1, 0, b2)[i], c)
  {
    ZeroIsWhole(c);
  }

  lemma SlipHits(sampleRate: nat, c: nat)
    requires sampleRate > 0 && c > 0
    ensures sampleRate * c > 0 && SlipFrames(sampleRate) * c <= 3 * (sampleRate * c)
    ensures Bucket(SlipFrames(sampleRate) * c, sampleRate * c) == SlipMark(sampleRate)
    ensures Bucket(3 * (sampleRate * c), sampleRate * c) == 29
  {
    LevelInBucket(sampleRate, c);
    ClampMeansFull(3 * (sampleRate * c), sampleRate * c);
  }

  lemma SlipThins(sampleRate: nat, c: nat, s: State, b1: seq<Sample>, b2: seq<Sample>)
    requires sampleRate > 0 && c > 0 && !ShrinksWhole(sampleRate, c)
    requires Untouched(s) && s.rate == sampleRate * c && s.window.cap == 3 * (sampleRate * c)
    requires |b1| == SlipFrames(sampleRate) * c && |b1| + |b2| == s.window.cap
    requires Bucket(|b1|, s.rate) == SlipMark(sampleRate) && Bucket(s.window.cap, s.rate) == 29
    ensures OnThin(BeforeThinning(s, b1, 0, b2)).window.start == SkipCount(3 * (sampleRate * c), SlipMark(sampleRate))
  {
    ThinnedWindow(s, b1, 0, b2);
    SlipDrops(sampleRate, c);
  }

  lemma SlipLevels(sampleRate: nat, c: nat)
    requires sampleRate > 0 && c > 0
    ensures SlipFrames(sampleRate) * c <= 3 * (sampleRate * c)
    ensures SlipFrames(sampleRate) * c % c == 0 && (3 * (sampleRate * c) - SlipFrames(sampleRate) * c) % c == 0
  {
    LevelInBucket(sampleRate, c);
    WholeLevels(SlipFrames(sampleRate), sampleRate, c);
  }

  lemma WholeLevels(f: nat, sampleRate: nat, c: nat)
    requires c > 0 && f * c <= 3 * (sampleRate * c)
    ensures f * c % c == 0 && (3 * (sampleRate * c) - f * c) % c == 0
  {
    ModUnique(f * c, f, 0, c);
    assert 3 * (sampleRate * c) == 3 * sampleRate * c;
    ModUnique(3 * (sampleRate * c), 3 * sampleRate, 0, c);
    LessMultiple(3 * (sampleRate * c), f * c, c);
  }

  /** So it is with six channels at 44100 Hz: 66150 frames, once more the same level, then
      a full buffer; the thinning drops 99226 samples. */
  lemma SurroundSlips(b1: seq<Sample>, b2: seq<Sample>)
    requires |b1| == 66_150 * 6 && |b2| == 66_150 * 6
    ensures Possible(Started(44_100, 6), TwoLevels(b1, 0, b2))
    ensures Run(Started(44_100, 6), TwoLevels(b1, 0, b2)).window.start == 99_226 && 99_226 % 6 == 4
  {
    SlipRun(44_100, 6, b1, b2);
  }
}
