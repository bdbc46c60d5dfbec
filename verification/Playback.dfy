/** The playback jitter buffer (`AudioBuffer` of client.rs): a ring of the latest three
    seconds of sound that is thinned out, every twelve seconds, by what a histogram of
    its fill levels says. */
module Playback {
  import opened Common
  import opened Ring

  const AUDIO_BUFFER_MS := 3000
  const BUCKETS := 30
  const SHRINK_INTERVAL := 12000

  // The histogram.

  /** How many buckets at the low end were never hit. */
  function LeadingEmpty(c: seq<nat>): (z: nat)
    ensures z <= |c| && forall k :: 0 <= k < z ==> c[k] == 0
    ensures z < |c| ==> c[z] > 0
  {
    if c == [] || c[0] > 0 then 0 else 1 + LeadingEmpty(c[1..])
  }

  /** The bucket that takes most of the time; bucket 0 never counts. */
  function Mode(c: seq<nat>): (m: nat)
    requires c != []
    ensures m < |c|
  {
    if |c| == 1 then 0
    else
      var last := |c| - 1;
      var m := Mode(c[..last]);
      if c[last] > (if m == 0 then 0 else c[m]) then last else m
  }

  /** It is the lowest of the fullest buckets from 1 up, or 0 when all these are empty. */
  lemma {:induction false} ModeMeaning(c: seq<nat>)
    requires c != []
    ensures var m := Mode(c);
            if m == 0 then forall k :: 1 <= k < |c| ==> c[k] == 0
            else c[m] > 0 && forall k :: 1 <= k < |c| ==> c[k] <= c[m] && (k < m ==> c[k] < c[m])
  {
    if |c| > 1 {
      ModeMeaning(c[..|c| - 1]);
    }
  }

  lemma ModeStep(c: seq<nat>, i: nat)
    requires 0 < i < |c|
    ensures var m := Mode(c[..i]); Mode(c[..i + 1]) == if c[i] > (if m == 0 then 0 else c[m]) then i else m
  {
    assert c[..i + 1][..i] == c[..i];
  }

  /** The one pass over the counters that finds both marks and clears as it goes. */
  method ScanBuckets(c: array<nat>) returns (zero: nat, max: nat)
    requires c.Length == BUCKETS
    modifies c
    ensures zero == LeadingEmpty(old(c[..])) && max == Mode(old(c[..]))
    ensures c[..] == seq(BUCKETS, _ => 0)
  {
    ghost var c0 := c[..];
    zero, max := 0, 0;
    for i := 0 to BUCKETS
      invariant zero <= i && (forall k :: 0 <= k < zero ==> c0[k] == 0) && (zero < i ==> c0[zero] > 0)
      invariant if i == 0 then max == 0 else max < i && max == Mode(c0[..i])
      invariant forall k :: i <= k < BUCKETS ==> c[k] == c0[k]
      invariant forall k :: 0 <= k < i && k != max ==> c[k] == 0
      invariant i > 0 ==> c[max] == if max > 0 then c0[max] else 0
    {
      if c[i] == 0 && zero == i {
        zero := zero + 1;
      }
      if i > 0 {
        ModeStep(c0, i);
      }
      if c[i] > c[max] {
        c[max] := 0;
        max := i;
      } else {
        c[i] := 0;
      }
    }
    assert c0[..BUCKETS] == c0;
    LeadingIsUnique(c0, zero);
    c[max] := 0;
  }

  lemma LeadingIsUnique(c: seq<nat>, z: nat)
    requires z <= |c| && (forall k :: 0 <= k < z ==> c[k] == 0) && (z < |c| ==> c[z] > 0)
    ensures z == LeadingEmpty(c)
  {
  }

  // How much to drop.

  function RoundUpEven(n: nat): nat { (n + 1) - (n + 1) % 2 }

  function SkipCount(cap: nat, mark: nat): nat
  {
    RoundUpEven(cap * mark / 120)
  }

  /** The samples to drop, given the two marks; `zero` is already scaled. */
  function ThinBy(zero: nat, max: nat, cap: nat, having: nat): nat
  {
    if max < 6 then 0
    else
      var skip := SkipCount(cap, Min(max, zero * 4));
      if having > skip * 3 && skip > 0 then skip else 0
  }

  function ShrinkBy(c: seq<nat>, cap: nat, having: nat): nat
    requires c != []
  {
    ThinBy(LeadingEmpty(c) * 2 / 3, Mode(c), cap, having)
  }

  // The buffer as a window on everything pushed since the last change of capacity.

  datatype Window = Window(cap: nat, pushed: seq<Sample>, start: nat) {
    ghost predicate Valid() {
      cap > 0 && start <= |pushed| && |pushed| - start <= cap
    }

    function Contents(): seq<Sample>
      requires start <= |pushed|
    {
      pushed[start..]
    }
  }

  function Push(w: Window, b: seq<Sample>): (r: Window)
    requires w.Valid()
    ensures r.Valid() && r.Contents() == Last(w.Contents() + b, w.cap)
  {
    var pushed := w.pushed + b;
    var start := if |pushed| - w.start <= w.cap then w.start else |pushed| - w.cap;
    Window(w.cap, pushed, start)
  }

  function Drop(w: Window, n: nat): (r: Window)
    requires w.Valid()
    ensures r.Valid()
  {
    w.(start := w.start + Min(n, |w.pushed| - w.start))
  }

  lemma DropContents(w: Window, n: nat)
    requires w.Valid()
    ensures Drop(w, n).Contents() == w.Contents()[Min(n, |w.Contents()|)..]
  {
    var k := Min(n, |w.Contents()|);
    assert w.pushed[w.start..][k..] == w.pushed[w.start + k..];
  }

  /** A new capacity drops everything buffered. */
  function Resized(w: Window, cap: nat): (r: Window)
    requires w.Valid() && cap > 0
    ensures r.Valid() && r.cap == cap
  {
    if cap == w.cap then w else Window(cap, w.pushed, |w.pushed|)
  }

  // Buffer, histogram and clock together.

  /** A fill level when it was counted, and the samples a second of that time. */
  datatype Level = Level(having: nat, rate: nat)

  datatype State = State(
    window: Window,
    rate: nat,                 // samples a second, all channels together
    counts: seq<nat>,
    lastShrink: int,           // shared by all buffers, in milliseconds; 0 before the first level
    due: Option<seq<nat>>,     // the histogram whose evaluation has begun
    levels: seq<Level>         // history: what was counted since the last evaluation ended
  ) {
    ghost predicate Valid() {
      && window.Valid() && rate > 0 && window.cap == 3 * rate && |counts| == BUCKETS
      && (due.Some? ==> |due.value| == BUCKETS)
    }
  }

  /** The atomic actions of the decoder's thread (the first three), of the sound device's
      and of other buffers. The lock is free between an append and the thinning. */
  datatype Op =
    | Resize(sampleRate: nat, channels: nat)
    | Append(b: seq<Sample>, now: int)
    | Thin
    | Play(n: nat)
    | Elsewhere(now: int)

  function Initial(): (s: State)
    ensures s.Valid()
  {
    State(Window(288000, [], 0), 96000, seq(BUCKETS, _ => 0), 0, None, [])
  }

  predicate Enabled(s: State, op: Op) {
    match op
    case Resize(sampleRate, channels) => s.due.None? && sampleRate > 0 && channels > 0
    case Append(_, _) => s.due.None?
    case Thin => s.due.Some?
    case _ => true
  }

  predicate IsDue(lastShrink: int, now: int) {
    lastShrink != 0 && now >= lastShrink + SHRINK_INTERVAL
  }

  function Ticked(lastShrink: int, now: int): int
  {
    if lastShrink == 0 || IsDue(lastShrink, now) then now else lastShrink
  }

  function Step(s: State, op: Op): (r: State)
    requires s.Valid() && Enabled(s, op)
    ensures r.Valid()
  {
    match op
    case Resize(sampleRate, channels) => OnResize(s, sampleRate * channels)
    case Append(b, now) => OnAppend(s, b, now)
    case Thin => OnThin(s)
    case Play(n) => s.(window := Drop(s.window, n))
    case Elsewhere(now) => s.(lastShrink := Ticked(s.lastShrink, now))
  }

  function OnResize(s: State, rate: nat): (r: State)
    requires s.Valid() && rate > 0
    ensures r.Valid()
  {
    s.(window := Resized(s.window, 3 * rate), rate := rate)
  }

  function OnAppend(s: State, b: seq<Sample>, now: int): (r: State)
    requires s.Valid() && s.due.None?
    ensures r.Valid()
  {
    var w := Push(s.window, b);
    var c := Counted(s.counts, Bucket(|w.Contents()|, s.rate));
    var due := IsDue(s.lastShrink, now);
    State(w, s.rate, if due then seq(BUCKETS, _ => 0) else c, Ticked(s.lastShrink, now),
          if due then Some(c) else None, s.levels + [Level(|w.Contents()|, s.rate)])
  }

  function OnThin(s: State): (r: State)
    requires s.Valid() && s.due.Some?
    ensures r.Valid()
  {
    s.(window := Drop(s.window, ShrinkBy(s.due.value, s.window.cap, |s.window.Contents()|)), due := None, levels := [])
  }

  /** An append with the evaluation it may bring, nothing coming in between. */
  function Appended(s: State, b: seq<Sample>, now: int): (r: State)
    requires s.Valid() && s.due.None?
    ensures r.Valid()
  {
    var r := OnAppend(s, b, now);
    if r.due.Some? then OnThin(r) else r
  }

  /** Dropping in front what would not fit does not change what remains in the end. */
  lemma LastOfLast(s: seq<Sample>, t: seq<Sample>, b: seq<Sample>, cap: nat)
    requires |s| <= cap && |b| <= cap < |s| + |b| && t == s[|s| + |b| - cap..]
    ensures Last(t + b, cap) == Last(s + b, cap)
  {
  }

  /** The time of the last evaluation, shared by all buffers of the program. */
  class ShrinkClock {
    var tms: int

    constructor ()
      ensures tms == 0
    {
      tms := 0;
    }
  }

  class AudioBuffer {
    const ring: RingBuffer
    var rate: nat
    const buckets: array<nat>
    const clock: ShrinkClock
    ghost var window: Window
    ghost var levels: seq<Level>

    ghost predicate Valid()
      reads this, ring, ring.data, buckets
    {
      && ring.Valid() && buckets.Length == BUCKETS && rate > 0
      && window.Valid() && window.cap == ring.data.Length == 3 * rate
      && ring.Contents() == window.Contents()
    }

    ghost function Value(): State
      reads this, buckets, clock
    {
      State(window, rate, buckets[..], clock.tms, None, levels)
    }

    constructor (clock: ShrinkClock)
      ensures Valid() && this.clock == clock && Value() == Initial().(lastShrink := clock.tms)
      ensures fresh(ring) && fresh(ring.data) && fresh(buckets)
    {
      ring := new RingBuffer(48000 * 2 * AUDIO_BUFFER_MS / 1000);
      buckets := new nat[BUCKETS](_ => 0);
      rate := 48000 * 2;
      this.clock := clock;
      window := Window(288000, [], 0);
      levels := [];
    }

    /** A change of format empties the buffer only when it changes the capacity. */
    method Resize(sampleRate: nat, channels: nat)
      requires Valid() && sampleRate > 0 && channels > 0
      modifies this`rate, this`window, ring
      ensures Valid() && (ring.data == old(ring.data) || fresh(ring.data))
      ensures Value() == OnResize(old(Value()), sampleRate * channels)
    {
      var capacity := sampleRate * channels * AUDIO_BUFFER_MS / 1000;
      assert sampleRate * channels * AUDIO_BUFFER_MS / 1000 == 3 * (sampleRate * channels);
      if capacity != ring.data.Length {
        ring.Reset(capacity);
        rate := sampleRate * channels;
        window := Resized(window, capacity);
      }
    }

    method AppendPcm2(buffer: seq<Sample>) returns (having: nat)
      requires Valid()
      modifies this`window, ring`head, ring`len, ring.data
      ensures Valid()
      ensures window == Push(old(window), buffer) && having == |window.Contents()|
    {
      having := Overwrite(buffer);
      window := Push(window, buffer);
    }

    /** The append under the lock. */
    method Overwrite(buffer: seq<Sample>) returns (having: nat)
      requires ring.Valid()
      modifies ring`head, ring`len, ring.data
      ensures ring.Valid() && ring.data == old(ring.data) && having == ring.len
      ensures ring.Contents() == Last(old(ring.Contents()) + buffer, ring.data.Length)
    {
      var cap := ring.data.Length;
      ghost var before := ring.Contents();
      if |buffer| > cap {
        ring.PushSliceOverwrite(buffer);
        return cap;
      }
      having := ring.len + |buffer|;
      if having > cap {
        var removed := ring.Skip(having - cap);
        LastOfLast(before, ring.Contents(), buffer, cap);
      }
      ring.PushSliceOverwrite(buffer);
      having := ring.len;
    }

    /** Counts the fill level seen after an append; when twelve seconds have passed
        since the last time, evaluates the histogram and drops what it says. */
    method TryShrink(having: nat, now: int)
      requires Valid() && having <= window.cap
      modifies this`window, this`levels, clock, ring`head, ring`len, buckets
      ensures Valid()
      ensures var c := Counted(old(buckets[..]), Bucket(having, rate));
              var due := IsDue(old(clock.tms), now);
              && clock.tms == Ticked(old(clock.tms), now)
              && buckets[..] == (if due then seq(BUCKETS, _ => 0) else c)
              && levels == (if due then [] else old(levels) + [Level(having, rate)])
              && window == (if due then Drop(old(window), ShrinkBy(c, old(window).cap, |old(window).Contents()|))
                            else old(window))
    {
      CountLevel(having);
      levels := levels + [Level(having, rate)];
      if clock.tms == 0 {
        clock.tms := now;
        return;
      } else if now < clock.tms + SHRINK_INTERVAL {
        return;
      }
      clock.tms := now;
      var zero, max := ScanBuckets(buckets);
      Thin(zero * 2 / 3, max);
      levels := [];
    }

    /** The clamp acts only on a full buffer. */
    method CountLevel(having: nat)
      requires Valid()
      modifies buckets
      ensures buckets[..] == Counted(old(buckets[..]), Bucket(having, rate))
    {
      var i := having * 10 / rate;
      if i > 29 {
        i := 29;
      }
      buckets[i] := buckets[i] + 1;
    }

    /** The second half of the shrink: from the two marks to the samples dropped. */
    method Thin(zero: nat, max: nat)
      requires Valid()
      modifies this`window, ring`head, ring`len
      ensures Valid() && window == Drop(old(window), ThinBy(zero, max, old(window).cap, |old(window).Contents()|))
    {
      var mark := max;
      if mark < 6 {
        return;
      } else if mark > zero * 4 {
        mark := zero * 4;
      }
      var cap := ring.data.Length;
      var having := ring.len;
      var skip := RoundUpEven(cap * mark / (30 * 4));
      if having > skip * 3 && skip > 0 {
        SkipFront(skip);
      }
    }

    method SkipFront(n: nat)
      requires Valid()
      modifies this`window, ring`head, ring`len
      ensures Valid() && window == Drop(old(window), n)
    {
      DropContents(window, n);
      var removed := ring.Skip(n);
      window := Drop(window, n);
    }

    method AppendPcm(buffer: seq<Sample>, now: int)
      requires Valid()
      modifies this`window, this`levels, clock, ring`head, ring`len, ring.data, buckets
      ensures Valid() && Value() == Appended(old(Value()), buffer, now)
    {
      var having := AppendPcm2(buffer);
      TryShrink(having, now);
    }

    /** The output callback: `n` samples, silence where the buffer has none. */
    method Play(n: nat) returns (data: seq<Sample>)
      requires Valid()
      modifies this`window, ring
      ensures Valid() && ring.data == old(ring.data) && window == Drop(old(window), n) && |data| == n
      ensures var have := Min(n, |old(window).Contents()|);
              data == old(window).Contents()[..have] + seq(n - have, _ => 0.0)
    {
      var m := n;
      if ring.len < n {
        m := ring.len;
      }
      DropContents(window, n);
      var elems := ring.PopSlice(m);
      window := Drop(window, n);
      data := elems + seq(n - m, _ => 0.0);
    }
  }

  /** The bucket of a fill level: tenths of a second, the last one open-ended. */
  function Bucket(having: nat, rate: nat): nat
    requires rate > 0
  {
    Min(having * 10 / rate, 29)
  }

  function Counted(c: seq<nat>, i: nat): seq<nat>
  {
    if i < |c| then c[i := c[i] + 1] else c
  }
}
