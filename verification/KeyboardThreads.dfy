/** Key tracking between the thread of the keyboard hook and the one that releases the
    keys: every lock taken is a step of its own. */
module KeyboardThreads {
  import opened Common
  import opened Keyboard
  import opened KeyboardProofs

  /** An event on its way through `process_event`: the test for a repeated press, the
      modifier map, the tracking map, the message. */
  datatype Stage = Checking | Marking | Tracking | Sending

  datatype Task = Task(e: Event, stage: Stage)

  /** The release of all keys: after the snapshot, and in its loop with the events of the
      key at hand still to go. */
  datatype Release = NoRelease | Snapped(keys: set<Key>) | Looping(remaining: set<Key>, queue: seq<Event>, stage: Stage)

  datatype System = System(s: State, hook: Option<Task>, release: Release)

  datatype Step =
    | Begin(e: Event)    // the hook thread gets an event
    | Hook               // and takes its next lock
    | Snapshot
    | Clear
    | Take(k: Key)       // the loop comes to a key, in any order
    | ReleaseNext
    | Done

  function Start(): System
  {
    System(Initial(), None, NoRelease)
  }

  function OnStage(code: Table, s: State, t: Task): (State, Option<Task>)
  {
    match t.stage
    case Checking => (s, if LongPress(s, t.e) then None else Some(t.(stage := Marking)))
    case Marking =>
      (if t.e.OtherEvent? then s else s.(modifiers := Marked(s.modifiers, t.e.key, t.e.KeyPress?)),
       Some(t.(stage := Tracking)))
    case Tracking =>
      (match t.e
       case KeyPress(k) => s.(toRelease := s.toRelease[k := t.e])
       case KeyRelease(k) => s.(toRelease := s.toRelease - {k})
       case OtherEvent => s,
       Some(t.(stage := Sending)))
    case Sending => (s.(sent := s.sent + Messages(code, t.e)), None)
  }

  /** The four stages without a break are `Process`. */
  lemma StagesAreProcess(code: Table, s: State, e: Event)
    ensures if LongPress(s, e) then OnStage(code, s, Task(e, Checking)) == (Process(code, s, e), None)
            else
              var (s1, t1) := OnStage(code, s, Task(e, Checking));
              t1 == Some(Task(e, Marking)) && var (s2, t2) := OnStage(code, s1, t1.value);
              t2 == Some(Task(e, Tracking)) && var (s3, t3) := OnStage(code, s2, t2.value);
              t3 == Some(Task(e, Sending)) && OnStage(code, s3, t3.value) == (Process(code, s, e), None)
  {
    assert s.sent + [] == s.sent;
  }

  /** What the loop sends for one key. */
  function Strokes(k: Key): seq<Event>
  {
    if k == Alt || k == AltGr then [KeyRelease(k), KeyPress(k), KeyRelease(k)] else [KeyRelease(k)]
  }

  predicate Enabled(y: System, step: Step) {
    match step
    case Begin(_) => y.hook.None?
    case Hook => y.hook.Some?
    case Snapshot => y.release.NoRelease?
    case Clear => y.release.Snapped?
    case Take(k) => y.release.Looping? && y.release.queue == [] && k in y.release.remaining
    case ReleaseNext => y.release.Looping? && y.release.queue != []
    case Done => y.release.Looping? && y.release.queue == [] && y.release.remaining == {}
  }

  function Apply(code: Table, y: System, step: Step): System
    requires Enabled(y, step)
  {
    match step
    case Begin(e) => y.(hook := Some(Task(e, Checking)))
    case Hook => var (s, t) := OnStage(code, y.s, y.hook.value); y.(s := s, hook := t)
    case Snapshot => y.(release := Snapped(y.s.toRelease.Keys))
    case Clear => y.(s := y.s.(toRelease := map[]), release := Looping(y.release.keys, [], Checking))
    case Take(k) => y.(release := Looping(y.release.remaining - {k}, Strokes(k), Checking))
    case ReleaseNext =>
      var r := y.release;
      var (s, t) := OnStage(code, y.s, Task(r.queue[0], r.stage));
      y.(s := s, release := if t.None? then Looping(r.remaining, r.queue[1..], Checking)
                            else Looping(r.remaining, r.queue, t.value.stage))
    case Done => y.(release := NoRelease)
  }

  /** A press of the hook thread while a release is under way. */
  predicate Overlapping(y: System) {
    !y.release.NoRelease? && y.hook.Some? && y.hook.value.e.KeyPress?
  }

  predicate Allowed(code: Table, overlap: bool, y: System, step: Step) {
    Enabled(y, step) && (overlap || !Overlapping(Apply(code, y, step)))
  }

  predicate Possible(code: Table, overlap: bool, y: System, steps: seq<Step>)
    decreases |steps|
  {
    steps == []
    || (Allowed(code, overlap, y, steps[0]) && Possible(code, overlap, Apply(code, y, steps[0]), steps[1..]))
  }

  function Run(code: Table, overlap: bool, y: System, steps: seq<Step>): System
    requires Possible(code, overlap, y, steps)
    decreases |steps|
  {
    if steps == [] then y else Run(code, overlap, Apply(code, y, steps[0]), steps[1..])
  }

  /** With presses during releases, or without. */
  ghost predicate Reaches(code: Table, overlap: bool, y: System) {
    exists steps :: Possible(code, overlap, Start(), steps) && Run(code, overlap, Start(), steps) == y
  }

  lemma ReachOne(code: Table, overlap: bool, y: System, step: Step)
    requires Reaches(code, overlap, y) && Allowed(code, overlap, y, step)
    ensures Reaches(code, overlap, Apply(code, y, step))
  {
    var steps :| Possible(code, overlap, Start(), steps) && Run(code, overlap, Start(), steps) == y;
    RunAppend(code, overlap, Start(), steps, step);
  }

  lemma {:induction false} RunAppend(code: Table, overlap: bool, y: System, steps: seq<Step>, step: Step)
    requires Possible(code, overlap, y, steps) && Allowed(code, overlap, Run(code, overlap, y, steps), step)
    ensures Possible(code, overlap, y, steps + [step])
    ensures Run(code, overlap, y, steps + [step]) == Apply(code, Run(code, overlap, y, steps), step)
    decreases |steps|
  {
    if steps == [] {
      assert [step][1..] == [];
    } else {
      RunAppend(code, overlap, Apply(code, y, steps[0]), steps[1..], step);
      assert (steps + [step])[1..] == steps[1..] + [step];
    }
  }

  // One key's three bits: marked, tracked, held down at the peer.

  predicate M(s: State, x: Key) { x in s.modifiers && s.modifiers[x] }

  predicate T(s: State, x: Key) { x in s.toRelease }

  predicate D(code: Table, s: State, x: Key) { code(x).Some? && code(x).value in Down(s.sent) }

  /** No other key has the code of `x`. */
  ghost predicate Alone(code: Table, x: Key) {
    forall b :: b != x && code(b).Some? ==> code(b) != code(x)
  }

  /** The modifier map has the modifiers, and the peer holds down only codes of keys. */
  ghost predicate Sane(code: Table, s: State) {
    && (forall x :: x in s.modifiers <==> IsModifier(x))
    && (forall c :: c in Down(s.sent) ==> exists x :: code(x) == Some(c))
  }

  predicate On(t: Task, stage: Stage, x: Key) {
    t.stage == stage && !t.e.OtherEvent? && t.e.key == x
  }

  /** Each stage sets one bit of one key. */
  lemma StageEffect(code: Table, s: State, t: Task)
    requires Sane(code, s)
    ensures var r := OnStage(code, s, t).0;
            && Sane(code, r)
            && (forall x :: M(r, x) <==> if On(t, Marking, x) && IsModifier(x) then t.e.KeyPress? else M(s, x))
            && (forall x :: T(r, x) <==> if On(t, Tracking, x) then t.e.KeyPress? else T(s, x))
            && (forall x :: Alone(code, x) ==>
                  (D(code, r, x) <==> if On(t, Sending, x) && code(x).Some? then t.e.KeyPress? else D(code, s, x)))
  {
    if t.stage == Sending {
      SendEffect(code, s, t.e);
    }
  }

  lemma SendEffect(code: Table, s: State, e: Event)
    requires Sane(code, s)
    ensures var r := s.(sent := s.sent + Messages(code, e));
            && Sane(code, r)
            && (forall x :: Alone(code, x) ==>
                  (D(code, r, x) <==>
                   if !e.OtherEvent? && e.key == x && code(x).Some? then e.KeyPress? else D(code, s, x)))
  {
    if !e.OtherEvent? && code(e.key).Some? {
      DownAppend(s.sent, KeyMsg(code(e.key).value, e.KeyPress?));
    } else {
      assert s.sent + [] == s.sent;
    }
  }

  // Without a press during a release.

  ghost predicate Agree(code: Table, s: State, x: Key) {
    && (IsModifier(x) ==> (M(s, x) <==> T(s, x)))
    && (Alone(code, x) && code(x).Some? ==> (T(s, x) <==> D(code, s, x)))
  }

  /** The key of an event under way, which is in step but for the stages to come. */
  ghost predicate UnderWay(code: Table, s: State, t: Task)
    requires !t.e.OtherEvent?
  {
    var k := t.e.key;
    match t.stage
    case Checking => Agree(code, s, k)
    case Marking => Agree(code, s, k) && (t.e.KeyPress? ==> !M(s, k))
    case Tracking =>
      if t.e.KeyPress? then
        && (Alone(code, k) && code(k).Some? ==> (T(s, k) <==> D(code, s, k)))
        && (IsModifier(k) ==> M(s, k) && (Alone(code, k) ==> !D(code, s, k)))
      else !M(s, k) && (Alone(code, k) && code(k).Some? ==> (T(s, k) <==> D(code, s, k)))
    case Sending =>
      if t.e.KeyPress? then T(s, k) && (IsModifier(k) ==> M(s, k) && (Alone(code, k) ==> !D(code, s, k)))
      else !M(s, k) && !T(s, k)
  }

  predicate Touches(hook: Option<Task>, x: Key) {
    hook.Some? && !hook.value.e.OtherEvent? && hook.value.e.key == x
  }

  ghost predicate AtEase(code: Table, s: State, hook: Option<Task>) {
    && (forall x :: !Touches(hook, x) ==> Agree(code, s, x))
    && (hook.Some? && !hook.value.e.OtherEvent? ==> UnderWay(code, s, hook.value))
  }

  /** The hook thread is about to tell the peer that the key is up. */
  predicate Leaving(hook: Option<Task>, x: Key) {
    hook == Some(Task(KeyRelease(x), Sending))
  }

  /** Whatever is on belongs to the snapshot. */
  ghost predicate InSnapshot(code: Table, s: State, hook: Option<Task>, keys: set<Key>) {
    && (forall x :: M(s, x) || T(s, x) ==> x in keys)
    && (forall x :: Alone(code, x) && D(code, s, x) ==> x in keys || Leaving(hook, x))
  }

  /** The bits the key at hand may still have, `left` of its events to go. */
  predicate MayMark(left: nat, stage: Stage) {
    if left == 2 then stage.Tracking? || stage.Sending? else stage.Checking? || stage.Marking?
  }

  predicate MayTrack(left: nat, stage: Stage) {
    if left == 2 then stage.Sending? else !stage.Sending?
  }

  predicate AtHand(r: Release, x: Key) {
    r.Looping? && r.queue != [] && r.queue[0] in {KeyRelease(x), KeyPress(x)}
  }

  predicate WellQueued(r: Release) {
    r.Looping? && r.queue != [] ==>
      && !r.queue[0].OtherEvent? && r.queue[0].key !in r.remaining
      && var k := r.queue[0].key;
         r.queue == [KeyRelease(k)] || r.queue == [KeyPress(k), KeyRelease(k)]
         || r.queue == [KeyRelease(k), KeyPress(k), KeyRelease(k)]
  }

  /** Whatever is on is still to be released. */
  ghost predicate InLoop(code: Table, s: State, hook: Option<Task>, r: Release)
    requires r.Looping?
  {
    && (forall x :: M(s, x) ==> if AtHand(r, x) then MayMark(|r.queue|, r.stage) else x in r.remaining)
    && (forall x :: T(s, x) ==> AtHand(r, x) && MayTrack(|r.queue|, r.stage))
    && (forall x :: Alone(code, x) && D(code, s, x) ==>
          if AtHand(r, x) then |r.queue| != 2 else x in r.remaining || Leaving(hook, x))
  }

  ghost predicate Inv(code: Table, y: System) {
    && Sane(code, y.s) && !Overlapping(y) && WellQueued(y.release)
    && (match y.release
        case NoRelease => AtEase(code, y.s, y.hook)
        case Snapped(keys) => InSnapshot(code, y.s, y.hook, keys)
        case Looping(_, _, _) => InLoop(code, y.s, y.hook, y.release))
  }

  lemma BeginKeeps(code: Table, y: System, e: Event)
    requires Inv(code, y) && Allowed(code, false, y, Begin(e))
    ensures Inv(code, Apply(code, y, Begin(e)))
  {
  }

  lemma HookAtEase(code: Table, s: State, t: Task)
    requires Sane(code, s) && AtEase(code, s, Some(t))
    ensures AtEase(code, OnStage(code, s, t).0, OnStage(code, s, t).1)
  {
    var (r, t') := OnStage(code, s, t);
    StageEffect(code, s, t);
    forall x | !Touches(t', x) ensures Agree(code, r, x) {
      if Touches(Some(t), x) {
        StageEnds(code, s, t);
      } else {
        assert Agree(code, s, x);
      }
    }
  }

  /** A task that ends leaves its key in step. */
  lemma StageEnds(code: Table, s: State, t: Task)
    requires Sane(code, s) && !t.e.OtherEvent? && UnderWay(code, s, t) && OnStage(code, s, t).1.None?
    ensures Agree(code, OnStage(code, s, t).0, t.e.key)
  {
    StageEffect(code, s, t);
  }

  lemma HookInSnapshot(code: Table, s: State, t: Task, keys: set<Key>)
    requires Sane(code, s) && !t.e.KeyPress? && InSnapshot(code, s, Some(t), keys)
    ensures InSnapshot(code, OnStage(code, s, t).0, OnStage(code, s, t).1, keys)
  {
    StageEffect(code, s, t);
  }

  lemma HookInLoop(code: Table, s: State, t: Task, r: Release)
    requires Sane(code, s) && !t.e.KeyPress? && r.Looping? && InLoop(code, s, Some(t), r)
    ensures InLoop(code, OnStage(code, s, t).0, OnStage(code, s, t).1, r)
  {
    StageEffect(code, s, t);
  }

  lemma HookKeeps(code: Table, y: System)
    requires Inv(code, y) && y.hook.Some?
    ensures Inv(code, Apply(code, y, Hook))
  {
    var t := y.hook.value;
    StageEffect(code, y.s, t);
    match y.release
    case NoRelease => HookAtEase(code, y.s, t);
    case Snapped(keys) => HookInSnapshot(code, y.s, t, keys);
    case Looping(_, _, _) => HookInLoop(code, y.s, t, y.release);
  }

  lemma SnapshotKeeps(code: Table, y: System)
    requires Inv(code, y) && Allowed(code, false, y, Snapshot)
    ensures Inv(code, Apply(code, y, Snapshot))
  {
    var s := y.s;
    forall x | M(s, x) || T(s, x) ensures x in s.toRelease.Keys {
      assert Touches(y.hook, x) || Agree(code, s, x);
    }
    forall x | Alone(code, x) && D(code, s, x) ensures x in s.toRelease.Keys || Leaving(y.hook, x) {
      assert Touches(y.hook, x) || Agree(code, s, x);
    }
  }

  lemma ClearKeeps(code: Table, y: System)
    requires Inv(code, y) && y.release.Snapped?
    ensures Inv(code, Apply(code, y, Clear))
  {
  }

  lemma TakeKeeps(code: Table, y: System, k: Key)
    requires Inv(code, y) && Enabled(y, Take(k))
    ensures Inv(code, Apply(code, y, Take(k)))
  {
  }

  lemma NextKeeps(code: Table, y: System)
    requires Inv(code, y) && Enabled(y, ReleaseNext)
    ensures Inv(code, Apply(code, y, ReleaseNext))
  {
    var r := y.release;
    var t := Task(r.queue[0], r.stage);
    StageEffect(code, y.s, t);
    if OnStage(code, y.s, t).1.None? {
      LastStage(code, y.s, y.hook, r);
    } else {
      EarlierStage(code, y.s, y.hook, r);
    }
  }

  lemma EarlierStage(code: Table, s: State, hook: Option<Task>, r: Release)
    requires Sane(code, s) && r.Looping? && r.queue != [] && WellQueued(r) && InLoop(code, s, hook, r)
    requires OnStage(code, s, Task(r.queue[0], r.stage)).1.Some?
    ensures var (s', t) := OnStage(code, s, Task(r.queue[0], r.stage));
            InLoop(code, s', hook, r.(stage := t.value.stage))
  {
    StageEffect(code, s, Task(r.queue[0], r.stage));
  }

  lemma LastStage(code: Table, s: State, hook: Option<Task>, r: Release)
    requires Sane(code, s) && r.Looping? && r.queue != [] && WellQueued(r) && InLoop(code, s, hook, r)
    requires OnStage(code, s, Task(r.queue[0], r.stage)).1.None?
    ensures InLoop(code, OnStage(code, s, Task(r.queue[0], r.stage)).0, hook, Looping(r.remaining, r.queue[1..], Checking))
  {
    StageEffect(code, s, Task(r.queue[0], r.stage));
  }

  lemma DoneKeeps(code: Table, y: System)
    requires Inv(code, y) && Enabled(y, Done)
    ensures Inv(code, Apply(code, y, Done))
  {
  }

  lemma StepKeepsInv(code: Table, y: System, step: Step)
    requires Inv(code, y) && Allowed(code, false, y, step)
    ensures Inv(code, Apply(code, y, step))
  {
    match step
    case Begin(e) => BeginKeeps(code, y, e);
    case Hook => HookKeeps(code, y);
    case Snapshot => SnapshotKeeps(code, y);
    case Clear => ClearKeeps(code, y);
    case Take(k) => TakeKeeps(code, y, k);
    case ReleaseNext => NextKeeps(code, y);
    case Done => DoneKeeps(code, y);
  }

  lemma {:induction false} RunKeepsInv(code: Table, y: System, steps: seq<Step>)
    requires Inv(code, y) && Possible(code, false, y, steps)
    ensures Inv(code, Run(code, false, y, steps))
    decreases |steps|
  {
    if steps != [] {
      StepKeepsInv(code, y, steps[0]);
      RunKeepsInv(code, Apply(code, y, steps[0]), steps[1..]);
    }
  }

  lemma ReachableInv(code: Table, y: System)
    requires Reaches(code, false, y)
    ensures Inv(code, y)
  {
    var steps :| Possible(code, false, Start(), steps) && Run(code, false, Start(), steps) == y;
    RunKeepsInv(code, Start(), steps);
  }

  // What holds whenever both threads are at rest, and when a release ends.

  predicate Resting(y: System) { y.hook.None? && y.release.NoRelease? }

  ghost predicate ModifiersInStep(code: Table, overlap: bool) {
    forall y, k :: Reaches(code, overlap, y) && Resting(y) && IsModifier(k) ==> (M(y.s, k) <==> T(y.s, k))
  }

  ghost predicate PeerInStep(code: Table, overlap: bool) {
    forall y :: Reaches(code, overlap, y) && Resting(y) ==> Down(y.s.sent) == Codes(code, y.s.toRelease.Keys)
  }

  /** Nothing is tracked, marked or held down, but for a key whose release the hook thread
      is about to send. */
  ghost predicate NothingLeft(code: Table, y: System) {
    && (forall k :: !M(y.s, k) && !T(y.s, k))
    && (Injective(code) ==> forall k :: D(code, y.s, k) ==> Leaving(y.hook, k))
  }

  ghost predicate ReleasesAll(code: Table, overlap: bool) {
    forall y :: Reaches(code, overlap, y) && Enabled(y, Done) ==> NothingLeft(code, y)
  }

  /** At rest a modifier is marked exactly when it is tracked, for any table, if and only
      if no key is pressed while a release is under way. */
  lemma ModifiersInStepExactly(code: Table, overlap: bool)
    ensures ModifiersInStep(code, overlap) <==> !overlap
  {
    if overlap {
      var y := PressLost(code, ShiftLeft);
      ReachOne(code, true, y, Done);
      assert Resting(Apply(code, y, Done));
    } else {
      forall y, k | Reaches(code, false, y) && Resting(y) && IsModifier(k) ensures M(y.s, k) <==> T(y.s, k) {
        ReachableInv(code, y);
        assert Agree(code, y.s, k);
      }
    }
  }

  /** At rest the peer holds down exactly the codes of the tracked keys, if and only if no
      two keys share a code and none is pressed during a release, or none has a code. */
  lemma PeerInStepExactly(code: Table, overlap: bool)
    ensures PeerInStep(code, overlap) <==> (forall k :: code(k).None?) || (Injective(code) && !overlap)
  {
    if forall k :: code(k).None? {
      forall y | Reaches(code, overlap, y) && Resting(y) ensures Down(y.s.sent) == Codes(code, y.s.toRelease.Keys) {
        NothingSent(code, overlap, y);
      }
    } else if overlap {
      var k :| code(k).Some?;
      var y := PressLost(code, k);
      ReachOne(code, true, y, Done);
      assert code(k).value in Down(y.s.sent);
      assert Resting(Apply(code, y, Done));
    } else if !Injective(code) {
      var a, b :| a != b && code(a).Some? && code(b).Some? && code(a) == code(b);
      SharedCode(code, a, b);
    } else {
      forall y | Reaches(code, false, y) && Resting(y) ensures Down(y.s.sent) == Codes(code, y.s.toRelease.Keys) {
        ReachableInv(code, y);
        AgreedCodes(code, y.s);
      }
    }
  }

  lemma AgreedCodes(code: Table, s: State)
    requires Injective(code) && Sane(code, s) && forall x :: Agree(code, s, x)
    ensures Down(s.sent) == Codes(code, s.toRelease.Keys)
  {
    forall x ensures Alone(code, x) && (code(x).Some? ==> (T(s, x) <==> D(code, s, x))) {
      assert Agree(code, s, x);
    }
    forall c | c in Down(s.sent) ensures c in Codes(code, s.toRelease.Keys) {
      var x :| code(x) == Some(c);
      assert D(code, s, x);
    }
    forall c | c in Codes(code, s.toRelease.Keys) ensures c in Down(s.sent) {
      var x :| x in s.toRelease.Keys && code(x).Some? && code(x).value == c;
      assert T(s, x);
    }
  }

  /** A release leaves nothing tracked, marked or held down, in whatever order it goes,
      if and only if no key is pressed while it is under way. */
  lemma ReleasesAllExactly(code: Table, overlap: bool)
    ensures ReleasesAll(code, overlap) <==> !overlap
  {
    if overlap {
      var y := PressLost(code, ShiftLeft);
    } else {
      forall y | Reaches(code, false, y) && Enabled(y, Done) ensures NothingLeft(code, y) {
        ReachableInv(code, y);
        if Injective(code) {
          forall k | D(code, y.s, k) ensures Leaving(y.hook, k) {
            assert Alone(code, k);
          }
        }
      }
    }
  }

  lemma NothingSent(code: Table, overlap: bool, y: System)
    requires Reaches(code, overlap, y) && forall k :: code(k).None?
    ensures y.s.sent == []
  {
    var steps :| Possible(code, overlap, Start(), steps) && Run(code, overlap, Start(), steps) == y;
    StaysSilent(code, overlap, Start(), steps);
  }

  lemma {:induction false} StaysSilent(code: Table, overlap: bool, y: System, steps: seq<Step>)
    requires (forall k :: code(k).None?) && y.s.sent == [] && Possible(code, overlap, y, steps)
    ensures Run(code, overlap, y, steps).s.sent == []
    decreases |steps|
  {
    if steps != [] {
      StaysSilent(code, overlap, Apply(code, y, steps[0]), steps[1..]);
    }
  }

  // No modifier is pressed twice.

  ghost predicate NeverTwice(code: Table, k: Key, overlap: bool)
    requires code(k).Some?
  {
    forall y :: Reaches(code, overlap, y) ==> NoDoublePress(y.s.sent, code(k).value)
  }

  lemma StepIsNoDouble(code: Table, y: System, step: Step, k: Key)
    requires Alone(code, k) && IsModifier(k) && code(k).Some? && NoDoublePress(y.s.sent, code(k).value)
    requires Inv(code, y) && Allowed(code, false, y, step)
    ensures NoDoublePress(Apply(code, y, step).s.sent, code(k).value)
  {
    match step
    case Hook => TaskIsNoDouble(code, y.s, y.hook.value, k);
    case ReleaseNext => TaskIsNoDouble(code, y.s, Task(y.release.queue[0], y.release.stage), k);
    case _ =>
  }

  lemma TaskIsNoDouble(code: Table, s: State, t: Task, k: Key)
    requires Alone(code, k) && code(k).Some? && NoDoublePress(s.sent, code(k).value)
    requires t == Task(KeyPress(k), Sending) ==> !D(code, s, k)
    ensures NoDoublePress(OnStage(code, s, t).0.sent, code(k).value)
  {
    if t.stage == Sending {
      if t.e.OtherEvent? || code(t.e.key).None? {
        assert s.sent + [] == s.sent;
      } else {
        NoDoubleAppend(s.sent, KeyMsg(code(t.e.key).value, t.e.KeyPress?), code(k).value);
      }
    }
  }

  lemma {:induction false} RunIsNoDouble(code: Table, y: System, steps: seq<Step>, k: Key)
    requires Alone(code, k) && IsModifier(k) && code(k).Some? && NoDoublePress(y.s.sent, code(k).value)
    requires Inv(code, y) && Possible(code, false, y, steps)
    ensures NoDoublePress(Run(code, false, y, steps).s.sent, code(k).value)
    decreases |steps|
  {
    if steps != [] {
      StepKeepsInv(code, y, steps[0]);
      StepIsNoDouble(code, y, steps[0], k);
      RunIsNoDouble(code, Apply(code, y, steps[0]), steps[1..], k);
    }
  }

  /** No press of a modifier is sent while the peer holds its code down, if and only if no
      other key has the code and no key is pressed during a release. */
  lemma NoModifierPressedTwice(code: Table, k: Key, overlap: bool)
    requires IsModifier(k) && code(k).Some?
    ensures NeverTwice(code, k, overlap) <==> Alone(code, k) && !overlap
  {
    if !Alone(code, k) {
      var b :| b != k && code(b).Some? && code(b) == code(k);
      TwoPresses(code, overlap, b, k);
    } else if overlap {
      PressedBeforeUp(code, k);
    } else {
      forall y | Reaches(code, false, y) ensures NoDoublePress(y.s.sent, code(k).value) {
        var steps :| Possible(code, false, Start(), steps) && Run(code, false, Start(), steps) == y;
        RunIsNoDouble(code, Start(), steps, k);
      }
    }
  }

  // A release that nothing interrupts.

  lemma ReachStroke(code: Table, overlap: bool, y: System)
    requires Reaches(code, overlap, y) && y.hook.None?
    requires y.release.Looping? && y.release.queue != [] && y.release.stage == Checking
    ensures var r := y.release;
            Reaches(code, overlap, System(Process(code, y.s, r.queue[0]), None, Looping(r.remaining, r.queue[1..], Checking)))
  {
    var r := y.release;
    var e := r.queue[0];
    StagesAreProcess(code, y.s, e);
    ReachOne(code, overlap, y, ReleaseNext);
    if !LongPress(y.s, e) {
      var y1 := Apply(code, y, ReleaseNext);
      ReachOne(code, overlap, y1, ReleaseNext);
      var y2 := Apply(code, y1, ReleaseNext);
      ReachOne(code, overlap, y2, ReleaseNext);
      var y3 := Apply(code, y2, ReleaseNext);
      ReachOne(code, overlap, y3, ReleaseNext);
    }
  }

  lemma ReachKey(code: Table, overlap: bool, y: System, k: Key)
    requires Reaches(code, overlap, y) && y.hook.None? && Enabled(y, Take(k))
    ensures Reaches(code, overlap, System(ReleaseKey(code, y.s, k), None, Looping(y.release.remaining - {k}, [], Checking)))
  {
    var left := y.release.remaining - {k};
    ReachOne(code, overlap, y, Take(k));
    var s1 := Process(code, y.s, KeyRelease(k));
    ReachStroke(code, overlap, System(y.s, None, Looping(left, Strokes(k), Checking)));
    if k == Alt || k == AltGr {
      assert Strokes(k)[1..] == [KeyPress(k), KeyRelease(k)] && [KeyPress(k), KeyRelease(k)][1..] == [KeyRelease(k)];
      ReachStroke(code, overlap, System(s1, None, Looping(left, [KeyPress(k), KeyRelease(k)], Checking)));
      ReachStroke(code, overlap, System(Process(code, s1, KeyPress(k)), None, Looping(left, [KeyRelease(k)], Checking)));
      assert [KeyRelease(k)][1..] == [];
    } else {
      assert Strokes(k)[1..] == [];
    }
  }

  lemma {:induction false} ReachLoop(code: Table, overlap: bool, s: State, left: set<Key>, order: seq<Key>)
    requires Reaches(code, overlap, System(s, None, Looping(left, [], Checking))) && Enumerates(order, left)
    ensures Reaches(code, overlap, System(ReleaseKeys(code, s, order), None, Looping({}, [], Checking)))
    decreases |order|
  {
    if order == [] {
      assert left == {};
    } else {
      var k := order[0];
      ReachKey(code, overlap, System(s, None, Looping(left, [], Checking)), k);
      assert Enumerates(order[1..], left - {k}) by {
        assert forall x :: x in order <==> x == k || x in order[1..];
      }
      ReachLoop(code, overlap, ReleaseKey(code, s, k), left - {k}, order[1..]);
    }
  }

  /** The loop, lock by lock and in any order of the keys, is the sequential release. */
  lemma UninterruptedRelease(code: Table, overlap: bool, y: System, order: seq<Key>)
    requires Reaches(code, overlap, y) && Resting(y) && Enumerates(order, y.s.toRelease.Keys)
    ensures Reaches(code, overlap, System(ReleaseAll(code, y.s, order), None, NoRelease))
  {
    var keys := y.s.toRelease.Keys;
    var s := y.s.(toRelease := map[]);
    ReachOne(code, overlap, y, Snapshot);
    ReachOne(code, overlap, System(y.s, None, Snapped(keys)), Clear);
    ReachLoop(code, overlap, s, keys, order);
    ReachOne(code, overlap, System(ReleaseKeys(code, s, order), None, Looping({}, [], Checking)), Done);
  }

  // The failing runs.

  /** An event goes through without a break. */
  lemma ReachInput(code: Table, overlap: bool, y: System, e: Event)
    requires Reaches(code, overlap, y) && y.hook.None? && (overlap || y.release.NoRelease?)
    ensures Reaches(code, overlap, y.(s := Process(code, y.s, e)))
  {
    StagesAreProcess(code, y.s, e);
    ReachOne(code, overlap, y, Begin(e));
    var y1 := Apply(code, y, Begin(e));
    ReachOne(code, overlap, y1, Hook);
    var y2 := Apply(code, y1, Hook);
    if !LongPress(y.s, e) {
      ReachOne(code, overlap, y2, Hook);
      var y3 := Apply(code, y2, Hook);
      ReachOne(code, overlap, y3, Hook);
      var y4 := Apply(code, y3, Hook);
      ReachOne(code, overlap, y4, Hook);
      assert Apply(code, y4, Hook) == y.(s := Process(code, y.s, e));
    } else {
      assert y2 == y.(s := Process(code, y.s, e));
    }
  }

  lemma ReachStart(code: Table, overlap: bool)
    ensures Reaches(code, overlap, Start())
  {
    assert Possible(code, overlap, Start(), []);
  }

  /** A press between the snapshot and the clear: the release ends with the key untracked,
      still marked if it is a modifier, and held down at the peer. */
  lemma PressLost(code: Table, k: Key) returns (y: System)
    ensures Reaches(code, true, y) && Enabled(y, Done) && y.hook.None?
    ensures y.s.toRelease == map[] && (IsModifier(k) ==> M(y.s, k))
    ensures code(k).Some? ==> code(k).value in Down(y.s.sent)
  {
    ReachStart(code, true);
    ReachOne(code, true, Start(), Snapshot);
    y := Start().(release := Snapped({}));
    assert Initial().toRelease.Keys == {};
    ReachInput(code, true, y, KeyPress(k));
    y := y.(s := Process(code, Initial(), KeyPress(k)));
    ReachOne(code, true, y, Clear);
    y := Apply(code, y, Clear);
    FirstPress(code, k);
  }

  lemma FirstPress(code: Table, k: Key)
    ensures var s := Process(code, Initial(), KeyPress(k));
            (IsModifier(k) ==> M(s, k)) && (code(k).Some? ==> code(k).value in Down(s.sent))
  {
    if code(k).Some? {
      DownAppend([], KeyMsg(code(k).value, true));
    }
  }

  /** Two keys with one code. */
  lemma SharedCode(code: Table, a: Key, b: Key)
    requires a != b && code(a).Some? && code(a) == code(b)
    ensures exists y :: Reaches(code, false, y) && Resting(y) && Down(y.s.sent) != Codes(code, y.s.toRelease.Keys)
  {
    var s1 := Process(code, Initial(), KeyPress(a));
    var s2 := Process(code, s1, KeyPress(b));
    ReachStart(code, false);
    ReachInput(code, false, Start(), KeyPress(a));
    ReachInput(code, false, Start().(s := s1), KeyPress(b));
    ReachInput(code, false, Start().(s := s2), KeyRelease(a));
    SharedCodeState(code, a, b);
    assert Resting(Start().(s := Process(code, s2, KeyRelease(a))));
  }

  lemma TwoDowns(sent: seq<KeyMsg>, c: nat)
    requires |sent| > 0 && sent[|sent| - 1] == KeyMsg(c, true)
    ensures !NoDoublePress(sent + [KeyMsg(c, true)], c)
  {
    assert (sent + [KeyMsg(c, true)])[..|sent|] == sent;
    assert (sent + [KeyMsg(c, true)])[|sent|] == KeyMsg(c, true);
  }

  lemma TwoPresses(code: Table, overlap: bool, a: Key, b: Key)
    requires a != b && code(a).Some? && code(a) == code(b)
    ensures exists y :: Reaches(code, overlap, y) && !NoDoublePress(y.s.sent, code(b).value)
  {
    var s1 := Process(code, Initial(), KeyPress(a));
    ReachStart(code, overlap);
    ReachInput(code, overlap, Start(), KeyPress(a));
    ReachInput(code, overlap, Start().(s := s1), KeyPress(b));
    assert s1.sent == [KeyMsg(code(a).value, true)];
    assert !LongPress(s1, KeyPress(b));
    TwoDowns(s1.sent, code(b).value);
    assert !NoDoublePress(Start().(s := Process(code, s1, KeyPress(b))).s.sent, code(b).value);
  }

  /** The loop has taken the mark of a held key away and not yet told the peer. */
  lemma HalfReleased(code: Table, k: Key) returns (y: System)
    requires IsModifier(k) && code(k).Some?
    ensures Reaches(code, true, y) && y.hook.None?
    ensures y.s.sent == [KeyMsg(code(k).value, true)] && !LongPress(y.s, KeyPress(k))
  {
    ReachStart(code, true);
    ReachInput(code, true, Start(), KeyPress(k));
    y := Start().(s := Process(code, Initial(), KeyPress(k)));
    assert y.s.toRelease.Keys == {k} && y.s.sent == [KeyMsg(code(k).value, true)] && k in y.s.modifiers;
    ReachOne(code, true, y, Snapshot);
    y := Apply(code, y, Snapshot);
    ReachOne(code, true, y, Clear);
    y := Apply(code, y, Clear);
    ReachOne(code, true, y, Take(k));
    y := Apply(code, y, Take(k));
    y := Unmarked(code, k, y);
  }

  lemma Unmarked(code: Table, k: Key, y: System) returns (z: System)
    requires Reaches(code, true, y) && y.hook.None? && k in y.s.modifiers
    requires y.release == Looping({}, Strokes(k), Checking)
    ensures Reaches(code, true, z) && z.hook.None? && z.s.sent == y.s.sent && !LongPress(z.s, KeyPress(k))
  {
    ReachOne(code, true, y, ReleaseNext);
    z := Apply(code, y, ReleaseNext);
    ReachOne(code, true, z, ReleaseNext);
    z := Apply(code, z, ReleaseNext);
  }

  /** A press that comes then passes for a new one. */
  lemma PressedBeforeUp(code: Table, k: Key)
    requires IsModifier(k) && code(k).Some?
    ensures exists y :: Reaches(code, true, y) && !NoDoublePress(y.s.sent, code(k).value)
  {
    var y := HalfReleased(code, k);
    ReachInput(code, true, y, KeyPress(k));
    TwoDowns(y.s.sent, code(k).value);
    assert !NoDoublePress(y.(s := Process(code, y.s, KeyPress(k))).s.sent, code(k).value);
  }
}
