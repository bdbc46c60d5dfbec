/** The rounds of `start_all` in rendezvous_mediator.rs: one loop starts a mediator per
    server and joins them, callers of `restart` come at any time, and two shared flags
    carry the news. Every atomic store and load is a step of its own. */
module Rounds {

  /** Where the loop stands; `Serving(n)` has `n` mediators still to spawn. */
  datatype Phase = Top | ServersRead(n: nat) | ExitCleared(n: nat) | Serving(n: nat) | Joined

  datatype State = State(
    phase: Phase,
    shouldExit: bool,
    manualRestarted: bool,
    running: set<nat>,    // mediators in their loops
    leaving: set<nat>,    // mediators past their loops, before their store to SHOULD_EXIT
    nextId: nat,
    config: nat,          // version of the server list
    readConfig: nat,      // the version this round was started with
    changed: nat,         // callers that changed the list and have not yet stored
    halfway: nat          // callers between their two stores
  )

  datatype Step =
    | ReadServers(n: nat)        // get_rendezvous_servers
    | SkipRound                  // the service is stopped
    | ClearExit                  // SHOULD_EXIT.store(false)
    | ClearManual                // MANUAL_RESTARTED.store(false)
    | Spawn
    | Tick(m: nat)               // a timer tick of mediator m
    | Fail(m: nat)               // an error ends mediator m
    | StoreExit(m: nat)          // mediator m has ended and tells the others
    | Join
    | Loop
    | ChangeServers              // a caller changes the server list
    | RestartExit(change: bool)  // the first store of restart, after a change or not
    | RestartManual              // the second

  function Initial(): State
  {
    State(Top, false, false, {}, {}, 0, 0, 0, 0, 0)
  }

  predicate Enabled(s: State, step: Step) {
    match step
    case ReadServers(_) => s.phase == Top
    case SkipRound => s.phase == Top
    case ClearExit => s.phase.ServersRead?
    case ClearManual => s.phase.ExitCleared?
    case Spawn => s.phase.Serving? && s.phase.n > 0
    case Tick(m) => m in s.running
    case Fail(m) => m in s.running
    case StoreExit(m) => m in s.leaving
    case Join => s.phase == Serving(0) && s.running == {} && s.leaving == {}
    case Loop => s.phase == Joined
    case ChangeServers => true
    case RestartExit(change) => change ==> s.changed > 0
    case RestartManual => s.halfway > 0
  }

  function Apply(s: State, step: Step): State
    requires Enabled(s, step)
  {
    match step
    case ReadServers(n) => s.(phase := ServersRead(n), readConfig := s.config)
    case SkipRound => s.(phase := Joined)
    case ClearExit => s.(phase := ExitCleared(s.phase.n), shouldExit := false)
    case ClearManual => s.(phase := Serving(s.phase.n), manualRestarted := false)
    case Spawn => s.(phase := Serving(s.phase.n - 1), running := s.running + {s.nextId}, nextId := s.nextId + 1)
    case Tick(m) => if s.shouldExit then End(s, m) else s
    case Fail(m) => End(s, m)
    case StoreExit(m) => s.(leaving := s.leaving - {m}, shouldExit := true)
    case Join => s.(phase := Joined)
    case Loop => s.(phase := Top)
    case ChangeServers => s.(config := s.config + 1, changed := s.changed + 1)
    case RestartExit(change) =>
      s.(shouldExit := true, halfway := s.halfway + 1, changed := if change then s.changed - 1 else s.changed)
    case RestartManual => s.(manualRestarted := true, halfway := s.halfway - 1)
  }

  function End(s: State, m: nat): State
  {
    s.(running := s.running - {m}, leaving := s.leaving + {m})
  }

  predicate Possible(s: State, steps: seq<Step>)
    decreases |steps|
  {
    steps == [] || (Enabled(s, steps[0]) && Possible(Apply(s, steps[0]), steps[1..]))
  }

  function Run(s: State, steps: seq<Step>): State
    requires Possible(s, steps)
    decreases |steps|
  {
    if steps == [] then s else Run(Apply(s, steps[0]), steps[1..])
  }

  /** No new round is begun. */
  predicate SameRound(steps: seq<Step>) {
    forall i :: 0 <= i < |steps| ==> !steps[i].ReadServers?
  }

  // Invariants.

  /** Mediators live only while the round serves, and ids are never used twice. */
  ghost predicate Sound(s: State) {
    && (s.phase.Serving? || (s.running == {} && s.leaving == {}))
    && (forall m :: m in s.running || m in s.leaving ==> m < s.nextId)
    && s.running !! s.leaving
  }

  lemma {:induction false} RunIsSound(s: State, steps: seq<Step>)
    requires Sound(s) && Possible(s, steps)
    ensures Sound(Run(s, steps)) && Run(s, steps).nextId >= s.nextId
    decreases |steps|
  {
    if steps != [] {
      RunIsSound(Apply(s, steps[0]), steps[1..]);
    }
  }

  /** SHOULD_EXIT is cleared only when no mediator of any round is left. */
  lemma ClearedOnlyWhenAlone(steps: seq<Step>)
    requires Possible(Initial(), steps)
    ensures var s := Run(Initial(), steps);
            Enabled(s, ClearExit) ==> s.running == {} && s.leaving == {}
  {
    RunIsSound(Initial(), steps);
  }

  // The exit flag within a round.

  predicate SetsExit(step: Step) {
    step.StoreExit? || step.RestartExit?
  }

  /** After the clear the flag is exactly whether a mediator has ended or a restart was
      asked for since; in particular it never falls back within the round. */
  lemma {:induction false} ExitFlagMeaning(s: State, steps: seq<Step>)
    requires Possible(s, steps) && ClearExit !in steps
    ensures Run(s, steps).shouldExit <==> s.shouldExit || exists i :: 0 <= i < |steps| && SetsExit(steps[i])
    decreases |steps|
  {
    if steps != [] {
      var s' := Apply(s, steps[0]);
      ExitFlagMeaning(s', steps[1..]);
      assert forall i :: 0 <= i < |steps| - 1 ==> steps[1..][i] == steps[i + 1];
      assert s'.shouldExit <==> s.shouldExit || SetsExit(steps[0]);
      if exists i :: 0 <= i < |steps| && SetsExit(steps[i]) {
        var i :| 0 <= i < |steps| && SetsExit(steps[i]);
        assert i > 0 ==> SetsExit(steps[1..][i - 1]);
      }
    }
  }

  lemma {:induction false} StaysAway(s: State, steps: seq<Step>, m: nat)
    requires Sound(s) && Possible(s, steps) && m < s.nextId && m !in s.running
    ensures m !in Run(s, steps).running
    decreases |steps|
  {
    if steps != [] {
      RunIsSound(s, [steps[0]]);
      StaysAway(Apply(s, steps[0]), steps[1..], m);
    }
  }

  /** Once the flag is up, a mediator that ticks is gone for good: whatever else happens,
      before or after the next round begins, it no longer runs. */
  lemma {:induction false} LeavesAtNextTick(s: State, steps: seq<Step>, m: nat)
    requires Sound(s) && Possible(s, steps) && s.shouldExit && m in s.running && Tick(m) in steps
    ensures m !in Run(s, steps).running
    decreases |steps|
  {
    var s' := Apply(s, steps[0]);
    RunIsSound(s, [steps[0]]);
    assert Run(s, [steps[0]]) == s' by {
      assert [steps[0]][1..] == [];
    }
    if m !in s'.running {
      StaysAway(s', steps[1..], m);
    } else {
      assert s'.shouldExit;
      assert steps == [steps[0]] + steps[1..];
      LeavesAtNextTick(s', steps[1..], m);
    }
  }

  /** A new round reads its servers only after every mediator of the old one has ended
      and stored its news. */
  lemma {:induction false} NextRoundWaits(s: State, steps: seq<Step>, m: nat, j: nat)
    requires Sound(s) && Possible(s, steps) && (m in s.running || m in s.leaving)
    requires j < |steps| && steps[j].ReadServers?
    ensures exists i :: 0 <= i < j && steps[i] == StoreExit(m)
    decreases |steps|
  {
    if steps[0] != StoreExit(m) {
      RunIsSound(s, [steps[0]]);
      assert [steps[0]][1..] == [];
      NextRoundWaits(Apply(s, steps[0]), steps[1..], m, j - 1);
      var i :| 0 <= i < j - 1 && steps[1..][i] == StoreExit(m);
      assert steps[i + 1] == StoreExit(m);
    }
  }

  // The manual flag.

  /** At any time after the second clear the manual flag says exactly whether a call of
      restart has finished since, so at the join it tells whether one did in this round. */
  lemma {:induction false} ManualFlagMeaning(s: State, steps: seq<Step>)
    requires Possible(s, steps) && ClearManual !in steps
    ensures Run(s, steps).manualRestarted <==> s.manualRestarted || RestartManual in steps
    decreases |steps|
  {
    if steps != [] {
      ManualFlagMeaning(Apply(s, steps[0]), steps[1..]);
      assert steps == [steps[0]] + steps[1..];
    }
  }

  /** While the service is stopped nothing clears the flag: once a restart has been
      called, the loop takes its short sleep at every pass. */
  lemma StoppedLoopStaysManual(s: State, steps: seq<Step>)
    requires Possible(s, steps) && s.manualRestarted && !(s.phase.ServersRead? || s.phase.ExitCleared?)
    requires SameRound(steps)
    ensures Run(s, steps).manualRestarted
    decreases |steps|
  {
    if steps != [] {
      StoppedLoopStaysManual(Apply(s, steps[0]), steps[1..]);
    }
  }

  // The server list.

  /** The mediators run with the current list, or are told to end, or the caller that
      changed the list is about to tell them. */
  predicate UpToDate(s: State) {
    s.config == s.readConfig || s.shouldExit || s.changed > 0
  }

  lemma {:induction false} StaysUpToDate(s: State, steps: seq<Step>)
    requires Possible(s, steps) && UpToDate(s) && !s.phase.ServersRead?
    requires SameRound(steps)
    ensures UpToDate(Run(s, steps))
    decreases |steps|
  {
    if steps != [] {
      StaysUpToDate(Apply(s, steps[0]), steps[1..]);
    }
  }

  ghost predicate UpToDateAfter(s: State) {
    forall steps: seq<Step> :: Possible(s, steps) && SameRound(steps)
                    ==> UpToDate(Run(s, steps))
  }

  function Changes(steps: seq<Step>): nat
  {
    if steps == [] then 0 else (if steps[0] == ChangeServers then 1 else 0) + Changes(steps[1..])
  }

  function Told(steps: seq<Step>): nat
  {
    if steps == [] then 0 else (if steps[0] == RestartExit(true) then 1 else 0) + Told(steps[1..])
  }

  /** What happens between the reading of the list and the clear. */
  lemma {:induction false} BeforeClear(s: State, steps: seq<Step>)
    requires s.phase.ServersRead? && Possible(s, steps) && ClearExit !in steps
    ensures var r := Run(s, steps);
            && r.phase == s.phase && r.readConfig == s.readConfig
            && r.config == s.config + Changes(steps) && r.changed == s.changed + Changes(steps) - Told(steps)
    decreases |steps|
  {
    if steps != [] {
      assert steps[0] in steps;
      BeforeClear(Apply(s, steps[0]), steps[1..]);
    }
  }

  /** Whether the round whose list is read in `s` starts out of date: the list has changed
      between the reading and the clear, and every caller that changed it had told the
      mediators before there were any. */
  predicate StartsStale(s: State, between: seq<Step>) {
    Changes(between) > 0 && s.changed + Changes(between) <= Told(between)
  }

  function AtClear(s: State, n: nat, between: seq<Step>): State
    requires s.phase == Top && Possible(Apply(s, ReadServers(n)), between) && ClearExit !in between
  {
    BeforeClear(Apply(s, ReadServers(n)), between);
    Apply(Run(Apply(s, ReadServers(n)), between), ClearExit)
  }

  /** A round keeps to the current server list throughout if and only if it does not start
      out of date. */
  lemma RoundUpToDate(s: State, n: nat, between: seq<Step>)
    requires s.phase == Top && Possible(Apply(s, ReadServers(n)), between) && ClearExit !in between
    ensures UpToDateAfter(AtClear(s, n, between)) <==> !StartsStale(s, between)
  {
    var s' := AtClear(s, n, between);
    BeforeClear(Apply(s, ReadServers(n)), between);
    if UpToDate(s') {
      forall steps: seq<Step> | Possible(s', steps) && SameRound(steps)
        ensures UpToDate(Run(s', steps))
      {
        StaysUpToDate(s', steps);
      }
    } else {
      assert Possible(s', []) && Run(s', []) == s';
    }
  }

  /** A round that starts out of date stays so at every step until a mediator ends, a
      restart is called or the list changes once more. */
  lemma StaysStale(s: State, n: nat, between: seq<Step>, steps: seq<Step>)
    requires s.phase == Top && Possible(Apply(s, ReadServers(n)), between) && ClearExit !in between
    requires StartsStale(s, between) && Possible(AtClear(s, n, between), steps) && SameRound(steps)
    requires ChangeServers !in steps && forall i :: 0 <= i < |steps| ==> !SetsExit(steps[i])
    ensures !UpToDate(Run(AtClear(s, n, between), steps))
  {
    BeforeClear(Apply(s, ReadServers(n)), between);
    StaleRun(AtClear(s, n, between), steps);
  }

  lemma {:induction false} StaleRun(s: State, steps: seq<Step>)
    requires Possible(s, steps) && !s.phase.ServersRead? && !UpToDate(s) && SameRound(steps)
    requires ChangeServers !in steps && forall i :: 0 <= i < |steps| ==> !SetsExit(steps[i])
    ensures !UpToDate(Run(s, steps))
    decreases |steps|
  {
    if steps != [] {
      assert steps[0] in steps;
      StaleRun(Apply(s, steps[0]), steps[1..]);
    }
  }

  /** It can fail: a change and its restart between reading the list and the clear are
      lost, and the mediators serve the old list with no one left to tell them. */
  lemma RestartCanBeLost(between: seq<Step>, after: seq<Step>)
    requires between == LostSteps() && after == [ClearManual, Spawn]
    ensures Possible(Apply(Initial(), ReadServers(1)), between) && ClearExit !in between && StartsStale(Initial(), between)
    ensures var s := AtClear(Initial(), 1, between);
            Possible(s, after) && var t := Run(s, after);
            && t == State(Serving(0), false, false, {0}, {}, 1, 1, 0, 0, 0)
            && !UpToDate(t)
  {
    LostBetween(between);
    LostStale(between);
    var s5 := State(ExitCleared(1), false, true, {}, {}, 0, 1, 0, 0, 0);
    var s6 := State(Serving(1), false, false, {}, {}, 0, 1, 0, 0, 0);
    var s7 := State(Serving(0), false, false, {0}, {}, 1, 1, 0, 0, 0);
    assert Leads(s5, ClearManual, s6) && Leads(s6, Spawn, s7);
    TwoSteps(s5, ClearManual, s6, Spawn, s7, []);
    assert after == [ClearManual, Spawn] + [];
  }

  function LostSteps(): seq<Step> { [ChangeServers, RestartExit(true), RestartManual] }

  lemma LostBetween(between: seq<Step>)
    requires between == LostSteps()
    ensures var s := Apply(Initial(), ReadServers(1));
            && Possible(s, between)
            && Run(s, between) == State(ServersRead(1), true, true, {}, {}, 0, 1, 0, 0, 0)
  {
    var s1 := State(ServersRead(1), false, false, {}, {}, 0, 0, 0, 0, 0);
    LostStates();
    ThreeSteps(s1, ChangeServers, State(ServersRead(1), false, false, {}, {}, 0, 1, 0, 1, 0),
               RestartExit(true), State(ServersRead(1), true, false, {}, {}, 0, 1, 0, 0, 1),
               RestartManual, State(ServersRead(1), true, true, {}, {}, 0, 1, 0, 0, 0));
  }

  lemma LostStates()
    ensures var s1 := State(ServersRead(1), false, false, {}, {}, 0, 0, 0, 0, 0);
            var s2 := State(ServersRead(1), false, false, {}, {}, 0, 1, 0, 1, 0);
            var s3 := State(ServersRead(1), true, false, {}, {}, 0, 1, 0, 0, 1);
            var s4 := State(ServersRead(1), true, true, {}, {}, 0, 1, 0, 0, 0);
            && Apply(Initial(), ReadServers(1)) == s1 && Leads(s1, ChangeServers, s2)
            && Leads(s2, RestartExit(true), s3) && Leads(s3, RestartManual, s4)
  {
  }

  lemma LostStale(between: seq<Step>)
    requires between == LostSteps()
    ensures ClearExit !in between && StartsStale(Initial(), between)
  {
    ThreeCounts(ChangeServers, RestartExit(true), RestartManual);
  }

  lemma ThreeCounts(a: Step, b: Step, c: Step)
    requires a == ChangeServers && b == RestartExit(true) && c == RestartManual
    ensures Changes([a, b, c]) == 1 && Told([a, b, c]) == 1
  {
    assert [a, b, c][1..] == [b, c] && [b, c][1..] == [c] && [c][1..] == [];
    assert Changes([c]) == 0 && Told([c]) == 0;
    assert Changes([b, c]) == 0 && Told([b, c]) == 1;
  }

  lemma ThreeSteps(s: State, a: Step, s1: State, b: Step, s2: State, c: Step, s3: State)
    requires Leads(s, a, s1) && Leads(s1, b, s2) && Leads(s2, c, s3)
    ensures Possible(s, [a, b, c]) && Run(s, [a, b, c]) == s3
  {
    RunOne(s2, c, []);
    TwoSteps(s, a, s1, b, s2, [c]);
    assert [a, b] + [c] == [a, b, c] && [c] + [] == [c];
  }

  predicate Leads(s: State, step: Step, t: State) {
    Enabled(s, step) && Apply(s, step) == t
  }

  lemma TwoSteps(s: State, a: Step, s1: State, b: Step, s2: State, rest: seq<Step>)
    requires Leads(s, a, s1) && Leads(s1, b, s2) && Possible(s2, rest)
    ensures Possible(s, [a, b] + rest) && Run(s, [a, b] + rest) == Run(s2, rest)
  {
    RunOne(s1, b, rest);
    RunOne(s, a, [b] + rest);
    assert [a] + ([b] + rest) == [a, b] + rest;
  }

  lemma RunOne(s: State, step: Step, rest: seq<Step>)
    requires Enabled(s, step) && Possible(Apply(s, step), rest)
    ensures Possible(s, [step] + rest) && Run(s, [step] + rest) == Run(Apply(s, step), rest)
  {
    assert ([step] + rest)[1..] == rest;
  }
}
