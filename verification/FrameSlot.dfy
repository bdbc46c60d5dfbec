/** The single-slot hand-off of decoded frames to the UI (flutter.rs): the video thread
    swaps its buffer into a slot and announces it, the UI fetches the bytes and frees
    the slot. Buffers carry an identity, since the UI reads through a raw pointer. */
module FrameSlot {
  import opened Common

  datatype Buffer = Buffer(id: nat, content: bytes)

  datatype Slot = Slot(data: Buffer, valid: bool)

  datatype Handler = Handler(displays: set<nat>, hasStream: bool)

  /** The slot, the buffer left with the video thread, and whether a frame was stored. */
  function Stored(slot: Option<Slot>, frame: Buffer, freshId: nat): (Option<Slot>, Buffer, bool)
  {
    match slot
    case None => (Some(Slot(frame, true)), Buffer(freshId, []), true)
    case Some(s) => if s.valid then (slot, frame, false) else (Some(Slot(frame, true)), s.data, true)
  }

  function Freed(slot: Option<Slot>): Option<Slot>
  {
    if slot.Some? then Some(slot.value.(valid := false)) else None
  }

  /** Sessions with one display are told; with several sessions only those that show it. */
  predicate Told(h: Handler, display: nat, multi: bool) {
    |h.displays| <= 1 && (multi ==> display in h.displays) && h.hasStream
  }

  function CountTold(handlers: seq<Handler>, display: nat, multi: bool): nat
  {
    if handlers == [] then 0
    else CountTold(handlers[..|handlers| - 1], display, multi)
         + if Told(handlers[|handlers| - 1], display, multi) then 1 else 0
  }

  /** With several sessions only those are told that show the display and no other; with
      one session, unless it shows several. */
  lemma ToldMeaning(h: Handler, display: nat)
    ensures Told(h, display, true) <==> h.hasStream && h.displays == {display}
    ensures Told(h, display, false) <==> h.hasStream && (h.displays == {} || exists d :: h.displays == {d})
  {
    if |h.displays| == 1 {
      var d :| d in h.displays;
      assert |h.displays - {d}| == 0;
      assert h.displays == {d};
    }
  }

  ghost function ToldOf(handlers: seq<Handler>, n: nat, display: nat, multi: bool): set<nat>
    requires n <= |handlers|
  {
    set i | 0 <= i < n && Told(handlers[i], display, multi)
  }

  /** The events of one frame are as many as the sessions told. */
  lemma {:induction false} CountMeaning(handlers: seq<Handler>, n: nat, display: nat, multi: bool)
    requires n <= |handlers|
    ensures CountTold(handlers[..n], display, multi) == |ToldOf(handlers, n, display, multi)|
  {
    if n > 0 {
      var before := ToldOf(handlers, n - 1, display, multi);
      CountMeaning(handlers, n - 1, display, multi);
      assert handlers[..n][..n - 1] == handlers[..n - 1];
      assert ToldOf(handlers, n, display, multi) ==
             if Told(handlers[n - 1], display, multi) then before + {n - 1} else before;
    }
  }

  function At(slots: map<nat, Slot>, display: nat): Option<Slot>
  {
    if display in slots then Some(slots[display]) else None
  }

  class FlutterHandler {
    var displayRgbas: map<nat, Slot>
    var nextBuffer: nat

    constructor (nextBuffer: nat)
      ensures displayRgbas == map[] && this.nextBuffer == nextBuffer
    {
      displayRgbas := map[];
      this.nextBuffer := nextBuffer;
    }

    /** The first critical section of `on_rgba_soft_render`. */
    method StoreFrame(display: nat, raw: Buffer) returns (raw': Buffer, stored: bool)
      modifies this
      ensures (At(displayRgbas, display), raw', stored) == Stored(At(old(displayRgbas), display), raw, old(nextBuffer))
      ensures displayRgbas - {display} == old(displayRgbas) - {display}
      ensures nextBuffer == old(nextBuffer) + 1
    {
      nextBuffer := nextBuffer + 1;
      if display in displayRgbas {
        var rgbaData := displayRgbas[display];
        if rgbaData.valid {
          return raw, false;
        }
        raw' := rgbaData.data;
        displayRgbas := displayRgbas[display := Slot(raw, true)];
      } else {
        raw' := Buffer(nextBuffer - 1, []);
        displayRgbas := displayRgbas[display := Slot(raw, true)];
      }
      stored := true;
    }

    /** The loop over the sessions; `events` counts the Rgba events pushed. */
    method Announce(display: nat, handlers: seq<Handler>, multi: bool) returns (events: nat, isSent: bool)
      ensures events == CountTold(handlers, display, multi) && (isSent <==> events > 0)
    {
      events, isSent := 0, false;
      for i := 0 to |handlers|
        invariant events == CountTold(handlers[..i], display, multi) && (isSent <==> events > 0)
      {
        var h := handlers[i];
        assert handlers[..i + 1][..i] == handlers[..i];
        if |h.displays| > 1 {
          continue;
        }
        if multi {
          if display !in h.displays {
            continue;
          }
        }
        if h.hasStream {
          events := events + 1;
          isSent := true;
        }
      }
      assert handlers[..|handlers|] == handlers;
    }

    /** The last critical section, when nobody was told, and `next_rgba`. */
    method Free(display: nat)
      modifies this`displayRgbas
      ensures At(displayRgbas, display) == Freed(At(old(displayRgbas), display))
      ensures displayRgbas - {display} == old(displayRgbas) - {display}
    {
      if display in displayRgbas {
        displayRgbas := displayRgbas[display := displayRgbas[display].(valid := false)];
      }
    }

    method GetRgba(display: nat) returns (r: Option<Buffer>)
      ensures r == Fetched(At(displayRgbas, display))
    {
      if display in displayRgbas {
        if displayRgbas[display].valid {
          return Some(displayRgbas[display].data);
        }
      }
      return None;
    }
  }

  function Fetched(slot: Option<Slot>): Option<Buffer>
  {
    if slot.Some? && slot.value.valid then Some(slot.value.data) else None
  }

  // One display's slot between the threads.

  /** Between its two critical sections the video thread goes over the windows and pushes
      the events one by one. */
  datatype Video = Idle | Telling(next: nat, isSent: bool)

  /** A window's UI takes an event, asks for the size, fetches the pointer and, done with
      the bytes or having found none, frees the slot. */
  datatype Ui = Waiting | Sized(n: nat) | Reading(n: nat, buffer: Buffer) | Missed

  datatype Window = Window(pending: nat, ui: Ui)

  datatype State = State(
    slot: Option<Slot>,
    raw: Buffer,               // the video thread's buffer
    video: Video,
    nextBuffer: nat,
    announced: nat,            // events pushed since the slot last became valid
    windows: seq<Window>
  )

  datatype Step =
    | Frame(content: bytes)    // a frame is decoded into the buffer and stored
    | Notify(w: nat)           // an event is pushed to a window
    | Finish                   // the slot is freed if nobody was told
    | UiSize(w: nat)
    | UiGet(w: nat)
    | UiNext(w: nat)
    | Clear                    // all slots are dropped
    | Reset                    // a switch to the display, or another session on it, frees the slot

  function Initial(windows: nat): State
  {
    State(None, Buffer(0, []), Idle, 1, 0, seq(windows, _ => Window(0, Waiting)))
  }

  predicate Enabled(s: State, step: Step) {
    match step
    case Frame(_) => s.video.Idle?
    case Notify(w) => s.video.Telling? && s.video.next <= w < |s.windows|
    case Finish => s.video.Telling?
    case UiSize(w) => w < |s.windows| && s.windows[w].ui.Waiting? && s.windows[w].pending > 0
    case UiGet(w) => w < |s.windows| && s.windows[w].ui.Sized?
    case UiNext(w) => w < |s.windows| && (s.windows[w].ui.Reading? || s.windows[w].ui.Missed?)
    case Clear => true
    case Reset => true
  }

  function SizeOf(slot: Option<Slot>): nat
  {
    if slot.Some? then |slot.value.data.content| else 0
  }

  function WithUi(s: State, w: nat, pending: nat, ui: Ui): State
    requires w < |s.windows|
  {
    s.(windows := s.windows[w := Window(pending, ui)])
  }

  function Apply(s: State, step: Step): State
    requires Enabled(s, step)
  {
    match step
    case Frame(content) =>
      var (slot, raw, stored) := Stored(s.slot, s.raw.(content := content), s.nextBuffer);
      s.(slot := slot, raw := raw, nextBuffer := s.nextBuffer + 1,
         video := if stored then Telling(0, false) else Idle, announced := if stored then 0 else s.announced)
    case Notify(w) =>
      WithUi(s, w, s.windows[w].pending + 1, s.windows[w].ui).(video := Telling(w + 1, true), announced := s.announced + 1)
    case Finish => s.(video := Idle, slot := if s.video.isSent then s.slot else Freed(s.slot))
    case UiSize(w) =>
      WithUi(s, w, s.windows[w].pending - 1, if SizeOf(s.slot) == 0 then Missed else Sized(SizeOf(s.slot)))
    case UiGet(w) =>
      WithUi(s, w, s.windows[w].pending,
             match Fetched(s.slot) case None => Missed case Some(b) => Reading(s.windows[w].ui.n, b))
    case UiNext(w) => WithUi(s, w, s.windows[w].pending, Waiting).(slot := Freed(s.slot))
    case Clear => s.(slot := None)
    case Reset => s.(slot := Freed(s.slot))
  }

  predicate Possible(s: State, steps: seq<Step>)
    decreases |steps|
  {
    steps == [] || (Enabled(s, steps[0]) && Possible(Apply(s, steps[0]), steps[1..]))
  }

  function Run(s: State, steps: seq<Step>): State
    requires Possible(s, steps)
    decreases |steps|
  {
    if steps == [] then s else Run(Apply(s, steps[0]), steps[1..])
  }

  predicate Valid(s: State) {
    s.slot.Some? && s.slot.value.valid
  }

  // For any number of windows.

  ghost predicate Inv(s: State) {
    && (s.slot.Some? ==> s.slot.value.data.id != s.raw.id && s.slot.value.data.id < s.nextBuffer)
    && s.raw.id < s.nextBuffer
    && (s.video.Telling? && s.video.isSent ==> s.announced > 0)
    && (Valid(s) && s.video.Idle? ==> s.announced > 0)
  }

  lemma {:induction false} RunKeepsInv(s: State, steps: seq<Step>)
    requires Inv(s) && Possible(s, steps)
    ensures Inv(Run(s, steps))
    decreases |steps|
  {
    if steps != [] {
      RunKeepsInv(Apply(s, steps[0]), steps[1..]);
    }
  }

  /** Whenever the video thread is between frames, a slot that is still valid has been
      announced since it became valid: no slot stays filled with nobody told. */
  lemma NeverStuckUnannounced(windows: nat, steps: seq<Step>)
    requires Possible(Initial(windows), steps)
    ensures var s := Run(Initial(windows), steps); s.video.Idle? && Valid(s) ==> s.announced > 0
  {
    RunKeepsInv(Initial(windows), steps);
  }

  /** A filled slot keeps its bytes until it is freed or dropped. */
  predicate NotEmptied(step: Step) {
    step.Frame? || step.Notify? || step.UiSize? || step.UiGet?
  }

  lemma {:induction false} FilledSlotKeepsBytes(s: State, steps: seq<Step>)
    requires Possible(s, steps) && Valid(s)
    requires forall i :: 0 <= i < |steps| ==> NotEmptied(steps[i])
    ensures Run(s, steps).slot == s.slot
    decreases |steps|
  {
    if steps != [] {
      FilledSlotKeepsBytes(Apply(s, steps[0]), steps[1..]);
    }
  }

  /** Storing into an existing slot exchanges the two buffers and loses neither. */
  lemma SwapConserves(windows: nat, steps: seq<Step>, content: bytes)
    requires Possible(Initial(windows), steps) && Enabled(Run(Initial(windows), steps), Frame(content))
    ensures var s := Run(Initial(windows), steps);
            var s' := Apply(s, Frame(content));
            s.slot.Some? ==> s'.slot.Some? && {s'.slot.value.data.id, s'.raw.id} == {s.slot.value.data.id, s.raw.id}
                             && s'.slot.value.data.id != s'.raw.id
  {
    RunKeepsInv(Initial(windows), steps);
  }

  // What is in the slot.

  /** The content of the last frame that found the slot not valid, read off the steps;
      `before` when there is none. */
  function Shown(s: State, steps: seq<Step>, before: bytes): bytes
    requires Possible(s, steps)
    decreases |steps|
  {
    if steps == [] then before
    else Shown(Apply(s, steps[0]), steps[1..], if steps[0].Frame? && !Valid(s) then steps[0].content else before)
  }

  lemma {:induction false} SlotShows(s: State, steps: seq<Step>, before: bytes)
    requires Possible(s, steps) && (Valid(s) ==> s.slot.value.data.content == before)
    ensures Valid(Run(s, steps)) ==> Run(s, steps).slot.value.data.content == Shown(s, steps, before)
    decreases |steps|
  {
    if steps != [] {
      SlotShows(Apply(s, steps[0]), steps[1..], if steps[0].Frame? && !Valid(s) then steps[0].content else before);
    }
  }

  /** Over every run a valid slot holds the last frame that found it not valid, and so
      does what a window gets at that moment. */
  lemma SlotHoldsFrame(windows: nat, steps: seq<Step>)
    requires Possible(Initial(windows), steps)
    ensures var s := Run(Initial(windows), steps);
            Fetched(s.slot).Some? ==> Fetched(s.slot).value.content == Shown(Initial(windows), steps, [])
  {
    SlotShows(Initial(windows), steps, []);
  }

  // What depends on the windows, and on who else frees the slot.

  datatype Surface = Surface(windows: nat, clearing: bool, resetting: bool) {
    /** One window at most, and no one but its UI and the video thread frees the slot. */
    predicate Quiet() { windows == 0 || (windows == 1 && !clearing && !resetting) }

    predicate Allows(steps: seq<Step>) {
      (Clear in steps ==> clearing) && (Reset in steps ==> resetting)
    }

    ghost predicate Reaches(s: State) {
      exists steps :: Possible(Initial(windows), steps) && Allows(steps) && Run(Initial(windows), steps) == s
    }
  }

  /** The events and fetches the window has open. */
  function Open(w: Window): nat { w.pending + if w.ui.Waiting? then 0 else 1 }

  ghost predicate OneReader(s: State)
    requires |s.windows| == 1
  {
    var w := s.windows[0];
    && Inv(s)
    && Open(w) <= 1
    && (Open(w) == 1 ==> Valid(s))
    && (w.ui.Sized? ==> w.ui.n == |s.slot.value.data.content|)
    && (w.ui.Reading? ==> s.slot == Some(Slot(w.ui.buffer, true)) && w.ui.n == |w.ui.buffer.content|)
    && (Valid(s) && s.video.Idle? ==> Open(w) == 1)
    && (s.video.Telling? ==> s.video.next <= 1 && (s.video.isSent <==> s.video.next == 1))
    && (s.video.Telling? && s.video.next == 0 ==> Valid(s) && Open(w) == 0)
    && (s.video.Telling? && s.video.next == 1 && Valid(s) ==> Open(w) == 1)
  }

  lemma StepKeepsOneReader(s: State, step: Step)
    requires |s.windows| == 1 && OneReader(s) && Enabled(s, step) && step != Clear && step != Reset
    ensures |Apply(s, step).windows| == 1 && OneReader(Apply(s, step))
  {
  }

  lemma {:induction false} RunKeepsOneReader(s: State, steps: seq<Step>)
    requires |s.windows| == 1 && OneReader(s) && Possible(s, steps) && Clear !in steps && Reset !in steps
    ensures |Run(s, steps).windows| == 1 && OneReader(Run(s, steps))
    decreases |steps|
  {
    if steps != [] {
      assert steps[0] in steps;
      StepKeepsOneReader(s, steps[0]);
      RunKeepsOneReader(Apply(s, steps[0]), steps[1..]);
    }
  }

  lemma {:induction false} WindowsStay(s: State, steps: seq<Step>)
    requires Possible(s, steps)
    ensures |Run(s, steps).windows| == |s.windows|
    decreases |steps|
  {
    if steps != [] {
      WindowsStay(Apply(s, steps[0]), steps[1..]);
    }
  }

  /** With one window, and no one else freeing the slot, the buffer being read stays in
      the slot, has the size asked for, and is never in the video thread's hands; and a
      filled slot has exactly one event or read open. */
  lemma ReadIsSafe(steps: seq<Step>)
    requires Possible(Initial(1), steps) && Clear !in steps && Reset !in steps
    ensures var s := Run(Initial(1), steps);
            && |s.windows| == 1
            && (s.windows[0].pending > 0 ==> Fetched(s.slot).Some?)
            && Holds(s, 0)
            && (s.windows[0].ui.Reading? ==> s.windows[0].ui.buffer.id != s.raw.id)
            && (s.video.Idle? ==> (Valid(s) <==> Open(s.windows[0]) == 1))
  {
    RunKeepsOneReader(Initial(1), steps);
  }

  /** There, what is read all along is that frame, to its full length. */
  lemma ReadsFrame(steps: seq<Step>)
    requires Possible(Initial(1), steps) && Clear !in steps && Reset !in steps
    ensures var s := Run(Initial(1), steps);
            && |s.windows| == 1
            && (s.windows[0].ui.Reading? ==>
                  && s.windows[0].ui.buffer.content == Shown(Initial(1), steps, [])
                  && s.windows[0].ui.n == |Shown(Initial(1), steps, [])|)
  {
    ReadIsSafe(steps);
    SlotHoldsFrame(1, steps);
  }

  /** What a window reads is still in the slot, and as long as it was told. */
  predicate Holds(s: State, w: nat)
    requires w < |s.windows|
  {
    var ui := s.windows[w].ui;
    ui.Reading? ==> s.slot == Some(Slot(ui.buffer, true)) && ui.n == |ui.buffer.content|
  }

  /** Every window finds bytes for every event it still has to handle. */
  ghost predicate AlwaysFetched(surface: Surface) {
    forall s, w :: surface.Reaches(s) && 0 <= w < |s.windows| && s.windows[w].pending > 0 ==> Fetched(s.slot).Some?
  }

  ghost predicate AlwaysHolds(surface: Surface) {
    forall s, w :: surface.Reaches(s) && 0 <= w < |s.windows| ==> Holds(s, w)
  }

  lemma QuietIsSafe(surface: Surface, s: State, w: nat)
    requires surface.Quiet() && surface.Reaches(s) && w < |s.windows|
    ensures Holds(s, w) && (s.windows[w].pending > 0 ==> Fetched(s.slot).Some?)
  {
    var steps :| Possible(Initial(surface.windows), steps) && surface.Allows(steps) && Run(Initial(surface.windows), steps) == s;
    WindowsStay(Initial(surface.windows), steps);
    ReadIsSafe(steps);
  }

  /** An announced frame can always be fetched if and only if there is no window, or one
      and nobody else frees or drops the slot. */
  lemma AlwaysFetchedExactly(surface: Surface)
    ensures AlwaysFetched(surface) <==> surface.Quiet()
  {
    if surface.Quiet() {
      forall s, w | surface.Reaches(s) && 0 <= w < |s.windows| && s.windows[w].pending > 0 ensures Fetched(s.slot).Some? {
        QuietIsSafe(surface, s, w);
      }
    } else {
      var s, w := FetchFails(surface, [0]);
    }
  }

  /** And on the same condition the bytes a window is reading stay where they are. */
  lemma AlwaysHoldsExactly(surface: Surface)
    ensures AlwaysHolds(surface) <==> surface.Quiet()
  {
    if surface.Quiet() {
      forall s, w | surface.Reaches(s) && 0 <= w < |s.windows| ensures Holds(s, w) {
        QuietIsSafe(surface, s, w);
      }
    } else {
      var s, w := ReadFails(surface, [0]);
    }
  }

  // The failing runs.

  /** A state with the step that led to it from a reachable one. */
  lemma ReachOne(surface: Surface, s: State, step: Step)
    requires surface.Reaches(s) && Enabled(s, step) && surface.Allows([step])
    ensures surface.Reaches(Apply(s, step))
  {
    var steps :| Possible(Initial(surface.windows), steps) && surface.Allows(steps) && Run(Initial(surface.windows), steps) == s;
    RunAppend(Initial(surface.windows), steps, step);
    assert surface.Allows(steps + [step]);
  }

  lemma {:induction false} RunAppend(s: State, steps: seq<Step>, step: Step)
    requires Possible(s, steps) && Enabled(Run(s, steps), step)
    ensures Possible(s, steps + [step]) && Run(s, steps + [step]) == Apply(Run(s, steps), step)
    decreases |steps|
  {
    if steps == [] {
      assert [step][1..] == [];
    } else {
      RunAppend(Apply(s, steps[0]), steps[1..], step);
      assert (steps + [step])[1..] == steps[1..] + [step];
    }
  }

  lemma ReachInitial(surface: Surface)
    ensures surface.Reaches(Initial(surface.windows))
  {
    assert Possible(Initial(surface.windows), []) && surface.Allows([]);
  }

  /** A first frame, announced to the first window. */
  lemma FirstTold(surface: Surface, content: bytes) returns (s: State)
    requires surface.windows > 0
    ensures surface.Reaches(s) && |s.windows| == surface.windows
    ensures s.slot == Some(Slot(Buffer(0, content), true)) && s.video == Telling(1, true) && s.raw.id == 1
    ensures s.windows[0] == Window(1, Waiting)
    ensures forall w :: 0 < w < |s.windows| ==> s.windows[w] == Window(0, Waiting)
  {
    s := Initial(surface.windows);
    ReachInitial(surface);
    ReachOne(surface, s, Frame(content));
    s := Apply(s, Frame(content));
    ReachOne(surface, s, Notify(0));
    s := Apply(s, Notify(0));
  }

  /** A window with one event fetches its bytes. */
  lemma Fetches(surface: Surface, s: State, w: nat) returns (t: State)
    requires surface.Reaches(s) && w < |s.windows| && s.windows[w] == Window(1, Waiting) && Valid(s) && SizeOf(s.slot) > 0
    ensures surface.Reaches(t)
    ensures t == WithUi(s, w, 0, Reading(SizeOf(s.slot), s.slot.value.data))
  {
    ReachOne(surface, s, UiSize(w));
    t := Apply(s, UiSize(w));
    ReachOne(surface, t, UiGet(w));
    t := Apply(t, UiGet(w));
  }

  /** With two windows on the display the event of the second may find the slot already
      freed by the first. */
  lemma SecondWindowFindsNothing(surface: Surface, content: bytes) returns (s: State)
    requires surface.windows >= 2 && content != []
    ensures surface.Reaches(s) && |s.windows| >= 2 && s.windows[1].pending > 0 && Fetched(s.slot).None?
  {
    s := FirstTold(surface, content);
    ReachOne(surface, s, Notify(1));
    s := Apply(s, Notify(1));
    s := Fetches(surface, s, 0);
    ReachOne(surface, s, UiNext(0));
    s := Apply(s, UiNext(0));
  }

  /** A slot dropped after its event was pushed is not there to be fetched. */
  lemma ClearedBeforeFetch(surface: Surface, content: bytes) returns (s: State)
    requires surface.windows >= 1 && surface.clearing
    ensures surface.Reaches(s) && |s.windows| >= 1 && s.windows[0].pending > 0 && s.slot.None?
  {
    s := FirstTold(surface, content);
    ReachOne(surface, s, Clear);
    s := Apply(s, Clear);
  }

  /** Nor is one freed by a switch to the display. */
  lemma ResetBeforeFetch(surface: Surface, content: bytes) returns (s: State)
    requires surface.windows >= 1 && surface.resetting
    ensures surface.Reaches(s) && |s.windows| >= 1 && s.windows[0].pending > 0 && s.slot.Some? && Fetched(s.slot).None?
  {
    s := FirstTold(surface, content);
    ReachOne(surface, s, Reset);
    s := Apply(s, Reset);
  }

  lemma FetchFails(surface: Surface, content: bytes) returns (s: State, w: nat)
    requires !surface.Quiet() && content != []
    ensures surface.Reaches(s) && w < |s.windows| && s.windows[w].pending > 0 && Fetched(s.slot).None?
  {
    w := 0;
    if surface.clearing {
      s := ClearedBeforeFetch(surface, content);
    } else if surface.resetting {
      s := ResetBeforeFetch(surface, content);
    } else {
      w := 1;
      s := SecondWindowFindsNothing(surface, content);
    }
  }

  /** In the same ways bytes are taken from under a read. */
  lemma ReadFails(surface: Surface, content: bytes) returns (s: State, w: nat)
    requires !surface.Quiet() && content != []
    ensures surface.Reaches(s) && w < |s.windows| && !Holds(s, w)
  {
    s := FirstTold(surface, content);
    w := 0;
    if surface.clearing || surface.resetting {
      var step := if surface.clearing then Clear else Reset;
      s := Fetches(surface, s, 0);
      ReachOne(surface, s, step);
      s := Apply(s, step);
    } else {
      w := 1;
      ReachOne(surface, s, Notify(1));
      s := Apply(s, Notify(1));
      s := Fetches(surface, s, 0);
      s := Fetches(surface, s, 1);
      ReachOne(surface, s, UiNext(0));
      s := Apply(s, UiNext(0));
    }
  }

  /** In particular a switch of the display during a read lets the next frame hand the
      buffer being read to the video thread. */
  lemma ReadInVideosHands(surface: Surface, content: bytes, next: bytes) returns (s: State)
    requires surface.windows == 1 && surface.resetting && content != []
    ensures surface.Reaches(s) && |s.windows| == 1
    ensures s.windows[0].ui == Reading(|content|, Buffer(0, content)) && s.raw == Buffer(0, content)
  {
    s := FirstTold(surface, content);
    s := Fetches(surface, s, 0);
    ReachOne(surface, s, Finish);
    s := Apply(s, Finish);
    ReachOne(surface, s, Reset);
    s := Apply(s, Reset);
    ReachOne(surface, s, Frame(next));
    s := Apply(s, Frame(next));
  }

  // The loop over the sessions, as steps.

  /** One event for each session that is told, in the order of the loop. */
  function Notices(handlers: seq<Handler>, display: nat, multi: bool): seq<Step>
  {
    if handlers == [] then []
    else
      var n := |handlers| - 1;
      Notices(handlers[..n], display, multi) + if Told(handlers[n], display, multi) then [Notify(n)] else []
  }

  /** The loop's events are steps of a run, to the windows of the sessions told and to no
      other; afterwards the flag says whether there was one. */
  lemma {:induction false} LoopIsNotices(s: State, handlers: seq<Handler>, display: nat, multi: bool)
    requires s.video == Telling(0, false) && |handlers| <= |s.windows|
    ensures Possible(s, Notices(handlers, display, multi))
    ensures var r := Run(s, Notices(handlers, display, multi));
            && |r.windows| == |s.windows| && r.slot == s.slot
            && r.video.Telling? && r.video.next <= |handlers|
            && (r.video.isSent <==> CountTold(handlers, display, multi) > 0)
            && r.announced == s.announced + CountTold(handlers, display, multi)
            && forall w :: 0 <= w < |s.windows| ==>
                 r.windows[w] == s.windows[w].(pending := s.windows[w].pending
                                               + if w < |handlers| && Told(handlers[w], display, multi) then 1 else 0)
  {
    if handlers != [] {
      var n := |handlers| - 1;
      LoopIsNotices(s, handlers[..n], display, multi);
      if Told(handlers[n], display, multi) {
        RunAppend(s, Notices(handlers[..n], display, multi), Notify(n));
      } else {
        assert Notices(handlers[..n], display, multi) + [] == Notices(handlers[..n], display, multi);
      }
    }
  }
}
