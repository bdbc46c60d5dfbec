/** Pressed-key tracking of keyboard.rs in map mode: the two global maps, the events
    sent to the peer, and the loop that releases everything. Each local key stands for
    one physical position, and `code` is what the mapping table of the current peer
    makes of it, if anything. */
module Keyboard {
  import opened Common

  datatype Key =
    | ShiftLeft | ShiftRight | ControlLeft | ControlRight | Alt | AltGr | MetaLeft | MetaRight
    | Ordinary(id: nat)

  predicate IsModifier(k: Key) { !k.Ordinary? }

  const MODIFIERS: set<Key> := {ShiftLeft, ShiftRight, ControlLeft, ControlRight, Alt, AltGr, MetaLeft, MetaRight}

  datatype Event = KeyPress(key: Key) | KeyRelease(key: Key) | OtherEvent

  datatype KeyMsg = KeyMsg(code: nat, down: bool)

  type Table = Key -> Option<nat>

  datatype State = State(toRelease: map<Key, Event>, modifiers: map<Key, bool>, sent: seq<KeyMsg>)

  function Initial(): State
  {
    State(map[], map k | k in MODIFIERS :: false, [])
  }

  predicate LongPress(s: State, e: Event) {
    e.KeyPress? && e.key in s.modifiers && s.modifiers[e.key]
  }

  function Marked(modifiers: map<Key, bool>, k: Key, down: bool): map<Key, bool>
  {
    if k in modifiers then modifiers[k := down] else modifiers
  }

  function Messages(code: Table, e: Event): seq<KeyMsg>
  {
    if e.OtherEvent? || code(e.key).None? then [] else [KeyMsg(code(e.key).value, e.KeyPress?)]
  }

  function Process(code: Table, s: State, e: Event): State
  {
    if LongPress(s, e) then s
    else match e
      case KeyPress(k) => State(s.toRelease[k := e], Marked(s.modifiers, k, true), s.sent + Messages(code, e))
      case KeyRelease(k) => State(s.toRelease - {k}, Marked(s.modifiers, k, false), s.sent + Messages(code, e))
      case OtherEvent => s
  }

  /** What the release loop does with one key of its snapshot. */
  function ReleaseKey(code: Table, s: State, k: Key): State
  {
    var s1 := Process(code, s, KeyRelease(k));
    if k == Alt || k == AltGr then Process(code, Process(code, s1, KeyPress(k)), KeyRelease(k)) else s1
  }

  function ReleaseKeys(code: Table, s: State, order: seq<Key>): State
    decreases |order|
  {
    if order == [] then s else ReleaseKeys(code, ReleaseKey(code, s, order[0]), order[1..])
  }

  function ReleaseAll(code: Table, s: State, order: seq<Key>): State
  {
    ReleaseKeys(code, s.(toRelease := map[]), order)
  }

  ghost predicate Enumerates(order: seq<Key>, keys: set<Key>) {
    && (forall k :: k in order <==> k in keys)
    && (forall i, j :: 0 <= i < j < |order| ==> order[i] != order[j])
  }

  class Tracker {
    const code: Table
    var toRelease: map<Key, Event>
    var modifiersState: map<Key, bool>
    var sent: seq<KeyMsg>

    ghost function Value(): State
      reads this
    {
      State(toRelease, modifiersState, sent)
    }

    constructor (code: Table)
      ensures Value() == Initial() && this.code == code
    {
      this.code := code;
      toRelease := map[];
      modifiersState := map k | k in MODIFIERS :: false;
      sent := [];
    }

    method IsLongPress(event: Event) returns (r: bool)
      ensures r == LongPress(Value(), event)
    {
      match event {
        case KeyPress(k) =>
          if k in modifiersState {
            if modifiersState[k] {
              return true;
            }
          }
        case _ =>
      }
      return false;
    }

    method UpdateModifiersState(event: Event)
      modifies this`modifiersState
      ensures modifiersState == if event.OtherEvent? then old(modifiersState)
                                else Marked(old(modifiersState), event.key, event.KeyPress?)
    {
      match event {
        case KeyPress(k) =>
          if k in modifiersState {
            modifiersState := modifiersState[k := true];
          }
        case KeyRelease(k) =>
          if k in modifiersState {
            modifiersState := modifiersState[k := false];
          }
        case OtherEvent =>
      }
    }

    method EventToKeyEvents(event: Event) returns (r: seq<KeyMsg>)
      modifies this`modifiersState, this`toRelease
      ensures r == Messages(code, event)
      ensures !LongPress(old(Value()), event) ==>
                Value() == Process(code, old(Value()), event).(sent := old(sent))
    {
      UpdateModifiersState(event);
      match event {
        case KeyPress(key) => toRelease := toRelease[key := event];
        case KeyRelease(key) => toRelease := toRelease - {key};
        case OtherEvent =>
      }
      r := [];
      if !event.OtherEvent? && code(event.key).Some? {
        r := [KeyMsg(code(event.key).value, event.KeyPress?)];
      }
    }

    method ProcessEvent(event: Event)
      modifies this
      ensures Value() == Process(code, old(Value()), event)
    {
      var long := IsLongPress(event);
      if long {
        return;
      }
      var msgs := EventToKeyEvents(event);
      sent := sent + msgs;
    }

    /** Releases every tracked key, in whatever order the map yields them. */
    method ReleaseRemoteKeys() returns (ghost order: seq<Key>)
      modifies this
      ensures Enumerates(order, old(toRelease.Keys))
      ensures Value() == ReleaseAll(code, old(Value()), order)
    {
      var remaining := toRelease.Keys;
      toRelease := map[];
      order := [];
      ghost var start := Value();
      while remaining != {}
        invariant remaining <= old(toRelease.Keys) && Enumerates(order, old(toRelease.Keys) - remaining)
        invariant Value() == ReleaseKeys(code, start, order)
        decreases remaining
      {
        var key :| key in remaining;
        remaining := remaining - {key};
        ReleaseOneMore(code, start, order, key);
        order := order + [key];
        ProcessEvent(KeyRelease(key));
        if key == Alt || key == AltGr {
          ProcessEvent(KeyPress(key));
          ProcessEvent(KeyRelease(key));
        }
      }
    }
  }

  lemma {:induction false} ReleaseOneMore(code: Table, s: State, order: seq<Key>, k: Key)
    ensures ReleaseKeys(code, s, order + [k]) == ReleaseKey(code, ReleaseKeys(code, s, order), k)
    decreases |order|
  {
    if order == [] {
      assert [k][1..] == [];
    } else {
      assert (order + [k])[1..] == order[1..] + [k];
      ReleaseOneMore(code, ReleaseKey(code, s, order[0]), order[1..], k);
    }
  }
}
