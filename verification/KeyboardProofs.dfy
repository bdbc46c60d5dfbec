/** What the peer holds down, and what a release does that nothing interrupts. */
module KeyboardProofs {
  import opened Common
  import opened Keyboard

  /** The codes the peer holds down: those whose last message is a press. */
  function Down(sent: seq<KeyMsg>): set<nat>
  {
    if sent == [] then {}
    else
      var last := sent[|sent| - 1];
      var before := Down(sent[..|sent| - 1]);
      if last.down then before + {last.code} else before - {last.code}
  }

  lemma DownAppend(sent: seq<KeyMsg>, m: KeyMsg)
    ensures Down(sent + [m]) == if m.down then Down(sent) + {m.code} else Down(sent) - {m.code}
  {
    assert (sent + [m])[..|sent|] == sent;
  }

  ghost function Codes(code: Table, keys: set<Key>): set<nat>
  {
    set k | k in keys && code(k).Some? :: code(k).value
  }

  ghost predicate Injective(code: Table) {
    forall a, b :: a != b && code(a).Some? && code(b).Some? ==> code(a) != code(b)
  }

  /** The modifier map marks exactly the modifiers among `keys`. */
  ghost predicate Marks(s: State, keys: set<Key>) {
    && (forall k :: k in s.modifiers <==> IsModifier(k))
    && (forall k :: k in s.modifiers ==> (s.modifiers[k] <==> k in keys))
  }

  // One event.

  lemma PressTracks(code: Table, s: State, keys: set<Key>, k: Key)
    requires Marks(s, keys) && !LongPress(s, KeyPress(k))
    ensures Marks(Process(code, s, KeyPress(k)), keys + {k})
    ensures Injective(code) && Down(s.sent) == Codes(code, keys)
            ==> Down(Process(code, s, KeyPress(k)).sent) == Codes(code, keys + {k})
  {
    if code(k).Some? {
      DownAppend(s.sent, KeyMsg(code(k).value, true));
      assert Codes(code, keys + {k}) == Codes(code, keys) + {code(k).value};
    } else {
      assert s.sent + [] == s.sent;
      assert Codes(code, keys + {k}) == Codes(code, keys);
    }
  }

  lemma ReleaseTracks(code: Table, s: State, keys: set<Key>, k: Key)
    requires Marks(s, keys)
    ensures Marks(Process(code, s, KeyRelease(k)), keys - {k})
    ensures Injective(code) && Down(s.sent) == Codes(code, keys)
            ==> Down(Process(code, s, KeyRelease(k)).sent) == Codes(code, keys - {k})
  {
    if code(k).Some? {
      DownAppend(s.sent, KeyMsg(code(k).value, false));
      if Injective(code) {
        CodesWithout(code, keys, k);
      }
    } else {
      assert s.sent + [] == s.sent;
      assert Codes(code, keys - {k}) == Codes(code, keys);
    }
  }

  lemma CodesWithout(code: Table, keys: set<Key>, k: Key)
    requires Injective(code) && code(k).Some?
    ensures Codes(code, keys - {k}) == Codes(code, keys) - {code(k).value}
  {
    forall x | x in Codes(code, keys) && x != code(k).value ensures x in Codes(code, keys - {k}) {
      var a :| a in keys && code(a).Some? && code(a).value == x;
      assert a in keys - {k};
    }
    forall x | x in Codes(code, keys - {k}) ensures x != code(k).value {
      var a :| a in keys - {k} && code(a).Some? && code(a).value == x;
      assert a != k;
    }
  }

  // The release loop: it starts with nothing tracked but the marks still set, and takes
  // marks and held codes down key by key.

  ghost predicate Releasing(code: Table, s: State, keys: set<Key>) {
    s.toRelease == map[] && Marks(s, keys) && (Injective(code) ==> Down(s.sent) == Codes(code, keys))
  }

  lemma ReleaseKeyStep(code: Table, s: State, keys: set<Key>, k: Key)
    requires Releasing(code, s, keys)
    ensures Releasing(code, ReleaseKey(code, s, k), keys - {k})
  {
    var s1 := Process(code, s, KeyRelease(k));
    ReleaseTracks(code, s, keys, k);
    if k == Alt || k == AltGr {
      var s2 := Process(code, s1, KeyPress(k));
      PressTracks(code, s1, keys - {k}, k);
      ReleaseTracks(code, s2, keys - {k} + {k}, k);
      assert keys - {k} + {k} - {k} == keys - {k};
      assert s2.toRelease - {k} == map[];
    }
  }

  function Elements(order: seq<Key>): set<Key>
  {
    if order == [] then {} else {order[0]} + Elements(order[1..])
  }

  lemma {:induction false} ElementsMeaning(order: seq<Key>, k: Key)
    ensures k in Elements(order) <==> k in order
  {
    if order != [] {
      ElementsMeaning(order[1..], k);
      assert order == [order[0]] + order[1..];
    }
  }

  lemma {:induction false} ReleaseLoop(code: Table, s: State, keys: set<Key>, order: seq<Key>)
    requires Releasing(code, s, keys)
    ensures Releasing(code, ReleaseKeys(code, s, order), keys - Elements(order))
    decreases |order|
  {
    if order == [] {
      assert keys - {} == keys;
    } else {
      ReleaseKeyStep(code, s, keys, order[0]);
      ReleaseLoop(code, ReleaseKey(code, s, order[0]), keys - {order[0]}, order[1..]);
      assert keys - {order[0]} - Elements(order[1..]) == keys - Elements(order);
    }
  }

  // A release on its own.

  ghost predicate Tracked(code: Table, s: State) {
    Marks(s, s.toRelease.Keys) && (Injective(code) ==> Down(s.sent) == Codes(code, s.toRelease.Keys))
  }

  /** A release that nothing interrupts leaves no key tracked, no modifier marked and,
      under an injective table, nothing held down at the peer, whatever the order. */
  lemma ReleaseClearsAll(code: Table, s: State, order: seq<Key>)
    requires Tracked(code, s) && Enumerates(order, s.toRelease.Keys)
    ensures var r := ReleaseAll(code, s, order);
            && r.toRelease == map[] && r.modifiers == Initial().modifiers
            && (Injective(code) ==> Down(r.sent) == {})
            && Tracked(code, r)
  {
    var keys := s.toRelease.Keys;
    var r := ReleaseAll(code, s, order);
    assert Releasing(code, r, {}) by {
      ReleaseLoop(code, s.(toRelease := map[]), keys, order);
      EnumeratesAll(order, keys);
    }
    NothingMarked(r);
    assert r.toRelease.Keys == {};
    assert Codes(code, {}) == {};
  }

  lemma EnumeratesAll(order: seq<Key>, keys: set<Key>)
    requires Enumerates(order, keys)
    ensures keys - Elements(order) == {}
  {
    forall k | k in keys ensures k in Elements(order) {
      ElementsMeaning(order, k);
    }
  }

  lemma NothingMarked(s: State)
    requires Marks(s, {})
    ensures s.modifiers == Initial().modifiers
  {
    var none := Initial().modifiers;
    assert forall k :: k in s.modifiers <==> k in none;
    assert forall k :: k in s.modifiers ==> s.modifiers[k] == none[k];
  }

  // Two keys with one code.

  lemma Releases(code: Table, s: State, a: Key)
    requires code(a).Some?
    ensures code(a).value !in Down(Process(code, s, KeyRelease(a)).sent)
  {
    DownAppend(s.sent, KeyMsg(code(a).value, false));
  }

  /** Pressing both and releasing the first lets go of the code while the second is still
      tracked. */
  lemma SharedCodeState(code: Table, a: Key, b: Key)
    requires a != b && code(a).Some? && code(a) == code(b)
    ensures var s := Process(code, Process(code, Process(code, Initial(), KeyPress(a)), KeyPress(b)), KeyRelease(a));
            b in s.toRelease && code(b).value !in Down(s.sent)
            && Down(s.sent) != Codes(code, s.toRelease.Keys)
  {
    var s1 := Process(code, Initial(), KeyPress(a));
    var s2 := Process(code, s1, KeyPress(b));
    assert b in s2.toRelease by {
      assert !LongPress(s1, KeyPress(b));
    }
    Releases(code, s2, a);
    StillTracked(code, s2, a, b);
  }

  lemma StillTracked(code: Table, s: State, a: Key, b: Key)
    requires a != b && b in s.toRelease && code(b).Some?
    ensures var r := Process(code, s, KeyRelease(a)); b in r.toRelease && code(b).value in Codes(code, r.toRelease.Keys)
  {
  }

  // Modifiers are not pressed twice.

  predicate NoDoublePress(sent: seq<KeyMsg>, x: nat) {
    forall i :: 0 <= i < |sent| && sent[i] == KeyMsg(x, true) ==> x !in Down(sent[..i])
  }

  lemma NoDoubleAppend(sent: seq<KeyMsg>, m: KeyMsg, x: nat)
    requires NoDoublePress(sent, x) && (m == KeyMsg(x, true) ==> x !in Down(sent))
    ensures NoDoublePress(sent + [m], x)
  {
    assert (sent + [m])[..|sent|] == sent;
    assert forall i :: 0 <= i < |sent| ==> (sent + [m])[..i] == sent[..i];
  }

  // What is sent.

  function Inputs(code: Table, s: State, events: seq<Event>): State
  {
    if events == [] then s else Process(code, Inputs(code, s, events[..|events| - 1]), events[|events| - 1])
  }

  predicate Of(e: Event, k: Key) { !e.OtherEvent? && e.key == k }

  /** Whether the last event of the key is a press. */
  predicate LeftPressed(events: seq<Event>, k: Key) {
    exists i :: 0 <= i < |events| && events[i] == KeyPress(k) && forall j :: i < j < |events| ==> !Of(events[j], k)
  }

  /** A modifier pressed again without having been released. */
  predicate Repeats(events: seq<Event>, i: nat)
    requires i < |events|
  {
    events[i].KeyPress? && IsModifier(events[i].key) && LeftPressed(events[..i], events[i].key)
  }

  /** A message for every event whose key has a code, but for a repeated modifier. */
  function Expected(code: Table, events: seq<Event>): seq<KeyMsg>
  {
    if events == [] then []
    else
      var n := |events| - 1;
      Expected(code, events[..n])
      + if events[n].OtherEvent? || code(events[n].key).None? || Repeats(events, n) then []
        else [KeyMsg(code(events[n].key).value, events[n].KeyPress?)]
  }

  lemma LeftPressedStep(events: seq<Event>, k: Key)
    requires events != []
    ensures var n := |events| - 1;
            LeftPressed(events, k) <==>
            events[n] == KeyPress(k) || (!Of(events[n], k) && LeftPressed(events[..n], k))
  {
    var n := |events| - 1;
    if LeftPressed(events, k) && events[n] != KeyPress(k) {
      var i :| 0 <= i < |events| && events[i] == KeyPress(k) && forall j :: i < j < |events| ==> !Of(events[j], k);
      assert events[..n][i] == KeyPress(k);
    }
    if !Of(events[n], k) && LeftPressed(events[..n], k) {
      var i :| 0 <= i < n && events[..n][i] == KeyPress(k) && forall j :: i < j < n ==> !Of(events[..n][j], k);
      assert forall j :: i < j < n ==> events[j] == events[..n][j];
      assert events[i] == KeyPress(k);
    }
  }

  ghost function Pressed(events: seq<Event>): iset<Key>
  {
    iset k: Key | LeftPressed(events, k)
  }

  /** Both maps say of each key whether it is in the set. */
  ghost predicate Follows(s: State, pressed: iset<Key>) {
    && (forall k :: k in s.modifiers <==> IsModifier(k))
    && (forall k :: k in s.modifiers ==> (s.modifiers[k] <==> k in pressed))
    && (forall k :: k in s.toRelease <==> k in pressed)
  }

  ghost function After(pressed: iset<Key>, e: Event): iset<Key>
  {
    match e
    case KeyPress(k) => pressed + iset{k}
    case KeyRelease(k) => pressed - iset{k}
    case OtherEvent => pressed
  }

  lemma FollowsOn(code: Table, s: State, pressed: iset<Key>, e: Event)
    requires Follows(s, pressed)
    ensures Follows(Process(code, s, e), After(pressed, e))
  {
  }

  lemma PressedStep(events: seq<Event>)
    requires events != []
    ensures Pressed(events) == After(Pressed(events[..|events| - 1]), events[|events| - 1])
  {
    forall k ensures k in Pressed(events) <==> k in After(Pressed(events[..|events| - 1]), events[|events| - 1]) {
      LeftPressedStep(events, k);
    }
  }

  lemma {:induction false} MapsFollow(code: Table, events: seq<Event>)
    ensures Follows(Inputs(code, Initial(), events), Pressed(events))
  {
    if events != [] {
      var n := |events| - 1;
      MapsFollow(code, events[..n]);
      PressedStep(events);
      FollowsOn(code, Inputs(code, Initial(), events[..n]), Pressed(events[..n]), events[n]);
    }
  }

  /** Over every sequence of events that no release interrupts, exactly these are sent, in
      order: so an ordinary key that is held repeats, and a held modifier does not. And the
      keys tracked are those whose last event is a press. */
  lemma {:induction false} SentExactly(code: Table, events: seq<Event>)
    ensures Inputs(code, Initial(), events).sent == Expected(code, events)
    ensures forall k :: k in Inputs(code, Initial(), events).toRelease <==> LeftPressed(events, k)
  {
    MapsFollow(code, events);
    if events != [] {
      var n := |events| - 1;
      var s := Inputs(code, Initial(), events[..n]);
      SentExactly(code, events[..n]);
      MapsFollow(code, events[..n]);
      SentStep(code, s, events[n], Repeats(events, n));
    }
  }

  lemma SentStep(code: Table, s: State, e: Event, repeats: bool)
    requires LongPress(s, e) <==> repeats
    ensures Process(code, s, e).sent == s.sent + if e.OtherEvent? || code(e.key).None? || repeats then []
                                                 else [KeyMsg(code(e.key).value, e.KeyPress?)]
  {
    assert s.sent + [] == s.sent;
  }

  /** The strokes that release a key: up, and for Alt and AltGr down and up once more. */
  function KeyStrokes(code: Table, k: Key): seq<KeyMsg>
  {
    match code(k)
    case None => []
    case Some(c) =>
      if k == Alt || k == AltGr then [KeyMsg(c, false), KeyMsg(c, true), KeyMsg(c, false)] else [KeyMsg(c, false)]
  }

  function ReleaseStrokes(code: Table, order: seq<Key>): seq<KeyMsg>
  {
    if order == [] then [] else KeyStrokes(code, order[0]) + ReleaseStrokes(code, order[1..])
  }

  /** A release that nothing interrupts sends exactly these strokes, key by key. */
  lemma {:induction false} ReleaseSends(code: Table, s: State, order: seq<Key>)
    requires forall k :: k in s.modifiers <==> IsModifier(k)
    ensures ReleaseKeys(code, s, order).sent == s.sent + ReleaseStrokes(code, order)
    decreases |order|
  {
    if order != [] {
      var k := order[0];
      KeySends(code, s, k);
      ReleaseSends(code, ReleaseKey(code, s, k), order[1..]);
      var strokes := KeyStrokes(code, k);
      assert s.sent + strokes + ReleaseStrokes(code, order[1..]) == s.sent + (strokes + ReleaseStrokes(code, order[1..]));
    }
  }

  lemma KeySends(code: Table, s: State, k: Key)
    requires forall k :: k in s.modifiers <==> IsModifier(k)
    ensures var r := ReleaseKey(code, s, k);
            && (forall k :: k in r.modifiers <==> IsModifier(k))
            && r.sent == s.sent + KeyStrokes(code, k)
  {
    var s1 := Process(code, s, KeyRelease(k));
    assert !LongPress(s1, KeyPress(k)) by {
      assert k in s1.modifiers ==> !s1.modifiers[k];
    }
  }
}
