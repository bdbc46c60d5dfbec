/** Which connection is subscribed to which service (server.rs, with the subscriber sets
    of server/service.rs). */
module Subscriptions {
  import opened Common

  /** An i32. */
  type Id = x: int | -0x8000_0000 <= x < 0x8000_0000

  /** Addition wraps around as in a release build. */
  function Wrap(x: int): Id
  {
    (x + 0x8000_0000) % 0x1_0000_0000 - 0x8000_0000
  }

  /** A service's subscribers; new ones wait apart when they must first get a snapshot. */
  datatype Service = Service(subscribes: set<Id>, newSubscribes: set<Id>, needSnapshot: bool) {
    predicate Subed(id: Id) { id in subscribes || id in newSubscribes }

    ghost predicate Valid() { subscribes !! newSubscribes && (!needSnapshot ==> newSubscribes == {}) }

    function OnSubscribe(id: Id): (s: Service)
      requires Valid()
      ensures s.Valid() && s.Subed(id) && forall other :: other != id ==> (s.Subed(other) <==> Subed(other))
      ensures !Subed(id) ==> (id in s.newSubscribes <==> needSnapshot)
    {
      if id in subscribes then this
      else if needSnapshot then this.(newSubscribes := newSubscribes + {id})
      else this.(subscribes := subscribes + {id})
    }

    function OnUnsubscribe(id: Id): (s: Service)
      requires Valid()
      ensures s.Valid() && !s.Subed(id) && forall other :: other != id ==> (s.Subed(other) <==> Subed(other))
    {
      if id in subscribes then this.(subscribes := subscribes - {id})
      else this.(newSubscribes := newSubscribes - {id})
    }

    /** After the snapshot the new subscribers join the others. */
    function SwapNewSubscribes(): (s: Service)
      ensures s.Valid() && s.newSubscribes == {} && forall id :: s.Subed(id) <==> Subed(id)
    {
      this.(subscribes := subscribes + newSubscribes, newSubscribes := {})
    }
  }

  predicate HasPrefix(name: string) {
    "monitor" <= name || "camera" <= name
  }

  const PRIMARY := "monitor0"

  const PRIMARY_CAMERA := "camera0"

  // What each call does, told by who is subscribed where.

  datatype Snapshot = Snapshot(connections: set<Id>, services: map<string, Service>, idCount: Id) {
    ghost predicate Valid() {
      forall name :: name in services ==> services[name].Valid()
    }

    predicate Subed(name: string, id: Id) {
      name in services && services[name].Subed(id)
    }
  }

  datatype Call =
    | NewId
    | AddService(name: string, needSnapshot: bool)
    | Add(id: Id, noperms: seq<string>)
    | AddCamera(id: Id, primary: bool)
    | Remove(id: Id)
    | Subscribe(name: string, id: Id, sub: bool)
    | Capture(id: Id, displays: seq<string>, adding: bool, removing: bool)
    | Swap(name: string)

  /** Whether a connection is subscribed to an existing service after a call. */
  predicate SubedAfter(s: Snapshot, call: Call, name: string, id: Id) {
    match call
    case Add(c, noperms) => s.Subed(name, id) || (id == c && (HasPrefix(name) ==> name == PRIMARY) && name !in noperms)
    case AddCamera(c, primary) => s.Subed(name, id) || (id == c && primary && name == PRIMARY_CAMERA)
    case Remove(c) => s.Subed(name, id) && id != c
    case Subscribe(n, c, sub) => if name == n && id == c then sub else s.Subed(name, id)
    case Capture(c, displays, adding, removing) =>
      if id != c || !HasPrefix(name) then s.Subed(name, id)
      else if name in displays then adding || s.Subed(name, id)
      else !removing && s.Subed(name, id)
    case _ => s.Subed(name, id)
  }

  ghost predicate Effect(s: Snapshot, call: Call, t: Snapshot) {
    && t.Valid() && t.services.Keys == s.services.Keys + (if call.AddService? then {call.name} else {})
    && t.idCount == (if call.NewId? then Wrap(s.idCount + 1) else s.idCount)
    && t.connections == (match call
                         case Add(id, _) => s.connections + {id}
                         case AddCamera(id, _) => s.connections + {id}
                         case Remove(id) => s.connections - {id}
                         case _ => s.connections)
    && forall name, id :: name in t.services ==> (t.services[name].Subed(id) <==> SubedAfter(s, call, name, id))
  }

  class Server {
    var connections: set<Id>
    var services: map<string, Service>
    var idCount: Id

    ghost function Value(): Snapshot
      reads this
    {
      Snapshot(connections, services, idCount)
    }

    ghost predicate Valid()
      reads this
    {
      Value().Valid()
    }

    /** `random` is any i32; the first id is one more than the start. */
    constructor (random: Id, services: map<string, Service>)
      requires forall name :: name in services ==> services[name].Valid()
      ensures Valid() && this.services == services && connections == {} && 1 <= idCount <= 1999
    {
      connections := {};
      this.services := services;
      // the remainder has the sign of the dividend
      var r: int := random;
      idCount := (if r >= 0 then r % 1000 else -(-r % 1000)) + 1000;
    }

    method GetNewId() returns (id: Id)
      requires Valid()
      modifies this`idCount
      ensures Effect(old(Value()), NewId, Value()) && id == idCount
    {
      idCount := Wrap(idCount + 1);
      id := idCount;
    }

    method Subscribe(name: string, id: Id, sub: bool)
      requires Valid()
      modifies this`services
      ensures Effect(old(Value()), Call.Subscribe(name, id, sub), Value())
      ensures forall n :: n in services && n != name ==> services[n] == old(services)[n]
    {
      if name in services {
        var s := services[name];
        if s.Subed(id) == sub {
          return;
        }
        services := services[name := if sub then s.OnSubscribe(id) else s.OnUnsubscribe(id)];
      }
    }

    /** Every caller adds a service only where there is none of the name. */
    method AddMissingService(name: string, needSnapshot: bool)
      requires Valid()
      modifies this`services
      ensures Effect(old(Value()), AddService(name, needSnapshot), Value())
      ensures forall n :: n in old(services) ==> n in services && services[n] == old(services)[n]
    {
      if name !in services {
        services := services[name := Service({}, {}, needSnapshot)];
      }
    }

    /** A connection to the camera gets the primary camera, if there is one. */
    method AddCameraConnection(id: Id, primaryExists: bool)
      requires Valid()
      modifies this`services, this`connections
      ensures Effect(old(Value()), AddCamera(id, primaryExists), Value())
    {
      if primaryExists {
        if PRIMARY_CAMERA in services {
          services := services[PRIMARY_CAMERA := services[PRIMARY_CAMERA].OnSubscribe(id)];
        }
      }
      connections := connections + {id};
    }

    /** A new connection gets every permitted service; of the video ones only the primary. */
    method AddConnection(id: Id, noperms: seq<string>)
      requires Valid()
      modifies this`services, this`connections
      ensures Effect(old(Value()), Add(id, noperms), Value())
    {
      var keys := services.Keys;
      while keys != {}
        invariant Valid() && keys <= services.Keys == old(services.Keys) && connections == old(connections)
        invariant forall n :: n in keys ==> services[n] == old(services)[n]
        invariant forall n, other :: n in services && n !in keys ==>
                    (services[n].Subed(other) <==> SubedAfter(old(Value()), Add(id, noperms), n, other))
        decreases keys
      {
        var name :| name in keys;
        keys := keys - {name};
        if HasPrefix(name) && name != PRIMARY {
          continue;
        }
        if name !in noperms {
          services := services[name := services[name].OnSubscribe(id)];
        }
      }
      connections := connections + {id};
    }

    /** Afterwards no service knows the connection; others are untouched. */
    method RemoveConnection(id: Id)
      requires Valid()
      modifies this`services, this`connections
      ensures Effect(old(Value()), Remove(id), Value())
    {
      var keys := services.Keys;
      while keys != {}
        invariant Valid() && keys <= services.Keys == old(services.Keys) && connections == old(connections)
        invariant forall n :: n in keys ==> services[n] == old(services)[n]
        invariant forall n, other :: n in services && n !in keys ==>
                    (services[n].Subed(other) <==> SubedAfter(old(Value()), Remove(id), n, other))
        decreases keys
      {
        var name :| name in keys;
        keys := keys - {name};
        services := services[name := services[name].OnUnsubscribe(id)];
      }
      connections := connections - {id};
    }

    /** `displays` are the names of the requested video services. Requested ones are added
        when `adding`, the other video services taken away when `removing`. */
    method CaptureDisplays(id: Id, displays: seq<string>, adding: bool, removing: bool)
      requires Valid()
      modifies this`services
      ensures Effect(old(Value()), Capture(id, displays, adding, removing), Value())
    {
      var keys := services.Keys;
      while keys != {}
        invariant Valid() && keys <= services.Keys == old(services.Keys)
        invariant forall n :: n in keys ==> services[n] == old(services)[n]
        invariant forall n, other :: n in services && n !in keys ==>
                    (services[n].Subed(other) <==>
                     SubedAfter(old(Value()), Capture(id, displays, adding, removing), n, other))
        decreases keys
      {
        var name :| name in keys;
        keys := keys - {name};
        if HasPrefix(name) {
          if name in displays {
            if adding {
              Subscribe(name, id, true);
            }
          } else {
            if removing {
              Subscribe(name, id, false);
            }
          }
        }
      }
    }
  }

  // Runs.

  ghost predicate Trace(states: seq<Snapshot>, calls: seq<Call>) {
    && |states| == |calls| + 1
    && forall i :: 0 <= i < |calls| ==> Effect(states[i], calls[i], states[i + 1])
  }

  /** The service's own thread lets the new subscribers join. */
  lemma SwapIsACall(s: Snapshot, name: string)
    requires s.Valid() && name in s.services
    ensures Effect(s, Swap(name), s.(services := s.services[name := s.services[name].SwapNewSubscribes()]))
  {
  }

  function NewIds(calls: seq<Call>): nat
  {
    if calls == [] then 0 else NewIds(calls[..|calls| - 1]) + if calls[|calls| - 1].NewId? then 1 else 0
  }

  lemma WrapAgain(x: int, k: int)
    ensures Wrap(Wrap(x) + k) == Wrap(x + k)
  {
  }

  lemma {:induction false} IdAfter(states: seq<Snapshot>, calls: seq<Call>, i: nat)
    requires Trace(states, calls) && i <= |calls|
    ensures states[i].idCount == Wrap(states[0].idCount + NewIds(calls[..i]))
  {
    if i > 0 {
      IdAfter(states, calls, i - 1);
      assert calls[..i][..i - 1] == calls[..i - 1];
      WrapAgain(states[0].idCount + NewIds(calls[..i - 1]), 1);
    }
  }

  lemma SameWrap(x: int, y: int)
    ensures Wrap(x) == Wrap(y) <==> (x - y) % 0x1_0000_0000 == 0
  {
  }

  /** Over every run two ids handed out are the same exactly when a multiple of 2^32 calls
      lie between them, and they are positive as long as the count stays an i32. */
  lemma IdsAreUnique(states: seq<Snapshot>, calls: seq<Call>, i: nat, j: nat)
    requires Trace(states, calls) && i < j < |calls| && calls[i].NewId? && calls[j].NewId?
    requires 1 <= states[0].idCount <= 1999
    ensures var between := NewIds(calls[..j + 1]) - NewIds(calls[..i + 1]);
            states[i + 1].idCount == states[j + 1].idCount <==> between % 0x1_0000_0000 == 0
    ensures states[0].idCount + NewIds(calls[..j + 1]) < 0x8000_0000 ==> 0 < states[i + 1].idCount < states[j + 1].idCount
  {
    var m, n := NewIds(calls[..i + 1]), NewIds(calls[..j + 1]);
    IdAfter(states, calls, i + 1);
    IdAfter(states, calls, j + 1);
    OneMore(calls, i, j);
    TwoWraps(states[0].idCount, m, n);
  }

  lemma OneMore(calls: seq<Call>, i: nat, j: nat)
    requires i < j < |calls| && calls[j].NewId?
    ensures NewIds(calls[..i + 1]) < NewIds(calls[..j + 1])
  {
    NewIdsGrow(calls, i + 1, j);
    assert calls[..j + 1][..j] == calls[..j];
  }

  lemma TwoWraps(start: int, m: nat, n: nat)
    requires start > 0 && m < n
    ensures Wrap(start + m) == Wrap(start + n) <==> (n - m) % 0x1_0000_0000 == 0
    ensures start + n < 0x8000_0000 ==> 0 < Wrap(start + m) < Wrap(start + n)
  {
    SameWrap(start + n, start + m);
  }

  lemma {:induction false} NewIdsGrow(calls: seq<Call>, i: nat, j: nat)
    requires i <= j <= |calls|
    ensures NewIds(calls[..i]) <= NewIds(calls[..j])
  {
    if i < j {
      NewIdsGrow(calls, i, j - 1);
      assert calls[..j][..j - 1] == calls[..j - 1];
    }
  }

  /** The calls that may subscribe a connection to something, or unsubscribe it. */
  predicate Subscribes(call: Call, id: Id) {
    match call
    case Add(c, _) => c == id
    case AddCamera(c, _) => c == id
    case Subscribe(_, c, sub) => c == id && sub
    case Capture(c, _, adding, _) => c == id && adding
    case _ => false
  }

  predicate Concerns(call: Call, id: Id) {
    match call
    case Add(c, _) => c == id
    case AddCamera(c, _) => c == id
    case Remove(c) => c == id
    case Subscribe(_, c, _) => c == id
    case Capture(c, _, _, _) => c == id
    case _ => false
  }

  /** Over every run a removed connection stays unsubscribed everywhere until a call
      subscribes it again. */
  lemma {:induction false} RemovedStaysOut(states: seq<Snapshot>, calls: seq<Call>, id: Id, i: nat, j: nat, name: string)
    requires Trace(states, calls) && i < j <= |calls| && calls[i] == Remove(id)
    requires forall k :: i < k < j ==> !Subscribes(calls[k], id)
    ensures !states[j].Subed(name, id)
    decreases j
  {
    if j > i + 1 {
      RemovedStaysOut(states, calls, id, i, j - 1, name);
    }
    assert Effect(states[j - 1], calls[j - 1], states[j]);
  }

  /** And what a connection is subscribed to changes only by calls that name it. */
  lemma {:induction false} OthersDoNotInterfere(states: seq<Snapshot>, calls: seq<Call>, id: Id, i: nat, j: nat, name: string)
    requires Trace(states, calls) && i <= j <= |calls|
    requires forall k :: i <= k < j ==> !Concerns(calls[k], id)
    ensures states[j].Subed(name, id) <==> states[i].Subed(name, id)
    ensures id in states[j].connections <==> id in states[i].connections
    decreases j
  {
    if i < j {
      OthersDoNotInterfere(states, calls, id, i, j - 1, name);
      assert Effect(states[j - 1], calls[j - 1], states[j]);
    }
  }

  // What the calls say of one connection.

  predicate Video(name: string) { "monitor" <= name || "camera" <= name }

  /** After a request for displays, with both flags, a connection is subscribed to exactly
      the requested ones that exist; with one flag requested ones are added to what it had,
      or others taken away; other services and connections are as before. */
  lemma CaptureMeaning(s: Snapshot, t: Snapshot, id: Id, displays: seq<string>, adding: bool, removing: bool, name: string)
    requires Effect(s, Capture(id, displays, adding, removing), t) && name in t.services
    ensures Video(name) && adding && removing ==> (t.Subed(name, id) <==> name in displays)
    ensures Video(name) && adding && !removing ==> (t.Subed(name, id) <==> name in displays || s.Subed(name, id))
    ensures Video(name) && !adding && removing ==> (t.Subed(name, id) <==> name in displays && s.Subed(name, id))
    ensures !Video(name) || !(adding || removing) ==> (t.Subed(name, id) <==> s.Subed(name, id))
    ensures forall other :: other != id ==> (t.Subed(name, other) <==> s.Subed(name, other))
  {
  }

  /** A new connection is subscribed to exactly the permitted services that are not video
      and the primary monitor, if permitted; a camera connection to the primary camera. */
  lemma AddMeaning(s: Snapshot, t: Snapshot, id: Id, noperms: seq<string>, name: string)
    requires Effect(s, Add(id, noperms), t) && name in t.services && !s.Subed(name, id)
    ensures t.Subed(name, id) <==> name !in noperms && (Video(name) ==> name == "monitor0")
    ensures id in t.connections && forall other :: other != id ==> (t.Subed(name, other) <==> s.Subed(name, other))
  {
  }

  lemma AddCameraMeaning(s: Snapshot, t: Snapshot, id: Id, primary: bool, name: string)
    requires Effect(s, AddCamera(id, primary), t) && name in t.services && !s.Subed(name, id)
    ensures t.Subed(name, id) <==> primary && name == "camera0"
    ensures id in t.connections && forall other :: other != id ==> (t.Subed(name, other) <==> s.Subed(name, other))
  {
  }

  lemma SubscribeMeaning(s: Snapshot, t: Snapshot, id: Id, name: string, sub: bool)
    requires Effect(s, Call.Subscribe(name, id, sub), t) && name in t.services
    ensures t.Subed(name, id) <==> sub
    ensures forall n, other :: n != name || other != id ==> (t.Subed(n, other) <==> s.Subed(n, other))
  {
    forall n, other | n != name || other != id ensures t.Subed(n, other) <==> s.Subed(n, other) {
      if n in t.services {
        assert t.services[n].Subed(other) <==> SubedAfter(s, Call.Subscribe(name, id, sub), n, other);
      }
    }
  }
}
