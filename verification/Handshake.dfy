/** The key handshake between `secure_connection` of client.rs and
    `create_tcp_connection` of server.rs, over two FIFO channels. Signatures and boxes
    are symbolic: a signed text opens with the signer's key alone, a sealed key with the
    two box keys it was sealed for. */
module Handshake {
  import opened Common

  type Key = nat

  /** What `sign::sign` makes of an id and a 32-byte key, or anything else. */
  datatype Blob = SignedBy(signer: Key, id: string, pk: Key) | Junk

  function DecodeIdPk(blob: Blob, pk: Key): Option<(string, Key)>
  {
    match blob
    case SignedBy(signer, id, content) => if signer == pk then Some((id, content)) else None
    case Junk => None
  }

  datatype SealedKey = SealedKey(key: Key, from: Key, to: Key) | NoKey

  datatype Asymmetric = Absent | BoxKey(k: Key) | WrongLength

  datatype Msg =
    | SignedId(blob: Blob)
    | PublicKey(asymmetric: Asymmetric, symmetric: SealedKey)
    | Empty         // a message without content
    | Other         // any later traffic
    | Malformed

  /** All that is fixed before the connection. */
  datatype Config = Config(
    // the client
    peerId: string,
    rsKey: Option<Key>,         // the rendezvous server's key, if it parses
    signedIdPk: Option<Blob>,   // what the rendezvous server says of the peer
    clientBox: Key,
    symmetricKey: Key,
    // the server
    secure: bool,
    keysWellFormed: bool,       // its signing key pair has the right lengths
    id: string,
    signKey: Key,
    serverBox: Key
  ) {
    /** Whether the server opens with a signed id. */
    predicate ServerSigns() { secure && keysWellFormed }

    function Hello(): Msg { SignedId(SignedBy(signKey, id, serverBox)) }

    /** The peer's signing key, as vouched for by the rendezvous server. */
    function SignPk(): Option<Key>
    {
      if signedIdPk.None? || rsKey.None? then None
      else match DecodeIdPk(signedIdPk.value, rsKey.value)
        case None => None
        case Some((id, pk)) => if id == peerId then Some(pk) else None
    }
  }

  datatype Client = ClientStart | ClientWait | ClientDone(key: Option<Key>) | ClientFailed

  datatype Server = ServerStart | ServerWait | ServerDone(key: Option<Key>) | ServerFailed

  datatype State = State(client: Client, server: Server, toClient: seq<Msg>, toServer: seq<Msg>,
                         keyConfirmed: bool)

  datatype Step =
    | ClientBegin | ClientReceive | ClientAbort | ClientTraffic
    | ServerBegin | ServerReceive | ServerAbort | ServerTraffic

  function Initial(): State
  {
    State(ClientStart, ServerStart, [], [], true)
  }

  /** The client's answer to the first message: what it sends and the key it then uses. */
  function ClientAnswer(c: Config, signPk: Key, m: Msg): (Msg, Option<Key>)
  {
    match m
    case SignedId(blob) => (
      match DecodeIdPk(blob, signPk)
      case Some((id, theirBox)) =>
        if id == c.peerId
        then (PublicKey(BoxKey(c.clientBox), SealedKey(c.symmetricKey, c.clientBox, theirBox)), Some(c.symmetricKey))
        else (Empty, None)
      case None => (PublicKey(Absent, NoKey), None)
    )
    case _ => (Empty, None)
  }

  /** The server on the client's answer: the new state of the server and of the
      confirmation of its key. */
  function ServerAnswer(c: Config, m: Msg, confirmed: bool): (Server, bool)
  {
    match m
    case PublicKey(BoxKey(k), symmetric) =>
      if symmetric.SealedKey? && symmetric.from == k && symmetric.to == c.serverBox
      then (ServerDone(Some(symmetric.key)), confirmed) else (ServerFailed, confirmed)
    case PublicKey(Absent, _) => (ServerDone(None), false)
    case PublicKey(WrongLength, _) => (ServerFailed, confirmed)
    case Malformed => (ServerFailed, confirmed)
    case _ => (ServerDone(None), confirmed)
  }

  predicate Enabled(s: State, step: Step) {
    match step
    case ClientBegin => s.client.ClientStart?
    case ClientReceive => s.client.ClientWait? && s.toClient != []
    case ClientAbort => s.client.ClientStart? || s.client.ClientWait?
    case ClientTraffic => s.client.ClientDone?
    case ServerBegin => s.server.ServerStart?
    case ServerReceive => s.server.ServerWait? && s.toServer != []
    case ServerAbort => s.server.ServerStart? || s.server.ServerWait?
    case ServerTraffic => s.server.ServerDone?
  }

  function Apply(c: Config, s: State, step: Step): State
    requires Enabled(s, step)
  {
    match step
    case ClientBegin =>
      if c.SignPk().Some? then s.(client := ClientWait)
      else s.(client := ClientDone(None), toServer := s.toServer + [Empty])
    case ClientReceive =>
      var (reply, key) := if c.SignPk().Some? then ClientAnswer(c, c.SignPk().value, s.toClient[0]) else (Empty, None);
      s.(client := ClientDone(key), toClient := s.toClient[1..], toServer := s.toServer + [reply])
    case ClientAbort => s.(client := ClientFailed)
    case ClientTraffic => s.(toServer := s.toServer + [Other])
    case ServerBegin =>
      if c.ServerSigns() then s.(server := ServerWait, toClient := s.toClient + [c.Hello()])
      else s.(server := ServerDone(None))
    case ServerReceive =>
      var (server, confirmed) := ServerAnswer(c, s.toServer[0], s.keyConfirmed);
      s.(server := server, toServer := s.toServer[1..], keyConfirmed := confirmed)
    case ServerAbort => s.(server := ServerFailed)
    case ServerTraffic => s.(toClient := s.toClient + [Other])
  }

  predicate Possible(c: Config, s: State, steps: seq<Step>)
    decreases |steps|
  {
    steps == [] || (Enabled(s, steps[0]) && Possible(c, Apply(c, s, steps[0]), steps[1..]))
  }

  function Run(c: Config, s: State, steps: seq<Step>): State
    requires Possible(c, s, steps)
    decreases |steps|
  {
    if steps == [] then s else Run(c, Apply(c, s, steps[0]), steps[1..])
  }

  // What every run keeps.

  /** When the two ends can agree on a key. */
  predicate CanKey(c: Config) {
    c.ServerSigns() && c.SignPk() == Some(c.signKey) && c.id == c.peerId
  }

  function AgreedKey(c: Config): Option<Key>
  {
    if CanKey(c) then Some(c.symmetricKey) else None
  }

  /** Whether the client finds that the server signs with another key than the one the
      rendezvous server knows. */
  predicate StaleKey(c: Config) {
    c.ServerSigns() && c.SignPk().Some? && c.SignPk() != Some(c.signKey)
  }

  /** The first message a client that finished has sent. */
  predicate FirstReply(c: Config, m: Msg) {
    if CanKey(c) then m == PublicKey(BoxKey(c.clientBox), SealedKey(c.symmetricKey, c.clientBox, c.serverBox))
    else if StaleKey(c) then m == PublicKey(Absent, NoKey)
    else m == Empty
  }

  ghost predicate Inv(c: Config, s: State) {
    // what the client can still read first
    && (s.client.ClientStart? || s.client.ClientWait? ==>
          s.toClient != [] ==> s.toClient[0] == if c.ServerSigns() then c.Hello() else Other)
    && (s.client.ClientWait? ==> c.SignPk().Some?)
    // what the client has done
    && (s.client.ClientDone? ==> s.client.key == AgreedKey(c))
    && (!s.client.ClientDone? ==> s.toServer == [])
    // what the server can still read first
    && (s.client.ClientDone? && (s.server.ServerStart? || s.server.ServerWait?) ==>
          s.toServer != [] && FirstReply(c, s.toServer[0]))
    // what the server has done
    && (s.server.ServerStart? ==> s.toClient == [])
    && (s.server.ServerWait? ==> c.ServerSigns())
    && (s.server.ServerDone? && c.ServerSigns() ==> s.client.ClientDone?)
    && (s.server.ServerDone? ==> s.server.key == AgreedKey(c))
    && (s.keyConfirmed <==> !(s.server.ServerDone? && StaleKey(c)))
  }

  lemma StepKeepsInv(c: Config, s: State, step: Step)
    requires Inv(c, s) && Enabled(s, step)
    ensures Inv(c, Apply(c, s, step))
  {
  }

  lemma {:induction false} RunKeepsInv(c: Config, s: State, steps: seq<Step>)
    requires Inv(c, s) && Possible(c, s, steps)
    ensures Inv(c, Run(c, s, steps))
    decreases |steps|
  {
    if steps != [] {
      StepKeepsInv(c, s, steps[0]);
      RunKeepsInv(c, Apply(c, s, steps[0]), steps[1..]);
    }
  }

  /** Whatever the settings and the interleaving: when both ends have finished they hold
      the same key or both hold none. */
  lemma Agreement(c: Config, steps: seq<Step>)
    requires Possible(c, Initial(), steps)
    ensures var s := Run(c, Initial(), steps);
            s.client.ClientDone? && s.server.ServerDone? ==> s.client.key == s.server.key
  {
    RunKeepsInv(c, Initial(), steps);
  }

  /** A finished client is keyed exactly when the server signs, with the key the
      rendezvous server vouched for, the id the client asked for. */
  lemma KeyedExactlyWhen(c: Config, steps: seq<Step>)
    requires Possible(c, Initial(), steps) && Run(c, Initial(), steps).client.ClientDone?
    ensures Run(c, Initial(), steps).client.key.Some? <==>
            (c.secure && c.keysWellFormed && c.id == c.peerId && c.rsKey.Some?
             && c.signedIdPk == Some(SignedBy(c.rsKey.value, c.peerId, c.signKey)))
  {
    RunKeepsInv(c, Initial(), steps);
  }

  /** The server drops the confirmation of its key exactly when it finishes against a
      client that knows another signing key for it. */
  lemma ConfirmationDropped(c: Config, steps: seq<Step>)
    requires Possible(c, Initial(), steps)
    ensures var s := Run(c, Initial(), steps);
            !s.keyConfirmed <==> s.server.ServerDone? && StaleKey(c)
  {
    RunKeepsInv(c, Initial(), steps);
  }

  /** Between two honest ends the server never refuses an answer: it fails only when it
      gives up itself. */
  lemma {:induction false} NeverRefused(c: Config, s: State, steps: seq<Step>)
    requires Inv(c, s) && Possible(c, s, steps) && !s.server.ServerFailed? && ServerAbort !in steps
    ensures !Run(c, s, steps).server.ServerFailed?
    decreases |steps|
  {
    if steps != [] {
      StepKeepsInv(c, s, steps[0]);
      assert steps[0] in steps;
      NeverRefused(c, Apply(c, s, steps[0]), steps[1..]);
    }
  }

  /** No end takes later traffic for a message of the handshake. */
  predicate NextIsHandshake(s: State) {
    && (Enabled(s, ClientReceive) ==> s.toClient[0] != Other)
    && (Enabled(s, ServerReceive) ==> s.toServer[0] != Other)
  }

  ghost predicate NoTrafficLost(c: Config) {
    forall steps :: Possible(c, Initial(), steps) ==> NextIsHandshake(Run(c, Initial(), steps))
  }

  /** That holds exactly when the client knows no signing key of the peer or the server
      signs: a client that waits for a signed id swallows the first message of a server
      that sends none. */
  lemma NoTrafficLostExactly(c: Config)
    ensures NoTrafficLost(c) <==> c.SignPk().None? || c.ServerSigns()
  {
    if c.SignPk().None? || c.ServerSigns() {
      forall steps | Possible(c, Initial(), steps) ensures NextIsHandshake(Run(c, Initial(), steps)) {
        RunKeepsInv(c, Initial(), steps);
      }
    } else {
      TrafficSwallowed(c);
    }
  }

  lemma TrafficSwallowed(c: Config)
    requires c.SignPk().Some? && !c.ServerSigns()
    ensures var steps := [ClientBegin, ServerBegin, ServerTraffic];
            Possible(c, Initial(), steps) && !NextIsHandshake(Run(c, Initial(), steps))
  {
    var s1 := Apply(c, Initial(), ClientBegin);
    var s2 := Apply(c, s1, ServerBegin);
    RunOne(c, s2, ServerTraffic, []);
    RunOne(c, s1, ServerBegin, [ServerTraffic]);
    RunOne(c, Initial(), ClientBegin, [ServerBegin, ServerTraffic]);
  }

  lemma RunOne(c: Config, s: State, step: Step, rest: seq<Step>)
    requires Enabled(s, step) && Possible(c, Apply(c, s, step), rest)
    ensures Possible(c, s, [step] + rest) && Run(c, s, [step] + rest) == Run(c, Apply(c, s, step), rest)
  {
    assert ([step] + rest)[1..] == rest;
  }

  // Whatever the other end sends.

  /** A client that takes any message at all is keyed exactly when it is the id asked for,
      signed with the key vouched for; it then seals its key for the box key signed with it.
      To another signer it says so, to anything else it sends an empty message. */
  lemma ClientOutcome(c: Config, s: State)
    requires Enabled(s, ClientReceive) && c.SignPk().Some?
    ensures var m, t := s.toClient[0], Apply(c, s, ClientReceive);
            && t.client.ClientDone? && t.server == s.server
            && (t.client.key.Some? <==> exists pk :: m == SignedId(SignedBy(c.SignPk().value, c.peerId, pk)))
            && (t.client.key.Some? ==>
                  && t.client.key.value == c.symmetricKey
                  && t.toServer == s.toServer + [PublicKey(BoxKey(c.clientBox),
                                                           SealedKey(c.symmetricKey, c.clientBox, m.blob.pk))])
            && (t.client.key.None? ==>
                  t.toServer == s.toServer + [if m.SignedId? && (m.blob.Junk? || m.blob.signer != c.SignPk().value)
                                              then PublicKey(Absent, NoKey) else Empty])
  {
  }

  /** A server that takes any message at all is keyed exactly when it is a key sealed for
      it by the box key sent along, and then with that key; it gives up on a message it
      cannot parse, a box key of the wrong length and a sealed key that does not open; and
      only a missing box key costs it its confirmation. */
  lemma ServerOutcome(c: Config, s: State)
    requires Enabled(s, ServerReceive)
    ensures var m, t := s.toServer[0], Apply(c, s, ServerReceive);
            && (forall k :: t.server == ServerDone(Some(k)) <==>
                  exists from :: m == PublicKey(BoxKey(from), SealedKey(k, from, c.serverBox)))
            && (t.server.ServerFailed? <==>
                  || m.Malformed?
                  || (m.PublicKey? && m.asymmetric.WrongLength?)
                  || (m.PublicKey? && m.asymmetric.BoxKey?
                      && !exists k :: m.symmetric == SealedKey(k, m.asymmetric.k, c.serverBox)))
            && (t.server.ServerFailed? || t.server.ServerDone?)
            && t.keyConfirmed == (s.keyConfirmed && !(m.PublicKey? && m.asymmetric.Absent?))
            && t.client == s.client && t.toClient == s.toClient
  {
  }
}
