/** Shared passwords are not remembered: what holds over whole login histories. */
module LoginPasswordProofs {
  import opened Common
  import opened LoginPassword

  datatype Event =
    | Hash(env: Surroundings, salt: bytes)
    | LoginError(ofPassword: bool)
    | LoginFromUi(password: string, remember: bool)
    | PeerInfo

  function Next(digest: Digest, s: Login, e: Event): Login
  {
    match e
    case Hash(env, salt) => OnHash(digest, s, env, salt)
    case LoginError(ofPassword) => OnLoginError(s, ofPassword)
    case LoginFromUi(password, remember) => OnLoginFromUi(digest, s, password, remember)
    case PeerInfo => OnPeerInfo(digest, s)
  }

  function Run(digest: Digest, s: Login, events: seq<Event>): Login
    decreases |events|
  {
    if events == [] then s else Run(digest, Next(digest, s, events[0]), events[1..])
  }

  function FirstNonEmpty(candidates: seq<bytes>): bytes
  {
    if candidates == [] then []
    else if candidates[0] != [] then candidates[0]
    else FirstNonEmpty(candidates[1..])
  }

  function DigestOrNothing(digest: Digest, p: string, salt: bytes): bytes
  {
    if p == "" then [] else digest(p, salt)
  }

  /** Which password answers a hash: a shared one if there is one, else the first that is
      not empty of the last, the preset, the configured, the address book's and the
      built-in one; and a shared password is tried once only. */
  lemma Precedence(digest: Digest, s: Login, env: Surroundings, salt: bytes)
    requires Proper(digest) && s.switchUuid != Some(true)
    ensures var r := OnHash(digest, s, env, salt);
            && r.sharedPassword == None
            && r.password == if s.sharedPassword.Some? && s.sharedPassword.value != ""
                             then digest(s.sharedPassword.value, salt)
                             else FirstNonEmpty([s.password, DigestOrNothing(digest, env.preset, salt), s.configPassword,
                                                 if env.personalAb.Some? then env.personalAb.value else [],
                                                 DigestOrNothing(digest, env.builtin, salt)])
  {
    var last, preset, config := s.password, DigestOrNothing(digest, env.preset, salt), s.configPassword;
    var ab := if env.personalAb.Some? then env.personalAb.value else [];
    var builtin := DigestOrNothing(digest, env.builtin, salt);
    FirstOf(last, [preset, config, ab, builtin]);
    FirstOf(preset, [config, ab, builtin]);
    FirstOf(config, [ab, builtin]);
    FirstOf(ab, [builtin]);
    FirstOf(builtin, []);
    assert [last] + [preset, config, ab, builtin] == [last, preset, config, ab, builtin];
    assert [preset] + [config, ab, builtin] == [preset, config, ab, builtin];
    assert [config] + [ab, builtin] == [config, ab, builtin];
    assert [ab] + [builtin] == [ab, builtin];
    assert [builtin] + [] == [builtin];
  }

  lemma FirstOf(b: bytes, rest: seq<bytes>)
    ensures FirstNonEmpty([b] + rest) == if b != [] then b else FirstNonEmpty(rest)
  {
    assert ([b] + rest)[1..] == rest;
  }

  /** The source tells the truth about a shared password as long as the mark stands. */
  ghost predicate Honest(digest: Digest, s: Login) {
    s.origin.Shared? ==>
      && s.password == digest(s.origin.password, s.origin.salt)
      && s.source == if s.origin.marked then SharedAb(s.origin.password) else Undefined
  }

  lemma {:induction false} RunIsHonest(digest: Digest, s: Login, events: seq<Event>)
    requires Proper(digest) && Honest(digest, s)
    ensures Honest(digest, Run(digest, s, events))
    decreases |events|
  {
    if events != [] {
      RunIsHonest(digest, Next(digest, s, events[0]), events[1..]);
    }
  }

  /** Whether accepting the login writes the session password to the configuration. */
  predicate Saves(digest: Digest, s: Login) {
    s.password != s.configPassword && OnPeerInfo(digest, s).configPassword == s.password
  }

  /** After any history, a shared password that is not yet the configured one is saved
      exactly when the session is to be remembered and either a switch of sides has
      dropped the mark or the peer's salt now gives another digest. */
  lemma SavedExactly(digest: Digest, s0: Login, events: seq<Event>)
    requires Proper(digest) && Honest(digest, s0)
    ensures var s := Run(digest, s0, events);
            s.origin.Shared? && s.password != s.configPassword ==>
              (Saves(digest, s) <==>
               s.remember && (!s.origin.marked || digest(s.origin.password, s.salt) != digest(s.origin.password, s.origin.salt)))
  {
    RunIsHonest(digest, s0, events);
  }

  predicate FixedSalt(events: seq<Event>, salt: bytes) {
    forall i :: 0 <= i < |events| && events[i].Hash? ==> events[i].salt == salt
  }

  ghost predicate Ordinary(s: Login, salt: bytes) {
    && (s.origin.Shared? ==> s.origin.marked && s.origin.salt == salt && s.salt == salt)
    && s.switchUuid != Some(true)
  }

  lemma {:induction false} RunIsOrdinary(digest: Digest, s: Login, events: seq<Event>, salt: bytes)
    requires Proper(digest) && Honest(digest, s) && Ordinary(s, salt) && FixedSalt(events, salt)
    ensures Honest(digest, Run(digest, s, events)) && Ordinary(Run(digest, s, events), salt)
    decreases |events|
  {
    if events != [] {
      var s' := Next(digest, s, events[0]);
      RunIsHonest(digest, s, [events[0]]);
      assert Run(digest, s, [events[0]]) == s' by {
        assert [events[0]][1..] == [];
      }
      RunIsOrdinary(digest, s', events[1..], salt);
    }
  }

  /** With one salt and no switch of sides, a password of the shared address book or the
      built-in default is never written to the configuration, whether the session has its
      salt already or, begun from a token, first gets it. */
  lemma SharedNeverSaved(digest: Digest, s0: Login, events: seq<Event>, salt: bytes)
    requires Proper(digest) && Honest(digest, s0) && FixedSalt(events, salt)
    requires s0.switchUuid != Some(true) && (s0.origin.Shared? ==> s0.origin.marked && s0.origin.salt == salt)
    requires s0.salt == salt || (events != [] && events[0].Hash?)
    ensures var s := Run(digest, s0, events);
            s.origin.Shared? ==> OnPeerInfo(digest, s).configPassword == if s.remember then s.configPassword else []
  {
    if s0.salt == salt {
      RunIsOrdinary(digest, s0, events, salt);
    } else {
      var s1 := Next(digest, s0, events[0]);
      assert Honest(digest, s1) by {
        RunIsHonest(digest, s0, [events[0]]);
        assert [events[0]][1..] == [];
      }
      RunIsOrdinary(digest, s1, events[1..], salt);
    }
  }

  /** The salt matters: a shared login, a reconnect under another salt and an accepted
      login write the shared password over a remembered one. */
  lemma NewSaltSaves(digest: Digest, p: string, salt1: bytes, salt2: bytes, kept: bytes, env: Surroundings)
    requires Proper(digest) && p != "" && kept != []
    requires digest(p, salt1) != kept && digest(p, salt1) != digest(p, salt2)
    ensures var s0 := Login([], [], true, kept, Undefined, Some(p), None, NotShared);
            var s := Run(digest, s0, [Hash(env, salt1), Hash(env, salt2), PeerInfo]);
            s.origin == Shared(p, salt1, true) && s.configPassword == digest(p, salt1)
  {
    var s0 := Login([], [], true, kept, Undefined, Some(p), None, NotShared);
    var events := [Hash(env, salt1), Hash(env, salt2), PeerInfo];
    assert events[1..] == [Hash(env, salt2), PeerInfo];
    assert events[1..][1..] == [PeerInfo];
    var s1 := OnHash(digest, s0, env, salt1);
    var s2 := OnHash(digest, s1, env, salt2);
    assert Run(digest, s2, [PeerInfo]) == OnPeerInfo(digest, s2) by {
      assert [PeerInfo][1..] == [];
    }
  }

  /** So does a switch of sides: a session that goes on with the shared password of an
      earlier connection loses its mark, and the accepted login writes the password. */
  lemma SwitchSaves(digest: Digest, p: string, salt: bytes, kept: bytes, env: Surroundings)
    requires Proper(digest) && digest(p, salt) != kept
    ensures var s0 := Login([], digest(p, salt), true, kept, SharedAb(p), None, Some(true), Shared(p, salt, true));
            var s := Run(digest, s0, [Hash(env, salt), PeerInfo]);
            Honest(digest, s0) && s.origin == Shared(p, salt, false) && s.configPassword == digest(p, salt)
  {
    var s0 := Login([], digest(p, salt), true, kept, SharedAb(p), None, Some(true), Shared(p, salt, true));
    assert [Hash(env, salt), PeerInfo][1..] == [PeerInfo];
    var s1 := OnHash(digest, s0, env, salt);
    assert Run(digest, s1, [PeerInfo]) == OnPeerInfo(digest, s1) by {
      assert [PeerInfo][1..] == [];
    }
  }

  // Typed passwords, and what is remembered of the others.

  /** The salt of the last hash. */
  function LastSalt(s0: Login, events: seq<Event>): bytes
  {
    if events == [] then s0.salt
    else if events[|events| - 1].Hash? then events[|events| - 1].salt
    else LastSalt(s0, events[..|events| - 1])
  }

  /** What the user chose with the last password typed. */
  function LastChoice(s0: Login, events: seq<Event>): bool
  {
    if events == [] then s0.remember
    else
      var e := events[|events| - 1];
      if e.LoginFromUi? && e.password != "" then e.remember else LastChoice(s0, events[..|events| - 1])
  }

  lemma {:induction false} RunAppend(digest: Digest, s: Login, events: seq<Event>, e: Event)
    ensures Run(digest, s, events + [e]) == Next(digest, Run(digest, s, events), e)
    decreases |events|
  {
    if events == [] {
      assert [e][1..] == [];
    } else {
      assert (events + [e])[1..] == events[1..] + [e];
      RunAppend(digest, Next(digest, s, events[0]), events[1..], e);
    }
  }

  lemma {:induction false} SaltAndChoice(digest: Digest, s0: Login, events: seq<Event>)
    ensures Run(digest, s0, events).salt == LastSalt(s0, events)
    ensures Run(digest, s0, events).remember == LastChoice(s0, events)
    decreases |events|
  {
    if events != [] {
      var n := |events| - 1;
      SaltAndChoice(digest, s0, events[..n]);
      RunAppend(digest, s0, events[..n], events[n]);
      assert events == events[..n] + [events[n]];
    }
  }

  /** After any history a typed password is digested with the salt of the last hash; and
      if it is accepted it is remembered exactly when the user chose so. */
  lemma TypedIsAnswered(digest: Digest, s0: Login, events: seq<Event>, p: string, remember: bool)
    requires Proper(digest) && p != ""
    ensures var typed := events + [LoginFromUi(p, remember)];
            && Run(digest, s0, typed).password == digest(p, LastSalt(s0, events))
            && Run(digest, s0, typed).remember == remember
            && Run(digest, s0, typed + [PeerInfo]).configPassword
               == if remember then digest(p, LastSalt(s0, events)) else []
  {
    var typed := events + [LoginFromUi(p, remember)];
    SaltAndChoice(digest, s0, events);
    RunAppend(digest, s0, events, LoginFromUi(p, remember));
    RunAppend(digest, s0, typed, PeerInfo);
  }

  /** Nothing typed: the password in use, or else the remembered one; the earlier choice
      stands. */
  lemma UntypedIsAnswered(digest: Digest, s0: Login, events: seq<Event>, remember: bool)
    ensures var s, r := Run(digest, s0, events), Run(digest, s0, events + [LoginFromUi("", remember)]);
            && r.password == FirstNonEmpty([s.password, s.configPassword])
            && r.remember == LastChoice(s0, events)
  {
    var s := Run(digest, s0, events);
    SaltAndChoice(digest, s0, events);
    RunAppend(digest, s0, events, LoginFromUi("", remember));
    FirstOf(s.password, [s.configPassword]);
    FirstOf(s.configPassword, []);
    assert [s.password] + [s.configPassword] == [s.password, s.configPassword];
    assert [s.configPassword] + [] == [s.configPassword];
  }

  /** What an accepted login leaves in the configuration when the hash found no password in
      use. A shared one is not written; a preset one is if the session is remembered; the
      configured one stays then; the personal address book's is written in either case,
      as there is no other; the built-in one never is. Not remembered, the rest is erased. */
  lemma HashIsRemembered(digest: Digest, s: Login, env: Surroundings, salt: bytes)
    requires Proper(digest) && s.password == [] && s.switchUuid != Some(true)
    ensures var after := Run(digest, s, [Hash(env, salt), PeerInfo]).configPassword;
            var personal := if env.personalAb.Some? then env.personalAb.value else [];
            && (s.sharedPassword.Some? && s.sharedPassword.value != "" ==> after == if s.remember then s.configPassword else [])
            && (!(s.sharedPassword.Some? && s.sharedPassword.value != "") ==>
                  && (env.preset != "" ==> after == if s.remember then digest(env.preset, salt) else [])
                  && (env.preset == "" && s.configPassword != [] ==> after == if s.remember then s.configPassword else [])
                  && (env.preset == "" && s.configPassword == [] ==> after == personal))
  {
    var s1 := OnHash(digest, s, env, salt);
    assert [Hash(env, salt), PeerInfo][1..] == [PeerInfo];
    assert Run(digest, s1, [PeerInfo]) == OnPeerInfo(digest, s1) by {
      assert [PeerInfo][1..] == [];
    }
  }

  /** In whatever state: an accepted login leaves the session's password in the
      configuration, unless it is empty or that of the shared address book, when the
      session is remembered; otherwise only the personal address book's. */
  lemma AcceptedExactly(digest: Digest, s: Login)
    ensures var shared := s.source.SharedAb? && digest(s.source.password, s.salt) == s.password;
            var personal := s.source == PersonalAb(s.password);
            OnPeerInfo(digest, s).configPassword ==
            if s.password == [] then (if s.remember then s.configPassword else [])
            else if s.remember then (if shared then s.configPassword else s.password)
            else if personal then s.password else []
  {
  }

  /** A password error forgets the password and nothing else, so that the next hash looks
      for another; other errors forget nothing. */
  lemma ErrorForgets(digest: Digest, s0: Login, events: seq<Event>)
    ensures var s := Run(digest, s0, events);
            && Run(digest, s0, events + [LoginError(true)]) == s.(password := [], origin := NotShared)
            && Run(digest, s0, events + [LoginError(false)]) == s
  {
    RunAppend(digest, s0, events, LoginError(true));
    RunAppend(digest, s0, events, LoginError(false));
  }

  /** A session that takes over from the other side answers with its token: the password
      stays, with no source, and the offer is used up. */
  lemma SwitchMeaning(digest: Digest, s: Login, env: Surroundings, salt: bytes)
    requires s.switchUuid == Some(true)
    ensures var r := OnHash(digest, s, env, salt);
            && r.switchUuid == None && r.salt == salt && r.password == s.password && r.source == Undefined
            && r.sharedPassword == s.sharedPassword && r.remember == s.remember && r.configPassword == s.configPassword
  {
  }
}
