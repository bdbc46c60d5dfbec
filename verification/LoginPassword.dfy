/** Where a session's password comes from and whether it is remembered: the login steps
    of client.rs. SHA-256 of a password and a salt is the parameter `digest`. */
module LoginPassword {
  import opened Common

  type Digest = (string, bytes) -> bytes

  datatype PasswordSource = PersonalAb(hash: bytes) | SharedAb(password: string) | Undefined

  /** History: the session password is the digest of a shared password under a salt;
      `marked` falls when a switch of sides resets the source but keeps the password. */
  datatype Origin = Shared(password: string, salt: bytes, marked: bool) | NotShared

  datatype Login = Login(
    salt: bytes,
    password: bytes,
    remember: bool,
    configPassword: bytes,
    source: PasswordSource,
    sharedPassword: Option<string>,
    switchUuid: Option<bool>,      // whether the uuid parses
    origin: Origin
  )

  /** What the surroundings supply when the peer's hash arrives. */
  datatype Surroundings = Surroundings(preset: string, personalAb: Option<bytes>, builtin: string)

  ghost predicate Proper(digest: Digest) {
    forall p, salt :: digest(p, salt) != []
  }

  predicate IsPersonalAb(source: PasswordSource, password: bytes) {
    password != [] && source.PersonalAb? && source.hash == password
  }

  predicate IsSharedAb(digest: Digest, source: PasswordSource, password: bytes, salt: bytes) {
    password != [] && source.SharedAb? && digest(source.password, salt) == password
  }

  /** A password with where it comes from, as the candidates are tried in turn. */
  datatype Choice = Choice(password: bytes, source: PasswordSource, origin: Origin) {
    function OrPreset(digest: Digest, preset: string, salt: bytes): Choice
    {
      if password == [] && preset != "" then Choice(digest(preset, salt), Undefined, NotShared) else this
    }

    function OrElse(p: bytes, s: PasswordSource): Choice
    {
      if password == [] && p != [] then Choice(p, s, NotShared) else this
    }

    function OrBuiltin(digest: Digest, p: string, salt: bytes): Choice
    {
      if password == [] && p != "" then this.Sharing(digest, p, salt) else this
    }

    function Sharing(digest: Digest, p: string, salt: bytes): Choice
    {
      Choice(digest(p, salt), SharedAb(p), Shared(p, salt, true))
    }
  }

  function OnHash(digest: Digest, s: Login, env: Surroundings, salt: bytes): Login
  {
    var s := s.(salt := salt);
    if s.switchUuid == Some(true) then
      s.(switchUuid := None, source := Undefined,
         origin := if s.origin.Shared? then s.origin.(marked := false) else NotShared)
    else
      var c := Choice(s.password, s.source, s.origin).OrPreset(digest, env.preset, salt);
      var c := if s.sharedPassword.Some? && s.sharedPassword.value != ""
               then c.Sharing(digest, s.sharedPassword.value, salt) else c;
      var c := c.OrElse(s.configPassword, Undefined);
      var c := if env.personalAb.Some? then c.OrElse(env.personalAb.value, PersonalAb(env.personalAb.value)) else c;
      var c := c.OrBuiltin(digest, env.builtin, salt);
      s.(switchUuid := None, sharedPassword := None, password := c.password, source := c.source, origin := c.origin)
  }

  /** An error of the password clears it; other errors leave it. */
  function OnLoginError(s: Login, ofPassword: bool): Login
  {
    if ofPassword then s.(password := [], origin := NotShared) else s
  }

  function OnLoginFromUi(digest: Digest, s: Login, password: string, remember: bool): Login
  {
    if password != "" then
      s.(source := Undefined, remember := remember, password := digest(password, s.salt), origin := NotShared)
    else
      var c := Choice(s.password, s.source, s.origin).OrElse(s.configPassword, Undefined);
      s.(password := c.password, source := c.source, origin := c.origin)
  }

  function OnPeerInfo(digest: Digest, s: Login): Login
  {
    if s.remember then
      if s.password != [] && s.password != s.configPassword && !IsSharedAb(digest, s.source, s.password, s.salt)
      then s.(configPassword := s.password) else s
    else
      if IsPersonalAb(s.source, s.password) then s.(configPassword := s.password)
      else s.(configPassword := [])
  }

  class LoginConfigHandler {
    const digest: Digest
    var salt: bytes
    var password: bytes
    var remember: bool
    var configPassword: bytes
    var passwordSource: PasswordSource
    var sharedPassword: Option<string>
    var switchUuid: Option<bool>
    ghost var origin: Origin

    ghost function Value(): Login
      reads this
    {
      Login(salt, password, remember, configPassword, passwordSource, sharedPassword, switchUuid, origin)
    }

    /** `initialize`, without a token of an earlier connection. */
    constructor (digest: Digest, configPassword: bytes, sharedPassword: Option<string>, switchUuid: Option<bool>)
      ensures this.digest == digest
      ensures Value() == Login([], [], configPassword != [], configPassword, Undefined, sharedPassword, switchUuid, NotShared)
    {
      this.digest := digest;
      salt, password := [], [];
      remember := configPassword != [];
      this.configPassword := configPassword;
      passwordSource := Undefined;
      this.sharedPassword := sharedPassword;
      this.switchUuid := switchUuid;
      origin := NotShared;
    }

    method HandleHash(env: Surroundings, hashSalt: bytes)
      modifies this
      ensures Value() == OnHash(digest, old(Value()), env, hashSalt)
    {
      salt := hashSalt;
      var uuid := switchUuid;
      switchUuid := None;
      if uuid == Some(true) {
        passwordSource := Undefined;
        origin := if origin.Shared? then origin.(marked := false) else NotShared;
        return;
      }
      var pw := TryGiven(password, env.preset);
      pw := TryStored(pw, env.personalAb);
      // built-in default
      if pw == [] {
        if env.builtin != "" {
          pw := digest(env.builtin, salt);
          passwordSource := SharedAb(env.builtin);
          origin := Shared(env.builtin, salt, true);
        }
      }
      password := pw;
    }

    /** The last password, else the preset one; a shared one overrides both. */
    method TryGiven(last: bytes, preset: string) returns (pw: bytes)
      modifies this`passwordSource, this`origin, this`sharedPassword
      ensures sharedPassword == None
      ensures var c := Choice(last, old(passwordSource), old(origin)).OrPreset(digest, preset, salt);
              var shared := old(sharedPassword);
              Choice(pw, passwordSource, origin) ==
              if shared.Some? && shared.value != "" then c.Sharing(digest, shared.value, salt) else c
    {
      pw := last;
      if pw == [] {
        if preset != "" {
          pw := digest(preset, salt);
          passwordSource := Undefined;
          origin := NotShared;
        }
      }
      var shared := sharedPassword;
      sharedPassword := None;
      if shared.Some? && shared.value != "" {
        pw := digest(shared.value, salt);
        passwordSource := SharedAb(shared.value);
        origin := Shared(shared.value, salt, true);
      }
    }

    /** Else the peer's configured password, else the personal address book's. */
    method TryStored(given: bytes, personalAb: Option<bytes>) returns (pw: bytes)
      modifies this`passwordSource, this`origin
      ensures var c := Choice(given, old(passwordSource), old(origin)).OrElse(configPassword, Undefined);
              Choice(pw, passwordSource, origin) ==
              if personalAb.Some? then c.OrElse(personalAb.value, PersonalAb(personalAb.value)) else c
    {
      pw := given;
      if pw == [] {
        pw := configPassword;
        if pw != [] {
          passwordSource := Undefined;
          origin := NotShared;
        }
      }
      if pw == [] && personalAb.Some? && personalAb.value != [] {
        pw := personalAb.value;
        passwordSource := PersonalAb(pw);
        origin := NotShared;
      }
    }

    method HandleLoginError(ofPassword: bool)
      modifies this
      ensures Value() == OnLoginError(old(Value()), ofPassword)
    {
      if ofPassword {
        password := [];
        origin := NotShared;
      }
    }

    method HandleLoginFromUi(typed: string, rememberIt: bool)
      modifies this
      ensures Value() == OnLoginFromUi(digest, old(Value()), typed, rememberIt)
    {
      var hashPassword: bytes;
      if typed == "" {
        hashPassword := password;
        if hashPassword == [] {
          hashPassword := configPassword;
          if hashPassword != [] {
            passwordSource := Undefined;
            origin := NotShared;
          }
        }
      } else {
        passwordSource := Undefined;
        hashPassword := digest(typed, salt);
        remember := rememberIt;
        origin := NotShared;
      }
      password := hashPassword;
    }

    method HandlePeerInfo()
      modifies this`configPassword
      ensures Value() == OnPeerInfo(digest, old(Value()))
    {
      if remember {
        if password != [] && password != configPassword && !IsSharedAb(digest, passwordSource, password, salt) {
          configPassword := password;
        }
      } else {
        if IsPersonalAb(passwordSource, password) {
          configPassword := password;
        } else if configPassword != [] {
          configPassword := [];
        }
      }
    }
  }
}
