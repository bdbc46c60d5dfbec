/** The licence embedded in an executable's name: `gen_name` of naming.rs writes it,
    `get_custom_server_from_string` of custom_server.rs reads it back. */
module FileName {
  import opened Common
  import opened LicenceJson
  import opened Base64Url
  import opened Text

  /** The code called but not shown: serde's reader and sodium's signature check. */
  datatype Foreign = Foreign(fromJson: bytes -> Option<CustomServer>, verify: bytes -> Option<bytes>)

  predicate JsonSpace(b: byte) {
    b == 9 || b == 10 || b == 13 || b == 32
  }

  /** What is asked of the foreign code: the JSON reader agrees with `Read` wherever
      `Read` accepts, refuses a text that cannot begin a record, refuses anything but
      white space behind a record; and a signed message is at least a signature long. */
  ghost predicate Lawful(f: Foreign) {
    && (forall d {:trigger f.fromJson(d)} :: Read(d).Some? ==> f.fromJson(d) == Read(d))
    && (forall d {:trigger f.fromJson(d)} :: d != [] && !JsonSpace(d[0]) && d[0] != 123 && d[0] != 91 ==> f.fromJson(d).None?)
    && (forall d, n {:trigger Read(d[..n])} :: 0 <= n < |d| && Read(d[..n]).Some? && !JsonSpace(d[n]) ==> f.fromJson(d).None?)
    && (forall d {:trigger f.verify(d)} :: |d| < 64 ==> f.verify(d).None?)
  }

  // The printer.

  function GenName(lic: CustomServer): string
  {
    Reverse(EncodeText(Print(lic)))
  }

  // The parser.

  function ConfigString(f: Foreign, s: string): Option<CustomServer>
  {
    match DecodeText(Reverse(s))
    case None => None
    case Some(data) =>
      match f.fromJson(data)
      case Some(lic) => Some(lic)
      case None =>
        match f.verify(data)
        case Some(signed) => f.fromJson(signed)
        case None => None
  }

  function StripExe(s: string): string
  {
    if EndsWith(Lower(s), ".exe.exe") then s[..|s| - 8]
    else if EndsWith(Lower(s), ".exe") then s[..|s| - 4]
    else s
  }

  /** The value of the last token that carries the tag, in any letter case. */
  function LastField(tokens: seq<string>, tag: string): string
  {
    if tokens == [] then ""
    else
      var last := tokens[|tokens| - 1];
      if tag <= Lower(last) then last[|tag|..] else LastField(tokens[..|tokens| - 1], tag)
  }

  function FromTokens(tokens: seq<string>): CustomServer
  {
    CustomServer(LastField(tokens, "key="), LastField(tokens, "host="),
                 LastField(tokens, "api="), LastField(tokens, "relay="))
  }

  function Unlicensed(s: string): string
  {
    Replace(Replace(Replace(s, "-licensed---", "--"), "-licensed--", "--"), "-licensed-", "--")
  }

  /** The licence of the first piece that holds one. */
  function FirstPlain(f: Foreign, pieces: seq<string>): Option<CustomServer>
  {
    if pieces == [] then None
    else match ConfigString(f, Trim(pieces[0]))
      case Some(lic) => Some(lic)
      case None => FirstPlain(f, pieces[1..])
  }

  function FragmentLicence(f: Foreign, s: string): Option<CustomServer>
  {
    match ConfigString(f, Trim(s))
    case Some(lic) => Some(lic)
    case None => if Contains(s, "(") then FirstPlain(f, Split(s, "(")) else None
  }

  function FirstLicence(f: Foreign, fragments: seq<string>): Option<CustomServer>
  {
    if fragments == [] then None
    else match FragmentLicence(f, fragments[0])
      case Some(lic) => Some(lic)
      case None => FirstLicence(f, fragments[1..])
  }

  function ParseName(f: Foreign, name: string): Option<CustomServer>
  {
    var s := StripExe(name);
    match IndexOf(Lower(s), "host=")
    case Some(at) => Some(FromTokens(Split(s[at..], ",")))
    case None => FirstLicence(f, Split(Unlicensed(s), "--"))
  }

  method ReadTokens(strs: seq<string>) returns (r: CustomServer)
    ensures r == FromTokens(strs)
  {
    var host, key, api, relay := "", "", "", "";
    for i := 0 to |strs|
      invariant host == LastField(strs[..i], "host=") && key == LastField(strs[..i], "key=")
      invariant api == LastField(strs[..i], "api=") && relay == LastField(strs[..i], "relay=")
    {
      var el := strs[i];
      var elLower := Lower(el);
      assert strs[..i + 1][..i] == strs[..i];
      if "host=" <= elLower { host := el[5..]; }
      if "key=" <= elLower { key := el[4..]; }
      if "api=" <= elLower { api := el[4..]; }
      if "relay=" <= elLower { relay := el[6..]; }
    }
    assert strs[..|strs|] == strs;
    r := CustomServer(key, host, api, relay);
  }

  method ReadFragments(f: Foreign, strs: seq<string>) returns (r: Option<CustomServer>)
    ensures r == FirstLicence(f, strs)
  {
    for i := 0 to |strs|
      invariant FirstLicence(f, strs) == FirstLicence(f, strs[i..])
    {
      assert strs[i..][1..] == strs[i + 1..];
      var lic := ConfigString(f, Trim(strs[i]));
      if lic.Some? {
        return lic;
      } else if Contains(strs[i], "(") {
        var parts := Split(strs[i], "(");
        for j := 0 to |parts|
          invariant FirstPlain(f, parts) == FirstPlain(f, parts[j..])
        {
          assert parts[j..][1..] == parts[j + 1..];
          var lic' := ConfigString(f, Trim(parts[j]));
          if lic'.Some? {
            return lic';
          }
        }
      }
    }
    return None;
  }

  method GetCustomServerFromString(f: Foreign, name: string) returns (r: Option<CustomServer>)
    ensures r == ParseName(f, name)
  {
    var s := name;
    if EndsWith(Lower(name), ".exe.exe") {
      s := name[..|name| - 8];
    } else if EndsWith(Lower(name), ".exe") {
      s := name[..|name| - 4];
    }
    var at := IndexOf(Lower(s), "host=");
    if at.Some? {
      var lic := ReadTokens(Split(s[at.value..], ","));
      return Some(lic);
    }
    r := ReadFragments(f, Split(Unlicensed(s), "--"));
  }
}
