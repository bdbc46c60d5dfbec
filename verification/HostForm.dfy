/** The other form of the name: comma-separated `host=`, `key=`, `api=` and `relay=`. */
module HostForm {
  import opened Common
  import opened LicenceJson
  import opened Text
  import opened FileName

  lemma SplitToken(token: string, rest: string)
    requires ',' !in token
    ensures Split(token + "," + rest, ",") == [token] + Split(rest, ",")
  {
    assert token + "," + rest == token + ("," + rest);
    UnmatchedByFirst(token, "," + rest, ",");
    SplitSkips(token, "," + rest, ",");
    SplitHit(rest, ",");
    assert token + "" == token;
  }

  // What the tokens mean.

  const CAPITALS := "ABCDEFGHIJKLMNOPQRSTUVWXYZ"
  const SMALLS := "abcdefghijklmnopqrstuvwxyz"

  /** `c` is the small letter or other character `low`, or the capital of it. */
  predicate SameLetter(c: char, low: char) {
    c == low || exists i :: 0 <= i < 26 && c == CAPITALS[i] && low == SMALLS[i]
  }

  /** The token begins with the tag, in whatever case. */
  predicate Carries(token: string, tag: string) {
    |token| >= |tag| && forall i :: 0 <= i < |tag| ==> SameLetter(token[i], tag[i])
  }

  /** Token `k` is the last that carries the tag; -1 stands for none. */
  predicate IsLast(tokens: seq<string>, tag: string, k: int) {
    && -1 <= k < |tokens| && (k >= 0 ==> Carries(tokens[k], tag))
    && forall j :: k < j < |tokens| ==> !Carries(tokens[j], tag)
  }

  /** The value behind the last token that carries the tag, or nothing without one. */
  ghost predicate IsField(tokens: seq<string>, tag: string, value: string) {
    exists k :: IsLast(tokens, tag, k) && value == if k < 0 then "" else tokens[k][|tag|..]
  }

  lemma CapitalOf(c: char)
    ensures 'A' <= c <= 'Z' ==> 0 <= (c - 'A') as int < 26 && CAPITALS[(c - 'A') as int] == c
                                && SMALLS[(c - 'A') as int] == c - 'A' + 'a'
    ensures forall i :: 0 <= i < 26 && CAPITALS[i] == c ==> 'A' <= c <= 'Z' && i == (c - 'A') as int
  {
  }

  /** Lower-casing turns each capital into its small letter and keeps the rest. */
  lemma LowerMeaning(s: string, i: nat)
    requires i < |s|
    ensures forall j :: 0 <= j < 26 && s[i] == CAPITALS[j] ==> Lower(s)[i] == SMALLS[j]
    ensures s[i] !in CAPITALS ==> Lower(s)[i] == s[i]
  {
    CapitalOf(s[i]);
  }

  predicate Small(tag: string) {
    forall i :: 0 <= i < |tag| ==> !('A' <= tag[i] <= 'Z')
  }

  lemma CarriesIsLower(token: string, tag: string)
    requires Small(tag)
    ensures Carries(token, tag) <==> tag <= Lower(token)
  {
    if |token| >= |tag| {
      forall i | 0 <= i < |tag| ensures SameLetter(token[i], tag[i]) <==> Lower(token)[i] == tag[i] {
        CapitalOf(token[i]);
      }
      assert tag <= Lower(token) <==> forall i :: 0 <= i < |tag| ==> Lower(token)[i] == tag[i];
    }
  }

  lemma {:induction false} FieldMeaning(tokens: seq<string>, tag: string) returns (k: int)
    requires Small(tag)
    ensures IsLast(tokens, tag, k) && LastField(tokens, tag) == if k < 0 then "" else tokens[k][|tag|..]
  {
    if tokens == [] {
      k := -1;
    } else {
      var n := |tokens| - 1;
      CarriesIsLower(tokens[n], tag);
      if Carries(tokens[n], tag) {
        k := n;
      } else {
        k := FieldMeaning(tokens[..n], tag);
        assert forall j :: 0 <= j < n ==> tokens[..n][j] == tokens[j];
      }
    }
  }

  /** The token loop, for every list of tokens: each field is what stands behind the last
      token that carries its tag, in any letter case, and empty when none does. */
  lemma TokensMeaning(tokens: seq<string>)
    ensures var r := FromTokens(tokens);
            && IsField(tokens, "host=", r.host) && IsField(tokens, "key=", r.key)
            && IsField(tokens, "api=", r.api) && IsField(tokens, "relay=", r.relay)
  {
    SmallTags();
    FieldOfTag(tokens, "host=");
    FieldOfTag(tokens, "key=");
    FieldOfTag(tokens, "api=");
    FieldOfTag(tokens, "relay=");
  }

  lemma SmallTags()
    ensures Small("host=") && Small("key=") && Small("api=") && Small("relay=")
  {
  }

  lemma FieldOfTag(tokens: seq<string>, tag: string)
    requires Small(tag)
    ensures IsField(tokens, tag, LastField(tokens, tag))
  {
    var k := FieldMeaning(tokens, tag);
  }

  // What one more token does to the field found so far.

  lemma TagFound(tokens: seq<string>, tag: string, value: string)
    requires Lower(tag) == tag
    ensures LastField(tokens + [tag + value], tag) == value
  {
    LowerConcat(tag, value);
  }

  lemma TagSkipped(tokens: seq<string>, token: string, tag: string)
    requires tag != "" && (token == "" || Lower(token)[0] != tag[0])
    ensures LastField(tokens + [token], tag) == LastField(tokens, tag)
  {
    assert (tokens + [token])[..|tokens|] == tokens;
  }

  lemma FiveTokens(host: string, key: string, api: string, relay: string)
    ensures FromTokens(["host=" + host, "key=" + key, "api=" + api, "relay=" + relay, ""])
         == CustomServer(key, host, api, relay)
  {
    var h, k, a, r := "host=" + host, "key=" + key, "api=" + api, "relay=" + relay;
    var t1: seq<string> := [] + [h];
    var t2 := t1 + [k];
    var t3 := t2 + [a];
    var t4 := t3 + [r];
    var t5 := t4 + [""];
    assert t5 == [h, k, a, r, ""];
    TagFound([], "host=", host);
    TagFound(t1, "key=", key);
    TagFound(t2, "api=", api);
    TagFound(t3, "relay=", relay);
    TagSkipped(t1, k, "host=");
    TagSkipped(t2, a, "host=");
    TagSkipped(t3, r, "host=");
    TagSkipped(t4, "", "host=");
    TagSkipped(t2, a, "key=");
    TagSkipped(t3, r, "key=");
    TagSkipped(t4, "", "key=");
    TagSkipped(t3, r, "api=");
    TagSkipped(t4, "", "api=");
    TagSkipped(t4, "", "relay=");
  }

  lemma {:induction false} FieldLacksComma(tokens: seq<string>, tag: string)
    requires forall i :: 0 <= i < |tokens| ==> ',' !in tokens[i]
    ensures ',' !in LastField(tokens, tag)
  {
    if tokens != [] {
      FieldLacksComma(tokens[..|tokens| - 1], tag);
    }
  }

  function Listing(lic: CustomServer): string
  {
    "host=" + lic.host + "," + ("key=" + lic.key + "," + ("api=" + lic.api + "," + ("relay=" + lic.relay + "," + "")))
  }

  /** The extension goes, unless the list ends in another. */
  lemma ExeStripped(s: string, list: string)
    requires s == "rustdesk-" + list && !EndsWith(Lower(list), ".exe")
    ensures StripExe(s + ".exe") == s
  {
    var l, k := Lower(s + ".exe"), Lower(s);
    LowerConcat(s, ".exe");
    LowerConcat("rustdesk-", list);
    assert Lower(".exe") == ".exe";
    assert l == k + ".exe" && l[|l| - 4..] == ".exe";
    assert EndsWith(l, ".exe.exe") ==> k[|k| - 4..] == l[|l| - 8..][..4] == ".exe";
    NoSecondExe(k, Lower(list));
  }

  lemma NoSecondExe(k: string, low: string)
    requires k == Lower("rustdesk-") + low && !EndsWith(low, ".exe")
    ensures |k| >= 4 && k[|k| - 4..] != ".exe"
  {
    if |low| >= 4 {
      assert k[|k| - 4..] == low[|low| - 4..];
    } else {
      assert Lower("rustdesk-") == "rustdesk-";
      assert k[|k| - 4..][0] == "rustdesk-"[|k| - 4] != '.';
    }
  }

  lemma TagInFront(list: string)
    requires Carries(list, "host=")
    ensures IndexOf(Lower(list), "host=") == Some(0)
  {
    CarriesIsLower(list, "host=");
  }

  lemma HostFound(list: string)
    requires Carries(list, "host=")
    ensures IndexOf(Lower("rustdesk-" + list), "host=") == Some(9)
  {
    var head, low := Lower("rustdesk-"), Lower(list);
    TagInFront(list);
    LowerConcat("rustdesk-", list);
    assert 'h' !in head by {
      assert head == "rustdesk-";
    }
    UnmatchedByFirst(head, low, "host=");
    IndexOfSkips(head, low, "host=");
  }

  lemma ListingParses(f: Foreign, list: string)
    requires Carries(list, "host=") && !EndsWith(Lower(list), ".exe")
    ensures ParseName(f, "rustdesk-" + list + ".exe") == Some(FromTokens(Split(list, ",")))
  {
    var s := "rustdesk-" + list;
    ExeStripped(s, list);
    HostFound(list);
    assert s[9..] == list;
  }

  /** A name that lists tokens, the first of which carries `host=`, in any order and letter
      case, with or without a closing comma (an empty last token): the parser returns what
      the tokens say. */
  lemma ListedTokens(f: Foreign, tokens: seq<string>)
    requires tokens != [] && Carries(tokens[0], "host=")
    requires forall i :: 0 <= i < |tokens| ==> ',' !in tokens[i]
    requires !EndsWith(Lower(Join(tokens, ",")), ".exe")
    ensures var r := ParseName(f, "rustdesk-" + Join(tokens, ",") + ".exe");
            && r.Some?
            && IsField(tokens, "host=", r.value.host) && IsField(tokens, "key=", r.value.key)
            && IsField(tokens, "api=", r.value.api) && IsField(tokens, "relay=", r.value.relay)
  {
    var list := Join(tokens, ",");
    assert tokens[0] <= list;
    assert forall i :: 0 <= i < 5 ==> list[i] == tokens[0][i];
    ListingParses(f, list);
    SplitJoin(tokens, ',');
    TokensMeaning(tokens);
  }

  /** In particular for a host alone, with and without the comma. */
  lemma HostAlone(f: Foreign, host: string)
    requires ',' !in host && !EndsWith(Lower("host=" + host), ".exe")
    ensures ParseName(f, "rustdesk-" + ("host=" + host) + ".exe") == Some(CustomServer("", host, "", ""))
    ensures ParseName(f, "rustdesk-" + ("host=" + host + ",") + ".exe") == Some(CustomServer("", host, "", ""))
  {
    var t := "host=" + host;
    HostTokens(f, t, host, [t]);
    assert Join([t], ",") == t;
    var l := Lower(t + ",");
    assert l[|l| - 1] == ',';
    var u := [t, ""];
    assert u[1..] == [""];
    assert Join(u, ",") == t + ",";
    HostTokens(f, t, host, u);
  }

  lemma HostTokens(f: Foreign, t: string, host: string, tokens: seq<string>)
    requires t == "host=" + host && ',' !in host && (tokens == [t] || tokens == [t, ""])
    requires !EndsWith(Lower(Join(tokens, ",")), ".exe")
    ensures ParseName(f, "rustdesk-" + Join(tokens, ",") + ".exe") == Some(CustomServer("", host, "", ""))
  {
    OneToken(tokens, host);
    ListedTokens(f, tokens);
  }

  lemma OneToken(tokens: seq<string>, host: string)
    requires |tokens| > 0 && tokens[0] == "host=" + host && (forall i :: 0 < i < |tokens| ==> tokens[i] == "")
    ensures forall v :: IsField(tokens, "host=", v) ==> v == host
    ensures forall v :: IsField(tokens, "key=", v) || IsField(tokens, "api=", v) || IsField(tokens, "relay=", v) ==> v == ""
  {
    var t := tokens[0];
    assert Carries(t, "host=") && t[5..] == host;
    assert !Carries(t, "key=") && !Carries(t, "api=") && !Carries(t, "relay=") by {
      assert t[0] == 'h' && !SameLetter('h', 'k') && !SameLetter('h', 'a') && !SameLetter('h', 'r');
    }
  }

  lemma ListingSplits(lic: CustomServer)
    requires HasNoComma(lic)
    ensures Split(Listing(lic), ",")
         == ["host=" + lic.host, "key=" + lic.key, "api=" + lic.api, "relay=" + lic.relay, ""]
  {
    var r := "relay=" + lic.relay + "," + "";
    var a := "api=" + lic.api + "," + r;
    var k := "key=" + lic.key + "," + a;
    SplitToken("host=" + lic.host, k);
    SplitToken("key=" + lic.key, a);
    SplitToken("api=" + lic.api, r);
    SplitToken("relay=" + lic.relay, "");
  }

  predicate HasNoComma(lic: CustomServer) {
    ',' !in lic.host && ',' !in lic.key && ',' !in lic.api && ',' !in lic.relay
  }

  /** A name that lists the four values is read back to them exactly when no value
      contains a comma. */
  lemma HostFormExact(f: Foreign, lic: CustomServer)
    ensures ParseName(f, "rustdesk-" + Listing(lic) + ".exe") == Some(lic) <==> HasNoComma(lic)
  {
    var tokens := Split(Listing(lic), ",");
    var low := Lower(Listing(lic));
    assert Listing(lic)[|low| - 1] == ',' && low[|low| - 1] == ',';
    assert Carries(Listing(lic), "host=");
    ListingParses(f, Listing(lic));
    if HasNoComma(lic) {
      ListingSplits(lic);
      FiveTokens(lic.host, lic.key, lic.api, lic.relay);
    } else {
      PiecesLack(Listing(lic), ',');
      FieldLacksComma(tokens, "host=");
      FieldLacksComma(tokens, "key=");
      FieldLacksComma(tokens, "api=");
      FieldLacksComma(tokens, "relay=");
    }
  }
}
