/** What the printer and the parser of the licence name promise together. */
module FileNameProofs {
  import opened Common
  import opened LicenceJson
  import opened Base64Url
  import opened Text
  import opened FileName

  /** The laws asked of the foreign code can be met: the reader of `LicenceJson` and a
      check that accepts no signature meet them. */
  lemma LawsCanBeMet()
    ensures Lawful(Foreign(d => Read(d), d => None))
  {
    forall d: bytes, n | 0 <= n < |d| && Read(d[..n]).Some? ensures Read(d).None? {
      NothingBehindRecord(d[..n], d[n..]);
      assert d == d[..n] + d[n..];
    }
  }

  // The payload.

  /** The shape of a generated name on which the cutting of the file name relies:
      dashes stand a multiple of four apart, none at the ends, and the last two
      characters cannot be part of a marker. */
  ghost predicate Payload(p: string) {
    && |p| >= 4 && InAlphabet(p)
    && p[0] != '-' && p[0] != 'l'
    && p[|p| - 2] == 'y' && p[|p| - 1] == 'e'
    && forall i, j :: 0 <= i < j < |p| && p[i] == '-' && p[j] == '-' ==> (j - i) % 4 == 0
  }

  /** The end sextets of an encoding that begins with `{"k` and ends with `}`. */
  lemma EndSextets(d: bytes)
    requires |d| >= 3 && d[..3] == [123, 34, 107] && d[|d| - 1] == 125
    ensures var t := Encode(d); |t| >= 4 && t[0] == 30 && t[1] == 50 && t[|t| - 1] in [61, 16, 52]
  {
    assert d[0] == d[..3][0] && d[1] == d[..3][1];
    LastSextet(d);
  }

  lemma DashesInText(d: bytes)
    requires AsciiBytes(d)
    ensures var t := EncodeText(d); forall k :: 0 <= k < |t| && t[k] == '-' ==> k % 4 == 3
  {
    var t := EncodeText(d);
    forall k | 0 <= k < |t| && t[k] == '-' ensures k % 4 == 3 {
      CharRoundTrip(Encode(d)[k]);
      DashPlaces(d, k);
    }
  }

  /** The generated name of an ASCII licence is such a payload. */
  lemma GenNameIsPayload(lic: CustomServer)
    requires Ascii(lic)
    ensures Payload(GenName(lic))
  {
    var d := Print(lic);
    var t := EncodeText(d);
    PrintedShape(lic);
    EndSextets(d);
    DashesInText(d);
    FromToText(Encode(d));
    ReversedPayload(t);
  }

  lemma ReversedPayload(t: string)
    requires |t| >= 4 && InAlphabet(t) && t[0] == 'e' && t[1] == 'y' && t[|t| - 1] in ['9', 'Q', '0']
    requires forall k :: 0 <= k < |t| && t[k] == '-' ==> k % 4 == 3
    ensures Payload(Reverse(t))
  {
    var p := Reverse(t);
    forall i, j | 0 <= i < j < |p| && p[i] == '-' && p[j] == '-' ensures (j - i) % 4 == 0 {
      assert t[|t| - 1 - i] == '-' && t[|t| - 1 - j] == '-';
    }
  }

  /** Reading a payload straight back gives the licence. */
  lemma ConfigStringReads(f: Foreign, lic: CustomServer)
    requires Lawful(f) && Ascii(lic)
    ensures ConfigString(f, GenName(lic)) == Some(lic)
  {
    var d := Print(lic);
    assert Reverse(Reverse(EncodeText(d))) == EncodeText(d);
    TextRoundTrip(EncodeText(d), d);
    ReadPrinted(lic);
    assert f.fromJson(d) == Read(d);
  }

  // No marker begins inside a payload, whatever follows it.

  lemma PayloadHidesMarker(p: string, t: string, pat: string, gap: nat)
    requires Payload(p)
    requires 0 < gap < |pat| && gap % 4 != 0 && pat[0] == '-' && pat[gap] == '-' && 'y' !in pat
    ensures Unmatched(p, t, pat)
  {
    forall i | 0 <= i < |p| ensures !(pat <= (p + t)[i..]) {
      var u := (p + t)[i..];
      assert u[0] == p[i];
      if p[i] == '-' {
        if i + gap < |p| {
          assert u[gap] == p[i + gap] != '-';
        } else {
          assert u[|p| - 2 - i] == 'y';
        }
      }
    }
  }

  /** A longer licence marker does not match at a shorter one, nor any of them at a
      bare `--`, when neither a dash nor an `l` follows. */
  lemma MarkerUnmatched(infix: string, t: string, pat: string)
    requires t != "" && t[0] != '-' && t[0] != 'l'
    requires pat == "-licensed-" || pat == "-licensed--" || pat == "-licensed---"
    requires infix == "--" || ((infix == "-licensed-" || infix == "-licensed--") && |infix| < |pat|)
    ensures Unmatched(infix, t, pat)
  {
    forall i | 0 <= i < |infix| ensures !(pat <= (infix + t)[i..]) {
      var u := (infix + t)[i..];
      assert u[0] == infix[i];
      if i > 0 && infix[i] == '-' {
        assert u[1] == if i + 1 < |infix| then infix[i + 1] else t[0];
        assert u[1] != 'l' == pat[1];
      } else if i == 0 {
        assert u[|infix|] == t[0];
        assert infix == "--" ==> u[1] == '-' != pat[1];
      }
    }
  }

  // Replacing the licence markers.

  predicate Infix(s: string) {
    s == "--" || s == "-licensed-" || s == "-licensed--" || s == "-licensed---"
  }

  /** One replacement, on a name cut into program name, infix, payload and tail. */
  lemma ReplaceOnce(infix: string, p: string, t: string, pat: string)
    requires Payload(p)
    requires pat == "-licensed-" || pat == "-licensed--" || pat == "-licensed---"
    requires infix == "--" || infix == pat || ((infix == "-licensed-" || infix == "-licensed--") && |infix| < |pat|)
    ensures Replace("rustdesk" + (infix + (p + t)), pat, "--")
         == "rustdesk" + ((if infix == pat then "--" else infix) + (p + Replace(t, pat, "--")))
  {
    UnmatchedByFirst("rustdesk", infix + (p + t), pat);
    ReplaceSkips("rustdesk", infix + (p + t), pat, "--");
    PayloadHidesMarker(p, t, pat, 9);
    ReplaceSkips(p, t, pat, "--");
    if infix == pat {
      ReplaceHit(p + t, pat, "--");
    } else {
      MarkerUnmatched(infix, p + t, pat);
      ReplaceSkips(infix, p + t, pat, "--");
    }
  }

  lemma UnlicensedName(infix: string, p: string, t: string)
    requires Payload(p) && Infix(infix)
    ensures Unlicensed("rustdesk" + (infix + (p + t))) == "rustdesk" + ("--" + (p + Unlicensed(t)))
  {
    var t1 := Replace(t, "-licensed---", "--");
    var t2 := Replace(t1, "-licensed--", "--");
    var infix1 := if infix == "-licensed---" then "--" else infix;
    var infix2 := if infix1 == "-licensed--" then "--" else infix1;
    ReplaceOnce(infix, p, t, "-licensed---");
    ReplaceOnce(infix1, p, t1, "-licensed--");
    ReplaceOnce(infix2, p, t2, "-licensed-");
  }

  /** The name falls apart at `--` into the program name, then the payload with what
      the tail puts behind it. */
  lemma SplitName(infix: string, p: string, t: string)
    requires Payload(p) && Infix(infix)
    ensures var rest := Split(Unlicensed(t), "--");
            Split(Unlicensed("rustdesk" + (infix + (p + t))), "--") == ["rustdesk", p + rest[0]] + rest[1..]
  {
    var u := Unlicensed(t);
    UnlicensedName(infix, p, t);
    UnmatchedByFirst("rustdesk", "--" + (p + u), "--");
    SplitSkips("rustdesk", "--" + (p + u), "--");
    SplitHit(p + u, "--");
    PayloadHidesMarker(p, u, "--", 1);
    SplitSkips(p, u, "--");
    assert "rustdesk" + "" == "rustdesk";
  }

  // The extension.

  predicate Extension(ext: string) {
    Lower(ext) == "" || Lower(ext) == ".exe" || Lower(ext) == ".exe.exe"
  }

  lemma DoubledExe(l: string)
    ensures EndsWith(l, ".exe.exe") ==> EndsWith(l, ".exe")
    ensures EndsWith(l + ".exe", ".exe.exe") ==> EndsWith(l, ".exe")
  {
    if EndsWith(l, ".exe.exe") {
      assert l[|l| - 4..] == l[|l| - 8..][4..];
    }
    var m := l + ".exe";
    if EndsWith(m, ".exe.exe") {
      assert l[|l| - 4..] == m[|m| - 8..][..4] == ".exe";
    }
  }

  lemma StripExeGives(body: string, ext: string)
    requires Extension(ext) && !EndsWith(Lower(body), ".exe")
    ensures StripExe(body + ext) == body
  {
    var low := Lower(body);
    LowerConcat(body, ext);
    DoubledExe(low);
    if ext == "" {
      assert body + ext == body;
    } else {
      var l := low + Lower(ext);
      assert l[|l| - |ext|..] == Lower(ext);
    }
  }

  /** The part of the name before the tail has no dot in its last four characters. */
  lemma NoInnerExe(h: string, p: string, t: string)
    requires Payload(p) && !EndsWith(Lower(t), ".exe")
    ensures !EndsWith(Lower(h + p + t), ".exe")
  {
    var s := h + p + t;
    LowerConcat(h + p, t);
    if |t| < 4 {
      assert s[|s| - 4] == p[|p| + |t| - 4];
      assert Lower(s)[|s| - 4..][0] == Lower(s)[|s| - 4] != '.';
    } else {
      assert Lower(s)[|s| - 4..] == Lower(t)[|t| - 4..];
    }
  }

  // The `host=` form is not taken.

  lemma PayloadHidesHost(p: string, t: string)
    requires Payload(p)
    ensures Unmatched(Lower(p), t, "host=")
  {
    var l := Lower(p);
    forall i | 0 <= i < |l| ensures !("host=" <= (l + t)[i..]) {
      NoHostAt(p, l, t, i);
    }
  }

  lemma NoHostAt(p: string, l: string, t: string, i: nat)
    requires Payload(p) && l == Lower(p) && i < |l|
    ensures !("host=" <= (l + t)[i..])
  {
    var u := (l + t)[i..];
    assert u[0] == l[i];
    if i + 4 < |l| {
      assert u[4] == l[i + 4] != '=';
    } else if i < |l| - 1 {
      assert u[|l| - 2 - i] == l[|l| - 2] == 'y';
    } else {
      assert l[i] == 'e';
    }
  }

  lemma NoHost(infix: string, p: string, t: string)
    requires Payload(p) && Infix(infix) && !Contains(Lower(t), "host=")
    ensures !Contains(Lower("rustdesk" + infix + p + t), "host=")
  {
    var h := Lower("rustdesk" + infix);
    var rest := Lower(p) + Lower(t);
    assert Lower("rustdesk" + infix + p + t) == h + rest;
    PayloadHidesHost(p, Lower(t));
    IndexOfSkips(Lower(p), Lower(t), "host=");
    UnmatchedByFirst(h, rest, "host=");
    IndexOfSkips(h, rest, "host=");
  }

  // The fragments.

  lemma ProgramNameBytes(r: string)
    requires |r| == 8 && r[0] == 'k' && r[1] == 's' && DecodeText(r).Some?
    ensures var d := DecodeText(r).value; 0 < |d| < 64 && d[0] == 146
  {
    var d := DecodeText(r).value;
    var s := FromText(r);
    TextRoundTrip(r, d);
    EncodedLength(d);
    assert s[0] == 36 && s[1] == 44;
    DecodedHead(s);
  }

  /** The program name in front is no licence. */
  lemma ProgramNameFails(f: Foreign)
    requires Lawful(f)
    ensures FragmentLicence(f, "rustdesk").None?
  {
    var name := "rustdesk";
    var r := Reverse(name);
    assert |name| == 8 && !IsSpace(name[0]) && !IsSpace(name[7]) && r[0] == 'k' && r[1] == 's';
    assert Trim(name) == name;
    if DecodeText(r).Some? {
      var d := DecodeText(r).value;
      ProgramNameBytes(r);
      assert f.fromJson(d).None? && f.verify(d).None?;
    }
    UnmatchedByFirst(name, "", "(");
    IndexOfSkips(name, "", "(");
    assert name + "" == name;
  }

  /** A piece of tail that leaves the payload readable: blanks, then nothing or `(`. */
  predicate CutsCleanly(u: string) {
    u == "" || u[0] == '(' || (IsSpace(u[0]) && CutsCleanly(u[1..]))
  }

  lemma {:induction false} CleanCut(u: string) returns (w: string, rest: string)
    requires CutsCleanly(u)
    ensures u == w + rest && Blank(w) && (rest == "" || rest[0] == '(')
  {
    if u == "" || u[0] == '(' {
      return "", u;
    }
    w, rest := CleanCut(u[1..]);
    w := [u[0]] + w;
  }

  lemma OutsideAlphabet(f: Foreign, s: string, i: nat)
    requires i < |s| && FromChar(s[i]).None?
    ensures ConfigString(f, s).None?
  {
    assert Reverse(s)[|s| - 1 - i] == s[i];
  }

  lemma AlphabetIsVisible(c: char)
    requires FromChar(c).Some?
    ensures !IsSpace(c) && c != '('
  {
  }

  /** A bracket behind the payload: the whole fragment fails, its first part is the payload. */
  lemma BracketedFragment(f: Foreign, p: string, w: string, rest: string)
    requires Payload(p) && Blank(w) && rest != "" && rest[0] == '('
    ensures FragmentLicence(f, p + w + rest) == FirstPlain(f, [p + w] + Split(rest[1..], "("))
  {
    var q := p + w;
    var s := q + rest;
    AlphabetIsVisible(p[0]);
    TrimKeeps(s, |q|);
    OutsideAlphabet(f, Trim(s), |q|);
    forall i | 0 <= i < |q| ensures q[i] != '(' {
      if i < |p| { AlphabetIsVisible(p[i]); } else { assert IsSpace(w[i - |p|]); }
    }
    UnmatchedByFirst(q, rest, "(");
    IndexOfSkips(q, rest, "(");
    SplitSkips(q, rest, "(");
    assert rest == "(" + rest[1..];
    SplitHit(rest[1..], "(");
    assert q + "" == q;
  }

  lemma FirstPart(f: Foreign, p: string, w: string, more: seq<string>)
    requires Payload(p) && Blank(w) && ConfigString(f, p).Some?
    ensures Trim(p + w) == p && FirstPlain(f, [p + w] + more) == ConfigString(f, p)
  {
    AlphabetIsVisible(p[0]);
    AlphabetIsVisible(p[|p| - 1]);
    TrimBlank(p, w);
  }

  /** The fragment with the payload yields the licence. */
  lemma FragmentReads(f: Foreign, p: string, u: string)
    requires Payload(p) && ConfigString(f, p).Some? && CutsCleanly(u)
    ensures FragmentLicence(f, p + u) == ConfigString(f, p)
  {
    var w, rest := CleanCut(u);
    if rest == "" {
      assert u == w;
      FirstPart(f, p, w, []);
    } else {
      assert p + u == p + w + rest;
      BracketedFragment(f, p, w, rest);
      FirstPart(f, p, w, Split(rest[1..], "("));
    }
  }

  // The round trip.

  /** What may stand between the payload and the extension. */
  predicate Tail(t: string) {
    && !EndsWith(Lower(t), ".exe") && !Contains(Lower(t), "host=")
    && CutsCleanly(Split(Unlicensed(t), "--")[0])
  }

  lemma StrippedName(p: string, infix: string, tail: string, ext: string)
    requires Payload(p) && Infix(infix) && Tail(tail) && Extension(ext)
    ensures StripExe("rustdesk" + infix + p + tail + ext) == "rustdesk" + infix + p + tail
  {
    var h := "rustdesk" + infix;
    NoInnerExe(h, p, tail);
    StripExeGives(h + p + tail, ext);
  }

  lemma NameParts(p: string, infix: string, tail: string)
    requires Payload(p) && Infix(infix)
    ensures Split(Unlicensed("rustdesk" + infix + p + tail), "--")
         == ["rustdesk", p + Split(Unlicensed(tail), "--")[0]] + Split(Unlicensed(tail), "--")[1..]
  {
    SplitName(infix, p, tail);
    var h := "rustdesk";
    assert h + infix + p + tail == h + (infix + (p + tail));
  }

  lemma ParsesAsFragments(f: Foreign, name: string, body: string, fragments: seq<string>)
    requires StripExe(name) == body && !Contains(Lower(body), "host=")
    requires Split(Unlicensed(body), "--") == fragments
    ensures ParseName(f, name) == FirstLicence(f, fragments)
  {
  }

  /** The parser sees the program name first and the payload with the tail second. */
  lemma NameFragments(f: Foreign, p: string, infix: string, tail: string, ext: string)
    requires Payload(p) && Infix(infix) && Tail(tail) && Extension(ext)
    ensures ParseName(f, "rustdesk" + infix + p + tail + ext)
         == FirstLicence(f, ["rustdesk", p + Split(Unlicensed(tail), "--")[0]] + Split(Unlicensed(tail), "--")[1..])
  {
    StrippedName(p, infix, tail, ext);
    NoHost(infix, p, tail);
    NameParts(p, infix, tail);
    var body := "rustdesk" + infix + p + tail;
    ParsesAsFragments(f, body + ext, body, Split(Unlicensed(body), "--"));
  }

  lemma SecondFragment(f: Foreign, s: string, more: seq<string>)
    requires Lawful(f) && FragmentLicence(f, s).Some?
    ensures FirstLicence(f, ["rustdesk", s] + more) == FragmentLicence(f, s)
  {
    var fragments := ["rustdesk", s] + more;
    ProgramNameFails(f);
    assert fragments[1..][0] == s;
  }

  /** Whatever licence infix the parser knows, whatever tail and extension a download
      or a copy adds, parsing the name of a printed ASCII licence returns it. */
  lemma NameRoundTrip(f: Foreign, lic: CustomServer, infix: string, tail: string, ext: string)
    requires Lawful(f) && Ascii(lic) && Infix(infix) && Tail(tail) && Extension(ext)
    ensures ParseName(f, "rustdesk" + infix + GenName(lic) + tail + ext) == Some(lic)
  {
    var p := GenName(lic);
    var rest := Split(Unlicensed(tail), "--");
    GenNameIsPayload(lic);
    ConfigStringReads(f, lic);
    NameFragments(f, p, infix, tail, ext);
    FragmentReads(f, p, rest[0]);
    SecondFragment(f, p + rest[0], rest[1..]);
  }

  // Tails that occur.

  /** Free of the characters the name is cut at. */
  predicate Plain(s: string) {
    '-' !in s && '=' !in s && '.' !in s
  }

  lemma PlainTail(t: string)
    requires '=' !in t && '.' !in t
    ensures !EndsWith(Lower(t), ".exe") && !Contains(Lower(t), "host=")
  {
    var l := Lower(t);
    assert forall i :: 0 <= i < |l| ==> l[i] != '=' && l[i] != '.';
    MatchHasChars(l, ".exe", 0);
    MatchHasChars(l, "host=", 4);
  }

  lemma NoDashNoReplace(t: string, pat: string)
    requires pat != "" && pat[0] == '-' && '-' !in t
    ensures Replace(t, pat, "--") == t
  {
    UnmatchedByFirst(t, "", pat);
    ReplaceSkips(t, "", pat, "--");
    assert t + "" == t;
  }

  lemma {:induction false} BlanksThenBracket(w: string, r: string)
    requires Blank(w)
    ensures CutsCleanly(w + "(" + r)
  {
    if w != "" {
      BlanksThenBracket(w[1..], r);
      assert (w + "(" + r)[1..] == w[1..] + "(" + r;
    }
  }

  /** The marks of copies, such as ` (1)` and `(1) (2)`, are tails. */
  lemma CopyMarkIsTail(w: string, r: string)
    requires Blank(w) && Plain(r)
    ensures Tail(w + "(" + r)
  {
    var t := w + "(" + r;
    forall i | 0 <= i < |w| ensures w[i] != '-' && w[i] != '=' && w[i] != '.' {
      assert IsSpace(w[i]);
    }
    assert Plain(t);
    PlainTail(t);
    NoDashNoReplace(t, "-licensed---");
    NoDashNoReplace(t, "-licensed--");
    NoDashNoReplace(t, "-licensed-");
    UnmatchedByFirst(t, "", "--");
    SplitSkips(t, "", "--");
    assert t + "" == t;
    BlanksThenBracket(w, r);
  }

  lemma EmptyIsTail()
    ensures Tail("")
  {
    PlainTail("");
    NoDashNoReplace("", "-licensed---");
    NoDashNoReplace("", "-licensed--");
    NoDashNoReplace("", "-licensed-");
  }

  /** So a licensed download parses to its licence ... */
  lemma DownloadRoundTrip(f: Foreign, lic: CustomServer, infix: string, ext: string)
    requires Lawful(f) && Ascii(lic) && Infix(infix) && Extension(ext)
    ensures ParseName(f, "rustdesk" + infix + GenName(lic) + "" + ext) == Some(lic)
  {
    EmptyIsTail();
    NameRoundTrip(f, lic, infix, "", ext);
  }

  /** ... and so does a copy of it that was marked with blanks and a bracket, as ` (1)`. */
  lemma CopyRoundTrip(f: Foreign, lic: CustomServer, infix: string, w: string, mark: string, ext: string)
    requires Lawful(f) && Ascii(lic) && Infix(infix) && Blank(w) && Plain(mark) && Extension(ext)
    ensures ParseName(f, "rustdesk" + infix + GenName(lic) + (w + "(" + mark) + ext) == Some(lic)
  {
    CopyMarkIsTail(w, mark);
    NameRoundTrip(f, lic, infix, w + "(" + mark, ext);
  }

  // The name the printing program itself writes.

  const PRINTED_PREFIX := "rustdesk-custom_serverd-"

  lemma PrintedPrefixUnmatched(p: string, pat: string)
    requires Payload(p)
    requires pat == "-licensed-" || pat == "-licensed--" || pat == "-licensed---" || pat == "--"
    ensures Unmatched(PRINTED_PREFIX, p, pat)
  {
    var h := PRINTED_PREFIX;
    assert |h| == 24 && h[9] == 'c';
    assert forall i :: 0 <= i < 24 && i != 8 && i != 23 ==> h[i] != '-';
    forall i | 0 <= i < |h| ensures !(pat <= (h + p)[i..]) {
      var u := (h + p)[i..];
      assert u[0] == h[i];
      if i == 8 {
        assert u[1] == 'c';
      } else if i == 23 {
        assert u[1] == p[0];
      }
    }
  }

  lemma PrintedPrefixKept(p: string, pat: string)
    requires Payload(p)
    requires pat == "-licensed-" || pat == "-licensed--" || pat == "-licensed---"
    ensures Replace(PRINTED_PREFIX + p, pat, "--") == PRINTED_PREFIX + p
  {
    PrintedPrefixUnmatched(p, pat);
    ReplaceSkips(PRINTED_PREFIX, p, pat, "--");
    PayloadHidesMarker(p, "", pat, 9);
    ReplaceSkips(p, "", pat, "--");
    assert p + "" == p;
  }

  /** With that prefix nothing cuts the name: it stays one fragment. */
  lemma PrintedNameParts(p: string)
    requires Payload(p)
    ensures Split(Unlicensed(PRINTED_PREFIX + p), "--") == [PRINTED_PREFIX + p]
  {
    PrintedPrefixKept(p, "-licensed---");
    PrintedPrefixKept(p, "-licensed--");
    PrintedPrefixKept(p, "-licensed-");
    PrintedPrefixUnmatched(p, "--");
    SplitSkips(PRINTED_PREFIX, p, "--");
    PayloadHidesMarker(p, "", "--", 1);
    SplitSkips(p, "", "--");
    assert p + "" == p;
  }

  lemma PrintedNameVisible(p: string)
    requires Payload(p)
    ensures Trim(PRINTED_PREFIX + p) == PRINTED_PREFIX + p && !Contains(PRINTED_PREFIX + p, "(")
  {
    var s := PRINTED_PREFIX + p;
    AlphabetIsVisible(p[|p| - 1]);
    assert s[0] == 'r' && s[|s| - 1] == p[|p| - 1];
    forall i | 0 <= i < |s| ensures s[i] != '(' {
      if i >= 24 { AlphabetIsVisible(p[i - 24]); }
    }
    UnmatchedByFirst(s, "", "(");
    IndexOfSkips(s, "", "(");
    assert s + "" == s;
  }

  lemma PrefixSextets(tail: string)
    requires tail == Reverse(PRINTED_PREFIX)
    ensures InAlphabet(tail) && |tail| == 24 && FromText(tail)[0] == 62 && FromText(tail)[1] == 29
  {
    var h := PRINTED_PREFIX;
    assert h == "rustdesk-custom_serverd-" && |h| == 24;
    assert tail[0] == h[23] == '-' && tail[1] == h[22] == 'd';
    assert InAlphabet(h);
    forall i | 0 <= i < 24 ensures FromChar(tail[i]).Some? {
      assert tail[i] == h[23 - i];
    }
  }

  /** The whole fragment, decoded, is the record with rubbish behind it. */
  lemma PrintedNameDecoded(d: bytes)
    requires DecodeText(Reverse(PRINTED_PREFIX + Reverse(EncodeText(d)))).Some?
    ensures var data := DecodeText(Reverse(PRINTED_PREFIX + Reverse(EncodeText(d)))).value;
            |data| > |d| && data[..|d|] == d && data[|d|] in [249, 15, 62]
  {
    var tail, text := Reverse(PRINTED_PREFIX), EncodeText(d);
    assert Reverse(PRINTED_PREFIX + Reverse(text)) == text + tail by {
      ReverseConcat(PRINTED_PREFIX, Reverse(text));
      ReverseTwice(text);
    }
    PrefixSextets(tail);
    TextExtended(d, tail);
    PrefixByte(|d|, FromText(tail));
  }

  lemma PrefixByte(n: nat, t: seq<sextet>)
    requires |t| >= 2 && t[0] == 62 && t[1] == 29
    ensures NextByte(n, t) in [249, 15, 62]
  {
  }

  lemma PrintedBody(p: string, ext: string)
    requires Payload(p) && Extension(ext)
    ensures StripExe(PRINTED_PREFIX + p + ext) == PRINTED_PREFIX + p
  {
    NoInnerExe(PRINTED_PREFIX, p, "");
    assert PRINTED_PREFIX + p + "" == PRINTED_PREFIX + p;
    EmptyIsTail();
    StripExeGives(PRINTED_PREFIX + p, ext);
  }

  lemma PrintedNoHost(p: string)
    requires Payload(p)
    ensures !Contains(Lower(PRINTED_PREFIX + p), "host=")
  {
    var s := PRINTED_PREFIX + p;
    forall i | 0 <= i < |s| ensures Lower(s)[i] != '=' {
      if i >= 24 { assert FromChar(p[i - 24]).Some?; }
    }
    MatchHasChars(Lower(s), "host=", 4);
  }

  lemma PrintedNameParses(f: Foreign, p: string, ext: string)
    requires Payload(p) && Extension(ext)
    ensures ParseName(f, PRINTED_PREFIX + p + ext) == ConfigString(f, PRINTED_PREFIX + p)
  {
    var s := PRINTED_PREFIX + p;
    PrintedBody(p, ext);
    PrintedNoHost(p);
    PrintedNameParts(p);
    PrintedNameVisible(p);
    ParsesAsFragments(f, s + ext, s, [s]);
  }

  lemma RubbishRefused(f: Foreign, d: bytes, data: bytes)
    requires Lawful(f) && Read(d).Some?
    requires |data| > |d| && data[..|d|] == d && data[|d|] in [249, 15, 62]
    ensures f.fromJson(data).None?
  {
    assert !JsonSpace(data[|d|]);
  }

  /** The bytes the parser finds in the printed name, if they decode. */
  function PrintedBytes(lic: CustomServer): Option<bytes>
  {
    DecodeText(Reverse(PRINTED_PREFIX + GenName(lic)))
  }

  /** What the parser makes of the name naming.rs prints, with its own prefix: at most the
      record that the decoded text holds under a valid signature, if it happens to be one. */
  lemma PrintedNameExactly(f: Foreign, lic: CustomServer, ext: string)
    requires Lawful(f) && Ascii(lic) && Extension(ext)
    ensures ParseName(f, PRINTED_PREFIX + GenName(lic) + ext) ==
            match PrintedBytes(lic)
            case None => None
            case Some(data) => (match f.verify(data) case None => None case Some(signed) => f.fromJson(signed))
  {
    var p, d := GenName(lic), Print(lic);
    var s := PRINTED_PREFIX + p;
    assert Payload(p) by { GenNameIsPayload(lic); }
    PrintedNameParses(f, p, ext);
    if DecodeText(Reverse(s)).Some? {
      var data := DecodeText(Reverse(s)).value;
      assert f.fromJson(data).None? by {
        PrintedNameDecoded(d);
        ReadPrinted(lic);
        RubbishRefused(f, d, data);
      }
    }
  }

  /** So it is not read back exactly unless the decoded bytes verify and the signed text
      is a record. */
  lemma PrintedNameNotParsed(f: Foreign, lic: CustomServer, ext: string)
    requires Lawful(f) && Ascii(lic) && Extension(ext)
    ensures ParseName(f, PRINTED_PREFIX + GenName(lic) + ext).Some? <==>
            (PrintedBytes(lic).Some? && f.verify(PrintedBytes(lic).value).Some?
             && f.fromJson(f.verify(PrintedBytes(lic).value).value).Some?)
  {
    PrintedNameExactly(f, lic, ext);
  }

  // What the fragment loop tries, and in which order.

  function Trimmed(pieces: seq<string>): (r: seq<string>)
    ensures |r| == |pieces| && forall i :: 0 <= i < |r| ==> r[i] == Trim(pieces[i])
  {
    seq(|pieces|, i requires 0 <= i < |pieces| => Trim(pieces[i]))
  }

  /** Each fragment as a whole, and then, if it has a bracket, the parts between brackets. */
  function Candidates(fragments: seq<string>): seq<string>
  {
    if fragments == [] then []
    else
      [Trim(fragments[0])] + (if '(' in fragments[0] then Trimmed(Split(fragments[0], "(")) else [])
      + Candidates(fragments[1..])
  }

  /** The licence of the first candidate that holds one. */
  ghost predicate IsFirst(f: Foreign, candidates: seq<string>, r: Option<CustomServer>) {
    match r
    case None => forall i :: 0 <= i < |candidates| ==> ConfigString(f, candidates[i]).None?
    case Some(_) => exists k :: 0 <= k < |candidates| && ConfigString(f, candidates[k]) == r
                                && forall i :: 0 <= i < k ==> ConfigString(f, candidates[i]).None?
  }

  lemma FirstOfTwo(f: Foreign, a: seq<string>, b: seq<string>, r: Option<CustomServer>, q: Option<CustomServer>)
    requires IsFirst(f, a, r) && IsFirst(f, b, q)
    ensures IsFirst(f, a + b, if r.Some? then r else q)
  {
    if r.Some? {
      var k :| 0 <= k < |a| && ConfigString(f, a[k]) == r && forall i :: 0 <= i < k ==> ConfigString(f, a[i]).None?;
      assert (a + b)[k] == a[k];
    } else if q.Some? {
      var k :| 0 <= k < |b| && ConfigString(f, b[k]) == q && forall i :: 0 <= i < k ==> ConfigString(f, b[i]).None?;
      assert (a + b)[|a| + k] == b[k];
    }
  }

  lemma FirstOfOne(f: Foreign, s: string)
    ensures IsFirst(f, [s], ConfigString(f, s))
  {
    assert [s][0] == s;
  }

  lemma {:induction false} PlainIsFirst(f: Foreign, pieces: seq<string>)
    ensures IsFirst(f, Trimmed(pieces), FirstPlain(f, pieces))
  {
    if pieces != [] {
      PlainIsFirst(f, pieces[1..]);
      FirstOfOne(f, Trim(pieces[0]));
      FirstOfTwo(f, [Trim(pieces[0])], Trimmed(pieces[1..]), ConfigString(f, Trim(pieces[0])), FirstPlain(f, pieces[1..]));
      assert Trimmed(pieces) == [Trim(pieces[0])] + Trimmed(pieces[1..]);
    }
  }

  lemma BracketMeaning(s: string)
    ensures Contains(s, "(") <==> '(' in s
  {
    MatchHasChars(s, "(", 0);
    IndexOfMeaning(s, "(");
    if '(' in s {
      var i :| 0 <= i < |s| && s[i] == '(';
      assert "(" <= s[i..];
    }
  }

  /** The fragment loop returns the licence of the first candidate that holds one, and
      nothing exactly when none does. */
  lemma {:induction false} FragmentsMeaning(f: Foreign, fragments: seq<string>)
    ensures IsFirst(f, Candidates(fragments), FirstLicence(f, fragments))
  {
    if fragments != [] {
      var s := fragments[0];
      var whole, parts := ConfigString(f, Trim(s)), if '(' in s then FirstPlain(f, Split(s, "(")) else None;
      var tried := if '(' in s then Trimmed(Split(s, "(")) else [];
      BracketMeaning(s);
      FirstOfOne(f, Trim(s));
      assert IsFirst(f, tried, parts) by {
        PlainIsFirst(f, Split(s, "("));
      }
      FirstOfTwo(f, [Trim(s)], tried, whole, parts);
      FragmentsMeaning(f, fragments[1..]);
      FirstOfTwo(f, [Trim(s)] + tried, Candidates(fragments[1..]), if whole.Some? then whole else parts,
                 FirstLicence(f, fragments[1..]));
    }
  }
}
