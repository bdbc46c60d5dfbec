/** The string operations of the file-name parser: first match, replace, split,
    trim and lower-casing, with the laws the parser's proofs use. */
module Text {
  import opened Common

  predicate EndsWith(s: string, suffix: string) {
    |suffix| <= |s| && s[|s| - |suffix|..] == suffix
  }

  /** Lower-casing of ASCII letters; other characters are left alone. */
  function Lower(s: string): (t: string)
    ensures |t| == |s|
  {
    seq(|s|, i requires 0 <= i < |s| => if 'A' <= s[i] <= 'Z' then s[i] - 'A' + 'a' else s[i])
  }

  function Reverse(s: string): (t: string)
    ensures |t| == |s| && forall i :: 0 <= i < |s| ==> t[i] == s[|s| - 1 - i]
  {
    seq(|s|, i requires 0 <= i < |s| => s[|s| - 1 - i])
  }

  lemma ReverseConcat(a: string, b: string)
    ensures Reverse(a + b) == Reverse(b) + Reverse(a)
  {
  }

  lemma ReverseTwice(s: string)
    ensures Reverse(Reverse(s)) == s
  {
  }

  function IndexOf(s: string, pat: string): (r: Option<nat>)
    requires pat != ""
    ensures r.Some? ==> r.value + |pat| <= |s|
  {
    if |s| < |pat| then None
    else if pat <= s then Some(0)
    else match IndexOf(s[1..], pat)
      case None => None
      case Some(i) => Some(i + 1)
  }

  lemma {:induction false} IndexOfMeaning(s: string, pat: string)
    requires pat != ""
    ensures match IndexOf(s, pat)
            case Some(at) => pat <= s[at..] && forall i :: 0 <= i < at ==> !(pat <= s[i..])
            case None => forall i :: 0 <= i <= |s| ==> !(pat <= s[i..])
  {
    assert s[0..] == s;
    if |s| >= |pat| && !(pat <= s) {
      IndexOfMeaning(s[1..], pat);
      assert forall i :: 0 < i <= |s| ==> s[i..] == s[1..][i - 1..];
    }
  }

  predicate Contains(s: string, pat: string)
    requires pat != ""
  {
    IndexOf(s, pat).Some?
  }

  /** Every left-most, non-overlapping match of `pat` becomes `rep`. */
  function Replace(s: string, pat: string, rep: string): string
    requires pat != ""
    decreases |s|
  {
    if |s| < |pat| then s
    else if pat <= s then rep + Replace(s[|pat|..], pat, rep)
    else [s[0]] + Replace(s[1..], pat, rep)
  }

  function Split(s: string, sep: string): (r: seq<string>)
    requires sep != ""
    ensures r != []
    decreases |s|
  {
    if |s| < |sep| then [s]
    else if sep <= s then [""] + Split(s[|sep|..], sep)
    else
      var t := Split(s[1..], sep);
      [[s[0]] + t[0]] + t[1..]
  }

  /** The characters with the Unicode property White_Space. */
  predicate IsSpace(c: char) {
    var n := c as int;
    9 <= n <= 13 || n == 0x20 || n == 0x85 || n == 0xA0 || n == 0x1680 || 0x2000 <= n <= 0x200A
    || n == 0x2028 || n == 0x2029 || n == 0x202F || n == 0x205F || n == 0x3000
  }

  predicate Blank(s: string) {
    forall i :: 0 <= i < |s| ==> IsSpace(s[i])
  }

  function TrimStart(s: string): string
  {
    if s != "" && IsSpace(s[0]) then TrimStart(s[1..]) else s
  }

  function TrimEnd(s: string): string
  {
    if s != "" && IsSpace(s[|s| - 1]) then TrimEnd(s[..|s| - 1]) else s
  }

  function Trim(s: string): string
  {
    TrimEnd(TrimStart(s))
  }

  // Matches: `p` can be skipped when no match begins inside it.

  ghost predicate Unmatched(p: string, t: string, pat: string) {
    forall i :: 0 <= i < |p| ==> !(pat <= (p + t)[i..])
  }

  lemma UnmatchedTail(p: string, t: string, pat: string)
    requires p != "" && Unmatched(p, t, pat)
    ensures !(pat <= p + t) && (p + t)[1..] == p[1..] + t && Unmatched(p[1..], t, pat)
  {
    assert (p + t)[0..] == p + t && (p + t)[1..] == p[1..] + t;
    forall i | 0 <= i < |p[1..]| ensures !(pat <= (p[1..] + t)[i..]) {
      assert (p[1..] + t)[i..] == (p + t)[i + 1..];
    }
  }

  lemma ReplaceStep(s: string, pat: string, rep: string)
    requires pat != "" && |s| >= |pat| && !(pat <= s)
    ensures Replace(s, pat, rep) == [s[0]] + Replace(s[1..], pat, rep)
  {
  }

  lemma Prepend(p: string, r: string)
    requires p != ""
    ensures [p[0]] + (p[1..] + r) == p + r
  {
  }

  lemma {:induction false} ReplaceSkips(p: string, t: string, pat: string, rep: string)
    requires pat != "" && Unmatched(p, t, pat)
    ensures Replace(p + t, pat, rep) == p + Replace(t, pat, rep)
  {
    if p == "" {
      assert p + t == t;
    } else if |p + t| < |pat| {
      ReplaceShort(p + t, pat, rep);
      ReplaceShort(t, pat, rep);
    } else {
      UnmatchedTail(p, t, pat);
      ReplaceSkips(p[1..], t, pat, rep);
      ReplaceStep(p + t, pat, rep);
      Prepend(p, Replace(t, pat, rep));
    }
  }

  lemma ReplaceShort(s: string, pat: string, rep: string)
    requires |s| < |pat|
    ensures Replace(s, pat, rep) == s
  {
  }

  lemma ReplaceHit(t: string, pat: string, rep: string)
    requires pat != ""
    ensures Replace(pat + t, pat, rep) == rep + Replace(t, pat, rep)
  {
    assert (pat + t)[|pat|..] == t;
  }

  lemma IndexOfStep(s: string, pat: string)
    requires pat != "" && |s| >= |pat| && !(pat <= s)
    ensures IndexOf(s, pat) == (match IndexOf(s[1..], pat) case None => None case Some(i) => Some(i + 1))
  {
  }

  lemma {:induction false} IndexOfSkips(p: string, t: string, pat: string)
    requires pat != "" && Unmatched(p, t, pat)
    ensures IndexOf(p + t, pat) == (match IndexOf(t, pat) case None => None case Some(i) => Some(|p| + i))
  {
    if p == "" {
      assert p + t == t;
    } else if |p + t| >= |pat| {
      var s, s' := p + t, p[1..] + t;
      assert !(pat <= s) && s[1..] == s' && Unmatched(p[1..], t, pat) by {
        UnmatchedTail(p, t, pat);
      }
      IndexOfSkips(p[1..], t, pat);
      IndexOfStep(s, pat);
    }
  }

  lemma SplitStep(s: string, sep: string)
    requires sep != "" && |s| >= |sep| && !(sep <= s)
    ensures var t := Split(s[1..], sep); Split(s, sep) == [[s[0]] + t[0]] + t[1..]
  {
  }

  lemma HeadTail(a: string, b: seq<string>)
    ensures ([a] + b)[0] == a && ([a] + b)[1..] == b
  {
  }

  lemma {:induction false} SplitSkips(p: string, t: string, sep: string)
    requires sep != "" && Unmatched(p, t, sep)
    ensures Split(p + t, sep) == [p + Split(t, sep)[0]] + Split(t, sep)[1..]
  {
    var r := Split(t, sep);
    if p == "" {
      assert p + t == t && p + r[0] == r[0] && r == [r[0]] + r[1..];
    } else if |p + t| < |sep| {
      assert r == [t];
    } else {
      UnmatchedTail(p, t, sep);
      SplitSkips(p[1..], t, sep);
      SplitStep(p + t, sep);
      HeadTail(p[1..] + r[0], r[1..]);
      Prepend(p, r[0]);
    }
  }

  lemma SplitHit(t: string, sep: string)
    requires sep != ""
    ensures Split(sep + t, sep) == [""] + Split(t, sep)
  {
    assert (sep + t)[|sep|..] == t;
  }

  /** A string that lacks the pattern's first character is skipped whole. */
  lemma UnmatchedByFirst(p: string, t: string, pat: string)
    requires pat != "" && pat[0] !in p
    ensures Unmatched(p, t, pat)
  {
    forall i | 0 <= i < |p| ensures !(pat <= (p + t)[i..]) {
      assert (p + t)[i..][0] == p[i];
    }
  }

  /** A match brings every character of its pattern along. */
  lemma MatchHasChars(s: string, pat: string, k: nat)
    requires k < |pat|
    ensures EndsWith(s, pat) || Contains(s, pat) ==> pat[k] in s
  {
    if EndsWith(s, pat) {
      assert s[|s| - |pat| + k] == s[|s| - |pat|..][k];
    }
    var at := IndexOf(s, pat);
    IndexOfMeaning(s, pat);
    if at.Some? {
      assert s[at.value + k] == s[at.value..][k];
    }
  }

  /** No piece of a split at a single character contains that character. */
  lemma {:induction false} PiecesLack(s: string, c: char)
    ensures forall i :: 0 <= i < |Split(s, [c])| ==> c !in Split(s, [c])[i]
  {
    if s != "" {
      PiecesLack(s[1..], c);
      if s[0] != c {
        var t := Split(s[1..], [c]);
        assert !([c] <= s);
        assert c !in [s[0]] + t[0];
      }
    }
  }

  /** Splitting and joining again gives the string back. */
  function Join(pieces: seq<string>, sep: string): string
  {
    if pieces == [] then "" else if |pieces| == 1 then pieces[0] else pieces[0] + sep + Join(pieces[1..], sep)
  }

  lemma {:induction false} JoinSplit(s: string, sep: string)
    requires sep != ""
    ensures Join(Split(s, sep), sep) == s
    decreases |s|
  {
    var r := Split(s, sep);
    if |s| < |sep| {
      assert r == [s];
    } else if sep <= s {
      var t := Split(s[|sep|..], sep);
      JoinSplit(s[|sep|..], sep);
      assert r == [""] + t && r[1..] == t;
      assert Join(r, sep) == "" + sep + Join(t, sep);
    } else {
      var t := Split(s[1..], sep);
      JoinSplit(s[1..], sep);
      assert r == [[s[0]] + t[0]] + t[1..] && r[1..] == t[1..];
      JoinHead(s[0], t, sep);
    }
  }

  lemma JoinHead(c: char, t: seq<string>, sep: string)
    requires t != []
    ensures Join([[c] + t[0]] + t[1..], sep) == [c] + Join(t, sep)
  {
    var u := [[c] + t[0]] + t[1..];
    assert u[1..] == t[1..];
    if |t| > 1 {
      assert ([c] + t[0]) + sep + Join(t[1..], sep) == [c] + (t[0] + sep + Join(t[1..], sep));
    }
  }

  /** And the other way round, for pieces without the separating character. */
  lemma {:induction false} SplitJoin(pieces: seq<string>, c: char)
    requires pieces != [] && forall i :: 0 <= i < |pieces| ==> c !in pieces[i]
    ensures Split(Join(pieces, [c]), [c]) == pieces
    decreases |pieces|
  {
    var p := pieces[0];
    if |pieces| == 1 {
      UnmatchedByFirst(p, "", [c]);
      SplitSkips(p, "", [c]);
      assert p + "" == p && Split("", [c]) == [""];
    } else {
      var rest := Join(pieces[1..], [c]);
      SplitJoin(pieces[1..], c);
      UnmatchedByFirst(p, [c] + rest, [c]);
      SplitSkips(p, [c] + rest, [c]);
      SplitHit(rest, [c]);
      assert p + [c] + rest == p + ([c] + rest);
      assert p + "" == p;
    }
  }

  // Trimming.

  /** Trimming takes the blanks at both ends, all of them, and nothing else. */
  lemma {:induction false} TrimMeaning(s: string) returns (v: string, w: string)
    ensures Blank(v) && Blank(w) && s == v + Trim(s) + w
    ensures var t := Trim(s); t != "" ==> !IsSpace(t[0]) && !IsSpace(t[|t| - 1])
  {
    v := StartTrimmed(s);
    w := EndTrimmed(TrimStart(s));
    assert s == v + (Trim(s) + w);
  }

  lemma {:induction false} StartTrimmed(s: string) returns (v: string)
    ensures Blank(v) && s == v + TrimStart(s) && (TrimStart(s) != "" ==> !IsSpace(TrimStart(s)[0]))
  {
    v := "";
    if s != "" && IsSpace(s[0]) {
      v := StartTrimmed(s[1..]);
      v := [s[0]] + v;
    }
  }

  lemma {:induction false} EndTrimmed(s: string) returns (w: string)
    ensures Blank(w) && s == TrimEnd(s) + w && TrimEnd(s) <= s
    ensures var t := TrimEnd(s); t != "" ==> !IsSpace(t[|t| - 1])
  {
    w := "";
    if s != "" && IsSpace(s[|s| - 1]) {
      w := EndTrimmed(s[..|s| - 1]);
      w := w + [s[|s| - 1]];
    }
  }

  lemma {:induction false} TrimEndBlank(p: string, w: string)
    requires p != "" && !IsSpace(p[|p| - 1]) && Blank(w)
    ensures TrimEnd(p + w) == p
  {
    if w == "" {
      assert p + w == p;
    } else {
      TrimEndBlank(p, w[..|w| - 1]);
      assert (p + w)[..|p + w| - 1] == p + w[..|w| - 1];
    }
  }

  /** Blanks behind a word are trimmed, the word is not. */
  lemma TrimBlank(p: string, w: string)
    requires p != "" && !IsSpace(p[0]) && !IsSpace(p[|p| - 1]) && Blank(w)
    ensures Trim(p + w) == p
  {
    TrimEndBlank(p, w);
  }

  lemma {:induction false} TrimEndKeeps(s: string, i: nat)
    requires i < |s| && !IsSpace(s[i])
    ensures i < |TrimEnd(s)| && TrimEnd(s) <= s
  {
    if IsSpace(s[|s| - 1]) {
      TrimEndKeeps(s[..|s| - 1], i);
    }
  }

  /** A visible character behind a visible first one survives trimming. */
  lemma TrimKeeps(s: string, i: nat)
    requires i < |s| && !IsSpace(s[0]) && !IsSpace(s[i])
    ensures i < |Trim(s)| && Trim(s)[i] == s[i]
  {
    TrimEndKeeps(s, i);
  }

  lemma LowerConcat(s: string, t: string)
    ensures Lower(s + t) == Lower(s) + Lower(t)
  {
  }
}
