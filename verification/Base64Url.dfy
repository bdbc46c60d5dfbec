/** Unpadded base64url (section 5 of RFC 4648), as the `URL_SAFE_NO_PAD` engine
    encodes and strictly decodes it: no padding, no stray character, no
    left-over bits. */
module Base64Url {
  import opened Common

  type sextet = x: int | 0 <= x < 64

  const DASH: sextet := 62

  // The three bytes of a group from its four sextets.

  function First(x: sextet, y: sextet): byte { (x as int) * 4 + (y as int) / 16 }

  function Second(y: sextet, z: sextet): byte { (y as int) % 16 * 16 + (z as int) / 4 }

  function Third(z: sextet, w: sextet): byte { (z as int) % 4 * 64 + (w as int) }

  function Encode(b: bytes): seq<sextet>
  {
    if |b| == 0 then []
    else if |b| == 1 then [b[0] / 4, b[0] % 4 * 16]
    else if |b| == 2 then [b[0] / 4, b[0] % 4 * 16 + b[1] / 16, b[1] % 16 * 4]
    else [b[0] / 4, b[0] % 4 * 16 + b[1] / 16, b[1] % 16 * 4 + b[2] / 64, b[2] % 64] + Encode(b[3..])
  }

  function Decode(s: seq<sextet>): Option<bytes>
  {
    if |s| == 0 then Some([])
    else if |s| == 1 then None
    else if |s| == 2 then
      if s[1] % 16 != 0 then None else Some([First(s[0], s[1])])
    else if |s| == 3 then
      if s[2] % 4 != 0 then None else Some([First(s[0], s[1]), Second(s[1], s[2])])
    else match Decode(s[4..])
      case None => None
      case Some(t) => Some([First(s[0], s[1]), Second(s[1], s[2]), Third(s[2], s[3])] + t)
  }

  /** One group: joining the four sextets gives the three bytes back. */
  lemma BytesInverse(x: byte, y: byte, z: byte)
    ensures First(x / 4, x % 4 * 16 + y / 16) == x
    ensures Second(x % 4 * 16 + y / 16, y % 16 * 4 + z / 64) == y
    ensures Third(y % 16 * 4 + z / 64, z % 64) == z
  {
  }

  lemma DecodeEncodeOne(x: byte)
    ensures Decode(Encode([x])) == Some([x])
  {
    BytesInverse(x, 0, 0);
    var s: seq<sextet> := [x / 4, x % 4 * 16];
    assert Encode([x]) == s && s[1] % 16 == 0;
  }

  lemma DecodeEncodeTwo(x: byte, y: byte)
    ensures Decode(Encode([x, y])) == Some([x, y])
  {
    BytesInverse(x, y, 0);
    var s: seq<sextet> := [x / 4, x % 4 * 16 + y / 16, y % 16 * 4];
    assert Encode([x, y]) == s && s[2] % 4 == 0;
  }

  lemma {:induction false} DecodeEncode(b: bytes)
    ensures Decode(Encode(b)) == Some(b)
  {
    if |b| >= 3 {
      DecodeEncode(b[3..]);
      BytesInverse(b[0], b[1], b[2]);
      var s := Encode(b);
      assert s[4..] == Encode(b[3..]);
      assert b == [b[0], b[1], b[2]] + b[3..];
    } else if |b| == 2 {
      DecodeEncodeTwo(b[0], b[1]);
      assert b == [b[0], b[1]];
    } else if |b| == 1 {
      DecodeEncodeOne(b[0]);
      assert b == [b[0]];
    }
  }

  /** One group: cutting the joined bytes gives the four sextets back. */
  lemma GroupInverse(x: sextet, y: sextet, z: sextet, w: sextet)
    ensures First(x, y) / 4 == x
    ensures First(x, y) % 4 * 16 + Second(y, z) / 16 == y
    ensures Second(y, z) % 16 * 4 + Third(z, w) / 64 == z
    ensures Third(z, w) % 64 == w
  {
  }

  // The zero bits that close an encoding, read and written again.

  lemma ClosingTwo(x: sextet, y: sextet)
    requires y % 16 == 0
    ensures First(x, y) / 4 == x && First(x, y) % 4 * 16 == y
  {
  }

  lemma ClosingThree(x: sextet, y: sextet, z: sextet)
    requires z % 4 == 0
    ensures First(x, y) / 4 == x && Second(y, z) % 16 * 4 == z
    ensures First(x, y) % 4 * 16 + Second(y, z) / 16 == y
  {
    assert First(x, y) % 4 == y / 16 && Second(y, z) / 16 == y % 16 && Second(y, z) % 16 == z / 4;
  }

  lemma EncodeGroup(x: byte, y: byte, z: byte, t: bytes)
    ensures Encode([x, y, z] + t) == [x / 4, x % 4 * 16 + y / 16, y % 16 * 4 + z / 64, z % 64] + Encode(t)
  {
    assert ([x, y, z] + t)[3..] == t;
  }

  lemma EncodeDecodeShort(s: seq<sextet>)
    requires |s| < 4 && Decode(s).Some?
    ensures Encode(Decode(s).value) == s
  {
    if |s| == 2 {
      ClosingTwo(s[0], s[1]);
      assert s == [s[0], s[1]];
    } else if |s| == 3 {
      ClosingThree(s[0], s[1], s[2]);
      assert s == [s[0], s[1], s[2]];
    }
  }

  lemma DecodedHead(s: seq<sextet>)
    requires |s| >= 2 && Decode(s).Some?
    ensures var d := Decode(s).value;
            && |d| > 0 && d[0] == First(s[0], s[1])
            && (|s| >= 3 ==> |d| > 1 && d[1] == Second(s[1], s[2]))
            && (|s| >= 4 ==> |d| > 2 && d[2] == Third(s[2], s[3]) && Decode(s[4..]) == Some(d[3..]))
  {
    if |s| >= 4 {
      assert Decode(s[4..]) == Some(Decode(s).value[3..]);
    }
  }

  lemma {:induction false} EncodeDecode(s: seq<sextet>)
    requires Decode(s).Some?
    ensures Encode(Decode(s).value) == s
  {
    if |s| < 4 {
      EncodeDecodeShort(s);
    } else {
      var d := Decode(s).value;
      DecodedHead(s);
      EncodeDecode(s[4..]);
      GroupInverse(s[0], s[1], s[2], s[3]);
      EncodeGroup(d[0], d[1], d[2], d[3..]);
      assert d == [d[0], d[1], d[2]] + d[3..];
      assert s == [s[0], s[1], s[2], s[3]] + s[4..];
    }
  }

  /** The strict decoder accepts exactly the encoder's outputs: every byte string
      has one encoding and every accepted text has one meaning. */
  lemma DecodeInvertsEncode(s: seq<sextet>, b: bytes)
    ensures Decode(s) == Some(b) <==> Encode(b) == s
  {
    DecodeEncode(b);
    if Decode(s).Some? {
      EncodeDecode(s);
    }
  }

  lemma NoDash(x: byte, y: byte, z: byte)
    requires x < 128 && y < 128 && z < 128
    ensures x / 4 != DASH && x % 4 * 16 + y / 16 != DASH && y % 16 * 4 + z / 64 != DASH
  {
  }

  /** In the encoding of ASCII bytes the sextet 62 stands only in the last place
      of a four-sextet group: the other places mix in a top bit that is zero. */
  lemma {:induction false} DashPlaces(b: bytes, i: nat)
    requires forall k :: 0 <= k < |b| ==> b[k] < 128
    requires i < |Encode(b)| && Encode(b)[i] == DASH
    ensures i % 4 == 3
  {
    if |b| >= 3 {
      NoDash(b[0], b[1], b[2]);
      if i >= 4 {
        assert Encode(b)[i] == Encode(b[3..])[i - 4];
        DashPlaces(b[3..], i - 4);
      }
    } else if |b| == 2 {
      NoDash(b[0], b[1], 0);
    } else {
      NoDash(b[0], 0, 0);
    }
  }

  lemma {:induction false} EncodedLength(b: bytes)
    ensures |Encode(b)| == |b| / 3 * 4 + (if |b| % 3 == 0 then 0 else |b| % 3 + 1)
  {
    if |b| >= 3 {
      EncodedLength(b[3..]);
    }
  }

  /** The last sextet of a non-empty encoding depends on the last byte alone. */
  lemma {:induction false} LastSextet(b: bytes)
    requires |b| > 0
    ensures var s, z := Encode(b), b[|b| - 1];
            |s| > 0 && s[|s| - 1] == (if |b| % 3 == 0 then z % 64 else if |b| % 3 == 1 then z % 4 * 16 else z % 16 * 4)
  {
    if |b| > 3 {
      LastSextet(b[3..]);
      assert b[3..][|b| - 4] == b[|b| - 1] && (|b| - 3) % 3 == |b| % 3;
    }
  }

  /** What the tail's first sextets make of the byte that follows `n` whole bytes. */
  function NextByte(n: nat, t: seq<sextet>): int
    requires |t| >= 2
  {
    if n % 3 == 0 then First(t[0], t[1]) else if n % 3 == 1 then t[0] as int / 4 else t[0]
  }

  /** The zero bits that close an encoding vanish when a further sextet is joined on. */
  lemma ClosingBits(x: byte, t: sextet)
    ensures Second(x % 4 * 16, t) == t as int / 4
    ensures Third(x % 16 * 4, t) == t as int
  {
  }

  /** The original bytes and at least one more, which the tail decides. */
  ghost predicate Extends(d: bytes, b: bytes, t: seq<sextet>)
    requires |t| >= 2
  {
    |d| > |b| && d[..|b|] == b && d[|b|] == NextByte(|b|, t)
  }

  lemma DecodeGroup(x: sextet, y: sextet, z: sextet, w: sextet, u: seq<sextet>)
    ensures Decode([x, y, z, w] + u)
         == (match Decode(u) case None => None case Some(v) => Some([First(x, y), Second(y, z), Third(z, w)] + v))
  {
    assert ([x, y, z, w] + u)[4..] == u;
  }

  lemma OneInverse(x: byte, w: sextet)
    ensures First(x / 4, x % 4 * 16) == x && Second(x % 4 * 16, w) == w as int / 4
  {
  }

  lemma TwoInverse(x: byte, y: byte, w: sextet)
    ensures First(x / 4, x % 4 * 16 + y / 16) == x
    ensures Second(x % 4 * 16 + y / 16, y % 16 * 4) == y
    ensures Third(y % 16 * 4, w) == w as int
  {
    BytesInverse(x, y, 0);
    ClosingBits(y, w);
  }

  lemma ExtendsOne(e: seq<sextet>, p: sextet, q: sextet, x: byte, t: seq<sextet>)
    requires e == [p, q] && |t| >= 2 && First(p, q) == x && Second(q, t[0]) == t[0] as int / 4
    requires Decode(e + t).Some?
    ensures Extends(Decode(e + t).value, [x], t)
  {
    assert e + t == [p, q, t[0], t[1]] + t[2..];
    DecodeGroup(p, q, t[0], t[1], t[2..]);
  }

  lemma ExtendsTwo(e: seq<sextet>, p: sextet, q: sextet, r: sextet, x: byte, y: byte, t: seq<sextet>)
    requires e == [p, q, r] && |t| >= 2 && First(p, q) == x && Second(q, r) == y && Third(r, t[0]) == t[0]
    requires Decode(e + t).Some?
    ensures Extends(Decode(e + t).value, [x, y], t)
  {
    assert e + t == [p, q, r, t[0]] + t[1..];
    DecodeGroup(p, q, r, t[0], t[1..]);
  }

  lemma EncodeOne(x: byte) returns (p: sextet, q: sextet)
    ensures Encode([x]) == [p, q] && First(p, q) == x && forall w :: Second(q, w) == w as int / 4
  {
    p, q := x / 4, x % 4 * 16;
    forall w ensures Second(q, w) == w as int / 4 {
      OneInverse(x, w);
    }
    OneInverse(x, 0);
  }

  lemma EncodeTwo(x: byte, y: byte) returns (p: sextet, q: sextet, r: sextet)
    ensures Encode([x, y]) == [p, q, r] && First(p, q) == x && Second(q, r) == y
    ensures forall w :: Third(r, w) == w
  {
    p, q, r := x / 4, x % 4 * 16 + y / 16, y % 16 * 4;
    forall w ensures Third(r, w) == w {
      TwoInverse(x, y, w);
    }
    TwoInverse(x, y, 0);
  }

  lemma DecodeExtendedGroup(x: byte, y: byte, z: byte, c: bytes, t: seq<sextet>)
    ensures Decode(Encode([x, y, z] + c) + t)
         == (match Decode(Encode(c) + t) case None => None case Some(v) => Some([x, y, z] + v))
  {
    var group: seq<sextet> := [x / 4, x % 4 * 16 + y / 16, y % 16 * 4 + z / 64, z % 64];
    EncodeGroup(x, y, z, c);
    assert (group + Encode(c)) + t == group + (Encode(c) + t);
    DecodeGroup(x / 4, x % 4 * 16 + y / 16, y % 16 * 4 + z / 64, z % 64, Encode(c) + t);
    BytesInverse(x, y, z);
  }

  lemma ExtendsByGroup(head: bytes, d: bytes, c: bytes, t: seq<sextet>)
    requires |head| == 3 && |t| >= 2 && Extends(d, c, t)
    ensures Extends(head + d, head + c, t)
  {
    assert (head + d)[..3 + |c|] == head + d[..|c|];
    assert NextByte(3 + |c|, t) == NextByte(|c|, t);
  }

  /** Decoding an encoding with more sextets behind it, when it succeeds, yields the
      original bytes followed by at least one more. */
  lemma {:induction false} DecodeExtended(b: bytes, t: seq<sextet>)
    requires |t| >= 2 && Decode(Encode(b) + t).Some?
    ensures Extends(Decode(Encode(b) + t).value, b, t)
  {
    if |b| >= 3 {
      var head, c := [b[0], b[1], b[2]], b[3..];
      assert b == head + c;
      DecodeExtendedGroup(b[0], b[1], b[2], c, t);
      DecodeExtended(c, t);
      ExtendsByGroup(head, Decode(Encode(c) + t).value, c, t);
    } else if |b| == 2 {
      assert b == [b[0], b[1]];
      var p, q, r := EncodeTwo(b[0], b[1]);
      ExtendsTwo(Encode(b), p, q, r, b[0], b[1], t);
    } else if |b| == 1 {
      assert b == [b[0]];
      var p, q := EncodeOne(b[0]);
      ExtendsOne(Encode(b), p, q, b[0], t);
    } else {
      assert Encode(b) + t == t;
      DecodedHead(t);
    }
  }

  // Characters.

  function ToChar(x: sextet): char
  {
    if x < 26 then 'A' + x as char
    else if x < 52 then 'a' + (x - 26) as char
    else if x < 62 then '0' + (x - 52) as char
    else if x == 62 then '-' else '_'
  }

  function FromChar(c: char): Option<sextet>
  {
    if 'A' <= c <= 'Z' then Some(c as int - 'A' as int)
    else if 'a' <= c <= 'z' then Some(c as int - 'a' as int + 26)
    else if '0' <= c <= '9' then Some(c as int - '0' as int + 52)
    else if c == '-' then Some(62)
    else if c == '_' then Some(63)
    else None
  }

  lemma CharRoundTrip(x: sextet)
    ensures FromChar(ToChar(x)) == Some(x)
  {
  }

  function ToText(s: seq<sextet>): (t: string)
    ensures |t| == |s| && forall i :: 0 <= i < |s| ==> t[i] == ToChar(s[i])
  {
    seq(|s|, i requires 0 <= i < |s| => ToChar(s[i]))
  }

  predicate InAlphabet(t: string) {
    forall i :: 0 <= i < |t| ==> FromChar(t[i]).Some?
  }

  function FromText(t: string): (s: seq<sextet>)
    requires InAlphabet(t)
    ensures |s| == |t| && forall i :: 0 <= i < |t| ==> Some(s[i]) == FromChar(t[i])
  {
    seq(|t|, i requires 0 <= i < |t| => FromChar(t[i]).value)
  }

  lemma FromTextConcat(a: string, b: string)
    requires InAlphabet(a) && InAlphabet(b)
    ensures InAlphabet(a + b) && FromText(a + b) == FromText(a) + FromText(b)
  {
  }

  function EncodeText(b: bytes): string
  {
    ToText(Encode(b))
  }

  function DecodeText(t: string): Option<bytes>
  {
    if InAlphabet(t) then Decode(FromText(t)) else None
  }

  lemma FromToText(s: seq<sextet>)
    ensures InAlphabet(ToText(s)) && FromText(ToText(s)) == s
  {
    forall i | 0 <= i < |s| ensures FromChar(ToText(s)[i]) == Some(s[i]) {
      CharRoundTrip(s[i]);
    }
  }

  lemma ToFromText(t: string)
    requires InAlphabet(t)
    ensures ToText(FromText(t)) == t
  {
    var s := FromText(t);
    forall i | 0 <= i < |t| ensures ToChar(s[i]) == t[i] {
      assert FromChar(t[i]) == Some(s[i]);
    }
  }

  /** The decoder at the level of text: it accepts a text for some bytes exactly when
      the text is their encoding. */
  lemma TextRoundTrip(t: string, b: bytes)
    ensures DecodeText(t) == Some(b) <==> t == EncodeText(b)
  {
    if InAlphabet(t) {
      ToFromText(t);
      DecodeInvertsEncode(FromText(t), b);
    }
    FromToText(Encode(b));
  }

  /** A text with more characters behind an encoding, if it decodes at all, decodes to the
      encoded bytes with more behind them. */
  lemma TextExtended(d: bytes, tail: string)
    requires InAlphabet(tail) && |tail| >= 2 && DecodeText(EncodeText(d) + tail).Some?
    ensures Extends(DecodeText(EncodeText(d) + tail).value, d, FromText(tail))
  {
    FromToText(Encode(d));
    FromTextConcat(EncodeText(d), tail);
    DecodeExtended(d, FromText(tail));
  }

  // The format itself.

  function ByteAt(b: bytes, i: nat): nat { if i < |b| then b[i] else 0 }

  function SextetAt(s: seq<sextet>, i: nat): nat { if i < |s| then s[i] else 0 }

  /** Three bytes, or what there is of them, are written as the same 24 bits in four
      sextets, highest first, with zero bits behind the last. */
  lemma {:induction false} SameBits(b: bytes, g: nat)
    requires 3 * g < |b|
    ensures 65536 * ByteAt(b, 3 * g) + 256 * ByteAt(b, 3 * g + 1) + ByteAt(b, 3 * g + 2)
         == 262144 * SextetAt(Encode(b), 4 * g) + 4096 * SextetAt(Encode(b), 4 * g + 1)
            + 64 * SextetAt(Encode(b), 4 * g + 2) + SextetAt(Encode(b), 4 * g + 3)
  {
    if g > 0 {
      var c, s := b[3..], Encode(b[3..]);
      SameBits(c, g - 1);
      assert ByteAt(b, 3 * g) == ByteAt(c, 3 * g - 3) && ByteAt(b, 3 * g + 1) == ByteAt(c, 3 * g - 2);
      assert ByteAt(b, 3 * g + 2) == ByteAt(c, 3 * g - 1);
      assert SextetAt(Encode(b), 4 * g) == SextetAt(s, 4 * g - 4) && SextetAt(Encode(b), 4 * g + 1) == SextetAt(s, 4 * g - 3);
      assert SextetAt(Encode(b), 4 * g + 2) == SextetAt(s, 4 * g - 2) && SextetAt(Encode(b), 4 * g + 3) == SextetAt(s, 4 * g - 1);
    } else {
      FirstGroup(b[0], ByteAt(b, 1), ByteAt(b, 2));
    }
  }

  lemma FirstGroup(x: nat, y: nat, z: nat)
    requires x < 256 && y < 256 && z < 256
    ensures 65536 * x + 256 * y + z
         == 262144 * (x / 4) + 4096 * (x % 4 * 16 + y / 16) + 64 * (y % 16 * 4 + z / 64) + z % 64
  {
    Regroup(x, y, z, x / 4, x % 4, y / 16, y % 16, z / 64, z % 64);
  }

  lemma Regroup(x: nat, y: nat, z: nat, a: nat, b: nat, c: nat, d: nat, e: nat, f: nat)
    requires x == 4 * a + b && y == 16 * c + d && z == 64 * e + f
    ensures 65536 * x + 256 * y + z == 262144 * a + 4096 * (b * 16 + c) + 64 * (d * 4 + e) + f
  {
  }

  /** The alphabet of table 2 in section 5 of RFC 4648. */
  lemma Alphabet(x: sextet)
    ensures x < 26 ==> ToChar(x) == "ABCDEFGHIJKLMNOPQRSTUVWXYZ"[x]
    ensures 26 <= x < 52 ==> ToChar(x) == "abcdefghijklmnopqrstuvwxyz"[x - 26]
    ensures 52 <= x < 62 ==> ToChar(x) == "0123456789"[x - 52]
    ensures x == 62 ==> ToChar(x) == '-'
    ensures x == 63 ==> ToChar(x) == '_'
  {
  }
}
