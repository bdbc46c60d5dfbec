/** The clipboard wire codec (`proto` of clipboard.rs). Compression and UTF-8 are
    parameters; compression may fail, and then yields nothing. */
module Clipboard {
  import opened Common

  datatype Foreign = Foreign(compress: bytes -> bytes, decompress: bytes -> bytes,
                             utf8: string -> bytes, fromUtf8: bytes -> Option<string>)

  /** What is asked of UTF-8: decoding accepts exactly the encodings. */
  ghost predicate Lawful(f: Foreign) {
    && (forall s :: f.fromUtf8(f.utf8(s)) == Some(s))
    && (forall b :: f.fromUtf8(b).Some? ==> f.utf8(f.fromUtf8(b).value) == b)
    && f.utf8("") == []
  }

  // The laws can be met: by three bytes a character, and no compression.

  function Wide(s: string): bytes
  {
    if s == "" then [] else [s[0] as int / 65536, s[0] as int / 256 % 256, s[0] as int % 256] + Wide(s[1..])
  }

  function CodePoint(a: int, b: int, c: int): int { a * 65536 + b * 256 + c }

  function Unwide(b: bytes): Option<string>
  {
    if b == [] then Some("")
    else if |b| < 3 then None
    else
      var n := CodePoint(b[0], b[1], b[2]);
      if 0xD800 <= n < 0xE000 || n >= 0x11_0000 then None
      else
        var rest := Unwide(b[3..]);
        if rest.None? then None else Some([n as char] + rest.value)
  }

  lemma UnwideStep(c: char, rest: bytes)
    requires Unwide(rest).Some?
    ensures var n := c as int;
            Unwide([n / 65536, n / 256 % 256, n % 256] + rest) == Some([c] + Unwide(rest).value)
  {
    var n := c as int;
    var b: bytes := [n / 65536, n / 256 % 256, n % 256] + rest;
    assert b[3..] == rest;
    assert CodePoint(b[0], b[1], b[2]) == n;
  }

  lemma {:induction false} UnwideWide(s: string)
    ensures Unwide(Wide(s)) == Some(s)
  {
    if s != "" {
      UnwideWide(s[1..]);
      UnwideStep(s[0], Wide(s[1..]));
      assert [s[0]] + s[1..] == s;
    }
  }

  lemma {:induction false} WideUnwide(b: bytes)
    ensures Unwide(b).Some? ==> Wide(Unwide(b).value) == b
  {
    if |b| >= 3 && Unwide(b).Some? {
      WideUnwide(b[3..]);
      var s := Unwide(b).value;
      Digits(b[0], b[1], b[2]);
      assert s[1..] == Unwide(b[3..]).value;
      assert Wide(s) == [b[0], b[1], b[2]] + b[3..];
    }
  }

  lemma Digits(a: byte, b: byte, c: byte)
    ensures var n := CodePoint(a, b, c); n / 65536 == a && n / 256 % 256 == b && n % 256 == c
  {
    var n := CodePoint(a, b, c);
    assert n / 256 == a as int * 256 + b as int;
  }

  lemma LawsCanBeMet()
    ensures Lawful(Foreign(b => b, b => b, s => Wide(s), b => Unwide(b)))
  {
    forall s: string ensures Unwide(Wide(s)) == Some(s) {
      UnwideWide(s);
    }
    forall b: bytes | Unwide(b).Some? ensures Wide(Unwide(b).value) == b {
      WideUnwide(b);
    }
  }

  datatype Data =
    | Text(s: string) | Rtf(s: string) | Html(s: string)
    | Rgba(width: nat, height: nat, pixels: bytes) | Png(image: bytes) | Svg(s: string)
    | Special(name: string, data: bytes)
    | Unsupported

  datatype Format = TextFormat | RtfFormat | HtmlFormat | RgbaFormat | PngFormat | SvgFormat | SpecialFormat

  type int32 = x: int | -0x8000_0000 <= x < 0x8000_0000

  datatype Message = Message(compress: bool, content: bytes, width: int32, height: int32, format: Format,
                             specialName: string)

  /** usize to int32 and back, as the casts do it. */
  function ToInt32(n: nat): int32
  {
    var m := n % 0x1_0000_0000;
    if m < 0x8000_0000 then m else m - 0x1_0000_0000
  }

  function ToUsize(n: int32): nat
  {
    if n >= 0 then n else n + 0x1_0000_0000_0000_0000
  }

  predicate Shrinks(f: Foreign, b: bytes) {
    |f.compress(b)| < |b|
  }

  function Plain(f: Foreign, b: bytes, fallback: bytes, format: Format): Message
  {
    Message(Shrinks(f, b), if Shrinks(f, b) then f.compress(b) else fallback, 0, 0, format, "")
  }

  function ToProto(f: Foreign, d: Data): Option<Message>
  {
    match d
    case Text(s) => Some(Plain(f, f.utf8(s), f.utf8(s), TextFormat))
    case Rtf(s) => Some(Plain(f, f.utf8(s), f.utf8(s), RtfFormat))
    case Html(s) => Some(Plain(f, f.utf8(s), f.utf8(s), HtmlFormat))
    case Rgba(w, h, pixels) => Some(Plain(f, pixels, pixels, RgbaFormat).(width := ToInt32(w), height := ToInt32(h)))
    case Png(image) => Some(Message(false, image, 0, 0, PngFormat, ""))
    case Svg(s) => Some(Plain(f, f.utf8(s), f.utf8(s), SvgFormat))
    case Special(name, data) => Some(Plain(f, data, f.utf8(name), SpecialFormat).(specialName := name))
    case Unsupported => None
  }

  function FromProto(f: Foreign, m: Message): Option<Data>
  {
    var data := if m.compress then f.decompress(m.content) else m.content;
    match m.format
    case TextFormat => if f.fromUtf8(data).Some? then Some(Text(f.fromUtf8(data).value)) else None
    case RtfFormat => if f.fromUtf8(data).Some? then Some(Rtf(f.fromUtf8(data).value)) else None
    case HtmlFormat => if f.fromUtf8(data).Some? then Some(Html(f.fromUtf8(data).value)) else None
    case RgbaFormat => Some(Rgba(ToUsize(m.width), ToUsize(m.height), data))
    case PngFormat => Some(Png(data))
    case SvgFormat => Some(Svg(if f.fromUtf8(data).Some? then f.fromUtf8(data).value else ""))
    case SpecialFormat => Some(Special(m.specialName, data))
  }

  function CreateMulti(f: Foreign, items: seq<Data>): seq<Message>
  {
    if items == [] then []
    else (match ToProto(f, items[0]) case None => [] case Some(m) => [m]) + CreateMulti(f, items[1..])
  }

  function FromMulti(f: Foreign, ms: seq<Message>): seq<Data>
  {
    if ms == [] then []
    else (match FromProto(f, ms[0]) case None => [] case Some(d) => [d]) + FromMulti(f, ms[1..])
  }

  function Supported(items: seq<Data>): seq<Data>
  {
    if items == [] then []
    else (if items[0].Unsupported? then [] else [items[0]]) + Supported(items[1..])
  }

  // When an item survives.

  /** The bytes survive their own compression, where that is used at all. */
  predicate Kept(f: Foreign, b: bytes) {
    Shrinks(f, b) ==> f.decompress(f.compress(b)) == b
  }

  /** Sizes a 64-bit usize keeps through an int32. */
  predicate Fits(n: nat) {
    n < 0x8000_0000 || 0xFFFF_FFFF_8000_0000 <= n < 0x1_0000_0000_0000_0000
  }

  predicate Intact(f: Foreign, d: Data) {
    match d
    case Text(s) => Kept(f, f.utf8(s))
    case Rtf(s) => Kept(f, f.utf8(s))
    case Html(s) => Kept(f, f.utf8(s))
    case Rgba(w, h, pixels) => Kept(f, pixels) && Fits(w) && Fits(h)
    case Png(_) => true
    case Svg(s) => Kept(f, f.utf8(s))
    case Special(name, data) => Kept(f, data) && (Shrinks(f, data) || data == f.utf8(name))
    case Unsupported => true
  }

  lemma CastRoundTrip(n: nat)
    ensures ToUsize(ToInt32(n)) == n <==> Fits(n)
  {
  }

  lemma ItemRoundTrip(f: Foreign, d: Data)
    requires Lawful(f) && !d.Unsupported?
    ensures FromProto(f, ToProto(f, d).value) == Some(d) <==> Intact(f, d)
  {
    match d
    case Rgba(w, h, _) => {
      CastRoundTrip(w);
      CastRoundTrip(h);
    }
    case Svg(s) => {
      if s == "" {
        assert f.utf8(s) == [];
      }
    }
    case _ =>
  }

  lemma {:induction false} NoLonger(f: Foreign, items: seq<Data>)
    ensures |FromMulti(f, CreateMulti(f, items))| <= |Supported(items)|
  {
    if items != [] {
      NoLonger(f, items[1..]);
      if items[0].Unsupported? {
        assert CreateMulti(f, items) == CreateMulti(f, items[1..]) && Supported(items) == Supported(items[1..]);
      } else {
        FirstItem(f, items);
      }
    }
  }

  /** What the first item of a list adds on either side. */
  lemma FirstItem(f: Foreign, items: seq<Data>)
    requires items != [] && !items[0].Unsupported?
    ensures Supported(items) == [items[0]] + Supported(items[1..])
    ensures FromMulti(f, CreateMulti(f, items))
         == (match FromProto(f, ToProto(f, items[0]).value) case None => [] case Some(d) => [d])
            + FromMulti(f, CreateMulti(f, items[1..]))
  {
    assert CreateMulti(f, items) == [ToProto(f, items[0]).value] + CreateMulti(f, items[1..]);
    assert CreateMulti(f, items)[1..] == CreateMulti(f, items[1..]);
  }

  predicate AllIntact(f: Foreign, items: seq<Data>) {
    forall i :: 0 <= i < |items| ==> Intact(f, items[i])
  }

  lemma AllIntactSplit(f: Foreign, items: seq<Data>)
    requires items != []
    ensures AllIntact(f, items) <==> Intact(f, items[0]) && AllIntact(f, items[1..])
  {
    assert forall i :: 0 < i < |items| ==> items[i] == items[1..][i - 1];
  }

  /** A list comes back in order and complete exactly when each of its items is intact:
      only failing compression, oversized images and special data that did not shrink
      and is not its own name are altered. */
  lemma {:induction false} ListRoundTrip(f: Foreign, items: seq<Data>)
    requires Lawful(f)
    ensures FromMulti(f, CreateMulti(f, items)) == Supported(items) <==> AllIntact(f, items)
  {
    if items != [] {
      var d, rest := items[0], items[1..];
      ListRoundTrip(f, rest);
      AllIntactSplit(f, items);
      if d.Unsupported? {
        assert CreateMulti(f, items) == CreateMulti(f, rest) && Supported(items) == Supported(rest);
      } else {
        var out, kept := FromMulti(f, CreateMulti(f, rest)), Supported(rest);
        var whole := FromMulti(f, CreateMulti(f, items));
        NoLonger(f, rest);
        FirstItem(f, items);
        ItemRoundTrip(f, d);
        if whole == [d] + kept {
          assert |whole| == |kept| + 1;
          assert whole[0] == d && whole[1..] == kept;
        }
      }
    }
  }

  /** So a list of special data that compression does not shorten comes back with the
      bytes of the name in place of the data. */
  lemma SpecialLosesData(f: Foreign, name: string, data: bytes)
    requires Lawful(f) && !Shrinks(f, data) && data != f.utf8(name)
    ensures FromMulti(f, CreateMulti(f, [Special(name, data)])) == [Special(name, f.utf8(name))]
    ensures Supported([Special(name, data)]) == [Special(name, data)] && !AllIntact(f, [Special(name, data)])
  {
    var items := [Special(name, data)];
    FirstItem(f, items);
    assert items[1..] == [];
    assert !Intact(f, items[0]);
  }

  /** The bytes an item stands for. */
  function Size(f: Foreign, d: Data): nat
  {
    match d
    case Text(s) => |f.utf8(s)|
    case Rtf(s) => |f.utf8(s)|
    case Html(s) => |f.utf8(s)|
    case Rgba(_, _, pixels) => |pixels|
    case Png(image) => |image|
    case Svg(s) => |f.utf8(s)|
    case Special(_, data) => |data|
    case Unsupported => 0
  }

  /** The content on the wire is never larger than the item, unless it is special data
      that did not shrink under a longer name. */
  lemma NeverLarger(f: Foreign, d: Data)
    requires !d.Unsupported?
    ensures |ToProto(f, d).value.content| <= Size(f, d)
            <==> (d.Special? && !Shrinks(f, d.data) ==> |f.utf8(d.name)| <= |d.data|)
  {
  }

  /** What goes over the wire: each kind under its own name, compressed exactly when that
      is shorter, pictures with their size, PNG pictures as they are. */
  lemma OnTheWire(f: Foreign, d: Data)
    ensures ToProto(f, d).None? <==> d.Unsupported?
    ensures d.Text? || d.Rtf? || d.Html? || d.Svg? ==>
              var m, b := ToProto(f, d).value, f.utf8(d.s);
              && m.format == (if d.Text? then TextFormat else if d.Rtf? then RtfFormat else if d.Html? then HtmlFormat else SvgFormat)
              && m.content == (if |f.compress(b)| < |b| then f.compress(b) else b)
              && (m.compress <==> |f.compress(b)| < |b|)
    ensures d.Rgba? ==>
              var m := ToProto(f, d).value;
              && m.format == RgbaFormat && (m.compress <==> |f.compress(d.pixels)| < |d.pixels|)
              && m.content == (if m.compress then f.compress(d.pixels) else d.pixels)
              && (d.width < 0x8000_0000 ==> m.width == d.width) && (d.height < 0x8000_0000 ==> m.height == d.height)
    ensures d.Png? ==> ToProto(f, d).value == Message(false, d.image, 0, 0, PngFormat, "")
    ensures d.Special? ==>
              var m := ToProto(f, d).value;
              && m.format == SpecialFormat && m.specialName == d.name && (m.compress <==> |f.compress(d.data)| < |d.data|)
              && m.content == (if m.compress then f.compress(d.data) else f.utf8(d.name))
  {
  }
}
