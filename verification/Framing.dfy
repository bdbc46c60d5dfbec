/** The length-prefixed frames of bytes_codec.rs and the counted encryption of tcp.rs
    that travels in them. */
module Framing {
  import opened Common

  const MAX_LENGTH := 0x3FFF_FFFF

  // Heads: the low two bits of the first byte give the number of further head bytes.

  /** The `k` low bytes of `v`, little-endian. */
  function LittleEndian(v: nat, k: nat): (r: bytes)
    ensures |r| == k
  {
    if k == 0 then [] else [v % 256] + LittleEndian(v / 256, k - 1)
  }

  function FromLittleEndian(b: bytes): nat
  {
    if b == [] then 0 else b[0] + 256 * FromLittleEndian(b[1..])
  }

  function HeadLength(n: nat): nat
  {
    if n <= 0x3F then 1 else if n <= 0x3FFF then 2 else if n <= 0x3F_FFFF then 3 else 4
  }

  function EncodeHead(n: nat): bytes
  {
    LittleEndian(n * 4 + (HeadLength(n) - 1), HeadLength(n))
  }

  datatype Head = Short | Head(size: nat, n: nat)

  function ParseHead(s: bytes): (r: Head)
    ensures r.Head? ==> 1 <= r.size <= |s|
  {
    if s == [] then Short
    else
      var size := s[0] % 4 + 1;
      if |s| < size then Short else Head(size, FromLittleEndian(s[..size]) / 4)
  }

  lemma {:induction false} LittleEndianInverse(v: nat, k: nat)
    requires v < Power256(k)
    ensures FromLittleEndian(LittleEndian(v, k)) == v
  {
    if k > 0 {
      LittleEndianInverse(v / 256, k - 1);
      assert LittleEndian(v, k)[1..] == LittleEndian(v / 256, k - 1);
    }
  }

  function Power256(k: nat): nat
  {
    if k == 0 then 1 else 256 * Power256(k - 1)
  }

  lemma HeadFits(n: nat)
    requires n <= MAX_LENGTH
    ensures n * 4 + (HeadLength(n) - 1) < Power256(HeadLength(n))
  {
    assert Power256(1) == 256;
    assert Power256(2) == 0x1_0000;
    assert Power256(3) == 0x100_0000;
    assert Power256(4) == 0x1_0000_0000;
  }

  /** A head tells its own length and the length it stands for, whatever follows. */
  lemma HeadRoundTrip(n: nat, t: bytes)
    requires n <= MAX_LENGTH
    ensures ParseHead(EncodeHead(n) + t) == Head(HeadLength(n), n)
  {
    var k := HeadLength(n);
    var v := n * 4 + (k - 1);
    HeadFits(n);
    LittleEndianInverse(v, k);
    assert (EncodeHead(n) + t)[..k] == EncodeHead(n);
    assert EncodeHead(n)[0] == v % 256;
    LowBits(n, k - 1);
  }

  lemma LowBits(n: nat, k: nat)
    requires k < 4
    ensures (n * 4 + k) % 256 % 4 == k && (n * 4 + k) / 4 == n
  {
  }

  // Frames.

  function Frame(data: bytes): bytes
  {
    EncodeHead(|data|) + data
  }

  function Stream(msgs: seq<bytes>): bytes
  {
    if msgs == [] then [] else Frame(msgs[0]) + Stream(msgs[1..])
  }

  datatype DecodeState = AtHead | AtData(n: nat)

  /** What repeated decoding of a buffer yields until it asks for more or gives up. */
  datatype Run = Run(items: seq<bytes>, state: DecodeState, rest: bytes, tooBig: bool) {
    function After(items': seq<bytes>): Run { this.(items := items' + items) }
  }

  function Drain(state: DecodeState, s: bytes, max: nat): Run
    decreases 2 * |s| + (if state.AtData? then 1 else 0)
  {
    match state
    case AtHead => (
      match ParseHead(s)
      case Short => Run([], AtHead, s, false)
      case Head(size, n) =>
        if n > max then Run([], AtHead, s, true) else Drain(AtData(n), s[size..], max)
    )
    case AtData(n) =>
      if |s| < n then Run([], state, s, false)
      else Drain(AtHead, s[n..], max).After([s[..n]])
  }

  lemma PrefixHead(s: bytes, t: bytes)
    requires ParseHead(s).Head?
    ensures ParseHead(s + t) == ParseHead(s)
  {
    var size := s[0] % 4 + 1;
    assert (s + t)[..size] == s[..size];
  }

  /** Draining in two instalments is draining at once. */
  lemma {:induction false} DrainSplit(state: DecodeState, s: bytes, t: bytes, max: nat)
    ensures var r := Drain(state, s, max);
            var whole := Drain(state, s + t, max);
            if r.tooBig then whole.tooBig && whole.items == r.items
            else whole == Drain(r.state, r.rest + t, max).After(r.items)
    decreases 2 * |s| + (if state.AtData? then 1 else 0)
  {
    match state
    case AtHead => {
      if ParseHead(s).Head? {
        PrefixHead(s, t);
        var size := ParseHead(s).size;
        if ParseHead(s).n <= max {
          assert (s + t)[size..] == s[size..] + t;
          DrainSplit(AtData(ParseHead(s).n), s[size..], t, max);
        }
      } else {
        NothingBefore(Drain(state, s + t, max));
      }
    }
    case AtData(n) => {
      if |s| >= n {
        assert (s + t)[n..] == s[n..] + t && (s + t)[..n] == s[..n];
        DrainSplit(AtHead, s[n..], t, max);
        var r' := Drain(AtHead, s[n..], max);
        if !r'.tooBig {
          var later := Drain(r'.state, r'.rest + t, max);
          assert [s[..n]] + (r'.items + later.items) == ([s[..n]] + r'.items) + later.items;
        }
      } else {
        NothingBefore(Drain(state, s + t, max));
      }
    }
  }

  lemma NothingBefore(r: Run)
    ensures r.After([]) == r
  {
    assert [] + r.items == r.items;
  }

  lemma DrainFrame(data: bytes, t: bytes, max: nat)
    requires |data| <= MAX_LENGTH && |data| <= max
    ensures Drain(AtHead, Frame(data) + t, max) == Drain(AtHead, t, max).After([data])
  {
    var s := Frame(data) + t;
    assert s == EncodeHead(|data|) + (data + t);
    HeadRoundTrip(|data|, data + t);
    assert s[HeadLength(|data|)..] == data + t;
    assert (data + t)[..|data|] == data && (data + t)[|data|..] == t;
  }

  ghost predicate Sendable(msgs: seq<bytes>, max: nat) {
    forall i :: 0 <= i < |msgs| ==> |msgs[i]| <= MAX_LENGTH && |msgs[i]| <= max
  }

  /** The frames of a list of messages drain to the list, and nothing is left over. */
  lemma {:induction false} DrainStream(msgs: seq<bytes>, max: nat)
    requires Sendable(msgs, max)
    ensures Drain(AtHead, Stream(msgs), max) == Run(msgs, AtHead, [], false)
  {
    if msgs != [] {
      DrainStream(msgs[1..], max);
      DrainFrame(msgs[0], Stream(msgs[1..]), max);
      assert [msgs[0]] + msgs[1..] == msgs;
    }
  }

  // Chunks, as the socket delivers them.

  function Concat(chunks: seq<bytes>): bytes
  {
    if chunks == [] then [] else chunks[0] + Concat(chunks[1..])
  }

  /** The buffer is drained after each chunk; an oversized head ends the reading. */
  function Deliver(state: DecodeState, buffer: bytes, chunks: seq<bytes>, max: nat): Run
    decreases |chunks|
  {
    if chunks == [] then Run([], state, buffer, false)
    else
      var r := Drain(state, buffer + chunks[0], max);
      if r.tooBig then r else Deliver(r.state, r.rest, chunks[1..], max).After(r.items)
  }

  /** A drained buffer has nothing more to give. */
  predicate Drained(state: DecodeState, buffer: bytes, max: nat) {
    Drain(state, buffer, max) == Run([], state, buffer, false)
  }

  lemma {:induction false} DrainLeavesDrained(state: DecodeState, s: bytes, max: nat)
    ensures var r := Drain(state, s, max); !r.tooBig ==> Drained(r.state, r.rest, max)
    decreases 2 * |s| + (if state.AtData? then 1 else 0)
  {
    match state
    case AtHead => {
      if ParseHead(s).Head? && ParseHead(s).n <= max {
        DrainLeavesDrained(AtData(ParseHead(s).n), s[ParseHead(s).size..], max);
      }
    }
    case AtData(n) => {
      if |s| >= n {
        DrainLeavesDrained(AtHead, s[n..], max);
      }
    }
  }

  /** What is delivered depends on the bytes received, never on how they were cut. */
  lemma {:induction false} ChunkingIrrelevant(state: DecodeState, buffer: bytes, chunks: seq<bytes>, max: nat)
    requires Drained(state, buffer, max)
    ensures var d := Deliver(state, buffer, chunks, max);
            var whole := Drain(state, buffer + Concat(chunks), max);
            d.items == whole.items && d.tooBig == whole.tooBig && (!d.tooBig ==> d == whole)
    decreases |chunks|
  {
    if chunks == [] {
      assert buffer + Concat(chunks) == buffer;
    } else {
      var s, t := buffer + chunks[0], Concat(chunks[1..]);
      var r := Drain(state, s, max);
      assert buffer + Concat(chunks) == s + t;
      DrainSplit(state, s, t, max);
      if !r.tooBig {
        DrainLeavesDrained(state, s, max);
        ChunkingIrrelevant(r.state, r.rest, chunks[1..], max);
      }
    }
  }

  /** However the network cuts the frames of a list of messages, exactly that list
      comes out, in order, and the reader is ready for the next head. */
  lemma FramesSurviveChunking(msgs: seq<bytes>, chunks: seq<bytes>, max: nat)
    requires Sendable(msgs, max) && Concat(chunks) == Stream(msgs)
    ensures Deliver(AtHead, [], chunks, max) == Run(msgs, AtHead, [], false)
  {
    assert [] + Concat(chunks) == Stream(msgs);
    ChunkingIrrelevant(AtHead, [], chunks, max);
    DrainStream(msgs, max);
  }

  // The bytes of a head, and the limits.

  function At(b: bytes, i: nat): nat { if i < |b| then b[i] else 0 }

  /** The layout of a head: four times the length, plus the number of further bytes, lowest
      byte first, in as few bytes as hold it; it fits exactly the lengths below 2^30. */
  lemma HeadFormat(n: nat)
    ensures n <= MAX_LENGTH <==> n < 0x4000_0000
    ensures n < 0x4000_0000 ==>
              var h := EncodeHead(n);
              && |h| == (if n < 64 then 1 else if n < 16384 then 2 else if n < 4194304 then 3 else 4)
              && 4 * n + (|h| - 1) == At(h, 0) + 256 * At(h, 1) + 65536 * At(h, 2) + 16777216 * At(h, 3)
  {
    if n < 0x4000_0000 {
      var k := HeadLength(n);
      var v := n * 4 + (k - 1);
      HeadFits(n);
      assert Power256(1) == 256 && Power256(2) == 0x1_0000 && Power256(3) == 0x100_0000 && Power256(4) == 0x1_0000_0000;
      LittleEndianInverse(v, k);
      FourPlaces(EncodeHead(n));
    }
  }

  lemma FourPlaces(h: bytes)
    requires 1 <= |h| <= 4
    ensures FromLittleEndian(h) == At(h, 0) + 256 * At(h, 1) + 65536 * At(h, 2) + 16777216 * At(h, 3)
  {
    var h1 := h[1..];
    var h2 := if |h1| > 0 then h1[1..] else [];
    var h3 := if |h2| > 0 then h2[1..] else [];
    assert FromLittleEndian(h) == h[0] + 256 * FromLittleEndian(h1);
    assert FromLittleEndian(h1) == At(h, 1) + 256 * FromLittleEndian(h2);
    assert FromLittleEndian(h2) == At(h, 2) + 256 * FromLittleEndian(h3);
    assert FromLittleEndian(h3) == At(h, 3) by {
      assert |h3| == 1 ==> h3[1..] == [];
    }
  }

  /** A head that announces more than the limit ends the reading at once, with nothing
      taken from the buffer. */
  lemma TooBigRefused(n: nat, t: bytes, max: nat)
    requires max < n < 0x4000_0000
    ensures Drain(AtHead, EncodeHead(n) + t, max) == Run([], AtHead, EncodeHead(n) + t, true)
  {
    HeadRoundTrip(n, t);
  }

  /** And nothing longer than the limit is ever delivered. */
  lemma {:induction false} ItemsFit(state: DecodeState, s: bytes, max: nat)
    requires state.AtData? ==> state.n <= max
    ensures var r := Drain(state, s, max);
            && (forall i :: 0 <= i < |r.items| ==> |r.items[i]| <= max)
            && (r.state.AtData? ==> r.state.n <= max)
    decreases 2 * |s| + (if state.AtData? then 1 else 0)
  {
    match state
    case AtHead => {
      if ParseHead(s).Head? && ParseHead(s).n <= max {
        ItemsFit(AtData(ParseHead(s).n), s[ParseHead(s).size..], max);
      }
    }
    case AtData(n) => {
      if |s| >= n {
        ItemsFit(AtHead, s[n..], max);
      }
    }
  }
}
