/** The codec object of bytes_codec.rs with the buffer it decodes from. */
module BytesCodec {
  import opened Common
  import opened Framing

  datatype Decoded = Item(data: bytes) | More | TooBig

  class Codec {
    var state: DecodeState
    var raw: bool
    var maxPacketLength: nat
    var buffer: bytes

    constructor (maxPacketLength: nat)
      ensures state == AtHead && !raw && buffer == [] && this.maxPacketLength == maxPacketLength
    {
      state, raw, buffer := AtHead, false, [];
      this.maxPacketLength := maxPacketLength;
    }

    /** Reads a head off the buffer; None while it is incomplete. */
    method DecodeHead() returns (r: Decoded, n: nat)
      modifies this`buffer
      ensures match ParseHead(old(buffer))
              case Short => r == More && buffer == old(buffer)
              case Head(size, len) =>
                if len > maxPacketLength then r == TooBig && buffer == old(buffer)
                else r == Item([]) && n == len && buffer == old(buffer)[size..]
    {
      n := 0;
      if buffer == [] {
        return More, 0;
      }
      var headLen := buffer[0] % 4 + 1;
      if |buffer| < headLen {
        return More, 0;
      }
      n := buffer[0];
      if headLen > 1 {
        n := n + buffer[1] as int * 0x100;
      }
      if headLen > 2 {
        n := n + buffer[2] as int * 0x1_0000;
      }
      if headLen > 3 {
        n := n + buffer[3] as int * 0x100_0000;
      }
      HeadBytes(buffer[..headLen]);
      n := n / 4;
      if n > maxPacketLength {
        return TooBig, n;
      }
      buffer := buffer[headLen..];
      return Item([]), n;
    }

    lemma HeadBytes(b: bytes)
      requires 1 <= |b| <= 4
      ensures FromLittleEndian(b) == b[0] + (if |b| > 1 then b[1] as int * 0x100 else 0)
                                   + (if |b| > 2 then b[2] as int * 0x1_0000 else 0)
                                   + (if |b| > 3 then b[3] as int * 0x100_0000 else 0)
    {
      if |b| > 1 {
        HeadTail(b);
      }
    }

    lemma HeadTail(b: bytes)
      requires 2 <= |b| <= 4
      ensures FromLittleEndian(b[1..]) == b[1] + (if |b| > 2 then b[2] as int * 0x100 else 0)
                                        + (if |b| > 3 then b[3] as int * 0x1_0000 else 0)
    {
      var t := b[1..];
      if |b| > 2 {
        var u := t[1..];
        assert FromLittleEndian(t) == t[0] + 256 * FromLittleEndian(u);
        if |b| > 3 {
          assert FromLittleEndian(u) == u[0] + 256 * FromLittleEndian(u[1..]);
          assert u[1..] == [b[3]];
        } else {
          assert u == [b[2]];
        }
      } else {
        assert t == [b[1]];
      }
    }

    /** One call of the decoder: it takes one item off the front of what draining the
        buffer would yield, or leaves a drained buffer. */
    method Decode() returns (r: Decoded)
      modifies this`buffer, this`state
      ensures !raw ==>
        var all := Drain(old(state), old(buffer), maxPacketLength);
        match r
        case Item(data) => all == Drain(state, buffer, maxPacketLength).After([data])
        case More => all == Run([], state, buffer, false)
        case TooBig => all == Run([], state, buffer, true)
      ensures !raw && r.Item? ==> 2 * |buffer| < 2 * |old(buffer)| + (if old(state).AtData? then 1 else 0)
      ensures !raw && r.Item? ==> state == AtHead
      ensures raw ==> buffer == [] && state == old(state)
      ensures raw ==> r == if old(buffer) == [] then More else Item(old(buffer))
    {
      if raw {
        if buffer != [] {
          r := Item(buffer);
          buffer := [];
          return;
        }
        return More;
      }
      var n: nat;
      match state {
        case AtHead =>
          var head, len := DecodeHead();
          if head != Item([]) {
            return head;
          }
          n := len;
          state := AtData(n);
        case AtData(len) =>
          n := len;
      }
      if |buffer| < n {
        return More;
      }
      r := Item(buffer[..n]);
      buffer := buffer[n..];
      state := AtHead;
    }

    /** A chunk arrives and the decoder is called until it asks for more. */
    method Feed(chunk: bytes) returns (items: seq<bytes>, tooBig: bool)
      requires !raw
      modifies this`buffer, this`state
      ensures Run(items, state, buffer, tooBig) == Drain(old(state), old(buffer) + chunk, maxPacketLength)
    {
      buffer := buffer + chunk;
      items, tooBig := [], false;
      ghost var all := Drain(state, buffer, maxPacketLength);
      NothingBefore(all);
      while true
        invariant all == Drain(state, buffer, maxPacketLength).After(items)
        decreases 2 * |buffer| + (if state.AtData? then 1 else 0)
      {
        var r := Decode();
        match r {
          case Item(data) =>
            items := items + [data];
            var later := Drain(state, buffer, maxPacketLength);
            assert items[..|items| - 1] + ([data] + later.items) == items + later.items;
          case More =>
            assert items + [] == items;
            return;
          case TooBig =>
            assert items + [] == items;
            return items, true;
        }
      }
    }

    /** The encoder refuses what its longest head cannot announce. */
    method Encode(data: bytes) returns (r: Option<bytes>)
      ensures r == if raw then Some(data) else if |data| <= MAX_LENGTH then Some(Frame(data)) else None
    {
      if raw {
        return Some(data);
      }
      var len := |data|;
      if len <= 0x3F {
        HeadOne(len);
        return Some([len * 4] + data);
      } else if len <= 0x3FFF {
        var v := len * 4 + 1;
        HeadTwo(len);
        return Some([v % 256, v / 256] + data);
      } else if len <= 0x3F_FFFF {
        var h := len * 4 + 2;
        var low := h % 0x1_0000;
        HeadThree(len);
        return Some([low % 256, low / 256] + [h / 0x1_0000] + data);
      } else if len <= 0x3FFF_FFFF {
        var v := len * 4 + 3;
        HeadFour(len);
        return Some([v % 256, v / 0x100 % 256, v / 0x1_0000 % 256, v / 0x100_0000] + data);
      }
      return None;
    }

    lemma HeadOne(len: nat)
      requires len <= 0x3F
      ensures EncodeHead(len) == [len * 4]
    {
      OneByte(len * 4);
    }

    lemma HeadTwo(len: nat)
      requires 0x3F < len <= 0x3FFF
      ensures var v := len * 4 + 1; EncodeHead(len) == [v % 256, v / 256]
    {
      TwoBytes(len * 4 + 1);
    }

    lemma HeadThree(len: nat)
      requires 0x3FFF < len <= 0x3F_FFFF
      ensures var h := len * 4 + 2;
              var low := h % 0x1_0000;
              EncodeHead(len) == [low % 256, low / 256] + [h / 0x1_0000]
    {
      ThreeBytes(len * 4 + 2);
      LowHalf(len * 4 + 2);
    }

    lemma LowHalf(h: nat)
      ensures h % 0x1_0000 % 256 == h % 256 && h % 0x1_0000 / 256 == h / 0x100 % 256
    {
      LowBytes(h, h / 0x1_0000, h % 0x1_0000 / 256, h % 0x1_0000 % 256);
    }

    lemma LowBytes(h: nat, q: nat, a: nat, b: nat)
      requires h == 0x1_0000 * q + 256 * a + b && a < 256 && b < 256
      ensures h % 256 == b && h / 256 % 256 == a
    {
      assert h == 256 * (256 * q + a) + b;
      assert h / 256 == 256 * q + a;
    }

    lemma HeadFour(len: nat)
      requires 0x3F_FFFF < len <= 0x3FFF_FFFF
      ensures var v := len * 4 + 3;
              EncodeHead(len) == [v % 256, v / 0x100 % 256, v / 0x1_0000 % 256, v / 0x100_0000]
    {
      FourBytes(len * 4 + 3);
    }

    lemma OneByte(v: nat)
      ensures LittleEndian(v, 1) == [v % 256]
    {
      assert LittleEndian(v, 1) == [v % 256] + LittleEndian(v / 256, 0);
    }

    lemma TwoBytes(v: nat)
      requires v < 0x1_0000
      ensures LittleEndian(v, 2) == [v % 256, v / 256]
    {
      OneByte(v / 256);
    }

    lemma ThreeBytes(v: nat)
      requires v < 0x100_0000
      ensures LittleEndian(v, 3) == [v % 256, v / 0x100 % 256, v / 0x1_0000]
    {
      TwoBytes(v / 256);
    }

    lemma FourBytes(v: nat)
      requires v < 0x1_0000_0000
      ensures LittleEndian(v, 4) == [v % 256, v / 0x100 % 256, v / 0x1_0000 % 256, v / 0x100_0000]
    {
      ThreeBytes(v / 256);
    }
  }
}
