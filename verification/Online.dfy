/** Decoding of the online bitmap (`query_online_states_` of client.rs): one bit per
    queried id, the first id in the top bit of the first byte. */
module Online {
  import opened Common

  const PLACES: seq<nat> := [128, 64, 32, 16, 8, 4, 2, 1]

  function Bit(states: bytes, i: nat): bool
    requires i / 8 < |states|
  {
    states[i / 8] / PLACES[i % 8] % 2 == 1
  }

  /** The ids whose bit has the given value, in the order they were asked for. */
  function Where(ids: seq<string>, states: bytes, value: bool): (r: seq<string>)
    requires |ids| <= 8 * |states|
  {
    if ids == [] then []
    else
      var last := |ids| - 1;
      Where(ids[..last], states, value) + if Bit(states, last) == value then [ids[last]] else []
  }

  /** None stands for the index out of range, which ends the query. */
  method Decode(ids: seq<string>, states: bytes) returns (r: Option<(seq<string>, seq<string>)>)
    ensures r == if |ids| <= 8 * |states| then Some((Where(ids, states, true), Where(ids, states, false))) else None
  {
    var onlines, offlines := [], [];
    for i := 0 to |ids|
      invariant i <= 8 * |states|
      invariant onlines == Where(ids[..i], states, true) && offlines == Where(ids[..i], states, false)
    {
      if i / 8 >= |states| {
        return None;
      }
      assert ids[..i + 1][..i] == ids[..i];
      var bitValue := PLACES[i % 8];
      if states[i / 8] / bitValue % 2 == 1 {
        onlines := onlines + [ids[i]];
      } else {
        offlines := offlines + [ids[i]];
      }
    }
    assert ids[..|ids|] == ids;
    return Some((onlines, offlines));
  }

  /** The two lists divide the queried ids, repetitions included. */
  lemma {:induction false} Divides(ids: seq<string>, states: bytes)
    requires |ids| <= 8 * |states|
    ensures multiset(Where(ids, states, true)) + multiset(Where(ids, states, false)) == multiset(ids)
  {
    if ids != [] {
      var last := |ids| - 1;
      Divides(ids[..last], states);
      OneGoes(Where(ids[..last], states, true), Where(ids[..last], states, false), ids[..last], ids[last], Bit(states, last));
      assert ids == ids[..last] + [ids[last]];
    }
  }

  /** One more id goes to one of the lists. */
  lemma OneGoes(on: seq<string>, off: seq<string>, ids: seq<string>, id: string, bit: bool)
    requires multiset(on) + multiset(off) == multiset(ids)
    ensures multiset(on + if bit then [id] else []) + multiset(off + if bit then [] else [id]) == multiset(ids + [id])
  {
    assert multiset(ids + [id]) == multiset(ids) + multiset{id};
    if bit {
      assert multiset(on + [id]) == multiset(on) + multiset{id} && off + [] == off;
    } else {
      assert multiset(off + [id]) == multiset(off) + multiset{id} && on + [] == on;
    }
  }

  lemma {:induction false} OnlyQueried(ids: seq<string>, states: bytes, value: bool, id: string)
    requires |ids| <= 8 * |states|
    ensures id in Where(ids, states, value) ==> id in ids
  {
    if ids != [] {
      OnlyQueried(ids[..|ids| - 1], states, value, id);
    }
  }

  /** When no id is asked for twice, membership in the list of those online, or offline,
      gives back every bit of the map that was asked for. */
  lemma {:induction false} BitsRecovered(ids: seq<string>, states: bytes, i: nat, value: bool)
    requires |ids| <= 8 * |states| && i < |ids|
    requires forall j, k :: 0 <= j < k < |ids| ==> ids[j] != ids[k]
    ensures ids[i] in Where(ids, states, value) <==> Bit(states, i) == value
  {
    var last := |ids| - 1;
    var before := Where(ids[..last], states, value);
    assert Where(ids, states, value) == before + if Bit(states, last) == value then [ids[last]] else [];
    if i < last {
      BitsRecovered(ids[..last], states, i, value);
    } else {
      OnlyQueried(ids[..last], states, value, ids[last]);
    }
  }

  // Which bit is whose.

  /** The places of the ids whose bit has the given value. */
  function Places(n: nat, states: bytes, value: bool): seq<nat>
    requires n <= 8 * |states|
  {
    if n == 0 then [] else Places(n - 1, states, value) + if Bit(states, n - 1) == value then [n - 1] else []
  }

  /** `r` has the ids at the places `p`, which increase. */
  predicate Picks(ids: seq<string>, r: seq<string>, p: seq<nat>) {
    && |r| == |p|
    && (forall k :: 0 <= k < |p| ==> p[k] < |ids| && r[k] == ids[p[k]])
    && (forall j, k :: 0 <= j < k < |p| ==> p[j] < p[k])
  }

  lemma PicksMore(ids: seq<string>, r: seq<string>, p: seq<nat>)
    requires ids != [] && Picks(ids[..|ids| - 1], r, p)
    ensures Picks(ids, r, p) && Picks(ids, r + [ids[|ids| - 1]], p + [|ids| - 1])
  {
    var n := |ids| - 1;
    assert forall k :: 0 <= k < |p| ==> p[k] < n && ids[..n][p[k]] == ids[p[k]];
  }

  /** Each list has the ids at its places, in the order they were asked for. */
  lemma {:induction false} KeepsOrder(ids: seq<string>, states: bytes, value: bool)
    requires |ids| <= 8 * |states|
    ensures Picks(ids, Where(ids, states, value), Places(|ids|, states, value))
  {
    if ids != [] {
      var n := |ids| - 1;
      var r, p := Where(ids[..n], states, value), Places(n, states, value);
      KeepsOrder(ids[..n], states, value);
      PicksMore(ids, r, p);
      assert r + [] == r && p + [] == p;
    }
  }

  function Weight(online: bool, w: nat): nat { if online then w else 0 }

  lemma ByteOfBits(b: byte)
    ensures b == Weight(b / 128 % 2 == 1, 128) + Weight(b / 64 % 2 == 1, 64) + Weight(b / 32 % 2 == 1, 32)
               + Weight(b / 16 % 2 == 1, 16) + Weight(b / 8 % 2 == 1, 8) + Weight(b / 4 % 2 == 1, 4)
               + Weight(b / 2 % 2 == 1, 2) + Weight(b / 1 % 2 == 1, 1)
  {
    LowNibble(b);
    HighNibble(b);
  }

  lemma LowNibble(b: byte)
    ensures b == 16 * (b / 16) + Weight(b / 8 % 2 == 1, 8) + Weight(b / 4 % 2 == 1, 4)
                 + Weight(b / 2 % 2 == 1, 2) + Weight(b / 1 % 2 == 1, 1)
  {
    LowBit(b, 1);
    LowBit(b, 2);
    LowBit(b, 4);
    LowBit(b, 8);
  }

  lemma HighNibble(b: byte)
    ensures 16 * (b / 16) == Weight(b / 128 % 2 == 1, 128) + Weight(b / 64 % 2 == 1, 64)
                             + Weight(b / 32 % 2 == 1, 32) + Weight(b / 16 % 2 == 1, 16)
  {
    LowBit(b, 16);
    LowBit(b, 32);
    LowBit(b, 64);
    LowBit(b, 128);
  }

  /** Dividing by a place and by the next differ in the bit of the place. */
  lemma LowBit(b: byte, w: nat)
    requires w in PLACES
    ensures w * (b / w) == 2 * w * (b / (2 * w)) + Weight(b / w % 2 == 1, w)
  {
    assert b / (2 * w) == b / w / 2;
  }

  function Packed(on: seq<bool>): nat
    requires |on| == 8
  {
    Weight(on[0], 128) + Weight(on[1], 64) + Weight(on[2], 32) + Weight(on[3], 16)
    + Weight(on[4], 8) + Weight(on[5], 4) + Weight(on[6], 2) + Weight(on[7], 1)
  }

  lemma PackedIsByte(b: byte, on: seq<bool>)
    requires |on| == 8 && forall j :: 0 <= j < 8 ==> (on[j] <==> b / PLACES[j] % 2 == 1)
    ensures Packed(on) == b
  {
    ByteOfBits(b);
    assert PLACES == [128, 64, 32, 16, 8, 4, 2, 1];
  }

  /** The map can be put together again from the list of those online: of eight ids the
      first counts 128, the next 64, down to 1 for the last. */
  lemma MapRecovered(ids: seq<string>, states: bytes, k: nat, on: seq<bool>)
    requires |ids| <= 8 * |states| && 8 * k + 8 <= |ids| && |on| == 8
    requires forall i, j :: 0 <= i < j < |ids| ==> ids[i] != ids[j]
    requires forall j :: 0 <= j < 8 ==> (on[j] <==> ids[8 * k + j] in Where(ids, states, true))
    ensures states[k] == Packed(on)
  {
    forall j | 0 <= j < 8 ensures on[j] <==> states[k] / PLACES[j] % 2 == 1 {
      BitAt(ids, states, k, j);
    }
    PackedIsByte(states[k], on);
  }

  lemma BitAt(ids: seq<string>, states: bytes, k: nat, j: nat)
    requires |ids| <= 8 * |states| && 8 * k + 8 <= |ids| && j < 8
    requires forall i, j :: 0 <= i < j < |ids| ==> ids[i] != ids[j]
    ensures ids[8 * k + j] in Where(ids, states, true) <==> states[k] / PLACES[j] % 2 == 1
  {
    BitsRecovered(ids, states, 8 * k + j, true);
    assert (8 * k + j) / 8 == k && (8 * k + j) % 8 == j;
  }
}
