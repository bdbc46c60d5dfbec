/** The ring buffer under the playback buffer, written out: an array read from `head`,
    wrapping at its end. */
module Ring {

  type Sample = real

  /** The last `k` elements, or all when there are fewer. */
  function Last<T>(s: seq<T>, k: nat): (r: seq<T>)
    ensures |r| == if |s| <= k then |s| else k
  {
    if |s| <= k then s else s[|s| - k..]
  }

  function Min(a: nat, b: nat): nat { if a <= b then a else b }

  lemma LastOfTwo<T>(s: seq<T>, t: seq<T>, k: nat, kept: seq<T>)
    requires |s| <= k && |t| <= k < |s| + |t| && kept == s[|s| + |t| - k..]
    ensures Last(s + t, k) == kept + t
  {
  }

  lemma LastOfLong<T>(s: seq<T>, t: seq<T>, k: nat)
    requires |t| > k
    ensures Last(s + t, k) == t[|t| - k..]
  {
  }

  class RingBuffer {
    var data: array<Sample>
    var head: nat
    var len: nat

    ghost predicate Valid()
      reads this
    {
      head < data.Length && len <= data.Length
    }

    /** The array index of the `k`-th sample. */
    function Slot(k: nat): (i: nat)
      requires Valid() && k < data.Length
      reads this
      ensures i < data.Length
    {
      if head + k < data.Length then head + k else head + k - data.Length
    }

    ghost function Contents(): (s: seq<Sample>)
      requires Valid()
      reads this, data
      ensures |s| == len
      ensures forall k :: 0 <= k < len ==> s[k] == data[Slot(k)]
    {
      seq(len, k requires 0 <= k < len && Valid() reads this, data => data[Slot(k)])
    }

    constructor (capacity: nat)
      requires capacity > 0
      ensures Valid() && data.Length == capacity && Contents() == [] && fresh(data)
    {
      data := new Sample[capacity];
      head, len := 0, 0;
    }

    /** A new, empty buffer takes the old one's place. */
    method Reset(capacity: nat)
      requires capacity > 0
      modifies this
      ensures Valid() && data.Length == capacity && Contents() == [] && fresh(data)
    {
      data := new Sample[capacity];
      head, len := 0, 0;
    }

    method Skip(count: nat) returns (removed: nat)
      requires Valid()
      modifies this`head, this`len
      ensures Valid() && data == old(data) && removed == Min(count, old(len))
      ensures Contents() == old(Contents())[removed..]
    {
      removed := if count <= len then count else len;
      head := if head + removed < data.Length then head + removed else head + removed - data.Length;
      len := len - removed;
    }

    /** Appends as many samples as there is room for. */
    method PushSlice(elems: seq<Sample>) returns (pushed: nat)
      requires Valid()
      modifies this`len, data
      ensures Valid() && data == old(data) && pushed == Min(|elems|, data.Length - old(len))
      ensures Contents() == old(Contents()) + elems[..pushed]
    {
      pushed := if |elems| <= data.Length - len then |elems| else data.Length - len;
      ghost var before := Contents();
      var i := 0;
      while i < pushed
        invariant 0 <= i <= pushed && Valid() && data == old(data) && len == old(len) + i
        invariant Contents() == before + elems[..i]
      {
        var at := Slot(len);
        data[at] := elems[i];
        len := len + 1;
        i := i + 1;
        assert Contents() == before + elems[..i];
      }
    }

    /** Appends all samples, dropping the oldest, buffered or incoming, that do not fit. */
    method PushSliceOverwrite(elems: seq<Sample>)
      requires Valid()
      modifies this`head, this`len, data
      ensures Valid() && data == old(data)
      ensures Contents() == Last(old(Contents()) + elems, data.Length)
    {
      ghost var before := Contents();
      var vacant := data.Length - len;
      if |elems| <= vacant {
        var n := PushSlice(elems);
        assert elems[..n] == elems;
      } else if |elems| - vacant <= len {
        var removed := Skip(|elems| - vacant);
        ghost var kept := Contents();
        var n := PushSlice(elems);
        assert elems[..n] == elems;
        LastOfTwo(before, elems, data.Length, kept);
      } else {
        var removed := Skip(len);
        assert Contents() == [];
        var tail := elems[|elems| - data.Length..];
        var n := PushSlice(tail);
        assert tail[..n] == tail && [] + tail == tail;
        LastOfLong(before, elems, data.Length);
      }
    }

    method PopSlice(count: nat) returns (elems: seq<Sample>)
      requires Valid() && count <= len
      modifies this`head, this`len
      ensures Valid() && data == old(data)
      ensures elems == old(Contents())[..count] && Contents() == old(Contents())[count..]
    {
      elems := [];
      ghost var before := Contents();
      for i := 0 to count
        invariant elems == before[..i]
      {
        elems := elems + [data[Slot(i)]];
      }
      var removed := Skip(count);
    }
  }
}
