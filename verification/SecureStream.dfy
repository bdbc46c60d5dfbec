/** The encrypted stream of tcp.rs: messages are sealed under a counted nonce and
    framed; frames of at most one byte pass in the clear. */
module SecureStream {
  import opened Common
  import opened Framing

  /** secretbox under one key, as a function of the nonce counter. */
  datatype SecretBox = SecretBox(seal: (nat, bytes) -> bytes, open: (nat, bytes) -> Option<bytes>)

  const MAC_LENGTH := 16

  /** Opening inverts sealing under the same counter, and a sealed text is longer than
      its message by the authenticator. */
  ghost predicate Lawful(box: SecretBox) {
    && (forall n, m :: box.open(n, box.seal(n, m)) == Some(m))
    && (forall n, m :: |box.seal(n, m)| == |m| + MAC_LENGTH)
    && (forall n, c :: box.open(n, c).Some? ==> |c| == |box.open(n, c).value| + MAC_LENGTH)
  }

  /** The laws can be met: by a box that only appends the authenticator. */
  lemma LawsCanBeMet()
    ensures Lawful(SecretBox((n, m) => m + Padding(),
                             (n, c) => if |c| >= MAC_LENGTH then Some(c[..|c| - MAC_LENGTH]) else None))
  {
    forall m: bytes ensures (m + Padding())[..|m|] == m {
    }
  }

  function Padding(): (p: bytes)
    ensures |p| == MAC_LENGTH
  {
    seq(MAC_LENGTH, _ => 0)
  }

  class Encrypt {
    const box: SecretBox
    var sent: nat
    var received: nat

    constructor (box: SecretBox)
      ensures this.box == box && sent == received == 0
    {
      this.box := box;
      sent, received := 0, 0;
    }

    method Enc(data: bytes) returns (r: bytes)
      modifies this`sent
      ensures sent == old(sent) + 1
      ensures r == box.seal(old(sent) + 1, data)
    {
      sent := sent + 1;
      r := box.seal(sent, data);
    }

    /** None is the decryption error. */
    method Dec(frame: bytes) returns (r: Option<bytes>)
      modifies this`received
      ensures (r, received) == Opened(box, old(received), frame)
    {
      if |frame| <= 1 {
        return Some(frame);
      }
      received := received + 1;
      r := box.open(received, frame);
    }
  }

  /** A sealed message, or bytes put on the wire as they are (heartbeats). */
  datatype Send = Sealed(msg: bytes) | Plain(raw: bytes) {
    function Payload(): bytes { if Sealed? then msg else raw }
  }

  /** The frames a sender produces after `n` sealed ones. */
  function WireFrom(box: SecretBox, n: nat, sends: seq<Send>): (r: seq<bytes>)
    ensures |r| == |sends|
    decreases |sends|
  {
    if sends == [] then []
    else match sends[0]
      case Sealed(msg) => [box.seal(n + 1, msg)] + WireFrom(box, n + 1, sends[1..])
      case Plain(raw) => [raw] + WireFrom(box, n, sends[1..])
  }

  function Payloads(sends: seq<Send>): (r: seq<bytes>)
    ensures |r| == |sends|
  {
    if sends == [] then [] else [sends[0].Payload()] + Payloads(sends[1..])
  }

  function SealedCount(sends: seq<Send>): nat
  {
    if sends == [] then 0 else (if sends[0].Sealed? then 1 else 0) + SealedCount(sends[1..])
  }

  /** One frame at the receiver after `n` opened ones: the bytes, and the new count. */
  function Opened(box: SecretBox, n: nat, frame: bytes): (Option<bytes>, nat)
  {
    if |frame| <= 1 then (Some(frame), n) else (box.open(n + 1, frame), n + 1)
  }

  /** The receiver's messages up to the first error, and whether there was none. */
  datatype Received = Received(msgs: seq<bytes>, ok: bool, count: nat)

  function Receive(box: SecretBox, n: nat, frames: seq<bytes>): Received
    decreases |frames|
  {
    if frames == [] then Received([], true, n)
    else
      var (m, n') := Opened(box, n, frames[0]);
      if m.None? then Received([], false, n')
      else
        var r := Receive(box, n', frames[1..]);
        r.(msgs := [m.value] + r.msgs)
  }

  predicate PlainIsShort(sends: seq<Send>) {
    forall i :: 0 <= i < |sends| && sends[i].Plain? ==> |sends[i].raw| <= 1
  }

  /** As long as only frames of at most one byte go in the clear, the two counters stay
      in step and every message arrives. */
  lemma {:induction false} InStep(box: SecretBox, n: nat, sends: seq<Send>)
    requires Lawful(box) && PlainIsShort(sends)
    ensures Receive(box, n, WireFrom(box, n, sends)) == Received(Payloads(sends), true, n + SealedCount(sends))
    decreases |sends|
  {
    if sends != [] {
      var n' := if sends[0].Sealed? then n + 1 else n;
      InStep(box, n', sends[1..]);
      assert WireFrom(box, n, sends)[1..] == WireFrom(box, n', sends[1..]);
    }
  }

  /** A longer clear frame is taken for a sealed one: what is received then is not
      what was sent. */
  lemma {:induction false} OutOfStep(box: SecretBox, n: nat, sends: seq<Send>)
    requires Lawful(box) && !PlainIsShort(sends)
    ensures Receive(box, n, WireFrom(box, n, sends)).msgs != Payloads(sends)
    decreases |sends|
  {
    var frames := WireFrom(box, n, sends);
    var r := Receive(box, n, frames);
    var n' := if sends[0].Sealed? then n + 1 else n;
    assert frames[1..] == WireFrom(box, n', sends[1..]);
    if sends[0].Plain? && |sends[0].raw| > 1 {
      assert r.msgs == [] || |r.msgs[0]| + MAC_LENGTH == |sends[0].raw|;
      assert Payloads(sends)[0] == sends[0].raw;
    } else {
      assert !PlainIsShort(sends[1..]) by {
        var i :| 0 <= i < |sends| && sends[i].Plain? && |sends[i].raw| > 1;
        assert sends[1..][i - 1] == sends[i];
      }
      OutOfStep(box, n', sends[1..]);
      assert Opened(box, n, frames[0]) == (Some(sends[0].Payload()), n');
      assert r.msgs[1..] == Receive(box, n', frames[1..]).msgs;
      assert Payloads(sends)[1..] == Payloads(sends[1..]);
    }
  }

  /** From the sender's calls to the receiver's messages, through any cutting of the
      byte stream: all messages arrive, in order, exactly when no clear frame is longer
      than one byte. */
  lemma SecureDelivery(box: SecretBox, n: nat, sends: seq<Send>, chunks: seq<bytes>, max: nat)
    requires Lawful(box)
    requires Sendable(WireFrom(box, n, sends), max)
    requires Concat(chunks) == Stream(WireFrom(box, n, sends))
    ensures var r := Receive(box, n, Deliver(AtHead, [], chunks, max).items);
            && (r.msgs == Payloads(sends) <==> PlainIsShort(sends))
            && (PlainIsShort(sends) ==> r.ok && r.count == n + SealedCount(sends))
  {
    FramesSurviveChunking(WireFrom(box, n, sends), chunks, max);
    if PlainIsShort(sends) {
      InStep(box, n, sends);
    } else {
      OutOfStep(box, n, sends);
    }
  }
}
