/** The registration loop of one rendezvous server (`start_udp` of
    rendezvous_mediator.rs): a response and a timer tick, on a clock in microseconds. */
module Registration {
  import opened Common

  const MIN_REG_TIMEOUT := 3_000
  const MAX_REG_TIMEOUT := 30_000
  const REG_INTERVAL := 15_000
  const DNS_INTERVAL := 60_000
  const MAX_FAILS1 := 2
  const MAX_FAILS2 := 4

  function Abs(x: int): nat { if x < 0 then -x else x }

  function Millis(micros: nat): nat { micros / 1000 }

  /** The variables of the loop, and the latency it last published for the host. */
  datatype Reg = Reg(fails: nat, regTimeout: nat, lastResp: Option<nat>, lastSent: Option<nat>,
                     lastDns: nat, emaLatency: nat, oldLatency: nat, published: Option<int>)

  function Initial(now: nat): Reg
  {
    Reg(0, MIN_REG_TIMEOUT, None, None, now, 0, 0, None)
  }

  function Ema(ema: nat, sample: nat): nat
  {
    if ema == 0 then sample else sample / 30 + ema * 29 / 30
  }

  /** The time since the outstanding registration, zero when there is none. */
  function Sample(r: Reg, now: nat): int
  {
    if r.lastSent.Some? then now - r.lastSent.value else 0
  }

  predicate Accepted(sample: int) {
    0 <= sample <= 1_000_000
  }

  function Max(a: nat, b: nat): nat { if a >= b then a else b }

  function Resp(r: Reg, now: nat): Reg
  {
    var sample := Sample(r, now);
    var r := r.(lastResp := Some(now), fails := 0, regTimeout := MIN_REG_TIMEOUT, lastSent := None);
    if !Accepted(sample) then r
    else
      var latency := Ema(r.emaLatency, sample);
      var r := r.(emaLatency := latency);
      if Abs(latency - r.oldLatency) > Max(latency / 5, 3000) || r.oldLatency == 0
      then r.(oldLatency := latency, published := Some(latency))
      else r
  }

  predicate Expired(r: Reg, now: nat) {
    r.lastResp.Some? ==> now >= r.lastResp.value && Millis(now - r.lastResp.value) >= REG_INTERVAL
  }

  predicate TimedOut(r: Reg, now: nat) {
    r.lastSent.Some? && now >= r.lastSent.value && Millis(now - r.lastSent.value) >= r.regTimeout
  }

  /** Whether this tick sends a registration. */
  predicate Sends(r: Reg, now: nat) {
    TimedOut(r, now) || (r.lastSent.None? && Expired(r, now))
  }

  function Tick(r: Reg, now: nat, public: bool): Reg
  {
    if !Sends(r, now) then r
    else if !TimedOut(r, now) then r.(lastSent := Some(now))
    else
      var fails := r.fails + 1;
      var regTimeout := if public && r.regTimeout < MAX_REG_TIMEOUT then r.regTimeout + MIN_REG_TIMEOUT else r.regTimeout;
      var r := r.(fails := fails, regTimeout := regTimeout, lastSent := Some(now));
      if fails >= MAX_FAILS2 then
        r.(published := Some(-1), oldLatency := 0,
           lastDns := if now >= r.lastDns && Millis(now - r.lastDns) > DNS_INTERVAL then now else r.lastDns)
      else if fails >= MAX_FAILS1 then r.(published := Some(0), oldLatency := 0)
      else r
  }

  /** The loop's variables as an object, with the two branches of its `select!`. */
  class Mediator {
    var fails: nat
    var regTimeout: nat
    var lastRegisterResp: Option<nat>
    var lastRegisterSent: Option<nat>
    var lastDnsCheck: nat
    var emaLatency: nat
    var oldLatency: nat
    var published: Option<int>

    ghost function State(): Reg
      reads this
    {
      Reg(fails, regTimeout, lastRegisterResp, lastRegisterSent, lastDnsCheck, emaLatency, oldLatency, published)
    }

    constructor (now: nat)
      ensures State() == Initial(now)
    {
      fails, regTimeout := 0, MIN_REG_TIMEOUT;
      lastRegisterResp, lastRegisterSent := None, None;
      lastDnsCheck := now;
      emaLatency, oldLatency, published := 0, 0, None;
    }

    method UpdateLatency(now: nat)
      requires lastRegisterSent.Some? ==> lastRegisterSent.value <= now
      modifies this
      ensures State() == Resp(old(State()), now)
    {
      lastRegisterResp := Some(now);
      fails := 0;
      regTimeout := MIN_REG_TIMEOUT;
      var latency := if lastRegisterSent.Some? then now - lastRegisterSent.value else 0;
      lastRegisterSent := None;
      if latency < 0 || latency > 1_000_000 {
        return;
      }
      if emaLatency == 0 {
        emaLatency := latency;
      } else {
        emaLatency := latency / 30 + emaLatency * 29 / 30;
        latency := emaLatency;
      }
      assert latency == emaLatency == Ema(old(emaLatency), Sample(old(State()), now));
      var n := latency / 5;
      if n < 3000 {
        n := 3000;
      }
      if Abs(latency - oldLatency) > n || oldLatency <= 0 {
        published := Some(latency);
        oldLatency := latency;
      }
    }

    /** One timer tick while SHOULD_EXIT is not set. */
    method OnTick(now: nat, usingPublicServer: bool) returns (registered: bool)
      requires lastRegisterSent.Some? ==> lastRegisterSent.value <= now
      requires lastRegisterResp.Some? ==> lastRegisterResp.value <= now
      requires lastDnsCheck <= now
      modifies this
      ensures State() == Tick(old(State()), now, usingPublicServer)
      ensures registered == Sends(old(State()), now)
    {
      var expired := lastRegisterResp.Some? ==> Millis(now - lastRegisterResp.value) >= REG_INTERVAL;
      var timeout := lastRegisterSent.Some? && Millis(now - lastRegisterSent.value) >= regTimeout;
      if usingPublicServer {
        if timeout && regTimeout < MAX_REG_TIMEOUT {
          regTimeout := regTimeout + MIN_REG_TIMEOUT;
        }
      }
      registered := false;
      if timeout || (lastRegisterSent.None? && expired) {
        if timeout {
          fails := fails + 1;
          if fails >= MAX_FAILS2 {
            published := Some(-1);
            oldLatency := 0;
            if Millis(now - lastDnsCheck) > DNS_INTERVAL {
              lastDnsCheck := now;
            }
          } else if fails >= MAX_FAILS1 {
            published := Some(0);
            oldLatency := 0;
          }
        }
        registered := true;
        lastRegisterSent := Some(now);
      }
    }
  }
}
