/** The gateway agent's worker: claim a delivery, verify it, apply the difference, then acknowledge it or
    hand it back for retry (services/api/internal/agent/worker.go). */
module Workers {
  import opened Arithmetic
  import opened Wrappers
  import opened Base64
  import opened Snapshots
  import opened Differences
  import opened WireGuard

  /** payload is None when the JSON does not decode. */
  datatype Delivery = Delivery(id: string, generation: int, payload: Option<Snapshot>, signature: seq<Byte>)

  datatype Claim = NoDelivery | ClaimFailed | Claimed(delivery: Delivery)

  /** Everything one call of ApplyOnce learns from outside: the claim, the clock, the command runner, the reply to Ack.
      */
  datatype Environment = Environment(claim: Claim, now: int, fault: Fault, ackOk: bool)

  datatype Call = Ack(id: string, generation: int) | Retry(id: string)

  datatype Outcome = Success | NoWork | Failure

  datatype Config = Config(gatewayId: string, interfaceName: string, key: seq<Byte>, check: SignatureCheck)

  /** The worker's fields, the kernel table it drives, and the calls it has made to its source. */
  datatype State = State(current: Snapshot, peers: map<string, Peer>, table: Table, calls: seq<Call>)

  const NO_SNAPSHOT := Snapshot("", 0, ZERO_TIME, [], [])

  predicate Configured(c: Config)
  {
    c.gatewayId != "" && |c.key| == ED25519_KEY_SIZE
  }

  function Received(d: Delivery): Snapshot
    requires d.payload.Some?
  {
    d.payload.value.(signature := d.signature)
  }

  predicate Authentic(c: Config, d: Delivery, now: int)
  {
    && d.payload.Some?
    && Received(d).generation == d.generation
    && Verified(Received(d), now, c.gatewayId, c.key, c.check)
  }

  /** The snapshot whose difference is computed and applied by this call, if it gets that far. */
  ghost function Attempted(c: Config, s: State, e: Environment): Option<Snapshot>
  {
    if Configured(c) && e.claim.Claimed? && Authentic(c, e.claim.delivery, e.now) then
      var snapshot := Received(e.claim.delivery);
      if snapshot.generation > s.current.generation && Valid(snapshot, ZERO_TIME, snapshot.gatewayId)
        then Some(snapshot)
      else None
    else None
  }

  ghost function Step(c: Config, s: State, e: Environment): (State, Outcome)
  {
    if !Configured(c) then (s, Failure)
    else match e.claim
      case NoDelivery => (s, NoWork)
      case ClaimFailed => (s, Failure)
      case Claimed(d) =>
        var retried := s.(calls := s.calls + [Retry(d.id)]);
        var acked := s.(calls := s.calls + [Ack(d.id, d.generation)]);
        if !Authentic(c, d, e.now) then (retried, Failure)
        else if d.generation <= s.current.generation then (acked, if e.ackOk then Success else Failure)
        else match Attempted(c, s, e)
          case None => (retried, Failure)
          case Some(snapshot) =>
            var desired := ByKey(snapshot.peers);
            var ops := DiffOf(desired, s.peers);
            var table := After(s.table, ops, Applied(c.interfaceName, ops, e.fault));
            if !Succeeds(c.interfaceName, ops, e.fault) then (retried.(table := table), Failure)
            else if !e.ackOk then (acked.(table := table), Failure)
            else (acked.(current := snapshot, peers := desired, table := table), Success)
  }

  class DeliverySource {
    var calls: seq<Call>

    constructor ()
      ensures calls == []
    {
      calls := [];
    }

    method AckDelivery(id: string, generation: int)
      modifies this
      ensures calls == old(calls) + [Ack(id, generation)]
    {
      calls := calls + [Ack(id, generation)];
    }

    method RetryDelivery(id: string)
      modifies this
      ensures calls == old(calls) + [Retry(id)]
    {
      calls := calls + [Retry(id)];
    }
  }

  class Worker {
    const config: Config
    const backend: WireGuardBackend
    const source: DeliverySource
    var current: Snapshot
    var currentPeers: map<string, Peer>

    ghost predicate Valid()
      reads this
    {
      config.interfaceName == backend.interfaceName && currentPeers == ByKey(current.peers)
    }

    ghost function View(): State
      reads this, backend, source
    {
      State(current, currentPeers, backend.table, source.calls)
    }

    constructor (c: Config, b: WireGuardBackend, s: DeliverySource)
      requires c.interfaceName == b.interfaceName
      ensures config == c && backend == b && source == s
      ensures Valid() && current == NO_SNAPSHOT && currentPeers == map[]
    {
      config, backend, source := c, b, s;
      current, currentPeers := NO_SNAPSHOT, map[];
    }

    method ApplyOnce(e: Environment) returns (outcome: Outcome)
      requires Valid()
      modifies this, backend, source
      ensures Valid() && (View(), outcome) == Step(config, old(View()), e)
    {
      hide ValidPublicKey, ValidHeader, ValidPeers, Succeeds;
      if config.gatewayId == "" || |config.key| != ED25519_KEY_SIZE {
        return Failure;
      }
      match e.claim {
        case NoDelivery => return NoWork;
        case ClaimFailed => return Failure;
        case Claimed(d) =>
          outcome := Process(d, e);
      }
    }

    method Process(d: Delivery, e: Environment) returns (outcome: Outcome)
      requires Valid() && Configured(config) && e.claim == Claimed(d)
      modifies this, backend, source
      ensures Valid() && (View(), outcome) == Step(config, old(View()), e)
    {
      hide ValidPublicKey, ValidHeader, ValidPeers, Succeeds, After, Applied, DiffOf, ByKey, Verified;
      if d.payload == None {
        source.RetryDelivery(d.id);
        return Failure;
      }
      var snapshot := d.payload.value.(signature := d.signature);
      if snapshot.generation != d.generation {
        source.RetryDelivery(d.id);
        return Failure;
      }
      if !Verified(snapshot, e.now, config.gatewayId, config.key, config.check) {
        source.RetryDelivery(d.id);
        return Failure;
      }
      if snapshot.generation <= current.generation {
        source.AckDelivery(d.id, d.generation);
        return if e.ackOk then Success else Failure;
      }
      var diff := Diff(snapshot, currentPeers);
      if diff.Err? {
        source.RetryDelivery(d.id);
        return Failure;
      }
      ByKeyConsistent(snapshot.peers);
      ByKeyConsistent(current.peers);
      DiffMinimal(ByKey(snapshot.peers), currentPeers, diff.value);
      var applied := backend.Apply(diff.value, e.fault);
      if !applied {
        source.RetryDelivery(d.id);
        return Failure;
      }
      source.AckDelivery(d.id, d.generation);
      if !e.ackOk {
        return Failure;
      }
      current := snapshot;
      currentPeers := IndexByKey(snapshot.peers);
      return Success;
    }

    /** Poll until the context ends, here after as many attempts as the environment offers; the result is the
        delay chosen after each attempt. */
    method Run(interval: int, environment: seq<Environment>) returns (r: Option<seq<int>>)
      requires Valid()
      modifies this, backend, source
      ensures Valid()
      ensures interval <= 0 ==> r == None && View() == old(View())
      ensures interval > 0 ==> View() == At(config, old(View()), environment, |environment|)
      ensures interval > 0 ==> r.Some? && |r.value| == |environment| && forall i :: 0 <= i < |environment| ==>
                r.value[i] == Delay(interval, ConsecutiveFailures(config, old(View()), environment, i + 1))
    {
      hide Step, Delay;
      if interval <= 0 {
        return None;
      }
      DelayDoubles(interval, 0);
      var backoff := interval;
      var delays: seq<int> := [];
      for n := 0 to |environment|
        invariant Valid() && View() == At(config, old(View()), environment, n)
        invariant backoff == Delay(interval, ConsecutiveFailures(config, old(View()), environment, n))
        invariant |delays| == n && forall i :: 0 <= i < n ==>
                    delays[i] == Delay(interval, ConsecutiveFailures(config, old(View()), environment, i + 1))
      {
        ghost var before := View();
        ghost var failures := ConsecutiveFailures(config, old(View()), environment, n);
        var outcome := ApplyOnce(environment[n]);
        DelayDoubles(interval, failures);
        if outcome == Failure {
          if backoff < MAX_BACKOFF {
            backoff := backoff * 2;
            if backoff > MAX_BACKOFF {
              backoff := MAX_BACKOFF;
            }
          }
        } else {
          backoff := interval;
        }
        delays := delays + [backoff];
      }
      return Some(delays);
    }
  }

  // ---- Runs ----

  /** The state after the first n calls of ApplyOnce. */
  ghost function At(c: Config, s: State, es: seq<Environment>, n: nat): State
    requires n <= |es|
  {
    if n == 0 then s else Step(c, At(c, s, es, n - 1), es[n - 1]).0
  }

  /** Failures since the last success or empty poll. */
  ghost function ConsecutiveFailures(c: Config, s: State, es: seq<Environment>, n: nat): nat
    requires n <= |es|
  {
    if n == 0 || Step(c, At(c, s, es, n - 1), es[n - 1]).1 != Failure then 0
    else ConsecutiveFailures(c, s, es, n - 1) + 1
  }

  const MAX_BACKOFF := 30_000_000_000

  /** The delay after k failures in a row. */
  function Delay(interval: int, k: nat): int
  {
    if interval >= MAX_BACKOFF then interval
    else if interval * Pow2(k) < MAX_BACKOFF then interval * Pow2(k)
    else MAX_BACKOFF
  }

  lemma DelayDoubles(interval: int, k: nat)
    requires interval > 0
    ensures Delay(interval, 0) == interval
    ensures Delay(interval, k + 1) ==
            var d := Delay(interval, k);
            if d < MAX_BACKOFF then (if d * 2 > MAX_BACKOFF then MAX_BACKOFF else d * 2) else d
  {
    assert interval * Pow2(k + 1) == 2 * (interval * Pow2(k));
  }

  lemma {:induction false} DelayBounds(interval: int, k: nat)
    requires interval > 0
    ensures interval <= Delay(interval, k) <= if interval > 30_000_000_000 then interval else 30_000_000_000
  {
    DelayDoubles(interval, k);
    if k > 0 {
      DelayBounds(interval, k - 1);
      DelayDoubles(interval, k - 1);
    }
  }

  /** After k failures in a row the interval has doubled k times, up to 30 seconds; an interval of 30 seconds or more
      stays. */
  lemma DelayExactly(interval: int, k: nat)
    requires interval > 0
    ensures interval >= 30_000_000_000 ==> Delay(interval, k) == interval
    ensures interval < 30_000_000_000 && interval * Pow2(k) < 30_000_000_000 ==>
        Delay(interval, k) == interval * Pow2(k)
    ensures interval < 30_000_000_000 <= interval * Pow2(k) ==> Delay(interval, k) == 30_000_000_000
    ensures Pow2(0) == 1 && Pow2(k + 1) == 2 * Pow2(k)
  {
  }
}
