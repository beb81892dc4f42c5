/** What a call of ApplyOnce does, decided from the delivery, the clock, the beliefs, the runner and the reply alone
    (services/api/internal/agent/worker.go:77-126, services/api/internal/agent/snapshot.go:48-90). */
module WorkerOutcomes {
  import opened Wrappers
  import opened Base64
  import opened Snapshots
  import opened Differences
  import opened WireGuard
  import opened Convergence
  import opened Workers
  import opened WorkerRuns

  /** What a worker of this gateway may act on at this time: a decoded payload of the announced generation, for this
      gateway, not expired, with at most 100000 valid peers, under a 64-byte signature that checks. */
  predicate Actionable(c: Config, d: Delivery, now: int)
  {
    d.payload.Some? &&
    var s := d.payload.value;
    && s.generation == d.generation && d.generation > 0
    && s.gatewayId == c.gatewayId && now < s.expiresAt
    && |s.peers| <= 100000 && ValidPeers(s.peers)
    && |d.signature| == 64 && c.check(c.key, s.(signature := []), d.signature)
  }

  lemma AuthenticExactly(c: Config, d: Delivery, now: int)
    requires Configured(c)
    ensures Authentic(c, d, now) <==> Actionable(c, d, now)
  {
    hide ValidPeers;
    if d.payload.Some? {
      assert Unsigned(Received(d)) == d.payload.value.(signature := []);
    }
  }

  /** How many of n commands reach the kernel. */
  function Reached(n: nat, fault: Fault): nat
  {
    if n > 100000 then 0
    else if fault.FailsAt? && fault.command < n then fault.command + (if fault.tookEffect then 1 else 0)
    else n
  }

  lemma {:induction false} ProgressAccepted(interfaceName: string, ops: seq<Operation>, fault: Fault, n: nat)
    requires n <= |ops| && forall i :: 0 <= i < |ops| ==> Accepted(interfaceName, ops[i])
    ensures Progress(interfaceName, ops, fault, n) ==
            if fault.FailsAt? && n <= fault.command < |ops| then fault.command + (if fault.tookEffect then 1 else 0)
            else |ops|
    decreases |ops| - n
  {
    hide Accepted;
    if n < |ops| {
      ProgressAccepted(interfaceName, ops, fault, n + 1);
    }
  }

  ghost predicate ValidKeys(s: State)
  {
    forall k :: k in s.peers ==> ValidPublicKey(k)
  }

  /** Whether the change is taken: at most 100000 commands, an interface name that can be used if there is any command,
      and no command that fails. */
  predicate Takes(interfaceName: string, n: nat, fault: Fault)
  {
    && n <= 100000 && interfaceName != "" && (n > 0 ==> ValidInterfaceName(interfaceName))
    && (fault.FailsAt? ==> fault.command >= n)
  }

  /** From beliefs with valid keys to a valid peer list: whether all commands are run, and how many have effect. */
  lemma ApplicationExactly(interfaceName: string, peers: seq<Peer>, s: State, fault: Fault)
    requires ValidPeers(peers) && Consistent(s) && ValidKeys(s)
    ensures var n, ops := |DifferingKeys(ByKey(peers), s.peers)|, DiffOf(ByKey(peers), s.peers);
            && |ops| == n && Reached(n, fault) <= n
            && (Succeeds(interfaceName, ops, fault) <==> Takes(interfaceName, n, fault))
            && Applied(interfaceName, ops, fault) == if ValidInterfaceName(interfaceName) then Reached(n, fault) else 0
  {
    hide ValidPublicKey, DiffOf, DifferingKeys, ByKey, WellFormedPeer, ValidPeers;
    var ops := DiffOf(ByKey(peers), s.peers);
    if ValidInterfaceName(interfaceName) {
      ByKeyConsistent(peers);
      ByKeyConsistent(s.current.peers);
      ListedWellFormed(peers);
      DiffAccepted(interfaceName, ByKey(peers), s.peers, fault);
      AllOperationsAccepted(interfaceName, ByKey(peers), s.peers);
      hide Accepted, Succeeds, ValidInterfaceName;
      ProgressAccepted(interfaceName, ops, fault, 0);
    } else if |ops| > 0 {
      RefusedStops(interfaceName, ops, 0, |ops|);
    }
  }

  lemma ListedWellFormed(peers: seq<Peer>)
    requires ValidPeers(peers)
    ensures forall p :: p in peers ==> WellFormedPeer(p) && ValidPublicKey(p.publicKey)
  {
    hide ValidPublicKey;
    forall p | p in peers
      ensures WellFormedPeer(p)
    {
      var i :| 0 <= i < |peers| && peers[i] == p;
    }
  }

  /** A signed, current and newer delivery for this gateway is attempted; nothing else is. The difference checks the
      expiry once more, against the zero time. */
  lemma AttemptedExactly(c: Config, s: State, e: Environment)
    requires Configured(c)
    ensures Attempted(c, s, e).Some? <==>
            && e.claim.Claimed? && Actionable(c, e.claim.delivery, e.now)
            && e.claim.delivery.generation > s.current.generation
            && e.claim.delivery.payload.value.expiresAt > 0
    ensures Attempted(c, s, e).Some? ==>
              var d := e.claim.delivery; Attempted(c, s, e) == Some(d.payload.value.(signature := d.signature))
  {
    hide ValidPeers;
    if e.claim.Claimed? {
      AuthenticExactly(c, e.claim.delivery, e.now);
    }
  }

  /** A worker without a usable configuration does nothing. */
  lemma UnconfiguredFails(c: Config, s: State, e: Environment)
    requires c.gatewayId == "" || |c.key| != 32
    ensures Step(c, s, e) == (s, Failure)
  {
  }

  /** Without a delivery nothing changes; an empty poll is no failure. */
  lemma EmptyPoll(c: Config, s: State, e: Environment)
    requires c.gatewayId != "" && |c.key| == 32 && !e.claim.Claimed?
    ensures Step(c, s, e) == (s, if e.claim.NoDelivery? then NoWork else Failure)
  {
  }

  /** A delivery that may not be acted on is handed back; table and beliefs stay. */
  lemma RefusedDelivery(c: Config, s: State, e: Environment)
    requires c.gatewayId != "" && |c.key| == 32 && e.claim.Claimed? && !Actionable(c, e.claim.delivery, e.now)
    ensures Step(c, s, e) == (s.(calls := s.calls + [Retry(e.claim.delivery.id)]), Failure)
  {
    hide ValidPeers, ValidHeader;
    AuthenticExactly(c, e.claim.delivery, e.now);
    hide Authentic, Actionable;
  }

  /** One that is not newer than the current snapshot is acknowledged; table and beliefs stay. */
  lemma StaleDelivery(c: Config, s: State, e: Environment)
    requires c.gatewayId != "" && |c.key| == 32 && e.claim.Claimed? && Actionable(c, e.claim.delivery, e.now)
    requires e.claim.delivery.generation <= s.current.generation
    ensures var d := e.claim.delivery;
            Step(c, s, e) == (s.(calls := s.calls + [Ack(d.id, d.generation)]), if e.ackOk then Success else Failure)
  {
    hide ValidPeers, ValidHeader;
    AuthenticExactly(c, e.claim.delivery, e.now);
    hide Authentic, Actionable;
  }

  /** A newer one is applied. If all of the change is taken it is acknowledged, and once the acknowledgement is through
      it is the current snapshot; if not it is handed back, and what was run stays in the table. */
  lemma NewerDelivery(c: Config, s: State, e: Environment)
    requires c.gatewayId != "" && |c.key| == 32 && e.claim.Claimed? && Actionable(c, e.claim.delivery, e.now)
    requires e.claim.delivery.generation > s.current.generation && e.claim.delivery.payload.value.expiresAt > 0
    requires Consistent(s) && ValidKeys(s)
    ensures var d, (after, outcome) := e.claim.delivery, Step(c, s, e);
            var desired := ByKey(d.payload.value.peers);
            var n := |DifferingKeys(desired, s.peers)|;
            var reached := if ValidInterfaceName(c.interfaceName) then Reached(n, e.fault) else 0;
            && reached <= |DiffOf(desired, s.peers)| && after.table == After(s.table, DiffOf(desired, s.peers), reached)
            && (outcome == Success <==> Takes(c.interfaceName, n, e.fault) && e.ackOk)
            && outcome != NoWork
            && after.calls == s.calls +
                 [if Takes(c.interfaceName, n, e.fault) then Ack(d.id, d.generation) else Retry(d.id)]
            && (outcome == Success ==>
                  after.current == d.payload.value.(signature := d.signature) && after.peers == desired)
            && (outcome == Failure ==> after.current == s.current && after.peers == s.peers)
  {
    hide ValidPeers, ValidHeader, ValidPublicKey, Succeeds, Applied, DiffOf, DifferingKeys, ByKey, After,
      ValidInterfaceName;
    AuthenticExactly(c, e.claim.delivery, e.now);
    AttemptedExactly(c, s, e);
    ApplicationExactly(c.interfaceName, e.claim.delivery.payload.value.peers, s, e.fault);
    hide Authentic, Attempted, Takes, Reached;
  }

  /** A clock before the zero time is the one way for a newer delivery to fail before any command is run. */
  lemma AncientDelivery(c: Config, s: State, e: Environment)
    requires c.gatewayId != "" && |c.key| == 32 && e.claim.Claimed? && Actionable(c, e.claim.delivery, e.now)
    requires e.claim.delivery.generation > s.current.generation && e.claim.delivery.payload.value.expiresAt <= 0
    ensures Step(c, s, e) == (s.(calls := s.calls + [Retry(e.claim.delivery.id)]), Failure)
  {
    hide ValidPeers, ValidHeader;
    AuthenticExactly(c, e.claim.delivery, e.now);
    AttemptedExactly(c, s, e);
    hide Authentic, Attempted, Actionable;
  }

  // ---- Over runs ----

  lemma StepKeysValid(c: Config, s: State, e: Environment)
    requires Consistent(s) && ValidKeys(s)
    ensures ValidKeys(Step(c, s, e).0)
  {
    hide ValidPublicKey, Step, ByKey, WellFormedPeer;
    StepConsistent(c, s, e);
    StepPeers(c, s, e);
    var after := Step(c, s, e).0;
    if after.current != s.current {
      ByKeyConsistent(after.current.peers);
      ListedWellFormed(after.current.peers);
    }
  }

  lemma StepPeers(c: Config, s: State, e: Environment)
    ensures Step(c, s, e).0.current != s.current ==> ValidPeers(Step(c, s, e).0.current.peers)
  {
    hide ValidPeers;
  }

  /** The believed keys are valid in every state reached, so that the outcome lemmas apply throughout. */
  lemma {:induction false} KeysStayValid(c: Config, s: State, es: seq<Environment>, n: nat)
    requires n <= |es| && Consistent(s) && ValidKeys(s)
    ensures Consistent(At(c, s, es, n)) && ValidKeys(At(c, s, es, n))
  {
    hide Step, ValidKeys;
    PeersMatchCurrent(c, s, es, n);
    if n > 0 {
      KeysStayValid(c, s, es, n - 1);
      StepKeysValid(c, At(c, s, es, n - 1), es[n - 1]);
    }
  }

  /** A snapshot becomes current only by a call whose clock is before its expiry. */
  lemma AdoptedInTime(c: Config, s: State, es: seq<Environment>, n: nat)
    requires n < |es| && Consistent(s)
    ensures var before, after := At(c, s, es, n), At(c, s, es, n + 1);
            after.current != before.current ==> es[n].now < after.current.expiresAt
  {
    hide Step, ValidPeers;
    PeersMatchCurrent(c, s, es, n);
    StepConsistent(c, At(c, s, es, n), es[n]);
    if Configured(c) {
      AttemptedExactly(c, At(c, s, es, n), es[n]);
    }
  }

  /** An expired delivery is handed back whenever it comes, and changes neither the table nor the beliefs. */
  lemma ExpiredHandedBack(c: Config, s: State, es: seq<Environment>, n: nat)
    requires n < |es| && c.gatewayId != "" && |c.key| == 32 && es[n].claim.Claimed?
    requires es[n].claim.delivery.payload.Some? && es[n].claim.delivery.payload.value.expiresAt <= es[n].now
    ensures var before, after := At(c, s, es, n), At(c, s, es, n + 1);
            after == before.(calls := before.calls + [Retry(es[n].claim.delivery.id)])
  {
    hide Step;
    RefusedDelivery(c, At(c, s, es, n), es[n]);
  }
}
