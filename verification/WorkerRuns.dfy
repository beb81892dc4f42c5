/** What holds over every run of the worker, against a source that may duplicate, reorder, forge or expire
    deliveries, a runner that may fail anywhere, and acknowledgements that may be lost
    (services/api/internal/agent/worker.go:77-126). */
module WorkerRuns {
  import opened Wrappers
  import opened Base64
  import opened Snapshots
  import opened Differences
  import opened WireGuard
  import opened Convergence
  import opened Workers

  ghost predicate Consistent(s: State)
  {
    s.peers == ByKey(s.current.peers)
  }

  lemma StepConsistent(c: Config, s: State, e: Environment)
    requires Consistent(s)
    ensures Consistent(Step(c, s, e).0)
    ensures s.current.generation <= Step(c, s, e).0.current.generation
    ensures Step(c, s, e).0.current != s.current ==>
              Attempted(c, s, e) == Some(Step(c, s, e).0.current) && Step(c, s, e).1 == Success
  {
    hide ValidPublicKey, ValidHeader, ValidPeers, Succeeds;
  }

  /** The believed peers are always exactly those of the current snapshot. */
  lemma {:induction false} PeersMatchCurrent(c: Config, s: State, es: seq<Environment>, n: nat)
    requires n <= |es| && Consistent(s)
    ensures Consistent(At(c, s, es, n))
  {
    if n > 0 {
      PeersMatchCurrent(c, s, es, n - 1);
      StepConsistent(c, At(c, s, es, n - 1), es[n - 1]);
    }
  }

  /** The adopted generation never decreases. */
  lemma {:induction false} GenerationMonotone(c: Config, s: State, es: seq<Environment>, m: nat, n: nat)
    requires m <= n <= |es| && Consistent(s)
    ensures At(c, s, es, m).current.generation <= At(c, s, es, n).current.generation
  {
    if m < n {
      GenerationMonotone(c, s, es, m, n - 1);
      PeersMatchCurrent(c, s, es, n - 1);
      StepConsistent(c, At(c, s, es, n - 1), es[n - 1]);
    }
  }

  function CallIds(calls: seq<Call>): seq<string>
  {
    if calls == [] then [] else CallIds(calls[..|calls| - 1]) + [calls[|calls| - 1].id]
  }

  function ClaimedIds(es: seq<Environment>, n: nat): seq<string>
    requires n <= |es|
  {
    if n == 0 then []
    else ClaimedIds(es, n - 1) + if es[n - 1].claim.Claimed? then [es[n - 1].claim.delivery.id] else []
  }

  /** Each claimed delivery gets exactly one Ack or Retry, for its own id and in claim order. */
  lemma {:induction false} OneCallPerClaim(c: Config, s: State, es: seq<Environment>, n: nat)
    requires n <= |es| && Configured(c)
    ensures CallIds(At(c, s, es, n).calls) == CallIds(s.calls) + ClaimedIds(es, n)
  {
    hide Step;
    if n > 0 {
      OneCallPerClaim(c, s, es, n - 1);
      var before := At(c, s, es, n - 1);
      OneCallPerStep(c, before, es[n - 1]);
      if es[n - 1].claim.Claimed? {
        var after := At(c, s, es, n).calls;
        assert after[..|after| - 1] == before.calls;
      }
    }
  }

  lemma OneCallPerStep(c: Config, s: State, e: Environment)
    requires Configured(c)
    ensures var after := Step(c, s, e).0.calls;
            if e.claim.Claimed? then |after| > 0 && after[..|after| - 1] == s.calls
              && after[|after| - 1].id == e.claim.delivery.id
            else after == s.calls
  {
    hide ValidPublicKey, ValidHeader, ValidPeers, Succeeds;
  }

  /** A delivery is acknowledged only if it is authentic and either stale or completely applied. */
  lemma AckOnlyWhenDone(c: Config, s: State, e: Environment)
    requires e.claim.Claimed?
    requires Step(c, s, e).0.calls == s.calls + [Ack(e.claim.delivery.id, e.claim.delivery.generation)]
    ensures Authentic(c, e.claim.delivery, e.now)
    ensures || e.claim.delivery.generation <= s.current.generation
            || Step(c, s, e).0.table == Final(ByKey(Received(e.claim.delivery).peers), s.peers, s.table)
  {
    hide ValidPublicKey, ValidHeader, ValidPeers;
    var d := e.claim.delivery;
    assert (s.calls + [Retry(d.id)])[|s.calls|] != (s.calls + [Ack(d.id, d.generation)])[|s.calls|];
    if Attempted(c, s, e).Some? {
      AttemptedRun(c, s, e);
    }
  }

  /** What an attempt leaves in the table. */
  lemma AttemptedRun(c: Config, s: State, e: Environment)
    requires Attempted(c, s, e).Some?
    ensures var ops := DiffOf(ByKey(Attempted(c, s, e).value.peers), s.peers);
            && Step(c, s, e).0.table == After(s.table, ops, Applied(c.interfaceName, ops, e.fault))
            && (Succeeds(c.interfaceName, ops, e.fault) ==> Applied(c.interfaceName, ops, e.fault) == |ops|)
            && (Step(c, s, e).1 == Success ==>
                  Succeeds(c.interfaceName, ops, e.fault) && Step(c, s, e).0.current == Attempted(c, s, e).value)
            && (Step(c, s, e).1 != Success ==> Step(c, s, e).0.current == s.current && Step(c, s, e).0.peers == s.peers)
  {
    hide ValidPublicKey, ValidHeader, ValidPeers;
    var ops := DiffOf(ByKey(Attempted(c, s, e).value.peers), s.peers);
    if Succeeds(c.interfaceName, ops, e.fault) {
      ProgressComplete(c.interfaceName, ops, e.fault, 0);
    }
  }

  lemma NotAttempted(c: Config, s: State, e: Environment)
    requires Attempted(c, s, e) == None
    ensures Step(c, s, e).0.table == s.table && Step(c, s, e).0.current == s.current && Step(c, s, e).0.peers == s.peers
  {
    hide ValidPublicKey, ValidHeader, ValidPeers, Succeeds;
  }

  /** After an adoption the table is the adopted peer set iff the table before was restorable for it. */
  lemma AdoptionConvergesExactly(c: Config, s: State, e: Environment)
    requires Consistent(s) && Exclusive(s.table)
    requires Attempted(c, s, e).Some? && Step(c, s, e).1 == Success
    ensures var s' := Step(c, s, e).0;
            s'.table == TableOf(s'.peers) <==>
            DistinctOwners(s'.peers) && Restorable(s'.peers, s.peers, s.table)
  {
    hide ValidPublicKey, ValidHeader, ValidPeers, Succeeds;
    StepConsistent(c, s, e);
    AttemptedRun(c, s, e);
    ByKeyConsistent(s.current.peers);
    ByKeyConsistent(Attempted(c, s, e).value.peers);
    ConvergesExactly(ByKey(Attempted(c, s, e).value.peers), s.peers, s.table);
  }

  // ---- Redelivery keeps the gateway in step ----

  /** The snapshot whose unfinished attempt changed the table, if any. */
  ghost function Unfinished(c: Config, s: State, es: seq<Environment>, n: nat): Option<Snapshot>
    requires n <= |es|
  {
    if n == 0 then None
    else
      var before := At(c, s, es, n - 1);
      var (after, outcome) := Step(c, before, es[n - 1]);
      match Attempted(c, before, es[n - 1])
      case None => Unfinished(c, s, es, n - 1)
      case Some(snapshot) =>
        if outcome == Success then None
        else if after.table == before.table then Unfinished(c, s, es, n - 1)
        else Some(snapshot)
  }

  /** Snapshots name each address once, and while an attempt is unfinished only the same peer set is attempted. */
  ghost predicate Redelivers(c: Config, s: State, es: seq<Environment>)
  {
    forall i :: 0 <= i < |es| ==>
      var attempted := Attempted(c, At(c, s, es, i), es[i]);
      attempted.Some? ==>
        && DistinctOwners(ByKey(attempted.value.peers))
        && (Unfinished(c, s, es, i).Some? ==>
              ByKey(attempted.value.peers) == ByKey(Unfinished(c, s, es, i).value.peers))
  }

  ghost predicate InStep(s: State, unfinished: Option<Snapshot>)
  {
    match unfinished
    case None => s.table == TableOf(s.peers)
    case Some(snapshot) => DistinctOwners(ByKey(snapshot.peers)) && Restorable(ByKey(snapshot.peers), s.peers, s.table)
  }

  lemma AttemptRestorable(c: Config, s: State, e: Environment, unfinished: Option<Snapshot>)
    requires Consistent(s) && InStep(s, unfinished)
    requires Attempted(c, s, e).Some? && DistinctOwners(ByKey(Attempted(c, s, e).value.peers))
    requires unfinished.Some? ==> ByKey(unfinished.value.peers) == ByKey(Attempted(c, s, e).value.peers)
    ensures Restorable(ByKey(Attempted(c, s, e).value.peers), s.peers, s.table)
    ensures Restorable(ByKey(Attempted(c, s, e).value.peers), s.peers, Step(c, s, e).0.table)
  {
    var desired := ByKey(Attempted(c, s, e).value.peers);
    AttemptedRun(c, s, e);
    ByKeyConsistent(s.current.peers);
    ByKeyConsistent(Attempted(c, s, e).value.peers);
    if unfinished == None {
      ObservedRestorable(desired, s.peers);
    }
    PrefixRestorable(desired, s.peers, s.table, Applied(c.interfaceName, DiffOf(desired, s.peers), e.fault));
  }

  lemma ExclusiveStep(c: Config, s: State, e: Environment)
    requires Exclusive(s.table)
    ensures Exclusive(Step(c, s, e).0.table)
  {
    if Attempted(c, s, e) == None {
      NotAttempted(c, s, e);
    } else {
      AttemptedRun(c, s, e);
      var ops := DiffOf(ByKey(Attempted(c, s, e).value.peers), s.peers);
      AfterExclusive(s.table, ops, Applied(c.interfaceName, ops, e.fault));
    }
  }

  /** No address ever has two owners on the gateway. */
  lemma {:induction false} AlwaysExclusive(c: Config, s: State, es: seq<Environment>, n: nat)
    requires n <= |es| && Exclusive(s.table)
    ensures Exclusive(At(c, s, es, n).table)
  {
    if n > 0 {
      AlwaysExclusive(c, s, es, n - 1);
      ExclusiveStep(c, At(c, s, es, n - 1), es[n - 1]);
    }
  }

  lemma InStepStep(c: Config, s: State, e: Environment, unfinished: Option<Snapshot>)
    requires Consistent(s) && Exclusive(s.table) && InStep(s, unfinished)
    requires Attempted(c, s, e).Some?
    requires DistinctOwners(ByKey(Attempted(c, s, e).value.peers))
    requires unfinished.Some? ==> ByKey(unfinished.value.peers) == ByKey(Attempted(c, s, e).value.peers)
    ensures var (s', outcome) := Step(c, s, e);
            InStep(s', if outcome == Success then None
                       else if s'.table == s.table then unfinished
                       else Attempted(c, s, e))
  {
    AttemptRestorable(c, s, e, unfinished);
    AttemptedRun(c, s, e);
    StepConsistent(c, s, e);
    if Step(c, s, e).1 == Success {
      AdoptionConvergesExactly(c, s, e);
    }
  }

  /** If every attempt that disturbed the table and failed is followed by redelivery of the same peers, then
      whenever nothing is unfinished, and so after every adoption, the table is exactly the current peer set. */
  lemma {:induction false} RedeliveryKeepsInStep(c: Config, s: State, es: seq<Environment>, n: nat)
    requires n <= |es|
    requires Consistent(s) && s.table == TableOf(s.peers) && DistinctOwners(s.peers)
    requires Redelivers(c, s, es)
    ensures InStep(At(c, s, es, n), Unfinished(c, s, es, n))
    ensures n > 0 && At(c, s, es, n).current != At(c, s, es, n - 1).current ==>
              At(c, s, es, n).table == TableOf(ByKey(At(c, s, es, n).current.peers))
  {
    if n > 0 {
      var before, e := At(c, s, es, n - 1), es[n - 1];
      RedeliveryKeepsInStep(c, s, es, n - 1);
      PeersMatchCurrent(c, s, es, n - 1);
      PeersMatchCurrent(c, s, es, n);
      TableExclusiveExactly(s.peers);
      AlwaysExclusive(c, s, es, n - 1);
      StepConsistent(c, before, e);
      if Attempted(c, before, e) == None {
        NotAttempted(c, before, e);
      } else {
        InStepStep(c, before, e, Unfinished(c, s, es, n - 1));
      }
    }
  }

  // ---- Without redelivery ----

  /** An attempt whose acknowledgement is lost changes the table completely and the worker's beliefs not at all. */
  lemma LostAck(c: Config, s: State, e: Environment)
    requires Attempted(c, s, e).Some? && e.fault == NoFault && !e.ackOk
    requires ValidInterfaceName(c.interfaceName)
    requires forall k :: k in s.peers ==> ValidPublicKey(k)
    requires Consistent(s) && |DifferingKeys(ByKey(Attempted(c, s, e).value.peers), s.peers)| <= MAX_PEERS
    ensures var s' := Step(c, s, e).0;
            && s'.current == s.current && s'.peers == s.peers
            && s'.table == Final(ByKey(Attempted(c, s, e).value.peers), s.peers, s.table)
  {
    hide ValidPublicKey;
    var desired := ByKey(Attempted(c, s, e).value.peers);
    ByKeyConsistent(s.current.peers);
    ByKeyConsistent(Attempted(c, s, e).value.peers);
    DiffAccepted(c.interfaceName, desired, s.peers, NoFault);
    AttemptedRun(c, s, e);
  }

  /** Adopting an empty snapshot while believing in no peers runs no command at all. */
  lemma EmptySnapshotLeavesTable(c: Config, s: State, e: Environment)
    requires Attempted(c, s, e).Some? && Attempted(c, s, e).value.peers == []
    requires s.peers == map[] && e.ackOk && c.interfaceName != ""
    ensures Step(c, s, e).0.table == s.table && Step(c, s, e).0.current == Attempted(c, s, e).value
    ensures Step(c, s, e).0.peers == map[]
  {
    var none: map<string, Peer> := map[];
    assert ByKey([]) == none && DifferingKeys(none, none) == {};
    AttemptedRun(c, s, e);
  }

  /** A snapshot is applied but its acknowledgement is lost; then a newer empty snapshot arrives. The worker
      adopts it, believes in no peers, and the gateway keeps the withdrawn peer. */
  lemma LostAckLeavesPeer(c: Config, p: Peer, sig1: seq<Byte>, sig2: seq<Byte>, id1: string, id2: string)
    requires Configured(c) && ValidInterfaceName(c.interfaceName) && WellFormedPeer(p)
    requires |sig1| == |sig2| == ED25519_SIGNATURE_SIZE
    requires c.check(c.key, Snapshot(c.gatewayId, 1, 100, [p], []), sig1)
    requires c.check(c.key, Snapshot(c.gatewayId, 2, 100, [], []), sig2)
    ensures var first := Snapshot(c.gatewayId, 1, 100, [p], sig1);
            var second := Snapshot(c.gatewayId, 2, 100, [], sig2);
            var es := [Environment(Claimed(Delivery(id1, 1, Some(first), sig1)), 10, NoFault, false),
                       Environment(Claimed(Delivery(id2, 2, Some(second), sig2)), 20, NoFault, true)];
            var end := At(c, State(NO_SNAPSHOT, map[], map[], []), es, 2);
            end.current == second && end.peers == map[] && end.table == map[p.publicKey := Owned(p)]
  {
    hide ValidPublicKey, Step;
    var first := Snapshot(c.gatewayId, 1, 100, [p], sig1);
    var second := Snapshot(c.gatewayId, 2, 100, [], sig2);
    var e1 := Environment(Claimed(Delivery(id1, 1, Some(first), sig1)), 10, NoFault, false);
    var e2 := Environment(Claimed(Delivery(id2, 2, Some(second), sig2)), 20, NoFault, true);
    var s0, es := State(NO_SNAPSHOT, map[], map[], []), [e1, e2];
    var one := map[p.publicKey := p];
    assert ByKey([p]) == one by { assert [p][..0] == []; }
    assert DifferingKeys(one, map[]) == {p.publicKey};
    assert Attempted(c, s0, e1) == Some(first);
    LostAck(c, s0, e1);
    RestartConvergesExactly(one, s0.table);
    assert TableOf(one) == map[p.publicKey := Owned(p)];
    var s1 := At(c, s0, es, 1);
    assert s1 == Step(c, s0, e1).0 by { assert At(c, s0, es, 0) == s0; }
    assert Attempted(c, s1, e2) == Some(second);
    EmptySnapshotLeavesTable(c, s1, e2);
  }
}
