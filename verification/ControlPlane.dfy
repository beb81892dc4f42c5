/** The control plane and one gateway's agent together: transactions, publications, deliveries in any order
    and any number of times, partial applies, lost acknowledgements and agent restarts
    (services/api/internal/postgres/store.go, services/api/internal/agent/worker.go). */
module ControlPlane {
  import opened Wrappers
  import opened Base64
  import opened Snapshots
  import opened Differences
  import opened WireGuard
  import opened Convergence
  import opened Database
  import opened StoreTheorems
  import opened Reconciler
  import GatewayRuns
  import Lifecycle
  import StoreRuns
  import Workers
  import WorkerRuns

  /** published: the contents signed so far, for any gateway. */
  datatype State = State(db: Db, published: set<Snapshot>, agent: Workers.State)

  datatype Step =
    | Transact(step: Lifecycle.Step)
    | Publish(gateway: Id, generation: int, expiresAt: int)
    | Attempt(environment: Workers.Environment)
    | Restart

  /** Ed25519 is ideal: a signature checks only for a content that has been signed. Nothing else is asked of
      deliveries; any published snapshot may come at any time, again, or never. */
  ghost predicate Unforged(c: Workers.Config, s: State, step: Step)
  {
    step.Attempt? && step.environment.claim.Claimed? && step.environment.claim.delivery.payload.Some? ==>
      var received := Workers.Received(step.environment.claim.delivery);
      c.check(c.key, Unsigned(received), received.signature) ==> Unsigned(received) in s.published
  }

  ghost function Next(c: Workers.Config, s: State, step: Step): State
    requires Lifecycle.Inv(s.db)
  {
    match step
    case Transact(t) => s.(db := Lifecycle.Apply(s.db, t))
    case Publish(g, generation, expiresAt) =>
      s.(published := s.published + {Snapshot(g, generation, expiresAt, SnapshotPeers(s.db, g), [])})
    case Attempt(e) => s.(agent := Workers.Step(c, s.agent, e).0)
    case Restart => s.(agent := s.agent.(current := Workers.NO_SNAPSHOT, peers := map[]))
  }

  ghost function Run(c: Workers.Config, s: State, steps: seq<Step>, n: nat): (r: State)
    requires Lifecycle.Inv(s.db) && n <= |steps|
    ensures Lifecycle.Inv(r.db)
  {
    if n == 0 then s
    else
      var before := Run(c, s, steps, n - 1);
      NextKeepsInv(c, before, steps[n - 1]);
      Next(c, before, steps[n - 1])
  }

  lemma NextKeepsInv(c: Workers.Config, s: State, step: Step)
    requires Lifecycle.Inv(s.db)
    ensures Lifecycle.Inv(Next(c, s, step).db)
  {
    hide Lifecycle.Inv, Lifecycle.Apply, Workers.Step;
    if step.Transact? {
      StoreRuns.ApplyKeepsInv(s.db, step.step);
    }
  }

  ghost predicate AllUnforged(c: Workers.Config, s: State, steps: seq<Step>)
    requires Lifecycle.Inv(s.db)
  {
    forall i :: 0 <= i < |steps| ==> Unforged(c, Run(c, s, steps, i), steps[i])
  }

  // ---- No address reaches a peer it was not leased to ----

  /** Key k belongs to a device with an assignment on gateway g whose lease holds address a. */
  ghost predicate Leased(db: Db, g: Id, k: string, a: Address)
  {
    exists i :: i in db.assignments && LeasedBy(db, g, k, a, i)
  }

  ghost predicate LeasedBy(db: Db, g: Id, k: string, a: Address, i: Id)
  {
    i in db.assignments &&
    var row := db.assignments[i];
    && row.gateway == g && row.device in db.devices && db.devices[row.device].publicKey == k
    && row.lease in db.leases && (a == V4(db.leases[row.lease].ipv4) || a == V6(db.leases[row.lease].ipv6))
  }

  lemma LeasedPersists(db: Db, after: Db, g: Id, k: string, a: Address)
    requires Grows(db, after) && Leased(db, g, k, a)
    ensures Leased(after, g, k, a)
  {
    var i :| i in db.assignments && LeasedBy(db, g, k, a, i);
    assert SameIdentity(db.assignments[i], after.assignments[i]);
    assert SameDevice(db.devices[db.assignments[i].device], after.devices[db.assignments[i].device]);
    assert StoreRuns.SameLease(db.leases[db.assignments[i].lease], after.leases[db.assignments[i].lease]);
    assert LeasedBy(after, g, k, a, i);
  }

  /** Everything a peer list assigns was leased, on that gateway, to the device whose key it names. */
  ghost predicate PeersLeased(db: Db, g: Id, peers: seq<Peer>)
  {
    forall p, a :: p in peers && a in Owned(p) ==> Leased(db, g, p.publicKey, a)
  }

  ghost predicate TableLeased(db: Db, g: Id, t: Table)
  {
    forall k, a :: k in t && a in t[k] ==> Leased(db, g, k, a)
  }

  ghost predicate Sound(c: Workers.Config, s: State)
  {
    && (forall p :: p in s.published ==> PeersLeased(s.db, p.gatewayId, p.peers))
    && TableLeased(s.db, c.gatewayId, s.agent.table)
    && WorkerRuns.Consistent(s.agent) && Exclusive(s.agent.table)
  }

  lemma PublishedLeased(db: Db, g: Id)
    requires Lifecycle.Inv(db)
    ensures PeersLeased(db, g, SnapshotPeers(db, g))
  {
    assert Lifecycle.Schema(db);
    hide SnapshotPeers, SnapshotRows, Lifecycle.Inv, WellFormedRegions, Leased, PeerOf;
    var peers, rows := SnapshotPeers(db, g), SnapshotRows(db, g);
    forall p, a | p in peers && a in Owned(p)
      ensures Leased(db, g, p.publicKey, a)
    {
      var i :| 0 <= i < |peers| && peers[i] == p;
      RowLeased(db, g, rows[i], a);
    }
  }

  lemma RowLeased(db: Db, g: Id, i: Id, a: Address)
    requires Lifecycle.Schema(db) && i in LiveOn(db, g) && a in Owned(PeerOf(db, i))
    ensures Leased(db, g, PeerOf(db, i).publicKey, a)
  {
    hide WellFormedRegions;
    assert LeasedBy(db, g, PeerOf(db, i).publicKey, a, i);
  }

  /** A prefix of a difference leaves each key with addresses it had or is desired to have. */
  lemma {:induction false} PrefixWithin(t: Table, desired: map<string, Peer>, ops: seq<Operation>, n: nat, k: string,
      a: Address)
    requires n <= |ops| && Realises(desired, ops)
    requires k in After(t, ops, n) && a in After(t, ops, n)[k]
    ensures (k in t && a in t[k]) || (k in desired && a in Owned(desired[k]))
  {
    if n > 0 && k in After(t, ops, n - 1) && a in After(t, ops, n - 1)[k] {
      PrefixWithin(t, desired, ops, n - 1, k, a);
    }
  }

  lemma AttemptSound(c: Workers.Config, s: State, e: Workers.Environment)
    requires Lifecycle.Inv(s.db) && Sound(c, s) && Unforged(c, s, Attempt(e))
    ensures Sound(c, Next(c, s, Attempt(e)))
  {
    hide Lifecycle.Inv, Workers.Step, ValidPublicKey, ValidPeers, Leased, Exclusive;
    WorkerRuns.StepConsistent(c, s.agent, e);
    WorkerRuns.ExclusiveStep(c, s.agent, e);
    var attempted := Workers.Attempted(c, s.agent, e);
    if attempted == None {
      WorkerRuns.NotAttempted(c, s.agent, e);
    } else {
      WorkerRuns.AttemptedRun(c, s.agent, e);
      var snapshot := attempted.value;
      var desired := ByKey(snapshot.peers);
      assert Unsigned(snapshot) in s.published && snapshot.gatewayId == c.gatewayId;
      AttemptLeased(s.db, c.gatewayId, s.agent, snapshot,
                    Applied(c.interfaceName, DiffOf(desired, s.agent.peers), e.fault));
    }
  }

  lemma AttemptLeased(db: Db, g: Id, agent: Workers.State, snapshot: Snapshot, n: nat)
    requires PeersLeased(db, g, snapshot.peers) && TableLeased(db, g, agent.table) && WorkerRuns.Consistent(agent)
    requires n <= |DiffOf(ByKey(snapshot.peers), agent.peers)|
    ensures TableLeased(db, g, After(agent.table, DiffOf(ByKey(snapshot.peers), agent.peers), n))
  {
    hide Leased;
    var desired := ByKey(snapshot.peers);
    var ops := DiffOf(desired, agent.peers);
    ByKeyConsistent(snapshot.peers);
    ByKeyConsistent(agent.current.peers);
    DiffRealises(desired, agent.peers);
    forall k, a | k in After(agent.table, ops, n) && a in After(agent.table, ops, n)[k]
      ensures Leased(db, g, k, a)
    {
      PrefixWithin(agent.table, desired, ops, n, k, a);
    }
  }

  lemma TransactSound(c: Workers.Config, s: State, t: Lifecycle.Step)
    requires Lifecycle.Inv(s.db) && Sound(c, s)
    ensures Sound(c, Next(c, s, Transact(t)))
  {
    assert WellFormedRegions(s.db);
    hide Lifecycle.Inv, Lifecycle.Apply, Leased, Grows, Exclusive, WellFormedRegions;
    ApplyGrows(s.db, t);
    var after := Lifecycle.Apply(s.db, t);
    forall g, k, a | Leased(s.db, g, k, a)
      ensures Leased(after, g, k, a)
    {
      LeasedPersists(s.db, after, g, k, a);
    }
  }

  lemma NextSound(c: Workers.Config, s: State, step: Step)
    requires Lifecycle.Inv(s.db) && Sound(c, s) && Unforged(c, s, step)
    ensures Sound(c, Next(c, s, step))
  {
    hide Lifecycle.Inv, Workers.Step, Lifecycle.Apply, Leased, Exclusive, SnapshotPeers;
    match step
    case Transact(t) => TransactSound(c, s, t);
    case Publish(g, generation, expiresAt) => PublishedLeased(s.db, g);
    case Attempt(e) => AttemptSound(c, s, e);
    case Restart =>
      assert ByKey([]) == map[];
  }

  /** In every run, whatever is delivered, lost, repeated or interrupted, each address in the gateway's table is
      owned by one peer only, and was leased on this gateway to the device whose key owns it. */
  lemma {:induction false} NoMisrouting(c: Workers.Config, s: State, steps: seq<Step>, n: nat)
    requires Lifecycle.Inv(s.db) && n <= |steps| && AllUnforged(c, s, steps)
    requires s.published == {} && s.agent.table == map[] && s.agent.current == Workers.NO_SNAPSHOT
        && s.agent.peers == map[]
    ensures Sound(c, Run(c, s, steps, n))
  {
    hide Lifecycle.Inv, Sound, Next, Unforged;
    if n == 0 {
      StartSound(c, s);
    } else {
      NoMisrouting(c, s, steps, n - 1);
      NextSound(c, Run(c, s, steps, n - 1), steps[n - 1]);
    }
  }

  lemma StartSound(c: Workers.Config, s: State)
    requires s.published == {} && s.agent.table == map[] && s.agent.current == Workers.NO_SNAPSHOT
        && s.agent.peers == map[]
    ensures Sound(c, s)
  {
    assert ByKey([]) == map[];
  }

  // ---- A delivered snapshot ----

  /** An agent whose table is what it believes, adopting the snapshot published from db, ends with exactly the
      gateway's live assignments of that moment: their devices' keys, each with its lease's two addresses. */
  lemma AdoptionIsAssignments(c: Workers.Config, db: Db, agent: Workers.State, e: Workers.Environment, k: string)
    requires Lifecycle.Inv(db)
    requires WorkerRuns.Consistent(agent) && agent.table == TableOf(agent.peers) && DistinctOwners(agent.peers)
    requires Workers.Attempted(c, agent, e).Some? && Workers.Step(c, agent, e).1 == Workers.Success
    requires Workers.Attempted(c, agent, e).value.peers == SnapshotPeers(db, c.gatewayId)
    ensures var t := Workers.Step(c, agent, e).0.table;
            && (k in t <==> exists i :: i in LiveOn(db, c.gatewayId) && PeerOf(db, i).publicKey == k)
            && (forall i :: i in LiveOn(db, c.gatewayId) && PeerOf(db, i).publicKey == k ==>
                  k in t && t[k] == {V4(db.leases[db.assignments[i].lease].ipv4),
                    V6(db.leases[db.assignments[i].lease].ipv6)})
  {
    hide Workers.Step, Workers.Attempted, SnapshotPeers, Lifecycle.OneToOne, Lifecycle.StatesAgree,
      Lifecycle.Lockstep, Lifecycle.WithinCapacity, Lifecycle.ReplaysFaithful, Lifecycle.KeysDistinct,
      WellFormedRegion, Restorable;
    var desired := ByKey(SnapshotPeers(db, c.gatewayId));
    SnapshotPeersValid(db, c.gatewayId);
    TableExclusiveExactly(agent.peers);
    ObservedRestorable(desired, agent.peers);
    WorkerRuns.StepConsistent(c, agent, e);
    WorkerRuns.AttemptedRun(c, agent, e);
    WorkerRuns.AdoptionConvergesExactly(c, agent, e);
    SnapshotTable(db, c.gatewayId, k);
  }

  /** The gateway's table and rows carry out what a client was told. */
  ghost predicate Honours(c: Workers.Config, now: Db, device: Id, region: Id, told: TunnelConfiguration, t: Table)
  {
    && device in now.devices && c.gatewayId in now.gateways && region in now.regions
    && now.devices[device].publicKey in t
    && t[now.devices[device].publicKey] == {V4(told.ipv4), V6(told.ipv6)}
    && told.serverPublicKey == now.gateways[c.gatewayId].publicKey
    && told.endpointHost == now.gateways[c.gatewayId].endpointHost
    && told.endpointPort == now.gateways[c.gatewayId].endpointPort
    && told.dns4 == now.regions[region].dns4
    && told.dns6 == now.regions[region].dns6
  }

  /** A device has one assignment, and its row's references exist. */
  lemma OneAssignment(db: Db, a: Id, b: Id)
    requires Lifecycle.Inv(db) && a in db.assignments && b in db.assignments
        && db.assignments[a].device == db.assignments[b].device
    ensures a == b && db.assignments[a].device in db.devices && db.assignments[a].gateway in db.gateways
    ensures db.assignments[a].lease in db.leases && db.leases[db.assignments[a].lease].region in db.regions
  {
    hide Lifecycle.Agreeing, Lifecycle.LeasesAssigned, Lifecycle.StatesAgree, Lifecycle.Lockstep,
      Lifecycle.WithinCapacity, Lifecycle.ReplaysFaithful, Lifecycle.KeysDistinct, WellFormedRegion;
  }

  lemma AssignmentIsRouted(c: Workers.Config, now: Db, a: Id, agent: Workers.State, e: Workers.Environment)
    requires Lifecycle.Inv(now) && a in LiveOn(now, c.gatewayId)
    requires WorkerRuns.Consistent(agent) && agent.table == TableOf(agent.peers) && DistinctOwners(agent.peers)
    requires Workers.Attempted(c, agent, e).Some? && Workers.Step(c, agent, e).1 == Workers.Success
    requires Workers.Attempted(c, agent, e).value.peers == SnapshotPeers(now, c.gatewayId)
    ensures var row := now.assignments[a];
            Honours(c, now, row.device, now.leases[row.lease].region, ConfigurationOf(now, a),
                    Workers.Step(c, agent, e).0.table)
  {
    hide Workers.Step, Workers.Attempted, SnapshotPeers, WorkerRuns.Consistent, DistinctOwners, Lifecycle.Inv,
      TableOf;
    OneAssignment(now, a, a);
    AdoptionIsAssignments(c, now, agent, e, now.devices[now.assignments[a].device].publicKey);
    assert PeerOf(now, a).publicKey == now.devices[now.assignments[a].device].publicKey;
  }

  /** What a client was told is what its gateway routes: after the adoption of a snapshot published while the device's
      assignment is live, the device's key owns exactly the two addresses of the answer it got at any earlier point,
      and the answer named that gateway's endpoint and key and its region's DNS servers. */
  lemma AnswerIsRouted(c: Workers.Config, db: Db, steps: seq<Lifecycle.Step>, i: nat, j: nat, a: Id,
                       agent: Workers.State, e: Workers.Environment)
    requires Lifecycle.Inv(db) && i < j <= |steps| && steps[i].CreateTunnel?
    requires Create(StoreTheorems.Run(db, steps, i), steps[i].request).1.Ok?
    requires a in LiveOn(StoreTheorems.Run(db, steps, j), c.gatewayId)
    requires StoreTheorems.Run(db, steps, j).assignments[a].device == steps[i].request.device
    requires WorkerRuns.Consistent(agent) && agent.table == TableOf(agent.peers) && DistinctOwners(agent.peers)
    requires Workers.Attempted(c, agent, e).Some? && Workers.Step(c, agent, e).1 == Workers.Success
    requires Workers.Attempted(c, agent, e).value.peers == SnapshotPeers(StoreTheorems.Run(db, steps, j), c.gatewayId)
    ensures Honours(c, StoreTheorems.Run(db, steps, j), steps[i].request.device, steps[i].request.region,
                    Create(StoreTheorems.Run(db, steps, i), steps[i].request).1.value.configuration,
                    Workers.Step(c, agent, e).0.table)
  {
    hide StoreTheorems.Run, Create, Grows, Workers.Step, Workers.Attempted, WellFormedRegions, SnapshotPeers,
      WorkerRuns.Consistent, DistinctOwners, Lifecycle.Inv, TableOf, Honours;
    var now, r := StoreTheorems.Run(db, steps, j), steps[i].request;
    AssignmentIsRouted(c, now, a, agent, e);
    StoreTheorems.RunStep(db, steps, i);
    RunGrows(db, steps, i + 1, j);
    var b := AnswerCarried(StoreTheorems.Run(db, steps, i), r, now);
    OneAssignment(now, a, b);
  }

  /** The three steps that complete a removal: publish the gateway's snapshot, have it adopted, confirm it. */
  function Removal(g: Id, generation: int, expiresAt: int, e: Workers.Environment): seq<Step>
  {
    [Publish(g, generation, expiresAt), Attempt(e), Transact(Lifecycle.ConfirmSnapshot(g, generation))]
  }

  /** A completed removal revokes the device and frees its lease, and leaves the gateway routing both of the lease's
      addresses to the device's key: the snapshot that is confirmed still carries it. */
  lemma RevokedStillRouted(c: Workers.Config, s: State, a: Id, generation: int, expiresAt: int, e: Workers.Environment)
    requires Lifecycle.Inv(s.db) && GatewayRuns.Withdrawn(s.db, c.gatewayId, a, generation)
    requires WorkerRuns.Consistent(s.agent) && s.agent.table == TableOf(s.agent.peers) && DistinctOwners(s.agent.peers)
    requires Workers.Attempted(c, s.agent, e).Some? && Workers.Step(c, s.agent, e).1 == Workers.Success
    requires Workers.Attempted(c, s.agent, e).value.peers == SnapshotPeers(s.db, c.gatewayId)
    ensures var end, row := Run(c, s, Removal(c.gatewayId, generation, expiresAt, e), 3), s.db.assignments[a];
            && row.device in s.db.devices && row.lease in s.db.leases
            && Lifecycle.InState(end.db, row.device, Revoked)
            && row.lease in end.db.leases && end.db.leases[row.lease].released
            && s.db.devices[row.device].publicKey in end.agent.table
            && end.agent.table[s.db.devices[row.device].publicKey]
               == {V4(s.db.leases[row.lease].ipv4), V6(s.db.leases[row.lease].ipv6)}
  {
    hide Lifecycle.Inv, Workers.Step, Workers.Attempted, SnapshotPeers, WorkerRuns.Consistent, DistinctOwners,
      TableOf, Confirm;
    var row := s.db.assignments[a];
    GatewayRuns.RevokedInSnapshot(s.db, c.gatewayId, a, generation);
    AssignmentIsRouted(c, s.db, a, s.agent, e);
    RemovalEnds(c, s, generation, expiresAt, e);
  }

  lemma RemovalEnds(c: Workers.Config, s: State, generation: int, expiresAt: int, e: Workers.Environment)
    requires Lifecycle.Inv(s.db)
    ensures var end := Run(c, s, Removal(c.gatewayId, generation, expiresAt, e), 3);
            end.db == Confirm(s.db, c.gatewayId, generation).0 && end.agent == Workers.Step(c, s.agent, e).0
  {
    hide Lifecycle.Inv, Workers.Step, SnapshotPeers, Confirm;
    var steps := Removal(c.gatewayId, generation, expiresAt, e);
    assert Run(c, s, steps, 0) == s;
    assert Run(c, s, steps, 1).db == s.db && Run(c, s, steps, 1).agent == s.agent;
    assert Run(c, s, steps, 2).db == s.db && Run(c, s, steps, 2).agent == Workers.Step(c, s.agent, e).0;
  }
}
