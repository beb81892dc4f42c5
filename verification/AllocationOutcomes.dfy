/** What the store's transactions answer and change, told from the rows alone: allocation, revocation request and
    confirmation (services/api/internal/postgres/store.go:175-216, 363-373, 472-702). */
module AllocationOutcomes {
  import opened Arithmetic
  import opened Wrappers
  import opened Base64
  import opened Ordering
  import opened Addresses
  import opened Texts
  import opened Database
  import opened Lifecycle
  import opened StoreRuns
  import opened StoreTheorems
  import opened Capacity

  // ---- Placement ----

  /** A ready gateway of the region that carries fewer live assignments than it may. */
  ghost predicate CanTake(db: Db, region: Id, g: Id)
  {
    g in db.gateways && db.gateways[g].region == region && db.gateways[g].state == Ready
    && Load(db, g) < db.gateways[g].capacity
  }

  /** The placement is the gateway that can take one more with the fewest live assignments, the first by id among
      equals, and there is none exactly when no gateway can. */
  lemma PlacementExactly(db: Db, region: Id, g: Id)
    ensures Placement(db, region) == Some(g) <==>
            CanTake(db, region, g) && forall h :: CanTake(db, region, h) && h != g ==>
              Load(db, g) < Load(db, h) || (Load(db, g) == Load(db, h) && Less(g, h))
    ensures Placement(db, region) == None <==> forall h :: !CanTake(db, region, h)
  {
    hide Load;
    assert forall h :: CanTake(db, region, h) <==> HasRoom(db, region, h);
    if IsPlacement(db, region, g) {
      PlacementUnique(db, region, g);
    }
  }

  // ---- Who is served ----

  /** A device's live assignment. */
  ghost predicate LiveOf(db: Db, device: Id, a: Id)
  {
    a in db.assignments && db.assignments[a].device == device && db.assignments[a].state != Removed
  }

  lemma LiveOfExisting(db: Db, device: Id)
    requires Inv(db)
    ensures Existing(db, device) == None <==> forall a :: !LiveOf(db, device, a)
    ensures forall a :: LiveOf(db, device, a) ==>
              Existing(db, device) == Some(a) && db.assignments[a].gateway in db.gateways
              && db.assignments[a].lease in db.leases
              && db.leases[db.assignments[a].lease].region == db.gateways[db.assignments[a].gateway].region
  {
    hide LeasesAssigned, Lockstep, WithinCapacity, KeysDistinct, ReplaysFaithful, WellFormedRegion, WithdrawnInactive,
      RevokedRemoved;
    forall a | LiveOf(db, device, a)
      ensures Holds(db, device, a)
    {
      assert Unreleased(db, db.assignments[a].lease);
    }
    assert forall a :: Holds(db, device, a) ==> LiveOf(db, device, a);
  }

  predicate WellFormedRequest(r: Request)
  {
    TrimSpace(r.owner) != "" && TrimSpace(r.device) != "" && TrimSpace(r.region) != "" && 16 <= |r.key| <= 128
  }

  predicate OwnDevice(db: Db, owner: Id, device: Id)
  {
    device in db.devices && db.devices[device].owner == owner
  }

  predicate OpenRegion(db: Db, region: Id)
  {
    region in db.regions && db.regions[region].available
  }

  /** Some gateway can take one more, and each pool has a candidate left. */
  ghost predicate HasCapacity(db: Db, region: Id)
    requires Inv(db) && region in db.regions
  {
    && (exists g :: CanTake(db, region, g))
    && |LiveLeases(db, region)| < |Window(db.regions[region].pool4)|
    && |LiveLeases(db, region)| < |Window(db.regions[region].pool6)|
  }

  /** The first reason not to serve a request, in the order in which the transaction finds them; none if it serves it.
      */
  ghost function Reason(db: Db, r: Request): Option<Error>
    requires Inv(db)
  {
    var key := ReplayKey(r.owner, r.device, r.key);
    if !WellFormedRequest(r) then Some(InvalidInput)
    else if !OwnDevice(db, r.owner, r.device) then Some(NotFound)
    else if db.devices[r.device].state == RevocationPending || db.devices[r.device].state == Revoked then
      Some(DeviceNotActive)
    else if key in db.replays then if db.replays[key].region == r.region then None else Some(Conflict)
    else if !OpenRegion(db, r.region) then Some(NotFound)
    else if exists a :: LiveOf(db, r.device, a) then
      if exists a :: LiveOf(db, r.device, a) && db.assignments[a].gateway in db.gateways
                     && db.gateways[db.assignments[a].gateway].region == r.region
      then None else Some(DeviceAlreadyAllocated)
    else if !HasCapacity(db, r.region) then Some(CapacityExhausted)
    else if r.leaseId in db.leases || r.assignmentId in db.assignments then Some(Conflict)
    else None
  }

  /** The request gets as far as looking for the device's live assignment. */
  predicate ReachesAllocation(db: Db, r: Request)
  {
    && WellFormedRequest(r) && OwnDevice(db, r.owner, r.device) && db.devices[r.device].state == DeviceActive
    && ReplayKey(r.owner, r.device, r.key) !in db.replays && OpenRegion(db, r.region)
  }

  /** What AnsweredExactly says. */
  ghost predicate Answers(db: Db, r: Request, after: Db, result: Result<Reply, Error>)
    requires Inv(db)
  {
    match Reason(db, r)
    case Some(error) => after == db && result == Err(error)
    case None => result.Ok? && (result.value.created <==> ReplayKey(r.owner, r.device, r.key) !in db.replays)
  }

  lemma NotEntitled(db: Db, r: Request)
    requires Inv(db)
    requires !WellFormedRequest(r) || !OwnDevice(db, r.owner, r.device) || db.devices[r.device].state != DeviceActive
    ensures WellFormedRegions(db) && Answers(db, r, Create(db, r).0, Create(db, r).1)
  {
    assert WellFormedRegions(db);
    hide Inv, TrimSpace, WellFormedRegions, Allocate, Existing, HasCapacity, LiveOf, OpenRegion, ConfigurationOf;
  }

  lemma RecordedReason(db: Db, r: Request)
    requires Inv(db) && WellFormedRequest(r) && OwnDevice(db, r.owner, r.device)
    requires db.devices[r.device].state == DeviceActive && ReplayKey(r.owner, r.device, r.key) in db.replays
    ensures Reason(db, r) ==
            if db.replays[ReplayKey(r.owner, r.device, r.key)].region == r.region then None else Some(Conflict)
  {
    hide Inv, TrimSpace, HasCapacity, LiveOf, OpenRegion;
  }

  lemma RecordedAnswer(db: Db, r: Request)
    requires WellFormedRegions(db) && WellFormedRequest(r) && OwnDevice(db, r.owner, r.device)
    requires db.devices[r.device].state == DeviceActive && ReplayKey(r.owner, r.device, r.key) in db.replays
    ensures var recorded := db.replays[ReplayKey(r.owner, r.device, r.key)];
            Create(db, r).0 == db
            && (recorded.region == r.region ==> Create(db, r).1 == Ok(Reply(recorded.configuration, false)))
            && (recorded.region != r.region ==> Create(db, r).1 == Err(Conflict))
  {
    hide TrimSpace, WellFormedRegions, Allocate, Existing, ConfigurationOf;
  }

  lemma ClosedAnswer(db: Db, r: Request)
    requires Inv(db) && WellFormedRequest(r) && OwnDevice(db, r.owner, r.device)
    requires db.devices[r.device].state == DeviceActive && ReplayKey(r.owner, r.device, r.key) !in db.replays
    requires !OpenRegion(db, r.region)
    ensures WellFormedRegions(db) && Answers(db, r, Create(db, r).0, Create(db, r).1)
  {
    assert WellFormedRegions(db);
    hide Inv, TrimSpace, WellFormedRegions, Allocate, Existing, HasCapacity, LiveOf, ConfigurationOf;
  }

  lemma LiveAnswer(db: Db, r: Request, a: Id)
    requires Inv(db) && ReachesAllocation(db, r) && LiveOf(db, r.device, a)
    ensures a in db.assignments && db.assignments[a].gateway in db.gateways
    ensures var result := Create(db, r).1;
            if db.gateways[db.assignments[a].gateway].region == r.region then result.Ok? && result.value.created
            else result == Err(DeviceAlreadyAllocated)
  {
    assert WellFormedRegions(db);
    LiveOfExisting(db, r.device);
    hide Inv, Allocate, TrimSpace, WellFormedRegions, Existing, ConfigurationOf;
  }

  lemma NewAnswer(db: Db, r: Request)
    requires Inv(db) && ReachesAllocation(db, r) && Existing(db, r.device) == None
    ensures Create(db, r) == Allocate(db, r)
  {
    assert WellFormedRegions(db);
    hide Inv, Allocate, TrimSpace, WellFormedRegions, Existing;
  }

  lemma LateReason(db: Db, r: Request, a: Id)
    requires Inv(db) && ReachesAllocation(db, r) && LiveOf(db, r.device, a) && db.assignments[a].gateway in db.gateways
    requires forall b :: LiveOf(db, r.device, b) ==> b == a
    ensures Reason(db, r) == if db.gateways[db.assignments[a].gateway].region == r.region then None
                             else Some(DeviceAlreadyAllocated)
  {
    hide Inv, HasCapacity, TrimSpace;
  }

  lemma NewReason(db: Db, r: Request)
    requires Inv(db) && ReachesAllocation(db, r) && forall a :: !LiveOf(db, r.device, a)
    ensures Reason(db, r) ==
            if !HasCapacity(db, r.region) then Some(CapacityExhausted)
            else if r.leaseId in db.leases || r.assignmentId in db.assignments then Some(Conflict)
            else None
  {
    hide Inv, HasCapacity, TrimSpace, LiveOf;
  }

  lemma RecordedAnswered(db: Db, r: Request)
    requires Inv(db) && WellFormedRequest(r) && OwnDevice(db, r.owner, r.device)
    requires db.devices[r.device].state == DeviceActive && ReplayKey(r.owner, r.device, r.key) in db.replays
    ensures WellFormedRegions(db) && Answers(db, r, Create(db, r).0, Create(db, r).1)
  {
    assert WellFormedRegions(db);
    hide Inv, Create, WellFormedRequest, WellFormedRegions, Reason;
    RecordedAnswer(db, r);
    RecordedReason(db, r);
    if db.replays[ReplayKey(r.owner, r.device, r.key)].region == r.region {
      assert Reason(db, r) == None;
    } else {
      assert Reason(db, r) == Some(Conflict);
    }
  }

  lemma EarlyAnswered(db: Db, r: Request)
    requires Inv(db) && !ReachesAllocation(db, r)
    ensures WellFormedRegions(db) && Answers(db, r, Create(db, r).0, Create(db, r).1)
  {
    hide Inv, Create, WellFormedRequest, WellFormedRegions, OpenRegion, Answers;
    if WellFormedRequest(r) && OwnDevice(db, r.owner, r.device) && db.devices[r.device].state == DeviceActive {
      if ReplayKey(r.owner, r.device, r.key) in db.replays {
        RecordedAnswered(db, r);
      } else {
        ClosedAnswer(db, r);
      }
    } else {
      NotEntitled(db, r);
    }
  }

  lemma LateAnswered(db: Db, r: Request)
    requires Inv(db) && ReachesAllocation(db, r)
    ensures WellFormedRegions(db) && Answers(db, r, Create(db, r).0, Create(db, r).1)
  {
    assert WellFormedRegions(db);
    hide Inv, Create, Allocate, HasCapacity, WellFormedRequest, WellFormedRegions, Existing, LiveOf, Reason;
    if Create(db, r).1.Err? {
      CreateErrs(db, r);
    }
    LiveOfExisting(db, r.device);
    if a :| LiveOf(db, r.device, a) {
      LiveAnswer(db, r, a);
      LateReason(db, r, a);
    } else {
      NewAnswer(db, r);
      NewExactly(db, r);
      NewReason(db, r);
    }
  }

  /** A request is served exactly when there is no reason against it; otherwise that reason is the error and nothing
      changes. The answer says created unless the key was recorded before. */
  lemma AnsweredExactly(db: Db, r: Request)
    requires Inv(db)
    ensures WellFormedRegions(db)
    ensures match Reason(db, r)
            case Some(error) => Create(db, r) == (db, Err(error))
            case None =>
              && Create(db, r).1.Ok?
              && (Create(db, r).1.value.created <==> ReplayKey(r.owner, r.device, r.key) !in db.replays)
  {
    assert WellFormedRegions(db);
    hide Inv, Create, WellFormedRegions, Reason, ReachesAllocation;
    if ReachesAllocation(db, r) {
      LateAnswered(db, r);
    } else {
      EarlyAnswered(db, r);
    }
  }

  /** The branch without a live assignment. */
  lemma NewExactly(db: Db, r: Request)
    requires Inv(db) && r.region in db.regions && Existing(db, r.device) == None
    ensures var result := Allocate(db, r).1;
            if !HasCapacity(db, r.region) then result == Err(CapacityExhausted)
            else if r.leaseId in db.leases || r.assignmentId in db.assignments then result == Err(Conflict)
            else result.Ok? && result.value.created
  {
    hide OneToOne, Lockstep, WithinCapacity, KeysDistinct, ReplaysFaithful, Window, LiveLeases, Load, Insert,
      AssignmentClashes, LeaseClashes, FirstFree, ActiveIPv4, ActiveIPv6, WithdrawnInactive, RevokedRemoved;
    ExhaustedExactly(db, r);
    assert forall g :: CanTake(db, r.region, g) <==> IsReady(db, r.region, g) && Load(db, g) < db.gateways[g].capacity;
    if Allocate(db, r).1.Err? {
      AllocateErrs(db, r);
    }
    InsertRefusesTaken(db, r);
  }

  lemma InsertRefusesTaken(db: Db, r: Request)
    requires r.region in db.regions && WellFormedRegion(db.regions[r.region])
    ensures Allocate(db, r).1.Ok? ==>
              r.leaseId !in db.leases && r.assignmentId !in db.assignments && Allocate(db, r).1.value.created
  {
    hide FirstFree, ActiveIPv4, ActiveIPv6, LeaseClashes, AssignmentClashes;
  }

  /** One pending assignment on g, one lease, and a configuration that says so and lasts a day. */
  ghost predicate Allocated(db: Db, r: Request, g: Id, ipv4: int, ipv6: int, after: Db, result: Result<Reply, Error>)
  {
    && g in db.gateways && r.region in db.regions
    && after.devices == db.devices && after.regions == db.regions && after.gateways == db.gateways
    && after.leases == db.leases[r.leaseId := Lease(r.region, r.device, ipv4, ipv6, false)]
    && after.assignments == db.assignments[r.assignmentId :=
         Assignment(r.device, g, r.leaseId, Pending, 1, 0, r.now + 86_400_000_000_000)]
    && var region, gateway := db.regions[r.region], db.gateways[g];
       result == Ok(Reply(TunnelConfiguration(r.assignmentId, gateway.endpointHost, gateway.endpointPort,
                                              gateway.publicKey, ipv4, ipv6, region.dns4, region.dns6,
                                              r.now + 86_400_000_000_000), true))
  }

  lemma InsertAllocates(db: Db, r: Request, g: Id, ipv4: int, ipv6: int)
    requires Placed(db, r, g, ipv4, ipv6)
    ensures Allocated(db, r, g, ipv4, ipv6, Insert(db, r, g, ipv4, ipv6).0, Insert(db, r, g, ipv4, ipv6).1)
  {
    hide Window, Base, Pow2, Load, LeaseClashes, AssignmentClashes;
  }

  /** A new allocation goes to the placement and to the least free address of each pool. */
  lemma NewAllocationExactly(db: Db, r: Request) returns (g: Id, ipv4: int, ipv6: int)
    requires Inv(db) && ReachesAllocation(db, r) && (forall a :: !LiveOf(db, r.device, a)) && Reason(db, r) == None
    ensures WellFormedRegions(db) && WellFormedRegion(db.regions[r.region])
    ensures Allocated(db, r, g, ipv4, ipv6, Create(db, r).0, Create(db, r).1)
    ensures Placement(db, r.region) == Some(g)
    ensures LeastFree(db.regions[r.region].pool4, ActiveIPv4(db, r.region), ipv4)
    ensures LeastFree(db.regions[r.region].pool6, ActiveIPv6(db, r.region), ipv6)
  {
    assert WellFormedRegions(db) && Schema(db) && InWindows(db) && WellFormedRegion(db.regions[r.region]);
    hide Inv, Create, WellFormedRequest, Existing, LiveOf, Reason, Insert, Allocate, InWindows, LeastFree, Window, Base,
      Pow2, WellFormedPool, ActiveIPv4, ActiveIPv6, FirstFree, Allocated, Schema, Placed, Placement, WellFormedRegions,
      OwnDevice;
    AnsweredExactly(db, r);
    LiveOfExisting(db, r.device);
    NewAnswer(db, r);
    g, ipv4, ipv6 := AllocateInserts(db, r);
    InsertAllocates(db, r, g, ipv4, ipv6);
    SearchIsLeast(db.regions[r.region].pool4, ActiveIPv4(db, r.region));
    SearchIsLeast(db.regions[r.region].pool6, ActiveIPv6(db, r.region));
  }

  /** A pool's candidates: the addresses from the third on, as far as 65535 of them go, without the last of an IPv4
      pool. */
  predicate IsCandidate(p: Pool, a: int)
    requires WellFormedPool(p)
  {
    Base(p) + 2 <= a < Base(p) + 2 + 65535 && a < Base(p) + Size(p) && !(p.v4 && a == Base(p) + Size(p) - 1)
  }

  ghost predicate LeastFree(p: Pool, used: set<int>, a: int)
    requires WellFormedPool(p)
  {
    IsCandidate(p, a) && a !in used && forall b :: IsCandidate(p, b) && b < a ==> b in used
  }

  /** The search finds the least free candidate, and nothing exactly when there is none. */
  lemma SearchIsLeast(p: Pool, used: set<int>)
    requires WellFormedPool(p)
    ensures match FirstFree(p, used)
            case Some(a) => LeastFree(p, used, a)
            case None => forall a :: IsCandidate(p, a) ==> a in used
  {
    hide Pow2, Base, FirstFree;
    FirstFreeExactly(p, used);
    forall a
      ensures a in Window(p) <==> IsCandidate(p, a)
    {
    }
  }

  // ---- Revocation requests ----

  /** A request is accepted from the device's owner only; it takes the device out of service unless it is revoked
      already, and changes nothing else. */
  lemma RevocationExactly(db: Db, owner: Id, device: Id)
    ensures var (after, result) := RequestRevocation(db, owner, device);
            && result == (if OwnDevice(db, owner, device) then Ok(()) else Err(NotFound))
            && after == db.(devices := after.devices) && after.devices.Keys == db.devices.Keys
            && (forall d :: d in db.devices && (d != device || !OwnDevice(db, owner, device)) ==>
                  after.devices[d] == db.devices[d])
            && (OwnDevice(db, owner, device) ==>
                  && after.devices[device].owner == owner
                  && after.devices[device].publicKey == db.devices[device].publicKey
                  && after.devices[device].state ==
                     if db.devices[device].state == Revoked then Revoked else RevocationPending)
  {
  }

  /** After an accepted request the device is never served again, whatever else happens: its owner's well-formed calls
      are told that it is not active, recorded keys included. */
  lemma NeverServedAgain(db: Db, steps: seq<Step>, i: nat, j: nat)
    requires Inv(db) && i < j < |steps| && steps[i].Revoke? && steps[j].CreateTunnel?
    requires OwnDevice(Run(db, steps, i), steps[i].owner, steps[i].device)
    requires steps[j].request.device == steps[i].device
    ensures WellFormedRegions(Run(db, steps, j))
    ensures var r := steps[j].request;
            Create(Run(db, steps, j), r) ==
            (Run(db, steps, j), Err(if !WellFormedRequest(r) then InvalidInput
                                    else if r.owner != steps[i].owner then NotFound else DeviceNotActive))
  {
    hide Inv, Run, Create, Grows, RequestRevocation, WellFormedRegions, WellFormedRequest;
    var d := steps[i].device;
    RunStep(db, steps, i);
    RevokeStep(Run(db, steps, i), steps[i].owner, d);
    RevocationExactly(Run(db, steps, i), steps[i].owner, d);
    RunGrows(db, steps, i + 1, j);
    StaysOutOfService(Run(db, steps, i + 1), Run(db, steps, j), d);
    AnsweredExactly(Run(db, steps, j), steps[j].request);
  }

  lemma RevokeStep(db: Db, owner: Id, device: Id)
    requires WellFormedRegions(db)
    ensures Apply(db, Revoke(owner, device)) == RequestRevocation(db, owner, device).0
  {
    hide WellFormedRegions, RequestRevocation;
  }

  lemma StaysOutOfService(db: Db, after: Db, d: Id)
    requires Grows(db, after) && d in db.devices && db.devices[d].state != DeviceActive
    ensures d in after.devices && after.devices[d].state != DeviceActive
        && after.devices[d].owner == db.devices[d].owner
  {
    assert SameDevice(db.devices[d], after.devices[d]);
  }

  // ---- Confirmations ----

  /** The confirmation settles the assignment. */
  predicate Settles(row: Assignment, g: Id, generation: int)
  {
    row.gateway == g && row.desired <= generation
    && (row.state == Pending || row.state == Active || row.state == RemovalPending)
  }

  /** What a confirmation does to every row. A settled assignment is observed as desired and becomes active, or removed
      if that was pending; removal releases its lease and revokes its device; nothing else changes. A blank gateway and
      a generation that is not positive are refused. */
  lemma ConfirmExactly(db: Db, g: Id, generation: int)
    requires Inv(db)
    ensures var (after, result) := Confirm(db, g, generation);
            if g == "" || generation <= 0 then after == db && result == Err(InvalidInput)
            else
              && result == Ok(())
              && after == db.(devices := after.devices, leases := after.leases, assignments := after.assignments)
              && after.devices.Keys == db.devices.Keys && after.leases.Keys == db.leases.Keys
              && after.assignments.Keys == db.assignments.Keys
              && (forall a :: a in db.assignments ==> AssignmentConfirmed(db, after, g, generation, a))
              && (forall d :: d in db.devices ==> DeviceConfirmed(db, after, g, generation, d))
  {
    assert Schema(db);
    hide Inv, Confirm, AssignmentConfirmed, DeviceConfirmed, WellFormedRegions;
    if g == "" || generation <= 0 {
      ConfirmInvalid(db, g, generation);
    } else {
      ConfirmRows(db, g, generation);
      forall a | a in db.assignments
        ensures AssignmentConfirmed(db, Confirm(db, g, generation).0, g, generation, a)
      {
        AssignmentConfirmedExactly(db, g, generation, a);
      }
      forall d | d in db.devices
        ensures DeviceConfirmed(db, Confirm(db, g, generation).0, g, generation, d)
      {
        DeviceConfirmedExactly(db, g, generation, d);
      }
    }
    ConfirmResult(db, g, generation);
  }

  ghost predicate AssignmentConfirmed(db: Db, after: Db, g: Id, generation: int, a: Id)
    requires a in db.assignments
  {
    var row := db.assignments[a];
    var settled := Settles(row, g, generation);
    && a in after.assignments && row.lease in db.leases && row.lease in after.leases
    && after.assignments[a] == (if !settled then row
                                else row.(state := if row.state == RemovalPending then Removed else Active,
                                          observed := row.desired))
    && after.leases[row.lease] == db.leases[row.lease].(released :=
         db.leases[row.lease].released || (settled && row.state == RemovalPending))
  }

  ghost predicate DeviceConfirmed(db: Db, after: Db, g: Id, generation: int, d: Id)
    requires d in db.devices
  {
    d in after.devices && after.devices[d] == db.devices[d].(state :=
      if exists a :: a in db.assignments && db.assignments[a].device == d && Settles(db.assignments[a], g, generation)
                     && db.assignments[a].state == RemovalPending
      then Revoked else db.devices[d].state)
  }

  /** After the confirmation a lease is to be released exactly when its own assignment is removed. */
  lemma LeaseRemovedExactly(db: Db, g: Id, generation: int, a: Id)
    requires Separate(db) && a in db.assignments && g != "" && generation > 0
    ensures var after := Confirm(db, g, generation).0;
            LeaseRemoved(after, g, db.assignments[a].lease) <==> RemovedFrom(after, g, a)
  {
    hide Confirm;
    ConfirmRows(db, g, generation);
    var after := Confirm(db, g, generation).0;
    if LeaseRemoved(after, g, db.assignments[a].lease) {
      var b :| b in after.assignments && RemovedFrom(after, g, b)
        && after.assignments[b].lease == db.assignments[a].lease;
      assert b in db.assignments && db.assignments[b].lease == after.assignments[b].lease;
    }
  }

  /** Only a settled removal is new among the removed. */
  lemma RemovedExactly(db: Db, g: Id, generation: int, a: Id)
    requires a in db.assignments && g != "" && generation > 0
    ensures var after, row := Confirm(db, g, generation).0, db.assignments[a];
            && a in after.assignments
            && after.assignments[a] == (if !Settles(row, g, generation) then row
                                        else row.(state := if row.state == RemovalPending then Removed else Active,
                                                  observed := row.desired))
            && (RemovedFrom(after, g, a) <==>
                  (row.gateway == g && row.state == Removed)
                  || (Settles(row, g, generation) && row.state == RemovalPending))
  {
    hide Confirm;
    ConfirmRows(db, g, generation);
  }

  lemma AssignmentConfirmedExactly(db: Db, g: Id, generation: int, a: Id)
    requires Inv(db) && a in db.assignments && g != "" && generation > 0
    ensures AssignmentConfirmed(db, Confirm(db, g, generation).0, g, generation, a)
  {
    LeaseKnown(db, a);
    assert Separate(db) by { InvSeparate(db); }
    hide Inv, Confirm, Separate, LeaseRemoved, DeviceRemoved, RemovedFrom, Confirms, ConfirmedRow;
    ConfirmRows(db, g, generation);
    RemovedExactly(db, g, generation, a);
    LeaseRemovedExactly(db, g, generation, a);
  }

  lemma InvSeparate(db: Db)
    requires Inv(db)
    ensures Separate(db)
  {
    hide Separate, Agreeing, LeasesAssigned, Schema;
  }

  /** A removed assignment's lease is released already. */
  lemma LeaseKnown(db: Db, a: Id)
    requires Inv(db) && a in db.assignments
    ensures db.assignments[a].lease in db.leases && db.assignments[a].device in db.devices
    ensures db.assignments[a].state == Removed ==> db.leases[db.assignments[a].lease].released
  {
    hide Separate, Agreeing, LeasesAssigned, Lockstep, WithinCapacity, ReplaysFaithful, KeysDistinct, WellFormedRegions,
      RevokedRemoved;
  }

  /** The devices of removed assignments, and of assignments on their way out. */
  lemma DeviceKnown(db: Db, a: Id)
    requires Inv(db) && a in db.assignments
    ensures db.assignments[a].state == Removed ==> InState(db, db.assignments[a].device, Revoked)
    ensures db.assignments[a].state == RemovalPending ==> InState(db, db.assignments[a].device, RevocationPending)
  {
    hide Agreeing, LeasesAssigned, Lockstep, WithinCapacity, ReplaysFaithful, KeysDistinct, WellFormedRegions,
      LiveUnreleased;
    var d := db.assignments[a].device;
    if InState(db, d, Revoked) {
      var b :| b in db.assignments && db.assignments[b].device == d && db.assignments[b].state == Removed;
      assert b == a;
    }
  }

  lemma DeviceConfirmedExactly(db: Db, g: Id, generation: int, d: Id)
    requires Inv(db) && d in db.devices && g != "" && generation > 0
    ensures DeviceConfirmed(db, Confirm(db, g, generation).0, g, generation, d)
  {
    hide Inv, Confirm, Confirms, ConfirmedRow, LeaseRemoved;
    var after := Confirm(db, g, generation).0;
    ConfirmRows(db, g, generation);
    if a :| a in db.assignments && db.assignments[a].device == d && Settles(db.assignments[a], g, generation)
            && db.assignments[a].state == RemovalPending
    {
      RemovedExactly(db, g, generation, a);
      DeviceKnown(db, a);
      assert DeviceRemoved(after, g, d);
    } else if DeviceRemoved(after, g, d) {
      var a :| a in after.assignments && RemovedFrom(after, g, a) && after.assignments[a].device == d;
      RemovedExactly(db, g, generation, a);
      DeviceKnown(db, a);
    }
  }

  lemma ConfirmResult(db: Db, g: Id, generation: int)
    ensures Confirm(db, g, generation).1 == if g == "" || generation <= 0 then Err(InvalidInput) else Ok(())
  {
  }

  /** A registration adds an active device exactly when its key encodes 32 bytes and neither id nor key is taken. */
  lemma RegisterExactly(db: Db, id: Id, owner: Id, publicKey: string)
    ensures var (after, r) := Register(db, id, owner, publicKey);
            var valid := exists key: seq<Byte> :: |key| == 32 && publicKey == Encode(STD, key);
            var taken := id in db.devices || exists d :: d in db.devices && db.devices[d].publicKey == publicKey;
            && r == (if !valid then Err(InvalidInput) else if taken then Err(Conflict) else Ok(()))
            && (forall d :: d in after.devices <==> d in db.devices || (r.Ok? && d == id))
            && (forall d :: d in db.devices ==> after.devices[d] == db.devices[d])
            && (r.Ok? ==> after.devices[id] == Device(owner, publicKey, DeviceActive))
            && after == db.(devices := after.devices)
  {
    ValidPublicKeyExactly(publicKey);
    hide ValidPublicKey;
  }
}
