/** The joint invariant of devices, leases, assignments and stored responses, over every run of the
    control plane's transactions (services/api/internal/postgres/store.go:175-216, 363-373, 494-702). */
module Lifecycle {
  import opened Arithmetic
  import opened Wrappers
  import opened Base64
  import opened Ordering
  import opened Addresses
  import opened Database

  // ---- The invariant ----

  /** Foreign keys and check constraints. */
  ghost predicate Schema(db: Db)
  {
    && WellFormedRegions(db)
    && (forall g :: g in db.gateways ==> g != "" && db.gateways[g].region in db.regions)
    && (forall l :: l in db.leases ==> db.leases[l].region in db.regions && db.leases[l].device in db.devices)
    && (forall a :: a in db.assignments ==>
          var row := db.assignments[a];
          row.device in db.devices && row.gateway in db.gateways && row.lease in db.leases
            && 0 <= row.observed <= row.desired && row.desired > 0)
  }

  /** No two assignments, live or removed, share a device or a lease. */
  ghost predicate Separate(db: Db)
  {
    forall a, b :: a in db.assignments && b in db.assignments && a != b ==>
      db.assignments[a].device != db.assignments[b].device && db.assignments[a].lease != db.assignments[b].lease
  }

  /** An assignment and its lease agree on device and region. */
  ghost predicate Agreeing(db: Db)
    requires Schema(db)
  {
    forall a :: a in db.assignments ==>
      var row := db.assignments[a];
      db.leases[row.lease].device == row.device && db.leases[row.lease].region == db.gateways[row.gateway].region
  }

  ghost predicate LeasesAssigned(db: Db)
  {
    forall l :: l in db.leases ==> exists a :: a in db.assignments && db.assignments[a].lease == l
  }

  /** Leases and assignments pair off, and a device has at most one of them ever. */
  ghost predicate OneToOne(db: Db)
    requires Schema(db)
  {
    Separate(db) && Agreeing(db) && LeasesAssigned(db)
  }

  predicate Unreleased(db: Db, l: Id)
  {
    l in db.leases && !db.leases[l].released
  }

  predicate InState(db: Db, d: Id, state: DeviceState)
  {
    d in db.devices && db.devices[d].state == state
  }

  /** An assignment is live iff its lease is unreleased. */
  ghost predicate LiveUnreleased(db: Db)
  {
    forall a :: a in db.assignments ==> (Live(db.assignments[a]) <==> Unreleased(db, db.assignments[a].lease))
  }

  /** Withdrawal happens to non-active devices only, and removal revokes the device. */
  ghost predicate WithdrawnInactive(db: Db)
  {
    forall a :: a in db.assignments ==>
      var row := db.assignments[a];
      && (row.state == RemovalPending ==> !InState(db, row.device, DeviceActive))
      && (row.state == Removed ==> InState(db, row.device, Revoked))
  }

  /** A revoked device has had its assignment removed. */
  ghost predicate RevokedRemoved(db: Db)
  {
    forall d :: InState(db, d, Revoked) ==>
      exists a :: a in db.assignments && db.assignments[a].device == d && db.assignments[a].state == Removed
  }

  ghost predicate StatesAgree(db: Db)
  {
    LiveUnreleased(db) && WithdrawnInactive(db) && RevokedRemoved(db)
  }

  function Offset4(db: Db, l: Id): int
    requires l in db.leases && db.leases[l].region in db.regions && WellFormedRegion(db.regions[db.leases[l].region])
  {
    db.leases[l].ipv4 - Base(db.regions[db.leases[l].region].pool4)
  }

  function Offset6(db: Db, l: Id): int
    requires l in db.leases && db.leases[l].region in db.regions && WellFormedRegion(db.regions[db.leases[l].region])
  {
    db.leases[l].ipv6 - Base(db.regions[db.leases[l].region].pool6)
  }

  /** Live leases sit in their pools' windows, at the same offset in both. */
  ghost predicate InWindows(db: Db)
    requires Schema(db)
  {
    forall l :: l in db.leases && !db.leases[l].released ==>
      var region := db.regions[db.leases[l].region];
      && db.leases[l].ipv4 in Window(region.pool4) && db.leases[l].ipv6 in Window(region.pool6)
      && Offset4(db, l) == Offset6(db, l)
  }

  /** No two live leases of a region share an address. */
  ghost predicate AddressesApart(db: Db)
  {
    forall l, m :: l in db.leases && m in db.leases && l != m && !db.leases[l].released && !db.leases[m].released ==>
      db.leases[l].region == db.leases[m].region ==>
        db.leases[l].ipv4 != db.leases[m].ipv4 && db.leases[l].ipv6 != db.leases[m].ipv6
  }

  ghost predicate Lockstep(db: Db)
    requires Schema(db)
  {
    InWindows(db) && AddressesApart(db)
  }

  ghost predicate WithinCapacity(db: Db)
  {
    forall g :: g in db.gateways ==> Load(db, g) <= db.gateways[g].capacity
  }

  /** Every stored response is the configuration of its device's one assignment. */
  ghost predicate ReplaysFaithful(db: Db)
    requires Schema(db)
  {
    forall k :: k in db.replays ==>
      exists a :: a in db.assignments && db.assignments[a].device == k.device
                  && db.replays[k] == ReplayRecord(db.leases[db.assignments[a].lease].region, ConfigurationOf(db, a))
  }

  ghost predicate KeysDistinct(db: Db)
  {
    && (forall d :: d in db.devices ==> ValidPublicKey(db.devices[d].publicKey))
    && (forall d, e :: d in db.devices && e in db.devices && d != e ==>
          db.devices[d].publicKey != db.devices[e].publicKey)
  }

  ghost predicate Inv(db: Db)
  {
    && Schema(db) && OneToOne(db) && StatesAgree(db) && Lockstep(db)
    && WithinCapacity(db) && ReplaysFaithful(db) && KeysDistinct(db)
  }

  /** Tables that hold only regions and gateways are a legitimate beginning. */
  lemma BeginningHasInv(db: Db)
    requires WellFormedRegions(db)
    requires forall g :: g in db.gateways ==> g != "" && db.gateways[g].region in db.regions
    requires db.devices == map[] && db.leases == map[] && db.assignments == map[] && db.replays == map[]
    ensures Inv(db)
  {
    hide WellFormedRegion;
    assert forall g :: LiveOn(db, g) == {};
  }

  // ---- Steps and runs ----

  datatype Step =
    | RegisterDevice(id: Id, owner: Id, publicKey: string)
    | CreateTunnel(request: Request)
    | Revoke(owner: Id, device: Id)
    | Withdraw(assignment: Id, desired: int)
    | ConfirmSnapshot(gateway: Id, generation: int)
    | SetGatewayState(gateway: Id, state: GatewayState)
    | SetRegionAvailable(region: Id, available: bool)

  ghost function Apply(db: Db, s: Step): Db
    requires WellFormedRegions(db)
  {
    match s
    case RegisterDevice(id, owner, publicKey) => Register(db, id, owner, publicKey).0
    case CreateTunnel(r) => Create(db, r).0
    case Revoke(owner, device) => RequestRevocation(db, owner, device).0
    case Withdraw(a, desired) => MarkRemoval(db, a, desired)
    case ConfirmSnapshot(g, generation) => Confirm(db, g, generation).0
    case SetGatewayState(g, state) => SetGateway(db, g, state)
    case SetRegionAvailable(r, available) => SetRegion(db, r, available)
  }

  function SetGateway(db: Db, g: Id, state: GatewayState): Db
  {
    if g in db.gateways then db.(gateways := db.gateways[g := db.gateways[g].(state := state)]) else db
  }

  function SetRegion(db: Db, r: Id, available: bool): Db
  {
    if r in db.regions then db.(regions := db.regions[r := db.regions[r].(available := available)]) else db
  }

  // ---- A new allocation ----

  lemma NoLiveRow(db: Db, device: Id)
    requires Schema(db) && OneToOne(db) && LiveUnreleased(db) && Existing(db, device) == None
    ensures !AssignmentClashes(db, device)
    ensures forall l :: l in db.leases && !db.leases[l].released ==> db.leases[l].device != device
  {
    hide WellFormedRegion;
    forall a | a in db.assignments && db.assignments[a].device == device
      ensures !Live(db.assignments[a])
    {
      assert !Holds(db, device, a);
    }
    forall l | l in db.leases && !db.leases[l].released
      ensures db.leases[l].device != device
    {
      var a :| a in db.assignments && db.assignments[a].lease == l;
    }
  }

  /** The unique indexes never fire on a new allocation: an ordinary retry is not turned into a conflict. */
  lemma NoClash(db: Db, r: Request, ipv4: int, ipv6: int)
    requires Schema(db) && OneToOne(db) && LiveUnreleased(db) && Existing(db, r.device) == None
        && r.region in db.regions
    requires FirstFree(db.regions[r.region].pool4, ActiveIPv4(db, r.region)) == Some(ipv4)
    requires FirstFree(db.regions[r.region].pool6, ActiveIPv6(db, r.region)) == Some(ipv6)
    ensures !LeaseClashes(db, Lease(r.region, r.device, ipv4, ipv6, false)) && !AssignmentClashes(db, r.device)
  {
    hide FirstFree, Window, OneToOne, LiveUnreleased, AssignmentClashes;
    FirstFreeExactly(db.regions[r.region].pool4, ActiveIPv4(db, r.region));
    FirstFreeExactly(db.regions[r.region].pool6, ActiveIPv6(db, r.region));
    NoLiveRow(db, r.device);
  }

  /** The two searches stop at the same offset. */
  lemma SearchesInLockstep(db: Db, region: Id, ipv4: int, ipv6: int)
    requires Schema(db) && InWindows(db) && region in db.regions
    requires FirstFree(db.regions[region].pool4, ActiveIPv4(db, region)) == Some(ipv4)
    requires FirstFree(db.regions[region].pool6, ActiveIPv6(db, region)) == Some(ipv6)
    ensures ipv4 - Base(db.regions[region].pool4) == ipv6 - Base(db.regions[region].pool6)
  {
    hide FirstFree, Base, Size, ActiveIPv4, ActiveIPv6;
    var pool4, pool6 := db.regions[region].pool4, db.regions[region].pool6;
    FirstFreeExactly(pool4, ActiveIPv4(db, region));
    FirstFreeExactly(pool6, ActiveIPv6(db, region));
    var same6 := ipv4 - Base(pool4) + Base(pool6);
    var same4 := ipv6 - Base(pool6) + Base(pool4);
    if same6 < ipv6 {
      assert same6 in Window(pool6) && same6 in ActiveIPv6(db, region);
      OffsetTaken6(db, region, same6);
    } else if same4 < ipv4 {
      assert same4 in Window(pool4) && same4 in ActiveIPv4(db, region);
      OffsetTaken4(db, region, same4);
    }
  }

  lemma OffsetTaken6(db: Db, region: Id, ipv6: int)
    requires Schema(db) && InWindows(db) && region in db.regions && ipv6 in ActiveIPv6(db, region)
    ensures ipv6 - Base(db.regions[region].pool6) + Base(db.regions[region].pool4) in ActiveIPv4(db, region)
  {
    hide Base, Window;
    var l :| l in db.leases && db.leases[l].region == region && !db.leases[l].released && db.leases[l].ipv6 == ipv6;
    assert Offset4(db, l) == Offset6(db, l);
  }

  lemma OffsetTaken4(db: Db, region: Id, ipv4: int)
    requires Schema(db) && InWindows(db) && region in db.regions && ipv4 in ActiveIPv4(db, region)
    ensures ipv4 - Base(db.regions[region].pool4) + Base(db.regions[region].pool6) in ActiveIPv6(db, region)
  {
    hide Base, Window;
    var l :| l in db.leases && db.leases[l].region == region && !db.leases[l].released && db.leases[l].ipv4 == ipv4;
    assert Offset4(db, l) == Offset6(db, l);
  }

  /** A request that reaches allocation fails, changing nothing, for lack of capacity or for a uuid already taken. */
  lemma AllocateErrs(db: Db, r: Request)
    requires Schema(db) && OneToOne(db) && LiveUnreleased(db) && Existing(db, r.device) == None
        && r.region in db.regions
    requires Allocate(db, r).1.Err?
    ensures Allocate(db, r).0 == db
    ensures Allocate(db, r).1.error == CapacityExhausted
            || (Allocate(db, r).1.error == Conflict && (r.leaseId in db.leases || r.assignmentId in db.assignments))
  {
    hide FirstFree, Window, Base, OneToOne, LiveUnreleased, LeaseClashes, AssignmentClashes, ActiveIPv4, ActiveIPv6,
      IsPlacement, ConfigurationOf;
    var pool4, pool6 := db.regions[r.region].pool4, db.regions[r.region].pool6;
    var used4, used6 := ActiveIPv4(db, r.region), ActiveIPv6(db, r.region);
    if Placement(db, r.region).Some? && FirstFree(pool4, used4).Some? && FirstFree(pool6, used6).Some? {
      NoClash(db, r, FirstFree(pool4, used4).value, FirstFree(pool6, used6).value);
    }
  }

  /** One that succeeds inserts at a placement, with free addresses at one offset. */
  lemma AllocateInserts(db: Db, r: Request) returns (g: Id, ipv4: int, ipv6: int)
    requires Schema(db) && InWindows(db) && r.region in db.regions && Allocate(db, r).1.Ok?
    ensures Placed(db, r, g, ipv4, ipv6) && Allocate(db, r) == Insert(db, r, g, ipv4, ipv6)
    ensures FirstFree(db.regions[r.region].pool4, ActiveIPv4(db, r.region)) == Some(ipv4)
    ensures FirstFree(db.regions[r.region].pool6, ActiveIPv6(db, r.region)) == Some(ipv6)
    ensures Placement(db, r.region) == Some(g)
  {
    hide FirstFree, Window, Base, LeaseClashes, AssignmentClashes, ActiveIPv4, ActiveIPv6, InWindows, ConfigurationOf;
    var pool4, pool6 := db.regions[r.region].pool4, db.regions[r.region].pool6;
    var used4, used6 := ActiveIPv4(db, r.region), ActiveIPv6(db, r.region);
    g, ipv4, ipv6 := Placement(db, r.region).value, FirstFree(pool4, used4).value, FirstFree(pool6, used6).value;
    SearchesInLockstep(db, r.region, ipv4, ipv6);
    FirstFreeExactly(pool4, used4);
    FirstFreeExactly(pool6, used6);
  }

  /** The choices an insert is made with. */
  ghost predicate Placed(db: Db, r: Request, g: Id, ipv4: int, ipv6: int)
  {
    && IsPlacement(db, r.region, g) && r.region in db.regions && WellFormedRegion(db.regions[r.region])
    && r.leaseId !in db.leases && r.assignmentId !in db.assignments
    && !LeaseClashes(db, Lease(r.region, r.device, ipv4, ipv6, false)) && !AssignmentClashes(db, r.device)
    && ipv4 in Window(db.regions[r.region].pool4) && ipv6 in Window(db.regions[r.region].pool6)
    && ipv4 - Base(db.regions[r.region].pool4) == ipv6 - Base(db.regions[r.region].pool6)
  }

  /** The tables after the inserts. */
  ghost predicate Inserted(db: Db, r: Request, g: Id, ipv4: int, ipv6: int, after: Db)
  {
    && after.devices == db.devices && after.regions == db.regions && after.gateways == db.gateways
    && after.leases == db.leases[r.leaseId := Lease(r.region, r.device, ipv4, ipv6, false)]
    && after.assignments == db.assignments[r.assignmentId := Assignment(r.device, g, r.leaseId, Pending, 1, 0,
      r.now + DAY)]
    && r.leaseId !in db.leases && r.assignmentId !in db.assignments
    && g in db.gateways && db.gateways[g].region == r.region && r.region in db.regions
  }

  lemma InsertShape(db: Db, r: Request, g: Id, ipv4: int, ipv6: int)
    requires Placed(db, r, g, ipv4, ipv6)
    ensures var (after, result) := Insert(db, r, g, ipv4, ipv6);
            && Inserted(db, r, g, ipv4, ipv6, after)
            && result == Ok(Reply(ConfigurationOf(after, r.assignmentId), true))
            && after.replays == db.replays[ReplayKey(r.owner, r.device, r.key) := ReplayRecord(r.region,
              result.value.configuration)]
  {
  }

  lemma InsertedLoad(db: Db, r: Request, g: Id, ipv4: int, ipv6: int, after: Db, h: Id)
    requires Inserted(db, r, g, ipv4, ipv6, after)
    ensures Load(after, h) == Load(db, h) + if h == g then 1 else 0
  {
    if h == g {
      assert LiveOn(after, h) == LiveOn(db, h) + {r.assignmentId};
    } else {
      assert LiveOn(after, h) == LiveOn(db, h);
    }
  }

  ghost predicate NoAssignment(db: Db, device: Id)
  {
    forall a :: a in db.assignments ==> db.assignments[a].device != device
  }

  /** An active device without a live assignment never had one. */
  lemma FreshDevice(db: Db, device: Id)
    requires Schema(db) && StatesAgree(db) && device in db.devices
    requires db.devices[device].state == DeviceActive && Existing(db, device) == None
    ensures NoAssignment(db, device)
  {
    forall a | a in db.assignments
      ensures db.assignments[a].device != device
    {
      assert !Holds(db, device, a);
    }
  }

  lemma InsertedSchema(db: Db, r: Request, g: Id, ipv4: int, ipv6: int, after: Db)
    requires Schema(db) && OneToOne(db) && Inserted(db, r, g, ipv4, ipv6, after)
    requires r.device in db.devices && NoAssignment(db, r.device)
    ensures Schema(after) && Separate(after) && Agreeing(after)
  {
    hide WellFormedRegion, Separate, Agreeing, LeasesAssigned;
    assert Schema(after);
    InsertedSeparate(db, r, g, ipv4, ipv6, after);
    InsertedAgreeing(db, r, g, ipv4, ipv6, after);
  }

  lemma InsertedSeparate(db: Db, r: Request, g: Id, ipv4: int, ipv6: int, after: Db)
    requires Schema(db) && Separate(db) && Inserted(db, r, g, ipv4, ipv6, after) && NoAssignment(db, r.device)
    ensures Separate(after)
  {
    hide WellFormedRegions;
  }

  lemma InsertedAgreeing(db: Db, r: Request, g: Id, ipv4: int, ipv6: int, after: Db)
    requires Schema(db) && Agreeing(db) && Inserted(db, r, g, ipv4, ipv6, after) && Schema(after)
    ensures Agreeing(after)
  {
    hide WellFormedRegions;
  }

  lemma InsertedLeasesAssigned(db: Db, r: Request, g: Id, ipv4: int, ipv6: int, after: Db)
    requires LeasesAssigned(db) && Inserted(db, r, g, ipv4, ipv6, after)
    ensures LeasesAssigned(after)
  {
    forall l | l in after.leases
      ensures exists a :: a in after.assignments && after.assignments[a].lease == l
    {
      if l == r.leaseId {
        assert after.assignments[r.assignmentId].lease == l;
      } else {
        var a :| a in db.assignments && db.assignments[a].lease == l;
        assert after.assignments[a].lease == l;
      }
    }
  }

  lemma InsertedStates(db: Db, r: Request, g: Id, ipv4: int, ipv6: int, after: Db)
    requires StatesAgree(db) && Inserted(db, r, g, ipv4, ipv6, after)
    requires forall a :: a in db.assignments ==> db.assignments[a].lease in db.leases
    ensures StatesAgree(after)
  {
    forall d | InState(after, d, Revoked)
      ensures exists a ::
          a in after.assignments && after.assignments[a].device == d && after.assignments[a].state == Removed
    {
      assert InState(db, d, Revoked);
      var a :| a in db.assignments && db.assignments[a].device == d && db.assignments[a].state == Removed;
      assert after.assignments[a].device == d;
    }
  }

  lemma InsertedLockstep(db: Db, r: Request, g: Id, ipv4: int, ipv6: int, after: Db)
    requires Schema(db) && Lockstep(db) && Placed(db, r, g, ipv4, ipv6)
    requires Inserted(db, r, g, ipv4, ipv6, after) && Schema(after)
    ensures Lockstep(after)
  {
    hide Window, Base, WellFormedRegion, IsPlacement, AssignmentClashes;
    forall l | l in db.leases && !db.leases[l].released
      ensures after.leases[l] == db.leases[l] && Offset4(after, l) == Offset4(db, l)
          && Offset6(after, l) == Offset6(db, l)
    {
    }
    assert InWindows(after);
    assert AddressesApart(after);
  }

  lemma InsertedCapacity(db: Db, r: Request, g: Id, ipv4: int, ipv6: int, after: Db)
    requires WithinCapacity(db) && HasRoom(db, r.region, g) && Inserted(db, r, g, ipv4, ipv6, after)
    ensures WithinCapacity(after)
  {
    hide Load;
    forall h { InsertedLoad(db, r, g, ipv4, ipv6, after, h); }
  }

  lemma InsertedReplays(db: Db, r: Request, g: Id, ipv4: int, ipv6: int, after: Db)
    requires Schema(db) && ReplaysFaithful(db) && Inserted(db, r, g, ipv4, ipv6, after) && Schema(after)
    requires after.replays == db.replays[ReplayKey(r.owner, r.device, r.key) := ReplayRecord(r.region,
        ConfigurationOf(after, r.assignmentId))]
    ensures ReplaysFaithful(after)
  {
    hide WellFormedRegion;
    forall k | k in after.replays
      ensures exists a :: a in after.assignments && after.assignments[a].device == k.device
                && after.replays[k] == ReplayRecord(after.leases[after.assignments[a].lease].region,
                  ConfigurationOf(after, a))
    {
      if k == ReplayKey(r.owner, r.device, r.key) {
        assert after.assignments[r.assignmentId].device == k.device;
      } else {
        var a :| a in db.assignments && db.assignments[a].device == k.device
                 && db.replays[k] == ReplayRecord(db.leases[db.assignments[a].lease].region, ConfigurationOf(db, a));
        assert after.assignments[a] == db.assignments[a];
      }
    }
  }

  lemma InsertKeepsInv(db: Db, r: Request, g: Id, ipv4: int, ipv6: int)
    requires Inv(db) && Placed(db, r, g, ipv4, ipv6)
    requires r.device in db.devices && NoAssignment(db, r.device)
    ensures Inv(Insert(db, r, g, ipv4, ipv6).0)
  {
    hide Insert, Inserted, Separate, Agreeing, LeasesAssigned, StatesAgree, Lockstep, WithinCapacity, ReplaysFaithful,
      KeysDistinct;
    var after := Insert(db, r, g, ipv4, ipv6).0;
    InsertShape(db, r, g, ipv4, ipv6);
    InsertedSchema(db, r, g, ipv4, ipv6, after);
    InsertedLeasesAssigned(db, r, g, ipv4, ipv6, after);
    InsertedStates(db, r, g, ipv4, ipv6, after);
    InsertedLockstep(db, r, g, ipv4, ipv6, after);
    InsertedCapacity(db, r, g, ipv4, ipv6, after);
    InsertedReplays(db, r, g, ipv4, ipv6, after);
    Untouched(db, r, g, ipv4, ipv6, after);
  }

  lemma Untouched(db: Db, r: Request, g: Id, ipv4: int, ipv6: int, after: Db)
    requires Inserted(db, r, g, ipv4, ipv6, after) && KeysDistinct(db)
    ensures KeysDistinct(after)
  {
    hide ValidPublicKey;
  }

  // ---- Every step keeps the invariant ----

  /** a is the assignment whose configuration is returned. */
  ghost predicate Answers(db: Db, device: Id, configuration: TunnelConfiguration, a: Id)
    requires Schema(db)
  {
    a in db.assignments && db.assignments[a].device == device && configuration == ConfigurationOf(db, a)
  }

  lemma OnlyReplays1(db: Db, replays: map<ReplayKey, ReplayRecord>)
    requires Schema(db)
    ensures var after := db.(replays := replays);
            Schema(after) && (OneToOne(db) ==> OneToOne(after)) && (StatesAgree(db) ==> StatesAgree(after))
  {
    hide WellFormedRegion;
    var after := db.(replays := replays);
    assert forall l :: Unreleased(after, l) <==> Unreleased(db, l);
    assert forall d, state :: InState(after, d, state) <==> InState(db, d, state);
  }

  lemma OnlyReplays2(db: Db, replays: map<ReplayKey, ReplayRecord>)
    requires Schema(db) && Schema(db.(replays := replays))
    ensures var after := db.(replays := replays);
            (Lockstep(db) ==> Lockstep(after)) && (WithinCapacity(db) ==> WithinCapacity(after))
              && (KeysDistinct(db) ==> KeysDistinct(after))
  {
    hide WellFormedRegion, Window, Base, ValidPublicKey;
    var after := db.(replays := replays);
    assert forall l ::
      l in db.leases && db.leases[l].region in db.regions && WellFormedRegion(db.regions[db.leases[l].region]) ==>
        Offset4(after, l) == Offset4(db, l) && Offset6(after, l) == Offset6(db, l);
    assert forall g :: LiveOn(after, g) == LiveOn(db, g);
  }

  lemma ReplayAdded(db: Db, key: ReplayKey, a: Id)
    requires Inv(db) && a in db.assignments && db.assignments[a].device == key.device
    ensures Inv(db.(replays := db.replays[key := ReplayRecord(db.leases[db.assignments[a].lease].region,
        ConfigurationOf(db, a))]))
  {
    hide WellFormedRegion, OneToOne, StatesAgree, Lockstep, WithinCapacity, KeysDistinct;
    var record := ReplayRecord(db.leases[db.assignments[a].lease].region, ConfigurationOf(db, a));
    var after := db.(replays := db.replays[key := record]);
    OnlyReplays1(db, after.replays);
    OnlyReplays2(db, after.replays);
    forall k | k in after.replays
      ensures exists b :: b in after.assignments && after.assignments[b].device == k.device
                && after.replays[k] == ReplayRecord(after.leases[after.assignments[b].lease].region,
                  ConfigurationOf(after, b))
    {
      var b :| b in db.assignments && db.assignments[b].device == k.device
               && after.replays[k] == ReplayRecord(db.leases[db.assignments[b].lease].region, ConfigurationOf(db, b));
      assert b in after.assignments;
    }
  }

  lemma CreateErrs(db: Db, r: Request)
    requires Inv(db) && Create(db, r).1.Err?
    ensures Create(db, r).0 == db
  {
    hide OneToOne, LiveUnreleased, Lockstep, WithinCapacity, KeysDistinct, Insert, Allocate, ReplaysFaithful,
      WellFormedRegion;
    if Existing(db, r.device) == None && r.region in db.regions && Create(db, r) == Allocate(db, r) {
      AllocateErrs(db, r);
    }
  }

  /** A request that fails changes nothing; one that succeeds keeps the invariant and answers with the
      configuration of the device's assignment, whichever branch it took. */
  lemma CreateOutcome(db: Db, r: Request)
    requires Inv(db)
    ensures var (after, result) := Create(db, r);
            && Inv(after)
            && (result.Err? ==> after == db)
            && (result.Ok? ==> exists a :: Answers(after, r.device, result.value.configuration, a))
  {
    hide Insert, Allocate, OneToOne, InWindows, AddressesApart, WithinCapacity, KeysDistinct, WellFormedRegion,
      Placed;
    var replay := ReplayKey(r.owner, r.device, r.key);
    var (after, result) := Create(db, r);
    if result.Err? {
      CreateErrs(db, r);
    } else if replay in db.replays {
      var a :| a in db.assignments && db.assignments[a].device == replay.device
               && db.replays[replay] == ReplayRecord(db.leases[db.assignments[a].lease].region, ConfigurationOf(db, a));
      assert Answers(after, r.device, result.value.configuration, a);
    } else {
      match Existing(db, r.device)
      case Some(a) =>
        ReplayAdded(db, replay, a);
        assert Answers(after, r.device, result.value.configuration, a);
      case None =>
        FreshDevice(db, r.device);
        var g, ipv4, ipv6 := AllocateInserts(db, r);
        InsertKeepsInv(db, r, g, ipv4, ipv6);
        InsertShape(db, r, g, ipv4, ipv6);
        assert Answers(after, r.device, result.value.configuration, r.assignmentId);
    }
  }
}
