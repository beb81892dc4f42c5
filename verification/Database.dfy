/** The control plane's tables, and each transaction on them as one atomic step
    (services/api/internal/postgres/store.go, services/api/migrations/0001_initial.sql).
    A step that reports an error leaves the tables as they were. */
module Database {
  import opened Arithmetic
  import opened Wrappers
  import opened Base64
  import opened Ordering
  import opened Addresses
  import opened Texts

  type Id = string

  datatype DeviceState = DeviceActive | RevocationPending | Revoked

  datatype Device = Device(owner: Id, publicKey: string, state: DeviceState)

  datatype Region = Region(pool4: Pool, pool6: Pool, dns4: int, dns6: int, available: bool)

  datatype GatewayState = Provisioning | Ready | Draining | Offline

  datatype Gateway = Gateway(region: Id, endpointHost: string, endpointPort: int, publicKey: string,
      state: GatewayState, capacity: nat)

  datatype Lease = Lease(region: Id, device: Id, ipv4: int, ipv6: int, released: bool)

  datatype AssignmentState = Pending | Active | RemovalPending | Removed

  datatype Assignment = Assignment(device: Id, gateway: Id, lease: Id, state: AssignmentState, desired: int,
      observed: int, expiresAt: int)

  /** The constant fields of a configuration (routes and keepalive) are left out. */
  datatype TunnelConfiguration = TunnelConfiguration(assignmentId: Id, endpointHost: string, endpointPort: int,
    serverPublicKey: string, ipv4: int, ipv6: int, dns4: int, dns6: int, expiresAt: int)

  /** created tells a new or newly recorded configuration from a replayed one. */
  datatype Reply = Reply(configuration: TunnelConfiguration, created: bool)

  datatype ReplayKey = ReplayKey(user: Id, device: Id, key: string)

  datatype ReplayRecord = ReplayRecord(region: Id, configuration: TunnelConfiguration)

  datatype Error = InvalidInput | NotFound | Conflict | CapacityExhausted | DeviceNotActive | DeviceAlreadyAllocated

  datatype Db = Db(devices: map<Id, Device>, regions: map<Id, Region>, gateways: map<Id, Gateway>,
    leases: map<Id, Lease>, assignments: map<Id, Assignment>, replays: map<ReplayKey, ReplayRecord>)

  predicate Live(a: Assignment)
  {
    a.state != Removed
  }

  function LiveOn(db: Db, gateway: Id): set<Id>
  {
    set a | a in db.assignments && db.assignments[a].gateway == gateway && Live(db.assignments[a])
  }

  /** A gateway's number of live assignments. */
  function Load(db: Db, gateway: Id): nat
  {
    |LiveOn(db, gateway)|
  }

  // ---- CreateTunnelConfiguration ----

  /** leaseId and assignmentId are the uuids the inserts would draw. */
  datatype Request = Request(owner: Id, device: Id, region: Id, key: string, leaseId: Id, assignmentId: Id, now: int)

  predicate Unnamed(r: Request)
  {
    TrimSpace(r.owner) == "" || TrimSpace(r.device) == "" || TrimSpace(r.region) == ""
  }

  const DAY := 86_400_000_000_000

  /** The device's live assignment with an unreleased lease, in the three-way join. */
  predicate Holds(db: Db, device: Id, a: Id)
  {
    a in db.assignments &&
    var row := db.assignments[a];
    && row.device == device && Live(row)
    && row.lease in db.leases && !db.leases[row.lease].released && row.gateway in db.gateways
  }

  ghost function Existing(db: Db, device: Id): (a: Option<Id>)
    ensures a.Some? ==> Holds(db, device, a.value)
    ensures a == None ==> forall b :: !Holds(db, device, b)
  {
    if a :| Holds(db, device, a) then Some(a) else None
  }

  predicate HasRoom(db: Db, region: Id, g: Id)
  {
    && g in db.gateways && db.gateways[g].region == region && db.gateways[g].state == Ready
    && Load(db, g) < db.gateways[g].capacity
  }

  /** The order of the placement query: fewest live assignments first, then the gateway id. */
  predicate Preferred(db: Db, g: Id, h: Id)
  {
    Load(db, g) < Load(db, h) || (Load(db, g) == Load(db, h) && Less(g, h))
  }

  ghost predicate IsPlacement(db: Db, region: Id, g: Id)
  {
    HasRoom(db, region, g) && forall h :: HasRoom(db, region, h) && h != g ==> Preferred(db, g, h)
  }

  lemma {:induction false} PlacementExists(db: Db, s: set<Id>)
    requires s != {}
    ensures exists g :: g in s && forall h :: h in s && h != g ==> Preferred(db, g, h)
  {
    hide Load;
    var x :| x in s;
    if s != {x} {
      PlacementExists(db, s - {x});
      var m :| m in s - {x} && forall h :: h in s - {x} && h != m ==> Preferred(db, m, h);
      LessTotal(m, x);
      var l := if Preferred(db, x, m) then x else m;
      forall h | h in s && h != l
        ensures Preferred(db, l, h)
      {
        if l == x && h != m {
          PreferredTransitive(db, x, m, h);
        }
      }
    }
  }

  lemma PreferredTransitive(db: Db, g: Id, h: Id, i: Id)
    requires Preferred(db, g, h) && Preferred(db, h, i)
    ensures Preferred(db, g, i)
  {
    hide Load;
    if Less(g, h) && Less(h, i) {
      LessTransitive(g, h, i);
    }
  }

  ghost function Placement(db: Db, region: Id): (g: Option<Id>)
    ensures g.Some? ==> IsPlacement(db, region, g.value)
    ensures g == None ==> forall h :: !HasRoom(db, region, h)
  {
    var candidates := set g | g in db.gateways && HasRoom(db, region, g);
    if candidates == {} then
      assert forall h :: HasRoom(db, region, h) ==> h in candidates;
      None
    else
      PlacementExists(db, candidates);
      var g :| g in candidates && forall h :: h in candidates && h != g ==> Preferred(db, g, h);
      Some(g)
  }

  lemma PlacementUnique(db: Db, region: Id, g: Id)
    requires IsPlacement(db, region, g)
    ensures Placement(db, region) == Some(g)
  {
    hide Load;
    var p := Placement(db, region).value;
    if p != g {
      LessTotal(g, p);
    }
  }

  function ActiveIPv4(db: Db, region: Id): set<int>
  {
    set l | l in db.leases && db.leases[l].region == region && !db.leases[l].released :: db.leases[l].ipv4
  }

  function ActiveIPv6(db: Db, region: Id): set<int>
  {
    set l | l in db.leases && db.leases[l].region == region && !db.leases[l].released :: db.leases[l].ipv6
  }

  predicate WellFormedRegion(r: Region)
  {
    WellFormedPool(r.pool4) && r.pool4.v4 && WellFormedPool(r.pool6) && !r.pool6.v4
  }

  /** The configuration an assignment stands for. */
  function ConfigurationOf(db: Db, a: Id): TunnelConfiguration
    requires a in db.assignments
    requires var row := db.assignments[a];
        row.gateway in db.gateways && row.lease in db.leases && db.leases[row.lease].region in db.regions
  {
    var row := db.assignments[a];
    var gateway, lease := db.gateways[row.gateway], db.leases[row.lease];
    var region := db.regions[lease.region];
    TunnelConfiguration(a, gateway.endpointHost, gateway.endpointPort, gateway.publicKey,
                        lease.ipv4, lease.ipv6, region.dns4, region.dns6, row.expiresAt)
  }

  /** The partial unique indexes on leases and assignments. */
  predicate LeaseClashes(db: Db, lease: Lease)
  {
    exists l :: l in db.leases && !db.leases[l].released
                && (db.leases[l].device == lease.device
                    || (db.leases[l].region == lease.region
                        && (db.leases[l].ipv4 == lease.ipv4 || db.leases[l].ipv6 == lease.ipv6)))
  }

  predicate AssignmentClashes(db: Db, device: Id)
  {
    exists a :: a in db.assignments && Live(db.assignments[a]) && db.assignments[a].device == device
  }

  /** The inserts of a new allocation, once gateway and addresses are chosen. */
  function Insert(db: Db, r: Request, gateway: Id, ipv4: int, ipv6: int): (Db, Result<Reply, Error>)
    requires gateway in db.gateways && r.region in db.regions
  {
    var lease := Lease(r.region, r.device, ipv4, ipv6, false);
    if r.leaseId in db.leases || LeaseClashes(db, lease) || r.assignmentId in db.assignments
      || AssignmentClashes(db, r.device) then
      (db, Err(Conflict))
    else
      var row := Assignment(r.device, gateway, r.leaseId, Pending, 1, 0, r.now + DAY);
      var after := db.(leases := db.leases[r.leaseId := lease], assignments := db.assignments[r.assignmentId := row]);
      var configuration := ConfigurationOf(after, r.assignmentId);
      (after.(replays := after.replays[ReplayKey(r.owner, r.device, r.key) := ReplayRecord(r.region, configuration)]),
       Ok(Reply(configuration, true)))
  }

  ghost function Allocate(db: Db, r: Request): (Db, Result<Reply, Error>)
    requires r.region in db.regions && WellFormedRegion(db.regions[r.region])
  {
    var region := db.regions[r.region];
    match Placement(db, r.region)
    case None => (db, Err(CapacityExhausted))
    case Some(gateway) =>
      match FirstFree(region.pool4, ActiveIPv4(db, r.region))
      case None => (db, Err(CapacityExhausted))
      case Some(ipv4) =>
        match FirstFree(region.pool6, ActiveIPv6(db, r.region))
        case None => (db, Err(CapacityExhausted))
        case Some(ipv6) => Insert(db, r, gateway, ipv4, ipv6)
  }

  ghost predicate WellFormedRegions(db: Db)
  {
    forall r :: r in db.regions ==> WellFormedRegion(db.regions[r])
  }

  ghost function Create(db: Db, r: Request): (Db, Result<Reply, Error>)
    requires WellFormedRegions(db)
  {
    var replay := ReplayKey(r.owner, r.device, r.key);
    if Unnamed(r) || |r.key| < 16 || |r.key| > 128 then (db, Err(InvalidInput))
    else if r.device !in db.devices || db.devices[r.device].owner != r.owner then (db, Err(NotFound))
    else if db.devices[r.device].state != DeviceActive then (db, Err(DeviceNotActive))
    else if replay in db.replays then
      (db, if db.replays[replay].region != r.region then Err(Conflict)
        else Ok(Reply(db.replays[replay].configuration, false)))
    else if r.region !in db.regions || !db.regions[r.region].available then (db, Err(NotFound))
    else match Existing(db, r.device)
      case Some(a) =>
        var lease := db.leases[db.assignments[a].lease];
        if lease.region != r.region then (db, Err(DeviceAlreadyAllocated))
        else
          var configuration := ConfigurationOf(db, a);
          (db.(replays := db.replays[replay := ReplayRecord(r.region, configuration)]), Ok(Reply(configuration, true)))
      case None => Allocate(db, r)
  }

  // ---- The other transactions ----

  function Register(db: Db, id: Id, owner: Id, publicKey: string): (Db, Result<(), Error>)
  {
    if !ValidPublicKey(publicKey) then (db, Err(InvalidInput))
    else if id in db.devices || exists d :: d in db.devices && db.devices[d].publicKey == publicKey
      then (db, Err(Conflict))
    else (db.(devices := db.devices[id := Device(owner, publicKey, DeviceActive)]), Ok(()))
  }

  function RequestRevocation(db: Db, owner: Id, device: Id): (Db, Result<(), Error>)
  {
    if device !in db.devices || db.devices[device].owner != owner then (db, Err(NotFound))
    else
      var d := db.devices[device];
      (db.(devices := db.devices[device := d.(state := if d.state == Revoked then Revoked else RevocationPending)]),
        Ok(()))
  }

  predicate Confirms(a: Assignment, gateway: Id, generation: int)
  {
    a.gateway == gateway && a.desired <= generation && Live(a)
  }

  function ConfirmedRow(a: Assignment): Assignment
  {
    a.(state := if a.state == RemovalPending then Removed else Active, observed := a.desired)
  }

  predicate RemovedFrom(db: Db, gateway: Id, a: Id)
  {
    a in db.assignments && db.assignments[a].gateway == gateway && db.assignments[a].state == Removed
  }

  function ConfirmAssignments(db: Db, gateway: Id, generation: int): Db
  {
    db.(assignments := map a | a in db.assignments ::
      if Confirms(db.assignments[a], gateway, generation) then ConfirmedRow(db.assignments[a]) else db.assignments[a])
  }

  function ReleaseLeases(db: Db, gateway: Id): Db
  {
    db.(leases := map l | l in db.leases ::
      if exists a :: a in db.assignments && RemovedFrom(db, gateway, a) && db.assignments[a].lease == l
        then db.leases[l].(released := true) else db.leases[l])
  }

  function RevokeDevices(db: Db, gateway: Id): Db
  {
    db.(devices := map d | d in db.devices ::
      if db.devices[d].state == RevocationPending
         && exists a :: a in db.assignments && RemovedFrom(db, gateway, a) && db.assignments[a].device == d
      then db.devices[d].(state := Revoked) else db.devices[d])
  }

  /** The three updates of ConfirmGatewaySnapshot. */
  function Confirm(db: Db, gateway: Id, generation: int): (Db, Result<(), Error>)
  {
    if gateway == "" || generation <= 0 then (db, Err(InvalidInput))
    else (RevokeDevices(ReleaseLeases(ConfirmAssignments(db, gateway, generation), gateway), gateway), Ok(()))
  }

  /** Not in the code: the step that withdraws a non-active device's assignment, possibly raising its desired
      generation. */
  function MarkRemoval(db: Db, a: Id, desired: int): Db
  {
    if a in db.assignments && Live(db.assignments[a]) && db.assignments[a].desired <= desired
       && db.assignments[a].device in db.devices && db.devices[db.assignments[a].device].state != DeviceActive
    then db.(assignments := db.assignments[a := db.assignments[a].(state := RemovalPending, desired := desired)])
    else db
  }

  // ---- The transactions as code ----

  class Store {
    var devices: map<Id, Device>
    var regions: map<Id, Region>
    var gateways: map<Id, Gateway>
    var leases: map<Id, Lease>
    var assignments: map<Id, Assignment>
    var replays: map<ReplayKey, ReplayRecord>

    function Tables(): Db
      reads this
    {
      Db(devices, regions, gateways, leases, assignments, replays)
    }

    constructor (db: Db)
      ensures Tables() == db
    {
      devices, regions, gateways := db.devices, db.regions, db.gateways;
      leases, assignments, replays := db.leases, db.assignments, db.replays;
    }

    method FindExisting(device: Id) returns (r: Option<Id>)
      ensures r.Some? ==> Holds(Tables(), device, r.value)
      ensures r == None ==> forall a :: !Holds(Tables(), device, a)
    {
      var left := assignments.Keys;
      while left != {}
        invariant forall a :: Holds(Tables(), device, a) ==> a in left
        invariant forall a :: a in left ==> a in assignments
        decreases |left|
      {
        var a :| a in left;
        if Holds(Tables(), device, a) {
          return Some(a);
        }
        left := left - {a};
      }
      return None;
    }

    /** ORDER BY load, id LIMIT 1 over the ready gateways with room. */
    method PickGateway(region: Id) returns (r: Option<Id>)
      ensures r == Placement(Tables(), region)
    {
      hide Load;
      var left := gateways.Keys;
      ghost var db := Tables();
      r := None;
      while left != {}
        invariant db == Tables()
        invariant forall g :: g in left ==> g in gateways
        invariant r.Some? ==> HasRoom(db, region, r.value) && r.value !in left
        invariant forall h :: HasRoom(db, region, h) && h !in left ==>
                    r.Some? && (h == r.value || Preferred(db, r.value, h))
        decreases |left|
      {
        var g :| g in left;
        left := left - {g};
        if HasRoom(Tables(), region, g) {
          if r == None {
            r := Some(g);
          } else {
            LessTotal(g, r.value);
            if Preferred(Tables(), g, r.value) {
              forall h | HasRoom(db, region, h) && h !in left && h != g && h != r.value
                ensures Preferred(db, g, h)
              {
                PreferredTransitive(db, g, r.value, h);
              }
              r := Some(g);
            }
          }
        }
      }
      if r.Some? {
        PlacementUnique(db, region, r.value);
      }
    }

    method ActiveAddresses(region: Id) returns (used4: set<int>, used6: set<int>)
      ensures used4 == ActiveIPv4(Tables(), region) && used6 == ActiveIPv6(Tables(), region)
    {
      used4, used6 := {}, {};
      var left := leases.Keys;
      while left != {}
        invariant forall l :: l in left ==> l in leases
        invariant used4 == set l | l in leases && l !in left && leases[l].region == region && !leases[l].released ::
            leases[l].ipv4
        invariant used6 == set l | l in leases && l !in left && leases[l].region == region && !leases[l].released ::
            leases[l].ipv6
        decreases |left|
      {
        var l :| l in left;
        if leases[l].region == region && !leases[l].released {
          used4, used6 := used4 + {leases[l].ipv4}, used6 + {leases[l].ipv6};
        }
        left := left - {l};
      }
    }

    method CreateTunnelConfiguration(r: Request) returns (result: Result<Reply, Error>)
      requires WellFormedRegions(Tables())
      requires forall a, b :: Holds(Tables(), r.device, a) && Holds(Tables(), r.device, b) ==> a == b
      modifies this
      ensures (Tables(), result) == Create(old(Tables()), r)
    {
      var replay := ReplayKey(r.owner, r.device, r.key);
      if TrimSpace(r.owner) == "" || TrimSpace(r.device) == "" || TrimSpace(r.region) == "" {
        return Err(InvalidInput);
      }
      if |r.key| < 16 || |r.key| > 128 {
        return Err(InvalidInput);
      }
      if r.device !in devices || devices[r.device].owner != r.owner {
        return Err(NotFound);
      }
      if devices[r.device].state != DeviceActive {
        return Err(DeviceNotActive);
      }
      if replay in replays {
        return if replays[replay].region != r.region then Err(Conflict)
          else Ok(Reply(replays[replay].configuration, false));
      }
      if r.region !in regions || !regions[r.region].available {
        return Err(NotFound);
      }
      var existing := FindExisting(r.device);
      if existing.Some? {
        if leases[assignments[existing.value].lease].region != r.region {
          return Err(DeviceAlreadyAllocated);
        }
        var configuration := ConfigurationOf(Tables(), existing.value);
        replays := replays[replay := ReplayRecord(r.region, configuration)];
        return Ok(Reply(configuration, true));
      }
      result := AllocateNew(r);
    }

    method AllocateNew(r: Request) returns (result: Result<Reply, Error>)
      requires WellFormedRegions(Tables()) && r.region in regions
      modifies this
      ensures (Tables(), result) == Allocate(old(Tables()), r)
    {
      var gateway := PickGateway(r.region);
      if gateway == None {
        return Err(CapacityExhausted);
      }
      var used4, used6 := ActiveAddresses(r.region);
      var ipv4 := FirstAvailableAddress(Some(regions[r.region].pool4), used4);
      if ipv4.Err? {
        return Err(CapacityExhausted);
      }
      var ipv6 := FirstAvailableAddress(Some(regions[r.region].pool6), used6);
      if ipv6.Err? {
        return Err(CapacityExhausted);
      }
      var lease := Lease(r.region, r.device, ipv4.value, ipv6.value, false);
      if r.leaseId in leases || LeaseClashes(Tables(), lease) || r.assignmentId in assignments
        || AssignmentClashes(Tables(), r.device) {
        return Err(Conflict);
      }
      leases := leases[r.leaseId := lease];
      assignments := assignments[r.assignmentId := Assignment(r.device, gateway.value, r.leaseId, Pending, 1, 0,
        r.now + DAY)];
      var configuration := ConfigurationOf(Tables(), r.assignmentId);
      replays := replays[ReplayKey(r.owner, r.device, r.key) := ReplayRecord(r.region, configuration)];
      return Ok(Reply(configuration, true));
    }

    method RevokeDevice(owner: Id, device: Id) returns (result: Result<(), Error>)
      modifies this
      ensures (Tables(), result) == RequestRevocation(old(Tables()), owner, device)
    {
      if device !in devices || devices[device].owner != owner {
        return Err(NotFound);
      }
      if devices[device].state != Revoked {
        devices := devices[device := devices[device].(state := RevocationPending)];
      }
      assert devices[device := devices[device]] == devices;
      return Ok(());
    }

    method ConfirmGatewaySnapshot(gateway: Id, generation: int) returns (result: Result<(), Error>)
      modifies this
      ensures (Tables(), result) == Confirm(old(Tables()), gateway, generation)
    {
      hide ConfirmAssignments, ReleaseLeases, RevokeDevices;
      if gateway == "" || generation <= 0 {
        return Err(InvalidInput);
      }
      AdvanceAssignments(gateway, generation);
      ReleaseRemoved(gateway);
      RevokeRemoved(gateway);
      return Ok(());
    }

    method AdvanceAssignments(gateway: Id, generation: int)
      modifies this
      ensures Tables() == ConfirmAssignments(old(Tables()), gateway, generation)
    {
      assignments := map a | a in assignments ::
        var row := assignments[a];
        if row.gateway == gateway && row.desired <= generation && row.state != Removed
        then row.(state := if row.state == RemovalPending then Removed else Active, observed := row.desired) else row;
      assert assignments == ConfirmAssignments(old(Tables()), gateway, generation).assignments;
    }

    method ReleaseRemoved(gateway: Id)
      modifies this
      ensures Tables() == ReleaseLeases(old(Tables()), gateway)
    {
      leases := map l | l in leases ::
        if !leases[l].released
           && exists a :: a in assignments && RemovedFrom(Tables(), gateway, a) && assignments[a].lease == l
        then leases[l].(released := true) else leases[l];
      assert leases == ReleaseLeases(old(Tables()), gateway).leases;
    }

    method RevokeRemoved(gateway: Id)
      modifies this
      ensures Tables() == RevokeDevices(old(Tables()), gateway)
    {
      devices := map d | d in devices ::
        if devices[d].state == RevocationPending
           && exists a :: a in assignments && RemovedFrom(Tables(), gateway, a) && assignments[a].device == d
        then devices[d].(state := Revoked) else devices[d];
      assert devices == RevokeDevices(old(Tables()), gateway).devices;
    }
  }
}
