/** What the control plane promises over every run of its transactions
    (services/api/internal/postgres/store.go:162-216, 363-373, 494-756). */
module StoreTheorems {
  import opened Arithmetic
  import opened Wrappers
  import opened Base64
  import opened Ordering
  import opened Addresses
  import opened Texts
  import opened Database
  import opened Lifecycle
  import opened StoreRuns

  /** The tables after the first n steps. */
  ghost function Run(db: Db, steps: seq<Step>, n: nat): (after: Db)
    requires Inv(db) && n <= |steps|
    ensures Inv(after)
  {
    if n == 0 then db
    else
      ApplyKeepsInv(Run(db, steps, n - 1), steps[n - 1]);
      Apply(Run(db, steps, n - 1), steps[n - 1])
  }

  // ---- What never changes ----

  function Rank(s: DeviceState): nat
  {
    match s case DeviceActive => 0 case RevocationPending => 1 case Revoked => 2
  }

  predicate SameIdentity(row: Assignment, now: Assignment)
  {
    && now.device == row.device && now.gateway == row.gateway && now.lease == row.lease
      && now.expiresAt == row.expiresAt
    && (row.state == Removed ==> now.state == Removed)
  }

  predicate SameDevice(d: Device, now: Device)
  {
    now.owner == d.owner && now.publicKey == d.publicKey && Rank(d.state) <= Rank(now.state)
  }

  /** No row disappears or changes identity, removal and release are final, devices only move towards revoked,
      and stored responses are never rewritten. */
  ghost predicate Grows(db: Db, after: Db)
  {
    && (forall d :: d in db.devices ==> d in after.devices && SameDevice(db.devices[d], after.devices[d]))
    && (forall a :: a in db.assignments ==>
          a in after.assignments && SameIdentity(db.assignments[a], after.assignments[a]))
    && (forall l :: l in db.leases ==> l in after.leases && SameLease(db.leases[l], after.leases[l]))
    && (forall r :: r in db.regions ==>
          r in after.regions && after.regions[r] == db.regions[r].(available := after.regions[r].available))
    && (forall g :: g in db.gateways ==>
          g in after.gateways && after.gateways[g] == db.gateways[g].(state := after.gateways[g].state))
    && (forall k :: k in db.replays ==> k in after.replays && after.replays[k] == db.replays[k])
  }

  lemma NarrowsGrows(db: Db, after: Db)
    requires Narrows(db, after)
    requires forall d :: d in db.devices ==> d in after.devices && SameDevice(db.devices[d], after.devices[d])
    ensures Grows(db, after)
  {
  }

  lemma GrowsTransitive(x: Db, y: Db, z: Db)
    requires Grows(x, y) && Grows(y, z)
    ensures Grows(x, z)
  {
  }

  lemma InsertGrows(db: Db, r: Request, g: Id, ipv4: int, ipv6: int)
    requires Placed(db, r, g, ipv4, ipv6) && ReplayKey(r.owner, r.device, r.key) !in db.replays
    ensures Grows(db, Insert(db, r, g, ipv4, ipv6).0)
  {
    hide Placed, Insert;
    InsertShape(db, r, g, ipv4, ipv6);
  }

  lemma CreateGrows(db: Db, r: Request)
    requires Inv(db)
    ensures Grows(db, Create(db, r).0)
  {
    hide Insert, Allocate, OneToOne, InWindows, AddressesApart, WithinCapacity, KeysDistinct, StatesAgree,
      ReplaysFaithful, WellFormedRegion, Placed;
    if Create(db, r).1.Err? {
      CreateErrs(db, r);
    } else if ReplayKey(r.owner, r.device, r.key) !in db.replays && Existing(db, r.device) == None {
      var g, ipv4, ipv6 := AllocateInserts(db, r);
      InsertGrows(db, r, g, ipv4, ipv6);
    }
  }

  lemma ApplyGrows(db: Db, s: Step)
    requires Inv(db)
    ensures Grows(db, Apply(db, s))
  {
    assert WellFormedRegions(db);
    hide Inv, Grows, Narrows, Create, Confirm, Register, MarkRemoval, RequestRevocation, WellFormedRegions,
      SetGateway, SetRegion;
    match s
    case RegisterDevice(id, owner, publicKey) => RegisterGrows(db, id, owner, publicKey);
    case CreateTunnel(r) => CreateGrows(db, r);
    case Revoke(owner, device) => RevokeGrows(db, owner, device);
    case Withdraw(a, desired) => WithdrawGrows(db, a, desired);
    case ConfirmSnapshot(g, generation) => ConfirmGrows(db, g, generation);
    case SetGatewayState(g, state) => GatewayGrows(db, g, state);
    case SetRegionAvailable(r, available) => RegionGrows(db, r, available);
  }

  lemma DevicesGrow(db: Db, after: Db)
    requires after == db.(devices := after.devices)
    requires forall d :: d in db.devices ==> d in after.devices && SameDevice(db.devices[d], after.devices[d])
    ensures Grows(db, after)
  {
    hide SameDevice;
  }

  lemma RegisterGrows(db: Db, id: Id, owner: Id, publicKey: string)
    ensures Grows(db, Register(db, id, owner, publicKey).0)
  {
    hide ValidPublicKey, Grows;
    DevicesGrow(db, Register(db, id, owner, publicKey).0);
  }

  lemma RevokeGrows(db: Db, owner: Id, device: Id)
    ensures Grows(db, RequestRevocation(db, owner, device).0)
  {
    hide Grows;
    DevicesGrow(db, RequestRevocation(db, owner, device).0);
  }

  /** With the devices untouched, narrowing is growing. */
  lemma SameDevicesGrow(db: Db, after: Db)
    requires Narrows(db, after) && after.devices == db.devices
    ensures Grows(db, after)
  {
    hide Narrows, Grows;
    NarrowsGrows(db, after);
  }

  lemma WithdrawGrows(db: Db, a: Id, desired: int)
    ensures Grows(db, MarkRemoval(db, a, desired))
  {
    hide Narrows, Grows;
    WithdrawNarrows(db, a, desired);
    SameDevicesGrow(db, MarkRemoval(db, a, desired));
  }

  lemma GatewayGrows(db: Db, g: Id, state: GatewayState)
    ensures Grows(db, SetGateway(db, g, state))
  {
    hide Narrows, Grows;
    GatewaysNarrow(db, SetGateway(db, g, state));
    SameDevicesGrow(db, SetGateway(db, g, state));
  }

  lemma RegionGrows(db: Db, r: Id, available: bool)
    ensures Grows(db, SetRegion(db, r, available))
  {
    hide Narrows, Grows;
    RegionsNarrow(db, SetRegion(db, r, available));
    SameDevicesGrow(db, SetRegion(db, r, available));
  }

  lemma ConfirmGrows(db: Db, g: Id, generation: int)
    ensures Grows(db, Confirm(db, g, generation).0)
  {
    hide Confirm, Narrows;
    if g == "" || generation <= 0 {
      ConfirmInvalid(db, g, generation);
      GrowsReflexive(db);
    } else {
      ConfirmNarrows(db, g, generation);
      ConfirmDevices(db, g, generation);
      NarrowsGrows(db, Confirm(db, g, generation).0);
    }
  }

  lemma ConfirmDevices(db: Db, g: Id, generation: int)
    requires g != "" && generation > 0
    ensures var after := Confirm(db, g, generation).0;
            forall d :: d in db.devices ==> d in after.devices && SameDevice(db.devices[d], after.devices[d])
  {
    hide Confirm, LeaseRemoved, DeviceRemoved;
    ConfirmRows(db, g, generation);
  }

  lemma GrowsReflexive(db: Db)
    ensures Grows(db, db)
  {
  }

  lemma RunStep(db: Db, steps: seq<Step>, n: nat)
    requires Inv(db) && n < |steps|
    ensures WellFormedRegions(Run(db, steps, n))
    ensures Run(db, steps, n + 1) == Apply(Run(db, steps, n), steps[n])
  {
    hide OneToOne, StatesAgree, Lockstep, WithinCapacity, ReplaysFaithful, KeysDistinct, Apply, WellFormedRegion;
  }

  lemma {:induction false} RunGrows(db: Db, steps: seq<Step>, m: nat, n: nat)
    requires Inv(db) && m <= n <= |steps|
    ensures Grows(Run(db, steps, m), Run(db, steps, n))
  {
    hide Inv, Apply, Grows, Run, WellFormedRegions;
    if m == n {
      GrowsReflexive(Run(db, steps, m));
    } else {
      RunGrows(db, steps, m, n - 1);
      RunStep(db, steps, n - 1);
      ApplyGrows(Run(db, steps, n - 1), steps[n - 1]);
      GrowsTransitive(Run(db, steps, m), Run(db, steps, n - 1), Run(db, steps, n));
    }
  }

  // ---- Idempotent allocation ----

  /** All successful allocations for one device, anywhere in a run and under any idempotency keys, return the
      same assignment, addresses, endpoint, DNS servers and expiry. */
  lemma SameConfiguration(db: Db, steps: seq<Step>, i: nat, j: nat)
    requires Inv(db) && i < j < |steps|
    requires steps[i].CreateTunnel? && steps[j].CreateTunnel? && steps[i].request.device == steps[j].request.device
    requires Create(Run(db, steps, i), steps[i].request).1.Ok? && Create(Run(db, steps, j), steps[j].request).1.Ok?
    ensures Create(Run(db, steps, i), steps[i].request).1.value.configuration
            == Create(Run(db, steps, j), steps[j].request).1.value.configuration
  {
    hide Inv, Create, Grows, Run, WellFormedRegions;
    RunStep(db, steps, i);
    RunStep(db, steps, j);
    RunGrows(db, steps, i + 1, j + 1);
    SameAnswers(Run(db, steps, i), steps[i].request, Run(db, steps, j), steps[j].request);
  }

  lemma SameAnswers(db: Db, r: Request, later: Db, q: Request)
    requires Inv(db) && Inv(later) && r.device == q.device
    requires Create(db, r).1.Ok? && Create(later, q).1.Ok? && Grows(Create(db, r).0, Create(later, q).0)
    ensures Create(db, r).1.value.configuration == Create(later, q).1.value.configuration
  {
    hide Create, Agreeing, LeasesAssigned, StatesAgree, Lockstep, WithinCapacity, ReplaysFaithful, KeysDistinct,
      Grows, WellFormedRegion;
    CreateOutcome(later, q);
    var now := Create(later, q).0;
    var a := AnswerCarried(db, r, now);
    var b :| Answers(now, q.device, Create(later, q).1.value.configuration, b);
    assert a == b;
  }

  /** Once a request has been answered, in every later state in which its device is still active: its own key is
      recorded; any recorded key replays the answer, or conflicts for another region, and changes nothing, even if the
      region is closed by then; a new key for the same region gets the same answer, and one for another is refused. */
  lemma AnswerStands(db: Db, steps: seq<Step>, i: nat, j: nat, q: Request)
    requires Inv(db) && i < j <= |steps| && steps[i].CreateTunnel?
    requires Create(Run(db, steps, i), steps[i].request).1.Ok?
    requires var r := steps[i].request; q.owner == r.owner && q.device == r.device && 16 <= |q.key| <= 128
    requires q.device in Run(db, steps, j).devices && Run(db, steps, j).devices[q.device].state == DeviceActive
    ensures var r := steps[i].request; ReplayKey(r.owner, r.device, r.key) in Run(db, steps, j).replays
    ensures var now, r := Run(db, steps, j), steps[i].request;
            var answer, (after, result) := Create(Run(db, steps, i), r).1.value.configuration, Create(now, q);
            if TrimSpace(q.region) == "" then after == now && result == Err(InvalidInput)
            else if ReplayKey(q.owner, q.device, q.key) in now.replays then
              after == now && result == if q.region == r.region then Ok(Reply(answer, false)) else Err(Conflict)
            else if q.region !in now.regions || !now.regions[q.region].available then after == now
              && result == Err(NotFound)
            else if q.region == r.region then result == Ok(Reply(answer, true))
            else after == now && result == Err(DeviceAlreadyAllocated)
  {
    hide Inv, Grows, Create, Run, WellFormedRegions;
    var now, r := Run(db, steps, j), steps[i].request;
    RunStep(db, steps, i);
    RunGrows(db, steps, i + 1, j);
    AnswerRecorded(Run(db, steps, i), r);
    var a := AnswerCarried(Run(db, steps, i), r, now);
    AnswerRepeated(now, q, r.region, a, Create(Run(db, steps, i), r).1.value.configuration);
  }

  /** A successful request leaves its answer in the table. */
  lemma AnswerRecorded(db: Db, r: Request)
    requires Inv(db) && Create(db, r).1.Ok?
    ensures !Unnamed(r) && r.device in db.devices && db.devices[r.device].owner == r.owner && 16 <= |r.key| <= 128
    ensures var (after, result) := Create(db, r); var key := ReplayKey(r.owner, r.device, r.key);
            key in after.replays && after.replays[key] == ReplayRecord(r.region, result.value.configuration)
  {
    hide Insert, Allocate, OneToOne, InWindows, AddressesApart, WithinCapacity, KeysDistinct, StatesAgree,
      ReplaysFaithful, WellFormedRegion, Placed;
    if ReplayKey(r.owner, r.device, r.key) !in db.replays && Existing(db, r.device) == None {
      var g, ipv4, ipv6 := AllocateInserts(db, r);
      InsertShape(db, r, g, ipv4, ipv6);
    }
  }

  lemma AnswerCarried(db: Db, r: Request, now: Db) returns (a: Id)
    requires Inv(db) && Create(db, r).1.Ok? && Inv(now) && Grows(Create(db, r).0, now)
    ensures var key := ReplayKey(r.owner, r.device, r.key);
            && a in now.assignments && now.assignments[a].device == r.device
            && Create(db, r).1.value.configuration == ConfigurationOf(now, a)
            && now.leases[now.assignments[a].lease].region == r.region
            && key in now.replays && now.replays[key] == ReplayRecord(r.region, Create(db, r).1.value.configuration)
            && r.device in now.devices && now.devices[r.device].owner == r.owner
  {
    hide Create, OneToOne, StatesAgree, Lockstep, WithinCapacity, KeysDistinct, WellFormedRegion;
    CreateOutcome(db, r);
    CreateGrows(db, r);
    AnswerRecorded(db, r);
    var after := Create(db, r).0;
    assert SameDevice(db.devices[r.device], after.devices[r.device])
      && SameDevice(after.devices[r.device], now.devices[r.device]);
    var key := ReplayKey(r.owner, r.device, r.key);
    a :| a in now.assignments && now.assignments[a].device == key.device
         && now.replays[key] == ReplayRecord(now.leases[now.assignments[a].lease].region, ConfigurationOf(now, a));
  }

  /** Whatever key of the device is recorded, it records the configuration of the device's one assignment. */
  lemma RecordedIsConfiguration(now: Db, key: ReplayKey, a: Id)
    requires Inv(now) && key in now.replays && a in now.assignments && now.assignments[a].device == key.device
    ensures now.replays[key] == ReplayRecord(now.leases[now.assignments[a].lease].region, ConfigurationOf(now, a))
  {
    hide Agreeing, LeasesAssigned, StatesAgree, Lockstep, WithinCapacity, KeysDistinct, WellFormedRegion;
    var b :| b in now.assignments && now.assignments[b].device == key.device
             && now.replays[key] == ReplayRecord(now.leases[now.assignments[b].lease].region, ConfigurationOf(now, b));
    assert b == a;
  }

  lemma AnswerRepeated(now: Db, q: Request, region: Id, a: Id, answer: TunnelConfiguration)
    requires Inv(now) && a in now.assignments && now.assignments[a].device == q.device
        && answer == ConfigurationOf(now, a)
    requires TrimSpace(q.owner) != "" && TrimSpace(q.device) != "" && 16 <= |q.key| <= 128
    requires now.leases[now.assignments[a].lease].region == region
    requires q.device in now.devices && now.devices[q.device].owner == q.owner
        && now.devices[q.device].state == DeviceActive
    ensures var (after, result) := Create(now, q);
            if TrimSpace(q.region) == "" then after == now && result == Err(InvalidInput)
            else if ReplayKey(q.owner, q.device, q.key) in now.replays then
              after == now && result == if q.region == region then Ok(Reply(answer, false)) else Err(Conflict)
            else if q.region !in now.regions || !now.regions[q.region].available then after == now
              && result == Err(NotFound)
            else if q.region == region then result == Ok(Reply(answer, true))
            else after == now && result == Err(DeviceAlreadyAllocated)
  {
    hide Insert, Allocate, Agreeing, LeasesAssigned, Lockstep, WithinCapacity, KeysDistinct, ReplaysFaithful,
      WellFormedRegion, RevokedRemoved;
    var key := ReplayKey(q.owner, q.device, q.key);
    if key in now.replays {
      RecordedIsConfiguration(now, key, a);
    } else {
      assert Holds(now, q.device, a);
      assert Existing(now, q.device) == Some(a);
    }
  }

  // ---- The life cycle's end ----

  /** In every reachable state a device is revoked iff its assignment has been removed, and then nothing of it is
      left: no live assignment and no unreleased lease. A device that never got an assignment is never revoked. */
  lemma RevokedExactly(db: Db, steps: seq<Step>, n: nat, d: Id)
    requires Inv(db) && n <= |steps| && d in Run(db, steps, n).devices
    ensures var now := Run(db, steps, n);
            && (now.devices[d].state == Revoked <==>
                exists a :: a in now.assignments && now.assignments[a].device == d
                  && now.assignments[a].state == Removed)
            && (now.devices[d].state == Revoked ==>
                  && (forall a :: a in now.assignments && now.assignments[a].device == d ==> !Live(now.assignments[a]))
                  && (forall l :: l in now.leases && now.leases[l].device == d ==> now.leases[l].released))
  {
    hide Run, Lockstep, WithinCapacity, ReplaysFaithful, KeysDistinct, WellFormedRegion;
    var now := Run(db, steps, n);
    if now.devices[d].state == Revoked {
      assert InState(now, d, Revoked);
      var a :| a in now.assignments && now.assignments[a].device == d && now.assignments[a].state == Removed;
      forall l | l in now.leases && now.leases[l].device == d
        ensures now.leases[l].released
      {
        var b :| b in now.assignments && now.assignments[b].lease == l;
        assert b == a;
      }
    }
  }

  /** At most one live assignment per device, and one live assignment per unreleased lease, in every reachable state. */
  lemma LivePairs(db: Db, steps: seq<Step>, n: nat)
    requires Inv(db) && n <= |steps|
    ensures var now := Run(db, steps, n);
            && (forall a, b :: a in now.assignments && b in now.assignments && a != b ==>
                  now.assignments[a].device != now.assignments[b].device)
            && (forall l :: l in now.leases && !now.leases[l].released ==>
                  exists a :: a in now.assignments && now.assignments[a].lease == l && Live(now.assignments[a]))
            && (forall a :: a in now.assignments && Live(now.assignments[a]) ==>
                  Unreleased(now, now.assignments[a].lease))
  {
    hide Run, Lockstep, WithinCapacity, ReplaysFaithful, KeysDistinct, WellFormedRegion;
    var now := Run(db, steps, n);
    forall l | l in now.leases && !now.leases[l].released
      ensures exists a :: a in now.assignments && now.assignments[a].lease == l && Live(now.assignments[a])
    {
      var a :| a in now.assignments && now.assignments[a].lease == l;
      assert Unreleased(now, l);
    }
  }

  /** In every reachable state live addresses of a region are pairwise distinct, at equal offsets from their pool
      bases, inside the pools, and never the base, the one after it, or the last IPv4 address. */
  lemma AddressesInLockstep(db: Db, steps: seq<Step>, n: nat, l: Id, m: Id)
    requires Inv(db) && n <= |steps|
    requires Unreleased(Run(db, steps, n), l) && Unreleased(Run(db, steps, n), m)
    requires Run(db, steps, n).leases[l].region == Run(db, steps, n).leases[m].region
    ensures var now := Run(db, steps, n);
            var x, y := now.leases[l], now.leases[m];
            x.region in now.regions && WellFormedRegion(now.regions[x.region]) &&
            var p4, p6 := now.regions[x.region].pool4, now.regions[x.region].pool6;
            && (l != m ==> x.ipv4 != y.ipv4 && x.ipv6 != y.ipv6)
            && x.ipv4 - Base(p4) == x.ipv6 - Base(p6)
            && Base(p4) + 2 <= x.ipv4 < Base(p4) + Size(p4) - 1 && Base(p6) + 2 <= x.ipv6 < Base(p6) + Size(p6)
  {
    hide Run, OneToOne, StatesAgree, WithinCapacity, ReplaysFaithful, KeysDistinct, Base, Size;
    var now := Run(db, steps, n);
    assert Offset4(now, l) == Offset6(now, l);
    var region := now.regions[now.leases[l].region];
    WindowInside(region.pool4, now.leases[l].ipv4);
    WindowInside(region.pool6, now.leases[l].ipv6);
  }

  // ---- Confirmation is a join ----

  lemma ConfirmRowTwice(a: Assignment, g: Id, m: int, n: int)
    ensures var first := if Confirms(a, g, m) then ConfirmedRow(a) else a;
            (if Confirms(first, g, n) then ConfirmedRow(first) else first)
            == if Confirms(a, g, if m < n then n else m) then ConfirmedRow(a) else a
  {
  }

  /** Confirming two generations, in either order, is confirming the greater one. */
  lemma ConfirmJoins(db: Db, g: Id, m: int, n: int)
    requires g != "" && m > 0 && n > 0
    ensures Confirm(Confirm(db, g, m).0, g, n).0 == Confirm(db, g, if m < n then n else m).0
  {
    hide Confirm, Confirms, ConfirmedRow, LeaseRemoved, DeviceRemoved;
    var k := if m < n then n else m;
    var one := Confirm(db, g, m).0;
    var two, join := Confirm(one, g, n).0, Confirm(db, g, k).0;
    AssignmentsJoin(db, g, m, n);
    RemovalsPersist(db, g, m, n);
    SameRemovals(two, join, g);
    LeasesJoin(db, g, m, n);
    DevicesJoin(db, g, m, n);
    ConfirmRows(db, g, m);
    ConfirmRows(one, g, n);
    ConfirmRows(db, g, k);
  }

  lemma AssignmentsJoin(db: Db, g: Id, m: int, n: int)
    requires g != "" && m > 0 && n > 0
    ensures Confirm(Confirm(db, g, m).0, g, n).0.assignments == Confirm(db, g, if m < n then n else m).0.assignments
  {
    hide Confirm, LeaseRemoved, DeviceRemoved;
    var k := if m < n then n else m;
    var one := Confirm(db, g, m).0;
    ConfirmRows(db, g, m);
    ConfirmRows(one, g, n);
    ConfirmRows(db, g, k);
    forall a | a in db.assignments
      ensures Confirm(one, g, n).0.assignments[a] == Confirm(db, g, k).0.assignments[a]
    {
      ConfirmRowTwice(db.assignments[a], g, m, n);
    }
  }

  lemma LeasesJoin(db: Db, g: Id, m: int, n: int)
    requires g != "" && m > 0 && n > 0
    requires var one := Confirm(db, g, m).0; var two, join := Confirm(one, g, n).0,
        Confirm(db, g, if m < n then n else m).0;
             forall l :: (LeaseRemoved(one, g, l) ==> LeaseRemoved(two, g, l))
               && (LeaseRemoved(two, g, l) <==> LeaseRemoved(join, g, l))
    ensures Confirm(Confirm(db, g, m).0, g, n).0.leases == Confirm(db, g, if m < n then n else m).0.leases
  {
    hide Confirm, LeaseRemoved, DeviceRemoved;
    ConfirmRows(db, g, m);
    ConfirmRows(Confirm(db, g, m).0, g, n);
    ConfirmRows(db, g, if m < n then n else m);
  }

  lemma DevicesJoin(db: Db, g: Id, m: int, n: int)
    requires g != "" && m > 0 && n > 0
    requires var one := Confirm(db, g, m).0; var two, join := Confirm(one, g, n).0,
        Confirm(db, g, if m < n then n else m).0;
             forall d :: (DeviceRemoved(one, g, d) ==> DeviceRemoved(two, g, d))
               && (DeviceRemoved(two, g, d) <==> DeviceRemoved(join, g, d))
    ensures Confirm(Confirm(db, g, m).0, g, n).0.devices == Confirm(db, g, if m < n then n else m).0.devices
  {
    hide Confirm, LeaseRemoved, DeviceRemoved;
    ConfirmRows(db, g, m);
    ConfirmRows(Confirm(db, g, m).0, g, n);
    ConfirmRows(db, g, if m < n then n else m);
  }

  /** What the first confirmation removed, the second still counts as removed. */
  lemma RemovalsPersist(db: Db, g: Id, m: int, n: int)
    requires g != "" && m > 0 && n > 0
    ensures var one := Confirm(db, g, m).0; var two := Confirm(one, g, n).0;
            && (forall l :: LeaseRemoved(one, g, l) ==> LeaseRemoved(two, g, l))
            && (forall d :: DeviceRemoved(one, g, d) ==> DeviceRemoved(two, g, d))
  {
    hide Confirm;
    var one := Confirm(db, g, m).0;
    var two := Confirm(one, g, n).0;
    assert two.assignments == ConfirmAssignments(one, g, n).assignments by { ConfirmRows(one, g, n); }
    forall a | RemovedFrom(one, g, a)
      ensures RemovedFrom(two, g, a) && two.assignments[a] == one.assignments[a]
    {
    }
  }

  lemma SameRemovals(x: Db, y: Db, g: Id)
    requires x.assignments == y.assignments
    ensures forall l :: LeaseRemoved(x, g, l) <==> LeaseRemoved(y, g, l)
    ensures forall d :: DeviceRemoved(x, g, d) <==> DeviceRemoved(y, g, d)
  {
    assert forall a :: RemovedFrom(x, g, a) <==> RemovedFrom(y, g, a);
  }
}
