/** Every transaction keeps the joint invariant, and what follows over whole runs
    (services/api/internal/postgres/store.go:175-216, 363-373, 494-702). */
module StoreRuns {
  import opened Arithmetic
  import opened Wrappers
  import opened Base64
  import opened Ordering
  import opened Addresses
  import opened Database
  import opened Lifecycle

  // ---- Steps that insert no lease ----

  /** Rows keep their identity: states move, leases may be released, devices may be added, nothing else changes. */
  ghost predicate Narrows(db: Db, after: Db)
  {
    && after.replays == db.replays
    && after.assignments.Keys == db.assignments.Keys && after.leases.Keys == db.leases.Keys
    && after.regions.Keys == db.regions.Keys && after.gateways.Keys == db.gateways.Keys
      && db.devices.Keys <= after.devices.Keys
    && (forall a :: a in db.assignments ==> SameRow(db.assignments[a], after.assignments[a]))
    && (forall l :: l in db.leases ==> SameLease(db.leases[l], after.leases[l]))
    && (forall r :: r in db.regions ==> after.regions[r] == db.regions[r].(available := after.regions[r].available))
    && (forall g :: g in db.gateways ==> after.gateways[g] == db.gateways[g].(state := after.gateways[g].state))
  }

  predicate SameRow(row: Assignment, now: Assignment)
  {
    && now == row.(state := now.state, desired := now.desired, observed := now.observed)
    && (Live(now) ==> Live(row))
    && (0 <= row.observed <= row.desired && row.desired > 0 ==> 0 <= now.observed <= now.desired && now.desired > 0)
  }

  predicate SameLease(lease: Lease, now: Lease)
  {
    now == lease.(released := now.released) && (lease.released ==> now.released)
  }

  lemma SameRegionShape(region: Region, now: Region)
    requires WellFormedRegion(region) && now == region.(available := now.available)
    ensures WellFormedRegion(now)
  {
    hide Pow2;
  }

  lemma NarrowsRegions(db: Db, after: Db)
    requires Narrows(db, after) && WellFormedRegions(db)
    ensures WellFormedRegions(after)
  {
    forall r | r in after.regions
      ensures WellFormedRegion(after.regions[r])
    {
      SameRegionShape(db.regions[r], after.regions[r]);
    }
  }

  lemma NarrowsRow(db: Db, after: Db, a: Id)
    requires Narrows(db, after) && a in after.assignments
    ensures a in db.assignments && SameRow(db.assignments[a], after.assignments[a])
  {
  }

  lemma NarrowsSchema(db: Db, after: Db)
    requires Narrows(db, after) && Schema(db)
    ensures Schema(after)
  {
    hide WellFormedRegions, SameRow;
    NarrowsRegions(db, after);
    forall g | g in after.gateways
      ensures g != "" && after.gateways[g].region in after.regions
    {
      assert g in db.gateways;
    }
    forall l | l in after.leases
      ensures after.leases[l].region in after.regions && after.leases[l].device in after.devices
    {
      assert l in db.leases && SameLease(db.leases[l], after.leases[l]);
    }
    forall a | a in after.assignments
      ensures var row := after.assignments[a];
              && row.device in after.devices && row.gateway in after.gateways && row.lease in after.leases
              && 0 <= row.observed <= row.desired && row.desired > 0
    {
      NarrowsRow(db, after, a);
      RowStaysSound(db.assignments[a], after.assignments[a]);
    }
  }

  lemma RowStaysSound(row: Assignment, now: Assignment)
    requires SameRow(row, now) && 0 <= row.observed <= row.desired && row.desired > 0
    ensures 0 <= now.observed <= now.desired && now.desired > 0
    ensures now.device == row.device && now.gateway == row.gateway && now.lease == row.lease
  {
  }

  lemma NarrowsOneToOne(db: Db, after: Db)
    requires Narrows(db, after) && Schema(db) && Schema(after) && OneToOne(db)
    ensures OneToOne(after)
  {
    hide LeasesAssigned, Separate, Agreeing, Narrows, Schema;
    NarrowsLeasesAssigned(db, after);
    NarrowsSeparate(db, after);
    NarrowsAgreeing(db, after);
  }

  lemma NarrowsSeparate(db: Db, after: Db)
    requires Narrows(db, after) && Separate(db)
    ensures Separate(after)
  {
    forall a | a in after.assignments
      ensures a in db.assignments && SameRow(db.assignments[a], after.assignments[a])
    {
      assert a in db.assignments;
    }
  }

  lemma NarrowsAgreeing(db: Db, after: Db)
    requires Narrows(db, after) && Schema(db) && Schema(after) && Agreeing(db)
    ensures Agreeing(after)
  {
    hide WellFormedRegion;
    forall a | a in after.assignments
      ensures var row := after.assignments[a];
              after.leases[row.lease].device == row.device
                && after.leases[row.lease].region == after.gateways[row.gateway].region
    {
      assert a in db.assignments && SameRow(db.assignments[a], after.assignments[a]);
      assert SameLease(db.leases[db.assignments[a].lease], after.leases[db.assignments[a].lease]);
    }
  }

  lemma NarrowsLeasesAssigned(db: Db, after: Db)
    requires Narrows(db, after) && LeasesAssigned(db)
    ensures LeasesAssigned(after)
  {
    forall l | l in after.leases
      ensures exists a :: a in after.assignments && after.assignments[a].lease == l
    {
      assert l in db.leases;
      var a :| a in db.assignments && db.assignments[a].lease == l;
      assert a in after.assignments && SameRow(db.assignments[a], after.assignments[a]);
    }
  }

  lemma NarrowsLockstep(db: Db, after: Db)
    requires Narrows(db, after) && Schema(db) && Schema(after) && Lockstep(db)
    ensures Lockstep(after)
  {
    hide Window, Base, WellFormedRegion;
    forall l | l in after.leases
      ensures l in db.leases && SameLease(db.leases[l], after.leases[l])
      ensures Offset4(after, l) == Offset4(db, l) && Offset6(after, l) == Offset6(db, l)
    {
      assert l in db.leases;
    }
  }

  lemma NarrowsCapacity(db: Db, after: Db)
    requires Narrows(db, after) && WithinCapacity(db)
    ensures WithinCapacity(after)
  {
    forall g | g in after.gateways
      ensures Load(after, g) <= after.gateways[g].capacity
    {
      assert g in db.gateways;
      assert forall a :: a in after.assignments ==>
        a in db.assignments && SameRow(db.assignments[a], after.assignments[a]);
      SubsetSize(LiveOn(after, g), LiveOn(db, g));
    }
  }

  lemma NarrowsReplays(db: Db, after: Db)
    requires Narrows(db, after) && Schema(db) && Schema(after) && ReplaysFaithful(db)
    ensures ReplaysFaithful(after)
  {
    hide WellFormedRegion;
    forall k | k in after.replays
      ensures exists a :: a in after.assignments && after.assignments[a].device == k.device
                && after.replays[k] == ReplayRecord(after.leases[after.assignments[a].lease].region,
                  ConfigurationOf(after, a))
    {
      var a :| a in db.assignments && db.assignments[a].device == k.device
               && db.replays[k] == ReplayRecord(db.leases[db.assignments[a].lease].region, ConfigurationOf(db, a));
      assert a in after.assignments && SameRow(db.assignments[a], after.assignments[a]);
      NarrowsConfiguration(db, after, a);
    }
  }

  lemma NarrowsConfiguration(db: Db, after: Db, a: Id)
    requires Narrows(db, after) && Schema(db) && Schema(after) && a in db.assignments && a in after.assignments
    ensures ConfigurationOf(after, a) == ConfigurationOf(db, a)
  {
    hide WellFormedRegion;
    assert SameRow(db.assignments[a], after.assignments[a]);
    var l := db.assignments[a].lease;
    assert SameLease(db.leases[l], after.leases[l]);
  }

  lemma NarrowsInv(db: Db, after: Db)
    requires Narrows(db, after) && Inv(db)
    ensures Schema(after)
    ensures StatesAgree(after) && KeysDistinct(after) ==> Inv(after)
  {
    hide Narrows, Schema, OneToOne, StatesAgree, Lockstep, WithinCapacity, ReplaysFaithful, KeysDistinct;
    NarrowsSchema(db, after);
    NarrowsOneToOne(db, after);
    NarrowsLockstep(db, after);
    NarrowsCapacity(db, after);
    NarrowsReplays(db, after);
  }

  /** Steps that leave assignments and leases alone and keep withdrawn devices where they are. */
  lemma SameRowsStates(db: Db, after: Db)
    requires StatesAgree(db)
    requires after.assignments == db.assignments && after.leases == db.leases && db.devices.Keys <= after.devices.Keys
    requires forall d :: d in db.devices ==>
      && (db.devices[d].state != DeviceActive ==> after.devices[d].state != DeviceActive)
      && (db.devices[d].state == Revoked <==> after.devices[d].state == Revoked)
    requires forall d :: d in after.devices && d !in db.devices ==> after.devices[d].state == DeviceActive
    requires Schema(db)
    ensures StatesAgree(after)
  {
    hide WellFormedRegion;
    forall d
      ensures InState(after, d, Revoked) <==> InState(db, d, Revoked)
      ensures InState(after, d, DeviceActive) && d in db.devices ==> InState(db, d, DeviceActive)
    {
    }
  }

  // ---- Confirmation ----

  ghost predicate LeaseRemoved(db: Db, g: Id, l: Id)
  {
    exists a :: a in db.assignments && RemovedFrom(db, g, a) && db.assignments[a].lease == l
  }

  ghost predicate DeviceRemoved(db: Db, g: Id, d: Id)
  {
    exists a :: a in db.assignments && RemovedFrom(db, g, a) && db.assignments[a].device == d
  }

  /** Rows of a table after a confirmation, one by one. */
  lemma ConfirmRows(db: Db, g: Id, generation: int)
    requires g != "" && generation > 0
    ensures var after := Confirm(db, g, generation).0;
            && after.regions == db.regions && after.gateways == db.gateways && after.replays == db.replays
            && after.assignments == ConfirmAssignments(db, g, generation).assignments
            && after.leases.Keys == db.leases.Keys && after.devices.Keys == db.devices.Keys
            && (forall l :: l in db.leases ==>
                  after.leases[l] == db.leases[l].(released := db.leases[l].released || LeaseRemoved(after, g, l)))
            && (forall d :: d in db.devices ==>
                  after.devices[d] == db.devices[d].(state :=
                    if db.devices[d].state == RevocationPending && DeviceRemoved(after, g, d)
                                                              then Revoked else db.devices[d].state))
  {
    var c := ConfirmAssignments(db, g, generation);
    var l := ReleaseLeases(c, g);
    var after := RevokeDevices(l, g);
    forall a
      ensures RemovedFrom(c, g, a) == RemovedFrom(after, g, a) && RemovedFrom(l, g, a) == RemovedFrom(after, g, a)
    {
    }
  }

  lemma ConfirmNarrows(db: Db, g: Id, generation: int)
    requires g != "" && generation > 0
    ensures Narrows(db, Confirm(db, g, generation).0)
  {
    hide Confirm;
    ConfirmRows(db, g, generation);
  }

  /** What a confirmation does to one assignment, its lease and its device. */
  lemma ConfirmPointwise(db: Db, g: Id, generation: int, a: Id)
    requires Separate(db) && LiveUnreleased(db) && WithdrawnInactive(db)
    requires g != "" && generation > 0 && a in db.assignments
    requires db.assignments[a].lease in db.leases && db.assignments[a].device in db.devices
    ensures var after, row := Confirm(db, g, generation).0, db.assignments[a];
            && a in after.assignments
            && after.assignments[a] == (if Confirms(row, g, generation) then ConfirmedRow(row) else row)
            && (Live(after.assignments[a]) <==> Unreleased(after, row.lease))
            && (after.assignments[a].state == Removed ==> InState(after, row.device, Revoked))
            && (after.assignments[a].state == RemovalPending ==> !InState(after, row.device, DeviceActive))
  {
    hide Confirm;
    ConfirmRows(db, g, generation);
    var after, row := Confirm(db, g, generation).0, db.assignments[a];
    if after.assignments[a].state == Removed && row.state != Removed {
      assert RemovedFrom(after, g, a);
      assert LeaseRemoved(after, g, row.lease) && DeviceRemoved(after, g, row.device);
    } else if LeaseRemoved(after, g, row.lease) {
      var b :| b in after.assignments && RemovedFrom(after, g, b) && after.assignments[b].lease == row.lease;
      assert b in db.assignments && db.assignments[b].lease == row.lease;
      assert b == a;
    }
  }

  lemma ConfirmStates(db: Db, g: Id, generation: int)
    requires Schema(db) && OneToOne(db) && StatesAgree(db)
    requires g != "" && generation > 0
    ensures StatesAgree(Confirm(db, g, generation).0)
  {
    hide Confirm, Separate, Agreeing, LeasesAssigned, WellFormedRegion;
    var after := Confirm(db, g, generation).0;
    assert after.assignments.Keys == db.assignments.Keys by { ConfirmRows(db, g, generation); }
    forall a | a in after.assignments
      ensures var row := after.assignments[a];
              && (Live(row) <==> Unreleased(after, row.lease))
              && (row.state == RemovalPending ==> !InState(after, row.device, DeviceActive))
              && (row.state == Removed ==> InState(after, row.device, Revoked))
    {
      assert a in db.assignments;
      ConfirmPointwise(db, g, generation, a);
    }
    forall d | InState(after, d, Revoked)
      ensures exists a ::
          a in after.assignments && after.assignments[a].device == d && after.assignments[a].state == Removed
    {
      ConfirmRevoked(db, g, generation, d);
    }
  }

  lemma ConfirmRevoked(db: Db, g: Id, generation: int, d: Id)
    requires RevokedRemoved(db) && g != "" && generation > 0
    requires InState(Confirm(db, g, generation).0, d, Revoked)
    ensures var after := Confirm(db, g, generation).0;
            exists a :: a in after.assignments && after.assignments[a].device == d
              && after.assignments[a].state == Removed
  {
    hide Confirm;
    ConfirmRows(db, g, generation);
    var after := Confirm(db, g, generation).0;
    assert d in db.devices;
    if db.devices[d].state == Revoked {
      assert InState(db, d, Revoked);
      var a :| a in db.assignments && db.assignments[a].device == d && db.assignments[a].state == Removed;
      assert after.assignments[a] == db.assignments[a];
    } else {
      assert DeviceRemoved(after, g, d);
    }
  }

  lemma ConfirmKeepsInv(db: Db, g: Id, generation: int)
    requires Inv(db)
    ensures Inv(Confirm(db, g, generation).0)
  {
    hide Narrows, Schema, OneToOne, StatesAgree, Lockstep, WithinCapacity, ReplaysFaithful, ValidPublicKey, Confirm;
    if g != "" && generation > 0 {
      ConfirmNarrows(db, g, generation);
      NarrowsInv(db, Confirm(db, g, generation).0);
      ConfirmStates(db, g, generation);
      ConfirmRows(db, g, generation);
    } else {
      ConfirmInvalid(db, g, generation);
    }
  }

  lemma ConfirmInvalid(db: Db, g: Id, generation: int)
    requires g == "" || generation <= 0
    ensures Confirm(db, g, generation).0 == db
  {
  }

  // ---- The other steps ----

  lemma RegisterKeepsInv(db: Db, id: Id, owner: Id, publicKey: string)
    requires Inv(db)
    ensures Inv(Register(db, id, owner, publicKey).0)
  {
    hide Schema, OneToOne, StatesAgree, Lockstep, WithinCapacity, ReplaysFaithful, ValidPublicKey;
    var after := Register(db, id, owner, publicKey).0;
    if after != db {
      NarrowsInv(db, after);
      SameRowsStates(db, after);
    }
  }

  lemma RevokeKeepsInv(db: Db, owner: Id, device: Id)
    requires Inv(db)
    ensures Inv(RequestRevocation(db, owner, device).0)
  {
    hide Schema, OneToOne, StatesAgree, Lockstep, WithinCapacity, ReplaysFaithful, ValidPublicKey, Narrows;
    var after := RequestRevocation(db, owner, device).0;
    if after != db {
      assert after == db.(devices := after.devices) && after.devices.Keys == db.devices.Keys;
      assert forall d :: d in db.devices ==> after.devices[d].publicKey == db.devices[d].publicKey;
      DevicesNarrow(db, after);
      NarrowsInv(db, after);
      SameRowsStates(db, after);
    }
  }

  lemma DevicesNarrow(db: Db, after: Db)
    requires after == db.(devices := after.devices) && db.devices.Keys <= after.devices.Keys
    ensures Narrows(db, after)
  {
  }

  lemma WithdrawStates(db: Db, a: Id, desired: int)
    requires StatesAgree(db)
    ensures StatesAgree(MarkRemoval(db, a, desired))
  {
    var after := MarkRemoval(db, a, desired);
    forall d | InState(after, d, Revoked)
      ensures exists b ::
          b in after.assignments && after.assignments[b].device == d && after.assignments[b].state == Removed
    {
      assert InState(db, d, Revoked);
      var b :| b in db.assignments && db.assignments[b].device == d && db.assignments[b].state == Removed;
      assert after.assignments[b] == db.assignments[b];
    }
  }

  lemma WithdrawKeepsInv(db: Db, a: Id, desired: int)
    requires Inv(db)
    ensures Inv(MarkRemoval(db, a, desired))
  {
    hide Schema, OneToOne, StatesAgree, Lockstep, WithinCapacity, ReplaysFaithful, ValidPublicKey, Narrows;
    WithdrawNarrows(db, a, desired);
    NarrowsInv(db, MarkRemoval(db, a, desired));
    WithdrawStates(db, a, desired);
  }

  lemma WithdrawNarrows(db: Db, a: Id, desired: int)
    ensures Narrows(db, MarkRemoval(db, a, desired))
  {
    hide Narrows;
    AssignmentsNarrow(db, MarkRemoval(db, a, desired));
  }

  lemma AssignmentsNarrow(db: Db, after: Db)
    requires after == db.(assignments := after.assignments) && after.assignments.Keys == db.assignments.Keys
    requires forall a :: a in db.assignments ==> SameRow(db.assignments[a], after.assignments[a])
    ensures Narrows(db, after)
  {
    hide SameRow;
  }

  lemma SettingsKeepInv(db: Db, after: Db)
    requires Inv(db) && Narrows(db, after)
    requires after.devices == db.devices && after.assignments == db.assignments && after.leases == db.leases
    ensures Inv(after)
  {
    hide Schema, OneToOne, StatesAgree, Lockstep, WithinCapacity, ReplaysFaithful, ValidPublicKey;
    NarrowsInv(db, after);
    SameRowsStates(db, after);
  }

  lemma GatewaysNarrow(db: Db, after: Db)
    requires after == db.(gateways := after.gateways) && after.gateways.Keys == db.gateways.Keys
    requires forall g :: g in db.gateways ==> after.gateways[g] == db.gateways[g].(state := after.gateways[g].state)
    ensures Narrows(db, after)
  {
  }

  lemma SetGatewayKeepsInv(db: Db, g: Id, state: GatewayState)
    requires Inv(db)
    ensures Inv(SetGateway(db, g, state))
  {
    hide Inv, Narrows;
    GatewaysNarrow(db, SetGateway(db, g, state));
    SettingsKeepInv(db, SetGateway(db, g, state));
  }

  lemma RegionsNarrow(db: Db, after: Db)
    requires after == db.(regions := after.regions) && after.regions.Keys == db.regions.Keys
    requires forall r :: r in db.regions ==> after.regions[r] == db.regions[r].(available := after.regions[r].available)
    ensures Narrows(db, after)
  {
  }

  lemma SetRegionKeepsInv(db: Db, r: Id, available: bool)
    requires Inv(db)
    ensures Inv(SetRegion(db, r, available))
  {
    hide Inv, Narrows;
    RegionsNarrow(db, SetRegion(db, r, available));
    SettingsKeepInv(db, SetRegion(db, r, available));
  }

  /** Every step keeps the joint invariant. */
  lemma ApplyKeepsInv(db: Db, s: Step)
    requires Inv(db)
    ensures Inv(Apply(db, s))
  {
    assert WellFormedRegions(db);
    hide Inv, Create, Confirm, Register, MarkRemoval, RequestRevocation, WellFormedRegions, SetGateway, SetRegion;
    match s
    case RegisterDevice(id, owner, publicKey) => RegisterKeepsInv(db, id, owner, publicKey);
    case CreateTunnel(r) => CreateOutcome(db, r);
    case Revoke(owner, device) => RevokeKeepsInv(db, owner, device);
    case Withdraw(a, desired) => WithdrawKeepsInv(db, a, desired);
    case ConfirmSnapshot(g, generation) => ConfirmKeepsInv(db, g, generation);
    case SetGatewayState(g, state) => SetGatewayKeepsInv(db, g, state);
    case SetRegionAvailable(r, available) => SetRegionKeepsInv(db, r, available);
  }
}
