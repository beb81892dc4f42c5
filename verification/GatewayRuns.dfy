/** A gateway between confirmations, over every run of the store: when it is listed again, what a late confirmation
    covers, and what a confirmed removal leaves behind
    (services/api/internal/postgres/store.go:64-96, 117-151, 162-216). */
module GatewayRuns {
  import opened Arithmetic
  import opened Wrappers
  import opened Base64
  import opened Ordering
  import opened Addresses
  import opened Snapshots
  import opened Database
  import opened Lifecycle
  import opened StoreRuns
  import opened StoreTheorems
  import opened Reconciler
  import Outbox

  // ---- New assignments ----

  /** The step adds an assignment on the gateway. */
  ghost predicate Allots(db: Db, s: Step, g: Id, a: Id)
    requires WellFormedRegions(db)
  {
    a !in db.assignments && a in Apply(db, s).assignments && Apply(db, s).assignments[a].gateway == g
  }

  /** An allocation adds one assignment, under the uuid drawn for it, or none. */
  lemma CreateAssignments(db: Db, r: Request)
    requires Inv(db)
    ensures var now := Create(db, r).0.assignments;
            now == db.assignments
            || (r.assignmentId !in db.assignments && r.assignmentId in now
                && now == db.assignments[r.assignmentId := now[r.assignmentId]]
                && now[r.assignmentId].state == Pending && now[r.assignmentId].desired == 1
                  && now[r.assignmentId].observed == 0)
  {
    hide Insert, Allocate, OneToOne, InWindows, AddressesApart, WithinCapacity, KeysDistinct, StatesAgree,
      ReplaysFaithful, WellFormedRegion, Placed;
    if Create(db, r).1.Err? {
      CreateErrs(db, r);
    } else if ReplayKey(r.owner, r.device, r.key) !in db.replays && Existing(db, r.device) == None {
      var g, ipv4, ipv6 := AllocateInserts(db, r);
      InsertShape(db, r, g, ipv4, ipv6);
    }
  }

  // ---- When a gateway is listed again ----

  /** The gateway has observed everything desired of it. */
  ghost predicate CaughtUp(db: Db, g: Id)
  {
    forall a :: a in LiveOn(db, g) ==> db.assignments[a].desired <= db.assignments[a].observed
  }

  /** The step raises what is desired of a live assignment of the gateway. */
  ghost predicate Raises(db: Db, s: Step, g: Id)
  {
    s.Withdraw? && s.assignment in LiveOn(db, g) && db.assignments[s.assignment].desired < s.desired
    && db.assignments[s.assignment].device in db.devices
      && !InState(db, db.assignments[s.assignment].device, DeviceActive)
  }

  ghost predicate Disturbs(db: Db, s: Step, g: Id)
    requires WellFormedRegions(db)
  {
    (exists a :: Allots(db, s, g, a)) || Raises(db, s, g)
  }

  /** A gateway is listed exactly when it is ready, behind, and has nothing on the way. */
  lemma ListedExactly(db: Db, rows: Outbox.Rows, g: Id)
    ensures Listed(db, rows, g) <==>
            g in db.gateways && db.gateways[g].state == Ready && !CaughtUp(db, g) && !Outstanding(rows, g)
  {
  }

  /** A generation that covers everything on the gateway still ahead. */
  ghost predicate Covers(db: Db, g: Id, generation: int)
  {
    forall a :: a in LiveOn(db, g) ==>
      db.assignments[a].desired <= generation || db.assignments[a].desired <= db.assignments[a].observed
  }

  /** A confirmation catches the gateway up exactly when its generation covers every assignment still ahead. */
  lemma ConfirmCatchesUp(db: Db, g: Id, generation: int)
    requires g != "" && generation > 0
    ensures CaughtUp(Confirm(db, g, generation).0, g) <==> Covers(db, g, generation)
  {
    hide Confirm;
    ConfirmRows(db, g, generation);
    var after := Confirm(db, g, generation).0;
    forall a | a in LiveOn(db, g) && !Confirms(db.assignments[a], g, generation)
      ensures a in LiveOn(after, g) && after.assignments[a] == db.assignments[a]
    {
    }
  }

  lemma SameAssignmentsCaught(db: Db, after: Db, g: Id)
    requires after.assignments == db.assignments
    ensures CaughtUp(after, g) <==> CaughtUp(db, g)
  {
  }

  lemma AddedCaught(db: Db, after: Db, g: Id, a: Id)
    requires CaughtUp(db, g) && a !in db.assignments && a in after.assignments
    requires after.assignments == db.assignments[a := after.assignments[a]]
    requires after.assignments[a].state == Pending && after.assignments[a].desired == 1
        && after.assignments[a].observed == 0
    ensures CaughtUp(after, g) <==> after.assignments[a].gateway != g
  {
    if after.assignments[a].gateway == g {
      assert a in LiveOn(after, g);
    } else {
      forall b | b in LiveOn(after, g)
        ensures after.assignments[b].desired <= after.assignments[b].observed
      {
        assert b in LiveOn(db, g);
      }
    }
  }

  lemma CreateCaught(db: Db, r: Request, g: Id)
    requires Inv(db) && CaughtUp(db, g)
    ensures CaughtUp(Apply(db, CreateTunnel(r)), g) <==> !(exists a :: Allots(db, CreateTunnel(r), g, a))
  {
    assert WellFormedRegions(db);
    hide Inv, Create, WellFormedRegions, CaughtUp;
    CreateAssignments(db, r);
    var now := Create(db, r).0;
    if now.assignments == db.assignments {
      SameAssignmentsCaught(db, now, g);
    } else {
      AddedCaught(db, now, g, r.assignmentId);
      if now.assignments[r.assignmentId].gateway == g {
        assert Allots(db, CreateTunnel(r), g, r.assignmentId);
      }
    }
  }

  lemma WithdrawCaught(db: Db, a: Id, desired: int, g: Id)
    requires Schema(db) && CaughtUp(db, g)
    ensures CaughtUp(MarkRemoval(db, a, desired), g) <==> !Raises(db, Withdraw(a, desired), g)
  {
    hide WellFormedRegions;
    var after := MarkRemoval(db, a, desired);
    assert forall b :: b != a && b in LiveOn(after, g) ==>
      b in LiveOn(db, g) && after.assignments[b] == db.assignments[b];
    if Raises(db, Withdraw(a, desired), g) {
      assert a in LiveOn(after, g);
    }
  }

  lemma ConfirmCaught(db: Db, h: Id, generation: int, g: Id)
    requires CaughtUp(db, g)
    ensures CaughtUp(Confirm(db, h, generation).0, g)
    ensures Confirm(db, h, generation).0.assignments.Keys == db.assignments.Keys
  {
    hide Confirm;
    if h != "" && generation > 0 {
      ConfirmRows(db, h, generation);
      var after := Confirm(db, h, generation).0;
      forall a | a in LiveOn(after, g)
        ensures after.assignments[a].desired <= after.assignments[a].observed
      {
        assert a in LiveOn(db, g);
      }
    } else {
      ConfirmInvalid(db, h, generation);
    }
  }

  lemma OtherStepCaught(db: Db, s: Step, g: Id)
    requires Inv(db) && CaughtUp(db, g) && !s.CreateTunnel? && !s.Withdraw?
    ensures CaughtUp(Apply(db, s), g)
  {
    assert WellFormedRegions(db);
    hide Inv, CaughtUp, Create, Confirm, Register, MarkRemoval, RequestRevocation, WellFormedRegions;
    if s.ConfirmSnapshot? {
      ConfirmCaught(db, s.gateway, s.generation, g);
    } else {
      SameAssignments(db, s);
      SameAssignmentsCaught(db, Apply(db, s), g);
    }
  }

  lemma RegionsHold(db: Db)
    requires Inv(db)
    ensures WellFormedRegions(db) && Schema(db)
  {
  }

  lemma WithdrawStep(db: Db, s: Step, g: Id)
    requires Inv(db) && CaughtUp(db, g) && s.Withdraw?
    ensures CaughtUp(Apply(db, s), g) <==> !Raises(db, s, g)
  {
    hide Inv, CaughtUp, Raises, MarkRemoval, Create, Confirm, Register, RequestRevocation, WellFormedRegions, Schema;
    RegionsHold(db);
    WithdrawCaught(db, s.assignment, s.desired, g);
  }

  /** A gateway that has caught up stays so through a step exactly when the step neither adds an assignment on it nor
      raises a desired generation. */
  lemma StepCaughtExactly(db: Db, s: Step, g: Id)
    requires Inv(db) && CaughtUp(db, g)
    ensures CaughtUp(Apply(db, s), g) <==> !Disturbs(db, s, g)
  {
    assert WellFormedRegions(db);
    hide Inv, CaughtUp, Raises, Allots, Apply, WellFormedRegions;
    if s.CreateTunnel? {
      CreateCaught(db, s.request, g);
      NoRaise(db, s, g);
    } else {
      NothingAllotted(db, s, g);
      if s.Withdraw? {
        WithdrawStep(db, s, g);
      } else {
        NoRaise(db, s, g);
        OtherStepCaught(db, s, g);
      }
    }
  }

  lemma NoRaise(db: Db, s: Step, g: Id)
    requires !s.Withdraw?
    ensures !Raises(db, s, g)
  {
  }

  lemma SameAssignments(db: Db, s: Step)
    requires WellFormedRegions(db) && !s.CreateTunnel? && !s.ConfirmSnapshot? && !s.Withdraw?
    ensures Apply(db, s).assignments == db.assignments
  {
    hide WellFormedRegions, ValidPublicKey;
  }

  lemma NothingAllotted(db: Db, s: Step, g: Id)
    requires WellFormedRegions(db) && !s.CreateTunnel?
    ensures !(exists a :: Allots(db, s, g, a))
    ensures Apply(db, s).assignments.Keys == db.assignments.Keys
  {
    hide WellFormedRegions, ValidPublicKey, Confirm;
    if s.ConfirmSnapshot? {
      ConfirmKeys(db, s.gateway, s.generation);
    }
  }

  lemma ConfirmKeys(db: Db, g: Id, generation: int)
    ensures Confirm(db, g, generation).0.assignments.Keys == db.assignments.Keys
  {
  }

  ghost predicate Disturbed(db: Db, steps: seq<Step>, k: nat, g: Id)
    requires Inv(db) && k < |steps|
  {
    Disturbs(Run(db, steps, k), steps[k], g)
  }

  /** No step from m on, before n, disturbs the gateway. */
  ghost predicate Quiet(db: Db, steps: seq<Step>, m: nat, n: nat, g: Id)
    requires Inv(db) && n <= |steps|
  {
    forall k :: m <= k < n ==> !Disturbed(db, steps, k, g)
  }

  lemma CaughtThrough(db: Db, steps: seq<Step>, k: nat, g: Id)
    requires Inv(db) && k < |steps| && CaughtUp(Run(db, steps, k), g)
    ensures CaughtUp(Run(db, steps, k + 1), g) <==> !Disturbed(db, steps, k, g)
  {
    hide Inv, CaughtUp, Disturbs, Apply, Run, WellFormedRegions;
    RunStep(db, steps, k);
    StepCaughtExactly(Run(db, steps, k), steps[k], g);
  }

  lemma {:induction false} StaysCaughtUp(db: Db, steps: seq<Step>, m: nat, n: nat, g: Id)
    requires Inv(db) && m <= n <= |steps| && CaughtUp(Run(db, steps, m), g) && Quiet(db, steps, m, n, g)
    ensures CaughtUp(Run(db, steps, n), g)
  {
    hide Inv, CaughtUp, Disturbs, Apply, Run, WellFormedRegions;
    if m < n {
      StaysCaughtUp(db, steps, m, n - 1, g);
      CaughtThrough(db, steps, n - 1, g);
      assert !Disturbed(db, steps, n - 1, g);
    }
  }

  /** After the confirmation at step m, whose generation covers all that is still ahead, the gateway is on no list at
      any later point, whatever the outbox holds, until a step adds an assignment on it or raises a desired generation;
      and after the first such step it is listed as soon as it is ready with nothing on the way. */
  lemma UnlistedUntil(db: Db, steps: seq<Step>, m: nat, n: nat, g: Id, generation: int, rows: Outbox.Rows)
    requires Inv(db) && m < n <= |steps| && steps[m] == ConfirmSnapshot(g, generation) && g != "" && generation > 0
    requires Covers(Run(db, steps, m), g, generation)
    ensures Quiet(db, steps, m + 1, n, g) ==> !Listed(Run(db, steps, n), rows, g)
    ensures n < |steps| && Quiet(db, steps, m + 1, n, g) && Disturbed(db, steps, n, g) ==>
              var now := Run(db, steps, n + 1);
              (Listed(now, rows, g) <==> g in now.gateways && now.gateways[g].state == Ready && !Outstanding(rows, g))
  {
    hide Inv, CaughtUp, Covers, Disturbed, Run, Listed, Quiet;
    CaughtUpAfter(db, steps, m, g, generation);
    ListedExactly(Run(db, steps, n), rows, g);
    if Quiet(db, steps, m + 1, n, g) {
      StaysCaughtUp(db, steps, m + 1, n, g);
      if n < |steps| {
        CaughtThrough(db, steps, n, g);
        ListedExactly(Run(db, steps, n + 1), rows, g);
      }
    }
  }

  lemma CaughtUpAfter(db: Db, steps: seq<Step>, m: nat, g: Id, generation: int)
    requires Inv(db) && m < |steps| && steps[m] == ConfirmSnapshot(g, generation) && g != "" && generation > 0
    requires Covers(Run(db, steps, m), g, generation)
    ensures CaughtUp(Run(db, steps, m + 1), g)
  {
    assert WellFormedRegions(Run(db, steps, m));
    hide Inv, CaughtUp, Covers, Apply, Run, Confirm, WellFormedRegions;
    ConfirmCatchesUp(Run(db, steps, m), g, generation);
    ApplyConfirm(Run(db, steps, m), g, generation);
    RunStep(db, steps, m);
  }

  lemma ApplyConfirm(db: Db, g: Id, generation: int)
    requires WellFormedRegions(db)
    ensures Apply(db, ConfirmSnapshot(g, generation)) == Confirm(db, g, generation).0
  {
    hide WellFormedRegions, Confirm;
  }

  // ---- What a late confirmation covers ----

  /** Step k adds assignment a. */
  ghost predicate AddedAt(db: Db, steps: seq<Step>, k: nat, a: Id)
    requires Inv(db) && k < |steps|
  {
    a !in Run(db, steps, k).assignments && a in Run(db, steps, k + 1).assignments
  }

  lemma {:induction false} AddedBetween(db: Db, steps: seq<Step>, m: nat, n: nat, a: Id) returns (k: nat)
    requires Inv(db) && m < n <= |steps| && a !in Run(db, steps, m).assignments && a in Run(db, steps, n).assignments
    ensures m <= k < n && AddedAt(db, steps, k, a)
  {
    hide Inv, Run;
    if a in Run(db, steps, n - 1).assignments {
      k := AddedBetween(db, steps, m, n - 1, a);
    } else {
      k := n - 1;
    }
  }

  /** The confirmed assignments were all in the snapshot built at step m exactly when none of those that were added
      since then is among them. */
  lemma LateConfirmExactly(db: Db, steps: seq<Step>, m: nat, n: nat, g: Id, generation: int)
    requires Inv(db) && m <= n <= |steps|
    ensures ConfirmsOnlyDelivered(Run(db, steps, m), Run(db, steps, n), g, generation) <==>
            forall k: nat, a :: m <= k < n && AddedAt(db, steps, k, a) && a in Run(db, steps, n).assignments ==>
              !Confirms(Run(db, steps, n).assignments[a], g, generation)
  {
    var built, now := Run(db, steps, m), Run(db, steps, n);
    assert Schema(built) && Schema(now);
    hide Inv, Run, Confirms, Schema, ConfirmsOnlyDelivered;
    RunGrows(db, steps, m, n);
    ConfirmsDeliveredExactly(built, now, g, generation);
    forall a | a in now.assignments && Confirms(now.assignments[a], g, generation)
      ensures a in LiveOn(built, g) <==> !exists k: nat :: m <= k < n && AddedAt(db, steps, k, a)
    {
      LiveIfThere(built, now, g, generation, a);
      if a !in built.assignments {
        assert m < n;
        var k := AddedBetween(db, steps, m, n, a);
      } else {
        forall k: nat | m <= k < n
          ensures !AddedAt(db, steps, k, a)
        {
          RunGrows(db, steps, m, k);
        }
      }
    }
  }

  lemma LiveIfThere(built: Db, now: Db, g: Id, generation: int, a: Id)
    requires Grows(built, now) && a in now.assignments && Confirms(now.assignments[a], g, generation)
    ensures a in LiveOn(built, g) <==> a in built.assignments
  {
    assert a in built.assignments ==> SameIdentity(built.assignments[a], now.assignments[a]);
  }

  // ---- What a confirmed removal leaves behind ----

  /** A withdrawal that generation confirms on gateway g. */
  ghost predicate Withdrawn(db: Db, g: Id, a: Id, generation: int)
  {
    && a in db.assignments && db.assignments[a].gateway == g && db.assignments[a].state == RemovalPending
    && db.assignments[a].desired <= generation && g != "" && generation > 0
  }

  ghost function Confirmed(db: Db, g: Id, generation: int): (done: Db)
    requires Lifecycle.Inv(db)
    ensures Lifecycle.Inv(done)
  {
    ConfirmKeepsInv(db, g, generation);
    Confirm(db, g, generation).0
  }

  /** The confirmation that revokes a device and frees its addresses answers a snapshot that still routes them to it. */
  lemma RevokedInSnapshot(db: Db, g: Id, a: Id, generation: int)
    requires Lifecycle.Inv(db) && Withdrawn(db, g, a, generation)
    ensures var row, done := db.assignments[a], Confirm(db, g, generation).0;
            && row.device in db.devices && row.lease in db.leases
            && InState(done, row.device, Revoked) && row.lease in done.leases && done.leases[row.lease].released
            && db.devices[row.device].publicKey in ByKey(SnapshotPeers(db, g))
            && ByKey(SnapshotPeers(db, g))[db.devices[row.device].publicKey] == PeerOf(db, a)
  {
    hide Confirm, Agreeing, LeasesAssigned, Lockstep, WithinCapacity, ReplaysFaithful, KeysDistinct, WellFormedRegion,
      RevokedRemoved, SnapshotPeers;
    var row, done := db.assignments[a], Confirm(db, g, generation).0;
    ConfirmPointwise(db, g, generation, a);
    ConfirmRows(db, g, generation);
    SnapshotTable(db, g, db.devices[row.device].publicKey);
    assert a in LiveOn(db, g);
  }

  /** The freed address is no longer counted as used. */
  lemma FreedIsFree(db: Db, g: Id, a: Id, generation: int)
    requires Lifecycle.Inv(db) && Withdrawn(db, g, a, generation)
    ensures var l := db.assignments[a].lease;
            && l in db.leases && db.leases[l].region in db.regions
            && WellFormedPool(db.regions[db.leases[l].region].pool4)
            && db.leases[l].ipv4 in Window(db.regions[db.leases[l].region].pool4)
            && db.leases[l].ipv4 !in ActiveIPv4(Confirm(db, g, generation).0, db.leases[l].region)
  {
    hide Confirm, Agreeing, LeasesAssigned, WithinCapacity, ReplaysFaithful, KeysDistinct, RevokedRemoved, Window,
      Base, Pow2;
    RevokedInSnapshot(db, g, a, generation);
    ConfirmRows(db, g, generation);
    assert Unreleased(db, db.assignments[a].lease);
  }

  /** The request makes a new allocation. */
  ghost predicate Allocates(db: Db, r: Request)
    requires Lifecycle.Inv(db)
  {
    Existing(db, r.device) == None && ReplayKey(r.owner, r.device, r.key) !in db.replays && Create(db, r).1.Ok?
  }

  /** An allocation after that confirmation gives the freed address away, on whatever gateway the placement picks,
      exactly when every smaller candidate of the pool is taken. */
  lemma FreedAddressReusedExactly(db: Db, g: Id, a: Id, generation: int, r: Request)
    requires Lifecycle.Inv(db) && Withdrawn(db, g, a, generation) && Allocates(Confirmed(db, g, generation), r)
    requires db.assignments[a].lease in db.leases && db.leases[db.assignments[a].lease].region == r.region
    ensures var done := Confirmed(db, g, generation);
            var freed, after := db.leases[db.assignments[a].lease].ipv4, Create(done, r).0;
            && r.assignmentId in after.assignments && r.leaseId in after.leases && !after.leases[r.leaseId].released
            && Placement(done, r.region) == Some(after.assignments[r.assignmentId].gateway)
            && r.region in db.regions && WellFormedPool(db.regions[r.region].pool4)
            && (after.leases[r.leaseId].ipv4 == freed <==>
                forall b :: b in Window(db.regions[r.region].pool4) && b < freed ==> b in ActiveIPv4(done, r.region))
  {
    hide Confirm, Insert, Allocate, Window, Base, Pow2, FirstFree, ActiveIPv4, WellFormedPool, Create, Allocates,
      OneToOne, Lockstep, WithinCapacity, KeysDistinct, StatesAgree, ReplaysFaithful;
    var done := Confirmed(db, g, generation);
    ConfirmRows(db, g, generation);
    FreedIsFree(db, g, a, generation);
    var h, ipv4, ipv6 := AllocateNew(done, r);
    FirstFreeExactly(db.regions[r.region].pool4, ActiveIPv4(done, r.region));
  }

  lemma AllocateNew(db: Db, r: Request) returns (g: Id, ipv4: int, ipv6: int)
    requires Lifecycle.Inv(db) && Allocates(db, r)
    ensures Inserted(db, r, g, ipv4, ipv6, Create(db, r).0) && Placement(db, r.region) == Some(g)
    ensures r.region in db.regions && WellFormedPool(db.regions[r.region].pool4)
    ensures FirstFree(db.regions[r.region].pool4, ActiveIPv4(db, r.region)) == Some(ipv4)
  {
    hide Insert, Allocate, OneToOne, InWindows, AddressesApart, WithinCapacity, KeysDistinct, StatesAgree,
      ReplaysFaithful, Inserted;
    g, ipv4, ipv6 := AllocateInserts(db, r);
    InsertShape(db, r, g, ipv4, ipv6);
    PlacementUnique(db, r.region, g);
  }
}
