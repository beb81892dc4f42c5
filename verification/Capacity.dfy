/** Least-loaded placement and the exact moment a region is exhausted
    (services/api/internal/postgres/store.go:612-653, 704-756). */
module Capacity {
  import opened Arithmetic
  import opened Wrappers
  import opened Ordering
  import opened Addresses
  import opened Database
  import opened Lifecycle
  import opened StoreRuns
  import opened StoreTheorems

  // ---- Placement ----

  /** Any two ready gateways of a region differ by at most one live assignment, unless the emptier one is full. */
  ghost predicate Balanced(db: Db, region: Id)
  {
    forall g, h :: IsReady(db, region, g) && IsReady(db, region, h) ==>
      Load(db, g) <= Load(db, h) + 1 || Load(db, h) >= db.gateways[h].capacity
  }

  predicate IsReady(db: Db, region: Id, g: Id)
  {
    g in db.gateways && db.gateways[g].region == region && db.gateways[g].state == Ready
  }

  lemma SameLoads(db: Db, after: Db, region: Id)
    requires after.assignments == db.assignments && after.gateways == db.gateways && Balanced(db, region)
    ensures Balanced(after, region)
  {
    assert forall g :: LiveOn(after, g) == LiveOn(db, g);
    assert forall g :: IsReady(after, region, g) <==> IsReady(db, region, g);
  }

  lemma InsertBalanced(db: Db, r: Request, g: Id, ipv4: int, ipv6: int, after: Db, region: Id)
    requires Balanced(db, region) && IsPlacement(db, r.region, g) && Inserted(db, r, g, ipv4, ipv6, after)
    ensures Balanced(after, region)
  {
    hide Load;
    forall h { InsertedLoad(db, r, g, ipv4, ipv6, after, h); }
    assert forall h :: IsReady(after, region, h) <==> IsReady(db, region, h);
    assert forall h :: IsReady(db, r.region, h) && Load(db, h) < db.gateways[h].capacity <==> HasRoom(db, r.region, h);
  }

  lemma CreateBalanced(db: Db, r: Request, region: Id)
    requires Inv(db) && Balanced(db, region)
    ensures Balanced(Create(db, r).0, region)
  {
    hide Balanced, Insert, Allocate, OneToOne, InWindows, AddressesApart, WithinCapacity, KeysDistinct, StatesAgree,
      ReplaysFaithful, WellFormedRegion, Inserted;
    if Create(db, r).1.Err? {
      CreateErrs(db, r);
    } else if ReplayKey(r.owner, r.device, r.key) !in db.replays && Existing(db, r.device) == None {
      var g, ipv4, ipv6 := AllocateInserts(db, r);
      InsertShape(db, r, g, ipv4, ipv6);
      InsertBalanced(db, r, g, ipv4, ipv6, Create(db, r).0, region);
    } else {
      SameLoads(db, Create(db, r).0, region);
    }
  }

  predicate AllocationOnly(s: Step)
  {
    s.RegisterDevice? || s.CreateTunnel? || s.Revoke?
  }

  /** Runs that only register, allocate and request revocation keep every region balanced. */
  lemma {:induction false} StaysBalanced(db: Db, steps: seq<Step>, n: nat, region: Id)
    requires Inv(db) && n <= |steps| && Balanced(db, region)
    requires forall i :: 0 <= i < |steps| ==> AllocationOnly(steps[i])
    ensures Balanced(Run(db, steps, n), region)
  {
    hide Inv, Balanced, Create, Run, WellFormedRegions;
    if n == 0 {
      RunStart(db, steps);
    } else {
      StaysBalanced(db, steps, n - 1, region);
      RunStep(db, steps, n - 1);
      var before := Run(db, steps, n - 1);
      if steps[n - 1].CreateTunnel? {
        CreateBalanced(before, steps[n - 1].request, region);
      } else {
        SameLoads(before, Apply(before, steps[n - 1]), region);
      }
    }
  }

  lemma RunStart(db: Db, steps: seq<Step>)
    requires Inv(db)
    ensures Run(db, steps, 0) == db
  {
  }

  /** In every reachable state no gateway carries more live assignments than its capacity. */
  lemma NeverOverCapacity(db: Db, steps: seq<Step>, n: nat, g: Id)
    requires Inv(db) && n <= |steps| && g in Run(db, steps, n).gateways
    ensures Load(Run(db, steps, n), g) <= Run(db, steps, n).gateways[g].capacity
  {
    hide Run, Schema, OneToOne, StatesAgree, Lockstep, ReplaysFaithful, KeysDistinct, Load;
  }

  // ---- Exhaustion ----

  function LiveLeases(db: Db, region: Id): set<Id>
  {
    set l | l in db.leases && db.leases[l].region == region && !db.leases[l].released
  }

  lemma {:induction false} ImageSize(keys: set<Id>, f: map<Id, int>)
    requires keys <= f.Keys
    requires forall k, l :: k in keys && l in keys && k != l ==> f[k] != f[l]
    ensures |set k | k in keys :: f[k]| == |keys|
  {
    if keys != {} {
      var k :| k in keys;
      ImageSize(keys - {k}, f);
      assert (set l | l in keys :: f[l]) == (set l | l in keys - {k} :: f[l]) + {f[k]};
      assert f[k] !in (set l | l in keys - {k} :: f[l]);
    }
  }

  function LeasedIPv4(db: Db): map<Id, int>
  {
    map l | l in db.leases :: db.leases[l].ipv4
  }

  function LeasedIPv6(db: Db): map<Id, int>
  {
    map l | l in db.leases :: db.leases[l].ipv6
  }

  lemma ActiveImages(db: Db, region: Id)
    ensures ActiveIPv4(db, region) == set l | l in LiveLeases(db, region) :: LeasedIPv4(db)[l]
    ensures ActiveIPv6(db, region) == set l | l in LiveLeases(db, region) :: LeasedIPv6(db)[l]
  {
    var live := LiveLeases(db, region);
    forall a
      ensures a in ActiveIPv4(db, region) <==> a in set l | l in live :: LeasedIPv4(db)[l]
      ensures a in ActiveIPv6(db, region) <==> a in set l | l in live :: LeasedIPv6(db)[l]
    {
      if a in ActiveIPv4(db, region) {
        var l :| l in db.leases && db.leases[l].region == region && !db.leases[l].released && db.leases[l].ipv4 == a;
        assert l in live && LeasedIPv4(db)[l] == a;
      }
      if a in ActiveIPv6(db, region) {
        var l :| l in db.leases && db.leases[l].region == region && !db.leases[l].released && db.leases[l].ipv6 == a;
        assert l in live && LeasedIPv6(db)[l] == a;
      }
    }
  }

  /** Live leases use one address of each family, all of them candidates of the search. */
  lemma ActiveSizes(db: Db, region: Id)
    requires Schema(db) && Lockstep(db) && region in db.regions
    ensures |ActiveIPv4(db, region)| == |LiveLeases(db, region)| == |ActiveIPv6(db, region)|
    ensures ActiveIPv4(db, region) <= Window(db.regions[region].pool4)
        && ActiveIPv6(db, region) <= Window(db.regions[region].pool6)
  {
    hide Window, Base, WellFormedRegion;
    ActiveImages(db, region);
    ImageSize(LiveLeases(db, region), LeasedIPv4(db));
    ImageSize(LiveLeases(db, region), LeasedIPv6(db));
  }

  lemma EqualIfAsLarge(a: set<int>, b: set<int>)
    requires a <= b && |a| >= |b|
    ensures a == b
  {
    assert b * a == a;
    assert |b - a| == 0;
    assert b == a + (b - a);
  }

  lemma SearchFailsExactly(p: Pool, used: set<int>)
    requires WellFormedPool(p) && used <= Window(p)
    ensures FirstFree(p, used) == None <==> |used| >= |Window(p)|
  {
    hide FirstFree, Window;
    FirstFreeExactly(p, used);
    if FirstFree(p, used).None? {
      forall b | b in Window(p) ensures b in used { }
      SubsetSize(Window(p), used);
    } else if |used| >= |Window(p)| {
      EqualIfAsLarge(used, Window(p));
    }
  }

  /** A new allocation reports an exhausted region iff every ready gateway is full or the region's live leases
      number as many as the smaller of its two windows holds. */
  lemma ExhaustedExactly(db: Db, r: Request)
    requires Inv(db) && Existing(db, r.device) == None && r.region in db.regions
    ensures Allocate(db, r).1 == Err(CapacityExhausted) <==>
            || (forall g :: IsReady(db, r.region, g) ==> Load(db, g) >= db.gateways[g].capacity)
            || |LiveLeases(db, r.region)| >= Min(|Window(db.regions[r.region].pool4)|,
              |Window(db.regions[r.region].pool6)|)
  {
    hide OneToOne, StatesAgree, Lockstep, WithinCapacity, ReplaysFaithful, KeysDistinct, FirstFree, Window, Load,
      LiveLeases, ActiveIPv4, ActiveIPv6, LeaseClashes, AssignmentClashes, ConfigurationOf;
    var region := db.regions[r.region];
    ActiveSizes(db, r.region);
    SearchFailsExactly(region.pool4, ActiveIPv4(db, r.region));
    SearchFailsExactly(region.pool6, ActiveIPv6(db, r.region));
    assert forall g :: HasRoom(db, r.region, g) <==> IsReady(db, r.region, g) && Load(db, g) < db.gateways[g].capacity;
    assert Placement(db, r.region) == None <==> forall g :: !HasRoom(db, r.region, g);
  }
}
