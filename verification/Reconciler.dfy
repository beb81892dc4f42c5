/** From assignments to snapshots and back: which gateways need a snapshot, what it contains, and what a
    confirmation means
    (services/api/internal/postgres/store.go:62-151, 162-216; services/api/cmd/reconciler/main.go:56-73). */
module Reconciler {
  import opened Arithmetic
  import opened Wrappers
  import opened Base64
  import opened Ordering
  import opened Addresses
  import opened Snapshots
  import opened WireGuard
  import opened Convergence
  import opened Database
  import opened Lifecycle
  import opened StoreRuns
  import opened StoreTheorems
  import Outbox
  import OutboxRuns

  // ---- The peers of a gateway ----

  function PeerOf(db: Db, a: Id): Peer
    requires a in db.assignments && db.assignments[a].device in db.devices && db.assignments[a].lease in db.leases
  {
    var row := db.assignments[a];
    var lease := db.leases[row.lease];
    Peer(db.devices[row.device].publicKey, Parsed(V4(lease.ipv4), 32, 0), Parsed(V6(lease.ipv6), 128, 0))
  }

  function LiveDevices(db: Db, g: Id): set<Id>
  {
    set a | a in LiveOn(db, g) :: db.assignments[a].device
  }

  ghost predicate IsLiveFor(db: Db, g: Id, d: Id, a: Id)
  {
    a in LiveOn(db, g) && db.assignments[a].device == d
  }

  ghost function LiveFor(db: Db, g: Id, d: Id): (a: Id)
    requires d in LiveDevices(db, g)
    ensures IsLiveFor(db, g, d, a)
  {
    var a :| a in LiveOn(db, g) && db.assignments[a].device == d;
    a
  }

  /** The assignments in the join's rows, ordered by device id. */
  ghost function SnapshotRows(db: Db, g: Id): (rows: seq<Id>)
    ensures |rows| == |LiveDevices(db, g)|
    ensures forall i :: 0 <= i < |rows| ==> rows[i] in LiveOn(db, g)
    ensures forall i :: 0 <= i < |rows| ==> IsLiveFor(db, g, SortedKeys(LiveDevices(db, g))[i], rows[i])
  {
    var devices := SortedKeys(LiveDevices(db, g));
    seq(|devices|, i requires 0 <= i < |devices| =>
      assert devices[i] in devices;
      LiveFor(db, g, devices[i]))
  }

  /** The rows of the join, as peers. */
  ghost function SnapshotPeers(db: Db, g: Id): (peers: seq<Peer>)
    requires Schema(db)
    ensures |peers| == |SnapshotRows(db, g)|
    ensures forall i :: 0 <= i < |peers| ==>
        SnapshotRows(db, g)[i] in LiveOn(db, g) && peers[i] == PeerOf(db, SnapshotRows(db, g)[i])
  {
    hide WellFormedRegion, SnapshotRows;
    var rows := SnapshotRows(db, g);
    seq(|rows|, i requires 0 <= i < |rows| =>
      assert IsLiveFor(db, g, SortedKeys(LiveDevices(db, g))[i], rows[i]);
      PeerOf(db, rows[i]))
  }

  /** Sorting device ids is the database's work; here it is a selection sort. */
  method SortIds(ids: set<Id>) returns (sorted: seq<Id>)
    ensures sorted == SortedKeys(ids)
  {
    sorted := [];
    var left := ids;
    while left != {}
      invariant left <= ids
      invariant forall x :: x in sorted <==> x in ids && x !in left
      invariant forall x, y :: x in sorted && y in left ==> Less(x, y)
      invariant StrictlySorted(sorted) && |sorted| + |left| == |ids|
      decreases |left|
    {
      var m := LeastId(left);
      forall x | x in sorted ensures Less(x, m) { }
      assert forall i :: 0 <= i < |sorted| ==> sorted[i] in sorted;
      sorted, left := sorted + [m], left - {m};
    }
    StrictlySortedUnique(sorted, SortedKeys(ids));
  }

  method LeastId(ids: set<Id>) returns (m: Id)
    requires ids != {}
    ensures IsLeast(m, ids)
  {
    m :| m in ids;
    var left := ids - {m};
    while left != {}
      invariant left <= ids && m in ids && m !in left
      invariant forall x :: x in ids && x !in left && x != m ==> Less(m, x)
      decreases |left|
    {
      var x :| x in left;
      LessTotal(m, x);
      if Less(x, m) {
        forall y | y in ids && y !in left && y != m ensures Less(x, y) { LessTransitive(x, m, y); }
        m := x;
      }
      left := left - {x};
    }
  }

  lemma LiveForUnique(db: Db, g: Id, d: Id, a: Id, b: Id)
    requires Separate(db) && IsLiveFor(db, g, d, a) && IsLiveFor(db, g, d, b)
    ensures a == b
  {
  }

  lemma SnapshotRow(db: Db, g: Id, i: nat)
    requires i < |SnapshotRows(db, g)|
    ensures IsLiveFor(db, g, SortedKeys(LiveDevices(db, g))[i], SnapshotRows(db, g)[i])
    ensures SortedKeys(LiveDevices(db, g))[i] in LiveDevices(db, g)
  {
    assert SortedKeys(LiveDevices(db, g))[i] in SortedKeys(LiveDevices(db, g));
  }

  /** Materialise the assigned peers. */
  method CollectPeers(db: Db, g: Id) returns (peers: seq<Peer>)
    requires Schema(db) && Separate(db)
    ensures peers == SnapshotPeers(db, g)
  {
    hide Schema, Separate, SnapshotRows, SnapshotPeers, PeerOf, LiveDevices, SortedKeys, LiveOn;
    var devices := SortIds(LiveDevices(db, g));
    peers := [];
    while |peers| < |devices|
      invariant |peers| <= |devices| && peers == SnapshotPeers(db, g)[..|peers|]
    {
      var peer := PeerAt(db, g, |peers|, devices[|peers|]);
      ghost var n := |peers|;
      assert SnapshotPeers(db, g)[..n + 1] == SnapshotPeers(db, g)[..n] + [SnapshotPeers(db, g)[n]];
      peers := peers + [peer];
    }
  }

  method PeerAt(db: Db, g: Id, ghost n: nat, d: Id) returns (p: Peer)
    requires Schema(db) && Separate(db) && n < |LiveDevices(db, g)| && d == SortedKeys(LiveDevices(db, g))[n]
    ensures p == SnapshotPeers(db, g)[n]
  {
    hide WellFormedRegion, SnapshotRows, SnapshotPeers;
    SnapshotRow(db, g, n);
    var a :| a in LiveOn(db, g) && db.assignments[a].device == d;
    LiveForUnique(db, g, d, a, SnapshotRows(db, g)[n]);
    p := PeerOf(db, a);
  }

  /** A leased address is an address of its family. */
  lemma LeasedInSpace(p: Pool, a: int)
    requires WellFormedPool(p) && a in Window(p)
    ensures 0 <= a < if p.v4 then IPV4_LIMIT else IPV6_LIMIT
  {
    hide Pow2, Window;
    WindowInside(p, a);
    Pow2Widths();
  }

  lemma PeerWellFormed(db: Db, g: Id, a: Id)
    requires Schema(db) && KeysDistinct(db) && LiveUnreleased(db) && InWindows(db) && a in LiveOn(db, g)
    ensures WellFormedPeer(PeerOf(db, a))
  {
    hide Pow2, Window, ValidPublicKey;
    var lease := db.leases[db.assignments[a].lease];
    assert Unreleased(db, db.assignments[a].lease);
    LeasedInSpace(db.regions[lease.region].pool4, lease.ipv4);
    LeasedInSpace(db.regions[lease.region].pool6, lease.ipv6);
  }

  /** Canonical peers of live assignments of one gateway never clash. */
  lemma PeersApart(db: Db, g: Id, a: Id, b: Id)
    requires Lifecycle.Inv(db) && a in LiveOn(db, g) && b in LiveOn(db, g) && a != b
    ensures Apart(PeerOf(db, a), PeerOf(db, b))
  {
    hide InWindows, WithinCapacity, ReplaysFaithful, WellFormedRegion, ValidPublicKey, LeasesAssigned, RevokedRemoved,
      WithdrawnInactive;
    var x, y := db.assignments[a], db.assignments[b];
    assert Unreleased(db, x.lease) && Unreleased(db, y.lease);
    assert db.leases[x.lease].region == db.leases[y.lease].region;
  }

  lemma DevicesSize(db: Db, g: Id)
    requires Separate(db)
    ensures |LiveDevices(db, g)| == Load(db, g)
  {
    DevicesImage(db, LiveOn(db, g));
  }

  lemma {:induction false} DevicesImage(db: Db, s: set<Id>)
    requires Separate(db) && s <= db.assignments.Keys
    ensures |set a | a in s :: db.assignments[a].device| == |s|
  {
    if s != {} {
      var x :| x in s;
      DevicesImage(db, s - {x});
      var rest := set a | a in s - {x} :: db.assignments[a].device;
      assert (set a | a in s :: db.assignments[a].device) == rest + {db.assignments[x].device};
      assert db.assignments[x].device !in rest;
    }
  }

  lemma AgreeLive(db: Db)
    requires StatesAgree(db)
    ensures LiveUnreleased(db)
  {
  }

  /** In every state that keeps the invariant the peers of a gateway are valid and canonical, so their
      addresses are distinct. */
  lemma SnapshotPeersValid(db: Db, g: Id)
    requires Lifecycle.Inv(db)
    ensures ValidPeers(SnapshotPeers(db, g)) && Canonical(SnapshotPeers(db, g))
    ensures DistinctOwners(ByKey(SnapshotPeers(db, g)))
    ensures |SnapshotPeers(db, g)| == Load(db, g)
  {
    hide WellFormedRegion, WellFormedPeer, Apart, InWindows, AddressesApart, WithinCapacity, ReplaysFaithful,
      StatesAgree, Agreeing, LeasesAssigned, Load, SnapshotRows, SnapshotPeers, PeerOf, LiveOn;
    var peers, rows := SnapshotPeers(db, g), SnapshotRows(db, g);
    DevicesSize(db, g);
    assert LiveUnreleased(db) by { AgreeLive(db); }
    forall i | 0 <= i < |peers|
      ensures WellFormedPeer(peers[i])
    {
      PeerWellFormed(db, g, rows[i]);
    }
    forall i, j | 0 <= i < j < |peers|
      ensures Apart(peers[i], peers[j])
    {
      RowsDiffer(db, g, i, j);
      PeersApart(db, g, rows[i], rows[j]);
    }
    PeersCanonical(db, g);
    CanonicalDistinct(peers);
  }

  lemma PeersCanonical(db: Db, g: Id)
    requires Schema(db)
    ensures Canonical(SnapshotPeers(db, g))
  {
    hide WellFormedRegion, SnapshotRows, SnapshotPeers;
  }

  lemma RowsDiffer(db: Db, g: Id, i: nat, j: nat)
    requires i < j < |SnapshotRows(db, g)|
    ensures SnapshotRows(db, g)[i] != SnapshotRows(db, g)[j]
  {
    hide SnapshotRows;
    var devices, rows := SortedKeys(LiveDevices(db, g)), SnapshotRows(db, g);
    assert IsLiveFor(db, g, devices[i], rows[i]) && IsLiveFor(db, g, devices[j], rows[j]);
    LessIrreflexive(devices[i]);
  }

  /** Hence a published snapshot is refused only for its header or its length: at any time, and by any gateway, it is
      valid exactly for the gateway it names, under a positive generation, before its expiry, and with no more live
      assignments than a snapshot may carry. */
  lemma PublishedValidExactly(db: Db, g: Id, generation: int, expiresAt: int, signature: seq<Byte>, now: int, h: Id)
    requires Lifecycle.Inv(db)
    ensures Valid(Snapshot(g, generation, expiresAt, SnapshotPeers(db, g), signature), now, h) <==>
            g != "" && h == g && generation > 0 && now < expiresAt && Load(db, g) <= 100000
  {
    SnapshotPeersValid(db, g);
  }

  /** The snapshot's table is exactly the gateway's live assignments. */
  lemma SnapshotTable(db: Db, g: Id, k: string)
    requires Lifecycle.Inv(db)
    ensures var peers := ByKey(SnapshotPeers(db, g));
            k in peers <==> exists a :: a in LiveOn(db, g) && PeerOf(db, a).publicKey == k
    ensures var peers := ByKey(SnapshotPeers(db, g));
            forall a :: a in LiveOn(db, g) && PeerOf(db, a).publicKey == k ==> k in peers && peers[k] == PeerOf(db, a)
  {
    hide WellFormedRegion, WellFormedPeer, InWindows, AddressesApart, WithinCapacity, ReplaysFaithful, StatesAgree,
      Agreeing, LeasesAssigned, SnapshotRows, SnapshotPeers, PeerOf;
    var peers, rows, devices := SnapshotPeers(db, g), SnapshotRows(db, g), SortedKeys(LiveDevices(db, g));
    SnapshotPeersValid(db, g);
    assert forall i, j :: 0 <= i < j < |peers| ==> Apart(peers[i], peers[j]);
    ByKeyComplete(peers);
    ByKeyConsistent(peers);
    forall a | a in LiveOn(db, g) && PeerOf(db, a).publicKey == k
      ensures k in ByKey(peers) && ByKey(peers)[k] == PeerOf(db, a)
    {
      var d := db.assignments[a].device;
      assert d in devices;
      var i :| 0 <= i < |devices| && devices[i] == d;
      assert IsLiveFor(db, g, devices[i], rows[i]);
      assert peers[i] == PeerOf(db, a);
    }
    if k in ByKey(peers) {
      var i :| 0 <= i < |peers| && peers[i] == ByKey(peers)[k];
      assert rows[i] in LiveOn(db, g) && PeerOf(db, rows[i]).publicKey == k;
    }
  }

  // ---- Which gateways are listed ----

  /** A ready gateway with a live assignment ahead of what was observed, and no snapshot queued or in flight. */
  ghost predicate Listed(db: Db, rows: Outbox.Rows, g: Id)
  {
    && g in db.gateways && db.gateways[g].state == Ready
    && (exists a :: a in LiveOn(db, g) && db.assignments[a].desired > db.assignments[a].observed)
    && !Outstanding(rows, g)
  }

  predicate Outstanding(rows: Outbox.Rows, g: Id)
  {
    exists i :: i in rows && rows[i].gateway == g && rows[i].state in {Outbox.Queued, Outbox.InFlight}
  }

  method GatewaysNeedingSnapshot(db: Db, rows: Outbox.Rows) returns (ids: seq<Id>)
    ensures StrictlySorted(ids) && forall g :: g in ids <==> Listed(db, rows, g)
  {
    var listed := set g | g in db.gateways && db.gateways[g].state == Ready
                          && (exists a :: a in LiveOn(db, g) && db.assignments[a].desired > db.assignments[a].observed)
                          && !Outstanding(rows, g);
    ids := SortIds(listed);
  }

  /** After a confirmation the gateway is listed only for assignments the confirmed generation does not cover. */
  lemma ListedAfterConfirm(db: Db, rows: Outbox.Rows, g: Id, generation: int)
    requires g != "" && generation > 0
    ensures Listed(Confirm(db, g, generation).0, rows, g) <==>
            && g in db.gateways && db.gateways[g].state == Ready && !Outstanding(rows, g)
            && exists a ::
              a in LiveOn(db, g) && db.assignments[a].desired > generation
              && db.assignments[a].desired > db.assignments[a].observed
  {
    var after := Confirm(db, g, generation).0;
    forall a | a in db.assignments
      ensures after.assignments[a] == if Confirms(db.assignments[a], g, generation)
          then ConfirmedRow(db.assignments[a]) else db.assignments[a]
    {
    }
    forall a | a in LiveOn(db, g) && db.assignments[a].desired > generation
      && db.assignments[a].desired > db.assignments[a].observed
      ensures a in LiveOn(after, g) && after.assignments[a].desired > after.assignments[a].observed
    {
    }
  }

  /** A crash between acknowledgement and confirmation leaves the gateway listed, unless another snapshot of it is
      queued or in flight. */
  lemma ListedAfterAck(db: Db, rows: Outbox.Rows, g: Id, id: Id, generation: int)
    requires Outbox.Ack(rows, g, id, generation).1.Ok?
    requires g in db.gateways && db.gateways[g].state == Ready
    requires exists a :: a in LiveOn(db, g) && db.assignments[a].desired > db.assignments[a].observed
    ensures Listed(db, Outbox.Ack(rows, g, id, generation).0, g) <==>
            !exists i :: i in rows && i != id && rows[i].gateway == g
              && rows[i].state in {Outbox.Queued, Outbox.InFlight}
  {
    var after := Outbox.Ack(rows, g, id, generation).0;
    assert forall i :: i in rows && i != id ==> after[i] == rows[i];
  }

  /** Once a claim put a row in flight and its reply is lost, so that nobody can acknowledge or return it, the gateway
      is on no list at any later point, whatever else is enqueued, claimed or answered and whatever the tables hold. */
  lemma SilentWhileInFlight(rows: Outbox.Rows, ops: seq<OutboxRuns.Op>, m: nat, n: nat, i: Id, db: Db)
    requires Outbox.Inv(rows) && m <= n <= |ops|
    requires i in OutboxRuns.Run(rows, ops, m) && OutboxRuns.Run(rows, ops, m)[i].state == Outbox.InFlight
    requires forall k :: m <= k < n ==> !OutboxRuns.Ends(ops[k], i, OutboxRuns.Run(rows, ops, m)[i])
    ensures !Listed(db, OutboxRuns.Run(rows, ops, n), OutboxRuns.Run(rows, ops, m)[i].gateway)
  {
    hide OutboxRuns.Run, OutboxRuns.Ends;
    OutboxRuns.InFlightIsStuck(rows, ops, m, n, i);
  }

  // ---- Confirmation and delivery ----

  /** Every assignment that a confirmation covers was in the acknowledged snapshot. */
  ghost predicate ConfirmsOnlyDelivered(built: Db, db: Db, g: Id, generation: int)
    requires Schema(built) && Schema(db)
  {
    forall a :: a in db.assignments && Confirms(db.assignments[a], g, generation) ==>
      PeerOf(db, a).publicKey in ByKey(SnapshotPeers(built, g))
  }

  lemma KeyNamesDevice(built: Db, db: Db, g: Id, a: Id, k: string) returns (b: Id)
    requires Lifecycle.Inv(built) && Lifecycle.Inv(db) && Grows(built, db)
    requires a in db.assignments && PeerOf(db, a).publicKey == k && k in ByKey(SnapshotPeers(built, g))
    ensures b in LiveOn(built, g) && db.assignments[a].device == built.assignments[b].device
  {
    assert Schema(built) && Schema(db);
    hide WellFormedRegions, Lifecycle.Inv, SnapshotPeers, ByKey, Grows;
    b := KeyHolder(built, g, k);
    assert db.assignments[a].device in db.devices && db.devices[db.assignments[a].device].publicKey == k;
    OneDevicePerKey(built, db, built.assignments[b].device, db.assignments[a].device);
  }

  lemma KeyHolder(db: Db, g: Id, k: string) returns (b: Id)
    requires Lifecycle.Inv(db) && k in ByKey(SnapshotPeers(db, g))
    ensures b in LiveOn(db, g) && db.assignments[b].device in db.devices
    ensures db.devices[db.assignments[b].device].publicKey == k
  {
    assert Schema(db);
    hide WellFormedRegions, Lifecycle.Inv, SnapshotPeers, ByKey;
    SnapshotTable(db, g, k);
    b :| b in LiveOn(db, g) && PeerOf(db, b).publicKey == k;
  }

  lemma OneDevicePerKey(built: Db, db: Db, d: Id, e: Id)
    requires Lifecycle.Inv(db) && Grows(built, db) && d in built.devices && e in db.devices
    requires built.devices[d].publicKey == db.devices[e].publicKey
    ensures d == e
  {
    hide Schema, OneToOne, StatesAgree, Lockstep, WithinCapacity, ReplaysFaithful, ValidPublicKey;
    assert SameDevice(built.devices[d], db.devices[d]);
  }

  /** A confirmation covers only delivered assignments iff each one it covers was live when the snapshot was built. */
  lemma ConfirmsDeliveredExactly(built: Db, db: Db, g: Id, generation: int)
    requires Lifecycle.Inv(built) && Lifecycle.Inv(db) && Grows(built, db)
    ensures ConfirmsOnlyDelivered(built, db, g, generation) <==>
            forall a :: a in db.assignments && Confirms(db.assignments[a], g, generation) ==> a in LiveOn(built, g)
  {
    hide WellFormedRegion, KeysDistinct, Lockstep, WithinCapacity, ReplaysFaithful, StatesAgree, Agreeing,
      LeasesAssigned, SnapshotPeers;
    forall a | a in db.assignments && Confirms(db.assignments[a], g, generation)
      ensures PeerOf(db, a).publicKey in ByKey(SnapshotPeers(built, g)) <==> a in LiveOn(built, g)
    {
      var k := PeerOf(db, a).publicKey;
      if k in ByKey(SnapshotPeers(built, g)) {
        var b := KeyNamesDevice(built, db, g, a, k);
        assert SameIdentity(built.assignments[b], db.assignments[b]);
        assert a == b;
      } else if a in LiveOn(built, g) {
        assert SameIdentity(built.assignments[a], db.assignments[a]);
        var d := built.assignments[a].device;
        assert SameDevice(built.devices[d], db.devices[d]);
        SnapshotTable(built, g, k);
      }
    }
  }

  /** And that fails for every allocation made after the snapshot was built: the acknowledgement of that snapshot
      marks the new assignment active and observed although the gateway was never told of it. */
  lemma UnsentConfirmed(db: Db, r: Request, generation: int)
    requires Lifecycle.Inv(db) && generation > 0
    requires Existing(db, r.device) == None && ReplayKey(r.owner, r.device, r.key) !in db.replays && Create(db, r).1.Ok?
    ensures ConfirmedUnsent(db, Create(db, r).0, r.assignmentId, generation)
  {
    hide Insert, Allocate, OneToOne, InWindows, AddressesApart, WithinCapacity, StatesAgree, ReplaysFaithful,
      WellFormedRegion, SnapshotPeers, ValidPublicKey, Confirm;
    var g, ipv4, ipv6 := AllocateInserts(db, r);
    InsertShape(db, r, g, ipv4, ipv6);
    var k := db.devices[r.device].publicKey;
    FreshDevice(db, r.device);
    SnapshotTable(db, g, k);
    ConfirmOne(Create(db, r).0, g, generation, r.assignmentId);
  }

  /** Confirming the assignment's gateway settles it, though the snapshot built earlier lacks its key. */
  ghost predicate ConfirmedUnsent(built: Db, db: Db, a: Id, generation: int)
    requires Schema(built)
  {
    a in db.assignments && db.assignments[a].device in db.devices &&
    var g, done := db.assignments[a].gateway, Confirm(db, db.assignments[a].gateway, generation).0;
    && a in done.assignments && done.assignments[a].state == Active
      && done.assignments[a].observed == done.assignments[a].desired
    && db.devices[db.assignments[a].device].publicKey !in ByKey(SnapshotPeers(built, g))
  }

  lemma ConfirmOne(db: Db, g: Id, generation: int, a: Id)
    requires g != "" && generation > 0 && a in db.assignments
    ensures var done := Confirm(db, g, generation).0;
            a in done.assignments && done.assignments[a] == if Confirms(db.assignments[a], g, generation)
              then ConfirmedRow(db.assignments[a]) else db.assignments[a]
  {
  }
}
