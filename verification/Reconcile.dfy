/** One pass of the reconciler over the listed gateways (services/api/cmd/reconciler/main.go:56-73). */
module Reconcile {
  import opened Wrappers
  import opened Base64
  import opened Ordering
  import opened Snapshots
  import opened Database
  import opened Lifecycle
  import opened Reconciler
  import opened Outbox
  import opened OutboxRuns

  /** EnqueueCurrentGatewaySnapshot's row: the current peers, signed. */
  ghost function Publication(db: Db, g: Id, generation: int, expiresAt: int, sign: Snapshot -> seq<Byte>): Snapshot
    requires Schema(db)
  {
    var content := Snapshot(g, generation, expiresAt, SnapshotPeers(db, g), []);
    content.(signature := sign(content))
  }

  /** The row a pass adds for a gateway. */
  ghost predicate IsPublished(db: Db, was: Rows, g: Id, expiresAt: int, sign: Snapshot -> seq<Byte>, now: int, row: Row)
    requires Schema(db)
  {
    && IsNextGeneration(was, g, row.generation)
    && row == Row(g, row.generation, Publication(db, g, row.generation, expiresAt, sign), Queued, 0, now)
  }

  /** Rows added since `was` are publications of the gateways in `done`, under the uuids drawn for them. */
  ghost predicate Extends(db: Db, was: Rows, rows: Rows, done: seq<Id>, draw: Id -> Id, expiresAt: int,
      sign: Snapshot -> seq<Byte>, now: int)
    requires Schema(db)
  {
    && (forall i :: i in was ==> i in rows && rows[i] == was[i])
    && (forall i :: i in rows && i !in was ==>
          rows[i].gateway in done && i == draw(rows[i].gateway)
            && IsPublished(db, was, rows[i].gateway, expiresAt, sign, now, rows[i]))
  }

  ghost predicate CleanDraw(was: Rows, draw: Id -> Id, listed: seq<Id>)
  {
    && (forall g :: g in listed ==> draw(g) !in was)
    && (forall g, h :: g in listed && h in listed && g != h ==> draw(g) != draw(h))
  }

  /** Every listed gateway gets one queued snapshot of its current peers under its next generation, if its uuid is
      new and the signature has the right length; everything else stays. */
  method ReconcileOnce(store: Store, outbox: OutboxTable, draw: Id -> Id, sign: Snapshot -> seq<Byte>, expiresAt: int,
      now: int)
    returns (listed: seq<Id>)
    requires Lifecycle.Inv(store.Tables()) && Outbox.Inv(outbox.rows)
    modifies outbox
    ensures forall g :: g in listed <==> Listed(store.Tables(), old(outbox.rows), g)
    ensures Outbox.Inv(outbox.rows)
    ensures Extends(store.Tables(), old(outbox.rows), outbox.rows, listed, draw, expiresAt, sign, now)
    ensures CleanDraw(old(outbox.rows), draw, listed) && (forall s :: |sign(s)| == ED25519_SIGNATURE_SIZE) ==>
              forall g :: g in listed ==> draw(g) in outbox.rows && outbox.rows[draw(g)].gateway == g
  {
    hide Lifecycle.Inv, Outbox.Inv, Schema, Separate, Extends, Listed;
    ghost var was, db := outbox.rows, store.Tables();
    StoreFacts(db);
    listed := GatewaysNeedingSnapshot(store.Tables(), outbox.rows);
    StartExtends(db, was, draw, expiresAt, sign, now);
    for n := 0 to |listed|
      invariant store.Tables() == db && Outbox.Inv(outbox.rows)
      invariant Extends(db, was, outbox.rows, listed[..n], draw, expiresAt, sign, now)
      invariant CleanDraw(was, draw, listed) && (forall s :: |sign(s)| == ED25519_SIGNATURE_SIZE) ==>
                  forall i :: 0 <= i < n ==>
                    draw(listed[i]) in outbox.rows && outbox.rows[draw(listed[i])].gateway == listed[i]
    {
      assert listed[n] !in listed[..n] by { LessIrreflexive(listed[n]); }
      assert listed[..n + 1] == listed[..n] + [listed[n]];
      ListedNamed(db, was, listed[n]);
      DrawUnused(db, was, outbox.rows, listed, n, draw, expiresAt, sign, now);
      PublishOne(store, outbox, listed[n], draw, sign, expiresAt, now, was, listed[..n]);
    }
    assert listed[..|listed|] == listed;
  }

  lemma StoreFacts(db: Db)
    requires Lifecycle.Inv(db)
    ensures Schema(db) && Separate(db)
  {
  }

  lemma ListedNamed(db: Db, rows: Rows, g: Id)
    requires Schema(db) && Listed(db, rows, g)
    ensures g != ""
  {
    hide WellFormedRegion;
  }

  lemma StartExtends(db: Db, was: Rows, draw: Id -> Id, expiresAt: int, sign: Snapshot -> seq<Byte>, now: int)
    requires Schema(db)
    ensures Extends(db, was, was, [], draw, expiresAt, sign, now)
  {
  }

  lemma DrawUnused(db: Db, was: Rows, rows: Rows, listed: seq<Id>, n: nat, draw: Id -> Id, expiresAt: int,
      sign: Snapshot -> seq<Byte>, now: int)
    requires Schema(db) && n < |listed| && listed[n] !in listed[..n]
    requires Extends(db, was, rows, listed[..n], draw, expiresAt, sign, now)
    ensures CleanDraw(was, draw, listed) ==> draw(listed[n]) !in rows
  {
    hide Schema, IsPublished;
    assert forall x :: x in listed[..n] ==> x in listed && x != listed[n];
    assert listed[n] in listed;
  }

  method PublishOne(store: Store, outbox: OutboxTable, g: Id, draw: Id -> Id, sign: Snapshot -> seq<Byte>,
      expiresAt: int, now: int,
                    ghost was: Rows, ghost done: seq<Id>)
    requires Schema(store.Tables()) && Separate(store.Tables()) && Outbox.Inv(outbox.rows) && g != ""
    requires Extends(store.Tables(), was, outbox.rows, done, draw, expiresAt, sign, now) && g !in done
    modifies outbox
    ensures Outbox.Inv(outbox.rows) && Extends(store.Tables(), was, outbox.rows, done + [g], draw, expiresAt, sign, now)
    ensures forall i :: i in old(outbox.rows) ==> i in outbox.rows && outbox.rows[i] == old(outbox.rows)[i]
    ensures draw(g) !in old(outbox.rows) && (forall s :: |sign(s)| == ED25519_SIGNATURE_SIZE) ==>
              draw(g) in outbox.rows && outbox.rows[draw(g)].gateway == g
  {
    hide Outbox.Inv, Schema, Separate, Extends, SnapshotPeers, Enqueue;
    ghost var db := store.Tables();
    var generation := outbox.NextGatewaySnapshotGeneration(g);
    var peers := CollectPeers(store.Tables(), g);
    var content := Snapshot(g, generation.value, expiresAt, peers, []);
    var signed := content.(signature := sign(content));
    PublicationExtends(db, was, outbox.rows, done, draw, expiresAt, sign, now, g, generation.value);
    var r := outbox.EnqueueSnapshot(draw(g), g, generation.value, signed, now);
  }

  lemma PublicationExtends(db: Db, was: Rows, rows: Rows, done: seq<Id>, draw: Id -> Id, expiresAt: int,
      sign: Snapshot -> seq<Byte>, now: int, g: Id, generation: int)
    requires Schema(db) && Outbox.Inv(rows) && Extends(db, was, rows, done, draw, expiresAt, sign, now) && g !in done
        && g != ""
    requires IsNextGeneration(rows, g, generation)
    ensures var after := Enqueue(rows, draw(g), g, generation, Publication(db, g, generation, expiresAt, sign), now).0;
            && Outbox.Inv(after) && Extends(db, was, after, done + [g], draw, expiresAt, sign, now)
            && (forall i :: i in rows ==> i in after && after[i] == rows[i])
            && (draw(g) !in rows && (forall s :: |sign(s)| == ED25519_SIGNATURE_SIZE) ==>
                  draw(g) in after && after[draw(g)].gateway == g)
  {
    hide Schema, Publication, Extends, Enqueue, Outbox.Inv;
    var snapshot := Publication(db, g, generation, expiresAt, sign);
    var after := Enqueue(rows, draw(g), g, generation, snapshot, now).0;
    EnqueueOk(rows, draw(g), g, generation, snapshot, now);
    EnqueueShape(rows, draw(g), g, generation, snapshot, now);
    assert |snapshot.signature| == |sign(snapshot.(signature := []))| by {
      PublicationSigned(db, g, generation, expiresAt, sign);
    }
    OneMore(db, was, rows, done, draw, expiresAt, sign, now, g, generation, after);
  }

  lemma PublicationSigned(db: Db, g: Id, generation: int, expiresAt: int, sign: Snapshot -> seq<Byte>)
    requires Schema(db)
    ensures var s := Publication(db, g, generation, expiresAt, sign); s.signature == sign(s.(signature := []))
  {
    hide Schema, SnapshotPeers;
  }

  lemma EnqueueShape(rows: Rows, id: Id, g: Id, generation: int, snapshot: Snapshot, now: int)
    requires g != "" && IsNextGeneration(rows, g, generation)
    ensures var after := Enqueue(rows, id, g, generation, snapshot, now).0;
            if id !in rows && |snapshot.signature| == ED25519_SIGNATURE_SIZE
              then after == rows[id := Row(g, generation, snapshot, Queued, 0, now)]
            else after == rows
  {
  }

  lemma OneMore(db: Db, was: Rows, rows: Rows, done: seq<Id>, draw: Id -> Id, expiresAt: int,
      sign: Snapshot -> seq<Byte>, now: int, g: Id, generation: int, after: Rows)
    requires Schema(db) && Extends(db, was, rows, done, draw, expiresAt, sign, now) && g !in done
        && IsNextGeneration(rows, g, generation)
    requires after == rows
             || (draw(g) !in rows
               && after == rows[draw(g) := Row(g, generation, Publication(db, g, generation, expiresAt, sign), Queued,
                 0, now)])
    ensures Extends(db, was, after, done + [g], draw, expiresAt, sign, now)
  {
    hide Schema, Publication, IsNextGeneration;
    NextOfExtension(db, was, rows, done, draw, expiresAt, sign, now, g, generation);
  }

  /** Publications of other gateways do not move this one's next generation. */
  lemma NextOfExtension(db: Db, was: Rows, rows: Rows, done: seq<Id>, draw: Id -> Id, expiresAt: int,
      sign: Snapshot -> seq<Byte>, now: int, g: Id, generation: int)
    requires Schema(db) && Extends(db, was, rows, done, draw, expiresAt, sign, now) && g !in done
    requires IsNextGeneration(rows, g, generation)
    ensures IsNextGeneration(was, g, generation)
  {
    hide Schema, SnapshotPeers, IsPublished;
    if generation > 1 {
      var i :| i in rows && rows[i].gateway == g && rows[i].generation == generation - 1;
      assert i in was;
    }
  }
}
