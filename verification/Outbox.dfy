/** The durable outbox of gateway snapshots (services/api/internal/postgres/store.go:98-107, 375-470;
    services/api/migrations/0001_initial.sql:147-175). Times are instants, as in Snapshots. */
module Outbox {
  import opened Arithmetic
  import opened Wrappers
  import opened Snapshots
  import opened Database

  datatype RowState = Queued | InFlight | Acked | Failed

  datatype Row = Row(gateway: Id, generation: int, snapshot: Snapshot, state: RowState, attempts: nat, availableAt: int)

  /** The table, by snapshot id. */
  type Rows = map<Id, Row>

  const ATTEMPT_LIMIT := 100

  predicate GenerationTaken(rows: Rows, gateway: Id, generation: int)
  {
    exists i :: i in rows && rows[i].gateway == gateway && rows[i].generation == generation
  }

  function Enqueue(rows: Rows, id: Id, gateway: Id, generation: int, snapshot: Snapshot, now: int)
    : (Rows, Result<(), Error>)
  {
    if gateway == "" || generation <= 0 || |snapshot.signature| != ED25519_SIGNATURE_SIZE then (rows, Err(InvalidInput))
    else if id in rows || GenerationTaken(rows, gateway, generation) then (rows, Err(Conflict))
    else (rows[id := Row(gateway, generation, snapshot, Queued, 0, now)], Ok(()))
  }

  predicate Claimable(rows: Rows, gateway: Id, now: int, i: Id)
  {
    && i in rows && rows[i].gateway == gateway && rows[i].state in {Queued, Failed}
    && rows[i].availableAt <= now && rows[i].attempts < ATTEMPT_LIMIT
  }

  ghost predicate IsNextClaim(rows: Rows, gateway: Id, now: int, i: Id)
  {
    Claimable(rows, gateway, now, i)
    && forall j :: Claimable(rows, gateway, now, j) && j != i ==> rows[i].generation < rows[j].generation
  }

  ghost function NextClaim(rows: Rows, gateway: Id, now: int): (r: Option<Id>)
    ensures r.Some? ==> IsNextClaim(rows, gateway, now, r.value)
  {
    if i :| IsNextClaim(rows, gateway, now, i) then Some(i) else None
  }

  ghost function Claim(rows: Rows, gateway: Id, now: int): (Rows, Result<Id, Error>)
  {
    if gateway == "" then (rows, Err(InvalidInput))
    else match NextClaim(rows, gateway, now)
      case None => (rows, Err(NotFound))
      case Some(i) => (rows[i := rows[i].(state := InFlight, attempts := rows[i].attempts + 1)], Ok(i))
  }

  function Ack(rows: Rows, gateway: Id, id: Id, generation: int): (Rows, Result<(), Error>)
  {
    if gateway == "" || id == "" || generation <= 0 then (rows, Err(InvalidInput))
    else if id in rows && rows[id].gateway == gateway && rows[id].generation == generation && rows[id].state == InFlight
    then (rows[id := rows[id].(state := Acked)], Ok(()))
    else (rows, Err(NotFound))
  }

  function Retry(rows: Rows, gateway: Id, id: Id, retryAt: int): (Rows, Result<(), Error>)
  {
    if gateway == "" || id == "" || retryAt == ZERO_TIME then (rows, Err(InvalidInput))
    else if id in rows && rows[id].gateway == gateway && rows[id].state == InFlight
    then (rows[id := rows[id].(state := Failed, availableAt := retryAt)], Ok(()))
    else (rows, Err(NotFound))
  }

  // ---- The invariant ----

  ghost predicate UniqueGenerations(rows: Rows)
  {
    forall i, j :: i in rows && j in rows && i != j && rows[i].gateway == rows[j].gateway ==>
      rows[i].generation != rows[j].generation
  }

  ghost predicate Inv(rows: Rows)
  {
    && UniqueGenerations(rows)
    && forall i :: i in rows ==> rows[i].generation > 0 && rows[i].attempts <= ATTEMPT_LIMIT
  }

  lemma {:induction false} LeastGeneration(rows: Rows, s: set<Id>) returns (l: Id)
    requires s != {} && s <= rows.Keys
    requires forall i, j :: i in s && j in s && i != j ==> rows[i].generation != rows[j].generation
    ensures l in s && forall j :: j in s && j != l ==> rows[l].generation < rows[j].generation
  {
    l :| l in s;
    if s != {l} {
      var m := LeastGeneration(rows, s - {l});
      if rows[m].generation < rows[l].generation {
        l := m;
      }
    }
  }

  /** Some available row is claimed whenever there is one, and it has the least available generation. */
  lemma ClaimExactly(rows: Rows, gateway: Id, now: int)
    requires Inv(rows) && gateway != ""
    ensures Claim(rows, gateway, now).1.Ok? <==> exists i :: Claimable(rows, gateway, now, i)
    ensures Claim(rows, gateway, now).1.Ok? ==> IsNextClaim(rows, gateway, now, Claim(rows, gateway, now).1.value)
  {
    var s := set i | i in rows && Claimable(rows, gateway, now, i);
    if i :| Claimable(rows, gateway, now, i) {
      assert i in s;
      var m := LeastGeneration(rows, s);
      assert IsNextClaim(rows, gateway, now, m);
    }
  }

  /** With unique generations a least one is the next claim, and there is no other. */
  lemma LeastIsNext(rows: Rows, gateway: Id, now: int, i: Id)
    requires Inv(rows) && Claimable(rows, gateway, now, i)
    requires forall j :: Claimable(rows, gateway, now, j) ==> rows[i].generation <= rows[j].generation
    ensures NextClaim(rows, gateway, now) == Some(i)
  {
    assert IsNextClaim(rows, gateway, now, i);
  }

  // ---- The table as code ----

  class OutboxTable {
    var rows: Rows

    constructor ()
      ensures rows == map[]
    {
      rows := map[];
    }

    method EnqueueSnapshot(id: Id, gateway: Id, generation: int, snapshot: Snapshot, now: int)
      returns (r: Result<(), Error>)
      modifies this
      ensures (rows, r) == Enqueue(old(rows), id, gateway, generation, snapshot, now)
    {
      if gateway == "" || generation <= 0 || |snapshot.signature| != ED25519_SIGNATURE_SIZE {
        return Err(InvalidInput);
      }
      if id in rows || GenerationTaken(rows, gateway, generation) {
        return Err(Conflict);
      }
      rows := rows[id := Row(gateway, generation, snapshot, Queued, 0, now)];
      return Ok(());
    }

    /** ORDER BY generation LIMIT 1, then the update. */
    method ClaimNextSnapshot(gateway: Id, now: int) returns (r: Result<Id, Error>)
      requires Inv(rows)
      modifies this
      ensures (rows, r) == Claim(old(rows), gateway, now)
    {
      if gateway == "" {
        return Err(InvalidInput);
      }
      hide Inv;
      ghost var was := rows;
      var left := rows.Keys;
      var best: Option<Id> := None;
      while left != {}
        invariant rows == was
        invariant forall i :: i in left ==> i in rows
        invariant best.Some? ==> Claimable(rows, gateway, now, best.value) && best.value !in left
        invariant forall j :: Claimable(rows, gateway, now, j) && j !in left ==>
                    best.Some? && rows[best.value].generation <= rows[j].generation
        decreases |left|
      {
        var i :| i in left;
        left := left - {i};
        if Claimable(rows, gateway, now, i) && (best == None || rows[i].generation < rows[best.value].generation) {
          best := Some(i);
        }
      }
      ClaimExactly(rows, gateway, now);
      if best == None {
        return Err(NotFound);
      }
      LeastIsNext(rows, gateway, now, best.value);
      rows := rows[best.value := rows[best.value].(state := InFlight, attempts := rows[best.value].attempts + 1)];
      return Ok(best.value);
    }

    method AckSnapshot(gateway: Id, id: Id, generation: int) returns (r: Result<(), Error>)
      modifies this
      ensures (rows, r) == Ack(old(rows), gateway, id, generation)
    {
      if gateway == "" || id == "" || generation <= 0 {
        return Err(InvalidInput);
      }
      var affected := id in rows && rows[id].gateway == gateway && rows[id].generation == generation
        && rows[id].state == InFlight;
      if !affected {
        return Err(NotFound);
      }
      rows := rows[id := rows[id].(state := Acked)];
      return Ok(());
    }

    method RetrySnapshot(gateway: Id, id: Id, retryAt: int) returns (r: Result<(), Error>)
      modifies this
      ensures (rows, r) == Retry(old(rows), gateway, id, retryAt)
    {
      if gateway == "" || id == "" || retryAt == ZERO_TIME {
        return Err(InvalidInput);
      }
      var affected := id in rows && rows[id].gateway == gateway && rows[id].state == InFlight;
      if !affected {
        return Err(NotFound);
      }
      rows := rows[id := rows[id].(state := Failed, availableAt := retryAt)];
      return Ok(());
    }

    /** COALESCE(MAX(generation), 0) + 1. */
    method NextGatewaySnapshotGeneration(gateway: Id) returns (r: Result<int, Error>)
      requires Inv(rows)
      ensures gateway == "" <==> r == Err(InvalidInput)
      ensures gateway != "" ==> r.Ok? && IsNextGeneration(rows, gateway, r.value)
    {
      if gateway == "" {
        return Err(InvalidInput);
      }
      var left := rows.Keys;
      var greatest := 0;
      while left != {}
        invariant forall i :: i in left ==> i in rows
        invariant greatest >= 0 && (greatest > 0 ==> GenerationTaken(rows, gateway, greatest))
        invariant forall i :: i in rows && i !in left && rows[i].gateway == gateway ==> rows[i].generation <= greatest
        decreases |left|
      {
        var i :| i in left;
        left := left - {i};
        if rows[i].gateway == gateway && rows[i].generation > greatest {
          greatest := rows[i].generation;
        }
      }
      return Ok(greatest + 1);
    }
  }

  ghost predicate IsNextGeneration(rows: Rows, gateway: Id, generation: int)
  {
    && generation > 0
    && (generation > 1 ==> GenerationTaken(rows, gateway, generation - 1))
    && forall i :: i in rows && rows[i].gateway == gateway ==> rows[i].generation < generation
  }
}
