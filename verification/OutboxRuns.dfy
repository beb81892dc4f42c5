/** What holds over every run of outbox operations (services/api/internal/postgres/store.go:375-470). */
module OutboxRuns {
  import opened Arithmetic
  import opened Wrappers
  import opened Snapshots
  import opened Database
  import opened Outbox

  datatype Op =
    | EnqueueOp(id: Id, gateway: Id, generation: int, snapshot: Snapshot, now: int)
    | ClaimOp(gateway: Id, now: int)
    | AckOp(gateway: Id, id: Id, generation: int)
    | RetryOp(gateway: Id, id: Id, retryAt: int)

  ghost function Apply(rows: Rows, op: Op): Rows
  {
    match op
    case EnqueueOp(id, gateway, generation, snapshot, now) => Enqueue(rows, id, gateway, generation, snapshot, now).0
    case ClaimOp(gateway, now) => Claim(rows, gateway, now).0
    case AckOp(gateway, id, generation) => Ack(rows, gateway, id, generation).0
    case RetryOp(gateway, id, retryAt) => Retry(rows, gateway, id, retryAt).0
  }

  ghost function Run(rows: Rows, ops: seq<Op>, n: nat): Rows
    requires n <= |ops|
  {
    if n == 0 then rows else Apply(Run(rows, ops, n - 1), ops[n - 1])
  }

  /** What one operation can do to one row. */
  ghost predicate RowMoves(was: Row, now: Row)
  {
    || now == was
    || (was.state in {Queued, Failed} && was.attempts < ATTEMPT_LIMIT
      && now == was.(state := InFlight, attempts := was.attempts + 1))
    || (was.state == InFlight && now == was.(state := Acked))
    || (was.state == InFlight && now == was.(state := Failed, availableAt := now.availableAt))
  }

  ghost predicate StepOk(rows: Rows, after: Rows)
  {
    && Outbox.Inv(after)
    && (forall i :: i in rows ==> i in after && RowMoves(rows[i], after[i]))
    && (forall i :: i in after && i !in rows ==> after[i].state == Queued && after[i].attempts == 0)
  }

  /** A claim, acknowledgement or retry changes nothing or moves one row. */
  ghost predicate MovesOne(rows: Rows, after: Rows, i: Id)
  {
    i in rows && i in after && after == rows[i := after[i]] && RowMoves(rows[i], after[i]) && after[i] != rows[i]
  }

  lemma MovesOneOk(rows: Rows, after: Rows, i: Id)
    requires Outbox.Inv(rows) && MovesOne(rows, after, i)
    ensures StepOk(rows, after)
  {
    assert forall j :: j in rows ==> after[j].generation == rows[j].generation && after[j].gateway == rows[j].gateway;
  }

  lemma StepMovesOne(rows: Rows, op: Op) returns (i: Id)
    requires !op.EnqueueOp? && Apply(rows, op) != rows
    ensures MovesOne(rows, Apply(rows, op), i)
  {
    match op
    case ClaimOp(gateway, now) => i := Claim(rows, gateway, now).1.value;
    case AckOp(_, id, _) => i := id;
    case RetryOp(_, id, _) => i := id;
  }

  lemma EnqueueOk(rows: Rows, id: Id, gateway: Id, generation: int, snapshot: Snapshot, now: int)
    requires Outbox.Inv(rows)
    ensures StepOk(rows, Enqueue(rows, id, gateway, generation, snapshot, now).0)
  {
  }

  lemma StepRows(rows: Rows, op: Op)
    requires Outbox.Inv(rows)
    ensures StepOk(rows, Apply(rows, op))
  {
    hide Outbox.Inv, Claim, Ack, Retry, Enqueue;
    if Apply(rows, op) == rows {
      assert StepOk(rows, rows);
    } else if op.EnqueueOp? {
      EnqueueOk(rows, op.id, op.gateway, op.generation, op.snapshot, op.now);
    } else {
      var i := StepMovesOne(rows, op);
      MovesOneOk(rows, Apply(rows, op), i);
    }
  }

  /** Unique generations and the attempt bound hold in every reachable state. */
  lemma {:induction false} RunInv(rows: Rows, ops: seq<Op>, n: nat)
    requires n <= |ops| && Outbox.Inv(rows)
    ensures Outbox.Inv(Run(rows, ops, n))
  {
    hide Apply;
    if n > 0 {
      RunInv(rows, ops, n - 1);
      StepRows(Run(rows, ops, n - 1), ops[n - 1]);
    }
  }

  /** An acknowledged row never changes again. */
  lemma {:induction false} AckedIsFinal(rows: Rows, ops: seq<Op>, m: nat, n: nat, i: Id)
    requires Outbox.Inv(rows) && m <= n <= |ops|
    requires i in Run(rows, ops, m) && Run(rows, ops, m)[i].state == Acked
    ensures i in Run(rows, ops, n) && Run(rows, ops, n)[i] == Run(rows, ops, m)[i]
  {
    hide Apply;
    if m < n {
      AckedIsFinal(rows, ops, m, n - 1, i);
      RunInv(rows, ops, n - 1);
      StepRows(Run(rows, ops, n - 1), ops[n - 1]);
    }
  }

  // ---- Conservation of attempts ----

  /** The retries of row i among the first n operations that took effect. */
  ghost function Retries(rows: Rows, ops: seq<Op>, n: nat, i: Id): nat
    requires n <= |ops|
  {
    if n == 0 then 0
    else
      var before := Run(rows, ops, n - 1);
      Retries(rows, ops, n - 1, i)
      + if ops[n - 1].RetryOp? && ops[n - 1].id == i
           && Retry(before, ops[n - 1].gateway, i, ops[n - 1].retryAt).1.Ok? then 1 else 0
  }

  /** From an empty table, every attempt of a row is accounted for: retried, in flight, or acknowledged. */
  lemma {:induction false} AttemptsConserved(ops: seq<Op>, n: nat, i: Id)
    requires n <= |ops|
    ensures var now := Run(map[], ops, n);
            if i in now then
              now[i].attempts == Retries(map[], ops, n, i) + (if now[i].state in {InFlight, Acked} then 1 else 0)
              <= ATTEMPT_LIMIT
            else Retries(map[], ops, n, i) == 0
  {
    if n > 0 {
      AttemptsConserved(ops, n - 1, i);
      RunInv(map[], ops, n - 1);
      RunInv(map[], ops, n);
      AttemptStep(Run(map[], ops, n - 1), ops[n - 1], i);
    }
  }

  lemma AttemptStep(rows: Rows, op: Op, i: Id)
    requires Outbox.Inv(rows)
    ensures var after := Apply(rows, op);
            var retried := op.RetryOp? && op.id == i && Retry(rows, op.gateway, i, op.retryAt).1.Ok?;
            && (retried ==> i in rows)
            && (i in after && i !in rows ==> after[i].attempts == 0 && after[i].state == Queued)
            && (i in rows ==>
                  i in after && after[i].attempts - (if after[i].state in {InFlight, Acked} then 1 else 0)
                   == rows[i].attempts - (if rows[i].state in {InFlight, Acked} then 1 else 0)
                      + (if retried then 1 else 0))
  {
  }

  // ---- Termination ----

  /** Two for each attempt left, one for a row in flight. */
  function Weight(row: Row): nat
    requires row.attempts <= ATTEMPT_LIMIT
  {
    2 * (ATTEMPT_LIMIT - row.attempts) + if row.state == InFlight then 1 else 0
  }

  ghost function Total(rows: Rows, ids: set<Id>): nat
    requires Outbox.Inv(rows) && ids <= rows.Keys
  {
    if ids == {} then 0
    else var i :| i in ids; Weight(rows[i]) + Total(rows, ids - {i})
  }

  lemma {:induction false} TotalSplit(rows: Rows, ids: set<Id>, i: Id)
    requires Outbox.Inv(rows) && ids <= rows.Keys && i in ids
    ensures Total(rows, ids) == Weight(rows[i]) + Total(rows, ids - {i})
  {
    var j :| j in ids && Total(rows, ids) == Weight(rows[j]) + Total(rows, ids - {j});
    if j != i {
      TotalSplit(rows, ids - {j}, i);
      TotalSplit(rows, ids - {i}, j);
      assert ids - {j} - {i} == ids - {i} - {j};
    }
  }

  lemma {:induction false} TotalSame(x: Rows, y: Rows, ids: set<Id>)
    requires Outbox.Inv(x) && Outbox.Inv(y) && ids <= x.Keys && ids <= y.Keys
    requires forall i :: i in ids ==> Weight(x[i]) == Weight(y[i])
    ensures Total(x, ids) == Total(y, ids)
  {
    if ids != {} {
      var i :| i in ids;
      TotalSplit(x, ids, i);
      TotalSplit(y, ids, i);
      TotalSame(x, y, ids - {i});
    }
  }

  lemma {:induction false} TotalBound(rows: Rows, ids: set<Id>)
    requires Outbox.Inv(rows) && ids <= rows.Keys
    ensures Total(rows, ids) <= 201 * |ids|
  {
    if ids != {} {
      var i :| i in ids;
      TotalSplit(rows, ids, i);
      TotalBound(rows, ids - {i});
    }
  }

  /** A claim, acknowledgement or retry that takes effect lowers the total by one. */
  lemma StepLowersTotal(rows: Rows, op: Op)
    requires Outbox.Inv(rows) && !op.EnqueueOp?
    ensures Outbox.Inv(Apply(rows, op)) && Apply(rows, op).Keys == rows.Keys
    ensures Apply(rows, op) != rows ==> Total(Apply(rows, op), rows.Keys) == Total(rows, rows.Keys) - 1
  {
    hide Apply;
    StepRows(rows, op);
    var after := Apply(rows, op);
    if after != rows {
      var i := StepMovesOne(rows, op);
      TotalSplit(rows, rows.Keys, i);
      TotalSplit(after, rows.Keys, i);
      TotalSame(rows, after, rows.Keys - {i});
    }
  }

  /** How many of the first n operations took effect. */
  ghost function Effective(rows: Rows, ops: seq<Op>, n: nat): nat
    requires n <= |ops|
  {
    if n == 0 then 0
    else Effective(rows, ops, n - 1) + if Run(rows, ops, n) != Run(rows, ops, n - 1) then 1 else 0
  }

  /** Without enqueues only finitely many operations take effect: at most 201 per row. */
  lemma {:induction false} RunsAreFinite(rows: Rows, ops: seq<Op>, n: nat)
    requires Outbox.Inv(rows) && n <= |ops|
    requires forall i :: 0 <= i < |ops| ==> !ops[i].EnqueueOp?
    ensures Outbox.Inv(Run(rows, ops, n)) && Run(rows, ops, n).Keys == rows.Keys
    ensures Total(Run(rows, ops, n), rows.Keys) + Effective(rows, ops, n) == Total(rows, rows.Keys)
    ensures Effective(rows, ops, n) <= 201 * |rows|
  {
    hide Apply;
    TotalBound(rows, rows.Keys);
    if n > 0 {
      RunsAreFinite(rows, ops, n - 1);
      StepLowersTotal(Run(rows, ops, n - 1), ops[n - 1]);
    }
  }

  // ---- A lost reply ----

  /** What the operation would have to be to end the row's flight. */
  predicate Ends(op: Op, i: Id, row: Row)
  {
    && i != "" && row.gateway != ""
    && ((op.AckOp? && op.id == i && op.gateway == row.gateway && op.generation == row.generation)
        || (op.RetryOp? && op.id == i && op.gateway == row.gateway && op.retryAt != ZERO_TIME))
  }

  /** One operation either leaves a row alone or lowers its weight for good. */
  lemma FlightStep(rows: Rows, op: Op, i: Id)
    requires Outbox.Inv(rows) && i in rows
    ensures i in Apply(rows, op) && Apply(rows, op)[i].attempts <= ATTEMPT_LIMIT
    ensures Apply(rows, op)[i] == rows[i] || Weight(Apply(rows, op)[i]) < Weight(rows[i])
    ensures rows[i].state == InFlight ==> (Apply(rows, op)[i] == rows[i] <==> !Ends(op, i, rows[i]))
  {
    StepRows(rows, op);
    if rows[i].state == InFlight {
      FlightOperation(rows, op, i);
    }
    hide Apply;
  }

  lemma FlightOperation(rows: Rows, op: Op, i: Id)
    requires Outbox.Inv(rows) && i in rows && rows[i].state == InFlight
    ensures i in Apply(rows, op)
    ensures Apply(rows, op)[i] == rows[i] <==> !Ends(op, i, rows[i])
  {
  }

  lemma {:induction false} WeightFalls(rows: Rows, ops: seq<Op>, m: nat, n: nat, i: Id)
    requires Outbox.Inv(rows) && m <= n <= |ops| && i in Run(rows, ops, m)
    ensures Outbox.Inv(Run(rows, ops, m)) && Outbox.Inv(Run(rows, ops, n)) && i in Run(rows, ops, n)
    ensures Run(rows, ops, n)[i] == Run(rows, ops, m)[i] || Weight(Run(rows, ops, n)[i]) < Weight(Run(rows, ops, m)[i])
  {
    hide Apply;
    RunInv(rows, ops, m);
    RunInv(rows, ops, n);
    if m < n {
      WeightFalls(rows, ops, m, n - 1, i);
      FlightStep(Run(rows, ops, n - 1), ops[n - 1], i);
    }
  }

  /** A row in flight is as it was, at any later point, exactly when nobody acknowledged it under its gateway and
      generation or handed it back with a time in between; claims and enqueues never touch it. */
  lemma {:induction false} InFlightIsStuck(rows: Rows, ops: seq<Op>, m: nat, n: nat, i: Id)
    requires Outbox.Inv(rows) && m <= n <= |ops|
    requires i in Run(rows, ops, m) && Run(rows, ops, m)[i].state == InFlight
    ensures i in Run(rows, ops, n)
    ensures Run(rows, ops, n)[i] == Run(rows, ops, m)[i] <==>
            forall k :: m <= k < n ==> !Ends(ops[k], i, Run(rows, ops, m)[i])
  {
    hide Apply, Ends, Weight;
    if m < n {
      InFlightIsStuck(rows, ops, m, n - 1, i);
      WeightFalls(rows, ops, m, n - 1, i);
      FlightStep(Run(rows, ops, n - 1), ops[n - 1], i);
    }
  }
}
