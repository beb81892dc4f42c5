/** Which snapshot a claim takes, told from the history of the outbox alone: when a row was put up, how often it was
    taken, and which others are waiting (services/api/internal/postgres/store.go:375-470). */
module OutboxHistory {
  import opened Arithmetic
  import opened Wrappers
  import opened Snapshots
  import opened Database
  import opened Outbox
  import opened OutboxRuns

  const EMPTY: Rows := map[]

  /** Operation k puts row i up for claiming from time t on: it adds the row, or hands it back while it is in flight. */
  ghost predicate PutUp(ops: seq<Op>, k: nat, i: Id, t: int)
    requires k < |ops|
  {
    var before, op := Run(EMPTY, ops, k), ops[k];
    || (op.EnqueueOp? && op.id == i && op.now == t && i !in before && i in Run(EMPTY, ops, k + 1))
    || (op.RetryOp? && op.id == i && op.retryAt == t && t != ZERO_TIME && i != "" && op.gateway != ""
        && i in before && before[i].gateway == op.gateway && before[i].state == InFlight)
  }

  /** Operation k is a claim that answers with row i. */
  ghost predicate Taken(ops: seq<Op>, k: nat, i: Id)
    requires k < |ops|
  {
    ops[k].ClaimOp? && Claim(Run(EMPTY, ops, k), ops[k].gateway, ops[k].now).1 == Ok(i)
  }

  /** After n operations row i waits to be claimed from time t on. */
  ghost predicate Waits(ops: seq<Op>, n: nat, i: Id, t: int)
    requires n <= |ops|
  {
    exists k: nat :: k < n && PutUp(ops, k, i, t) && forall l :: k < l < n ==> !Taken(ops, l, i)
  }

  /** How often row i was taken by the first n operations. */
  ghost function Takes(ops: seq<Op>, n: nat, i: Id): nat
    requires n <= |ops|
  {
    if n == 0 then 0 else Takes(ops, n - 1, i) + if Taken(ops, n - 1, i) then 1 else 0
  }

  /** The rows are what the history says. */
  ghost predicate RowLinked(ops: seq<Op>, n: nat, i: Id)
    requires n <= |ops|
  {
    var rows := Run(EMPTY, ops, n);
    && (forall t :: Waits(ops, n, i, t) <==>
          i in rows && rows[i].state in {Queued, Failed} && rows[i].availableAt == t)
    && (if i in rows then rows[i].attempts == Takes(ops, n, i) else Takes(ops, n, i) == 0)
  }

  lemma WaitsStep(ops: seq<Op>, n: nat, i: Id, t: int)
    requires n < |ops|
    ensures Waits(ops, n + 1, i, t) <==> PutUp(ops, n, i, t) || (Waits(ops, n, i, t) && !Taken(ops, n, i))
  {
    hide PutUp, Taken;
    if Waits(ops, n, i, t) && !Taken(ops, n, i) {
      var k: nat :| k < n && PutUp(ops, k, i, t) && forall l :: k < l < n ==> !Taken(ops, l, i);
      assert k < n + 1 && forall l :: k < l < n + 1 ==> !Taken(ops, l, i);
    }
    var m := n + 1;
    assert PutUp(ops, n, i, t) ==> n < m && PutUp(ops, n, i, t);
  }

  /** What one operation does to one row, by kind of operation and without the claim's choice. */
  lemma RowStep(rows: Rows, op: Op, i: Id)
    requires Outbox.Inv(rows)
    ensures var after := Apply(rows, op);
            match op
            case EnqueueOp(id, _, _, _, now) =>
              if i in rows then i in after && after[i] == rows[i]
              else (i in after ==>
                i == id && after[i].state == Queued && after[i].attempts == 0 && after[i].availableAt == now)
            case ClaimOp(gateway, now) =>
              if i !in rows then i !in after
              else if Claim(rows, gateway, now).1 == Ok(i) then
                i in after && after[i] == rows[i].(state := InFlight, attempts := rows[i].attempts + 1)
                && rows[i].state in {Queued, Failed}
              else i in after && after[i] == rows[i]
            case AckOp(gateway, id, generation) =>
              if i !in rows then i !in after
              else if i !in after then false
              else after[i] == rows[i] || (rows[i].state == InFlight && after[i] == rows[i].(state := Acked))
            case RetryOp(gateway, id, retryAt) =>
              if i !in rows then i !in after
              else if id == i && i != "" && gateway != "" && retryAt != ZERO_TIME
                      && rows[i].gateway == gateway && rows[i].state == InFlight
              then i in after && after[i] == rows[i].(state := Failed, availableAt := retryAt)
              else i in after && after[i] == rows[i]
  {
  }

  lemma {:induction false} RunLinked(ops: seq<Op>, n: nat, i: Id)
    requires n <= |ops|
    ensures RowLinked(ops, n, i)
  {
    if n > 0 {
      var k := n - 1;
      RunLinked(ops, k, i);
      RunInv(EMPTY, ops, k);
      RowStep(Run(EMPTY, ops, k), ops[k], i);
      hide Apply, Claim, Outbox.Inv, Waits;
      var before, after := Run(EMPTY, ops, k), Run(EMPTY, ops, n);
      forall t
        ensures Waits(ops, n, i, t) <==>
                i in after && after[i].state in {Queued, Failed} && after[i].availableAt == t
      {
        WaitsStep(ops, k, i, t);
      }
    }
  }

  /** Row i can be had by the gateway at this time. */
  ghost predicate Available(ops: seq<Op>, n: nat, gateway: Id, now: int, i: Id)
    requires n <= |ops|
  {
    && i in Run(EMPTY, ops, n) && Run(EMPTY, ops, n)[i].gateway == gateway
    && (exists t :: Waits(ops, n, i, t) && t <= now) && Takes(ops, n, i) < 100
  }

  lemma ClaimableExactly(ops: seq<Op>, n: nat, gateway: Id, now: int, i: Id)
    requires n <= |ops|
    ensures Claimable(Run(EMPTY, ops, n), gateway, now, i) <==> Available(ops, n, gateway, now, i)
  {
    RunLinked(ops, n, i);
    hide Run, Waits, Takes;
    var rows := Run(EMPTY, ops, n);
    if Claimable(rows, gateway, now, i) {
      assert Waits(ops, n, i, rows[i].availableAt);
    }
  }

  /** A claim takes row i exactly when the row was put up for a time that has come and not taken since, was taken fewer
      than a hundred times in all, and no such row of the gateway has a smaller generation; it finds nothing exactly
      when there is no such row. */
  lemma ClaimTakesExactly(ops: seq<Op>, n: nat, i: Id)
    requires n < |ops| && ops[n].ClaimOp? && ops[n].gateway != ""
    ensures Taken(ops, n, i) <==>
            && Available(ops, n, ops[n].gateway, ops[n].now, i)
            && forall j :: j != i && Available(ops, n, ops[n].gateway, ops[n].now, j) ==>
                 Run(EMPTY, ops, n)[i].generation < Run(EMPTY, ops, n)[j].generation
    ensures Claim(Run(EMPTY, ops, n), ops[n].gateway, ops[n].now).1 == Err(NotFound) <==>
            !exists j :: Available(ops, n, ops[n].gateway, ops[n].now, j)
  {
    var rows, gateway, now := Run(EMPTY, ops, n), ops[n].gateway, ops[n].now;
    RunInv(EMPTY, ops, n);
    forall j
      ensures Claimable(rows, gateway, now, j) <==> Available(ops, n, gateway, now, j)
    {
      ClaimableExactly(ops, n, gateway, now, j);
    }
    hide Run, Available, Claimable, Outbox.Inv;
    ClaimExactly(rows, gateway, now);
    if IsNextClaim(rows, gateway, now, i) {
      NextClaimIs(rows, gateway, now, i);
    }
  }

  lemma NextClaimIs(rows: Rows, gateway: Id, now: int, i: Id)
    requires IsNextClaim(rows, gateway, now, i)
    ensures NextClaim(rows, gateway, now) == Some(i)
  {
    hide Claimable;
  }

  /** In particular a row handed back is delivered again: the next claim of its gateway at or after the retry time takes
      it, if it has attempts left and nothing older is waiting. */
  lemma HandedBackIsTaken(ops: seq<Op>, m: nat, n: nat, i: Id)
    requires m < n < |ops| && ops[m].RetryOp? && PutUp(ops, m, i, ops[m].retryAt)
    requires forall l :: m < l < n ==> !Taken(ops, l, i)
    requires ops[n].ClaimOp? && ops[n].gateway == ops[m].gateway
    ensures Taken(ops, n, i) <==>
            && ops[m].retryAt <= ops[n].now && Takes(ops, n, i) < 100
            && forall j :: j != i && Available(ops, n, ops[n].gateway, ops[n].now, j) ==>
                 i in Run(EMPTY, ops, n) && Run(EMPTY, ops, n)[i].generation < Run(EMPTY, ops, n)[j].generation
  {
    RunLinked(ops, n, i);
    assert Waits(ops, n, i, ops[m].retryAt);
    var g := ops[n].gateway;
    GatewayStays(ops, m, n, i);
    hide Run, PutUp, Taken, Waits;
    ClaimTakesExactly(ops, n, i);
  }

  lemma {:induction false} GatewayStays(ops: seq<Op>, m: nat, n: nat, i: Id)
    requires m <= n <= |ops| && i in Run(EMPTY, ops, m)
    ensures i in Run(EMPTY, ops, n) && Run(EMPTY, ops, n)[i].gateway == Run(EMPTY, ops, m)[i].gateway
    ensures Run(EMPTY, ops, n)[i].generation == Run(EMPTY, ops, m)[i].generation
  {
    hide Apply;
    if m < n {
      GatewayStays(ops, m, n - 1, i);
      RunInv(EMPTY, ops, n - 1);
      StepRows(Run(EMPTY, ops, n - 1), ops[n - 1]);
    }
  }

  /** An enqueue adds its row exactly when it names a gateway, carries a positive generation and a 64-byte signature,
      and neither its id nor its gateway's generation is taken; the row waits from then on. Nothing else changes. */
  lemma EnqueueExactly(rows: Rows, id: Id, gateway: Id, generation: int, snapshot: Snapshot, now: int)
    ensures var (after, r) := Enqueue(rows, id, gateway, generation, snapshot, now);
            var taken := id in rows
              || exists i :: i in rows && rows[i].gateway == gateway && rows[i].generation == generation;
            && r == (if gateway == "" || generation <= 0 || |snapshot.signature| != 64 then Err(InvalidInput)
                     else if taken then Err(Conflict) else Ok(()))
            && (forall i :: i in after <==> i in rows || (r.Ok? && i == id))
            && (forall i :: i in rows ==> after[i] == rows[i])
            && (r.Ok? ==> after[id] == Row(gateway, generation, snapshot, Queued, 0, now))
  {
  }
}
