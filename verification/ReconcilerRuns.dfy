/** One reconciler, an outbox and any number of agents, interleaved step by step
    (services/api/cmd/reconciler/main.go:56-73, services/api/internal/postgres/store.go:62-151, 375-470). */
module ReconcilerRuns {
  import opened Wrappers
  import opened Snapshots
  import opened Database
  import opened Outbox
  import opened OutboxRuns
  import opened Reconciler

  /** todo: the gateways the current pass has listed and not yet published. */
  datatype State = State(rows: Rows, todo: set<Id>)

  datatype Step =
    | ListGateways(listed: set<Id>)
    | Publish(gateway: Id, id: Id, generation: int, snapshot: Snapshot, now: int)
    | Serve(op: Op)

  /** A pass lists no gateway with an outstanding row and may start before the last one is through, after a crash; each
      listed gateway is published under the next generation; the API serves claims, acknowledgements and retries in
      between. */
  ghost predicate Enabled(s: State, step: Step)
  {
    match step
    case ListGateways(listed) => forall g :: g in listed ==> !Outstanding(s.rows, g)
    case Publish(g, _, generation, _, _) => g in s.todo && IsNextGeneration(s.rows, g, generation)
    case Serve(op) => !op.EnqueueOp?
  }

  ghost function Next(s: State, step: Step): State
  {
    match step
    case ListGateways(listed) => s.(todo := listed)
    case Publish(g, id, generation, snapshot, now) =>
      State(Enqueue(s.rows, id, g, generation, snapshot, now).0, s.todo - {g})
    case Serve(op) => s.(rows := Apply(s.rows, op))
  }

  ghost function Run(s: State, steps: seq<Step>, n: nat): State
    requires n <= |steps|
  {
    if n == 0 then s else Next(Run(s, steps, n - 1), steps[n - 1])
  }

  ghost predicate AllEnabled(s: State, steps: seq<Step>)
  {
    forall i :: 0 <= i < |steps| ==> Enabled(Run(s, steps, i), steps[i])
  }

  ghost predicate OneQueued(rows: Rows)
  {
    forall i, j :: i in rows && j in rows && i != j && rows[i].gateway == rows[j].gateway ==>
      rows[i].state != Queued || rows[j].state != Queued
  }

  /** The generations of a gateway are 1, 2, 3 and so on without a gap. */
  ghost predicate Gapless(rows: Rows)
  {
    forall i, k :: i in rows && 1 <= k <= rows[i].generation ==> GenerationTaken(rows, rows[i].gateway, k)
  }

  ghost predicate TodoClear(s: State)
  {
    forall i :: i in s.rows && s.rows[i].gateway in s.todo ==> s.rows[i].state != Queued
  }

  lemma PublishKeeps(s: State, g: Id, id: Id, generation: int, snapshot: Snapshot, now: int)
    requires Outbox.Inv(s.rows) && OneQueued(s.rows) && Gapless(s.rows) && TodoClear(s)
    requires g in s.todo && IsNextGeneration(s.rows, g, generation)
    ensures var after := State(Enqueue(s.rows, id, g, generation, snapshot, now).0, s.todo - {g});
            OneQueued(after.rows) && Gapless(after.rows) && TodoClear(after)
  {
    var rows, after := s.rows, Enqueue(s.rows, id, g, generation, snapshot, now).0;
    if after != rows {
      forall i, k | i in after && 1 <= k <= after[i].generation
        ensures GenerationTaken(after, after[i].gateway, k)
      {
        TakenAfter(rows, after, id, after[i].gateway, k);
        if i == id {
          if k < generation {
            var j :| j in rows && rows[j].gateway == g && rows[j].generation == generation - 1;
            assert GenerationTaken(rows, g, k);
          } else {
            assert after[id].generation == k;
          }
        } else {
          assert GenerationTaken(rows, rows[i].gateway, k);
        }
      }
    }
  }

  lemma TakenAfter(rows: Rows, after: Rows, id: Id, g: Id, k: int)
    requires id !in rows && id in after && after == rows[id := after[id]]
    ensures GenerationTaken(rows, g, k) ==> GenerationTaken(after, g, k)
  {
    if GenerationTaken(rows, g, k) {
      var j :| j in rows && rows[j].gateway == g && rows[j].generation == k;
      assert after[j] == rows[j];
    }
  }

  lemma ServeKeeps(s: State, op: Op)
    requires Outbox.Inv(s.rows) && OneQueued(s.rows) && Gapless(s.rows) && TodoClear(s) && !op.EnqueueOp?
    ensures var after := s.(rows := Apply(s.rows, op));
            OneQueued(after.rows) && Gapless(after.rows) && TodoClear(after)
  {
    hide Apply;
    var rows, after := s.rows, Apply(s.rows, op);
    if after != rows {
      var i := StepMovesOne(rows, op);
      assert forall j :: j in rows ==> after[j].gateway == rows[j].gateway && after[j].generation == rows[j].generation
                                       && (after[j].state == Queued ==> rows[j].state == Queued);
      forall j, k | j in after && 1 <= k <= after[j].generation
        ensures GenerationTaken(after, after[j].gateway, k)
      {
        assert GenerationTaken(rows, rows[j].gateway, k);
        var l :| l in rows && rows[l].gateway == rows[j].gateway && rows[l].generation == k;
        assert after[l].generation == k;
      }
    }
  }

  /** With one reconciler, starting from an empty outbox, a gateway never has two queued snapshots, and its
      generations run 1, 2, 3, … without gap or repetition. */
  lemma {:induction false} OneReconciler(steps: seq<Step>, n: nat)
    requires n <= |steps| && AllEnabled(State(map[], {}), steps)
    ensures var now := Run(State(map[], {}), steps, n);
            Outbox.Inv(now.rows) && OneQueued(now.rows) && Gapless(now.rows) && TodoClear(now)
  {
    hide Outbox.Inv, OneQueued, Gapless, TodoClear, Apply, Enqueue;
    if n == 0 {
      EmptyFine();
    } else {
      OneReconciler(steps, n - 1);
      var before := Run(State(map[], {}), steps, n - 1);
      assert Enabled(before, steps[n - 1]);
      match steps[n - 1]
      case ListGateways(listed) => ListKeeps(before, listed);
      case Publish(g, id, generation, snapshot, now) =>
        EnqueueOk(before.rows, id, g, generation, snapshot, now);
        PublishKeeps(before, g, id, generation, snapshot, now);
      case Serve(op) =>
        StepRows(before.rows, op);
        ServeKeeps(before, op);
    }
  }

  lemma EmptyFine()
    ensures Outbox.Inv(map[]) && OneQueued(map[]) && Gapless(map[]) && TodoClear(State(map[], {}))
  {
  }

  lemma ListKeeps(s: State, listed: set<Id>)
    requires Enabled(s, ListGateways(listed))
    ensures TodoClear(s.(todo := listed))
  {
  }
}
