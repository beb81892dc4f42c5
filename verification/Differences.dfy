/** The difference of two peer maps is one determined list: any map iteration order gives the same
    operations, and a key-consistent observed map gives one operation per differing key, in key order
    (services/api/internal/agent/snapshot.go:105-135). */
module Differences {
  import opened Wrappers
  import opened Base64
  import opened Ordering
  import opened Snapshots

  /** Operations the comparator cannot tell apart are equal. */
  ghost predicate Coherent(ops: seq<Operation>)
  {
    forall p, q :: p in ops && q in ops && !Before(p, q) && !Before(q, p) ==> p == q
  }

  lemma HeadsAgree(a: seq<Operation>, b: seq<Operation>)
    requires Ordered(a) && Ordered(b) && Coherent(a)
    requires |a| > 0 && |b| > 0 && a[0] in b && b[0] in a
    ensures a[0] == b[0]
  {
    var i :| 0 <= i < |b| && b[i] == a[0];
    var j :| 0 <= j < |a| && a[j] == b[0];
    BeforeTransitive(a[0], a[0], a[0]);
    assert i > 0 ==> !Before(b[i], b[0]);
    assert j > 0 ==> !Before(a[j], a[0]);
  }

  lemma TailOrdered(a: seq<Operation>)
    requires Ordered(a) && |a| > 0
    ensures Ordered(a[1..])
    ensures Coherent(a) ==> Coherent(a[1..])
  {
    hide Before;
    assert forall x :: x in a[1..] ==> x in a;
  }

  lemma TailMultiset(a: seq<Operation>)
    requires |a| > 0
    ensures multiset(a[1..]) == multiset(a) - multiset{a[0]}
  {
    assert a == [a[0]] + a[1..];
  }

  lemma {:induction false} OrderedUnique(a: seq<Operation>, b: seq<Operation>)
    requires Ordered(a) && Ordered(b) && Coherent(a)
    requires multiset(a) == multiset(b)
    ensures a == b
  {
    hide Ordered, Coherent;
    assert |multiset(a)| == |a| && |multiset(b)| == |b|;
    if |a| > 0 {
      assert a[0] in multiset(b) && b[0] in multiset(a);
      HeadsAgree(a, b);
      TailOrdered(a);
      TailOrdered(b);
      TailMultiset(a);
      TailMultiset(b);
      OrderedUnique(a[1..], b[1..]);
      assert a == [a[0]] + a[1..] && b == [b[0]] + b[1..];
    }
  }

  lemma EmittedHasKey(desired: map<string, Peer>, observed: map<string, Peer>, ops: seq<Operation>, op: Operation)
    returns (k: string)
    requires IsDiff(desired, observed, ops) && op in ops
    ensures (k in desired || k in observed) && OperationFor(desired, observed, k) == Some(op)
  {
    assert multiset(ops)[op] > 0;
    var keys := EmittingKeys(desired, observed, desired.Keys + observed.Keys, op);
    assert |keys| > 0;
    k :| k in keys;
  }

  /** Whatever order the maps were ranged over in, and whatever the observed map holds. */
  lemma DiffDeterministic(desired: map<string, Peer>, observed: map<string, Peer>, a: seq<Operation>, b: seq<Operation>)
    requires KeyConsistent(desired) && IsDiff(desired, observed, a) && IsDiff(desired, observed, b)
    ensures a == b
  {
    forall p, q | p in a && q in a && !Before(p, q) && !Before(q, p)
      ensures p == q
    {
      var k := EmittedHasKey(desired, observed, a, p);
      var l := EmittedHasKey(desired, observed, a, q);
      if p.peer.publicKey != q.peer.publicKey {
        LessTotal(p.peer.publicKey, q.peer.publicKey);
      }
    }
    forall op
      ensures multiset(a)[op] == multiset(b)[op]
    {
      assert multiset(a)[op] == |EmittingKeys(desired, observed, desired.Keys + observed.Keys, op)|;
    }
    OrderedUnique(a, b);
  }

  /** The keys on which the two maps disagree. */
  function DifferingKeys(desired: map<string, Peer>, observed: map<string, Peer>): set<string>
  {
    set k | k in desired.Keys + observed.Keys
            && !(k in desired && k in observed && SameAddresses(desired[k], observed[k]))
  }

  lemma DifferingKeysEmit(desired: map<string, Peer>, observed: map<string, Peer>, k: string)
    ensures k in DifferingKeys(desired, observed) <==> OperationFor(desired, observed, k).Some?
  {
  }

  /** The reference difference: walk the differing keys in order. */
  ghost function DiffOf(desired: map<string, Peer>, observed: map<string, Peer>): (ops: seq<Operation>)
    ensures |ops| == |DifferingKeys(desired, observed)|
  {
    var keys := SortedKeys(DifferingKeys(desired, observed));
    seq(|keys|, i requires 0 <= i < |keys| =>
      DifferingKeysEmit(desired, observed, keys[i]);
      assert keys[i] in keys;
      OperationFor(desired, observed, keys[i]).value)
  }

  lemma DiffOfAt(desired: map<string, Peer>, observed: map<string, Peer>)
    requires KeyConsistent(desired) && KeyConsistent(observed)
    ensures var keys, ops := SortedKeys(DifferingKeys(desired, observed)), DiffOf(desired, observed);
            |keys| == |ops| && forall i :: 0 <= i < |ops| ==>
              ops[i].peer.publicKey == keys[i] && OperationFor(desired, observed, keys[i]) == Some(ops[i])
  {
    var keys := SortedKeys(DifferingKeys(desired, observed));
    forall i | 0 <= i < |keys|
      ensures OperationFor(desired, observed, keys[i]).Some?
    {
      assert keys[i] in keys;
      DifferingKeysEmit(desired, observed, keys[i]);
    }
  }

  lemma {:induction false} CountInDistinct<T>(s: seq<T>, x: T)
    requires forall i, j :: 0 <= i < j < |s| ==> s[i] != s[j]
    ensures multiset(s)[x] == if x in s then 1 else 0
  {
    if |s| > 0 {
      assert s == [s[0]] + s[1..];
      CountInDistinct(s[1..], x);
    }
  }

  lemma DiffOfSorted(desired: map<string, Peer>, observed: map<string, Peer>)
    requires KeyConsistent(desired) && KeyConsistent(observed)
    ensures var ops := DiffOf(desired, observed);
            forall i, j :: 0 <= i < j < |ops| ==> Less(ops[i].peer.publicKey, ops[j].peer.publicKey)
  {
    DiffOfAt(desired, observed);
  }

  lemma DiffOfIsDiff(desired: map<string, Peer>, observed: map<string, Peer>)
    requires KeyConsistent(desired) && KeyConsistent(observed)
    ensures IsDiff(desired, observed, DiffOf(desired, observed))
  {
    var ref := DiffOf(desired, observed);
    DiffOfSorted(desired, observed);
    forall i, j | 0 <= i < j < |ref|
      ensures !Before(ref[j], ref[i]) && ref[i] != ref[j]
    {
      LessIrreflexive(ref[i].peer.publicKey);
      LessTotal(ref[i].peer.publicKey, ref[j].peer.publicKey);
    }
    forall op
      ensures multiset(ref)[op] == |EmittingKeys(desired, observed, desired.Keys + observed.Keys, op)|
    {
      CountInDistinct(ref, op);
      DiffOfMembers(desired, observed, op);
    }
  }

  lemma DiffOfMembers(desired: map<string, Peer>, observed: map<string, Peer>, op: Operation)
    requires KeyConsistent(desired) && KeyConsistent(observed)
    ensures |EmittingKeys(desired, observed, desired.Keys + observed.Keys, op)| == if op in DiffOf(desired, observed)
        then 1 else 0
  {
    var keys := SortedKeys(DifferingKeys(desired, observed));
    DiffOfAt(desired, observed);
    var emitting := EmittingKeys(desired, observed, desired.Keys + observed.Keys, op);
    forall l | l in emitting
      ensures op in DiffOf(desired, observed) && l == op.peer.publicKey
    {
      DifferingKeysEmit(desired, observed, l);
      assert l in keys;
      var i :| 0 <= i < |keys| && keys[i] == l;
    }
    if op in DiffOf(desired, observed) {
      assert emitting == {op.peer.publicKey};
    } else {
      assert emitting == {};
    }
  }

  /** Minimality: for a key-consistent observed map the difference is exactly one operation per differing
      key, in strictly increasing key order; in particular it is empty iff the maps agree. */
  lemma DiffMinimal(desired: map<string, Peer>, observed: map<string, Peer>, ops: seq<Operation>)
    requires KeyConsistent(desired) && KeyConsistent(observed) && IsDiff(desired, observed, ops)
    ensures ops == DiffOf(desired, observed)
    ensures |ops| == |DifferingKeys(desired, observed)|
    ensures forall i, j :: 0 <= i < j < |ops| ==> Less(ops[i].peer.publicKey, ops[j].peer.publicKey)
  {
    DiffOfIsDiff(desired, observed);
    DiffDeterministic(desired, observed, ops, DiffOf(desired, observed));
    DiffOfSorted(desired, observed);
  }

  /** What the difference holds: an addition for each new key, an update for each key whose addresses are written
      differently, a removal without addresses for each key that is gone, and nothing else. */
  lemma DiffOperationsExactly(desired: map<string, Peer>, observed: map<string, Peer>, op: Operation)
    requires KeyConsistent(desired) && KeyConsistent(observed)
    ensures var k := op.peer.publicKey;
            op in DiffOf(desired, observed) <==>
            match op.kind
            case Add => k in desired && k !in observed && op.peer == desired[k]
            case Update => k in desired && k in observed && op.peer == desired[k]
              && (desired[k].ipv4 != observed[k].ipv4 || desired[k].ipv6 != observed[k].ipv6)
            case Remove => k !in desired && k in observed && op.peer == Peer(k, Unparsable(""), Unparsable(""))
  {
    var k := op.peer.publicKey;
    var emitting := EmittingKeys(desired, observed, desired.Keys + observed.Keys, op);
    DiffOfMembers(desired, observed, op);
    hide DiffOf;
    assert forall l :: l in emitting ==> l == k;
    if OperationFor(desired, observed, k) == Some(op) {
      assert k in emitting;
    } else {
      assert emitting == {};
    }
  }

  function KindText(kind: Kind): string
  {
    match kind case Add => "add" case Update => "update" case Remove => "remove"
  }

  /** Operations of one key come in the order of their kinds' names. */
  lemma KindsInOrder(a: Operation, b: Operation)
    requires a.peer.publicKey == b.peer.publicKey
    ensures Before(a, b) <==> Less(KindText(a.kind), KindText(b.kind))
  {
    var x, y := KindText(a.kind), KindText(b.kind);
    LessIrreflexive(x);
    if x != y {
      LessTotal(x, y);
    }
    assert Less("add", "remove") && Less("add", "update") && Less("remove", "update");
  }
}
