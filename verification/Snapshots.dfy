/** Signed gateway snapshots: validation, signature check, and the difference between two peer sets
    (services/api/internal/agent/snapshot.go). */
module Snapshots {
  import opened Wrappers
  import opened Base64
  import opened Ordering

  datatype Address = V4(value: int) | V6(value: int)

  /** A prefix text, seen as what ParsePrefix makes of it. An IPv6 prefix has many texts (groups compressed or written
      out, either case); spelling 0 is the canonical one. An IPv4 prefix has just that one, as leading zeros are
      refused. */
  datatype PrefixText = Unparsable(text: string) | Parsed(address: Address, bits: nat, spelling: nat)

  const NO_TEXT := Unparsable("")

  datatype Peer = Peer(publicKey: string, ipv4: PrefixText, ipv6: PrefixText)

  datatype Snapshot = Snapshot(gatewayId: string, generation: int, expiresAt: int, peers: seq<Peer>,
      signature: seq<Byte>)

  datatype Kind = Add | Update | Remove

  datatype Operation = Operation(kind: Kind, peer: Peer)

  const MAX_PEERS := 100000

  const IPV4_LIMIT := 0x1_0000_0000
  const IPV6_LIMIT := 0x1_0000_0000_0000_0000_0000_0000_0000_0000

  /** Instants are counted from Go's zero time. */
  const ZERO_TIME := 0

  const ED25519_KEY_SIZE := 32
  const ED25519_SIGNATURE_SIZE := 64

  predicate ValidHostPrefix(p: PrefixText, family: nat)
  {
    p.Parsed? &&
    match p.address
    case V4(v) => 0 <= v < IPV4_LIMIT && p.spelling == 0 && p.bits == 32 && family == 4
    case V6(v) => 0 <= v < IPV6_LIMIT && p.bits == 128 && family == 6
  }

  predicate WellFormedPeer(p: Peer)
  {
    ValidPublicKey(p.publicKey) && ValidHostPrefix(p.ipv4, 4) && ValidHostPrefix(p.ipv6, 6)
  }

  predicate Apart(p: Peer, q: Peer)
  {
    p.publicKey != q.publicKey && p.ipv4 != q.ipv4 && p.ipv6 != q.ipv6
  }

  predicate ValidPeers(peers: seq<Peer>)
  {
    && (forall i :: 0 <= i < |peers| ==> WellFormedPeer(peers[i]))
    && (forall i, j :: 0 <= i < j < |peers| ==> Apart(peers[i], peers[j]))
  }

  predicate ValidHeader(s: Snapshot, now: int, gatewayId: string)
  {
    s.gatewayId != "" && s.gatewayId == gatewayId && s.generation > 0 && s.expiresAt > now && |s.peers| <= MAX_PEERS
  }

  predicate Valid(s: Snapshot, now: int, gatewayId: string)
  {
    ValidHeader(s, now, gatewayId) && ValidPeers(s.peers)
  }

  lemma ValidPeersAppend(peers: seq<Peer>, p: Peer)
    ensures ValidPeers(peers + [p]) <==>
            ValidPeers(peers) && WellFormedPeer(p) && forall q :: q in peers ==> Apart(q, p)
  {
    var all := peers + [p];
    assert all[|peers|] == p;
    assert forall i :: 0 <= i < |peers| ==> all[i] == peers[i];
  }

  lemma ValidPeersPrefix(peers: seq<Peer>, n: nat)
    requires n <= |peers|
    ensures ValidPeers(peers) ==> ValidPeers(peers[..n])
  {
  }

  /** One pass with three sets of seen texts decides pairwise distinctness. */
  method Validate(s: Snapshot, now: int, gatewayId: string) returns (ok: bool)
    ensures ok <==> Valid(s, now, gatewayId)
  {
    if s.gatewayId == "" || s.gatewayId != gatewayId || s.generation <= 0 || s.expiresAt <= now {
      return false;
    }
    if |s.peers| > MAX_PEERS {
      return false;
    }
    ok := ValidatePeers(s.peers);
  }

  method ValidatePeers(peers: seq<Peer>) returns (ok: bool)
    ensures ok <==> ValidPeers(peers)
  {
    var seenKeys: set<string> := {};
    var seenIPv4: set<PrefixText> := {};
    var seenIPv6: set<PrefixText> := {};
    for n := 0 to |peers|
      invariant ValidPeers(peers[..n])
      invariant seenKeys == set q | q in peers[..n] :: q.publicKey
      invariant seenIPv4 == set q | q in peers[..n] :: q.ipv4
      invariant seenIPv6 == set q | q in peers[..n] :: q.ipv6
    {
      var peer := peers[n];
      assert peers[..n + 1] == peers[..n] + [peer];
      ValidPeersAppend(peers[..n], peer);
      if !WellFormedPeer(peer) || peer.publicKey in seenKeys || peer.ipv4 in seenIPv4 || peer.ipv6 in seenIPv6 {
        ValidPeersPrefix(peers, n + 1);
        return false;
      }
      seenKeys := seenKeys + {peer.publicKey};
      seenIPv4 := seenIPv4 + {peer.ipv4};
      seenIPv6 := seenIPv6 + {peer.ipv6};
    }
    assert peers[..|peers|] == peers;
    return true;
  }

  /** Ed25519 is an arbitrary check of (key, content, signature); the content is the snapshot without signature. */
  type SignatureCheck = (seq<Byte>, Snapshot, seq<Byte>) -> bool

  function Unsigned(s: Snapshot): Snapshot
  {
    s.(signature := [])
  }

  predicate Verified(s: Snapshot, now: int, gatewayId: string, key: seq<Byte>, check: SignatureCheck)
  {
    && Valid(s, now, gatewayId)
    && |key| == ED25519_KEY_SIZE && |s.signature| == ED25519_SIGNATURE_SIZE
    && check(key, Unsigned(s), s.signature)
  }

  /** The map a worker or Diff builds from a peer list: later entries overwrite earlier ones. */
  function ByKey(peers: seq<Peer>): (m: map<string, Peer>)
  {
    if |peers| == 0 then map[]
    else
      var last := peers[|peers| - 1];
      ByKey(peers[..|peers| - 1])[last.publicKey := last]
  }

  method IndexByKey(peers: seq<Peer>) returns (m: map<string, Peer>)
    ensures m == ByKey(peers)
  {
    m := map[];
    for n := 0 to |peers|
      invariant m == ByKey(peers[..n])
    {
      assert peers[..n + 1][..n] == peers[..n];
      m := m[peers[n].publicKey := peers[n]];
    }
    assert peers[..|peers|] == peers;
  }

  predicate KeyConsistent(m: map<string, Peer>)
  {
    forall k :: k in m ==> m[k].publicKey == k
  }

  lemma {:induction false} ByKeyConsistent(peers: seq<Peer>)
    ensures KeyConsistent(ByKey(peers))
    ensures forall k :: k in ByKey(peers) ==> ByKey(peers)[k] in peers
  {
    if |peers| > 0 {
      ByKeyConsistent(peers[..|peers| - 1]);
    }
  }

  /** With pairwise distinct keys nothing is overwritten. */
  lemma {:induction false} ByKeyComplete(peers: seq<Peer>)
    requires forall i, j :: 0 <= i < j < |peers| ==> peers[i].publicKey != peers[j].publicKey
    ensures forall p :: p in peers ==> p.publicKey in ByKey(peers) && ByKey(peers)[p.publicKey] == p
  {
    if |peers| > 0 {
      var n := |peers| - 1;
      var init := peers[..n];
      forall i, j | 0 <= i < j < |init|
        ensures init[i].publicKey != init[j].publicKey
      {
        assert init[i] == peers[i] && init[j] == peers[j];
      }
      ByKeyComplete(init);
      forall p | p in peers
        ensures p.publicKey in ByKey(peers) && ByKey(peers)[p.publicKey] == p
      {
        var i :| 0 <= i < |peers| && peers[i] == p;
        if i < n {
          assert init[i] == p;
        }
      }
    }
  }

  // ---- The difference of two peer maps ----

  predicate SameAddresses(p: Peer, q: Peer)
  {
    p.ipv4 == q.ipv4 && p.ipv6 == q.ipv6
  }

  /** What one key contributes to the difference. */
  function OperationFor(desired: map<string, Peer>, observed: map<string, Peer>, k: string): Option<Operation>
  {
    if k in desired then
      if k !in observed then Some(Operation(Add, desired[k]))
      else if !SameAddresses(observed[k], desired[k]) then Some(Operation(Update, desired[k]))
      else None
    else if k in observed then Some(Operation(Remove, Peer(observed[k].publicKey, NO_TEXT, NO_TEXT)))
    else None
  }

  function EmittingKeys(desired: map<string, Peer>, observed: map<string, Peer>, keys: set<string>,
      op: Operation): set<string>
  {
    set k | k in keys && OperationFor(desired, observed, k) == Some(op)
  }

  function KindRank(kind: Kind): nat
  {
    // the kinds are compared as the texts "add", "remove", "update"
    match kind case Add => 0 case Remove => 1 case Update => 2
  }

  predicate Before(a: Operation, b: Operation)
  {
    if a.peer.publicKey == b.peer.publicKey then KindRank(a.kind) < KindRank(b.kind)
    else Less(a.peer.publicKey, b.peer.publicKey)
  }

  ghost predicate Ordered(ops: seq<Operation>)
  {
    forall i, j :: 0 <= i < j < |ops| ==> !Before(ops[j], ops[i])
  }

  /** Every differing key is emitted once, nothing else is, and the list is in comparator order. */
  ghost predicate IsDiff(desired: map<string, Peer>, observed: map<string, Peer>, ops: seq<Operation>)
  {
    Ordered(ops) && EmittedFor(desired, observed, desired.Keys + observed.Keys, ops)
  }

  function Emitted(desired: map<string, Peer>, observed: map<string, Peer>, k: string): seq<Operation>
  {
    match OperationFor(desired, observed, k) case None => [] case Some(op) => [op]
  }

  ghost predicate EmittedFor(desired: map<string, Peer>, observed: map<string, Peer>, done: set<string>,
      ops: seq<Operation>)
  {
    forall op {:trigger EmittingKeys(desired, observed, done, op)} ::
      multiset(ops)[op] == |EmittingKeys(desired, observed, done, op)|
  }

  lemma EmitOneMore(desired: map<string, Peer>, observed: map<string, Peer>, done: set<string>, ops: seq<Operation>,
      k: string)
    requires EmittedFor(desired, observed, done, ops) && k !in done
    ensures EmittedFor(desired, observed, done + {k}, ops + Emitted(desired, observed, k))
  {
    var more := Emitted(desired, observed, k);
    forall op
      ensures multiset(ops + more)[op] == |EmittingKeys(desired, observed, done + {k}, op)|
    {
      var before := EmittingKeys(desired, observed, done, op);
      assert multiset(ops + more) == multiset(ops) + multiset(more);
      if OperationFor(desired, observed, k) == Some(op) {
        assert EmittingKeys(desired, observed, done + {k}, op) == before + {k};
      } else {
        assert EmittingKeys(desired, observed, done + {k}, op) == before;
      }
    }
  }

  method SortOperations(ops: seq<Operation>) returns (sorted: seq<Operation>)
    ensures Ordered(sorted) && multiset(sorted) == multiset(ops)
  {
    sorted := [];
    for n := 0 to |ops|
      invariant Ordered(sorted) && multiset(sorted) == multiset(ops[..n])
    {
      sorted := InsertOperation(sorted, ops[n]);
      assert ops[..n + 1] == ops[..n] + [ops[n]];
    }
    assert ops[..|ops|] == ops;
  }

  lemma BeforeTransitive(a: Operation, b: Operation, c: Operation)
    ensures !Before(b, a) && !Before(c, b) ==> !Before(c, a)
    ensures Before(a, b) ==> !Before(b, a)
  {
    var x, y, z := a.peer.publicKey, b.peer.publicKey, c.peer.publicKey;
    if x != y { LessTotal(x, y); }
    if y != z { LessTotal(y, z); }
    if x != z { LessTotal(x, z); }
    if Less(z, x) && Less(x, y) { LessTransitive(z, x, y); }
    if Less(y, z) && Less(z, x) { LessTransitive(y, z, x); }
  }

  lemma InsertKeepsOrder(front: seq<Operation>, op: Operation, back: seq<Operation>)
    requires Ordered(front + back)
    requires forall x :: x in front ==> !Before(op, x)
    requires forall x :: x in back ==> !Before(x, op)
    ensures Ordered(front + [op] + back)
  {
    var all, r := front + back, front + [op] + back;
    var n := |front|;
    forall i, j | 0 <= i < j < |r|
      ensures !Before(r[j], r[i])
    {
      assert i < n ==> r[i] == all[i] && r[i] in front;
      assert j > n ==> r[j] == all[j - 1] && r[j] in back;
      assert i > n ==> r[i] == all[i - 1];
      assert j < n ==> r[j] == all[j];
    }
  }

  method InsertOperation(sorted: seq<Operation>, op: Operation) returns (r: seq<Operation>)
    requires Ordered(sorted)
    ensures Ordered(r) && multiset(r) == multiset(sorted) + multiset{op}
  {
    var n := |sorted|;
    while n > 0 && Before(op, sorted[n - 1])
      invariant 0 <= n <= |sorted|
      invariant forall x :: x in sorted[n..] ==> !Before(x, op)
    {
      BeforeTransitive(op, sorted[n - 1], op);
      n := n - 1;
      assert sorted[n..] == [sorted[n]] + sorted[n + 1..];
    }
    forall x | x in sorted[..n]
      ensures !Before(op, x)
    {
      BeforeTransitive(x, sorted[n - 1], op);
    }
    assert sorted == sorted[..n] + sorted[n..];
    InsertKeepsOrder(sorted[..n], op, sorted[n..]);
    r := sorted[..n] + [op] + sorted[n..];
  }

  /** Compute the operations that turn the observed peers into the desired ones. */
  method Diff(desired: Snapshot, observed: map<string, Peer>) returns (r: Result<seq<Operation>, ()>)
    ensures r.Ok? <==> Valid(desired, ZERO_TIME, desired.gatewayId)
    ensures r.Ok? ==> IsDiff(ByKey(desired.peers), observed, r.value)
  {
    var ok := Validate(desired, ZERO_TIME, desired.gatewayId);
    if !ok {
      return Err(());
    }
    var desiredByKey := IndexByKey(desired.peers);
    var operations := EmitDesired(desiredByKey, observed);
    operations := EmitRemovals(desiredByKey, observed, operations);
    var sorted := SortOperations(operations);
    return Ok(sorted);
  }

  /** Range over the desired map in any order. */
  method EmitDesired(desired: map<string, Peer>, observed: map<string, Peer>) returns (ops: seq<Operation>)
    ensures EmittedFor(desired, observed, desired.Keys, ops)
  {
    ops := [];
    var left := desired.Keys;
    ghost var done: set<string> := {};
    while left != {}
      invariant left !! done && left + done == desired.Keys
      invariant EmittedFor(desired, observed, done, ops)
      decreases |left|
    {
      var key :| key in left;
      EmitOneMore(desired, observed, done, ops, key);
      if key !in observed {
        ops := ops + [Operation(Add, desired[key])];
      } else if !SameAddresses(observed[key], desired[key]) {
        ops := ops + [Operation(Update, desired[key])];
      } else {
        assert ops + [] == ops;
      }
      left, done := left - {key}, done + {key};
    }
    assert done == desired.Keys;
  }

  /** Range over the observed map in any order. */
  method EmitRemovals(desired: map<string, Peer>, observed: map<string, Peer>, before: seq<Operation>)
    returns (ops: seq<Operation>)
    requires EmittedFor(desired, observed, desired.Keys, before)
    ensures EmittedFor(desired, observed, desired.Keys + observed.Keys, ops)
  {
    ops := before;
    var left := observed.Keys;
    ghost var done := desired.Keys;
    while left != {}
      invariant forall k :: k in left ==> k in observed
      invariant forall k :: k in done <==> k in desired || (k in observed && k !in left)
      invariant EmittedFor(desired, observed, done, ops)
      decreases |left|
    {
      var key :| key in left;
      ops := EmitRemoval(desired, observed, done, ops, key);
      left, done := left - {key}, done + {key};
    }
    assert done == desired.Keys + observed.Keys;
  }

  method EmitRemoval(desired: map<string, Peer>, observed: map<string, Peer>, ghost done: set<string>,
                     before: seq<Operation>, key: string)
    returns (ops: seq<Operation>)
    requires key in observed && (key in done <==> key in desired)
    requires EmittedFor(desired, observed, done, before)
    ensures EmittedFor(desired, observed, done + {key}, ops)
  {
    if key !in desired {
      EmitOneMore(desired, observed, done, before, key);
      ops := before + [Operation(Remove, Peer(observed[key].publicKey, NO_TEXT, NO_TEXT))];
    } else {
      assert done + {key} == done;
      ops := before;
    }
  }
}
