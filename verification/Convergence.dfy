/** What running a difference through the backend does to the peer table: safety of every intermediate
    table, and the exact condition under which the table becomes the desired one
    (services/api/internal/agent/snapshot.go:105-135, services/api/internal/agent/wireguard.go:27-41). */
module Convergence {
  import opened Wrappers
  import opened Base64
  import opened Ordering
  import opened Snapshots
  import opened Differences
  import opened WireGuard

  ghost function Final(desired: map<string, Peer>, observed: map<string, Peer>, t: Table): Table
  {
    var ops := DiffOf(desired, observed);
    After(t, ops, |ops|)
  }

  /** The table agrees with the desired peers on every key the difference is silent about,
      up to addresses that its own operations take away. */
  ghost predicate Restorable(desired: map<string, Peer>, observed: map<string, Peer>, t: Table)
  {
    var keys := DifferingKeys(desired, observed);
    forall k | k !in keys ::
      (k in t <==> k in desired) && (k in t ==> t[k] - Reassigned(desired, keys) == Owned(desired[k]))
  }

  lemma FinalPointwise(desired: map<string, Peer>, observed: map<string, Peer>, t: Table, k: string)
    requires KeyConsistent(desired) && KeyConsistent(observed) && DistinctOwners(desired)
    ensures PointwiseFor(t, desired, DifferingKeys(desired, observed), Final(desired, observed, t), k)
  {
    var ops := DiffOf(desired, observed);
    DiffRealises(desired, observed);
    AfterPointwise(t, desired, ops, |ops|, k);
    assert ops[..|ops|] == ops;
  }

  lemma TableExclusiveExactly(peers: map<string, Peer>)
    ensures Exclusive(TableOf(peers)) <==> DistinctOwners(peers)
  {
    if Exclusive(TableOf(peers)) {
      forall k, l, a | k in peers && l in peers && a in Owned(peers[k]) && a in Owned(peers[l])
        ensures k == l
      {
        assert a in TableOf(peers)[k] && a in TableOf(peers)[l];
      }
    }
  }

  /** The exact condition for convergence, for every table that gives each address one owner. */
  lemma ConvergesExactly(desired: map<string, Peer>, observed: map<string, Peer>, t: Table)
    requires KeyConsistent(desired) && KeyConsistent(observed) && Exclusive(t)
    ensures Final(desired, observed, t) == TableOf(desired) <==>
            DistinctOwners(desired) && Restorable(desired, observed, t)
  {
    var keys, final := DifferingKeys(desired, observed), Final(desired, observed, t);
    AfterExclusive(t, DiffOf(desired, observed), |DiffOf(desired, observed)|);
    TableExclusiveExactly(desired);
    if DistinctOwners(desired) {
      forall k { FinalPointwise(desired, observed, t, k); }
      if Restorable(desired, observed, t) {
        forall k
          ensures k in final <==> k in desired
          ensures k in final ==> final[k] == TableOf(desired)[k]
        {
          assert PointwiseFor(t, desired, keys, final, k);
        }
      } else {
        var k :| k !in keys
          && !((k in t <==> k in desired) && (k in t ==> t[k] - Reassigned(desired, keys) == Owned(desired[k])));
        assert PointwiseFor(t, desired, keys, final, k);
        assert k in desired ==> TableOf(desired)[k] == Owned(desired[k]);
      }
    }
  }

  /** The table that the worker believes in is restorable. */
  lemma ObservedRestorable(desired: map<string, Peer>, observed: map<string, Peer>)
    requires DistinctOwners(desired)
    ensures Restorable(desired, observed, TableOf(observed))
  {
    var keys := DifferingKeys(desired, observed);
    forall k | k !in keys
      ensures (k in observed <==> k in desired)
          && (k in observed ==> TableOf(observed)[k] - Reassigned(desired, keys) == Owned(desired[k]))
    {
      if k in observed && k in desired {
        assert Owned(observed[k]) == Owned(desired[k]);
      }
    }
  }

  /** So is the table that already is the desired one, whatever the worker believes. */
  lemma DesiredRestorable(desired: map<string, Peer>, observed: map<string, Peer>)
    requires DistinctOwners(desired)
    ensures Restorable(desired, observed, TableOf(desired))
  {
  }

  /** Applying any part of the difference keeps a restorable table restorable: retrying is sound after a failure. */
  lemma PrefixRestorable(desired: map<string, Peer>, observed: map<string, Peer>, t: Table, n: nat)
    requires KeyConsistent(desired) && KeyConsistent(observed) && DistinctOwners(desired)
    requires Restorable(desired, observed, t)
    requires n <= |DiffOf(desired, observed)|
    ensures Restorable(desired, observed, After(t, DiffOf(desired, observed), n))
  {
    var ops, keys := DiffOf(desired, observed), DifferingKeys(desired, observed);
    var now, touched := After(t, ops, n), KeysOf(ops[..n]);
    DiffRealises(desired, observed);
    assert forall op :: op in ops[..n] ==> op in ops;
    assert touched <= keys;
    assert Reassigned(desired, touched) <= Reassigned(desired, keys);
    forall k | k !in keys
      ensures (k in now <==> k in desired) && (k in now ==> now[k] - Reassigned(desired, keys) == Owned(desired[k]))
    {
      AfterPointwise(t, desired, ops, n, k);
      if k in now {
        TwiceReduced(t[k], Reassigned(desired, touched), Reassigned(desired, keys));
      }
    }
  }

  lemma TwiceReduced(a: set<Address>, b: set<Address>, c: set<Address>)
    requires b <= c
    ensures a - b - c == a - c
  {
  }

  /** A restarted worker believes in nothing: it converges iff the table holds no key outside the snapshot. */
  lemma RestartConvergesExactly(desired: map<string, Peer>, t: Table)
    requires KeyConsistent(desired) && Exclusive(t) && DistinctOwners(desired)
    ensures Final(desired, map[], t) == TableOf(desired) <==> t.Keys <= desired.Keys
  {
    ConvergesExactly(desired, map[], t);
    assert DifferingKeys(desired, map[]) == desired.Keys;
    assert forall k :: k in t.Keys <==> k in t;
  }

  /** Starting from the table the worker believes in, every intermediate table keeps the unchanged peers
      intact, never gives an address two owners, and holds nothing but observed and desired addresses,
      each under its own key. */
  lemma IntermediateSafe(desired: map<string, Peer>, observed: map<string, Peer>, n: nat)
    requires KeyConsistent(desired) && KeyConsistent(observed)
    requires DistinctOwners(desired) && DistinctOwners(observed)
    requires n <= |DiffOf(desired, observed)|
    ensures var now := After(TableOf(observed), DiffOf(desired, observed), n);
            && Exclusive(now)
            && (forall k :: k in desired && k in observed && SameAddresses(desired[k], observed[k]) ==>
                  k in now && now[k] == Owned(desired[k]))
            && (forall k :: k in now ==> k in observed || k in desired)
            && (forall k, a :: k in now && a in now[k] ==>
                  (k in observed && a in Owned(observed[k])) || (k in desired && a in Owned(desired[k])))
  {
    hide DiffOf, After;
    var ops := DiffOf(desired, observed);
    var t := TableOf(observed);
    var now, touched := After(t, ops, n), KeysOf(ops[..n]);
    TableExclusiveExactly(observed);
    AfterExclusive(t, ops, n);
    DiffRealises(desired, observed);
    assert forall op :: op in ops[..n] ==> op in ops;
    assert touched <= KeysOf(ops);
    forall k
      ensures k in now ==> k in observed || k in desired
      ensures forall a :: k in now && a in now[k] ==>
                (k in observed && a in Owned(observed[k])) || (k in desired && a in Owned(desired[k]))
      ensures k in desired && k in observed && SameAddresses(desired[k], observed[k]) ==>
          k in now && now[k] == Owned(desired[k])
    {
      AfterPointwise(t, desired, ops, n, k);
      if k in desired && k in observed && SameAddresses(desired[k], observed[k]) {
        assert k !in touched;
        assert t[k] - Reassigned(desired, touched) == Owned(desired[k]);
      }
    }
  }

  // ---- Which operations the backend accepts ----

  /** Every operation of a difference can be turned into a command, so within the length limit only a
      failing command can stop the run. */
  lemma DiffAccepted(interfaceName: string, desired: map<string, Peer>, observed: map<string, Peer>, fault: Fault)
    requires ValidInterfaceName(interfaceName)
    requires KeyConsistent(desired) && KeyConsistent(observed)
    requires forall k :: k in desired ==> WellFormedPeer(desired[k])
    requires forall k :: k in observed ==> ValidPublicKey(k)
    ensures Succeeds(interfaceName, DiffOf(desired, observed), fault) <==>
            |DifferingKeys(desired, observed)| <= MAX_PEERS
            && (fault.FailsAt? ==> fault.command >= |DifferingKeys(desired, observed)|)
  {
    hide Accepted, ValidPublicKey, DifferingKeys, DiffOf;
    var ops := DiffOf(desired, observed);
    AllOperationsAccepted(interfaceName, desired, observed);
    AllAcceptedEach(interfaceName, ops, |ops|);
  }

  lemma AllOperationsAccepted(interfaceName: string, desired: map<string, Peer>, observed: map<string, Peer>)
    requires ValidInterfaceName(interfaceName)
    requires KeyConsistent(desired) && KeyConsistent(observed)
    requires forall k :: k in desired ==> WellFormedPeer(desired[k])
    requires forall k :: k in observed ==> ValidPublicKey(k)
    ensures var ops := DiffOf(desired, observed); forall i :: 0 <= i < |ops| ==> Accepted(interfaceName, ops[i])
  {
    hide Accepted, ValidPublicKey, OperationFor;
    var ops := DiffOf(desired, observed);
    DiffOfAt(desired, observed);
    forall i | 0 <= i < |ops|
      ensures Accepted(interfaceName, ops[i])
    {
      EmittedAccepted(interfaceName, desired, observed, SortedKeys(DifferingKeys(desired, observed))[i]);
    }
  }

  lemma EmittedAccepted(interfaceName: string, desired: map<string, Peer>, observed: map<string, Peer>, k: string)
    requires ValidInterfaceName(interfaceName)
    requires KeyConsistent(desired) && KeyConsistent(observed)
    requires k in desired ==> WellFormedPeer(desired[k])
    requires k in observed ==> ValidPublicKey(k)
    requires OperationFor(desired, observed, k).Some?
    ensures Accepted(interfaceName, OperationFor(desired, observed, k).value)
  {
    hide ValidPublicKey;
  }

  // ---- Distinct texts and distinct addresses ----

  /** Address texts as the database prints them. */
  predicate Canonical(peers: seq<Peer>)
  {
    forall p :: p in peers ==> p.ipv6.Parsed? && p.ipv6.spelling == 0
  }

  lemma OnlyIPv6Shared(p: Peer, q: Peer, a: Address)
    requires WellFormedPeer(p) && WellFormedPeer(q) && Apart(p, q)
    ensures a in Owned(p) && a in Owned(q) <==> a == p.ipv6.address == q.ipv6.address
  {
    hide ValidPublicKey;
  }

  /** Two entries of a valid list share an address exactly when it is their IPv6 address under two texts. */
  lemma EntriesShareExactly(peers: seq<Peer>, i: nat, j: nat, a: Address)
    requires ValidPeers(peers) && i < j < |peers|
    ensures peers[i].ipv6.Parsed? && peers[j].ipv6.Parsed?
    ensures a in Owned(peers[i]) && a in Owned(peers[j]) <==> a == peers[i].ipv6.address == peers[j].ipv6.address
  {
    hide ValidPublicKey, Apart, Owned;
    assert WellFormedPeer(peers[i]) && WellFormedPeer(peers[j]) && Apart(peers[i], peers[j]);
    OnlyIPv6Shared(peers[i], peers[j], a);
  }

  ghost predicate IPv6Apart(peers: seq<Peer>)
  {
    forall i, j :: 0 <= i < j < |peers| && peers[i].ipv6.Parsed? && peers[j].ipv6.Parsed? ==>
                     peers[i].ipv6.address != peers[j].ipv6.address
  }

  /** Validation compares texts. It separates the addresses themselves exactly when no IPv6 address comes twice. */
  lemma ValidDistinctExactly(peers: seq<Peer>)
    requires ValidPeers(peers)
    ensures DistinctOwners(ByKey(peers)) <==> IPv6Apart(peers)
  {
    hide ValidPeers, ByKey, Owned;
    ByKeyConsistent(peers);
    forall i: nat, j: nat | i < j < |peers|
      ensures peers[i].publicKey != peers[j].publicKey
    {
      EntryKeysDiffer(peers, i, j);
    }
    ByKeyComplete(peers);
    var m := ByKey(peers);
    if IPv6Apart(peers) {
      forall k, l, a | k in m && l in m && a in Owned(m[k]) && a in Owned(m[l])
        ensures k == l
      {
        var i: nat :| i < |peers| && peers[i] == m[k];
        var j: nat :| j < |peers| && peers[j] == m[l];
        if i < j {
          EntriesShareExactly(peers, i, j, a);
        } else if j < i {
          EntriesShareExactly(peers, j, i, a);
        }
      }
    }
    forall i: nat, j: nat | i < j < |peers| && peers[i].ipv6.Parsed?
      ensures DistinctOwners(m) && peers[j].ipv6.Parsed? ==> peers[i].ipv6.address != peers[j].ipv6.address
    {
      EntriesShareExactly(peers, i, j, peers[i].ipv6.address);
    }
  }

  lemma EntryKeysDiffer(peers: seq<Peer>, i: nat, j: nat)
    requires ValidPeers(peers) && i < j < |peers|
    ensures peers[i].publicKey != peers[j].publicKey
  {
    hide WellFormedPeer;
    assert Apart(peers[i], peers[j]);
  }

  /** Canonical texts are apart whenever the addresses are. */
  lemma CanonicalDistinct(peers: seq<Peer>)
    requires ValidPeers(peers) && Canonical(peers)
    ensures DistinctOwners(ByKey(peers))
  {
    hide ByKey, DistinctOwners, ValidPublicKey;
    ValidDistinctExactly(peers);
    forall i, j | 0 <= i < j < |peers|
      ensures peers[i].ipv6.Parsed? && peers[j].ipv6.Parsed? && peers[i].ipv6.address != peers[j].ipv6.address
    {
      assert Apart(peers[i], peers[j]) && WellFormedPeer(peers[i]) && WellFormedPeer(peers[j]);
    }
  }

  /** Without canonical IPv6 texts validation is not enough: two spellings of one address pass it, and the
      gateway then cannot hold both peers. */
  lemma SpellingsDefeatValidation(key1: string, key2: string, v1: nat, v2: nat, w: nat)
    requires ValidPublicKey(key1) && ValidPublicKey(key2) && key1 != key2
    requires v1 < IPV4_LIMIT && v2 < IPV4_LIMIT && v1 != v2 && w < IPV6_LIMIT
    ensures var peers := [Peer(key1, Parsed(V4(v1), 32, 0), Parsed(V6(w), 128, 0)),
                          Peer(key2, Parsed(V4(v2), 32, 0), Parsed(V6(w), 128, 1))];
            ValidPeers(peers) && forall t | Exclusive(t) :: Final(ByKey(peers), map[], t) != TableOf(ByKey(peers))
  {
    hide ValidPublicKey;
    var p1 := Peer(key1, Parsed(V4(v1), 32, 0), Parsed(V6(w), 128, 0));
    var p2 := Peer(key2, Parsed(V4(v2), 32, 0), Parsed(V6(w), 128, 1));
    var peers := [p1, p2];
    ByKeyConsistent(peers);
    ByKeyComplete(peers);
    assert p1 in peers && p2 in peers;
    var m := ByKey(peers);
    assert V6(w) in Owned(m[key1]) && V6(w) in Owned(m[key2]);
    assert !DistinctOwners(m);
    forall t | Exclusive(t)
      ensures Final(m, map[], t) != TableOf(m)
    {
      ConvergesExactly(m, map[], t);
    }
  }
}
