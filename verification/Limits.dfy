/** The backend's operation limit against the snapshot's peer limit, at concrete peer lists of every length
    (services/api/internal/agent/snapshot.go:52, services/api/internal/agent/wireguard.go:28). */
module Limits {
  import opened Wrappers
  import opened Base64
  import opened Snapshots
  import opened Differences
  import opened WireGuard
  import opened Convergence

  /** 32 bytes that spell k. */
  function KeyBytes(k: nat): (bytes: seq<Byte>)
    requires k < IPV4_LIMIT
    ensures |bytes| == 32
  {
    [k / 0x100_0000, k / 0x1_0000 % 0x100, k / 0x100 % 0x100, k % 0x100] + seq(28, i => 0)
  }

  function NumberedPeer(k: nat): Peer
    requires k < IPV4_LIMIT
  {
    Peer(Encode(STD, KeyBytes(k)), Parsed(V4(k), 32, 0), Parsed(V6(k), 128, 0))
  }

  /** n peers, from number first on. */
  function NumberedPeers(first: nat, n: nat): (peers: seq<Peer>)
    requires first + n <= IPV4_LIMIT
    ensures |peers| == n
  {
    seq(n, i requires 0 <= i < n => NumberedPeer(first + i))
  }

  lemma KeyBytesDistinct(j: nat, k: nat)
    requires j < IPV4_LIMIT && k < IPV4_LIMIT && KeyBytes(j) == KeyBytes(k)
    ensures j == k
  {
    var x, y := KeyBytes(j), KeyBytes(k);
    assert x[0] == y[0] && x[1] == y[1] && x[2] == y[2] && x[3] == y[3];
    FourBytes(j);
    FourBytes(k);
  }

  lemma FourBytes(k: nat)
    ensures k == k / 0x100_0000 * 0x100_0000 + k / 0x1_0000 % 0x100 * 0x1_0000 + k / 0x100 % 0x100 * 0x100 + k % 0x100
  {
    assert k / 0x1_0000 / 0x100 == k / 0x100_0000;
    assert k / 0x100 / 0x100 == k / 0x1_0000;
  }

  lemma KeysDistinct(j: nat, k: nat)
    requires j < IPV4_LIMIT && k < IPV4_LIMIT
    ensures NumberedPeer(j).publicKey == NumberedPeer(k).publicKey <==> j == k
  {
    hide Encode, Decode, KeyBytes;
    DecodeInverts(STD, KeyBytes(j));
    DecodeInverts(STD, KeyBytes(k));
    if KeyBytes(j) == KeyBytes(k) {
      KeyBytesDistinct(j, k);
    }
  }

  lemma NumberedWellFormed(k: nat)
    requires k < IPV4_LIMIT
    ensures WellFormedPeer(NumberedPeer(k))
  {
    hide Encode, KeyBytes, ValidPublicKey;
    ValidPublicKeyExactly(Encode(STD, KeyBytes(k)));
  }

  lemma NumberedValid(first: nat, n: nat)
    requires first + n <= IPV4_LIMIT
    ensures ValidPeers(NumberedPeers(first, n))
    ensures KeyConsistent(ByKey(NumberedPeers(first, n)))
    ensures forall k :: k in ByKey(NumberedPeers(first, n)) <==>
              exists i :: first <= i < first + n && NumberedPeer(i).publicKey == k
  {
    hide WellFormedPeer, NumberedPeer, ByKey;
    var peers := NumberedPeers(first, n);
    forall i | 0 <= i < n
      ensures WellFormedPeer(peers[i])
    {
      NumberedWellFormed(first + i);
    }
    forall i, j | 0 <= i < j < n
      ensures Apart(peers[i], peers[j])
    {
      NumberedApart(first + i, first + j);
    }
    ByKeyConsistent(peers);
    ByKeyComplete(peers);
    forall k
      ensures k in ByKey(peers) <==> exists i :: first <= i < first + n && NumberedPeer(i).publicKey == k
    {
      if k in ByKey(peers) {
        var i :| 0 <= i < n && peers[i] == ByKey(peers)[k];
        assert NumberedPeer(first + i).publicKey == k;
      }
      if i :| first <= i < first + n && NumberedPeer(i).publicKey == k {
        assert peers[i - first] in peers;
      }
    }
  }

  lemma NumberedApart(j: nat, k: nat)
    requires j < IPV4_LIMIT && k < IPV4_LIMIT && j != k
    ensures Apart(NumberedPeer(j), NumberedPeer(k))
  {
    hide Encode, KeyBytes;
    KeysDistinct(j, k);
  }

  function NumberedKeys(first: nat, n: nat): set<string>
    requires first + n <= IPV4_LIMIT
  {
    set i | first <= i < first + n :: NumberedPeer(i).publicKey
  }

  lemma {:induction false} NumberedKeysSize(first: nat, n: nat)
    requires first + n <= IPV4_LIMIT
    ensures |NumberedKeys(first, n)| == n
  {
    hide NumberedPeer;
    if n > 0 {
      var last := first + n - 1;
      NumberedKeysSize(first, n - 1);
      assert NumberedKeys(first, n) == NumberedKeys(first, n - 1) + {NumberedPeer(last).publicKey};
      forall i | first <= i < last
        ensures NumberedPeer(i).publicKey != NumberedPeer(last).publicKey
      {
        KeysDistinct(i, last);
      }
    }
  }

  lemma DisjointListsDiffer(n: nat, m: nat)
    requires n + m <= IPV4_LIMIT
    ensures DifferingKeys(ByKey(NumberedPeers(n, m)), ByKey(NumberedPeers(0, n))) == NumberedKeys(0, n + m)
  {
    hide NumberedPeer, NumberedPeers, ByKey, SameAddresses;
    var desired, observed := ByKey(NumberedPeers(n, m)), ByKey(NumberedPeers(0, n));
    NumberedValid(n, m);
    NumberedValid(0, n);
    forall k
      ensures k in DifferingKeys(desired, observed) <==> k in NumberedKeys(0, n + m)
    {
      if k in desired && k in observed {
        var i :| n <= i < n + m && NumberedPeer(i).publicKey == k;
        var j :| 0 <= j < n && NumberedPeer(j).publicKey == k;
        KeysDistinct(i, j);
      }
    }
  }

  /** From n peers to m entirely different ones: both lists are valid, and the backend takes the change exactly when
      n + m operations are within its limit and no command fails. So two full snapshots are one too many. */
  lemma ReplacementAppliesExactly(interfaceName: string, n: nat, m: nat, fault: Fault)
    requires ValidInterfaceName(interfaceName) && n <= MAX_PEERS && m <= MAX_PEERS
    ensures var before, next := NumberedPeers(0, n), NumberedPeers(n, m);
            && ValidPeers(before) && ValidPeers(next) && |before| == n && |next| == m
            && (Succeeds(interfaceName, DiffOf(ByKey(next), ByKey(before)), fault) <==>
                n + m <= MAX_PEERS && (fault.FailsAt? ==> fault.command >= n + m))
  {
    hide NumberedPeer, NumberedPeers, ByKey, WellFormedPeer, DiffOf, Succeeds, DifferingKeys, NumberedKeys,
      ValidPublicKey;
    var before, next := NumberedPeers(0, n), NumberedPeers(n, m);
    NumberedValid(0, n);
    NumberedValid(n, m);
    DisjointListsDiffer(n, m);
    NumberedKeysSize(0, n + m);
    ByKeyConsistent(before);
    ByKeyConsistent(next);
    AllWellFormed(before);
    AllWellFormed(next);
    DiffAccepted(interfaceName, ByKey(next), ByKey(before), fault);
  }

  lemma AllWellFormed(peers: seq<Peer>)
    requires ValidPeers(peers)
    ensures forall p :: p in peers ==> WellFormedPeer(p) && ValidPublicKey(p.publicKey)
  {
    hide ValidPublicKey;
    forall p | p in peers
      ensures WellFormedPeer(p)
    {
      var i :| 0 <= i < |peers| && peers[i] == p;
    }
  }
}
