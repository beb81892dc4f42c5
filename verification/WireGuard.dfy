/** The gateway's peer table and the backend that edits it one command at a time
    (services/api/internal/agent/wireguard.go). Cryptokey routing: an address has one owner, and
    assigning it to a peer takes it from its previous owner (section 2 of the WireGuard paper). */
module WireGuard {
  import opened Wrappers
  import opened Base64
  import opened Ordering
  import opened Snapshots
  import opened Differences

  /** Peer key to allowed addresses. */
  type Table = map<string, set<Address>>

  function AddressesIn(text: PrefixText): set<Address>
  {
    if text.Parsed? then {text.address} else {}
  }

  function Owned(p: Peer): set<Address>
  {
    AddressesIn(p.ipv4) + AddressesIn(p.ipv6)
  }

  function TableOf(peers: map<string, Peer>): Table
  {
    map k | k in peers :: Owned(peers[k])
  }

  ghost predicate Exclusive(t: Table)
  {
    forall k, l, a :: k in t && l in t && a in t[k] && a in t[l] ==> k == l
  }

  /** `wg set … allowed-ips` replaces the peer's list; `remove` of an absent peer does nothing. */
  function Effect(t: Table, op: Operation): Table
  {
    var key := op.peer.publicKey;
    if op.kind == Remove then map k | k in t && k != key :: t[k]
    else (map k | k in t :: t[k] - Owned(op.peer))[key := Owned(op.peer)]
  }

  predicate ValidInterfaceName(name: string)
  {
    name != "" && forall c :: c in name ==>
      'a' <= c <= 'z' || 'A' <= c <= 'Z' || '0' <= c <= '9' || c == '_' || c == '-'
  }

  /** When the command line for an operation is built at all. */
  predicate Accepted(interfaceName: string, op: Operation)
  {
    && ValidInterfaceName(interfaceName)
    && ValidPublicKey(op.peer.publicKey)
    && match op.kind
       case Remove => op.peer.ipv4 == NO_TEXT && op.peer.ipv6 == NO_TEXT
       case _ => ValidHostPrefix(op.peer.ipv4, 4) && ValidHostPrefix(op.peer.ipv6, 6)
  }

  lemma NameCharacters(name: string)
    ensures ValidInterfaceName(name) <==>
            name != "" && forall c :: c in name ==> c in UPPER || c in LOWER || c in DECIMAL || c == '_' || c == '-'
  {
    forall c
      ensures (c in UPPER <==> 'A' <= c <= 'Z') && (c in LOWER <==> 'a' <= c <= 'z')
      ensures c in DECIMAL <==> '0' <= c <= '9'
    {
      UpperCase(c);
      LowerCase(c);
      DecimalDigit(c);
    }
  }

  /** A text of a /32 IPv4 or a /128 IPv6 prefix. */
  ghost predicate HostTexts(ipv4: PrefixText, ipv6: PrefixText)
  {
    && (exists v :: 0 <= v < 0x1_0000_0000 && ipv4 == Parsed(V4(v), 32, 0))
    && (exists v, k :: 0 <= v < 0x1_0000_0000_0000_0000_0000_0000_0000_0000 && ipv6 == Parsed(V6(v), 128, k))
  }

  lemma HostTextsExactly(p: PrefixText, q: PrefixText)
    ensures ValidHostPrefix(p, 4) && ValidHostPrefix(q, 6) <==> HostTexts(p, q)
  {
    if ValidHostPrefix(p, 4) && ValidHostPrefix(q, 6) {
      assert p == Parsed(V4(p.address.value), 32, 0);
      assert q == Parsed(V6(q.address.value), 128, q.spelling);
    }
  }

  /** The operations a command line is built for: an interface named in letters, digits, underscores and hyphens, a key
      that encodes 32 bytes, one address of each family to set and blank texts to remove. */
  lemma AcceptedExactly(interfaceName: string, op: Operation)
    ensures Accepted(interfaceName, op) <==>
            && interfaceName != ""
            && (forall c :: c in interfaceName ==>
                  c in UPPER || c in LOWER || c in DECIMAL || c == '_' || c == '-')
            && (exists key: seq<Byte> :: |key| == 32 && op.peer.publicKey == Encode(STD, key))
            && (if op.kind == Remove then op.peer.ipv4 == Unparsable("") == op.peer.ipv6
                else HostTexts(op.peer.ipv4, op.peer.ipv6))
  {
    NameCharacters(interfaceName);
    ValidPublicKeyExactly(op.peer.publicKey);
    HostTextsExactly(op.peer.ipv4, op.peer.ipv6);
    hide ValidInterfaceName, ValidPublicKey, ValidHostPrefix, HostTexts;
  }

  /** A command may fail, and a failed command may or may not have reached the kernel. */
  datatype Fault = NoFault | FailsAt(command: nat, tookEffect: bool)

  /** The table after the first n operations. */
  function After(t: Table, ops: seq<Operation>, n: nat): Table
    requires n <= |ops|
  {
    if n == 0 then t else Effect(After(t, ops, n - 1), ops[n - 1])
  }

  predicate AllAccepted(interfaceName: string, ops: seq<Operation>, n: nat)
    requires n <= |ops|
  {
    n == 0 || (AllAccepted(interfaceName, ops, n - 1) && Accepted(interfaceName, ops[n - 1]))
  }

  lemma {:induction false} AllAcceptedEach(interfaceName: string, ops: seq<Operation>, n: nat)
    requires n <= |ops|
    ensures AllAccepted(interfaceName, ops, n) <==> forall i :: 0 <= i < n ==> Accepted(interfaceName, ops[i])
  {
    hide ValidPublicKey;
    if n > 0 {
      AllAcceptedEach(interfaceName, ops, n - 1);
    }
  }

  lemma {:induction false} RefusedStops(interfaceName: string, ops: seq<Operation>, i: nat, n: nat)
    requires i < n <= |ops| && !Accepted(interfaceName, ops[i])
    ensures !AllAccepted(interfaceName, ops, n)
  {
    hide ValidPublicKey;
    if i < n - 1 {
      RefusedStops(interfaceName, ops, i, n - 1);
    }
  }

  /** The whole list goes in: it is short enough, every command can be built, and none fails. */
  predicate Succeeds(interfaceName: string, ops: seq<Operation>, fault: Fault)
  {
    && interfaceName != "" && |ops| <= MAX_PEERS
    && AllAccepted(interfaceName, ops, |ops|)
    && (fault.FailsAt? ==> fault.command >= |ops|)
  }

  /** How many operations have reached the kernel when the run that stands before operation n stops. */
  function Progress(interfaceName: string, ops: seq<Operation>, fault: Fault, n: nat): (applied: nat)
    requires n <= |ops|
    ensures n <= applied <= |ops|
    decreases |ops| - n
  {
    if n == |ops| || !Accepted(interfaceName, ops[n]) then n
    else if fault.FailsAt? && fault.command == n then (if fault.tookEffect then n + 1 else n)
    else Progress(interfaceName, ops, fault, n + 1)
  }

  function Applied(interfaceName: string, ops: seq<Operation>, fault: Fault): (applied: nat)
    ensures applied <= |ops|
  {
    if interfaceName == "" || |ops| > MAX_PEERS then 0 else Progress(interfaceName, ops, fault, 0)
  }

  lemma {:induction false} ProgressComplete(interfaceName: string, ops: seq<Operation>, fault: Fault, n: nat)
    requires n <= |ops| && Succeeds(interfaceName, ops, fault)
    ensures Progress(interfaceName, ops, fault, n) == |ops|
    decreases |ops| - n
  {
    hide ValidPublicKey;
    if n < |ops| {
      if !Accepted(interfaceName, ops[n]) {
        RefusedStops(interfaceName, ops, n, |ops|);
      }
      ProgressComplete(interfaceName, ops, fault, n + 1);
    }
  }

  class WireGuardBackend {
    const interfaceName: string
    var table: Table

    constructor (name: string, initial: Table)
      ensures interfaceName == name && table == initial
    {
      interfaceName := name;
      table := initial;
    }

    /** Applies operations in order and stops at the first that is refused or fails. */
    method Apply(ops: seq<Operation>, fault: Fault) returns (ok: bool)
      modifies this
      ensures table == After(old(table), ops, Applied(interfaceName, ops, fault))
      ensures ok <==> Succeeds(interfaceName, ops, fault)
    {
      hide ValidPublicKey;
      if interfaceName == "" || |ops| > MAX_PEERS {
        return false;
      }
      for n := 0 to |ops|
        invariant table == After(old(table), ops, n)
        invariant AllAccepted(interfaceName, ops, n)
        invariant fault.FailsAt? ==> n <= fault.command
        invariant Progress(interfaceName, ops, fault, 0) == Progress(interfaceName, ops, fault, n)
      {
        if !Accepted(interfaceName, ops[n]) {
          RefusedStops(interfaceName, ops, n, |ops|);
          return false;
        }
        if fault.FailsAt? && fault.command == n {
          if fault.tookEffect {
            table := Effect(table, ops[n]);
          }
          return false;
        }
        table := Effect(table, ops[n]);
      }
      ok := true;
    }
  }

  // ---- What a difference does to a table ----

  ghost predicate DistinctOwners(desired: map<string, Peer>)
  {
    forall k, l, a :: k in desired && l in desired && a in Owned(desired[k]) && a in Owned(desired[l]) ==> k == l
  }

  /** The addresses the difference assigns. */
  function Reassigned(desired: map<string, Peer>, keys: set<string>): set<Address>
  {
    set k, a | k in keys && k in desired && a in Owned(desired[k]) :: a
  }

  function KeysOf(ops: seq<Operation>): set<string>
  {
    set op | op in ops :: op.peer.publicKey
  }

  /** Each key occurs once, and carries its desired peer or a removal. */
  ghost predicate Realises(desired: map<string, Peer>, ops: seq<Operation>)
  {
    && (forall i, j :: 0 <= i < j < |ops| ==> ops[i].peer.publicKey != ops[j].peer.publicKey)
    && (forall i :: 0 <= i < |ops| ==>
          var k := ops[i].peer.publicKey;
          if ops[i].kind == Remove then k !in desired else k in desired && ops[i].peer == desired[k])
  }

  lemma KeysOfList(keys: seq<string>, ops: seq<Operation>)
    requires |keys| == |ops| && forall i :: 0 <= i < |ops| ==> ops[i].peer.publicKey == keys[i]
    ensures forall k :: k in KeysOf(ops) <==> k in keys
  {
    forall k
      ensures k in KeysOf(ops) <==> k in keys
    {
      if i :| 0 <= i < |keys| && keys[i] == k {
        assert ops[i] in ops;
      }
    }
  }

  lemma DiffRealises(desired: map<string, Peer>, observed: map<string, Peer>)
    requires KeyConsistent(desired) && KeyConsistent(observed)
    ensures Realises(desired, DiffOf(desired, observed))
    ensures KeysOf(DiffOf(desired, observed)) == DifferingKeys(desired, observed)
  {
    hide DiffOf, SortedKeys, Less, DifferingKeys, KeysOf;
    var keys, ops := SortedKeys(DifferingKeys(desired, observed)), DiffOf(desired, observed);
    DiffOfAt(desired, observed);
    KeysOfList(keys, ops);
    forall i, j | 0 <= i < j < |ops|
      ensures ops[i].peer.publicKey != ops[j].peer.publicKey
    {
      LessIrreflexive(keys[i]);
    }
  }

  lemma EffectExclusive(t: Table, op: Operation)
    requires Exclusive(t)
    ensures Exclusive(Effect(t, op))
  {
  }

  lemma {:induction false} AfterExclusive(t: Table, ops: seq<Operation>, n: nat)
    requires n <= |ops| && Exclusive(t)
    ensures Exclusive(After(t, ops, n))
  {
    if n > 0 {
      AfterExclusive(t, ops, n - 1);
      EffectExclusive(After(t, ops, n - 1), ops[n - 1]);
    }
  }

  /** Keys touched so far hold exactly their desired addresses; the others only lose reassigned ones. */
  ghost predicate PointwiseFor(t: Table, desired: map<string, Peer>, touched: set<string>, now: Table, k: string)
  {
    if k in touched then (k in now <==> k in desired) && (k in now ==> now[k] == Owned(desired[k]))
    else (k in now <==> k in t) && (k in now ==> now[k] == t[k] - Reassigned(desired, touched))
  }

  lemma PointwiseStep(t: Table, desired: map<string, Peer>, touched: set<string>, now: Table, op: Operation, k: string)
    requires DistinctOwners(desired) && PointwiseFor(t, desired, touched, now, k)
    requires op.peer.publicKey !in touched
    requires if op.kind == Remove then op.peer.publicKey !in desired
             else op.peer.publicKey in desired && op.peer == desired[op.peer.publicKey]
    ensures PointwiseFor(t, desired, touched + {op.peer.publicKey}, Effect(now, op), k)
  {
    var key := op.peer.publicKey;
    if op.kind == Remove {
      assert Reassigned(desired, touched + {key}) == Reassigned(desired, touched);
    } else {
      assert Reassigned(desired, touched + {key}) == Reassigned(desired, touched) + Owned(op.peer);
      if k in touched && k in now {
        assert now[k] - Owned(op.peer) == now[k];
      }
    }
  }

  lemma {:induction false} AfterPointwise(t: Table, desired: map<string, Peer>, ops: seq<Operation>, n: nat, k: string)
    requires n <= |ops| && Realises(desired, ops) && DistinctOwners(desired)
    ensures PointwiseFor(t, desired, KeysOf(ops[..n]), After(t, ops, n), k)
  {
    if n == 0 {
      assert Reassigned(desired, KeysOf(ops[..0])) == {};
    } else {
      AfterPointwise(t, desired, ops, n - 1, k);
      var op := ops[n - 1];
      assert ops[..n] == ops[..n - 1] + [op];
      assert KeysOf(ops[..n]) == KeysOf(ops[..n - 1]) + {op.peer.publicKey};
      PointwiseStep(t, desired, KeysOf(ops[..n - 1]), After(t, ops, n - 1), op, k);
    }
  }

  /** The peer lists a snapshot may carry: every key encodes 32 bytes, every peer has one address of each family, and no
      two peers share a key or a text. */
  lemma ValidPeersExactly(peers: seq<Peer>)
    ensures ValidPeers(peers) <==>
            && (forall i :: 0 <= i < |peers| ==>
                  && (exists key: seq<Byte> :: |key| == 32 && peers[i].publicKey == Encode(STD, key))
                  && HostTexts(peers[i].ipv4, peers[i].ipv6))
            && (forall i, j :: 0 <= i < j < |peers| ==>
                  peers[i].publicKey != peers[j].publicKey && peers[i].ipv4 != peers[j].ipv4
                  && peers[i].ipv6 != peers[j].ipv6)
  {
    forall i | 0 <= i < |peers|
      ensures WellFormedPeer(peers[i]) <==>
              && (exists key: seq<Byte> :: |key| == 32 && peers[i].publicKey == Encode(STD, key))
              && HostTexts(peers[i].ipv4, peers[i].ipv6)
    {
      ValidPublicKeyExactly(peers[i].publicKey);
      HostTextsExactly(peers[i].ipv4, peers[i].ipv6);
    }
    hide WellFormedPeer, HostTexts;
    assert (forall i :: 0 <= i < |peers| ==> WellFormedPeer(peers[i])) <==>
           forall i :: 0 <= i < |peers| ==>
             && (exists key: seq<Byte> :: |key| == 32 && peers[i].publicKey == Encode(STD, key))
             && HostTexts(peers[i].ipv4, peers[i].ipv6);
  }
}
