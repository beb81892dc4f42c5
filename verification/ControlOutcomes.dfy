/** What every call of the in-memory service answers, told from the earlier calls alone
    (services/api/internal/control/service.go:92-262). */
module ControlOutcomes {
  import opened Wrappers
  import opened Base64
  import opened Texts
  import opened Control
  import opened ControlRuns

  // ---- The texts of the addresses ----

  const DIGITS := "0123456789abcdef"

  lemma HexWritten(n: nat)
    requires n < 256
    ensures Hex(n) == (if n >= 16 then [DIGITS[n / 16]] else "") + [DIGITS[n % 16]]
  {
    HexDigitWritten(n % 16);
    if n >= 16 {
      HexDigitWritten(n / 16);
      assert Hex(n / 16) == "" + [HexDigit(n / 16 % 16)];
    }
  }

  lemma HexDigitWritten(d: nat)
    requires d < 16
    ensures HexDigit(d) == DIGITS[d]
  {
  }

  lemma DecimalDigitWritten(d: nat)
    requires d < 10
    ensures '0' + d as char == DIGITS[d]
  {
  }

  lemma LastDigit(n: nat)
    ensures Decimal(n) == (if n < 10 then "" else Decimal(n / 10)) + [DIGITS[n % 10]]
  {
    DecimalDigitWritten(n % 10);
  }

  lemma DecimalWritten(n: nat)
    requires n < 1000
    ensures Decimal(n) == (if n >= 100 then [DIGITS[n / 100]] else "") + (if n >= 10 then [DIGITS[n / 10 % 10]] else "")
                          + [DIGITS[n % 10]]
  {
    LastDigit(n);
    LastDigit(n / 10);
    LastDigit(n / 100);
    hide Decimal;
    assert n / 10 / 10 == n / 100;
  }

  /** The host stands in decimal at the end of the IPv4 address and in hexadecimal at the end of the IPv6 address. */
  lemma AddressesWritten(host: nat)
    requires host < 256
    ensures Addresses(host) ==
            ["10.70.0." + (if host >= 100 then [DIGITS[host / 100]] else "")
             + (if host >= 10 then [DIGITS[host / 10 % 10]] else "") + [DIGITS[host % 10]] + "/32",
             "fd70::" + (if host >= 16 then [DIGITS[host / 16]] else "") + [DIGITS[host % 16]] + "/128"]
  {
    HexWritten(host);
    DecimalWritten(host);
    hide Hex, Decimal;
    var a := if host >= 100 then [DIGITS[host / 100]] else "";
    var b := if host >= 10 then [DIGITS[host / 10 % 10]] else "";
    var c := [DIGITS[host % 10]];
    assert "10.70.0." + (a + b + c) + "/32" == "10.70.0." + a + b + c + "/32";
    var d := if host >= 16 then [DIGITS[host / 16]] else "";
    var e := [DIGITS[host % 16]];
    assert "fd70::" + (d + e) + "/128" == "fd70::" + d + e + "/128";
  }

  // ---- Devices ----

  /** A registration the service takes: an owner and a name that are not blank, at most 80 bytes of name, a known
      platform, and a public key that encodes 32 bytes. */
  ghost predicate Acceptable(owner: Id, r: Registration)
  {
    && !Blank(owner) && !Blank(r.name) && |r.name| <= 80
    && (r.platform == "windows" || r.platform == "android" || r.platform == "ios" || r.platform == "android_tv")
    && exists key: seq<Byte> :: |key| == 32 && r.publicKey == Encode(STD, key)
  }

  lemma AcceptableExactly(owner: Id, r: Registration)
    ensures ValidRegistration(owner, r) <==> Acceptable(owner, r)
  {
    TrimsToNothingExactly(owner);
    TrimsToNothingExactly(r.name);
    ValidPublicKeyExactly(r.publicKey);
    hide TrimSpace, ValidPublicKey, Blank;
  }

  /** Call i registers a device: the registration is acceptable, an id is drawn, and no earlier call registered one with
      the same public key. */
  ghost predicate Enrols(h: seq<Step>, i: nat): (r: bool)
    ensures r ==> i < |h| && h[i].Registering? && h[i].id.Some?
    decreases i
  {
    && i < |h| && h[i].Registering? && h[i].id.Some? && Acceptable(h[i].owner, h[i].request)
    && forall j: nat :: j < i && Enrols(h, j) ==> h[j].request.publicKey != h[i].request.publicKey
  }

  /** One of the first n calls registered the device. */
  ghost predicate HasDevice(h: seq<Step>, n: nat, d: Id)
  {
    exists i: nat :: i < n && Enrols(h, i) && h[i].id.value == d
  }

  /** One of the first n calls registered a device with the public key. */
  ghost predicate HasKey(h: seq<Step>, n: nat, key: string)
  {
    exists i: nat :: i < n && Enrols(h, i) && h[i].request.publicKey == key
  }

  /** One of the calls after i and before n is a revocation of the device by the owner. */
  ghost predicate Withdrawn(h: seq<Step>, i: nat, n: nat, owner: Id, d: Id)
    requires n <= |h|
  {
    exists j :: i < j < n && h[j].Revoking? && h[j].owner == owner && h[j].device == d
  }

  function Enrolled(step: Step, state: DeviceState): Device
    requires step.Registering?
  {
    Device(step.owner, TrimSpace(step.request.name), step.request.platform, step.request.publicKey, state)
  }

  /** The device as the first n calls leave the one that call i registered: it waits for its removal once it was
      revoked. */
  ghost function DeviceAfter(h: seq<Step>, i: nat, n: nat): Device
    requires n <= |h| && Enrols(h, i)
  {
    Enrolled(h[i], if Withdrawn(h, i, n, h[i].owner, h[i].id.value) then RevocationPending else DeviceActive)
  }

  ghost predicate DevicesKept(now: State, h: seq<Step>, n: nat)
    requires n <= |h|
  {
    forall i: nat :: i < n && Enrols(h, i) ==>
      h[i].id.value in now.devices && now.devices[h[i].id.value] == DeviceAfter(h, i, n)
  }

  /** The devices are those the calls registered, and the known public keys are theirs. */
  ghost predicate DevicesLinked(now: State, h: seq<Step>, n: nat)
    requires n <= |h|
  {
    DevicesKept(now, h, n) && DevicesKnown(now.devices.Keys, h, n) && KeysKnown(now.publicKeys.Keys, h, n)
  }

  ghost predicate DevicesKnown(devices: set<Id>, h: seq<Step>, n: nat)
  {
    forall d :: d in devices <==> HasDevice(h, n, d)
  }

  ghost predicate KeysKnown(keys: set<string>, h: seq<Step>, n: nat)
  {
    forall key :: key in keys <==> HasKey(h, n, key)
  }

  lemma HasStep(h: seq<Step>, n: nat, d: Id, key: string)
    ensures var m := n + 1; HasDevice(h, m, d) <==> HasDevice(h, n, d) || (Enrols(h, n) && h[n].id.value == d)
    ensures var m := n + 1; HasKey(h, m, key) <==> HasKey(h, n, key) || (Enrols(h, n) && h[n].request.publicKey == key)
  {
    hide Enrols;
    var m := n + 1;
    if Enrols(h, n) {
      assert n < m;
    }
    if i: nat :| i < n && Enrols(h, i) && h[i].id.value == d {
      assert i < m;
    }
    if i: nat :| i < n && Enrols(h, i) && h[i].request.publicKey == key {
      assert i < m;
    }
  }

  lemma WithdrawnStep(h: seq<Step>, i: nat, n: nat, owner: Id, d: Id)
    requires i < n < |h|
    ensures var m := n + 1;
            var now := h[n].Revoking? && h[n].owner == owner && h[n].device == d;
            Withdrawn(h, i, m, owner, d) <==> Withdrawn(h, i, n, owner, d) || now
  {
  }

  lemma EnrolledOnce(h: seq<Step>, i: nat, j: nat)
    requires FreshIds(h) && Enrols(h, i) && Enrols(h, j) && h[i].id == h[j].id
    ensures i == j
  {
    hide Enrols;
  }

  ghost predicate DevicesGain(before: set<Id>, after: set<Id>, h: seq<Step>, n: nat)
  {
    forall d :: d in after <==> d in before || (Enrols(h, n) && h[n].id.value == d)
  }

  ghost predicate KeysGain(before: set<string>, after: set<string>, h: seq<Step>, n: nat)
  {
    forall key :: key in after <==> key in before || (Enrols(h, n) && h[n].request.publicKey == key)
  }

  /** What a call does to the devices: it adds the one it registers, and marks the one its owner revokes. */
  ghost predicate DevicesMove(before: State, after: State, h: seq<Step>, n: nat)
    requires n < |h|
  {
    && DevicesGain(before.devices.Keys, after.devices.Keys, h, n)
    && KeysGain(before.publicKeys.Keys, after.publicKeys.Keys, h, n)
    && (Enrols(h, n) ==> after.devices[h[n].id.value] == Enrolled(h[n], DeviceActive))
    && (forall d :: d in before.devices && !(Enrols(h, n) && h[n].id.value == d) ==>
          after.devices[d] ==
          if h[n].Revoking? && h[n].owner == before.devices[d].owner && h[n].device == d
          then before.devices[d].(state := RevocationPending) else before.devices[d])
  }

  lemma KeptStep(before: State, after: State, h: seq<Step>, n: nat)
    requires FreshIds(h) && n < |h| && DevicesKept(before, h, n) && DevicesMove(before, after, h, n)
    ensures var m := n + 1; DevicesKept(after, h, m)
  {
    hide Enrols, TrimSpace;
    var m := n + 1;
    forall i: nat | i < m && Enrols(h, i)
      ensures h[i].id.value in after.devices && after.devices[h[i].id.value] == DeviceAfter(h, i, m)
    {
      var owner, d := h[i].owner, h[i].id.value;
      if i < n {
        WithdrawnStep(h, i, n, owner, d);
        if Enrols(h, n) && h[n].id.value == d {
          EnrolledOnce(h, i, n);
        }
        hide Withdrawn, FreshIds;
        assert before.devices[d] == DeviceAfter(h, i, n);
      } else {
        WithdrawnNot(h, n, owner, d);
      }
    }
  }

  lemma WithdrawnNot(h: seq<Step>, n: nat, owner: Id, d: Id)
    requires n < |h|
    ensures var m := n + 1; !Withdrawn(h, n, m, owner, d)
  {
  }

  lemma KnownDevicesStep(before: set<Id>, after: set<Id>, h: seq<Step>, n: nat)
    requires DevicesKnown(before, h, n) && DevicesGain(before, after, h, n)
    ensures var m := n + 1; DevicesKnown(after, h, m)
  {
    hide HasDevice, Enrols;
    var m := n + 1;
    forall d
      ensures d in after <==> HasDevice(h, m, d)
    {
      HasStep(h, n, d, "");
    }
  }

  lemma KnownKeysStep(before: set<string>, after: set<string>, h: seq<Step>, n: nat)
    requires KeysKnown(before, h, n) && KeysGain(before, after, h, n)
    ensures var m := n + 1; KeysKnown(after, h, m)
  {
    hide HasKey, Enrols;
    var m := n + 1;
    forall key
      ensures key in after <==> HasKey(h, m, key)
    {
      HasStep(h, n, "", key);
    }
  }

  lemma LinkedStep(before: State, after: State, h: seq<Step>, n: nat)
    requires FreshIds(h) && n < |h| && DevicesLinked(before, h, n) && DevicesMove(before, after, h, n)
    ensures var m := n + 1; DevicesLinked(after, h, m)
  {
    KeptStep(before, after, h, n);
    hide DevicesKnown, KeysKnown, DevicesGain, KeysGain, Enrols, DevicesKept, FreshIds, TrimSpace;
    KnownDevicesStep(before.devices.Keys, after.devices.Keys, h, n);
    KnownKeysStep(before.publicKeys.Keys, after.publicKeys.Keys, h, n);
  }

  lemma EnrolsExactly(now: State, h: seq<Step>, n: nat)
    requires n < |h| && h[n].Registering? && DevicesLinked(now, h, n)
    ensures Enrols(h, n) <==>
            && ValidRegistration(h[n].owner, h[n].request) && h[n].id.Some?
            && h[n].request.publicKey !in now.publicKeys
  {
    AcceptableExactly(h[n].owner, h[n].request);
    hide ValidRegistration, Acceptable, DevicesKept, HasDevice;
    var key := h[n].request.publicKey;
    assert key in now.publicKeys <==> HasKey(h, n, key);
  }

  lemma RegisterMoves(before: State, h: seq<Step>, n: nat)
    requires FreshIds(h) && n < |h| && h[n].Registering? && DevicesLinked(before, h, n)
    ensures DevicesMove(before, Apply(before, h[n]), h, n)
  {
    EnrolsExactly(before, h, n);
    if Enrols(h, n) {
      NewDevice(before, h, n);
    }
    hide Enrols, DevicesLinked, DevicesMove, FreshIds, ValidRegistration, TrimSpace, Create, Revoke;
    var after := Apply(before, h[n]);
    if Enrols(h, n) {
      AddMoves(before, after, h, n);
    } else {
      SameMoves(before, h, n);
    }
  }

  lemma SameMoves(before: State, h: seq<Step>, n: nat)
    requires n < |h| && h[n].Registering? && !Enrols(h, n)
    ensures DevicesMove(before, before, h, n)
  {
    hide Enrols;
  }

  lemma AddMoves(before: State, after: State, h: seq<Step>, n: nat)
    requires n < |h| && Enrols(h, n) && h[n].id.value !in before.devices
    requires after.devices == before.devices[h[n].id.value := Enrolled(h[n], DeviceActive)]
    requires after.publicKeys == before.publicKeys[h[n].request.publicKey := h[n].id.value]
    ensures DevicesMove(before, after, h, n)
  {
    hide Enrols, TrimSpace;
  }

  lemma NewDevice(before: State, h: seq<Step>, n: nat)
    requires FreshIds(h) && n < |h| && Enrols(h, n) && DevicesLinked(before, h, n)
    ensures h[n].id.value !in before.devices
  {
    hide Enrols, DevicesKept, HasKey;
    var d := h[n].id.value;
    assert d in before.devices <==> HasDevice(h, n, d);
    if i: nat :| i < n && Enrols(h, i) && h[i].id.value == d {
      EnrolledOnce(h, i, n);
    }
  }

  lemma RevokeMoves(before: State, h: seq<Step>, n: nat)
    requires n < |h| && h[n].Revoking? && KeysInverse(before)
    ensures DevicesMove(before, Apply(before, h[n]), h, n)
  {
  }

  lemma CreateMoves(before: State, h: seq<Step>, n: nat)
    requires n < |h| && h[n].Creating?
    ensures DevicesMove(before, Apply(before, h[n]), h, n)
  {
    CreateKeepsDevices(before, h[n].q);
    hide Create;
  }

  lemma {:induction false} RunDevicesLinked(s: State, h: seq<Step>, n: nat)
    requires Start(s) && FreshIds(h) && n <= |h|
    ensures DevicesLinked(Run(s, h, n), h, n)
  {
    if n == 0 {
      RunStart(s, h);
    } else {
      var k := n - 1;
      RunDevicesLinked(s, h, k);
      RunKeysInverse(s, h, k);
      RunStep(s, h, k);
      hide DevicesLinked, DevicesMove, FreshIds, Run, Enrols, KeysInverse, Apply;
      var before := Run(s, h, k);
      match h[k] {
        case Registering(_, _, _) => RegisterMoves(before, h, k);
        case Revoking(_, _) => RevokeMoves(before, h, k);
        case Creating(_) => CreateMoves(before, h, k);
      }
      LinkedStep(before, Run(s, h, n), h, k);
    }
  }

  // ---- Answers ----

  /** A registration is taken when it is acceptable, no earlier call registered the key, and an id can be drawn; then
      the answer is the device under its trimmed name. Otherwise the answer names the first of these that fails. */
  lemma RegisterAnswersExactly(s: State, h: seq<Step>, n: nat)
    requires Start(s) && FreshIds(h) && n < |h| && h[n].Registering?
    ensures Register(Run(s, h, n), h[n].owner, h[n].request, h[n].id).1 ==
            if !Acceptable(h[n].owner, h[n].request) then Err(InvalidInput)
            else if HasKey(h, n, h[n].request.publicKey) then Err(Conflict)
            else if h[n].id == None then Err(NoRandomness)
            else Ok(Device(h[n].owner, TrimSpace(h[n].request.name), h[n].request.platform, h[n].request.publicKey,
                           DeviceActive))
  {
    RunDevicesLinked(s, h, n);
    AcceptableExactly(h[n].owner, h[n].request);
    hide Run, ValidRegistration, Acceptable, TrimSpace, DevicesKept, HasDevice, HasKey, FreshIds;
  }

  /** Call i registered the device for the owner, among the first n. */
  ghost predicate Owns(h: seq<Step>, n: nat, owner: Id, d: Id, i: nat)
  {
    i < n && Enrols(h, i) && h[i].id.value == d && h[i].owner == owner
  }

  /** What the devices of a linked state say about one device and owner. */
  lemma OwnedExactly(now: State, h: seq<Step>, n: nat, owner: Id, d: Id)
    requires FreshIds(h) && n <= |h| && DevicesLinked(now, h, n)
    ensures d in now.devices && now.devices[d].owner == owner <==> exists i :: Owns(h, n, owner, d, i)
    ensures forall i :: Owns(h, n, owner, d, i) ==>
              d in now.devices && now.devices[d].state ==
              if Withdrawn(h, i, n, owner, d) then RevocationPending else DeviceActive
  {
    hide Enrols, HasKey, Withdrawn, TrimSpace, FreshIds;
    assert d in now.devices <==> HasDevice(h, n, d);
    if d in now.devices && now.devices[d].owner == owner {
      var i: nat :| i < n && Enrols(h, i) && h[i].id.value == d;
      assert now.devices[d] == DeviceAfter(h, i, n);
      assert Owns(h, n, owner, d, i);
    }
    forall i | Owns(h, n, owner, d, i)
      ensures d in now.devices && now.devices[d] == DeviceAfter(h, i, n)
    {
    }
  }

  /** A revocation succeeds exactly for a device that an earlier call registered for the same owner. */
  lemma RevokeAnswersExactly(s: State, h: seq<Step>, n: nat)
    requires Start(s) && FreshIds(h) && n < |h| && h[n].Revoking?
    ensures Revoke(Run(s, h, n), h[n].owner, h[n].device).1 ==
            if exists i :: Owns(h, n, h[n].owner, h[n].device, i) then None else Some(NotFound)
  {
    RunDevicesLinked(s, h, n);
    OwnedExactly(Run(s, h, n), h, n, h[n].owner, h[n].device);
    hide Run, DevicesLinked, FreshIds, Owns;
  }

  /** An earlier call of the same owner, device and key made a configuration. */
  ghost predicate CalledBefore(s: State, h: seq<Step>, n: nat, i: nat)
    requires n < |h| && h[n].Creating?
  {
    i < n && Made(s, h, i) && h[i].q.owner == h[n].q.owner && h[i].q.device == h[n].q.device && h[i].q.key == h[n].q.key
  }

  /** The owner registered the device and did not revoke it since, the key has 16 to 128 bytes, the region is open. */
  ghost predicate Entitled(s: State, h: seq<Step>, n: nat)
    requires n < |h| && h[n].Creating?
  {
    var q := h[n].q;
    && 16 <= |q.key| <= 128
    && (exists i :: Owns(h, n, q.owner, q.device, i) && !Withdrawn(h, i, n, q.owner, q.device))
    && q.region in s.regions && s.regions[q.region].available
  }

  lemma OwnsOnce(h: seq<Step>, n: nat, owner: Id, d: Id, i: nat, j: nat)
    requires FreshIds(h) && Owns(h, n, owner, d, i) && Owns(h, n, owner, d, j)
    ensures i == j
  {
    hide FreshIds;
    EnrolledOnce(h, i, j);
  }

  /** Why a call is refused before its key is looked up. */
  lemma RefusalExactly(s: State, h: seq<Step>, n: nat)
    requires Start(s) && FreshIds(h) && n < |h| && h[n].Creating?
    ensures Refusal(Run(s, h, n), h[n].q) == None <==> Entitled(s, h, n)
    ensures var q := h[n].q;
            !Entitled(s, h, n) ==> Answer(s, h, n) == Err(
              if !(16 <= |q.key| <= 128) then InvalidInput
              else if exists i :: Owns(h, n, q.owner, q.device, i) && Withdrawn(h, i, n, q.owner, q.device)
                then DeviceNotActive
              else NotFound)
  {
    var q, now := h[n].q, Run(s, h, n);
    RunDevicesLinked(s, h, n);
    RegionsFixed(s, h, n);
    OwnedExactly(now, h, n, q.owner, q.device);
    hide Run, DevicesLinked, Owns, Withdrawn, FreshIds, RecordKey, Configured, Enrols;
    forall i, j | Owns(h, n, q.owner, q.device, i) && Owns(h, n, q.owner, q.device, j)
      ensures i == j
    {
      OwnsOnce(h, n, q.owner, q.device, i, j);
    }
  }

  /** What an entitled call gets. A call with the owner, device and key of an earlier one gets that one's configuration,
      or a conflict if it names another region; any other gets a new configuration under the drawn id, unless its region
      has made 253 or no id can be drawn. */
  lemma ServedExactly(s: State, h: seq<Step>, n: nat, c: Configuration)
    requires Start(s) && FreshIds(h) && OwnersApart(h) && n < |h| && h[n].Creating? && Entitled(s, h, n)
    ensures var q, made := h[n].q, Count(s, h, n, h[n].q.region);
            if exists i: nat :: CalledBefore(s, h, n, i) then
              && (Answer(s, h, n) == Ok((c, false)) <==>
                    exists i: nat :: CalledBefore(s, h, n, i) && h[i].q.region == q.region && MadeBy(s, h, i) == c)
              && (Answer(s, h, n) == Err(Conflict) <==>
                    exists i: nat :: CalledBefore(s, h, n, i) && h[i].q.region != q.region)
            else
              && (Answer(s, h, n) == Err(CapacityExhausted) <==> made == 253)
              && (Answer(s, h, n) == Err(NoRandomness) <==> made < 253 && q.assignmentId == None)
              && (Made(s, h, n) <==> made < 253 && q.assignmentId.Some?)
              && (Made(s, h, n) ==> MadeBy(s, h, n).assignmentId == q.assignmentId.value)
  {
    RefusalExactly(s, h, n);
    ReplaysExactly(s, h, n, c);
    NewCallKey(s, h, n);
    RegionsFixed(s, h, n);
    CounterCounts(s, h, n, h[n].q.region);
    if !exists i: nat :: CalledBefore(s, h, n, i) {
      hide Run, RecordKey, Refusal, Entitled, CalledBefore, Count, OwnersApart, Start, FreshIds;
    } else {
      hide Run, RecordKey, Refusal, Entitled, Count, OwnersApart, Start, FreshIds, Made, MadeBy, Answer;
    }
  }

  /** A call's key is recorded exactly when an earlier call of the same owner, device and key made a configuration. */
  lemma NewCallKey(s: State, h: seq<Step>, n: nat)
    requires Start(s) && OwnersApart(h) && n < |h| && h[n].Creating?
    ensures KeyOf(h[n].q) in Run(s, h, n).idempotency <==> exists i: nat :: CalledBefore(s, h, n, i)
  {
    RunRecordsLinked(s, h, n);
    hide Run, KeyOf, Made, MadeBy;
    forall i: nat | i < n && Made(s, h, i)
      ensures KeyOf(h[i].q) == KeyOf(h[n].q) <==> CalledBefore(s, h, n, i)
    {
      SameCallExactly(s, h, i, n);
    }
    var key := KeyOf(h[n].q);
    if key in Run(s, h, n).idempotency {
      var i: nat :| i < n && Made(s, h, i) && KeyOf(h[i].q) == key;
      assert CalledBefore(s, h, n, i);
    }
  }

  // ---- Regions ----

  /** The regions a service starts with: an id of at most 32 bytes and texts that are not blank, and a server key that
      encodes 32 bytes. */
  lemma RegionExactly(id: Id, region: Region)
    ensures ValidRegion(id, region) <==>
            && !Blank(id) && |id| <= 32 && !Blank(region.displayName) && !Blank(region.endpoint)
            && !Blank(region.dns4) && !Blank(region.dns6)
            && exists key: seq<Byte> :: |key| == 32 && region.serverPublicKey == Encode(STD, key)
  {
    TrimsToNothingExactly(id);
    TrimsToNothingExactly(region.displayName);
    TrimsToNothingExactly(region.endpoint);
    TrimsToNothingExactly(region.dns4);
    TrimsToNothingExactly(region.dns6);
    ValidPublicKeyExactly(region.serverPublicKey);
    hide TrimSpace, ValidPublicKey, Blank;
  }
}
