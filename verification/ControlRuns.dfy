/** Runs of the in-memory service: addresses in order, exhaustion, replays and the public key index. */
module ControlRuns {
  import opened Wrappers
  import opened Base64
  import opened Texts
  import opened Control

  datatype Step =
    | Registering(owner: Id, request: Registration, id: Option<Id>)
    | Revoking(owner: Id, device: Id)
    | Creating(q: Request)

  function Apply(s: State, step: Step): State
  {
    match step
    case Registering(owner, request, id) => Register(s, owner, request, id).0
    case Revoking(owner, device) => Revoke(s, owner, device).0
    case Creating(q) => Create(s, q).0
  }

  ghost predicate Start(s: State)
  {
    Ready(s) && s.devices == map[] && s.publicKeys == map[] && s.idempotency == map[]
  }

  function Run(s: State, h: seq<Step>, n: nat): State
    requires n <= |h|
  {
    if n == 0 then s else Apply(Run(s, h, n - 1), h[n - 1])
  }

  function Answer(s: State, h: seq<Step>, n: nat): Result<(Configuration, bool), Error>
    requires n < |h| && h[n].Creating?
  {
    Create(Run(s, h, n), h[n].q).1
  }

  /** Call i made a new configuration. */
  predicate Made(s: State, h: seq<Step>, i: nat): (made: bool)
    ensures made ==> i < |h| && h[i].Creating?
  {
    i < |h| && h[i].Creating? && Answer(s, h, i).Ok? && Answer(s, h, i).value.1
  }

  function MadeBy(s: State, h: seq<Step>, i: nat): Configuration
    requires Made(s, h, i)
  {
    Answer(s, h, i).value.0
  }

  /** How many of the first n calls made a new configuration in the region. */
  function Count(s: State, h: seq<Step>, n: nat, region: Id): nat
    requires n <= |h|
  {
    if n == 0 then 0
    else Count(s, h, n - 1, region) + if Made(s, h, n - 1) && h[n - 1].q.region == region then 1 else 0
  }

  const CAPACITY := LAST_HOST - FIRST_HOST + 1

  /** One call moves a region's counter exactly when it makes a configuration there, and only below the last host. */
  lemma CounterStep(s: State, step: Step, region: Id)
    ensures var made := step.Creating? && Create(s, step.q).1.Ok? && Create(s, step.q).1.value.1;
            && NextHost(Apply(s, step), region) == NextHost(s, region) + 
               (if made && step.q.region == region then 1 else 0)
            && (made ==> NextHost(s, step.q.region) <= LAST_HOST)
  {
    hide RecordKey, Configured, ValidRegistration, TrimSpace, Refusal;
  }

  lemma CountStep(s: State, h: seq<Step>, n: nat, region: Id)
    requires n < |h|
    ensures Count(s, h, n + 1, region) ==
            Count(s, h, n, region) + if Made(s, h, n) && h[n].q.region == region then 1 else 0
  {
    hide Made, Run;
  }

  lemma CountStart(s: State, h: seq<Step>, region: Id)
    ensures Count(s, h, 0, region) == 0
  {
  }

  lemma {:induction false} CounterCounts(s: State, h: seq<Step>, n: nat, region: Id)
    requires Start(s) && n <= |h| && region in s.regions
    ensures NextHost(Run(s, h, n), region) == FIRST_HOST + Count(s, h, n, region)
    ensures Count(s, h, n, region) <= CAPACITY
  {
    hide Apply, Create, Count;
    if n == 0 {
      CountStart(s, h, region);
    } else {
      CounterCounts(s, h, n - 1, region);
      CounterStep(Run(s, h, n - 1), h[n - 1], region);
      CountStep(s, h, n - 1, region);
    }
  }

  lemma {:induction false} CountGrows(s: State, h: seq<Step>, m: nat, n: nat, region: Id)
    requires m <= n <= |h|
    ensures Count(s, h, m, region) <= Count(s, h, n, region)
    decreases n
  {
    hide Count, Made, Run;
    if m < n {
      CountGrows(s, h, m, n - 1, region);
      CountStep(s, h, n - 1, region);
    }
  }

  /** The k-th configuration of a region gets host k + 1: hosts 2 to 254, in order, without gaps; the rest of it is its
      region's own data and lasts a day. */
  lemma HandsOutInOrder(s: State, h: seq<Step>, n: nat)
    requires Start(s) && Made(s, h, n)
    ensures var region := h[n].q.region;
            && region in s.regions && Count(s, h, n, region) < 253
            && MadeBy(s, h, n).addresses == Addresses(2 + Count(s, h, n, region))
            && MadeBy(s, h, n).endpoint == s.regions[region].endpoint
            && MadeBy(s, h, n).serverPublicKey == s.regions[region].serverPublicKey
            && MadeBy(s, h, n).dnsServers == [s.regions[region].dns4, s.regions[region].dns6]
            && MadeBy(s, h, n).expiresAt == h[n].q.now + 86_400_000_000_000
  {
    RegionsFixed(s, h, n);
    CounterCounts(s, h, n, h[n].q.region);
    hide Run, RecordKey, Count;
  }

  lemma {:induction false} RegionsFixed(s: State, h: seq<Step>, n: nat)
    requires n <= |h|
    ensures Run(s, h, n).regions == s.regions
  {
    hide RecordKey, Configured;
    if n > 0 {
      RegionsFixed(s, h, n - 1);
    }
  }

  lemma CountOfMade(s: State, h: seq<Step>, i: nat, j: nat)
    requires Made(s, h, i) && i < j <= |h|
    ensures Count(s, h, i, h[i].q.region) < Count(s, h, j, h[i].q.region)
  {
    hide Made, Count;
    CountStep(s, h, i, h[i].q.region);
    CountGrows(s, h, i + 1, j, h[i].q.region);
  }

  /** Two new configurations share an address exactly when they are the same number of their regions:
      never within a region, but the first of every region is the same pair of addresses. */
  lemma AddressesSharedExactly(s: State, h: seq<Step>, i: nat, j: nat, family: nat)
    requires Start(s) && Made(s, h, i) && Made(s, h, j) && family < 2
    ensures |MadeBy(s, h, i).addresses| == |MadeBy(s, h, j).addresses| == 2
    ensures MadeBy(s, h, i).addresses[family] == MadeBy(s, h, j).addresses[family] <==>
            Count(s, h, i, h[i].q.region) == Count(s, h, j, h[j].q.region)
    ensures i != j && h[i].q.region == h[j].q.region ==>
              MadeBy(s, h, i).addresses[family] != MadeBy(s, h, j).addresses[family]
  {
    hide Run, Answer, Count, Start, Control.Addresses;
    HandsOutInOrder(s, h, i);
    HandsOutInOrder(s, h, j);
    var a, b := Count(s, h, i, h[i].q.region), Count(s, h, j, h[j].q.region);
    if a != b {
      AddressesDistinct(FIRST_HOST + a, FIRST_HOST + b);
    }
    if i < j {
      CountOfMade(s, h, i, j);
    } else if j < i {
      CountOfMade(s, h, j, i);
    }
  }

  /** A permitted call with a new key is out of addresses exactly when its region has made 253 configurations;
      from then on the region makes no more. */
  lemma ExhaustedExactly(s: State, h: seq<Step>, n: nat, later: nat)
    requires Start(s) && n <= later < |h| && h[n].Creating? && Refusal(Run(s, h, n), h[n].q) == None
    requires RecordKey(h[n].q.owner, h[n].q.device, h[n].q.key) !in Run(s, h, n).idempotency
    ensures var region := h[n].q.region;
            && (Answer(s, h, n) == Err(CapacityExhausted) <==> Count(s, h, n, region) == 253)
            && (Answer(s, h, n) == Err(CapacityExhausted) ==> !(Made(s, h, later) && h[later].q.region == region))
  {
    var region := h[n].q.region;
    RegionsFixed(s, h, n);
    CounterCounts(s, h, n, region);
    CountGrows(s, h, n, later, region);
    hide Run, RecordKey, Refusal, Configured, Count;
    if Made(s, h, later) && h[later].q.region == region {
      HandsOutInOrder(s, h, later);
    }
  }

  // ---- Replays ----

  function KeyOf(q: Request): string
  {
    RecordKey(q.owner, q.device, q.key)
  }

  /** The idempotency records are exactly what the calls so far made. */
  ghost predicate RecordsLinked(s: State, h: seq<Step>, n: nat)
    requires n <= |h|
  {
    var records := Run(s, h, n).idempotency;
    && (forall key :: key in records ==> exists i: nat :: i < n && Made(s, h, i) && KeyOf(h[i].q) == key)
    && (forall i: nat :: i < n && Made(s, h, i) ==>
          KeyOf(h[i].q) in records && records[KeyOf(h[i].q)] == Record(h[i].q.region, MadeBy(s, h, i)))
  }

  lemma RecordsStep(s: State, h: seq<Step>, n: nat)
    requires n < |h|
    ensures var records, after := Run(s, h, n).idempotency, Run(s, h, n + 1).idempotency;
            after == if Made(s, h, n) then records[KeyOf(h[n].q) := Record(h[n].q.region, MadeBy(s, h, n))] else records
    ensures Made(s, h, n) ==> KeyOf(h[n].q) !in Run(s, h, n).idempotency
  {
    hide RecordKey, Configured;
  }

  lemma {:induction false} RunRecordsLinked(s: State, h: seq<Step>, n: nat)
    requires Start(s) && n <= |h|
    ensures RecordsLinked(s, h, n)
  {
    hide Run, Made, MadeBy, KeyOf;
    if n == 0 {
      assert Run(s, h, 0) == s by { RunStart(s, h); }
    } else {
      var k := n - 1;
      RunRecordsLinked(s, h, k);
      RecordsStep(s, h, k);
      var records, after := Run(s, h, k).idempotency, Run(s, h, n).idempotency;
      forall key | key in after
        ensures exists i: nat :: i < n && Made(s, h, i) && KeyOf(h[i].q) == key
      {
        if key in records {
          var i: nat :| i < k && Made(s, h, i) && KeyOf(h[i].q) == key;
          assert i < n;
        } else {
          assert Made(s, h, k) && KeyOf(h[k].q) == key;
        }
      }
      forall i: nat | i < n && Made(s, h, i)
        ensures KeyOf(h[i].q) in after && after[KeyOf(h[i].q)] == Record(h[i].q.region, MadeBy(s, h, i))
      {
        if i < k { assert KeyOf(h[i].q) in records; }
      }
    }
  }

  lemma RunStart(s: State, h: seq<Step>)
    ensures Run(s, h, 0) == s
  {
  }

  /** Device ids are uuids and hold no NUL, and no calling owner's name spells out another with its device. */
  ghost predicate OwnersApart(h: seq<Step>)
  {
    && (forall i :: 0 <= i < |h| && h[i].Creating? ==> NUL !in h[i].q.device)
    && (forall i, j :: 0 <= i < |h| && 0 <= j < |h| && h[i].Creating? && h[j].Creating? ==>
          !Swallows(h[j].q.owner, h[i].q.owner, h[i].q.device))
  }

  /** What a permitted call gets back, told from the earlier calls of the same owner, device and key: the configuration
      made then if the region is the same, a conflict if it is another, and nothing old if there was no such call. */
  lemma ReplaysExactly(s: State, h: seq<Step>, n: nat, c: Configuration)
    requires Start(s) && OwnersApart(h) && n < |h| && h[n].Creating? && Refusal(Run(s, h, n), h[n].q) == None
    ensures Answer(s, h, n) == Ok((c, false)) <==>
            exists i: nat :: i < n && Made(s, h, i) && SameCall(h[i].q, h[n].q) && h[i].q.region == h[n].q.region
              && MadeBy(s, h, i) == c
    ensures Answer(s, h, n) == Err(Conflict) <==>
            exists i: nat :: i < n && Made(s, h, i) && SameCall(h[i].q, h[n].q) && h[i].q.region != h[n].q.region
    ensures Answer(s, h, n).Err? || !Answer(s, h, n).value.1 ==> Run(s, h, n + 1) == Run(s, h, n)
  {
    RunRecordsLinked(s, h, n);
    hide Run, RecordKey, Refusal, Configured, Made, MadeBy;
    var records, key := Run(s, h, n).idempotency, KeyOf(h[n].q);
    forall i: nat | i < n && Made(s, h, i)
      ensures KeyOf(h[i].q) == key <==> SameCall(h[i].q, h[n].q)
    {
      SameCallExactly(s, h, i, n);
    }
    assert Run(s, h, n + 1) == Create(Run(s, h, n), h[n].q).0 by { RunStep(s, h, n); }
  }

  lemma RunStep(s: State, h: seq<Step>, n: nat)
    requires n < |h|
    ensures Run(s, h, n + 1) == Apply(Run(s, h, n), h[n])
  {
  }

  predicate SameCall(p: Request, q: Request)
  {
    p.owner == q.owner && p.device == q.device && p.key == q.key
  }

  lemma SameCallExactly(s: State, h: seq<Step>, i: nat, n: nat)
    requires OwnersApart(h) && i < n < |h| && h[n].Creating? && Made(s, h, i)
    ensures KeyOf(h[i].q) == KeyOf(h[n].q) <==> SameCall(h[i].q, h[n].q)
  {
    hide RecordKey, Swallows, MeetingKey;
    var p, q := h[i].q, h[n].q;
    if !SameCall(p, q) {
      RecordSharedExactly(p.owner, p.device, p.key, q.owner, q.device, q.key);
    }
  }

  /** The calls of two owners, of whom the second is named like the first followed by NUL and the first's device. */
  function Meeting(owner: Id, d: Id, d': Id, p: Registration, p': Registration, region: Id, key: string, a: Id, a': Id,
      now: int): seq<Step>
  {
    var other := owner + [NUL] + d;
    [Registering(owner, p, Some(d)), Registering(other, p', Some(d')),
     Creating(Request(other, d', region, key, Some(a'), now)),
     Creating(Request(owner, d, region, d' + [NUL] + key, Some(a), now))]
  }

  /** Two registered devices with NUL-free ids, two admitted keys: the second call is handed the configuration made for
      the other owner's device instead of one of its own. */
  lemma MeetingSharesConfiguration(s: State, owner: Id, d: Id, d': Id, p: Registration, p': Registration, region: Id,
      key: string,
                                   a: Id, a': Id, now: int)
    requires Start(s) && region in s.regions && s.regions[region].available
    requires NUL !in d && NUL !in d' && d != d' && p.publicKey != p'.publicKey
    requires ValidRegistration(owner, p) && ValidRegistration(owner + [NUL] + d, p')
    requires AdmittedKey(key) && |d'| + 1 + |key| <= MAX_KEY
    ensures var h := Meeting(owner, d, d', p, p', region, key, a, a', now);
            && Made(s, h, 2) && Answer(s, h, 3) == Ok((MadeBy(s, h, 2), false))
            && h[2].q.owner != h[3].q.owner && h[2].q.device != h[3].q.device
  {
    hide ValidRegistration, Configured, TrimSpace;
    var h := Meeting(owner, d, d', p, p', region, key, a, a', now);
    var other := owner + [NUL] + d;
    var s0, s1, s2 := Run(s, h, 0), Run(s, h, 1), Run(s, h, 2);
    assert s1 == Register(s, owner, p, Some(d)).0;
    assert s2 == Register(s1, other, p', Some(d')).0;
    assert s2.devices == map[d := Register(s, owner, p, Some(d)).1.value,
                              d' := Register(s1, other, p', Some(d')).1.value];
    assert RecordKey(other, d', key) == RecordKey(owner, d, d' + [NUL] + key);
    hide RecordKey;
    RunStep(s, h, 2);
    assert |other| != |owner|;
  }

  // ---- The public key index ----

  /** publicKeys is the exact inverse of the devices' keys, and no device has reached the revoked state. */
  ghost predicate KeysInverse(s: State)
  {
    && (forall key :: key in s.publicKeys ==>
          s.publicKeys[key] in s.devices && s.devices[s.publicKeys[key]].publicKey == key)
    && (forall d :: d in s.devices ==>
          s.devices[d].publicKey in s.publicKeys && s.publicKeys[s.devices[d].publicKey] == d)
    && (forall d :: d in s.devices ==> s.devices[d].state != Revoked)
  }

  /** Drawn device ids never repeat. */
  ghost predicate FreshIds(h: seq<Step>)
  {
    forall i, j :: 0 <= i < j < |h| && h[i].Registering? && h[j].Registering? && h[i].id.Some? ==> h[i].id != h[j].id
  }

  ghost predicate DevicesDrawn(s: State, h: seq<Step>, n: nat)
    requires n <= |h|
  {
    forall d :: d in Run(s, h, n).devices ==> exists i: nat :: i < n && h[i].Registering? && h[i].id == Some(d)
  }

  lemma CreateKeepsDevices(s: State, q: Request)
    ensures Create(s, q).0.devices == s.devices && Create(s, q).0.publicKeys == s.publicKeys
  {
    hide RecordKey, Configured, Refusal;
  }

  /** A new device under a new id and a new key. */
  lemma AddDeviceKeepsInverse(s: State, id: Id, device: Device)
    requires KeysInverse(s) && id !in s.devices && device.publicKey !in s.publicKeys && device.state != Revoked
    ensures KeysInverse(s.(devices := s.devices[id := device], publicKeys := s.publicKeys[device.publicKey := id]))
  {
    var after := s.(devices := s.devices[id := device], publicKeys := s.publicKeys[device.publicKey := id]);
    forall key | key in after.publicKeys
      ensures after.publicKeys[key] in after.devices && after.devices[after.publicKeys[key]].publicKey == key
    {
      assert key != device.publicKey ==> key in s.publicKeys;
    }
    forall d | d in after.devices
      ensures after.devices[d].publicKey in after.publicKeys && after.publicKeys[after.devices[d].publicKey] == d
    {
      assert d != id ==> d in s.devices;
    }
  }

  /** Registering under a new id: an already known key changes nothing, a new one is indexed. */
  lemma RegisterKeepsInverse(s: State, owner: Id, r: Registration, id: Option<Id>)
    requires KeysInverse(s) && (id.Some? ==> id.value !in s.devices)
    ensures var after := Register(s, owner, r, id).0;
            && KeysInverse(after)
            && (forall d :: d in after.devices <==> d in s.devices || (after != s && id == Some(d)))
            && (forall d :: d in s.devices ==> after.devices[d] == s.devices[d])
  {
    hide ValidRegistration, TrimSpace, KeysInverse;
    if id.Some? && r.publicKey !in s.publicKeys {
      AddDeviceKeepsInverse(s, id.value, Device(owner, TrimSpace(r.name), r.platform, r.publicKey, DeviceActive));
    }
  }

  lemma SetStateKeepsInverse(s: State, id: Id, state: DeviceState)
    requires KeysInverse(s) && id in s.devices && state != Revoked
    ensures KeysInverse(s.(devices := s.devices[id := s.devices[id].(state := state)]))
  {
    var after := s.(devices := s.devices[id := s.devices[id].(state := state)]);
    assert forall d :: d in after.devices <==> d in s.devices;
    assert forall d :: d in s.devices ==> after.devices[d].publicKey == s.devices[d].publicKey;
  }

  lemma RevokeKeepsInverse(s: State, owner: Id, device: Id)
    requires KeysInverse(s)
    ensures var after := Revoke(s, owner, device).0;
            && KeysInverse(after) && after.devices.Keys == s.devices.Keys
            && (forall d :: d in s.devices && s.devices[d].state == RevocationPending ==>
                  after.devices[d].state == RevocationPending)
  {
    hide KeysInverse;
    if device in s.devices {
      SetStateKeepsInverse(s, device, RevocationPending);
    }
  }

  lemma KeysInverseStep(s: State, step: Step)
    requires KeysInverse(s) && (step.Registering? && step.id.Some? ==> step.id.value !in s.devices)
    ensures KeysInverse(Apply(s, step))
    ensures forall d :: d in Apply(s, step).devices ==> d in s.devices || (step.Registering? && step.id == Some(d))
    ensures forall d :: d in s.devices ==> d in Apply(s, step).devices
    ensures forall d :: d in s.devices && s.devices[d].state == RevocationPending ==>
        Apply(s, step).devices[d].state == RevocationPending
  {
    hide Create, Register, Revoke;
    match step
    case Registering(owner, request, id) => RegisterKeepsInverse(s, owner, request, id);
    case Revoking(owner, device) => RevokeKeepsInverse(s, owner, device);
    case Creating(q) => CreateKeepsDevices(s, q);
  }

  lemma {:induction false} RunKeysInverse(s: State, h: seq<Step>, n: nat)
    requires Start(s) && FreshIds(h) && n <= |h|
    ensures KeysInverse(Run(s, h, n)) && DevicesDrawn(s, h, n)
  {
    if n > 0 {
      RunKeysInverse(s, h, n - 1);
      hide Apply, KeysInverse;
      KeysInverseStep(Run(s, h, n - 1), h[n - 1]);
    }
  }

  /** Once revocation was requested a device gets no configuration any more, not even a replay. */
  lemma {:induction false} PendingForGood(s: State, h: seq<Step>, m: nat, n: nat, d: Id)
    requires Start(s) && FreshIds(h) && m <= n <= |h|
    requires d in Run(s, h, m).devices && Run(s, h, m).devices[d].state == RevocationPending
    ensures d in Run(s, h, n).devices && Run(s, h, n).devices[d].state == RevocationPending
    ensures n < |h| && h[n].Creating? && h[n].q.device == d ==> Answer(s, h, n).Err?
    decreases n
  {
    hide RecordKey, Configured, Apply, KeysInverse;
    if m < n {
      PendingForGood(s, h, m, n - 1, d);
      RunKeysInverse(s, h, n - 1);
      KeysInverseStep(Run(s, h, n - 1), h[n - 1]);
    }
  }
}
