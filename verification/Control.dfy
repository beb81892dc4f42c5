/** The in-memory domain service (services/api/internal/control/service.go). */
module Control {
  import opened Wrappers
  import opened Base64
  import opened Texts

  type Id = string

  datatype DeviceState = DeviceActive | RevocationPending | Revoked

  datatype Device = Device(owner: Id, name: string, platform: string, publicKey: string, state: DeviceState)

  datatype Region = Region(displayName: string, available: bool, endpoint: string, serverPublicKey: string,
    dns4: string, dns6: string)

  datatype Configuration = Configuration(assignmentId: Id, endpoint: string, serverPublicKey: string,
    addresses: seq<string>, dnsServers: seq<string>, expiresAt: int)

  datatype Record = Record(region: Id, configuration: Configuration)

  datatype Error = InvalidInput | NotFound | Conflict | CapacityExhausted | DeviceNotActive | NoRandomness

  datatype State = State(devices: map<Id, Device>, publicKeys: map<string, Id>, regions: map<Id, Region>,
    idempotency: map<string, Record>, nextHost: map<Id, nat>)

  const FIRST_HOST := 2
  const LAST_HOST := 254
  const DAY := 86_400_000_000_000

  // ---- Texts ----

  const NUL := '\0'

  function RecordKey(owner: Id, device: Id, key: string): string
  {
    owner + [NUL] + device + [NUL] + key
  }

  function HexDigit(d: nat): char
    requires d < 16
  {
    if d < 10 then '0' + d as char else 'a' + (d - 10) as char
  }

  function Hex(n: nat): string
  {
    (if n < 16 then "" else Hex(n / 16)) + [HexDigit(n % 16)]
  }

  function Addresses(host: nat): (r: seq<string>)
    ensures |r| == 2
  {
    ["10.70.0." + Decimal(host) + "/32", "fd70::" + Hex(host) + "/128"]
  }

  /** Two texts behind heads without the separator are equal part by part. */
  lemma HeadsSplit(head: string, rest: string, head': string, rest': string)
    requires NUL !in head && NUL !in head'
    ensures head + [NUL] + rest == head' + [NUL] + rest' <==> head == head' && rest == rest'
  {
    SplitHead(head, rest, NUL);
    SplitHead(head', rest', NUL);
    JoinSplit(rest, NUL);
    JoinSplit(rest', NUL);
    hide Split, Join;
    if head + [NUL] + rest == head' + [NUL] + rest' {
      var parts := Split(head + [NUL] + rest, NUL);
      assert parts[0] == head && parts[0] == head';
      assert parts[1..] == Split(rest, NUL) && parts[1..] == Split(rest', NUL);
    }
  }

  /** Owner o' spells out owner o and its device, up to the end or to another NUL. */
  predicate Swallows(o': Id, o: Id, d: Id)
  {
    o + [NUL] + d <= o' && (|o'| == |o| + 1 + |d| || o'[|o| + 1 + |d|] == NUL)
  }

  /** The key with which the swallowed owner's call meets the other one's. */
  function MeetingKey(o: Id, d: Id, o': Id, d': Id, k': string): string
    requires Swallows(o', o, d)
  {
    (if |o'| == |o| + 1 + |d| then "" else o'[|o| + 1 + |d| + 1..] + [NUL]) + d' + [NUL] + k'
  }

  lemma MeetingKeyMeets(o: Id, d: Id, o': Id, d': Id, k': string)
    requires Swallows(o', o, d)
    ensures RecordKey(o, d, MeetingKey(o, d, o', d', k')) == RecordKey(o', d', k')
    ensures |MeetingKey(o, d, o', d', k')| == |o'| - (|o| + 1 + |d|) + |d'| + 1 + |k'|
  {
    var n := |o| + 1 + |d|;
    assert o'[..n] == o + [NUL] + d;
    if |o'| == n {
      assert o' == o'[..n];
    } else {
      assert o' == o'[..n] + [NUL] + o'[n + 1..];
    }
    assert o + [NUL] + d + [NUL] + MeetingKey(o, d, o', d', k') == o' + [NUL] + d' + [NUL] + k';
  }

  /** With the shorter owner first, equal keys mean equal calls or a swallowed owner. */
  lemma SharedSwallows(o: Id, d: Id, k: string, o': Id, d': Id, k': string)
    requires NUL !in d && NUL !in d' && |o| <= |o'| && RecordKey(o, d, k) == RecordKey(o', d', k')
    ensures (o == o' && d == d' && k == k') || (Swallows(o', o, d) && k == MeetingKey(o, d, o', d', k'))
  {
    var text, text' := RecordKey(o, d, k), RecordKey(o', d', k');
    assert text[..|o|] == o && text'[..|o'|] == o';
    assert text[|o|] == NUL && text[|o| + 1..] == d + [NUL] + k;
    if |o| == |o'| {
      assert text'[|o| + 1..] == d' + [NUL] + k';
      HeadsSplit(d, k, d', k');
    } else {
      SwallowedText(o, d, k, o', d', k');
    }
  }

  lemma SwallowedText(o: Id, d: Id, k: string, o': Id, d': Id, k': string)
    requires NUL !in d && NUL !in d' && |o| < |o'| && RecordKey(o, d, k) == RecordKey(o', d', k')
    ensures Swallows(o', o, d) && k == MeetingKey(o, d, o', d', k')
  {
    var text, n := RecordKey(o, d, k), |o| + 1 + |d|;
    assert text[..|o|] == o && text[|o|] == NUL && text[|o| + 1..n] == d && text[n] == NUL;
    assert text == o' + ([NUL] + d' + [NUL] + k');
    assert text[..|o'|] == o' && text[|o'|] == NUL;
    assert forall i :: |o| + 1 <= i < n ==> text[i] == text[|o| + 1..n][i - |o| - 1];
    assert o'[..n] == text[..n] == o + [NUL] + d;
    assert |o'| > n ==> o'[n] == text[n];
    MeetingKeyMeets(o, d, o', d', k');
    assert text[n + 1..] == k;
    assert (o + [NUL] + d + [NUL] + MeetingKey(o, d, o', d', k'))[n + 1..] == MeetingKey(o, d, o', d', k');
  }

  /** Exactly when two different calls meet in one record: one owner swallows the other owner and its device, and that
      call's key spells out the rest. */
  lemma RecordSharedExactly(o: Id, d: Id, k: string, o': Id, d': Id, k': string)
    requires NUL !in d && NUL !in d' && (o != o' || d != d' || k != k')
    ensures RecordKey(o, d, k) == RecordKey(o', d', k') <==>
            || (Swallows(o', o, d) && k == MeetingKey(o, d, o', d', k'))
            || (Swallows(o, o', d') && k' == MeetingKey(o', d', o, d, k))
  {
    hide RecordKey, Swallows, MeetingKey;
    if Swallows(o', o, d) { MeetingKeyMeets(o, d, o', d', k'); }
    if Swallows(o, o', d') { MeetingKeyMeets(o', d', o, d, k); }
    if RecordKey(o, d, k) == RecordKey(o', d', k') {
      if |o| <= |o'| {
        SharedSwallows(o, d, k, o', d', k');
      } else {
        SharedSwallows(o', d', k', o, d, k);
      }
    }
  }

  const MIN_KEY := 16
  const MAX_KEY := 128

  /** The idempotency keys the service admits. */
  predicate AdmittedKey(key: string)
  {
    MIN_KEY <= |key| <= MAX_KEY
  }

  /** Two admitted calls of different owners can meet in one record. */
  ghost predicate CanShare(o: Id, d: Id, o': Id, d': Id)
  {
    exists k, k' :: AdmittedKey(k) && AdmittedKey(k') && RecordKey(o, d, k) == RecordKey(o', d', k')
  }

  /** Exactly which owners and devices can: one owner swallows the other with its device, and leaves room for a key. */
  lemma CanShareExactly(o: Id, d: Id, o': Id, d': Id)
    requires NUL !in d && NUL !in d' && (o != o' || d != d')
    ensures CanShare(o, d, o', d') <==>
            || (Swallows(o', o, d) && |o'| - (|o| + 1 + |d|) + |d'| + 1 + MIN_KEY <= MAX_KEY)
            || (Swallows(o, o', d') && |o| - (|o'| + 1 + |d'|) + |d| + 1 + MIN_KEY <= MAX_KEY)
  {
    hide RecordKey, Swallows, MeetingKey;
    var shortest := seq(MIN_KEY, i => 'k');
    if Swallows(o', o, d) { MeetingKeyMeets(o, d, o', d', shortest); Lengths(o, d, o'); }
    if Swallows(o, o', d') { MeetingKeyMeets(o', d', o, d, shortest); Lengths(o', d', o); }
    if k, k' :| AdmittedKey(k) && AdmittedKey(k') && RecordKey(o, d, k) == RecordKey(o', d', k') {
      RecordSharedExactly(o, d, k, o', d', k');
      if Swallows(o', o, d) && k == MeetingKey(o, d, o', d', k') {
        MeetingKeyMeets(o, d, o', d', k');
      } else {
        MeetingKeyMeets(o', d', o, d, k);
      }
    }
  }

  lemma Lengths(o: Id, d: Id, o': Id)
    requires Swallows(o', o, d)
    ensures |o'| >= |o| + 1 + |d|
  {
  }

  /** In particular owners without NUL never share: owner, device and key are told apart. */
  lemma RecordKeyInjective(o: Id, d: Id, k: string, o': Id, d': Id, k': string)
    requires NUL !in o && NUL !in d && NUL !in o' && NUL !in d'
    requires RecordKey(o, d, k) == RecordKey(o', d', k')
    ensures o == o' && d == d' && k == k'
  {
    hide RecordKey, Swallows, MeetingKey;
    SwallowsNul(o', o, d);
    SwallowsNul(o, o', d');
    if o != o' || d != d' || k != k' {
      RecordSharedExactly(o, d, k, o', d', k');
    }
  }

  lemma SwallowsNul(o': Id, o: Id, d: Id)
    ensures Swallows(o', o, d) ==> NUL in o'
  {
    if Swallows(o', o, d) {
      assert o'[|o|] == (o + [NUL] + d)[|o|];
    }
  }

  lemma {:induction false} HexInjective(n: nat, m: nat)
    ensures Hex(n) == Hex(m) ==> n == m
  {
    var text, other := Hex(n), Hex(m);
    assert text[|text| - 1] == HexDigit(n % 16) && other[|other| - 1] == HexDigit(m % 16);
    assert text[..|text| - 1] == if n < 16 then "" else Hex(n / 16);
    assert other[..|other| - 1] == if m < 16 then "" else Hex(m / 16);
    if n >= 16 && m >= 16 {
      HexInjective(n / 16, m / 16);
    }
  }

  lemma Surrounded(before: string, a: string, b: string, behind: string)
    ensures before + a + behind == before + b + behind ==> a == b
  {
    assert (before + a + behind)[|before|..|before| + |a|] == a;
    assert (before + b + behind)[|before|..|before| + |b|] == b;
  }

  /** Different hosts have different addresses in both families. */
  lemma AddressesDistinct(n: nat, m: nat)
    requires n != m
    ensures Addresses(n)[0] != Addresses(m)[0] && Addresses(n)[1] != Addresses(m)[1]
  {
    DecimalValue(n);
    DecimalValue(m);
    HexInjective(n, m);
    Surrounded("10.70.0.", Decimal(n), Decimal(m), "/32");
    Surrounded("fd70::", Hex(n), Hex(m), "/128");
  }

  // ---- The operations ----

  datatype Registration = Registration(name: string, platform: string, publicKey: string)

  predicate ValidRegistration(owner: Id, r: Registration)
  {
    && TrimSpace(owner) != "" && TrimSpace(r.name) != "" && |r.name| <= 80
    && r.platform in ["windows", "android", "ios", "android_tv"] && ValidPublicKey(r.publicKey)
  }

  /** id is the drawn device id. */
  function Register(s: State, owner: Id, r: Registration, id: Option<Id>): (State, Result<Device, Error>)
  {
    if !ValidRegistration(owner, r) then (s, Err(InvalidInput))
    else if r.publicKey in s.publicKeys then (s, Err(Conflict))
    else if id == None then (s, Err(NoRandomness))
    else
      var device := Device(owner, TrimSpace(r.name), r.platform, r.publicKey, DeviceActive);
      (s.(devices := s.devices[id.value := device], publicKeys := s.publicKeys[r.publicKey := id.value]), Ok(device))
  }

  function Revoke(s: State, owner: Id, device: Id): (State, Option<Error>)
  {
    if device !in s.devices || s.devices[device].owner != owner then (s, Some(NotFound))
    else if s.devices[device].state == Revoked then (s, None)
    else (s.(devices := s.devices[device := s.devices[device].(state := RevocationPending)]), None)
  }

  datatype Request = Request(owner: Id, device: Id, region: Id, key: string, assignmentId: Option<Id>, now: int)

  /** The checks before the idempotency record is consulted. */
  function Refusal(s: State, q: Request): Option<Error>
  {
    if !AdmittedKey(q.key) then Some(InvalidInput)
    else if q.device !in s.devices || s.devices[q.device].owner != q.owner then Some(NotFound)
    else if s.devices[q.device].state != DeviceActive then Some(DeviceNotActive)
    else if q.region !in s.regions || !s.regions[q.region].available then Some(NotFound)
    else None
  }

  function Configured(region: Region, host: nat, assignmentId: Id, now: int): Configuration
  {
    Configuration(assignmentId, region.endpoint, region.serverPublicKey, Addresses(host), [region.dns4, region.dns6],
                  now + DAY)
  }

  /** A missing counter reads as zero. */
  function NextHost(s: State, region: Id): nat
  {
    if region in s.nextHost then s.nextHost[region] else 0
  }

  /** The flag says whether the configuration is new. */
  function Create(s: State, q: Request): (State, Result<(Configuration, bool), Error>)
  {
    var key := RecordKey(q.owner, q.device, q.key);
    if Refusal(s, q).Some? then (s, Err(Refusal(s, q).value))
    else if key in s.idempotency then
      (s, if s.idempotency[key].region != q.region then Err(Conflict)
        else Ok((s.idempotency[key].configuration, false)))
    else if NextHost(s, q.region) > LAST_HOST then (s, Err(CapacityExhausted))
    else if q.assignmentId == None then (s, Err(NoRandomness))
    else
      var configuration := Configured(s.regions[q.region], NextHost(s, q.region), q.assignmentId.value, q.now);
      (s.(nextHost := s.nextHost[q.region := NextHost(s, q.region) + 1],
          idempotency := s.idempotency[key := Record(q.region, configuration)]),
       Ok((configuration, true)))
  }

  predicate ValidRegion(id: Id, region: Region)
  {
    && TrimSpace(id) != "" && |id| <= 32 && TrimSpace(region.displayName) != "" && TrimSpace(region.endpoint) != ""
    && ValidPublicKey(region.serverPublicKey) && TrimSpace(region.dns4) != "" && TrimSpace(region.dns6) != ""
  }

  /** Valid regions under pairwise distinct ids. */
  ghost predicate Admissible(listed: seq<(Id, Region)>)
  {
    && (forall i :: 0 <= i < |listed| ==> ValidRegion(listed[i].0, listed[i].1))
    && (forall i, j :: 0 <= i < j < |listed| ==> listed[i].0 != listed[j].0)
  }

  /** The map holds exactly the listed regions. */
  ghost predicate Lists(regions: map<Id, Region>, listed: seq<(Id, Region)>)
  {
    && (forall id :: id in regions ==> (id, regions[id]) in listed)
    && (forall i :: 0 <= i < |listed| ==> listed[i].0 in regions && regions[listed[i].0] == listed[i].1)
  }

  /** One more entry is admissible exactly when it is valid and its id is new. */
  lemma OneMoreListed(regions: map<Id, Region>, listed: seq<(Id, Region)>, id: Id, region: Region)
    requires Lists(regions, listed) && Admissible(listed)
    ensures Admissible(listed + [(id, region)]) <==> ValidRegion(id, region) && id !in regions
    ensures id !in regions ==> Lists(regions[id := region], listed + [(id, region)])
  {
    hide ValidRegion;
    var longer := listed + [(id, region)];
    assert longer[|listed|] == (id, region);
    assert forall i :: 0 <= i < |listed| ==> longer[i] == listed[i];
    if id in regions {
      var k :| 0 <= k < |listed| && listed[k] == (id, regions[id]);
      assert longer[k].0 == longer[|listed|].0;
    }
  }

  lemma NothingListed(listed: seq<(Id, Region)>)
    ensures Lists(map[], listed[..0]) && Admissible(listed[..0])
  {
  }

  lemma AdmissiblePrefix(listed: seq<(Id, Region)>, n: nat)
    requires n <= |listed|
    ensures Admissible(listed) ==> Admissible(listed[..n])
  {
    hide ValidRegion;
  }

  // ---- The service as code ----

  class Service {
    var devices: map<Id, Device>
    var publicKeys: map<string, Id>
    var regions: map<Id, Region>
    var idempotency: map<string, Record>
    var nextHost: map<Id, nat>

    function View(): State
      reads this
    {
      State(devices, publicKeys, regions, idempotency, nextHost)
    }

    constructor ()
      ensures View() == State(map[], map[], map[], map[], map[])
    {
      devices, publicKeys, regions, idempotency, nextHost := map[], map[], map[], map[], map[];
    }

    /** Fill an empty service with its regions; the first entry that is invalid or repeats an id is refused. */
    method AddRegions(listed: seq<(Id, Region)>) returns (r: Option<Error>)
      requires regions == map[] && nextHost == map[]
      modifies this`regions, this`nextHost
      ensures r == None <==> Admissible(listed)
      ensures r == None ==> Ready(View()) && Lists(regions, listed)
      ensures r.Some? ==> exists i :: 0 <= i < |listed| && Admissible(listed[..i]) && !Admissible(listed[..i + 1])
                                      && r.value == if ValidRegion(listed[i].0, listed[i].1) then Conflict
                                        else InvalidInput
    {
      hide ValidRegion, Lists, Admissible;
      assert Lists(map[], listed[..0]) && Admissible(listed[..0]) by { NothingListed(listed); }
      for i := 0 to |listed|
        invariant Ready(View()) && Lists(regions, listed[..i]) && Admissible(listed[..i])
      {
        var (id, region) := listed[i];
        assert listed[..i + 1] == listed[..i] + [(id, region)];
        OneMoreListed(regions, listed[..i], id, region);
        AdmissiblePrefix(listed, i + 1);
        if !ValidRegion(id, region) {
          return Some(InvalidInput);
        }
        if id in regions {
          return Some(Conflict);
        }
        regions := regions[id := region];
        nextHost := nextHost[id := FIRST_HOST];
      }
      assert listed[..|listed|] == listed;
      return None;
    }

    method RegisterDevice(owner: Id, request: Registration, id: Option<Id>) returns (r: Result<Device, Error>)
      modifies this
      ensures (View(), r) == Register(old(View()), owner, request, id)
    {
      if TrimSpace(owner) == "" || TrimSpace(request.name) == "" || |request.name| > 80 {
        return Err(InvalidInput);
      }
      if request.platform !in ["windows", "android", "ios", "android_tv"] || !ValidPublicKey(request.publicKey) {
        return Err(InvalidInput);
      }
      if request.publicKey in publicKeys {
        return Err(Conflict);
      }
      if id == None {
        return Err(NoRandomness);
      }
      var device := Device(owner, TrimSpace(request.name), request.platform, request.publicKey, DeviceActive);
      devices := devices[id.value := device];
      publicKeys := publicKeys[request.publicKey := id.value];
      return Ok(device);
    }

    method RequestRevocation(owner: Id, device: Id) returns (r: Option<Error>)
      modifies this
      ensures (View(), r) == Revoke(old(View()), owner, device)
    {
      if device !in devices || devices[device].owner != owner {
        return Some(NotFound);
      }
      if devices[device].state == Revoked {
        return None;
      }
      devices := devices[device := devices[device].(state := RevocationPending)];
      return None;
    }

    method CreateTunnelConfiguration(q: Request) returns (r: Result<(Configuration, bool), Error>)
      modifies this
      ensures (View(), r) == Create(old(View()), q)
    {
      if |q.key| < MIN_KEY || |q.key| > MAX_KEY {
        return Err(InvalidInput);
      }
      if q.device !in devices || devices[q.device].owner != q.owner {
        return Err(NotFound);
      }
      if devices[q.device].state != DeviceActive {
        return Err(DeviceNotActive);
      }
      if q.region !in regions || !regions[q.region].available {
        return Err(NotFound);
      }
      var key := RecordKey(q.owner, q.device, q.key);
      if key in idempotency {
        if idempotency[key].region != q.region {
          return Err(Conflict);
        }
        return Ok((idempotency[key].configuration, false));
      }
      var host := NextHost(View(), q.region);
      if host > LAST_HOST {
        return Err(CapacityExhausted);
      }
      if q.assignmentId == None {
        return Err(NoRandomness);
      }
      var configuration := Configured(regions[q.region], host, q.assignmentId.value, q.now);
      nextHost := nextHost[q.region := host + 1];
      idempotency := idempotency[key := Record(q.region, configuration)];
      return Ok((configuration, true));
    }
  }

  /** A service that has handed out no address yet. */
  ghost predicate Ready(s: State)
  {
    forall r :: r in s.regions || r in s.nextHost ==> r in s.regions && r in s.nextHost && s.nextHost[r] == FIRST_HOST
  }
}
