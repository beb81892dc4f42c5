# Verification of the control plane

A Dafny model of the Go control plane in `services/api`, with proofs over every input, every run or every
reachable state. Operations that update state in the source are classes or methods proved against specification
functions; what the source promises is then proved about those functions. `dafny verify dfyconfig.toml` checks
the whole project.

| part | files |
|---|---|
| snapshots, differences and the WireGuard table | Snapshots, Differences, WireGuard, Convergence, Limits |
| the gateway worker and its runs | Workers, WorkerRuns, WorkerOutcomes |
| address search, the allocation and confirmation transactions | Addresses, Database, Lifecycle, StoreRuns, StoreTheorems, Capacity, AllocationOutcomes |
| the snapshot outbox and the reconciler | Outbox, OutboxRuns, OutboxHistory, Reconciler, ReconcilerRuns, Reconcile, GatewayRuns |
| all of the above in one system | ControlPlane |
| sessions | Sessions, SessionRuns, SessionTheorems, SessionAnswers |
| password hashes | Passwords |
| the in-memory service | Control, ControlRuns, ControlOutcomes |
| shared | Wrappers, Ordering, Arithmetic, Base64, Texts |

The gateway is a table from public keys to addresses with the ownership rule of WireGuard's cryptokey routing
(section 2 of the WireGuard paper): an address has one owner, and assigning it takes it from the old one.
`wg set ... allowed-ips` replaces a peer's list and removing an absent peer does nothing. A command may fail, and a
failed command may or may not have reached the kernel.

Every operation is stated twice: against a specification function, and by outcome laws (the files named Outcomes,
Answers and History) that say what it answers and changes in terms of the rows or of the earlier calls alone, with
every limit and lifetime written out.

The session theorems compare the three maps with a reference that has no maps: it reads the list of calls and says
which call issued a token, which later calls ended its family, and which call spent it. Tokens and family ids are
drawn without repetition, and any draw may fail.

## What the proofs found

Each item is a theorem that gives the exact condition or a lemma that gives the input.

- The worker never reads the table back, although docs/control-plane.md:66 says that it does. Applying a difference
  reaches the snapshot exactly when the table agrees with it on the keys the difference is silent about, up to
  addresses the difference itself moves (`Convergence.ConvergesExactly`). A lost acknowledgement followed by a
  different snapshot breaks that, and a withdrawn peer stays on the gateway (`WorkerRuns.LostAckLeavesPeer`); a
  restarted worker converges exactly when the table holds no foreign key (`Convergence.RestartConvergesExactly`).
- Validation compares address texts. An IPv6 address has several, so two spellings of one pass it, and no table can
  then hold both peers (`Convergence.SpellingsDefeatValidation`, with the exact condition in
  `Convergence.ValidDistinctExactly`). Snapshots built from the database are canonical and not affected
  (`Reconciler.SnapshotPeersValid`).
- Two valid snapshots of at most 100000 peers each can differ on more than 100000 keys, and the backend refuses so
  long a list (`Limits.ReplacementAppliesExactly`).
- Confirmation covers assignments by generation number, not by what the snapshot carried: an assignment made after
  the snapshot was built is marked active by that snapshot's acknowledgement (`Reconciler.UnsentConfirmed`, with the
  exact condition over runs in `GatewayRuns.LateConfirmExactly`), and the gateway is then on no list until something
  new is desired of it (`GatewayRuns.UnlistedUntil`).
- A snapshot still carries the peers whose removal it confirms. When a device is revoked and its lease released, the
  gateway keeps routing both addresses to its key (`ControlPlane.RevokedStillRouted`), and the next allocation may hand
  an address out again, on any gateway (`GatewayRuns.FreedAddressReusedExactly`).
- A row in flight is never reclaimed. It stays as it is exactly until it is acknowledged or handed back
  (`OutboxRuns.InFlightIsStuck`), so a lost reply to a claim keeps its gateway off every list for good
  (`Reconciler.SilentWhileInFlight`).
- A device becomes revoked exactly by the removal of its assignment, so one that never had an assignment stays
  revocation_pending (`StoreTheorems.RevokedExactly`).
- docs/control-plane.md:70 and the comment at services/api/internal/auth/session.go:79 say that reuse of a spent
  refresh token revokes its family. The code revokes every family of the user (`SessionTheorems.ReuseRevokesUser`); the
  model follows the code.
- An issue whose last random draw fails leaves an access session behind (`SessionTheorems.FailedIssueLeaves`).
- The PHC parser ignores whatever precedes the first dollar sign (`Passwords.FirstPartIgnored`).
- The in-memory service joins owner, device and key with NUL. Owner ids are not checked for it, and an owner named like
  another with its device can be handed the other's configuration (`ControlRuns.MeetingSharesConfiguration`; exactly
  which owners, in `Control.CanShareExactly`).
- The in-memory service numbers hosts per region but writes the region into no address, so the first devices of two
  regions get the same addresses (`ControlRuns.AddressesSharedExactly`), and its devices never become revoked
  (`ControlRuns.RunKeysInverse`).

## Model

| member | source | states |
|---|---|---|
| `Base64.DecodeInverts` | services/api/internal/agent/snapshot.go:143-146 | decoding undoes encoding for the standard, raw standard and raw URL alphabets, on all byte strings |
| `Base64.ValidPublicKeyExactly` | services/api/internal/agent/snapshot.go:143-146 | a key text is accepted iff it is the encoder's own spelling of 32 bytes, so two accepted texts never name one key |
| `Base64.PublicKeyTextExactly` | services/api/internal/agent/snapshot.go:143-146 | the accepted key texts, spelled out: 42 characters of the standard alphabet, one of AEIMQUYcgkosw048, and an equals sign |
| `Base64.EncodingsInUse` | services/api/internal/auth/password.go:37 | keys are padded and in the standard alphabet, hashes unpadded in the same, tokens unpadded in the URL alphabet; the length of each text |
| `Base64.DigitExactly` | services/api/internal/auth/password.go:37 | the 64 digits are those of the two tables of RFC 4648, in order |
| `Base64.GroupIsNumber` | services/api/internal/auth/password.go:37 | three bytes are written as the four base-64 digits of one 24-bit number |
| `Base64.TailWritten` | services/api/internal/auth/password.go:37 | one or two last bytes are filled up with zero bits and padded where the encoding pads |
| `Base64.DecodeLenient` | services/api/internal/auth/password.go:90-97 | decoding skips line breaks wherever they stand and drops the bits behind the last full byte |
| `Snapshots.Validate` | services/api/internal/agent/snapshot.go:48-76 | one pass over the peers with three sets of seen texts answers yes iff the header is good, there are at most 100000 peers, each is well formed, and no two share a key, an IPv4 text or an IPv6 text; the header is spelled out by `WorkerOutcomes.AuthenticExactly` and `Reconciler.PublishedValidExactly`, the list by `WireGuard.ValidPeersExactly` |
| `WireGuard.ValidPeersExactly` | services/api/internal/agent/snapshot.go:55-74 | the valid peer lists, spelled out: every key encodes 32 bytes, every peer has one /32 IPv4 and one /128 IPv6 text, and no two peers share a key or a text |
| `WorkerOutcomes.AuthenticExactly` | services/api/internal/agent/snapshot.go:48-90 | what a worker may act on, spelled out: the announced positive generation, this gateway, before its expiry, at most 100000 valid peers, a 64-byte signature that checks |
| `Snapshots.Diff` | services/api/internal/agent/snapshot.go:105-135 | ranging over both maps in any order and sorting gives a sorted list whose multiset of operations is one per key that is new, changed or gone; an error iff the snapshot's shape is invalid |
| `Snapshots.SortOperations` | services/api/internal/agent/snapshot.go:128-133 | the result is ordered by key, then by kind, and is a permutation of the input |
| `Snapshots.IndexByKey` | services/api/internal/agent/worker.go:114-117 | rebuilding the peer map in list order gives the last peer of each key |
| `Snapshots.ByKeyComplete` | services/api/internal/agent/snapshot.go:110-113 | with pairwise distinct keys the peer map loses no peer |
| `Differences.DiffDeterministic` | services/api/internal/agent/snapshot.go:115-133 | two sorted lists built from the same maps in different iteration orders are equal, even when the observed map is not keyed by its peers' own keys |
| `Differences.DiffMinimal` | services/api/internal/agent/snapshot.go:114-133 | for a key-consistent observed map the output is exactly the reference list: strictly increasing keys, one operation per key on which the maps differ; empty iff they agree |
| `Differences.DiffOperationsExactly` | services/api/internal/agent/snapshot.go:114-127 | an operation is in the difference iff it adds a new key's desired peer, updates a key whose texts differ to its desired peer, or removes a gone key without addresses |
| `Differences.KindsInOrder` | services/api/internal/agent/snapshot.go:128-133 | operations of one key come in the order of the texts add, remove, update |
| `Ordering.LessExactly` | services/api/internal/agent/snapshot.go:128-133 | texts are ordered by the first character in which they differ, a prefix first |
| `WireGuard.WireGuardBackend.Apply` | services/api/internal/agent/wireguard.go:27-41 | after a run the table is the fold of exactly the operations that reached the kernel before the first refusal or failure, and the answer is yes iff all of them did |
| `WireGuard.AcceptedExactly` | services/api/internal/agent/wireguard.go:43-78 | a command is built iff the interface name is made of letters, digits, underscores and hyphens, the key encodes 32 bytes, and the texts are a /32 and a /128 to set or blank to remove |
| `WireGuard.AfterExclusive` | services/api/internal/agent/wireguard.go:31-39 | every prefix of any operation list keeps one owner per address |
| `WireGuard.AfterPointwise` | services/api/internal/agent/wireguard.go:31-39 | what a prefix leaves under each key: the desired addresses where it acted, the old ones minus those it gave away elsewhere |
| `Convergence.ConvergesExactly` | services/api/internal/agent/snapshot.go:105-135 | for every table with one owner per address, applying the difference yields exactly the snapshot's peers iff the snapshot gives no address to two peers and the table agrees with it on every key the difference is silent about, up to addresses the difference itself reassigns |
| `Convergence.ObservedRestorable` | services/api/internal/agent/worker.go:103-107 | that condition holds for the table the worker believes in |
| `Convergence.DesiredRestorable` | services/api/internal/agent/worker.go:103-107 | and for the table that already is the snapshot's, whatever the worker believes |
| `Convergence.PrefixRestorable` | services/api/internal/agent/wireguard.go:31-39 | and it survives any prefix of the same operations, so redelivery after a partial application converges |
| `Convergence.RestartConvergesExactly` | services/api/internal/agent/worker.go:103-117 | a worker that starts with no beliefs converges iff the table holds no key outside the snapshot |
| `Convergence.IntermediateSafe` | services/api/internal/agent/wireguard.go:31-39 | from the believed table, every intermediate table keeps both addresses of every unchanged peer, has one owner per address, and holds only observed or desired keys, each with addresses of its own |
| `Convergence.DiffAccepted` | services/api/internal/agent/wireguard.go:43-67 | every operation of a difference becomes a command, so a run succeeds iff the maps differ on at most 100000 keys and no command fails |
| `Limits.NumberedValid` | services/api/internal/agent/snapshot.go:48-76 | for every length there is a valid peer list, with keys and addresses spelled out |
| `Limits.ReplacementAppliesExactly` | services/api/internal/agent/wireguard.go:28 | replacing n such peers by m entirely different ones, each list within the snapshot limit, succeeds iff n + m is within the operation limit and no command fails; so two full snapshots are refused for every behaviour of the runner |
| `Convergence.CanonicalDistinct` | services/api/internal/agent/snapshot.go:58-74 | when all IPv6 texts are canonical, a valid list gives no address to two peers |
| `Convergence.ValidDistinctExactly` | services/api/internal/agent/snapshot.go:58-74 | a valid list gives no address to two peers iff no IPv6 address comes twice: IPv4 texts are unique, IPv6 texts are not |
| `Convergence.SpellingsDefeatValidation` | services/api/internal/agent/snapshot.go:68-70 | two texts of one IPv6 address pass validation and no table with one owner per address converges |
| `Workers.Worker.ApplyOnce` | services/api/internal/agent/worker.go:77-119 | one call is one step of the reference machine: same new beliefs, table, source calls and outcome on every path, including a failed acknowledgement; what that step answers, calls and changes in each case is spelled out by the laws of `WorkerOutcomes` |
| `Workers.Worker.Process` | services/api/internal/agent/worker.go:85-118 | the path after a successful claim refines the same step; when it succeeds is `WorkerOutcomes.NewerDelivery` |
| `WorkerOutcomes.AttemptedExactly` | services/api/internal/agent/worker.go:89-103 | a delivery is attempted iff the worker may act on it, it is newer than the current snapshot, and its expiry is after the zero time |
| `WorkerOutcomes.ApplicationExactly` | services/api/internal/agent/wireguard.go:27-67 | with n the number of keys on which the maps differ: all commands are run iff n is at most 100000, the interface name is usable and no command below n fails; otherwise exactly those before the failing one have effect, and it too if it reached the kernel |
| `WorkerOutcomes.NewerDelivery` | services/api/internal/agent/worker.go:100-118 | a newer delivery succeeds iff all its n commands are run and the acknowledgement is through; then it is current. It is acknowledged iff all are run and handed back otherwise, with the commands that had effect left in the table |
| `WorkerOutcomes.StaleDelivery` | services/api/internal/agent/worker.go:100-102 | one that is not newer is acknowledged, and table and beliefs stay |
| `WorkerOutcomes.RefusedDelivery` | services/api/internal/agent/worker.go:85-99 | one that may not be acted on is handed back, and table and beliefs stay |
| `WorkerOutcomes.AncientDelivery` | services/api/internal/agent/worker.go:103-106 | a newer one whose expiry is not after the zero time is handed back before any command is run |
| `WorkerOutcomes.EmptyPoll` | services/api/internal/agent/worker.go:44-84 | without a delivery nothing changes; an empty poll is no failure, a failed claim is one |
| `WorkerOutcomes.UnconfiguredFails` | services/api/internal/agent/worker.go:78-80 | without a gateway id or with a key that is not 32 bytes long nothing is claimed |
| `WorkerOutcomes.KeysStayValid` | services/api/internal/agent/worker.go:113-117 | the believed keys stay valid over every run, so these outcomes are those of every call of every run |
| `WorkerOutcomes.AdoptedInTime` | services/api/internal/agent/snapshot.go:49 | over every run a snapshot becomes current only by a call whose clock is before its expiry |
| `WorkerOutcomes.ExpiredHandedBack` | services/api/internal/agent/snapshot.go:49 | over every run an expired delivery gets exactly a Retry and changes neither table nor beliefs |
| `Workers.Worker.Run` | services/api/internal/agent/worker.go:44-73 | the loop is the run of steps, and the delay after each attempt is the closed form for the failures in a row so far |
| `Workers.DelayDoubles` | services/api/internal/agent/worker.go:53-59 | the closed form min(interval*2^k, 30 s), or the interval when it is at least 30 s, is what the branch computes |
| `Workers.DelayBounds` | services/api/internal/agent/worker.go:44-73 | every delay lies between the interval and max(interval, 30 s) |
| `Workers.DelayExactly` | services/api/internal/agent/worker.go:44-73 | the delay is the interval doubled k times up to 30 seconds, and an interval of 30 seconds or more stays |
| `WorkerRuns.PeersMatchCurrent` | services/api/internal/agent/worker.go:113-117 | over every run the believed peers are exactly the current snapshot's, by key |
| `WorkerRuns.GenerationMonotone` | services/api/internal/agent/worker.go:100-113 | over every run the adopted generation never decreases |
| `WorkerRuns.OneCallPerClaim` | services/api/internal/agent/worker.go:81-126 | over every run each claimed delivery gets exactly one Ack or Retry, for its own id and in claim order |
| `WorkerRuns.AckOnlyWhenDone` | services/api/internal/agent/worker.go:97-112 | Ack goes only to an authentic snapshot that is stale or completely applied |
| `WorkerRuns.AttemptedRun` | services/api/internal/agent/worker.go:103-109 | an attempt leaves the table at a prefix of the difference, the whole of it when it succeeds |
| `WorkerRuns.AdoptionConvergesExactly` | services/api/internal/agent/worker.go:107-117 | after an adoption the table is the adopted peer set iff the table before was restorable for it |
| `WorkerRuns.AlwaysExclusive` | services/api/internal/agent/worker.go:107-109 | no delivery history gives an address two owners |
| `WorkerRuns.RedeliveryKeepsInStep` | services/api/internal/agent/worker.go:107-118 | if every attempt that disturbed the table and failed is followed by redelivery of the same peers, the table equals the current peer set after every adoption |
| `WorkerRuns.LostAck` | services/api/internal/agent/worker.go:110-112 | an attempt whose acknowledgement is lost changes the table completely and the beliefs not at all |
| `WorkerRuns.EmptySnapshotLeavesTable` | services/api/internal/agent/worker.go:103-117 | adopting an empty snapshot while believing in no peers runs no command |
| `WorkerRuns.LostAckLeavesPeer` | services/api/internal/agent/worker.go:107-117 | hence, with two deliveries each under its own valid signature, after a lost acknowledgement a newer empty snapshot is adopted and the withdrawn peer stays on the gateway |
| `Addresses.FirstAvailableAddress` | services/api/internal/postgres/store.go:738-756 | the bounded search returns what the reference search returns, exhaustion included, and refuses a pool text that does not parse |
| `Addresses.FirstFreeExactly` | services/api/internal/postgres/store.go:744-755 | the answer is the least unused address of the window, and exhaustion is reported iff the window has none |
| `Addresses.WindowSize` | services/api/internal/postgres/store.go:744-749 | the window holds min(65535, 2^(32-p)-3) IPv4 or min(65535, 2^(128-p)-2) IPv6 addresses, none when that is negative: /31, /32 and /128 pools, and pools at the top of the address space, included |
| `Addresses.FirstFreeSucceeds` | services/api/internal/postgres/store.go:738-756 | by pigeonhole the search succeeds whenever fewer addresses are used than the window holds |
| `Addresses.WindowInside` | services/api/internal/postgres/store.go:743-749 | a candidate is never the pool's base, base+1 or last IPv4 address, and fits the address space |
| `AllocationOutcomes.SearchIsLeast` | services/api/internal/postgres/store.go:738-756 | the search finds the least unused address from the third on, at most 65535 addresses far and short of an IPv4 pool's last, or nothing iff all of these are used |
| `Database.Store.CreateTunnelConfiguration` | services/api/internal/postgres/store.go:472-702 | the transaction is the reference step: same answer with its created flag, or same error, and same tables on each path (blank ids, refusal, replay, reuse, new allocation); who is served and with what is `AllocationOutcomes.AnsweredExactly` and `AllocationOutcomes.NewAllocationExactly` |
| `Database.Store.AllocateNew` | services/api/internal/postgres/store.go:612-701 | the new-allocation branch likewise |
| `Database.Store.FindExisting` | services/api/internal/postgres/store.go:562-575 | scanning the join finds a live assignment with an unreleased lease iff the device has one |
| `Database.Store.PickGateway` | services/api/internal/postgres/store.go:616-637 | the scan finds the ready gateway with room that has the fewest live assignments, the least id among equals, or none iff none has room |
| `Database.PlacementUnique` | services/api/internal/postgres/store.go:616-634 | that gateway is unique |
| `AllocationOutcomes.PlacementExactly` | services/api/internal/postgres/store.go:616-640 | the placement is the ready gateway of the region below its capacity with the fewest live assignments, the least id among equals; none iff no gateway is ready and below |
| `Database.Store.ActiveAddresses` | services/api/internal/postgres/store.go:704-736 | the loop collects exactly the addresses of the region's unreleased leases |
| `Database.Store.RevokeDevice` | services/api/internal/postgres/store.go:363-373 | the update is the reference step; an unknown or foreign device changes nothing; its effect is `AllocationOutcomes.RevocationExactly` |
| `Database.Store.ConfirmGatewaySnapshot` | services/api/internal/postgres/store.go:175-216 | the three updates in order are the reference step; its effect is `AllocationOutcomes.ConfirmExactly` |
| `Database.Store.AdvanceAssignments` | services/api/internal/postgres/store.go:186-192 | the first update settles exactly the gateway's live assignments up to the generation |
| `Database.Store.ReleaseRemoved` | services/api/internal/postgres/store.go:196-201 | the second releases exactly the leases of the gateway's removed assignments |
| `Database.Store.RevokeRemoved` | services/api/internal/postgres/store.go:204-209 | the third revokes exactly the pending devices of the gateway's removed assignments |
| `AllocationOutcomes.AnsweredExactly` | services/api/internal/postgres/store.go:472-702 | in every state that keeps the invariant a request is served iff there is no reason against it; the reasons, read off the rows in order, are the errors: malformed, not the owner's device, device not active, recorded for another region, region closed, live in another region, no gateway or address left, id taken |
| `AllocationOutcomes.NewAllocationExactly` | services/api/internal/postgres/store.go:612-701 | a served request of a device without a live assignment adds one lease and one pending assignment, on the placement and with the least free address of each pool, records the answer for its key, and answers with that configuration, a day long |
| `AllocationOutcomes.RevocationExactly` | services/api/internal/postgres/store.go:363-373 | only the owner's request is accepted; it makes the device revocation_pending unless it is revoked, and changes nothing else |
| `AllocationOutcomes.NeverServedAgain` | services/api/internal/postgres/store.go:363-373 | over every run, after an accepted revocation request every well-formed call of the owner for the device is refused as not active, recorded keys included |
| `AllocationOutcomes.ConfirmExactly` | services/api/internal/postgres/store.go:162-216 | what a confirmation does to every row: the live assignments of the gateway up to the generation are observed as desired and become active, or removed if they were on their way out; exactly the latter's leases are released and their pending devices revoked |
| `AllocationOutcomes.RegisterExactly` | services/api/internal/postgres/store.go:308-330 | a registration adds an active device iff its key encodes 32 bytes and neither id nor key is taken |
| `Lifecycle.BeginningHasInv` | services/api/migrations/0001_initial.sql:24-139 | tables that hold only regions and gateways satisfy the joint invariant |
| `Lifecycle.NoClash` | services/api/internal/postgres/store.go:551-553 | the partial unique indexes never fire on a new allocation, so an ordinary retry is never turned into a conflict |
| `Lifecycle.SearchesInLockstep` | services/api/internal/postgres/store.go:642-653 | in a state that keeps the invariant the IPv4 and the IPv6 search stop at the same offset |
| `Lifecycle.AllocateErrs` | services/api/internal/postgres/store.go:635-672 | an allocation that fails changes nothing, and fails only for lack of capacity or a repeated uuid |
| `Lifecycle.AllocateInserts` | services/api/internal/postgres/store.go:612-672 | one that succeeds inserts at the placement, with two free addresses at one offset |
| `Lifecycle.FreshDevice` | services/api/internal/postgres/store.go:562-575 | an active device without a live assignment never had one |
| `Lifecycle.CreateOutcome` | services/api/internal/postgres/store.go:472-702 | the transaction keeps the invariant, and a successful answer is the configuration of the device's assignment |
| `Lifecycle.CreateErrs` | services/api/internal/postgres/store.go:472-702 | an error leaves every table as it was |
| `StoreRuns.ConfirmKeepsInv` | services/api/internal/postgres/store.go:175-216 | confirmation keeps leases and assignments paired, live iff unreleased, and revokes exactly the devices whose assignment was removed |
| `StoreRuns.ConfirmPointwise` | services/api/internal/postgres/store.go:186-201 | what confirmation does to each assignment and its lease |
| `StoreRuns.RevokeKeepsInv` | services/api/internal/postgres/store.go:363-373 | a revocation request keeps the invariant |
| `StoreRuns.ApplyKeepsInv` | services/api/internal/postgres/store.go:175-702 | every step (register, allocate, request revocation, withdraw, confirm, gateway and region changes) keeps the joint invariant: one-to-one leases and assignments, agreeing states, lockstep, capacity, faithful stored answers, distinct keys |
| `StoreTheorems.ApplyGrows` | services/api/internal/postgres/store.go:175-702 | no step loses a row or changes its identity; removal and release are final, device states only move forward, stored answers are never rewritten |
| `StoreTheorems.RunGrows` | services/api/internal/postgres/store.go:175-702 | the same between any two points of any run |
| `StoreTheorems.SameConfiguration` | services/api/internal/postgres/store.go:494-610 | all successful calls for one device in a run, under any mix of idempotency keys, return the same assignment, addresses, endpoint, DNS servers and expiry |
| `StoreTheorems.AnswerStands` | services/api/internal/postgres/store.go:479-610 | after an answer, as long as the device is active: every recorded key of the device, its own included, replays that answer or conflicts for another region and changes nothing, even with the region closed; a new key for the same open region gets the same answer, one for another region is refused, and a blank or unknown region is an error |
| `StoreTheorems.RecordedIsConfiguration` | services/api/internal/postgres/store.go:590-602 | every recorded response of a device is the configuration of its one assignment |
| `StoreTheorems.RevokedExactly` | services/api/internal/postgres/store.go:186-209 | in every reachable state a device is revoked iff its assignment has been removed, and then it has no live assignment and no unreleased lease |
| `StoreTheorems.LivePairs` | services/api/internal/postgres/store.go:655-672 | in every reachable state a device has at most one live assignment, and an unreleased lease belongs to exactly one live assignment |
| `StoreTheorems.AddressesInLockstep` | services/api/internal/postgres/store.go:642-660 | in every reachable state the live addresses of a region are pairwise distinct, at equal offsets from both pool bases, inside the pools and never reserved ones |
| `StoreTheorems.ConfirmJoins` | services/api/internal/postgres/store.go:186-209 | confirming m and then n, in either order, is confirming the greater |
| `Capacity.CreateBalanced` | services/api/internal/postgres/store.go:616-634 | an allocation keeps any two ready gateways of a region within one assignment of each other unless the emptier is full |
| `Capacity.StaysBalanced` | services/api/internal/postgres/store.go:616-640 | so does every run that only registers, allocates and requests revocation |
| `Capacity.NeverOverCapacity` | services/api/internal/postgres/store.go:621-626 | in every reachable state no gateway carries more live assignments than its capacity |
| `Capacity.ExhaustedExactly` | services/api/internal/postgres/store.go:612-653 | a new allocation is out of capacity iff every ready gateway is full or the live leases number as many as the smaller of the region's two windows |
| `Outbox.OutboxTable.EnqueueSnapshot` | services/api/internal/postgres/store.go:375-385 | the insert is the reference step, with its input checks and both unique constraints |
| `Outbox.OutboxTable.ClaimNextSnapshot` | services/api/internal/postgres/store.go:387-428 | scanning in any order claims the reference row and counts an attempt; which row that is, told from the history, is `OutboxHistory.ClaimTakesExactly` |
| `Outbox.OutboxTable.AckSnapshot` | services/api/internal/postgres/store.go:430-448 | an acknowledgement lands only on the row in flight with that id, gateway and generation |
| `Outbox.OutboxTable.RetrySnapshot` | services/api/internal/postgres/store.go:450-470 | a retry lands only on the row in flight |
| `Outbox.OutboxTable.NextGatewaySnapshotGeneration` | services/api/internal/postgres/store.go:98-107 | the scan computes one more than the greatest generation, 1 for none |
| `Outbox.ClaimExactly` | services/api/internal/postgres/store.go:400-412 | a row is claimed iff one is available, and it has the least generation of the available ones; when a row is available is `OutboxHistory.ClaimTakesExactly` |
| `OutboxHistory.ClaimTakesExactly` | services/api/internal/postgres/store.go:387-428 | over every run a claim takes a row iff it was enqueued or handed back for a time that has come and not taken since, was taken fewer than a hundred times, and no other such row of the gateway has a smaller generation; NotFound iff there is no such row |
| `OutboxHistory.HandedBackIsTaken` | services/api/internal/postgres/store.go:400-470 | over every run a row handed back is taken by a later claim of its gateway iff the retry time has come, it has attempts left, and nothing of a smaller generation is to be had |
| `OutboxHistory.RunLinked` | services/api/internal/postgres/store.go:375-470 | over every run a row waits for the time it was last put up for, and its attempts are the number of times it was taken |
| `OutboxHistory.EnqueueExactly` | services/api/internal/postgres/store.go:375-385 | a row is added iff it names a gateway, a positive generation and a 64-byte signature and neither its id nor its gateway's generation is taken; which error otherwise; nothing else changes |
| `OutboxRuns.RunInv` | services/api/internal/postgres/store.go:375-470 | generations are unique per gateway and attempts at most 100 in every reachable state |
| `OutboxRuns.AckedIsFinal` | services/api/internal/postgres/store.go:430-470 | an acknowledged row never changes again |
| `OutboxRuns.AttemptsConserved` | services/api/internal/postgres/store.go:400-470 | over every run from an empty table the attempts of a row are its retries plus one if it is in flight or acknowledged |
| `OutboxRuns.StepLowersTotal` | services/api/internal/postgres/store.go:404-462 | every claim, acknowledgement or retry that takes effect lowers the sum over all rows of 2*(100-attempts)+[in flight] by one |
| `OutboxRuns.RunsAreFinite` | services/api/internal/postgres/store.go:387-470 | so without enqueues at most 201 operations per row take effect |
| `OutboxRuns.InFlightIsStuck` | services/api/internal/postgres/store.go:400-462 | over every run a row in flight is unchanged at a later point iff nobody acknowledged it under its gateway and generation, or handed it back with a time, in between; it can never come back to what it was |
| `Reconciler.GatewaysNeedingSnapshot` | services/api/internal/postgres/store.go:64-96 | the scan lists, in order and without repetition, exactly the ready gateways with an assignment ahead of its confirmed generation and nothing queued or in flight |
| `Reconciler.CollectPeers` | services/api/internal/postgres/store.go:117-135 | the loop materialises exactly the reference peer list, in device order |
| `Reconciler.SnapshotPeersValid` | services/api/internal/postgres/store.go:117-135 | in every state that keeps the invariant that list is well formed, canonical, and free of shared keys and addresses |
| `Reconciler.PublishedValidExactly` | services/api/internal/postgres/store.go:139-150 | at every time and for every gateway, a published snapshot is valid iff the gateway is the one it names, its generation is positive, its expiry has not come, and at most 100000 live assignments are in it |
| `Reconciler.SnapshotTable` | services/api/internal/postgres/store.go:117-135 | the table a snapshot asks for is exactly the gateway's live assignments, keys and addresses |
| `Reconciler.ListedAfterConfirm` | services/api/internal/postgres/store.go:64-79 | right after a confirmation a gateway is listed iff it is ready with nothing on the way and an assignment is still ahead of both generations |
| `GatewayRuns.ConfirmCatchesUp` | services/api/internal/postgres/store.go:186-192 | a confirmation leaves a gateway with nothing ahead iff its generation covers everything still ahead |
| `GatewayRuns.StepCaughtExactly` | services/api/internal/postgres/store.go:72-73 | a step keeps it so iff it neither adds an assignment on the gateway nor raises a desired generation there |
| `GatewayRuns.UnlistedUntil` | services/api/internal/postgres/store.go:64-79 | over every run, after such a confirmation the gateway is on no list at any point, whatever the outbox holds, until the first such step, and from there it is listed iff it is ready with nothing on the way |
| `Reconciler.ListedAfterAck` | services/api/internal/postgres/store.go:162-167 | a crash between acknowledgement and confirmation leaves the gateway listed, unless another row of it is queued or in flight |
| `Reconciler.SilentWhileInFlight` | services/api/internal/postgres/store.go:74-78 | until then its gateway is on no list at any point, whatever else happens to the outbox and whatever the tables hold |
| `Reconciler.ConfirmsDeliveredExactly` | services/api/internal/postgres/store.go:186-192 | a confirmation covers only assignments the snapshot carried iff each one it covers was live when the snapshot was built |
| `Reconciler.UnsentConfirmed` | services/api/internal/postgres/store.go:186-192 | that fails for an allocation made after the snapshot was built: its acknowledgement marks the new assignment active although the gateway was never told of it |
| `GatewayRuns.LateConfirmExactly` | services/api/internal/postgres/store.go:186-192 | over every run, a confirmation at step n covers only what a snapshot built at step m carried iff it covers no assignment added in between |
| `GatewayRuns.RevokedInSnapshot` | services/api/internal/postgres/store.go:122-209 | the confirmation that revokes a device and releases its lease answers a snapshot that still carries its key and both addresses |
| `GatewayRuns.FreedAddressReusedExactly` | services/api/internal/postgres/store.go:196-201 | the next allocation in the region gets the freed address, on whatever gateway the placement picks, iff every smaller candidate is taken |
| `ReconcilerRuns.OneReconciler` | services/api/cmd/reconciler/main.go:56-84 | with one reconciler there is at most one queued row per gateway, and generations run 1, 2, 3, ... without a gap |
| `Reconcile.ReconcileOnce` | services/api/cmd/reconciler/main.go:56-73 | one pass publishes every listed gateway's current peers once, signed, under its next generation, and touches nothing else |
| `Reconcile.PublishOne` | services/api/internal/postgres/store.go:109-151 | publishing one gateway adds exactly that row |
| `ControlPlane.NoMisrouting` | services/api/internal/agent/worker.go:77-119 | end to end, over every interleaving of transactions, publications, deliveries in any order, losses, partial applications and worker restarts: each address in the gateway's table has one owner, and was leased on this gateway to the device whose key owns it |
| `ControlPlane.AdoptionIsAssignments` | services/api/internal/postgres/store.go:109-151 | a worker whose table is what it believes, adopting the snapshot published from a state, ends with exactly that state's live assignments |
| `ControlPlane.AnswerIsRouted` | services/api/internal/postgres/store.go:109-151 | what a client was told is what its gateway routes: once a snapshot published while the assignment is live is adopted, the device's key owns exactly the two addresses of any earlier answer, which named that gateway's endpoint and key and its region's DNS servers |
| `ControlPlane.RevokedStillRouted` | services/api/internal/postgres/store.go:117-209 | end to end: publish, adopt, confirm a removal, and the device is revoked and its lease released while the gateway still routes both addresses to its key |
| `Sessions.DrawnTokens` | services/api/internal/auth/session.go:177-195 | every drawn token can be presented, and different draws give different tokens |
| `Sessions.SessionStore.IssueFor` | services/api/internal/auth/session.go:50-72 | issuing is the reference step, partial effects of a failed draw included; what is answered and what it is good for is `SessionAnswers.IssueAnswersExactly` |
| `Sessions.SessionStore.NewFamily` | services/api/internal/auth/session.go:57-71 | opening a family and adding its two tokens likewise; the pair is that of `SessionAnswers.IssueAnswersExactly` |
| `Sessions.SessionStore.RevokeFamilyTokens` | services/api/internal/auth/session.go:159-164 | deleting the family's tokens one by one, in any order, removes exactly those sessions |
| `Sessions.SessionStore.RevokeUserTokens` | services/api/internal/auth/session.go:166-175 | ranging over the families in any order while deleting from them removes exactly the families that hold a session of the user |
| `Sessions.SessionStore.RotateRefresh` | services/api/internal/auth/session.go:80-114 | rotation is the reference step on every path: not a token, stored but no longer good, spent, unknown, accepted; the pair is that of `SessionAnswers.RotationAnswersUsable` |
| `Sessions.SessionStore.AuthenticateAccess` | services/api/internal/auth/session.go:74-76 | authentication reads the session map as the reference does |
| `Sessions.IssueTokenwise` | services/api/internal/auth/session.go:134-143 | issuing adds exactly the drawn tokens with their user, family, kind and expiry, touches no other session, and keeps the index invariant |
| `Sessions.FamilyTokenwise` | services/api/internal/auth/session.go:159-164 | revoking a family removes exactly its sessions and keeps the invariant |
| `Sessions.UserTokenwise` | services/api/internal/auth/session.go:166-175 | revoking a user removes exactly the user's sessions and keeps the invariant |
| `Sessions.RotateTokenwise` | services/api/internal/auth/session.go:96-113 | an accepted rotation spends the token and swaps its family for the drawn pair |
| `Sessions.RotateAnswers` | services/api/internal/auth/session.go:80-114 | it answers with the drawn pair iff the token is accepted and no draw fails |
| `SessionAnswers.IssueAnswersExactly` | services/api/internal/auth/session.go:50-72 | an issue answers iff the user is named and all three draws succeed; the access token then authenticates the user up to the expiry stated for it, 15 minutes on, the refresh token rotates up to the one stated for it, 30 days on, and neither does the other's work |
| `SessionAnswers.RotationAnswersUsable` | services/api/internal/auth/session.go:96-114 | so does the pair of a rotation, counted from the clock at which it is made |
| `SessionAnswers.AnswersUsable` | services/api/internal/auth/session.go:50-114 | over every history every answered pair is so right after its call |
| `SessionRuns.OneUser` | services/api/internal/auth/session.go:96-113 | a call issues for one user only |
| `SessionRuns.AcceptsExactly` | services/api/internal/auth/session.go:87-95 | the maps accept a rotation iff the history does, for the same user |
| `SessionRuns.RunLinked` | services/api/internal/auth/session.go:50-175 | at every point of every history the sessions are exactly the live issued tokens with the data of the call that issued them, and the consumed map exactly the spent ones with their users |
| `SessionTheorems.AuthenticatesExactly` | services/api/internal/auth/session.go:145-157 | an access token is good for u iff it was issued to u less than 15 minutes ago and since then none of its family's tokens was presented for rotation, no spent token of u was presented, and u was not revoked |
| `SessionTheorems.AnsweredExactly` | services/api/internal/auth/session.go:80-114 | a rotation is answered iff its token was issued as a refresh token less than 30 days ago, its family never ended, and the random source works |
| `SessionTheorems.RotatesOnce` | services/api/internal/auth/session.go:96-97 | over a whole history a refresh token is rotated at most once |
| `SessionTheorems.SuccessReplacesOneFamily` | services/api/internal/auth/session.go:96-113 | a success replaces exactly one family by one new family of the same user; every other session stays |
| `SessionTheorems.ReuseRevokesUser` | services/api/internal/auth/session.go:91-94 | presenting a spent token ends all sessions of its user in every continuation, none of anybody else's, and hands out nothing |
| `SessionTheorems.GoneForGood` | services/api/internal/auth/session.go:159-175 | a session that is gone never comes back |
| `SessionTheorems.RevocationIsFinal` | services/api/internal/auth/session.go:116-127 | revoking a user ends exactly the user's sessions, for good |
| `SessionTheorems.FailedIssueLeaves` | services/api/internal/auth/session.go:57-70 | an issue that fails still stores an access session iff only its last draw failed |
| `Passwords.ParsePHC` | services/api/internal/auth/password.go:54-99 | the parser computes the reference parse |
| `Passwords.ReadParameters` | services/api/internal/auth/password.go:69-79 | filling the map refuses exactly an unnamed, unknown or repeated parameter, and leaves each name's text in it |
| `Passwords.ParseExactly` | services/api/internal/auth/password.go:54-99 | a text parses to given fields iff it is their written form: six parts, the two fixed ones, three parameters m, t, p in any order within their widths, and base64 of salt and key |
| `Passwords.RoundTrip` | services/api/internal/auth/password.go:36-39 | for all in-range version, m, t, p and all salts and keys the printed form parses back, in every order of the three parameters |
| `Passwords.ParsedWidths` | services/api/internal/auth/password.go:58-92 | a text that parses is six parts behind dollar signs, the two fixed ones spelled out, with three parameters, and its numbers are below 2^32 and 2^8 |
| `Texts.ParseUintExactly` | services/api/internal/auth/password.go:60-88 | a number text is accepted iff it is a number below the bound in decimal behind any zeros |
| `Passwords.FirstPartIgnored` | services/api/internal/auth/password.go:55-58 | what stands before the first dollar sign never matters |
| `Passwords.HashPassword` | services/api/internal/auth/password.go:28-40 | a hash is made iff the password has 12 to 1024 bytes and the salt could be drawn; its text is spelled out, and it parses to the fixed parameters, the salt and the derived key |
| `Passwords.VerifyPassword` | services/api/internal/auth/password.go:42-52 | accepted iff the text is the written form of parameters within the bounds whose key is the one derived from the password; the bounds in numbers are `Passwords.VerifiesTextExactly` |
| `Passwords.VerifiesTextExactly` | services/api/internal/auth/password.go:42-52 | which printed hashes verify, spelled out: version 19, 16 bytes of salt or more, a 32-byte key, 16384 to 2097152 KiB, 1 to 10 passes, 1 to 32 threads, and the key derived from the password with these |
| `Passwords.HashVerifiesExactly` | services/api/internal/auth/password.go:28-52 | against the hash of a password a candidate verifies iff both derive the same key |
| `Texts.JoinSplit` | services/api/internal/auth/password.go:55 | splitting at a separator loses nothing and leaves it in no part |
| `Texts.SplitJoin` | services/api/internal/auth/password.go:55 | parts without the separator are recovered from their join |
| `Texts.TrimsToNothingExactly` | services/api/internal/control/service.go:157-161 | trimming leaves nothing iff there was nothing but white space |
| `Texts.TrimSpaceExactly` | services/api/internal/control/service.go:147 | trimming takes off white space at both ends, all of it and nothing else |
| `Texts.BlankExactly` | services/api/internal/control/service.go:157-161 | white space is blank, tab, line feed, vertical tab, form feed and carriage return |
| `Texts.ParseInverts` | services/api/internal/auth/password.go:61 | parsing undoes decimal printing below the bound |
| `Control.Service.AddRegions` | services/api/internal/control/service.go:103-112 | the loop keeps exactly the listed regions with their counters at 2, and refuses the first entry that is invalid or repeats an id, with the error of its kind |
| `Control.Service.RegisterDevice` | services/api/internal/control/service.go:127-164 | registration, with its checks of owner, name, platform and key, is the reference step; its answers, told from the earlier calls, are `ControlOutcomes.RegisterAnswersExactly` |
| `Control.Service.RequestRevocation` | services/api/internal/control/service.go:179-193 | the revocation request is the reference step; its answers are `ControlOutcomes.RevokeAnswersExactly` |
| `Control.Service.CreateTunnelConfiguration` | services/api/internal/control/service.go:195-244 | the allocation is the reference step on every path; its answers are `ControlOutcomes.RefusalExactly` and `ControlOutcomes.ServedExactly` |
| `Control.RecordSharedExactly` | services/api/internal/control/service.go:215 | two different calls of NUL-free device ids meet in one record iff one owner begins with the other owner, a NUL and that call's device, ending there or followed by a NUL, and that call's key spells out the rest |
| `Control.CanShareExactly` | services/api/internal/control/service.go:196-215 | admitted keys that make two owners meet exist iff one owner is so and leaves room for them within 128 bytes |
| `Control.RecordKeyInjective` | services/api/internal/control/service.go:215 | so for NUL-free owners and devices the record key tells owner, device and key apart |
| `ControlRuns.MeetingSharesConfiguration` | services/api/internal/control/service.go:195-221 | from an empty service, two registered NUL-free devices and admitted keys: the second owner's call is handed the configuration made for the first owner's device |
| `Control.AddressesDistinct` | services/api/internal/control/service.go:235 | different hosts have different address texts in both families |
| `ControlRuns.HandsOutInOrder` | services/api/internal/control/service.go:223-241 | over every run the k-th configuration of a region gets host k+1: 2 to 254 in order, without gaps; its other fields are its region's own |
| `ControlRuns.AddressesSharedExactly` | services/api/internal/control/service.go:235 | two configurations share an address iff they have the same number in their regions: never within a region, always across |
| `ControlRuns.ExhaustedExactly` | services/api/internal/control/service.go:223-226 | a permitted call with a new key is refused for capacity iff its region has made 253 configurations, and after that the region makes no more |
| `ControlRuns.ReplaysExactly` | services/api/internal/control/service.go:215-221 | as long as no owner is named like another with its device, a permitted call gets an old configuration iff an earlier call of the same owner, device and key made it for the same region, a conflict iff one made it for another; neither changes the state |
| `ControlRuns.RunKeysInverse` | services/api/internal/control/service.go:134-152 | over every run publicKeys is the exact inverse of the devices' keys, and no device is ever revoked |
| `ControlRuns.PendingForGood` | services/api/internal/control/service.go:187-209 | after a revocation request a device gets no configuration any more, not even a replay |
| `ControlOutcomes.RegisterAnswersExactly` | services/api/internal/control/service.go:127-164 | over every run a registration is taken iff it is acceptable, no earlier call registered its key, and an id can be drawn; the answer is the device under its trimmed name, or the first of these that fails |
| `ControlOutcomes.RevokeAnswersExactly` | services/api/internal/control/service.go:179-193 | over every run a revocation succeeds iff an earlier call registered the device for the same owner |
| `ControlOutcomes.RefusalExactly` | services/api/internal/control/service.go:196-213 | over every run a call passes the checks iff its key has 16 to 128 bytes, its owner registered the device and did not revoke it since, and the region is open; the error otherwise |
| `ControlOutcomes.ServedExactly` | services/api/internal/control/service.go:215-244 | over every run, what such a call gets, told from the earlier calls: the earlier configuration or a conflict, or else a new one under the drawn id, unless its region has made 253 or no id can be drawn |
| `ControlOutcomes.RegionExactly` | services/api/internal/control/service.go:260-271 | which regions are admitted, spelled out |
| `ControlOutcomes.AddressesWritten` | services/api/internal/control/service.go:235 | the addresses of every host, digit by digit: decimal in the IPv4 text, hexadecimal in the IPv6 text |

## Left out

- the two clients and their configuration renderers, the HTTP transport, TLS and configuration loading, the remaining commands, deployment and lab scripts: input and plumbing code settled by reading one branch.
- Ed25519 is an arbitrary check function in `Workers` and, in `ControlPlane` only, ideal (a signature checks only for a content that was signed); SHA-256 is injective, Argon2id is an arbitrary function of its inputs, and the JSON encodings (signing bytes, outbox payloads, stored responses) carry the value itself, a payload that does not decode being `None`.
- PostgreSQL isolation and locking: each transaction is one atomic step, SKIP LOCKED never skips, and acknowledgement and confirmation stay two steps. Rows carry no created_at or updated_at, and time is an integer count of nanoseconds.
- address prefixes are parsed values with a spelling number, so the grammar of `netip.ParsePrefix` is not modelled; database addresses are canonical because `host()` prints them.
- no code moves an assignment to removal_pending; a step `Withdraw` that does so for an assignment of a non-active device is added so that the removal half of confirmation is reachable. Pools and gateway rows keep everything but their availability and state over a run.
- the replies of Claim and Retry that fail on the way back: both end the call with a failure and change neither beliefs nor table.
- the reason text and retry time chosen by the worker, timers, contexts and goroutine cancellation: only the delay value of the backoff is modelled; durations, times and generations do not overflow.
- the constant fields of a configuration (routes and keepalive), expiry clean-up of idempotency keys, and the configuration's expiry as anything but a stored number.
- texts are sequences of bytes and white space is that of ASCII; in the outbox and in confirmations a blank id is the empty one, and the registration checks of the database store (name, platform, owner) are not repeated there.
- the audit and health tables of the migration, which none of these operations read.
- Outbox.OutboxTable.EnqueueSnapshot: does not model the refusal of an empty payload, because a payload is a snapshot here and its encoding is never empty, nor the foreign key to gateways, because the reconciler only enqueues for gateways it has just listed and gateways are never deleted.
- StoreTheorems.SameConfiguration: the expiry is one stored number; the first answer carries nanoseconds and later ones the microseconds of the database column, so the texts can differ below a microsecond.
- tokens are their own texts instead of SHA-256 values, and the key derivation receives the password as bytes.
- ListRegions, ListDevices and the other reads that only copy rows.
- Sessions.SessionStore.RevokeUserTokens: requires the index invariant, which every history keeps (`SessionRuns.RunLinked`), because without it the order of the loop could matter.
- SessionTheorems.FailedIssueLeaves: says that a session is left, not who could come to know its token.
