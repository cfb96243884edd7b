# Argus pump controller: verified model

Argus is the firmware of a network-connected pump controller. Machines talk to it
over an MQTT broker it runs itself, operators over a browser, and a button on the
board recovers a lost administrator. This project models the parts of that
firmware where a mistake would hand the pump to the wrong party, lose the machine
directory, or keep a revoked machine connected, and proves what those parts promise.

The model keeps the firmware's form. Where the firmware updates fields and arrays in
place under a lock, a class here does the same, and each method is proved equal to a
function on values; where several tasks share that state, every locked region is one
step of a state machine built from those functions, and the theorems are about all
runs in which the steps interleave freely.

- `Words`, `Ring`: wrapping 32- and 64-bit counters (the order of section 3.2 of
  RFC 1982) and a fixed table overwritten round-robin, as a window on an unbounded log.
- `Contract`, `Runtime`, `LeaseRuns`, `Tenure`, `Commands`, `Answers`: the authority lease. One
  principal at a time commands the pump. Requests and releases go through admission
  with a 16-entry duplicate cache, heartbeats renew, a tick expires, disconnects drop
  the binding, and commands are checked, dispatched and committed in separate steps
  between which ticks and disconnects may fall.
- `Journal`, `Broker`, `BrokerRuns`: connection records. Sockets are admitted into two
  pools that share one array, CONNECT authenticates without the lock and binds
  afterwards, revocations are fenced through a 32-entry journal, and invalidators hold
  descriptors across an unlocked `shutdown` while tasks close and a stop retires them.
- `RevocationRuns`: broker and machine directory in one run, from landed edits to the
  connections that a fence shuts out or makes authenticate again.
- `Directory`, `DirectoryRuns`, `MachineService`, `MachineRuns`: the machine directory in
  two flash slots and a selector under power loss, and the record operations that edit
  snapshots of it, with the stamps live sessions are checked against.
- `DirectoryService`: both together, so that what is proved of the record operations holds
  of the device.
- `KdfBudget`: the budget for password derivations and its share for proven sources.
- `BrowserCommand`, `BrowserRendering`, `BrowserDocument`, `BrowserFaults`: the strict JSON
  decoder of browser commands, against a grammar written independently of it, and what
  each fault is reported as.
- `RemainingLength`, `Subscription`, `Recovery`: the MQTT length code, what a machine may
  read and publish, and the hold-and-release gesture.

## Assumptions

- The strict authority envelope decoder and the payload digest are parameters
  (`Runtime.Environment`); where it matters, length and digest together identify a
  payload. The checksum and the remaining format checks of a machine record are
  parameters (`Directory.Environment`). Whether a caller is a valid principal with the
  permission an operation requires is a parameter (`MachineService.Actor`).
- C strings are sequences of characters, and a null pointer where a string is expected
  is folded with the empty string.
- A flash write of a slot completes, does nothing, or leaves a slot that reads as missing
  or fails its own checks; a write of the selector completes, does nothing, or leaves it
  unreadable, and reports success only if it completed.
- Connection ids and directory generations are 64- and 32-bit as in the firmware. Theorems
  about machine records take generations not to wrap; `MachineRuns.OnlyDeletionCanWrap`
  shows that only a deletion at the last generation could make them.
- The times of key-derivation requests are positive. They may come in any order, because
  the code reads the clock before it takes the lock (`main/argus_machine_service.c:853-854`).
  `KdfBudget.AnyTenSeconds` alone takes them never to precede the start of the current
  window, which times in the order of the lock never do (`KdfBudget.LockOrderIsOrderly`).
  Theorems about given window starts take these to be 20 seconds short of 2^64 microseconds.

## Where the code and its documentation differ

- `main/argus_machine_service.h:47-52` says at most 8 derivations start within any ten
  seconds. The budget that is to see to it counts in fixed windows
  (`main/argus_machine_service.c:645-670`). This is about the admissions of that budget
  alone: some of them end as busy, and the lockout of one source and the limit on
  concurrent derivations, which the runs here do not have, refuse more. What it admits in
  the ten seconds from a time is known exactly from the starts of its windows
  (`KdfBudget.PeakExactly`). It keeps to 8, and 5 unproven, exactly when no two windows
  reach into them (`KdfBudget.DocumentedBoundExactly`); 15 and 9 are never exceeded exactly
  when the windows are ten seconds apart (`KdfBudget.BoundsExactly`), as they are unless a
  caller comes in with a time from before the current window. One such caller is enough
  for 16 and 10 (`KdfBudget.LateCallerBreaksTheBound`).
- A command passes the owner gate before it is dispatched, not when it is
  (`main/argus_mqtt_runtime.c:1265-1334`): a tick or a disconnect in between lets it reach
  the router after its lease has ended (`Commands.CommandOutlivesLease`). The gate would
  still admit it at dispatch exactly when no such step fell in between
  (`Commands.GateStillOpenExactly`).
- A commit interrupted while the directory is written for the very first time can leave
  one present but invalid slot. Over the life of a device that was blank, boots go on
  exactly as long as that has not happened, and fail closed ever after
  (`DirectoryRuns.BlankDeviceExactly`).
- A descriptor gets two closers exactly when the task of a new record cannot be created
  after a stop has taken the record's descriptor, which the server does not ask before it
  closes its own copy (`BrokerRuns.TwoClosersExactly`, `BrokerRuns.TwoClosersInRunExactly`).
  In every other case each descriptor has one closer (`BrokerRuns.OneCloserEach`).

## Model

| member | source | states |
|---|---|---|
| Words.ReplayIsNewerExactly | main/argus_mqtt_contract.c:497-501 | The wrapping comparison accepts an earlier serial of an advancing run as newer exactly when its distance behind the head, modulo 2^32, is more than 2^31 |
| Words.UnwrappedIncreases | main/argus_mqtt_contract.c:497-501 | Serials each newer than the one before strictly increase once wraps are undone |
| Contract.SessionCore.RequestAuthority | main/argus_mqtt_contract.c:572-663 | Arbitration of a free, own, expired or foreign lease, as the lease function says, with the whole new state |
| Contract.SessionCore.RequestAuthorityWithState | main/argus_mqtt_contract.c:665-718 | The transfer rules in front of it: window, profile, running machine and named epoch |
| Contract.SessionCore.ReleaseAuthority | main/argus_mqtt_contract.c:720-731 | Only the owner releases; the epoch advances and the binding goes |
| Contract.SessionCore.Renew | main/argus_mqtt_contract.c:733-767 | A heartbeat rebinds and restarts the deadline, or is refused without any change |
| Contract.SessionCore.ExpireIfStale | main/argus_mqtt_contract.c:769-796 | A lease without heartbeat for the timeout loses its owner and its epoch |
| Contract.SessionCore.DropConnection | main/argus_mqtt_contract.c:798-827 | A departing connection clears the binding and keeps the owner |
| Contract.SessionCore.Commit | main/argus_mqtt_contract.c:847-859 | The replay guard holds exactly the last committed command |
| Runtime.HandleHeartbeat | main/argus_mqtt_runtime.c:334-383 | Only the recorded holder's heartbeat reaches the lease |
| Runtime.DuplicateCache.Lookup | main/argus_mqtt_runtime.c:751-763 | The table search finds what the last 16 entries of the log hold under the key, and nothing else |
| Runtime.DuplicateCache.Store | main/argus_mqtt_runtime.c:806-829 | Round-robin storing keeps the table the window on the unbounded log |
| Runtime.TableShowsResident | main/argus_mqtt_runtime.c:729-829 | An entry is in the table exactly when it is one of the last 16 stored |
| Runtime.AppendKeepsKeysDistinct | main/argus_mqtt_runtime.c:751-829 | Storing under a key that is not resident keeps resident keys pairwise distinct |
| Runtime.AuthorityAdmit | main/argus_mqtt_runtime.c:947-1089 | Admission over the live lease and cache equals the admission function: outcome, document, lease and log |
| Runtime.Emit | main/argus_mqtt_runtime.c:620-656 | The result document is composed from the lease at the moment of emission |
| Runtime.HandleCommand | main/argus_mqtt_runtime.c:1242-1307 | Policy, qos, owner gate and sequence decide, in that order, between a rejection with its reason, the cached result and a start |
| Runtime.AdmitFrame | main/argus_mqtt_runtime.c:947-1089 | Admission changes the lease only on an accepted outcome and stores at most one result |
| LeaseRuns.StepKeepsInv | main/argus_mqtt_runtime.c:334-383 | Every step keeps binding, heartbeat, dispatch, tenure and cache invariants together |
| LeaseRuns.ReachableInv | main/argus_mqtt_contract.c:610-827 | In every run the link is online exactly when a connection is bound, an online link has an owner and the heartbeat binding, and cache keys are distinct |
| Tenure.TenureStep | main/argus_mqtt_contract.c:565-827 | Owner changes only, and the epoch advances exactly, in a grant, a release or an expiry |
| Tenure.EpochRecursExactly | main/argus_mqtt_contract.c:565-570 | Two moments show the same epoch exactly when a multiple of 2^32-1 tenure changes separates them |
| Tenure.EndedTenureNeverCommands | main/argus_mqtt_runtime.c:505-532 | A command naming an ended tenure or epoch 0 is not admitted within 2^32-1 further changes |
| Tenure.TransferExactly | main/argus_mqtt_contract.c:665-718 | A live lease moves to another principal exactly when ArgusCore takes it from a local holder, preferred, not running, with the current nonzero epoch |
| Tenure.GrantExactly | main/argus_mqtt_contract.c:531-718 | A request is granted exactly when a commissioned, identified requester finds the lease free or expired, or takes it from a local holder of a resting machine by naming the current epoch |
| Tenure.ReleasedExactly | main/argus_mqtt_contract.c:720-731 | A release is accepted exactly when it passes admission under a new key, names the current epoch and comes from the recorded owner; otherwise the lease is unchanged |
| Tenure.OwnershipEndsOnlyBy | main/argus_mqtt_contract.c:565-827 | In every run an owner stops being the owner only by its own release, an expiry, or a grant to another principal |
| Tenure.OwnersWereGranted | main/argus_mqtt_contract.c:565-827 | In every run the owner was granted the lease by its own request in the tenure that still lasts |
| Tenure.OnlyRequestsTransfer | main/argus_mqtt_runtime.c:334-383 | No heartbeat, tick, disconnect or command makes another principal the owner |
| Tenure.RedeliveryNeverDisplaces | main/argus_mqtt_runtime.c:1035-1088 | A request once granted and delivered again never displaces a live owner within one epoch period |
| Tenure.RedeliveryReplays | main/argus_mqtt_runtime.c:1007-1033 | A resident request delivered again changes nothing and gets the original document |
| Tenure.ConflictChangesNothing | main/argus_mqtt_runtime.c:1007-1033 | Another payload under a resident key is refused without change; it replays exactly when it is the original |
| Tenure.ForeignDepartureIsHarmless | main/argus_mqtt_contract.c:798-827 | While a holder is online another connection's departure changes nothing |
| Tenure.HeartbeatCountersAdvance | main/argus_mqtt_contract.c:733-767 | Within one binding accepted counters strictly increase when unwrapped |
| Tenure.ReplayedHeartbeatRefused | main/argus_mqtt_contract.c:733-767 | A heartbeat of the binding at most 2^31 behind is refused and changes nothing |
| Answers.LeaseLastsExactly | main/argus_mqtt_contract.c:769-796 | In every run the owner is the one whose grant, confirmation or heartbeat refreshed the lease last, and a tick takes it exactly from six seconds after that on, online or not |
| Answers.HeldUntilDeadline | main/argus_mqtt_contract.c:733-796 | Until then nothing ends it but its own release or a grant to another |
| Answers.RequestAnsweredExactly | main/argus_mqtt_contract.c:572-718 | Every reason a request is answered with, and exactly when, on the lease, the caller and the profile |
| Answers.RequestDoesExactly | main/argus_mqtt_contract.c:572-663 | A grant makes the caller the owner on its connection in a new epoch, a confirmation rebinds, and nothing else changes the lease |
| Answers.ReleaseAnsweredExactly | main/argus_mqtt_runtime.c:1035-1088 | Released, not the owner, or a stale epoch, exactly as owner and epoch say |
| Answers.UndecidedExactly | main/argus_mqtt_runtime.c:947-1006 | Envelope and session refusals in their order, without any change |
| Answers.KnownKeyAnsweredExactly | main/argus_mqtt_runtime.c:1007-1033 | Under a known key the stored answer is repeated for the same payload and a conflict is reported for another |
| Answers.StoresExactly | main/argus_mqtt_runtime.c:806-829 | Exactly the messages that are decided on are stored, with what they were answered |
| Answers.FlagsExactly | main/argus_mqtt_runtime.c:1035-1088 | A change is reported exactly for a grant, a confirmation or a release, and a caller online exactly for an arbitrated request |
| Answers.PublishedExactly | main/argus_mqtt_runtime.c:620-888 | Owner kind, epoch, lease and panel status of an answer, each exactly as the fields of the lease it leaves behind |
| Answers.GrantPublished | main/argus_mqtt_runtime.c:872-898 | The document of a grant names the new owner, the new epoch and an active lease |
| Answers.ReleasePublished | main/argus_mqtt_runtime.c:872-898 | The document of a release names nobody, the new epoch and no lease |
| Answers.RenewedExactly | main/argus_mqtt_runtime.c:334-383 | A heartbeat renews exactly when it is the owner's, for this session and newer on its connection |
| Answers.HeartbeatAcceptedExactly | main/argus_mqtt_contract.c:733-767 | What the lease itself refuses: no connection, another session, a stranger beside an online connection, a used counter |
| Answers.ExpiredExactly | main/argus_mqtt_contract.c:769-796 | A tick expires an owned or online lease exactly after six seconds without heartbeat |
| Answers.DepartedExactly | main/argus_mqtt_contract.c:798-827 | A departure takes exactly the binding of the connection that left |
| Commands.DispatchedSequencesAdvance | main/argus_mqtt_runtime.c:1265-1334 | Dispatched sequence numbers strictly increase, by less than 2^31 a step, over every run |
| Commands.NeverDispatchedAgain | main/argus_mqtt_contract.c:829-845 | A dispatched command at most 2^31 behind the head is never started again |
| Commands.SequenceReusedOnlyAfterFullCircle | main/argus_mqtt_runtime.c:1265-1334 | A sequence number is dispatched again only when the unwrapped numbers have advanced by at least 2^32 |
| Commands.DispatchHistoryStands | main/argus_mqtt_runtime.c:1326-1334 | Over a run the dispatched numbers only grow and keep their unwrapped values |
| Commands.StartsExactly | main/argus_mqtt_runtime.c:1242-1307 | In every run a command is started exactly when it comes in order from the holder in the current epoch and is the first or 1 to 2^31-1 ahead of the last committed one; each refusal has exactly its own condition |
| Commands.DispatchedExactly | main/argus_mqtt_runtime.c:1265-1334 | Checked and dispatched, exactly those commands reach the router, the first of a session among them |
| Commands.AbortedIsForgotten | main/argus_mqtt_runtime.c:1309-1334 | A checked command that is given up is not dispatched any more |
| Commands.LatestIsAnsweredFromCache | main/argus_mqtt_runtime.c:1256-1307 | Until the next commit an identical copy of the latest command is answered with the committed result exactly when the gate admits its sender then, with the gate's refusal otherwise; another command under its number is a conflict |
| Commands.GateStillOpenExactly | main/argus_mqtt_runtime.c:505-532 | After ticks and departures the gate still admits exactly when none expired the lease or took its connection |
| Commands.CommandOutlivesLease | main/argus_mqtt_runtime.c:1265-1334 | A checked command can reach the router after its lease expired |
| Journal.InvalidationJournal.QuerySince | main/argus_mqtt_invalidation.c:43-67 | The ring answers exactly as the full history does |
| Journal.InvalidationJournal.Record | main/argus_mqtt_invalidation.c:24-41 | Recording appends a valid identifier to the full history the ring stands for |
| Journal.InvalidationJournal.Capture | main/argus_mqtt_invalidation.c:18-22 | The captured generation is the length of the history |
| Journal.RecordedStaysVisible | main/argus_mqtt_invalidation.c:24-67 | A recorded revocation is seen by every later query with an earlier capture |
| BrokerRuns.FencedMachineMustReconnect | main/argus_mqtt_broker.c:614-635 | After a fence every usable connection of that machine captured its generation after the fence, whatever interleaved |
| RevocationRuns.FencedMachineIsReadAgain | main/argus_mqtt_broker.c:735-797 | After any edits and a fence, every usable connection of the machine was authenticated after the fence, with the principal of the record as it was then, whatever was connecting |
| RevocationRuns.BarredMachineStaysOut | main/argus_mqtt_broker.c:735-797 | Once fenced, a machine has no usable connection for as long as its record is missing, disabled or revoked |
| RevocationRuns.RevokedMachineStaysOut | main/argus_mqtt_broker.c:735-797 | Once a revocation has landed and the machine is fenced, it has no usable connection at any later moment, deleted or not, unless a new record is enrolled under its identifier |
| BrokerRuns.ClaimHeldThroughout | main/argus_mqtt_broker.c:1916-1963 | From claim to release, over any run, the record keeps identity and descriptor, and the release succeeds |
| Broker.Connections.PreconnectAdmit | main/argus_mqtt_broker.c:1369-1412 | One counting pass decides admission as the pool rules on both counts say |
| Broker.Connections.AllocClient | main/argus_mqtt_broker.c:1414-1441 | An admitted socket gets the first free record and the next connection id |
| Broker.Connections.DuplicateClientId | main/argus_mqtt_broker.c:568-579 | True exactly when another connected record has the client id |
| Broker.Connections.SessionClaim | main/argus_mqtt_broker.c:685-697 | The first free session slot becomes the record's, or nothing changes |
| Broker.Connections.SessionRelease | main/argus_mqtt_broker.c:700-706 | The record's session slot is free again |
| Broker.Connections.BindSession | main/argus_mqtt_broker.c:764-797 | The second locked region of CONNECT, on the arrays, equals the bind step |
| Broker.Connections.FenceMachine | main/argus_mqtt_broker.c:1965-1986 | Records the revocation and invalidates every matching record, and no other |
| Broker.Connections.ClaimMatching | main/argus_mqtt_broker.c:1929-1940 | Collects exactly the matching descriptors nobody holds, each once |
| Broker.Connections.ReleaseClaimed | main/argus_mqtt_broker.c:656-668 | Releases a claim exactly when the record is still what was claimed |
| Broker.Connections.CloseClient | main/argus_mqtt_broker.c:1105-1126 | Clears the record and its session slot, unless its descriptor is claimed |
| Broker.Connections.AbandonClient | main/argus_mqtt_broker.c:1636-1647 | A record without a task is given back |
| Broker.Connections.RetireSockets | main/argus_mqtt_broker.c:2127-2151 | Takes every descriptor out of its record, and none while one is claimed |
| BrokerRuns.StepKeepsInv | main/argus_mqtt_broker.c:721-2151 | Every interleaving of server, tasks, invalidators and stop keeps the eight invariants, among them that no two connections share a client id |
| BrokerRuns.BindsExactly | main/argus_mqtt_broker.c:614-635 | A CONNECT is bound exactly when its record is in use, pending, valid and the one that authenticated, nobody else is connected under the client id, no revocation can have fallen in between and fewer than three are connected |
| BrokerRuns.ConnectsExactly | main/argus_mqtt_broker.c:764-797 | So in every step of a run; otherwise only its task changes |
| BrokerRuns.ConnectsUndisturbed | main/argus_mqtt_broker.c:739-797 | A CONNECT nothing falls into succeeds whenever identity, client id and capacity allow it |
| BrokerRuns.CapturesExactly | main/argus_mqtt_broker.c:739-752 | The first region notes record and generation exactly while the record is pending and valid |
| BrokerRuns.ClientIdsAreDistinct | main/argus_mqtt_broker.c:568-579 | In every run no two connections share a client id |
| BrokerRuns.ArrivesExactly | main/argus_mqtt_broker.c:1369-1441 | A socket gets a record exactly when fewer than three are pending, two only for a proven source, and none from its source; the record is new and no other changes |
| BrokerRuns.FencesExactly | main/argus_mqtt_broker.c:1965-1986 | A fence records the identity once and marks exactly its connections |
| BrokerRuns.ClaimsExactly | main/argus_mqtt_broker.c:1916-1940 | A claim marks them and holds exactly the descriptors nobody held |
| BrokerRuns.ReleasesExactly | main/argus_mqtt_broker.c:656-668 | A claim is given up exactly when the record is the one claimed |
| BrokerRuns.ClosesExactly | main/argus_mqtt_broker.c:1105-1126 | A task leaves exactly when nobody holds its descriptor; its record keeps no flag, identity or session |
| BrokerRuns.AbandonsExactly | main/argus_mqtt_broker.c:1636-1647 | A record without a task is given back, its descriptor left to the server |
| BrokerRuns.RetiresExactly | main/argus_mqtt_broker.c:2127-2151 | A stop takes every descriptor, exactly when none is held |
| BrokerRuns.RevocationIsImmediate | main/argus_mqtt_broker.c:629-654 | Right after a fence or a claim for a machine no usable connection of it is left |
| BrokerRuns.PoolBounds | main/argus_mqtt_broker.c:76-92 | In every run at most 3 pending, one per source, and as many connected records as occupied session slots, at most 3 |
| BrokerRuns.ConnectedAreTheSessions | main/argus_mqtt_broker.c:685-706 | Connected records and occupied session slots correspond one to one |
| BrokerRuns.AdmittedArrivalFindsRecord | main/argus_mqtt_broker.c:1414-1441 | An arrival that passes admission always finds a free record |
| BrokerRuns.CapacityRefusedExactly | main/argus_mqtt_broker.c:764-797 | A bindable CONNECT is refused for capacity exactly when three sessions exist |
| BrokerRuns.FullPoolHasProvenSource | main/argus_mqtt_broker.c:1354-1412 | A full pending pool contains a record whose source was proven at admission |
| BrokerRuns.ClaimSurvives | main/argus_mqtt_broker.c:637-674 | A claimed descriptor is open, has no other closer, and stays claimed until its own release |
| BrokerRuns.OneInvalidatorPerDescriptor | main/argus_mqtt_broker.c:637-654 | No two live claims share a record or a descriptor |
| BrokerRuns.TwoClosersExactly | main/argus_mqtt_broker.c:1636-1647 | A second closer appears exactly when a record whose descriptor the stop has taken is refused its task, and lasts until the server has closed its copy |
| BrokerRuns.TwoClosersInRunExactly | main/argus_mqtt_broker.c:1594-2157 | Some descriptor of a run gets two closers exactly when some step of it is such a refusal |
| BrokerRuns.DescriptorsClosedOnceWhileRunning | main/argus_mqtt_broker.c:1594-1647 | In particular a second closer exists only once a stop has begun |
| BrokerRuns.OneCloserEach | main/argus_mqtt_broker.c:1105-2157 | Records' tasks, parties that took a descriptor out and the server: each descriptor has one closer among all of them, that case apart |
| BrokerRuns.TakenOutOnce | main/argus_mqtt_broker.c:1105-1126 | A record's descriptor is open and taken out by nobody, and each step leaves it there or passes it to one closer: its task, the stop or the server |
| BrokerRuns.OnlyRecordsAreTakenOut | main/argus_mqtt_broker.c:2127-2151 | Whatever a step adds to the descriptors taken out was some record's just before |
| BrokerRuns.OnlyOpenDescriptorsAreClosed | main/argus_mqtt_broker.c:1105-2157 | Without such a refusal only open descriptors are ever closed, during a stop too |
| BrokerRuns.StopCanLeaveTwoClosers | main/argus_mqtt_broker.c:1636-1647 | Such runs exist: a refused task and the stop both close one descriptor |
| DirectoryRuns.RecoversAcknowledgedOrAttempted | main/argus_machine_directory.c:124-277 | Under any power loss a boot finds the last acknowledged payload or one attempted since, never fails |
| DirectoryRuns.AcknowledgedSurvives | main/argus_machine_directory.c:230-277 | A commit that returned OK is what every boot finds until another commit starts |
| DirectoryRuns.LossExactly | main/argus_machine_directory.c:124-175 | In every run, at every moment, a boot after a power loss finds the other slot, one generation ahead, exactly when it is whole and the selector does not name the service's own; otherwise what the service had |
| DirectoryRuns.LossDuringCommitExactly | main/argus_machine_directory.c:230-277 | When the power goes during a commit the new payload is found exactly when its slot is whole and the selector does not still name the old one, the previous payload otherwise, unless the write left no trace and an earlier failed commit is still whole there |
| DirectoryRuns.EarlierAttemptReturns | main/argus_machine_directory.c:230-277 | A run in which such an earlier commit, reported as failed, is what the next boot finds |
| DirectoryRuns.BootsExactly | main/argus_machine_directory.c:124-175 | A boot loads the whole slot a selector names, otherwise the one with the larger generation, the first on a tie, and repairs the selector exactly when it did not name it |
| DirectoryRuns.FailsClosedExactly | main/argus_machine_directory.c:124-155 | Otherwise it fails closed, with the reason, or formats a device without any slot |
| DirectoryRuns.CommitSucceedsExactly | main/argus_machine_directory.c:230-277 | A commit succeeds exactly for a sound payload of the current generation whose slot reads back as written and whose selector write reports success |
| Directory.CheckPayload | main/argus_machine_directory.c:67-95 | The nested loops decide exactly validity: good records, unique identifiers, zero tail |
| Directory.MachineDirectory.CommitLocked | main/argus_machine_directory.c:230-277 | The commit with its readback, on the stored slots, under any fate of its writes |
| Directory.MachineDirectory.Init | main/argus_machine_directory.c:296-345 | Boot: selection, first commit, selector repair, failing closed |
| DirectoryRuns.CommitIsAtomic | main/argus_machine_directory.c:230-277 | Success means a boot finds exactly the new payload and generation, failure leaves memory alone |
| DirectoryRuns.CommitIsTwoSteps | main/argus_machine_directory.c:230-277 | The firmware's commit is the two power-loss steps of the runs |
| DirectoryRuns.BootIsTwoSteps | main/argus_machine_directory.c:296-345 | The firmware's boot is the load and repair steps of the runs |
| DirectoryRuns.BlankDeviceExactly | main/argus_machine_directory.c:124-345 | From a blank device, at every moment of every run, a boot goes on exactly when the first slot write was never torn into an invalid slot; after that every boot fails closed |
| DirectoryRuns.TornFirstCommitExactly | main/argus_machine_directory.c:146-155 | With the second slot never written a boot goes on exactly when the first is missing or valid |
| DirectoryRuns.FirstBootIsThreeSteps | main/argus_machine_directory.c:316-321 | The firmware's first boot is the load, format and selector steps of the runs |
| DirectoryRuns.TornFirstCommitFailsClosed | main/argus_machine_directory.c:316-345 | A torn first commit fails closed now and at the next boot |
| DirectoryService.EveryRunLandsWholeEdits | main/argus_machine_service.c:298-299 | Every run of the service over the two slots and power loss is a run of the record operations, step by step: an edit prepared is prepared there, an acknowledged commit is the landing of the very edit submitted, and only a power loss lands another; so their theorems hold of the device |
| DirectoryService.SelectingWasSubmitted | main/argus_machine_directory.c:230-277 | The edit a selector write is about is the one whose submission found the device idle, with nothing in between |
| MachineRuns.RevalidatesExactly | main/argus_machine_service.c:925-951 | A session is revalidated exactly while the record it was admitted with is there, field for field, and admits the interface in use |
| MachineService.CheckScope | main/argus_security_store.c:88-110 | The loop decides exactly the scope grammar |
| MachineService.ScopesExactly | main/argus_security_store.c:88-110 | A scope is everything, or names separated by slashes, perhaps with everything below |
| MachineService.Snapshot.IndexOf | main/argus_machine_service.c:323-338 | The position of the record with the identifier, or the count |
| MachineService.Snapshot.DrawIdentifier | main/argus_machine_service.c:250-266 | The first drawn identifier that nobody has |
| MachineService.Snapshot.EnrollMachine | main/argus_machine_service.c:231-309 | Enrolment in place appends one stamped record under a fresh identifier, or refuses |
| MachineService.Snapshot.MutableTarget | main/argus_machine_service.c:311-339 | Permission, existence and scope, in that order |
| MachineService.Snapshot.ChangeMachine | main/argus_machine_service.c:341-493 | Rotation, enabling, permissions and revocation edit one record where it is |
| MachineService.Snapshot.DeleteMachine | main/argus_machine_service.c:495-521 | Only a revoked record goes; the last one takes its place and the tail stays zero |
| MachineService.Snapshot.QuarantineMachine | main/argus_machine_service.c:523-552 | An undisclosed credential's record is disabled and restamped |
| MachineRuns.EditIsSuccessor | main/argus_machine_service.c:231-552 | Every edit leaves records alone or restamps them and never revives a revoked one |
| MachineRuns.EnrollmentAddsExactly | main/argus_machine_service.c:231-309 | Enrolment adds exactly one enabled record under an identifier nobody had |
| MachineRuns.DeletionRemovesExactly | main/argus_machine_service.c:495-521 | Deletion removes exactly the one record, which was revoked, and keeps every other |
| MachineRuns.ChangeIsConfined | main/argus_machine_service.c:341-552 | The other operations touch their own record only, and in it only what they are for |
| MachineRuns.ChangeDoesExactly | main/argus_machine_service.c:341-552 | Each of them does its work: the new verifier, the state asked for, the permissions granted, revoked and disabled; every other field stays and the stamps move on |
| MachineRuns.RotatedUntilNextEdit | main/argus_machine_service.c:341-378 | From a landed rotation until the next edit of that machine its record has the new verifier |
| MachineRuns.EditedRecord | main/argus_machine_service.c:341-552 | What a landed edit leaves in the machine's record, in every run |
| MachineRuns.RecordStands | main/argus_machine_service.c:231-552 | Between two edits of a machine its record stays, whatever happens to others |
| MachineRuns.EnrollsExactly | main/argus_machine_service.c:66-309 | Enrolment goes through exactly for a request whose fields are in range, by an actor who manages the scope and may grant the permissions, while there is room and a drawn identifier is new |
| MachineRuns.ChangesExactly | main/argus_machine_service.c:311-521 | An operation on a record goes through exactly when it exists, its scope is managed and its state allows it |
| MachineRuns.AuthenticatesExactly | main/argus_machine_service.c:808-900 | A machine is authenticated exactly by its secret while its record is enabled, not revoked and open to MQTT and the interface; the session holds what the record says |
| MachineRuns.StepKeepsInv | main/argus_machine_service.c:231-552 | Every landed edit keeps identifiers unique, the tail zero and stamps within the generation |
| MachineRuns.StampIdentifiesRecord | main/argus_machine_service.c:808-826 | Identifier and security epoch name one version of a record: equal stamps at any two times mean equal records |
| MachineRuns.LostForGood | main/argus_machine_service.c:925-951 | Once that record has changed, the session is refused ever after |
| MachineRuns.LandedEditEndsSessions | main/argus_machine_service.c:341-552 | After any landed edit of a machine all its earlier sessions are refused |
| MachineRuns.RevokedUntilDeleted | main/argus_machine_service.c:380-493 | A revoked machine is not enabled again as long as its record exists |
| MachineRuns.MachinesStayHarmless | main/argus_machine_service.c:90-116 | Whoever enrols and grants, in no run does a machine get an administrative permission or a topic scope with a wildcard |
| MachineRuns.PermissionsWereDelegated | main/argus_machine_service.c:66-125 | Every permission a machine holds at any moment of any run it held at the start, or a permitted operator who could delegate it and has the machine's scope asked to give it, and it is no administrative one |
| MachineRuns.SessionsAreConfined | main/argus_machine_service.c:66-125 | So every session of every run reads only its unit's read categories under its own scope, and no command |
| MachineRuns.OnlyDeletionCanWrap | main/argus_machine_service.c:282-300 | At the last generation every edit but a deletion is refused |
| KdfBudget.PeakExactly | main/argus_machine_service.c:645-670 | For given window starts, whatever order times come in, every run admits at most the peak in the ten seconds from a time, the allowance of each window that opens in them and one less of each that reaches in, and some run admits as much |
| KdfBudget.AnyTenSeconds | main/argus_machine_service.c:645-670 | When nobody asks with a time from before the current window, the budget admits at most 15 in any ten seconds, at most 9 unproven |
| KdfBudget.BoundsExactly | main/argus_machine_service.c:853-868 | For given window starts, whatever order times come in, these bounds hold of every run exactly when the starts are pairwise ten seconds apart |
| KdfBudget.DocumentedBoundExactly | main/argus_machine_service.c:645-670 | For given window starts the budget admits no more than 8 (5 unproven) in the ten seconds from a time exactly when no two windows reach into them |
| KdfBudget.KdfGate.SourceIsProven | main/argus_machine_service.c:588-596 | The table scan decides whether a live entry has the source |
| KdfBudget.KdfGate.MarkSourceProven | main/argus_machine_service.c:599-626 | A success takes its own, a free or expired, or the oldest entry |
| KdfBudget.KdfGate.GlobalAdmit | main/argus_machine_service.c:645-670 | Window, allowance and retry time as the budget function says |
| KdfBudget.MarkedSources | main/argus_machine_service.c:582-626 | A success, first or renewed, is remembered for exactly ten minutes and displaces no live newer source |
| KdfBudget.FeasibleExactly | main/argus_machine_service.c:648-653 | Window starts are those of some run exactly when each is ten seconds after the one before it, or before that one |
| KdfBudget.EachWindow | main/argus_machine_service.c:645-670 | In whatever order times come, each window admits at most 8, at most 5 unproven, and every admission is in exactly one; in an orderly run windows do not overlap |
| KdfBudget.StraddledOverfills | main/argus_machine_service.c:645-670 | Windows in order of which one is open at a time and the next opens within ten seconds are filled to 15, or 9 unproven, by an orderly run |
| KdfBudget.BoundsAreSharp | main/argus_machine_service.c:645-670 | Orderly runs that meet both bounds of 15 and 9 |
| KdfBudget.LockOrderIsOrderly | main/argus_machine_service.c:853-868 | Asking times in the order in which the lock is taken never precede the current window |
| KdfBudget.LateCallerBreaksTheBound | main/argus_machine_service.c:853-868 | One caller that read the clock before the current window is enough for the budget to admit 16, or 10 unproven, in ten seconds |
| KdfBudget.ReservedShare | main/argus_machine_service.c:654-670 | In whatever order times come, a proven source is refused only after three proven admissions in the window |
| KdfBudget.RetryReachesFreshWindow | main/argus_machine_service.c:660-666 | Waiting the returned seconds reaches a fresh window, one second less need not |
| BrowserDocument.DecodesExactly | main/argus_browser_command.c:359-475 | A body is accepted with a request exactly when it is one of its renderings in at most 192 bytes |
| BrowserCommand.Parser.AppendCodepoint | main/argus_browser_command.c:91-135 | Appends the whole encoding of a scalar value or reports that it does not fit |
| BrowserCommand.Parser.ParseHexQuad | main/argus_browser_command.c:71-89 | Four hexadecimal digits of either case |
| BrowserCommand.Parser.ParseJsonString | main/argus_browser_command.c:137-220 | The buffer receives the string and its terminating zero, or the parse fails |
| BrowserCommand.Parser.ParseTargetValue | main/argus_browser_command.c:275-329 | The number parser with its order of errors |
| BrowserCommand.Parser.ParseForwardValue | main/argus_browser_command.c:331-357 | The literals true and false, delimited |
| BrowserCommand.Parser.ParseAllMembers | main/argus_browser_command.c:394-453 | The member loop: known fields, each at most once |
| BrowserCommand.DecodeCommand | main/argus_browser_command.c:359-475 | The decoder as a whole; a request is dispatchable only on success |
| BrowserRendering.Utf8IsWellFormed | main/argus_browser_command.c:101-135 | Appended bytes are well-formed by section 4 of RFC 3629 and stand for the code point |
| BrowserRendering.Utf8IsUnique | main/argus_browser_command.c:101-135 | Every well-formed sequence is the encoding of its code point |
| BrowserRendering.StringsExactly | main/argus_browser_command.c:137-220 | A string is accepted exactly when it is a rendering of its value that fits the buffer |
| BrowserDocument.RenderedIsDecoded | main/argus_browser_command.c:359-475 | Any rendering of a request, members in any order, any white space and escapes, decodes to it |
| BrowserDocument.DecodedIsRendered | main/argus_browser_command.c:359-475 | Whatever decodes is a rendering of the request |
| BrowserDocument.WrittenIsDecoded | main/argus_browser_command.c:359-475 | Every dispatchable request has a rendering that decodes to it |
| BrowserDocument.FailureIsInert | main/argus_browser_command.c:30-38 | Every failure leaves a request nobody may dispatch, every success one in range |
| BrowserFaults.FirstFaultDecides | main/argus_browser_command.c:394-453 | After any well-formed members the first member that cannot be read decides what the body is refused as |
| BrowserFaults.KeyFaultsExactly | main/argus_browser_command.c:394-453 | An unknown key, a repeated one, and otherwise the value decides |
| BrowserFaults.CommandFaultsExactly | main/argus_browser_command.c:222-273 | A command that is no string, or a string that is no command |
| BrowserFaults.TargetFaultsExactly | main/argus_browser_command.c:275-329 | Fractions, exponents, trailing characters and signs, in this order |
| BrowserFaults.ForwardFaultsExactly | main/argus_browser_command.c:331-357 | A direction that is neither word, or one that is not delimited |
| BrowserFaults.MemberSetFaultsExactly | main/argus_browser_command.c:455-475 | Readable members are refused exactly for a missing command, an incomplete target or a superfluous member |
| BrowserFaults.EnvelopeFaultsExactly | main/argus_browser_command.c:359-393 | Too large, empty or no object, exactly |
| RemainingLength.RoundTripExactly | main/argus_mqtt_broker.c:288-323 | Decoding returns a length and uses exactly its bytes when it is below 2^28, and fails otherwise |
| RemainingLength.EncodeInto | main/argus_mqtt_broker.c:311-323 | The encoder loop writes the code of the length and nothing else |
| RemainingLength.ReadLength | main/argus_mqtt_broker.c:288-309 | The decoder loop: a value, an ended stream or a malformed length |
| RemainingLength.DecodesExactly | main/argus_mqtt_broker.c:288-309 | Exactly the code words decode, to their value, whatever follows |
| RemainingLength.FailsExactly | main/argus_mqtt_broker.c:288-309 | A stream that ends inside a length, and four continuation bytes, exactly |
| RemainingLength.EncodingIsShortest | main/argus_mqtt_broker.c:311-323 | No code word of the same length is shorter |
| Subscription.Confinement | main/argus_mqtt_security.c:5-54 | For validated ids and a wildcard-free scope, what an allowed subscription delivers is in the unit's read categories, under the scope, and no command |
| Subscription.SubscribesExactly | main/argus_mqtt_security.c:5-54 | Who may subscribe to what, category by category, within its scope |
| Subscription.PublishesExactly | main/argus_mqtt_security.c:56-106 | Who may publish an action, on its one topic and with its permission |
| Subscription.MatchesByLevels | main/argus_mqtt_broker.c:436-464 | On filters whose wildcards are levels of their own the matcher matches level by level, except that # needs a level and + does not stand for an empty last one |
| Subscription.TopicMatches | main/argus_mqtt_broker.c:436-464 | The matcher's loops equal its recursive reading |
| Subscription.ApprovedReadFilter | main/argus_mqtt_security.c:5-42 | Exactly one whole read category or one fully named topic in it |
| Subscription.TopicScopeContains | main/argus_machine_service.c:52-64 | The topic is the scope or lies below it |
| Subscription.ApprovedMatchesExactly | main/argus_mqtt_broker.c:436-464 | On approved filters: a literal matches itself, a category everything that begins with it |
| Subscription.CommandsAreNotReadable | main/argus_mqtt_security.c:44-106 | Of the topics machines publish only heartbeats can be read by machines |
| Recovery.ReportsExactly | main/argus_local_recovery.c:40-86 | A release is reported exactly when it completes the first gesture of the trace |
| Recovery.RecoveryDetector.Sample | main/argus_local_recovery.c:40-86 | One sample moves the detector as the step function says |
| Recovery.SettledExactly | main/argus_local_recovery.c:47-56 | A level is debounced exactly when its longest steady run lasts 100 ms |
| Recovery.ReportedAtMostOnce | main/argus_local_recovery.c:44-46 | At most one release is reported in the life of a detector |
| Journal.SinceIsSafeAndExact | main/argus_mqtt_invalidation.c:43-67 | On the full history: a revocation after the capture is never missed, and within 32 records nothing else is reported |
| DirectoryRuns.SelectSucceedsExactly | main/argus_machine_directory.c:124-175 | A payload is selected exactly when no slot is unreadable and one is valid |
| KdfBudget.ReopensExactly | main/argus_machine_service.c:648-653 | A window also reopens for a time read before it opened |
| Subscription.TopicsAreDistinct | main/argus_mqtt_contract.c:105-120 | No topic stands for two actions, so the order of the comparisons is no matter |

## Left out

- Sockets, tasks, queues, flash drivers, HTTP handlers, logging and the texts of published results; they appear as steps, parameters and values.
- The JSON decoders of MQTT envelopes, heartbeats and commands: the browser decoder is the stricter relative that is modelled; the lease takes their results.
- Digests, checksums, key derivation, random identifiers and secrets: parameters or drawn values.
- Authorization of operators, beyond scopes, delegation and the ceiling for machines: whether the caller has the required permission is a parameter.
- Per-source failure lockout, the concurrency limit on derivations, audit throttling and status publication: easier relatives of the budget that is modelled.
- Subscription tables, retained messages, delivery and keep-alive: the matcher and the read policy are modelled, the bookkeeping is not.
- Restarting the broker while the tasks of an earlier lifecycle live: runs are of one lifecycle.
- Wi-Fi, network transitions, factory reset, motion and trajectory generation.
