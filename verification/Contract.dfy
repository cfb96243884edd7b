/** The authority lease: who may command the pump, on which connection, under
    which epoch, and which command came last. `Session` is the value the whole
    protocol is about and the functions on it are its specification;
    `SessionCore` is the mutable record the firmware updates field by field. */
module Contract {
  import opened Words

  const HEARTBEAT_TIMEOUT_MS: int := 6000
  const STANDALONE_HMI: uint8 := 0
  const ARGUSCORE_PREFERRED: uint8 := 1

  datatype ClientType =
    NoClient | Hmi | NodeRed | ServiceTool | BackupInterface | ArgusCommand | AiToolGateway

  datatype Link = Offline | Online | Stale

  datatype AuthorityResult =
    | Granted
    | AlreadyHeld
    | DeniedHeld
    | DeniedProfile
    | DeniedInvalid
    | TransferUnsupportedRunning
    | TransferEpochRequired
    | DeniedWindowOpen

  datatype Action = NoAction | SetTarget | Start | Stop | Unlock | EStop | ResetEStop | Recover

  datatype Command = Command(
    session: string, sequence: uint32, id: string, epoch: uint32, action: Action)

  datatype SequenceResult = First | Newer | Duplicate | Conflict | StaleSequence

  datatype Heartbeat = Heartbeat(session: string, counter: uint32)

  /** The command replay guard: the last command whose result was committed. */
  datatype Guard = Guard(
    hasSequence: bool, lastSequence: uint32,
    action: Action, id: string, payload: string, result: string)

  /** An empty `owner` means that nobody holds the lease. */
  datatype Session = Session(
    name: string,
    link: Link,
    owner: string,
    ownerType: ClientType,
    connection: uint64,
    epoch: uint32,
    heartbeatConnection: uint64,
    heartbeatCounter: uint32,
    lastHeartbeatMs: uint64,
    guard: Guard)

  const NO_GUARD := Guard(false, 0, NoAction, "", "", "")

  function Initial(name: string): Session {
    Session(name, Offline, "", NoClient, 0, 0, 0, 0, 0, NO_GUARD)
  }

  predicate IsLocal(c: ClientType) {
    c == Hmi || c == ServiceTool
  }

  predicate ProfilePermits(profile: uint8, client: ClientType, windowOpen: bool) {
    if profile == STANDALONE_HMI then IsLocal(client)
    else client == ArgusCommand || (IsLocal(client) && !windowOpen)
  }

  predicate MayPreempt(requester: ClientType, holder: ClientType) {
    requester == ArgusCommand && IsLocal(holder)
  }

  /** Epoch 0 means "never owned", so the counter wraps to 1. */
  function NextEpoch(epoch: uint32): uint32 {
    if epoch == TWO_32 - 1 then 1 else epoch + 1
  }

  predicate HeldBy(s: Session, machine: string) {
    machine != "" && s.owner != "" && s.owner == machine
  }

  predicate Expired(s: Session, now: uint64) {
    Sub64(now, s.lastHeartbeatMs) >= HEARTBEAT_TIMEOUT_MS
  }

  /** An owner is recorded and its deadline has not passed. */
  predicate Live(s: Session, now: uint64) {
    s.owner != "" && !Expired(s, now)
  }

  function WithHolder(s: Session, machine: string, client: ClientType): Session {
    s.(owner := machine, ownerType := if machine != "" then client else NoClient)
  }

  /** Explicit acquisition. `machine` is the authenticated identity; a missing
      one is the empty string. */
  function Request(
    s: Session, connection: uint64, machine: string, client: ClientType,
    profile: uint8, windowOpen: bool, now: uint64): (AuthorityResult, Session)
  {
    if connection == 0 || machine == "" || profile > ARGUSCORE_PREFERRED then
      (DeniedInvalid, s)
    else if !ProfilePermits(profile, client, windowOpen) then
      (if windowOpen && profile == ARGUSCORE_PREFERRED && IsLocal(client)
       then DeniedWindowOpen else DeniedProfile, s)
    else if Live(s, now) && s.owner == machine then
      (AlreadyHeld,
       s.(connection := connection,
          heartbeatCounter :=
            if s.heartbeatConnection != connection then 0 else s.heartbeatCounter,
          heartbeatConnection := connection,
          lastHeartbeatMs := now,
          link := Online))
    else if Live(s, now) && !MayPreempt(client, s.ownerType) then
      (DeniedHeld, s)
    else
      (Granted,
       WithHolder(s, machine, client).(
         connection := connection, heartbeatConnection := connection,
         heartbeatCounter := 0, lastHeartbeatMs := now, link := Online,
         epoch := NextEpoch(s.epoch)))
  }

  /** The same, after the rules a transfer must meet. */
  function RequestWithState(
    s: Session, connection: uint64, machine: string, client: ClientType,
    profile: uint8, windowOpen: bool, running: bool, suppliedEpoch: uint32, now: uint64)
    : (AuthorityResult, Session)
  {
    var wouldTransfer :=
      ProfilePermits(profile, client, windowOpen) &&
      Live(s, now) && !HeldBy(s, machine) && MayPreempt(client, s.ownerType);
    if wouldTransfer && suppliedEpoch == 0 then (TransferEpochRequired, s)
    else if wouldTransfer && running then (TransferUnsupportedRunning, s)
    else Request(s, connection, machine, client, profile, windowOpen, now)
  }

  function Release(s: Session, machine: string): (bool, Session) {
    if !HeldBy(s, machine) then (false, s)
    else
      (true,
       WithHolder(s, "", NoClient).(
         connection := 0, heartbeatConnection := 0, heartbeatCounter := 0,
         link := Offline, epoch := NextEpoch(s.epoch)))
  }

  function AcceptHeartbeat(
    s: Session, connection: uint64, machine: string, client: ClientType,
    heartbeat: Heartbeat, now: uint64): (bool, Session)
  {
    if connection == 0 || s.name != heartbeat.session then (false, s)
    else if s.connection != 0 && s.connection != connection && s.link == Online &&
            !HeldBy(s, machine) then (false, s)
    else if s.heartbeatConnection == connection && s.heartbeatCounter != 0 &&
            !IsNewer(heartbeat.counter, s.heartbeatCounter) then (false, s)
    else
      (true,
       WithHolder(s, machine, client).(
         connection := connection, heartbeatConnection := connection,
         heartbeatCounter := heartbeat.counter, lastHeartbeatMs := now, link := Online))
  }

  function Tick(s: Session, now: uint64): (bool, Session) {
    if (s.owner == "" && s.link != Online) || !Expired(s, now) then (false, s)
    else
      (true,
       WithHolder(s, "", NoClient).(
         link := Stale, connection := 0, epoch := NextEpoch(s.epoch)))
  }

  function Disconnect(s: Session, connection: uint64): (bool, Session) {
    if connection == 0 ||
       (s.connection != connection && s.heartbeatConnection != connection) then (false, s)
    else
      (true,
       s.(connection := 0, heartbeatConnection := 0, heartbeatCounter := 0, link := Offline))
  }

  function CheckSequence(s: Session, command: Command, payload: string): SequenceResult {
    if !s.guard.hasSequence then First
    else if command.sequence == s.guard.lastSequence then
      if command.action == s.guard.action && command.id == s.guard.id &&
         payload == s.guard.payload
      then Duplicate else Conflict
    else if IsNewer(command.sequence, s.guard.lastSequence) then Newer
    else StaleSequence
  }

  function CommitResult(s: Session, command: Command, payload: string, result: string): Session {
    s.(guard := Guard(true, command.sequence, command.action, command.id, payload, result))
  }

  /** The firmware's `argus_mqtt_session_core_t`. */
  class SessionCore {
    const name: string
    var link: Link
    var owner: string
    var ownerType: ClientType
    var connection: uint64
    var epoch: uint32
    var heartbeatConnection: uint64
    var heartbeatCounter: uint32
    var lastHeartbeatMs: uint64
    var guard: Guard

    ghost function View(): Session
      reads this
    {
      Session(name, link, owner, ownerType, connection, epoch,
              heartbeatConnection, heartbeatCounter, lastHeartbeatMs, guard)
    }

    constructor (name: string)
      ensures View() == Initial(name)
    {
      this.name := name;
      link, owner, ownerType, connection := Offline, "", NoClient, 0;
      epoch, heartbeatConnection, heartbeatCounter, lastHeartbeatMs := 0, 0, 0, 0;
      guard := NO_GUARD;
    }

    method RecordHolder(machine: string, client: ClientType)
      modifies this`owner, this`ownerType
      ensures owner == machine && ownerType == if machine != "" then client else NoClient
    {
      owner := machine;
      if machine != "" {
        ownerType := client;
      } else {
        ownerType := NoClient;
      }
    }

    method AdvanceEpoch()
      modifies this`epoch
      ensures epoch == NextEpoch(old(epoch))
    {
      epoch := Inc32(epoch);
      if epoch == 0 {
        epoch := 1;
      }
    }

    method RequestAuthority(
      requester: uint64, machine: string, client: ClientType,
      profile: uint8, windowOpen: bool, now: uint64)
      returns (result: AuthorityResult)
      modifies this
      ensures (result, View())
           == Request(old(View()), requester, machine, client, profile, windowOpen, now)
    {
      if requester == 0 || machine == "" || profile > ARGUSCORE_PREFERRED {
        return DeniedInvalid;
      }
      if !ProfilePermits(profile, client, windowOpen) {
        if windowOpen && profile == ARGUSCORE_PREFERRED &&
           (client == Hmi || client == ServiceTool) {
          return DeniedWindowOpen;
        }
        return DeniedProfile;
      }
      var expired := Sub64(now, lastHeartbeatMs) >= HEARTBEAT_TIMEOUT_MS;
      var held := owner != "" && !expired;
      if held && owner == machine {
        connection := requester;
        if heartbeatConnection != requester {
          heartbeatConnection := requester;
          heartbeatCounter := 0;
        }
        lastHeartbeatMs := now;
        link := Online;
        return AlreadyHeld;
      }
      if held && !MayPreempt(client, ownerType) {
        return DeniedHeld;
      }
      RecordHolder(machine, client);
      connection := requester;
      heartbeatConnection := requester;
      heartbeatCounter := 0;
      lastHeartbeatMs := now;
      link := Online;
      AdvanceEpoch();
      return Granted;
    }

    method RequestAuthorityWithState(
      requester: uint64, machine: string, client: ClientType,
      profile: uint8, windowOpen: bool, running: bool, suppliedEpoch: uint32, now: uint64)
      returns (result: AuthorityResult)
      modifies this
      ensures (result, View())
           == RequestWithState(old(View()), requester, machine, client,
                               profile, windowOpen, running, suppliedEpoch, now)
    {
      var expired := Sub64(now, lastHeartbeatMs) >= HEARTBEAT_TIMEOUT_MS;
      var heldByOther := owner != "" && !expired && !(machine != "" && owner == machine);
      var permitted := ProfilePermits(profile, client, windowOpen);
      if permitted && heldByOther && MayPreempt(client, ownerType) {
        if suppliedEpoch == 0 {
          return TransferEpochRequired;
        }
        if running {
          return TransferUnsupportedRunning;
        }
      }
      result := RequestAuthority(requester, machine, client, profile, windowOpen, now);
    }

    method ReleaseAuthority(machine: string) returns (released: bool)
      modifies this
      ensures (released, View()) == Release(old(View()), machine)
    {
      if !(machine != "" && owner != "" && owner == machine) {
        return false;
      }
      RecordHolder("", NoClient);
      connection := 0;
      heartbeatConnection := 0;
      heartbeatCounter := 0;
      link := Offline;
      AdvanceEpoch();
      return true;
    }

    method Renew(
      sender: uint64, machine: string, client: ClientType, heartbeat: Heartbeat, now: uint64)
      returns (accepted: bool)
      modifies this
      ensures var (ok, after) :=
                AcceptHeartbeat(old(View()), sender, machine, client, heartbeat, now);
              accepted == ok && View() == after
    {
      if sender == 0 || name != heartbeat.session {
        return false;
      }
      var samePrincipal := machine != "" && owner != "" && owner == machine;
      if connection != 0 && connection != sender && link == Online && !samePrincipal {
        return false;
      }
      if heartbeatConnection == sender && heartbeatCounter != 0 &&
         !IsNewer(heartbeat.counter, heartbeatCounter) {
        return false;
      }
      RecordHolder(machine, client);
      connection := sender;
      heartbeatConnection := sender;
      heartbeatCounter := heartbeat.counter;
      lastHeartbeatMs := now;
      link := Online;
      return true;
    }

    method ExpireIfStale(now: uint64) returns (expired: bool)
      modifies this
      ensures (expired, View()) == Tick(old(View()), now)
    {
      var leaseExists := owner != "" || link == Online;
      if !leaseExists || Sub64(now, lastHeartbeatMs) < HEARTBEAT_TIMEOUT_MS {
        return false;
      }
      link := Stale;
      connection := 0;
      RecordHolder("", NoClient);
      AdvanceEpoch();
      return true;
    }

    method DropConnection(departed: uint64) returns (changed: bool)
      modifies this
      ensures (changed, View()) == Disconnect(old(View()), departed)
    {
      if departed == 0 || (connection != departed && heartbeatConnection != departed) {
        return false;
      }
      connection := 0;
      heartbeatConnection := 0;
      heartbeatCounter := 0;
      link := Offline;
      return true;
    }

    method Commit(command: Command, payload: string, result: string)
      modifies this`guard
      ensures View() == CommitResult(old(View()), command, payload, result)
    {
      guard := Guard(true, command.sequence, command.action, command.id, payload, result);
    }
  }
}
