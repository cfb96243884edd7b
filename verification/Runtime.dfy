/** Admission of authority requests and releases in front of the lease: the
    envelope rules, the bounded cache that answers redeliveries, the epoch
    rules, and the gate every operational command passes. */
module Runtime {
  import opened Words
  import opened Contract
  import Ring

  const CACHE_SIZE: nat := 16

  /** A publish that already passed the broker's policy check and the
      request-authority permission check. */
  datatype Message = Message(
    connection: uint64, principal: string, client: ClientType,
    payload: string, qos: uint8, retain: bool)

  datatype AuthorityRequest = AuthorityRequest(requestId: string, session: string, epoch: uint32)

  datatype Decoded = Accepted(request: AuthorityRequest) | Rejected(reason: string)

  /** What admission takes from elsewhere: the strict envelope decoder, which
      sees only the payload and the kind of operation, and the payload digest. */
  datatype Environment = Environment(
    decode: (string, bool) -> Decoded,
    digest: string -> seq<uint8>)

  /** Length and digest together identify a payload. */
  ghost predicate DigestIdentifies(env: Environment) {
    forall p, q :: |p| == |q| && env.digest(p) == env.digest(q) ==> p == q
  }

  /** What the runtime knows besides the lease when a request arrives. */
  datatype Context = Context(profile: uint8, windowOpen: bool, running: bool, now: uint64)

  /** The published result: every value the result text is composed from. */
  datatype Document = Document(
    requestId: string, session: string, outcome: string, reason: string,
    ownerKind: string, epoch: uint32, leaseStatus: string, localStatus: string)

  datatype Entry = Entry(
    ordinal: uint32, session: string, requestId: string, release: bool,
    payloadLength: nat, digest: seq<uint8>,
    outcome: string, reason: string, ownerKind: string, epoch: uint32,
    leaseStatus: string, localStatus: string)

  datatype Stage =
    | RetainedRefused
    | QosRefused
    | DecodeRejected
    | SessionMismatch
    | DuplicateReplay
    | DuplicateConflict
    | ReleaseStaleEpoch
    | ReleaseNotOwner
    | ReleaseAccepted
    | RequestStaleEpoch
    | RequestEvaluated(result: AuthorityResult)

  datatype Outcome = Outcome(
    stage: Stage, document: Option<Document>, stateChanged: bool, linkOnline: bool)

  function ReasonFor(r: AuthorityResult): string {
    match r
    case Granted => "granted"
    case AlreadyHeld => "already_held"
    case DeniedHeld => "denied_held_by_other"
    case DeniedProfile => "denied_by_profile"
    case TransferUnsupportedRunning => "transfer_unsupported_running"
    case DeniedWindowOpen => "denied_window_open"
    case TransferEpochRequired => "stale_epoch"
    case DeniedInvalid => "denied_invalid"
  }

  function OwnerKind(s: Session): string {
    if s.owner == "" then "NONE"
    else if s.ownerType == Hmi then "LOCAL_HMI"
    else if s.ownerType == ArgusCommand then "ARGUSCORE"
    else if s.ownerType == ServiceTool then "SERVICE_TOOL"
    else "OTHER"
  }

  function LeaseStatus(s: Session, now: uint64): string {
    if s.owner == "" then (if s.link == Stale then "EXPIRED" else "NONE")
    else if s.link != Online then "EXPIRING"
    else if (Sub64(now, s.lastHeartbeatMs) * 2) % TWO_64 >= HEARTBEAT_TIMEOUT_MS then "EXPIRING"
    else "ACTIVE"
  }

  function LocalStatus(s: Session, profile: uint8, windowOpen: bool): string {
    if s.owner != "" then (if s.ownerType == Hmi then "ACTIVE" else "UNAVAILABLE")
    else if profile == ARGUSCORE_PREFERRED && windowOpen then "WAITING"
    else "AVAILABLE"
  }

  function Compose(
    s: Session, c: Context, requestId: string, outcome: string, reason: string): Document
  {
    Document(requestId, s.name, outcome, reason, OwnerKind(s), s.epoch,
             LeaseStatus(s, c.now), LocalStatus(s, c.profile, c.windowOpen))
  }

  /** What a cached entry publishes when its request is delivered again. */
  function Replay(e: Entry): Document {
    Document(e.requestId, e.session, e.outcome, e.reason, e.ownerKind, e.epoch,
             e.leaseStatus, e.localStatus)
  }

  // ------------------------------------------------------------ the log of stored results

  /** The entries still held: the last CACHE_SIZE of everything ever stored. */
  function Resident(log: seq<Entry>): seq<Entry> {
    if |log| <= CACHE_SIZE then log else log[|log| - CACHE_SIZE..]
  }

  predicate HasKey(e: Entry, session: string, requestId: string, release: bool) {
    e.release == release && e.session == session && e.requestId == requestId
  }

  ghost predicate DistinctKeys(entries: seq<Entry>) {
    forall i, j :: 0 <= i < j < |entries| ==>
      !HasKey(entries[i], entries[j].session, entries[j].requestId, entries[j].release)
  }

  function Find(
    entries: seq<Entry>, session: string, requestId: string, release: bool): Option<Entry>
  {
    if entries == [] then None
    else if HasKey(entries[0], session, requestId, release) then Some(entries[0])
    else Find(entries[1..], session, requestId, release)
  }

  lemma {:induction false} FindSome(
    entries: seq<Entry>, k: nat, session: string, requestId: string, release: bool)
    requires DistinctKeys(entries)
    requires k < |entries| && HasKey(entries[k], session, requestId, release)
    ensures Find(entries, session, requestId, release) == Some(entries[k])
  {
    if k > 0 {
      assert !HasKey(entries[0], entries[k].session, entries[k].requestId, entries[k].release);
      FindSome(entries[1..], k - 1, session, requestId, release);
    }
  }

  lemma {:induction false} FindNone(
    entries: seq<Entry>, session: string, requestId: string, release: bool)
    ensures Find(entries, session, requestId, release) == None
       <==> forall k :: 0 <= k < |entries| ==> !HasKey(entries[k], session, requestId, release)
    ensures var r := Find(entries, session, requestId, release);
            r.Some? ==> r.value in entries && HasKey(r.value, session, requestId, release)
  {
    if entries != [] {
      FindNone(entries[1..], session, requestId, release);
      forall k | 0 < k < |entries| ensures entries[k] == entries[1..][k - 1] {}
    }
  }

  lemma AppendKeepsKeysDistinct(log: seq<Entry>, e: Entry)
    requires DistinctKeys(Resident(log))
    requires Find(Resident(log), e.session, e.requestId, e.release) == None
    ensures DistinctKeys(Resident(log + [e]))
  {
    var before, after := Resident(log), Resident(log + [e]);
    FindNone(before, e.session, e.requestId, e.release);
    var shift := if |log| < CACHE_SIZE then 0 else 1;
    assert after == before[shift..] + [e];
  }

  // ------------------------------------------------------------ admission

  function StoredEntry(
    env: Environment, log: seq<Entry>, m: Message, release: bool, d: Document): Entry
  {
    Entry(|log| % TWO_32, d.session, d.requestId, release, |m.payload|, env.digest(m.payload),
          d.outcome, d.reason, d.ownerKind, d.epoch, d.leaseStatus, d.localStatus)
  }

  predicate SamePayload(env: Environment, e: Entry, payload: string) {
    e.payloadLength == |payload| && e.digest == env.digest(payload)
  }

  /** The decision on a request whose key is not cached. */
  function Evaluate(s: Session, m: Message, r: AuthorityRequest, release: bool, c: Context)
    : (Stage, Session, string, string)
  {
    if release then
      if r.epoch != s.epoch then (ReleaseStaleEpoch, s, "REJECTED", "stale_epoch")
      else
        var (released, s') := Release(s, m.principal);
        if released then (ReleaseAccepted, s', "ACCEPTED", "released")
        else (ReleaseNotOwner, s', "REJECTED", "not_owner")
    else if r.epoch != 0 && r.epoch != s.epoch then
      (RequestStaleEpoch, s, "REJECTED", "stale_epoch")
    else
      var (result, s') := RequestWithState(
        s, m.connection, m.principal, m.client,
        c.profile, c.windowOpen, c.running, r.epoch, c.now);
      (RequestEvaluated(result), s',
       if result == Granted || result == AlreadyHeld then "ACCEPTED" else "REJECTED",
       ReasonFor(result))
  }

  predicate ChangesState(stage: Stage) {
    stage == ReleaseAccepted ||
    (stage.RequestEvaluated? && (stage.result == Granted || stage.result == AlreadyHeld))
  }

  /** The whole admission path, on values: the outcome, the lease after it, and
      the log of stored results after it. */
  function Admit(
    env: Environment, s: Session, log: seq<Entry>, m: Message, release: bool, c: Context)
    : (Outcome, Session, seq<Entry>)
  {
    if m.retain then (Outcome(RetainedRefused, None, false, false), s, log)
    else if m.qos != 1 then
      (Outcome(QosRefused, Some(Compose(s, c, "", "REJECTED", "qos_1_required")), false, false),
       s, log)
    else match env.decode(m.payload, release)
      case Rejected(reason) =>
        (Outcome(DecodeRejected, Some(Compose(s, c, "", "REJECTED", reason)), false, false), s, log)
      case Accepted(r) =>
        if r.session != s.name then
          (Outcome(SessionMismatch,
                   Some(Compose(s, c, r.requestId, "REJECTED", "session_mismatch")), false, false),
           s, log)
        else match Find(Resident(log), r.session, r.requestId, release)
          case Some(e) =>
            if SamePayload(env, e, m.payload) then
              (Outcome(DuplicateReplay, Some(Replay(e)), false, false), s, log)
            else
              (Outcome(DuplicateConflict,
                       Some(Compose(s, c, r.requestId, "REJECTED", "duplicate_conflict")),
                       false, false),
               s, log)
          case None =>
            var (stage, s', outcome, reason) := Evaluate(s, m, r, release, c);
            var d := Compose(s', c, r.requestId, outcome, reason);
            (Outcome(stage, Some(d), ChangesState(stage), stage.RequestEvaluated?),
             s', log + [StoredEntry(env, log, m, release, d)])
  }

  /** Nothing but an accepted request or release touches the lease, and nothing
      but an evaluated one touches the cache. */
  lemma AdmitFrame(
    env: Environment, s: Session, log: seq<Entry>, m: Message, release: bool, c: Context)
    ensures var (o, s', log') := Admit(env, s, log, m, release, c);
            && (!o.stateChanged ==> s' == s)
            && s'.name == s.name && s'.guard == s.guard
            && (log' == log || (|log'| == |log| + 1 && log'[..|log|] == log))
            && (log' == log ==> s' == s)
  {
  }

  /** The operational-command gate. */
  datatype CommandAdmission = AdmitOk | AdmitSessionMismatch | AdmitNotHolder | AdmitStaleEpoch

  function CommandGate(
    s: Session, principal: string, connection: uint64, command: Command): CommandAdmission
  {
    if command.session != s.name then AdmitSessionMismatch
    else if s.link != Online || s.owner == "" || s.owner != principal ||
            s.connection != connection then AdmitNotHolder
    else if command.epoch != s.epoch then AdmitStaleEpoch
    else AdmitOk
  }

  /** What a decoded command is answered with before anything is dispatched: a
      rejection, the cached result of the same command, or a start. */
  datatype Answer = Refuse(reason: string) | Cached(result: string) | Proceed

  function GateReason(a: CommandAdmission): string {
    match a
    case AdmitSessionMismatch => "session_mismatch"
    case AdmitNotHolder => "not_authority_holder"
    case _ => "stale_epoch"
  }

  /** `policyAdmitted` is the broker's verdict on the topic. */
  function AnswerTo(s: Session, m: Message, policyAdmitted: bool, command: Command): Answer {
    if !policyAdmitted then Refuse(if m.retain then "retained_forbidden" else "topic_forbidden")
    else if m.qos != 1 then Refuse("qos_1_required")
    else
      var gate := CommandGate(s, m.principal, m.connection, command);
      if gate != AdmitOk then Refuse(GateReason(gate))
      else match CheckSequence(s, command, m.payload)
        case Duplicate => Cached(s.guard.result)
        case Conflict => Refuse("sequence_conflict")
        case StaleSequence => Refuse("stale_sequence")
        case _ => Proceed
  }

  /** The part of command handling up to the dispatch, on the live lease. */
  method HandleCommand(core: SessionCore, m: Message, policyAdmitted: bool, command: Command)
    returns (a: Answer)
    ensures a == AnswerTo(core.View(), m, policyAdmitted, command)
  {
    if !policyAdmitted {
      return Refuse(if m.retain then "retained_forbidden" else "topic_forbidden");
    }
    if m.qos != 1 {
      return Refuse("qos_1_required");
    }
    if command.session != core.name {
      return Refuse("session_mismatch");
    }
    if core.link != Online || core.owner == "" || core.owner != m.principal
       || core.connection != m.connection {
      return Refuse("not_authority_holder");
    }
    if command.epoch != core.epoch {
      return Refuse("stale_epoch");
    }
    var guard := core.guard;
    if !guard.hasSequence {
      return Proceed;
    }
    if command.sequence == guard.lastSequence {
      if command.action == guard.action && command.id == guard.id && m.payload == guard.payload {
        return Cached(guard.result);
      }
      return Refuse("sequence_conflict");
    }
    return if IsNewer(command.sequence, guard.lastSequence) then Proceed
           else Refuse("stale_sequence");
  }

  predicate IsHolder(s: Session, principal: string) {
    s.owner != "" && s.owner == principal
  }

  /** A heartbeat renews a lease; only the holder's is put to the lease at all. */
  function HolderHeartbeat(s: Session, m: Message, h: Heartbeat, now: uint64): (bool, Session) {
    if !IsHolder(s, m.principal) then (false, s)
    else AcceptHeartbeat(s, m.connection, m.principal, m.client, h, now)
  }

  method HandleHeartbeat(core: SessionCore, m: Message, h: Heartbeat, now: uint64)
    returns (accepted: bool)
    modifies core
    ensures var (ok, after) := HolderHeartbeat(old(core.View()), m, h, now);
            accepted == ok && core.View() == after
  {
    var isHolder := core.owner != "" && core.owner == m.principal;
    accepted := false;
    if isHolder {
      accepted := core.Renew(m.connection, m.principal, m.client, h, now);
    }
  }

  // ------------------------------------------------------------ the cache in memory

  lemma ResidentIsShown(log: seq<Entry>, e: Entry)
    requires e in Resident(log)
    ensures Some(e) in Ring.Table(CACHE_SIZE, log)
  {
    hide Ring.Table;
    var k :| 0 <= k < |Resident(log)| && Resident(log)[k] == e;
    Ring.RecentIsShown(CACHE_SIZE, log, |log| - |Resident(log)| + k);
  }

  lemma ShownIsResident(log: seq<Entry>, e: Entry)
    requires Some(e) in Ring.Table(CACHE_SIZE, log)
    ensures e in Resident(log)
  {
    hide Ring.Table;
    var i :| 0 <= i < CACHE_SIZE && Ring.Table(CACHE_SIZE, log)[i] == Some(e);
    var k := Ring.ShownIsRecent(CACHE_SIZE, log, i);
    assert Resident(log)[k - (|log| - |Resident(log)|)] == e;
  }

  /** The table shows exactly the resident entries. */
  lemma TableShowsResident(log: seq<Entry>, e: Entry)
    ensures e in Resident(log) <==> Some(e) in Ring.Table(CACHE_SIZE, log)
  {
    hide Ring.Table, Resident;
    if e in Resident(log) {
      ResidentIsShown(log, e);
    }
    if Some(e) in Ring.Table(CACHE_SIZE, log) {
      ShownIsResident(log, e);
    }
  }

  /** The firmware's round-robin table. `log` remembers everything ever stored. */
  class DuplicateCache {
    const slots: array<Option<Entry>>
    var next: nat
    var ordinal: uint32
    ghost var log: seq<Entry>

    ghost predicate Valid()
      reads this, slots
    {
      && slots.Length == CACHE_SIZE
      && next == |log| % CACHE_SIZE
      && ordinal == |log| % TWO_32
      && DistinctKeys(Resident(log))
      && slots[..] == Ring.Table(CACHE_SIZE, log)
    }

    constructor ()
      ensures Valid() && fresh(slots) && log == []
    {
      slots := new Option<Entry>[CACHE_SIZE](_ => None);
      next, ordinal, log := 0, 0, [];
    }

    method Lookup(session: string, requestId: string, release: bool) returns (r: Option<Entry>)
      requires Valid()
      ensures r == Find(Resident(log), session, requestId, release)
    {
      var i := 0;
      while i < CACHE_SIZE
        invariant 0 <= i <= CACHE_SIZE
        invariant forall j :: 0 <= j < i && slots[j].Some? ==>
                    !HasKey(slots[j].value, session, requestId, release)
      {
        if slots[i].Some? && HasKey(slots[i].value, session, requestId, release) {
          assert slots[..][i] == slots[i];
          TableShowsResident(log, slots[i].value);
          ghost var k :| 0 <= k < |Resident(log)| && Resident(log)[k] == slots[i].value;
          FindSome(Resident(log), k, session, requestId, release);
          return slots[i];
        }
        i := i + 1;
      }
      r := None;
      FindNone(Resident(log), session, requestId, release);
      forall k | 0 <= k < |Resident(log)|
        ensures !HasKey(Resident(log)[k], session, requestId, release)
      {
        TableShowsResident(log, Resident(log)[k]);
        var j :| 0 <= j < CACHE_SIZE && slots[..][j] == Some(Resident(log)[k]);
        assert slots[j] == Some(Resident(log)[k]);
      }
    }

    method Store(e: Entry)
      requires Valid() && e.ordinal == |log| % TWO_32
      requires Find(Resident(log), e.session, e.requestId, e.release) == None
      modifies this, slots
      ensures Valid() && log == old(log) + [e]
    {
      hide Resident, DistinctKeys, Find;
      AppendKeepsKeysDistinct(log, e);
      Ring.TableAppend(CACHE_SIZE, log, e);
      Ring.NextSlot(|log|, CACHE_SIZE);
      Ring.NextSlot(|log|, TWO_32);
      slots[next] := Some(e);
      next := if next + 1 == CACHE_SIZE then 0 else next + 1;
      ordinal := Inc32(ordinal);
      log := log + [e];
    }
  }

  /** `argus_mqtt_authority_admit`: one atomic region of the runtime. */
  method AuthorityAdmit(
    env: Environment, core: SessionCore, cache: DuplicateCache,
    m: Message, release: bool, c: Context)
    returns (out: Outcome)
    requires cache.Valid()
    modifies core, cache, cache.slots
    ensures cache.Valid()
    ensures (out, core.View(), cache.log)
         == Admit(env, old(core.View()), old(cache.log), m, release, c)
  {
    if m.retain {
      return Outcome(RetainedRefused, None, false, false);
    }
    if m.qos != 1 {
      var d := Emit(core, c, "", "REJECTED", "qos_1_required");
      return Outcome(QosRefused, Some(d), false, false);
    }
    var decoded := env.decode(m.payload, release);
    if decoded.Rejected? {
      var d := Emit(core, c, "", "REJECTED", decoded.reason);
      return Outcome(DecodeRejected, Some(d), false, false);
    }
    var request := decoded.request;
    if request.session != core.name {
      var d := Emit(core, c, request.requestId, "REJECTED", "session_mismatch");
      return Outcome(SessionMismatch, Some(d), false, false);
    }
    var existing := cache.Lookup(request.session, request.requestId, release);
    if existing.Some? {
      if existing.value.payloadLength == |m.payload| &&
         existing.value.digest == env.digest(m.payload) {
        return Outcome(DuplicateReplay, Some(Replay(existing.value)), false, false);
      }
      var d := Emit(core, c, request.requestId, "REJECTED", "duplicate_conflict");
      return Outcome(DuplicateConflict, Some(d), false, false);
    }
    var stage: Stage;
    var outcome, reason := "REJECTED", "stale_epoch";
    if release {
      if request.epoch != core.epoch {
        stage := ReleaseStaleEpoch;
      } else {
        var released := core.ReleaseAuthority(m.principal);
        if released {
          stage, outcome, reason := ReleaseAccepted, "ACCEPTED", "released";
        } else {
          stage, reason := ReleaseNotOwner, "not_owner";
        }
      }
    } else if request.epoch != 0 && request.epoch != core.epoch {
      stage := RequestStaleEpoch;
    } else {
      var result := core.RequestAuthorityWithState(
        m.connection, m.principal, m.client,
        c.profile, c.windowOpen, c.running, request.epoch, c.now);
      stage, reason := RequestEvaluated(result), ReasonFor(result);
      if result == Granted || result == AlreadyHeld {
        outcome := "ACCEPTED";
      }
    }
    var d := Emit(core, c, request.requestId, outcome, reason);
    cache.Store(Entry(cache.ordinal, d.session, d.requestId, release, |m.payload|,
                      env.digest(m.payload), d.outcome, d.reason, d.ownerKind, d.epoch,
                      d.leaseStatus, d.localStatus));
    out := Outcome(stage, Some(d), ChangesState(stage), stage.RequestEvaluated?);
  }

  /** The owner, lease and panel values are read from the lease at this moment. */
  method Emit(core: SessionCore, c: Context, requestId: string, outcome: string, reason: string)
    returns (d: Document)
    ensures d == Compose(core.View(), c, requestId, outcome, reason)
  {
    var kind := "NONE";
    if core.owner != "" {
      match core.ownerType {
        case Hmi => kind := "LOCAL_HMI";
        case ArgusCommand => kind := "ARGUSCORE";
        case ServiceTool => kind := "SERVICE_TOOL";
        case _ => kind := "OTHER";
      }
    }
    var owned := core.owner != "";
    var lease: string;
    if !owned {
      lease := if core.link == Stale then "EXPIRED" else "NONE";
    } else if core.link != Online {
      lease := "EXPIRING";
    } else {
      var age := Sub64(c.now, core.lastHeartbeatMs);
      lease := if (age * 2) % TWO_64 >= HEARTBEAT_TIMEOUT_MS then "EXPIRING" else "ACTIVE";
    }
    var local: string;
    if owned && core.ownerType == Hmi {
      local := "ACTIVE";
    } else if owned {
      local := "UNAVAILABLE";
    } else if c.profile == ARGUSCORE_PREFERRED && c.windowOpen {
      local := "WAITING";
    } else {
      local := "AVAILABLE";
    }
    d := Document(requestId, core.name, outcome, reason, kind, core.epoch, lease, local);
  }
}
