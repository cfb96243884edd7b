/** What each message is answered with and what it does to the lease, written on the
    lease, the envelope and the caller alone; and how long a lease lasts. */
module Answers {
  import opened Words
  import opened Contract
  import opened Runtime
  import opened LeaseRuns
  import opened Tenure

  // ------------------------------------------------------------ requests

  /** The lease is owned and its owner was heard of within six seconds. */
  predicate Held(s: Session, now: uint64) {
    s.owner != "" && Sub64(now, s.lastHeartbeatMs) < 6000
  }

  /** ArgusCore asks for what a local panel holds. */
  predicate Takes(s: Session, m: Message, c: Context) {
    && Held(s, c.now) && m.principal != s.owner
    && m.client == ArgusCommand && s.ownerType in {Hmi, ServiceTool}
    && c.profile != STANDALONE_HMI
  }

  predicate Identified(m: Message, c: Context) {
    m.connection != 0 && m.principal != "" && c.profile in {STANDALONE_HMI, ARGUSCORE_PREFERRED}
  }

  /** A local panel asks while the window of ArgusCore is open. */
  predicate BeforeItsTurn(m: Message, c: Context) {
    c.profile == ARGUSCORE_PREFERRED && m.client in {Hmi, ServiceTool} && c.windowOpen
  }

  /** The epoch and the transfer rules leave the request to arbitration. */
  predicate Arbitrated(s: Session, m: Message, c: Context, epoch: uint32) {
    epoch in {0, s.epoch} && (Takes(s, m, c) ==> epoch != 0 && !c.running)
  }

  ghost function Answer(env: Environment, s: System, e: Event): Outcome
    requires e.Authority?
  {
    Admit(env, s.session, s.log, e.message, e.release, e.context).0
  }

  /** Every answer to a request that is decided on, with exactly when it is given. */
  lemma RequestAnsweredExactly(env: Environment, s: System, e: Event)
    requires ReachesArbitration(env, s, e)
    ensures Answer(env, s, e).document.Some?
    ensures var d := Answer(env, s, e).document.value;
            var m, c := e.message, e.context;
            var epoch := env.decode(m.payload, false).request.epoch;
            var decided := Arbitrated(s.session, m, c, epoch) && Identified(m, c);
            var eligible := decided && Commissioned(m.client, c);
            && (d.reason == "stale_epoch" <==>
                  epoch !in {0, s.session.epoch} || (epoch == 0 && Takes(s.session, m, c)))
            && (d.reason == "transfer_unsupported_running" <==>
                  Takes(s.session, m, c) && epoch == s.session.epoch != 0 && c.running)
            && (d.reason == "denied_invalid" <==>
                  Arbitrated(s.session, m, c, epoch) && !Identified(m, c))
            && (d.reason == "denied_window_open" <==> decided && BeforeItsTurn(m, c))
            && (d.reason == "denied_by_profile" <==>
                  decided && !Commissioned(m.client, c) && !BeforeItsTurn(m, c))
            && (d.reason == "already_held" <==>
                  eligible && Held(s.session, c.now) && m.principal == s.session.owner)
            && (d.reason == "denied_held_by_other" <==>
                  eligible && Held(s.session, c.now) && m.principal != s.session.owner
                  && !Takes(s.session, m, c))
            && (d.reason == "granted" <==>
                  eligible && (!Held(s.session, c.now) || Takes(s.session, m, c)))
            && d.outcome == if d.reason in {"granted", "already_held"} then "ACCEPTED" else "REJECTED"
  {
    hide KeyIsFree, Find, Resident, OwnerKind, LeaseStatus, LocalStatus, StoredEntry;
    DecidedKey(env, s, e);
  }

  lemma ReleaseAnsweredExactly(env: Environment, s: System, e: Event)
    requires ReachesDecision(env, s, e) && e.release
    ensures Answer(env, s, e).document.Some?
    ensures var d := Answer(env, s, e).document.value;
            var current := env.decode(e.message.payload, true).request.epoch == s.session.epoch;
            var own := e.message.principal != "" && e.message.principal == s.session.owner;
            && (d.reason == "released" <==> current && own)
            && (d.reason == "not_owner" <==> current && !own)
            && (d.reason == "stale_epoch" <==> !current)
            && d.outcome == if d.reason == "released" then "ACCEPTED" else "REJECTED"
  {
    hide KeyIsFree, Find, Resident, OwnerKind, LeaseStatus, LocalStatus, StoredEntry;
    DecidedKey(env, s, e);
  }

  /** What is not decided on is refused for its envelope or its session, in this order,
      unless its key is known. A retained message gets no answer at all. */
  lemma UndecidedExactly(env: Environment, s: System, e: Event)
    requires e.Authority? && !ReachesDecision(env, s, e) && s.phase == Idle
    ensures Step(env, s, e).session == s.session && Step(env, s, e).log == s.log
    ensures var o, m := Answer(env, s, e), e.message;
            var decoded := env.decode(m.payload, e.release);
            && (o.document == None <==> m.retain)
            && (!m.retain && m.qos != 1 ==>
                  o.document.value.reason == "qos_1_required" && o.document.value.requestId == "")
            && (!m.retain && m.qos == 1 && decoded.Rejected? ==>
                  o.document.value.reason == decoded.reason && o.document.value.requestId == "")
            && (!m.retain && m.qos == 1 && decoded.Accepted? ==>
                  o.document.value.requestId == decoded.request.requestId
                  && (decoded.request.session != s.session.name ==>
                        o.document.value.reason == "session_mismatch"))
            && (!m.retain && (m.qos != 1 || decoded.Rejected?
                              || decoded.request.session != s.session.name) ==>
                  o.document.value.outcome == "REJECTED")
  {
    hide KeyIsFree, OwnerKind, LeaseStatus, LocalStatus, StoredEntry;
    if env.decode(e.message.payload, e.release).Accepted? {
      var r := env.decode(e.message.payload, e.release).request;
      DecidedKey(env, s, e);
      FindNone(Resident(s.log), r.session, r.requestId, e.release);
      hide Find;
    }
  }

  /** The owner asked again while it still held the lease. */
  ghost predicate ConfirmedBy(env: Environment, s: System, e: Event) {
    && ReachesArbitration(env, s, e)
    && Answer(env, s, e).stage == RequestEvaluated(AlreadyHeld)
  }

  /** What a request does: a grant makes the caller the owner in a new epoch, on its
      connection and with no heartbeat counted yet; the owner's own request moves the lease
      to its connection; nothing else changes it. */
  lemma RequestDoesExactly(env: Environment, s: System, e: Event)
    requires e.Authority? && !e.release
    ensures ConfirmedBy(env, s, e) <==>
              && ReachesArbitration(env, s, e)
              && Arbitrated(s.session, e.message, e.context,
                            env.decode(e.message.payload, false).request.epoch)
              && Identified(e.message, e.context) && Commissioned(e.message.client, e.context)
              && Held(s.session, e.context.now) && e.message.principal == s.session.owner
    ensures var m, l := e.message, s.session;
            Step(env, s, e).session
            == if GrantedBy(env, s, e) then
                 l.(owner := m.principal, ownerType := m.client, link := Online,
                    connection := m.connection, heartbeatConnection := m.connection,
                    heartbeatCounter := 0, lastHeartbeatMs := e.context.now,
                    epoch := if l.epoch == 0xFFFF_FFFF then 1 else l.epoch + 1)
               else if ConfirmedBy(env, s, e) then
                 l.(link := Online, connection := m.connection,
                    heartbeatConnection := m.connection,
                    heartbeatCounter := if l.heartbeatConnection == m.connection
                                        then l.heartbeatCounter else 0,
                    lastHeartbeatMs := e.context.now)
               else l
  {
    hide KeyIsFree, Find, Resident, Compose, Replay, SamePayload, StoredEntry;
    if env.decode(e.message.payload, e.release).Accepted? {
      DecidedKey(env, s, e);
    }
  }

  /** The result of every message that is decided on is stored, the newest last, under its
      key and its payload and with what was answered; nothing else is stored. */
  lemma StoresExactly(env: Environment, s: System, e: Event)
    requires e.Authority?
    ensures var m, o, log := e.message, Answer(env, s, e), Step(env, s, e).log;
            if !ReachesDecision(env, s, e) then log == s.log
            else
              var d, r := o.document.value, env.decode(m.payload, e.release).request;
              && o.document.Some?
              && log == s.log + [Entry(
                   |s.log| % TWO_32, r.session, r.requestId, e.release,
                   |m.payload|, env.digest(m.payload), d.outcome, d.reason, d.ownerKind, d.epoch,
                   d.leaseStatus, d.localStatus)]
  {
    AdmitFrame(env, s.session, s.log, e.message, e.release, e.context);
    hide KeyIsFree, Find, Resident, Evaluate, OwnerKind, LeaseStatus, LocalStatus, SamePayload;
    if env.decode(e.message.payload, e.release).Accepted? {
      DecidedKey(env, s, e);
    }
  }

  /** The runtime is told of a change exactly when a grant, a confirmation or a release
      changed the lease, and of a caller online exactly when a request was arbitrated. */
  lemma FlagsExactly(env: Environment, s: System, e: Event)
    requires e.Authority? && s.phase == Idle
    ensures var o := Answer(env, s, e);
            && (o.stateChanged <==>
                  GrantedBy(env, s, e) || ConfirmedBy(env, s, e) || ReleasedBy(env, s, e))
            && (o.linkOnline <==>
                  ReachesArbitration(env, s, e)
                  && env.decode(e.message.payload, false).request.epoch in {0, s.session.epoch})
  {
    hide KeyIsFree, Find, Resident, Compose, Replay, SamePayload, StoredEntry;
    if env.decode(e.message.payload, e.release).Accepted? {
      DecidedKey(env, s, e);
    }
  }

  /** A message under a known key is answered as before if its payload is the same, and with
      a conflict if it is not. */
  lemma KnownKeyAnsweredExactly(env: Environment, s: System, e: Event, k: nat)
    requires e.Authority? && !e.message.retain && e.message.qos == 1
    requires DistinctKeys(Resident(s.log)) && |s.log| - 16 <= k < |s.log|
    requires var d := env.decode(e.message.payload, e.release);
             && d.Accepted? && d.request.session == s.session.name == s.log[k].session
             && d.request.requestId == s.log[k].requestId && e.release == s.log[k].release
    ensures Answer(env, s, e).document.Some?
    ensures var d, known := Answer(env, s, e).document.value, s.log[k];
            if known.payloadLength == |e.message.payload|
               && known.digest == env.digest(e.message.payload)
            then d == Document(known.requestId, known.session, known.outcome, known.reason,
                               known.ownerKind, known.epoch, known.leaseStatus, known.localStatus)
            else d.reason == "duplicate_conflict" && d.outcome == "REJECTED"
  {
    var base := |s.log| - |Resident(s.log)|;
    assert Resident(s.log)[k - base] == s.log[k];
    var r := env.decode(e.message.payload, e.release).request;
    FindSome(Resident(s.log), k - base, r.session, r.requestId, e.release);
    hide Find, Resident, DistinctKeys;
  }

  // ------------------------------------------------------------ documents

  lemma AnswerIsOfLease(env: Environment, s: System, e: Event)
    requires e.Authority? && s.phase == Idle
    requires Answer(env, s, e).document.Some? && Answer(env, s, e).stage != DuplicateReplay
    ensures var d := Answer(env, s, e).document.value;
            d == Compose(Step(env, s, e).session, e.context, d.requestId, d.outcome, d.reason)
  {
    hide Find, Resident, Replay, SamePayload, StoredEntry, OwnerKind, LeaseStatus, LocalStatus;
  }

  /** What an answer publishes about the lease it leaves behind, except when it repeats an
      earlier one. */
  lemma PublishedExactly(env: Environment, s: System, e: Event)
    requires e.Authority? && s.phase == Idle
    requires Answer(env, s, e).document.Some? && Answer(env, s, e).stage != DuplicateReplay
    ensures var d, l, c := Answer(env, s, e).document.value, Step(env, s, e).session, e.context;
            var age := Sub64(c.now, l.lastHeartbeatMs);
            && d.session == l.name && d.epoch == l.epoch
            && (d.ownerKind == "NONE" <==> l.owner == "")
            && (d.ownerKind == "LOCAL_HMI" <==> l.owner != "" && l.ownerType == Hmi)
            && (d.ownerKind == "ARGUSCORE" <==> l.owner != "" && l.ownerType == ArgusCommand)
            && (d.ownerKind == "SERVICE_TOOL" <==> l.owner != "" && l.ownerType == ServiceTool)
            && d.ownerKind in {"NONE", "LOCAL_HMI", "ARGUSCORE", "SERVICE_TOOL", "OTHER"}
            && (d.leaseStatus == "NONE" <==> l.owner == "" && l.link != Stale)
            && (d.leaseStatus == "EXPIRED" <==> l.owner == "" && l.link == Stale)
            && (age < TWO_64 / 2 ==>
                  (d.leaseStatus == "ACTIVE" <==> l.owner != "" && l.link == Online && age < 3000))
            && d.leaseStatus in {"NONE", "EXPIRED", "ACTIVE", "EXPIRING"}
            && (d.localStatus == "ACTIVE" <==> l.owner != "" && l.ownerType == Hmi)
            && (d.localStatus == "UNAVAILABLE" <==> l.owner != "" && l.ownerType != Hmi)
            && (d.localStatus == "WAITING" <==>
                  l.owner == "" && c.profile == ARGUSCORE_PREFERRED && c.windowOpen)
            && d.localStatus in {"ACTIVE", "UNAVAILABLE", "WAITING", "AVAILABLE"}
  {
    hide Admit, Step;
    AnswerIsOfLease(env, s, e);
  }

  /** The document of a grant shows the new owner and a fresh lease. */
  lemma GrantPublished(env: Environment, s: System, e: Event)
    requires Inv(s) && GrantedBy(env, s, e)
    ensures var m := e.message;
            Answer(env, s, e).document
            == Some(Document(
                 env.decode(m.payload, false).request.requestId, s.session.name,
                 "ACCEPTED", "granted",
                 if m.client == Hmi then "LOCAL_HMI"
                 else if m.client == ArgusCommand then "ARGUSCORE" else "SERVICE_TOOL",
                 if s.session.epoch == 0xFFFF_FFFF then 1 else s.session.epoch + 1,
                 "ACTIVE", if m.client == Hmi then "ACTIVE" else "UNAVAILABLE"))
  {
    GrantExactly(env, s, e);
    hide Inv, KeyIsFree, Find, Resident, Replay, SamePayload, StoredEntry;
  }

  /** The document of a release shows a lease nobody holds. */
  lemma ReleasePublished(env: Environment, s: System, e: Event)
    requires Inv(s) && ReleasedBy(env, s, e)
    ensures Answer(env, s, e).document
         == Some(Document(
              env.decode(e.message.payload, true).request.requestId, s.session.name,
              "ACCEPTED", "released", "NONE",
              if s.session.epoch == 0xFFFF_FFFF then 1 else s.session.epoch + 1, "NONE",
              if e.context.profile == ARGUSCORE_PREFERRED && e.context.windowOpen
              then "WAITING" else "AVAILABLE"))
  {
    hide Inv, KeyIsFree, Find, Resident, Replay, SamePayload, StoredEntry;
  }

  // ------------------------------------------------------------ heartbeats, ticks, departures

  /** A heartbeat of the owner for this session, newer than the last of its connection. */
  predicate Heard(s: System, m: Message, h: Heartbeat) {
    && s.phase == Idle && m.connection != 0 && h.session == s.session.name && h.counter != 0
    && m.principal != "" && m.principal == s.session.owner
    && (s.session.heartbeatConnection == m.connection && s.session.heartbeatCounter != 0 ==>
          1 <= (h.counter - s.session.heartbeatCounter) % TWO_32 < TWO_31)
  }

  /** A heartbeat renews the lease exactly when it is heard, and otherwise changes nothing. */
  lemma RenewedExactly(env: Environment, s: System, m: Message, h: Heartbeat, now: uint64)
    ensures var t := Step(env, s, Renewal(m, h, now));
            if Heard(s, m, h) then
              t.session == s.session.(
                ownerType := m.client, connection := m.connection, link := Online,
                heartbeatConnection := m.connection, heartbeatCounter := h.counter,
                lastHeartbeatMs := now)
            else t == s
  {
    AheadIsNewer(h.counter, s.session.heartbeatCounter);
    hide IsNewer;
  }

  lemma AheadIsNewer(a: uint32, b: uint32)
    ensures IsNewer(a, b) <==> 1 <= (a - b) % TWO_32 < TWO_31
  {
  }

  /** The lease itself refuses a heartbeat for another session, without a connection, from
      a stranger while another connection is online, or with a counter its connection has
      used; any other one rebinds it. */
  lemma HeartbeatAcceptedExactly(
    s: Session, connection: uint64, machine: string, client: ClientType, h: Heartbeat,
    now: uint64)
    ensures var (accepted, after) := AcceptHeartbeat(s, connection, machine, client, h, now);
            var owns := machine != "" && machine == s.owner;
            && (accepted <==>
                  && connection != 0 && h.session == s.name
                  && (owns || s.link != Online || s.connection in {0, connection})
                  && (s.heartbeatConnection == connection && s.heartbeatCounter != 0 ==>
                        1 <= (h.counter - s.heartbeatCounter) % TWO_32 < TWO_31))
            && after == if !accepted then s
                        else s.(owner := machine, link := Online,
                                ownerType := if machine == "" then NoClient else client,
                                connection := connection, heartbeatConnection := connection,
                                heartbeatCounter := h.counter, lastHeartbeatMs := now)
  {
    AheadIsNewer(h.counter, s.heartbeatCounter);
    hide IsNewer;
  }

  /** A tick ends the ownership exactly when nothing was heard for six seconds, whether or
      not the owner is connected; the lease is then stale and in a new epoch. */
  lemma ExpiredExactly(env: Environment, s: System, now: uint64)
    ensures Step(env, s, Deadline(now)).session
         == if (s.session.owner != "" || s.session.link == Online)
               && Sub64(now, s.session.lastHeartbeatMs) >= 6000 then
              s.session.(
                owner := "", ownerType := NoClient, link := Stale, connection := 0,
                epoch := if s.session.epoch == 0xFFFF_FFFF then 1 else s.session.epoch + 1)
            else s.session
  {
  }

  /** A departure takes the binding of the connection that left, and never the ownership. */
  lemma DepartedExactly(env: Environment, s: System, connection: uint64)
    ensures Step(env, s, Departure(connection)).session
         == if connection != 0
               && connection in {s.session.connection, s.session.heartbeatConnection} then
              s.session.(
                link := Offline, connection := 0, heartbeatConnection := 0, heartbeatCounter := 0)
            else s.session
  {
  }

  // ------------------------------------------------------------ how long a lease lasts

  /** The steps that make the lease last: a grant, the owner's own request, a heartbeat. */
  ghost predicate Refreshes(env: Environment, s: System, e: Event) {
    match e
    case Authority(_, _, _) => GrantedBy(env, s, e) || ConfirmedBy(env, s, e)
    case Renewal(m, h, _) => Heard(s, m, h)
    case _ => false
  }

  function TimeOf(e: Event): uint64 {
    match e
    case Authority(_, _, c) => c.now
    case Renewal(_, _, now) => now
    case _ => 0
  }

  function SenderOf(e: Event): string {
    if e.Authority? || e.Renewal? then e.message.principal else ""
  }

  lemma RefreshStep(env: Environment, s: System, e: Event)
    requires Inv(s)
    ensures var l := Step(env, s, e).session;
            if Refreshes(env, s, e)
            then l.owner == SenderOf(e) != "" && l.lastHeartbeatMs == TimeOf(e)
            else l.lastHeartbeatMs == s.session.lastHeartbeatMs && l.owner in {"", s.session.owner}
  {
    hide Inv, GrantedBy, ConfirmedBy, ReleasedBy, Heard, ReachesDecision, Commissioned;
    match e
    case Authority(m, release, c) =>
      if release {
        ReleasedExactly(env, s, e);
        NotAGrant(env, s, e);
      } else {
        RequestDoesExactly(env, s, e);
        GrantNeedsSender(env, s, e);
      }
    case Renewal(m, h, now) =>
      RenewedExactly(env, s, m, h, now);
      HeardFromOwner(s, m, h);
    case Deadline(now) => ExpiredExactly(env, s, now);
    case Departure(connection) => DepartedExactly(env, s, connection);
    case _ =>
  }

  lemma HeardFromOwner(s: System, m: Message, h: Heartbeat)
    ensures Heard(s, m, h) ==> m.principal == s.session.owner != ""
  {
  }

  lemma NotAGrant(env: Environment, s: System, e: Event)
    requires e.Authority? && e.release
    ensures !GrantedBy(env, s, e) && !ConfirmedBy(env, s, e)
  {
  }

  lemma GrantNeedsSender(env: Environment, s: System, e: Event)
    requires e.Authority? && !e.release
    ensures GrantedBy(env, s, e) ==> e.message.principal != ""
    ensures ConfirmedBy(env, s, e) ==> e.message.principal == s.session.owner != ""
  {
    GrantExactly(env, s, e);
    RequestDoesExactly(env, s, e);
    hide GrantedBy, ConfirmedBy, Admit, ReachesDecision;
  }

  /** As long as the lease has an owner, it is the one that refreshed it last, and the next
      tick takes it exactly from six seconds after that on, in or out of connection. */
  lemma {:induction false} LeaseLastsExactly(
    env: Environment, name: string, states: seq<System>, evs: seq<Event>, i: nat, j: nat,
    now: uint64)
    requires Run(env, name, states, evs) && i < j <= |evs|
    requires Refreshes(env, states[i], evs[i])
    requires forall k :: i < k < j ==> !Refreshes(env, states[k], evs[k])
    requires states[j].session.owner != "" && TimeOf(evs[i]) <= now
    ensures states[j].session.owner == SenderOf(evs[i])
    ensures Step(env, states[j], Deadline(now)).session.owner
         == if now >= TimeOf(evs[i]) + 6000 then "" else SenderOf(evs[i])
  {
    RefreshedSince(env, name, states, evs, i, j);
    ReachableInv(env, name, states, evs, j);
    ExpiredExactly(env, states[j], now);
    hide Step, Inv, Refreshes;
  }

  lemma {:induction false} RefreshedSince(
    env: Environment, name: string, states: seq<System>, evs: seq<Event>, i: nat, j: nat)
    requires Run(env, name, states, evs) && i < j <= |evs|
    requires Refreshes(env, states[i], evs[i])
    requires forall k :: i < k < j ==> !Refreshes(env, states[k], evs[k])
    ensures states[j].session.lastHeartbeatMs == TimeOf(evs[i])
    ensures states[j].session.owner in {"", SenderOf(evs[i])}
    decreases j
  {
    hide Step, Inv, Refreshes;
    ReachableInv(env, name, states, evs, j - 1);
    RefreshStep(env, states[j - 1], evs[j - 1]);
    assert states[j] == Step(env, states[j - 1], evs[j - 1]);
    if i < j - 1 {
      RefreshedSince(env, name, states, evs, i, j - 1);
    }
  }

  /** And until then it has: nothing but its owner's release or a transfer ends it while
      every tick falls within six seconds of the last refresh. */
  lemma {:induction false} HeldUntilDeadline(
    env: Environment, name: string, states: seq<System>, evs: seq<Event>, i: nat, j: nat)
    requires Run(env, name, states, evs) && i < j <= |evs|
    requires Refreshes(env, states[i], evs[i])
    requires forall k :: i < k < j ==>
               && !Refreshes(env, states[k], evs[k]) && !ReleasedBy(env, states[k], evs[k])
               && (evs[k].Deadline? ==> TimeOf(evs[i]) <= evs[k].now < TimeOf(evs[i]) + 6000)
    ensures states[j].session.owner == SenderOf(evs[i]) != ""
    decreases j
  {
    hide Step, Inv, Refreshes, ReleasedBy, GrantedBy;
    RefreshedSince(env, name, states, evs, i, j);
    ReachableInv(env, name, states, evs, j - 1);
    RefreshStep(env, states[j - 1], evs[j - 1]);
    assert states[j] == Step(env, states[j - 1], evs[j - 1]);
    if i < j - 1 {
      HeldUntilDeadline(env, name, states, evs, i, j - 1);
      RefreshedSince(env, name, states, evs, i, j - 1);
      if states[j].session.owner != states[j - 1].session.owner {
        OwnerLostStep(env, states[j - 1], evs[j - 1]);
        GrantRefreshes(env, states[j - 1], evs[j - 1]);
      }
    }
  }

  lemma GrantRefreshes(env: Environment, s: System, e: Event)
    ensures GrantedBy(env, s, e) ==> Refreshes(env, s, e)
  {
  }
}
