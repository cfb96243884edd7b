/** What whole runs of the authority protocol guarantee about ownership: tenures
    and epochs, transfers, redelivered requests, and the connection binding. */
module Tenure {
  import opened Words
  import opened Contract
  import opened Runtime
  import opened LeaseRuns

  // ------------------------------------------------------------ epochs count tenures

  /** A grant, a release or an expiry: the steps that end one tenure and start
      another. */
  predicate ChangesTenure(env: Environment, s: System, e: Event) {
    match e
    case Authority(m, release, c) =>
      s.phase == Idle &&
      var stage := Admit(env, s.session, s.log, m, release, c).0.stage;
      stage == ReleaseAccepted || stage == RequestEvaluated(Granted)
    case Deadline(now) => Tick(s.session, now).0
    case _ => false
  }

  lemma AdmitTenure(
    env: Environment, s: Session, log: seq<Entry>, m: Message, release: bool, c: Context)
    ensures var (o, s', _) := Admit(env, s, log, m, release, c);
            var changes := o.stage == ReleaseAccepted || o.stage == RequestEvaluated(Granted);
            && s'.epoch == (if changes then NextEpoch(s.epoch) else s.epoch)
            && (s'.owner != s.owner ==> changes)
  {
    hide Compose, Replay, SamePayload, StoredEntry, Resident, Find;
  }

  /** The epoch advances, and the tenure is counted, in exactly the steps that
      change the tenure, and the owner changes in no other step: in particular
      no heartbeat and no disconnect ever moves the lease. */
  lemma TenureStep(env: Environment, s: System, e: Event)
    ensures var t, changes := Step(env, s, e), ChangesTenure(env, s, e);
            && t.session.epoch == (if changes then NextEpoch(s.session.epoch) else s.session.epoch)
            && t.tenures == (if changes then s.tenures + 1 else s.tenures)
            && (t.session.owner != s.session.owner ==> changes)
  {
    match e
    case Authority(m, release, c) =>
      if s.phase == Idle {
        AdmitTenure(env, s.session, s.log, m, release, c);
      }
    case _ =>
  }

  lemma {:induction false} TenuresOnlyGrow(
    env: Environment, name: string, states: seq<System>, evs: seq<Event>, i: nat, j: nat)
    requires Run(env, name, states, evs) && i <= j <= |evs|
    ensures states[i].tenures <= states[j].tenures
  {
    if i < j {
      TenuresOnlyGrow(env, name, states, evs, i, j - 1);
      TenureStep(env, states[j - 1], evs[j - 1]);
    }
  }

  lemma EpochAfterRepeats(m: nat, n: nat)
    requires 1 <= m <= n
    ensures EpochAfter(m) == EpochAfter(n) <==> (n - m) % EPOCH_PERIOD == 0
  {
    var a, b := m - 1, n - 1;
    assert b - a == (b / EPOCH_PERIOD - a / EPOCH_PERIOD) * EPOCH_PERIOD
                  + (b % EPOCH_PERIOD - a % EPOCH_PERIOD);
  }

  /** Two moments of one run show the same epoch exactly when no tenure change
      separates them, or a multiple of 2^32 - 1 of them does. */
  lemma EpochRecursExactly(
    env: Environment, name: string, states: seq<System>, evs: seq<Event>, i: nat, j: nat)
    requires Run(env, name, states, evs) && i <= j <= |evs|
    requires states[i].tenures > 0
    ensures states[i].session.epoch == states[j].session.epoch
       <==> (states[j].tenures - states[i].tenures) % EPOCH_PERIOD == 0
  {
    ReachableInv(env, name, states, evs, i);
    ReachableInv(env, name, states, evs, j);
    TenuresOnlyGrow(env, name, states, evs, i, j);
    EpochAfterRepeats(states[i].tenures, states[j].tenures);
  }

  /** Fewer than 2^32 - 1 changes later the epoch is another one. */
  lemma EpochMovesOn(
    env: Environment, name: string, states: seq<System>, evs: seq<Event>, i: nat, j: nat)
    requires Run(env, name, states, evs) && i <= j <= |evs|
    requires 0 < states[j].tenures - states[i].tenures < EPOCH_PERIOD
    ensures states[j].session.epoch != states[i].session.epoch
    ensures states[j].session.epoch != 0
  {
    ReachableInv(env, name, states, evs, i);
    ReachableInv(env, name, states, evs, j);
    if states[i].tenures > 0 {
      EpochAfterRepeats(states[i].tenures, states[j].tenures);
    }
  }

  /** A command that names the epoch of an ended tenure, or epoch 0, passes the
      gate at no moment within 2^32 - 1 further tenure changes, whoever sends it
      and on whatever connection, even if its sender owns the lease again. */
  lemma EndedTenureNeverCommands(
    env: Environment, name: string, states: seq<System>, evs: seq<Event>, i: nat, j: nat,
    principal: string, connection: uint64, command: Command)
    requires Run(env, name, states, evs) && i <= j <= |evs|
    requires command.epoch == 0 ||
      (command.epoch == states[i].session.epoch &&
       0 < states[j].tenures - states[i].tenures < EPOCH_PERIOD)
    ensures CommandGate(states[j].session, principal, connection, command) != AdmitOk
  {
    ReachableInv(env, name, states, evs, j);
    if command.epoch != 0 {
      EpochMovesOn(env, name, states, evs, i, j);
    }
  }

  // ------------------------------------------------------------ transfers and redelivery

  predicate DisplacesLiveOwner(env: Environment, s: System, e: Event) {
    e.Authority? && Live(s.session, e.context.now) &&
    var owner := Step(env, s, e).session.owner;
    owner != "" && owner != s.session.owner
  }

  /** None of the last sixteen stored results is about this session, request and kind. */
  predicate KeyIsFree(log: seq<Entry>, r: AuthorityRequest, release: bool) {
    forall k :: 0 <= k < |log| && |log| - 16 <= k ==>
      !(log[k].session == r.session && log[k].requestId == r.requestId
        && log[k].release == release)
  }

  /** The message is decided on: right envelope, right session, not cached. */
  predicate ReachesDecision(env: Environment, s: System, e: Event) {
    && e.Authority? && s.phase == Idle
    && !e.message.retain && e.message.qos == 1
    && var d := env.decode(e.message.payload, e.release);
       d.Accepted? && d.request.session == s.session.name && KeyIsFree(s.log, d.request, e.release)
  }

  predicate ReachesArbitration(env: Environment, s: System, e: Event) {
    ReachesDecision(env, s, e) && !e.release
  }

  lemma FreeKeyIsNotFound(log: seq<Entry>, r: AuthorityRequest, release: bool)
    ensures KeyIsFree(log, r, release)
       <==> Find(Resident(log), r.session, r.requestId, release) == None
  {
    FindNone(Resident(log), r.session, r.requestId, release);
    var base := |log| - |Resident(log)|;
    forall k | 0 <= k < |Resident(log)|
      ensures Resident(log)[k] == log[base + k]
    {
    }
    forall k | base <= k < |log|
      ensures log[k] == Resident(log)[k - base]
    {
    }
  }

  lemma DecidedKey(env: Environment, s: System, e: Event)
    requires e.Authority? && env.decode(e.message.payload, e.release).Accepted?
    ensures var r := env.decode(e.message.payload, e.release).request;
            KeyIsFree(s.log, r, e.release)
            <==> Find(Resident(s.log), r.session, r.requestId, e.release) == None
  {
    FreeKeyIsNotFound(s.log, env.decode(e.message.payload, e.release).request, e.release);
  }

  /** An unexpired lease moves to another principal exactly when ArgusCore takes
      it from an HMI or a service tool under ARGUSCORE_PREFERRED, with the
      machine not running and the current nonzero epoch named. */
  lemma TransferExactly(env: Environment, s: System, e: Event)
    requires e.Authority? && Live(s.session, e.context.now)
    ensures DisplacesLiveOwner(env, s, e)
       <==> ReachesArbitration(env, s, e) &&
            (&& e.message.client == ArgusCommand
             && IsLocal(s.session.ownerType)
             && e.context.profile == ARGUSCORE_PREFERRED
             && !e.context.running
             && e.message.connection != 0
             && e.message.principal != "" && e.message.principal != s.session.owner
             && env.decode(e.message.payload, false).request.epoch == s.session.epoch != 0)
  {
    hide KeyIsFree, Find, Resident, Compose, Replay, SamePayload, StoredEntry;
    if env.decode(e.message.payload, e.release).Accepted? {
      DecidedKey(env, s, e);
    }
  }

  /** No other kind of step displaces a live owner. */
  lemma OnlyRequestsTransfer(env: Environment, s: System, e: Event)
    requires !e.Authority?
    ensures Step(env, s, e).session.owner in {"", s.session.owner}
  {
  }

  ghost predicate GrantedBy(env: Environment, s: System, e: Event) {
    && e.Authority? && !e.release && s.phase == Idle
    && Admit(env, s.session, s.log, e.message, false, e.context).0.stage == RequestEvaluated(Granted)
  }

  /** Who may hold ordinary authority as the unit was commissioned: the local panels on
      a stand-alone unit; otherwise ArgusCore, and the panels once its window is over. */
  predicate Commissioned(client: ClientType, c: Context) {
    || (c.profile == STANDALONE_HMI && client in {Hmi, ServiceTool})
    || (c.profile == ARGUSCORE_PREFERRED && client == ArgusCommand)
    || (c.profile == ARGUSCORE_PREFERRED && client in {Hmi, ServiceTool} && !c.windowOpen)
  }

  /** A request is granted exactly when a commissioned, identified requester finds the
      lease free or expired, or takes it from a local holder of a resting machine by
      naming the current epoch; an epoch it does name has to be the current one. */
  lemma GrantExactly(env: Environment, s: System, e: Event)
    requires e.Authority?
    ensures GrantedBy(env, s, e) <==>
              && ReachesArbitration(env, s, e)
              && e.message.connection != 0 && e.message.principal != ""
              && Commissioned(e.message.client, e.context)
              && var epoch := env.decode(e.message.payload, false).request.epoch;
                 && (epoch == 0 || epoch == s.session.epoch)
                 && (Live(s.session, e.context.now) ==>
                       && e.message.principal != s.session.owner
                       && e.message.client == ArgusCommand && IsLocal(s.session.ownerType)
                       && !e.context.running && epoch != 0)
  {
    hide KeyIsFree, Find, Resident, Compose, Replay, SamePayload, StoredEntry;
    if env.decode(e.message.payload, e.release).Accepted? {
      DecidedKey(env, s, e);
    }
  }

  ghost predicate ReleasedBy(env: Environment, s: System, e: Event) {
    && e.Authority? && e.release && s.phase == Idle
    && Admit(env, s.session, s.log, e.message, true, e.context).0.stage == ReleaseAccepted
  }

  /** A release is accepted exactly when it is decided on, names the current epoch and
      comes from the recorded owner; the lease is then free, unbound and in a new epoch,
      and otherwise as it was. */
  lemma ReleasedExactly(env: Environment, s: System, e: Event)
    requires e.Authority? && e.release
    ensures ReleasedBy(env, s, e) <==>
              && ReachesDecision(env, s, e)
              && env.decode(e.message.payload, true).request.epoch == s.session.epoch
              && e.message.principal != "" && e.message.principal == s.session.owner
    ensures Step(env, s, e).session
         == if !ReleasedBy(env, s, e) then s.session
            else s.session.(
              owner := "", ownerType := NoClient, connection := 0, link := Offline,
              heartbeatConnection := 0, heartbeatCounter := 0,
              epoch := if s.session.epoch == 0xFFFF_FFFF then 1 else s.session.epoch + 1)
  {
    hide KeyIsFree, Find, Resident, Compose, Replay, SamePayload, StoredEntry;
    if env.decode(e.message.payload, e.release).Accepted? {
      DecidedKey(env, s, e);
    }
  }

  /** How a step can end the ownership of somebody. */
  ghost predicate Ends(env: Environment, s: System, e: Event) {
    || (ReleasedBy(env, s, e) && e.message.principal == s.session.owner)
    || (GrantedBy(env, s, e) && e.message.principal != s.session.owner)
    || (e.Deadline? && Sub64(e.now, s.session.lastHeartbeatMs) >= 6000)
  }

  lemma OwnerLostStep(env: Environment, s: System, e: Event)
    requires s.session.owner != "" && Step(env, s, e).session.owner != s.session.owner
    ensures Ends(env, s, e)
  {
    hide KeyIsFree, Find, Resident, Compose, Replay, SamePayload, StoredEntry;
  }

  /** In every run an owner stops being the owner only by its own release, by an expiry
      six seconds after the last heartbeat, or by a grant to another principal. */
  lemma {:induction false} OwnershipEndsOnlyBy(
    env: Environment, name: string, states: seq<System>, evs: seq<Event>, i: nat, j: nat)
    returns (k: nat)
    requires Run(env, name, states, evs) && i < j <= |evs|
    requires states[i].session.owner != "" && states[j].session.owner != states[i].session.owner
    ensures i <= k < j && states[k].session.owner == states[i].session.owner
    ensures Ends(env, states[k], evs[k])
    decreases j
  {
    hide Step, Ends;
    if states[j - 1].session.owner == states[i].session.owner {
      assert states[j] == Step(env, states[j - 1], evs[j - 1]);
      OwnerLostStep(env, states[j - 1], evs[j - 1]);
      k := j - 1;
    } else {
      k := OwnershipEndsOnlyBy(env, name, states, evs, i, j - 1);
    }
  }

  /** In every run whoever is the owner was granted the lease by a request of its own in
      the tenure that still lasts: heartbeats, reconnects and expiries confer nothing. */
  lemma {:induction false} OwnersWereGranted(
    env: Environment, name: string, states: seq<System>, evs: seq<Event>, j: nat)
    returns (i: nat)
    requires Run(env, name, states, evs) && j <= |evs| && states[j].session.owner != ""
    ensures i < j && GrantedBy(env, states[i], evs[i])
    ensures evs[i].message.principal == states[j].session.owner
    ensures states[i + 1].tenures == states[j].tenures
    decreases j
  {
    hide Step, GrantedBy;
    var s, e := states[j - 1], evs[j - 1];
    assert states[j] == Step(env, s, e);
    TenureStep(env, s, e);
    if states[j].session.owner == s.session.owner && states[j].tenures == s.tenures {
      i := OwnersWereGranted(env, name, states, evs, j - 1);
    } else {
      OwnerStep(env, s, e);
      i := j - 1;
    }
  }

  /** A step that leaves an owner in a new tenure is a grant to that owner. */
  lemma OwnerStep(env: Environment, s: System, e: Event)
    requires Step(env, s, e).session.owner != ""
    requires Step(env, s, e).tenures != s.tenures
    ensures GrantedBy(env, s, e) && Step(env, s, e).session.owner == e.message.principal
  {
    hide Compose, Replay, SamePayload, StoredEntry, Resident, Find;
    TenureStep(env, s, e);
  }

  lemma GrantNamedItsEpoch(
    env: Environment, s: Session, log: seq<Entry>, m: Message, c: Context)
    requires Admit(env, s, log, m, false, c).0.stage == RequestEvaluated(Granted)
    ensures env.decode(m.payload, false).Accepted?
    ensures env.decode(m.payload, false).request.epoch in {0, s.epoch}
  {
  }

  /** A request that was granted once never displaces a live owner when it is
      delivered again within one epoch period, cached or not. */
  lemma RedeliveryNeverDisplaces(
    env: Environment, name: string, states: seq<System>, evs: seq<Event>, i: nat, j: nat)
    requires Run(env, name, states, evs) && i < j < |evs|
    requires GrantedBy(env, states[i], evs[i])
    requires evs[j].Authority? && evs[j].message.payload == evs[i].message.payload
    requires states[j].tenures - states[i].tenures < EPOCH_PERIOD
    ensures !DisplacesLiveOwner(env, states[j], evs[j])
  {
    if DisplacesLiveOwner(env, states[j], evs[j]) {
      TransferExactly(env, states[j], evs[j]);
      GrantNamedItsEpoch(
        env, states[i].session, states[i].log, evs[i].message, evs[i].context);
      TenureStep(env, states[i], evs[i]);
      TenuresOnlyGrow(env, name, states, evs, i + 1, j);
      EpochMovesOn(env, name, states, evs, i, j);
    }
  }

  // ------------------------------------------------------------ duplicates

  lemma StepExtendsLog(env: Environment, s: System, e: Event)
    ensures var t := Step(env, s, e);
            && s.log <= t.log && |t.log| <= |s.log| + 1 && t.session.name == s.session.name
  {
    if e.Authority? && s.phase == Idle {
      AdmitFrame(env, s.session, s.log, e.message, e.release, e.context);
    }
  }

  lemma {:induction false} LogOnlyGrows(
    env: Environment, name: string, states: seq<System>, evs: seq<Event>, i: nat, j: nat)
    requires Run(env, name, states, evs) && i <= j <= |evs|
    ensures states[i].log <= states[j].log
    ensures states[i].session.name == states[j].session.name
  {
    if i < j {
      LogOnlyGrows(env, name, states, evs, i, j - 1);
      StepExtendsLog(env, states[j - 1], evs[j - 1]);
    }
  }

  /** The step evaluated a request and stored its result. */
  ghost predicate Stores(env: Environment, s: System, e: Event) {
    e.Authority? && s.phase == Idle &&
    |Admit(env, s.session, s.log, e.message, e.release, e.context).2| == |s.log| + 1
  }

  lemma StoredResult(
    env: Environment, s: Session, log: seq<Entry>, m: Message, release: bool, c: Context)
    requires |Admit(env, s, log, m, release, c).2| == |log| + 1
    ensures var (o, _, log') := Admit(env, s, log, m, release, c);
            var d := env.decode(m.payload, release);
            && d.Accepted? && d.request.session == s.name
            && HasKey(log'[|log|], d.request.session, d.request.requestId, release)
            && SamePayload(env, log'[|log|], m.payload)
            && o.document == Some(Replay(log'[|log|]))
  {
  }

  lemma ResidentReplays(
    env: Environment, s: Session, log: seq<Entry>, k: nat, m: Message, release: bool, c: Context)
    requires DistinctKeys(Resident(log)) && |log| - CACHE_SIZE <= k < |log|
    requires m.qos == 1 && !m.retain && SamePayload(env, log[k], m.payload)
    requires var d := env.decode(m.payload, release);
             && d.Accepted? && d.request.session == s.name
             && HasKey(log[k], d.request.session, d.request.requestId, release)
    ensures Admit(env, s, log, m, release, c)
         == (Outcome(DuplicateReplay, Some(Replay(log[k])), false, false), s, log)
  {
    var r := env.decode(m.payload, release).request;
    var base := |log| - |Resident(log)|;
    assert Resident(log)[k - base] == log[k];
    FindSome(Resident(log), k - base, r.session, r.requestId, release);
  }

  /** While at most CACHE_SIZE results have been stored from that one on, the
      very same payload delivered again changes nothing at all and is answered
      with the original result document. */
  lemma RedeliveryReplays(
    env: Environment, name: string, states: seq<System>, evs: seq<Event>, i: nat, j: nat)
    requires Run(env, name, states, evs) && i < j < |evs|
    requires Stores(env, states[i], evs[i])
    requires |states[j].log| <= |states[i].log| + CACHE_SIZE
    requires evs[j].Authority? && evs[j].release == evs[i].release
    requires evs[j].message.payload == evs[i].message.payload
    requires evs[j].message.qos == 1 && !evs[j].message.retain
    ensures var original := Admit(env, states[i].session, states[i].log,
                                  evs[i].message, evs[i].release, evs[i].context).0;
            && original.document.Some?
            && Admit(env, states[j].session, states[j].log,
                     evs[j].message, evs[j].release, evs[j].context)
               == (Outcome(DuplicateReplay, original.document, false, false),
                   states[j].session, states[j].log)
  {
    ReachableInv(env, name, states, evs, j);
    StoredResult(
      env, states[i].session, states[i].log, evs[i].message, evs[i].release, evs[i].context);
    LogOnlyGrows(env, name, states, evs, i, j);
    LogOnlyGrows(env, name, states, evs, i + 1, j);
    var k := |states[i].log|;
    assert states[j].log[k] == states[i + 1].log[k];
    ResidentReplays(
      env, states[j].session, states[j].log, k,
      evs[j].message, evs[j].release, evs[j].context);
  }

  /** A different payload under a resident key is refused without any change. */
  lemma ConflictChangesNothing(
    env: Environment, s: System, k: nat, m: Message, release: bool, c: Context)
    requires DigestIdentifies(env) && DistinctKeys(Resident(s.log))
    requires m.qos == 1 && !m.retain && env.decode(m.payload, release).Accepted?
    requires env.decode(m.payload, release).request.session == s.session.name
    requires k < |Resident(s.log)|
    requires var r := env.decode(m.payload, release).request;
             HasKey(Resident(s.log)[k], r.session, r.requestId, release)
    ensures var (o, s', log') := Admit(env, s.session, s.log, m, release, c);
            && s' == s.session && log' == s.log
            && forall original: string ::
                 SamePayload(env, Resident(s.log)[k], original) ==>
                   (o.stage == DuplicateReplay <==> original == m.payload)
  {
    var r := env.decode(m.payload, release).request;
    FindSome(Resident(s.log), k, r.session, r.requestId, release);
  }

  // ------------------------------------------------------------ the connection binding

  /** While a holder is online, the departure of any other connection leaves the
      whole system as it was. */
  lemma ForeignDepartureIsHarmless(
    env: Environment, name: string, states: seq<System>, evs: seq<Event>, k: nat,
    connection: uint64)
    requires Run(env, name, states, evs) && k <= |evs|
    requires states[k].session.link == Online
    requires connection != states[k].session.connection
    ensures Step(env, states[k], Departure(connection)) == states[k]
  {
    ReachableInv(env, name, states, evs, k);
  }

  /** Within one binding the accepted heartbeat counters strictly advance once
      their wraps are undone. */
  lemma HeartbeatCountersAdvance(
    env: Environment, name: string, states: seq<System>, evs: seq<Event>, k: nat, i: nat, j: nat)
    requires Run(env, name, states, evs) && k <= |evs|
    requires i < j < |states[k].counters|
    ensures Unwrapped(states[k].counters, i) < Unwrapped(states[k].counters, j)
  {
    ReachableInv(env, name, states, evs, k);
    UnwrappedIncreases(states[k].counters, i, j);
  }

  /** So a heartbeat of the same binding that is at most 2^31 behind the head is
      refused and changes nothing. */
  lemma ReplayedHeartbeatRefused(
    env: Environment, name: string, states: seq<System>, evs: seq<Event>, k: nat,
    replayed: nat, m: Message, h: Heartbeat, now: uint64)
    requires Run(env, name, states, evs) && k <= |evs|
    requires replayed < |states[k].counters| && h.counter == states[k].counters[replayed]
    requires m.connection == states[k].session.heartbeatConnection
    requires var counters := states[k].counters;
             Unwrapped(counters, |counters| - 1) - Unwrapped(counters, replayed) <= TWO_31
    ensures Step(env, states[k], Renewal(m, h, now)) == states[k]
  {
    ReachableInv(env, name, states, evs, k);
    RecentIsNeverNewer(states[k].counters, replayed);
  }
}
