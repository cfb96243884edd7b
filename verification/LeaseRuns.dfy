/** Whole runs of the authority protocol. Each mutex region of the runtime is
    one step. One task handles requests, heartbeats and commands in turn; the
    deadline tick and the departure of a connection come from other tasks and
    may fall anywhere, also between a command's check and its commit. */
module LeaseRuns {
  import opened Words
  import opened Contract
  import opened Runtime

  datatype Phase =
    | Idle
    | Checked(command: Command, payload: string)
    | Dispatched(command: Command, payload: string)

  /** The last three are histories: the sequence numbers handed to the command
      router, the heartbeat counters accepted in the current connection binding,
      and how often the epoch moved. */
  datatype System = System(
    session: Session, log: seq<Entry>, phase: Phase,
    dispatched: seq<uint32>, counters: seq<uint32>, tenures: nat)

  datatype Event =
    | Authority(message: Message, release: bool, context: Context)
    | Renewal(message: Message, heartbeat: Heartbeat, now: uint64)
    | Deadline(now: uint64)
    | Departure(connection: uint64)
    | Check(message: Message, command: Command)
    | Abort
    | Dispatch
    | Commit(result: string)

  function Begin(name: string): System {
    System(Initial(name), [], Idle, [], [], 0)
  }

  /** Commands on other topics than the contract's are not part of a run. */
  predicate Startable(s: Session, m: Message, command: Command) {
    AnswerTo(s, m, true, command) == Proceed
  }

  /** The heartbeat history after the binding may have been reset. */
  function Surviving(s: Session, counters: seq<uint32>): seq<uint32> {
    if s.heartbeatCounter == 0 then [] else counters
  }

  function WithLease(s: System, s': Session, log': seq<Entry>): System {
    s.(session := s', log := log', counters := Surviving(s', s.counters),
       tenures := s.tenures + if s'.epoch != s.session.epoch then 1 else 0)
  }

  function Renew(s: System, m: Message, h: Heartbeat, now: uint64): System {
    if s.phase != Idle || h.counter == 0 then s
    else
      var (accepted, s') := HolderHeartbeat(s.session, m, h, now);
      if !accepted then s
      else
        var continued :=
          s.session.heartbeatConnection == m.connection && s.session.heartbeatCounter != 0;
        s.(session := s', counters := (if continued then s.counters else []) + [h.counter])
  }

  function Step(env: Environment, s: System, e: Event): System {
    match e
    case Authority(m, release, c) =>
      if s.phase != Idle then s
      else
        var (_, s', log') := Admit(env, s.session, s.log, m, release, c);
        WithLease(s, s', log')
    case Renewal(m, h, now) => Renew(s, m, h, now)
    case Deadline(now) => WithLease(s, Tick(s.session, now).1, s.log)
    case Departure(connection) =>
      WithLease(s, Disconnect(s.session, connection).1, s.log)
    case Check(m, command) =>
      if s.phase == Idle && Startable(s.session, m, command)
      then s.(phase := Checked(command, m.payload)) else s
    case Abort => if s.phase.Checked? then s.(phase := Idle) else s
    case Dispatch =>
      if s.phase.Checked?
      then s.(phase := Dispatched(s.phase.command, s.phase.payload),
              dispatched := s.dispatched + [s.phase.command.sequence])
      else s
    case Commit(result) =>
      if s.phase.Dispatched?
      then s.(phase := Idle,
              session := CommitResult(s.session, s.phase.command, s.phase.payload, result))
      else s
  }

  /** `states` is what the system goes through under the events `evs`. */
  ghost predicate Run(env: Environment, name: string, states: seq<System>, evs: seq<Event>) {
    && |states| == |evs| + 1
    && states[0] == Begin(name)
    && forall k {:trigger evs[k]} :: 0 <= k < |evs| ==>
         states[k + 1] == Step(env, states[k], evs[k])
  }

  // ------------------------------------------------------------ what every step keeps

  ghost predicate BindingInv(s: Session) {
    && (s.link == Online <==> s.connection != 0)
    && (s.link == Online ==> s.owner != "")
    && (s.connection != 0 ==> s.heartbeatConnection == s.connection)
  }

  ghost predicate HeartbeatInv(s: System) {
    && Advancing(s.counters)
    && (s.counters == [] <==> s.session.heartbeatCounter == 0)
    && (s.counters != [] ==> s.counters[|s.counters| - 1] == s.session.heartbeatCounter)
  }

  /** The dispatched commands whose result has been committed. */
  ghost function Committed(s: System): seq<uint32> {
    if s.phase.Dispatched? && s.dispatched != [] then s.dispatched[..|s.dispatched| - 1]
    else s.dispatched
  }

  ghost predicate DispatchInv(s: System) {
    var guard, done := s.session.guard, Committed(s);
    && Advancing(s.dispatched)
    && (guard.hasSequence <==> done != [])
    && (done != [] ==> guard.lastSequence == done[|done| - 1])
    && (s.phase.Checked? && done != [] ==>
          IsNewer(s.phase.command.sequence, guard.lastSequence))
    && (s.phase.Dispatched? ==>
          s.dispatched != [] &&
          s.phase.command.sequence == s.dispatched[|s.dispatched| - 1])
  }

  const EPOCH_PERIOD: int := 0xFFFF_FFFF

  /** The epoch after the ownership has changed n times. */
  function EpochAfter(n: nat): uint32 {
    if n == 0 then 0 else 1 + (n - 1) % EPOCH_PERIOD
  }

  lemma EpochAfterNext(n: nat)
    ensures EpochAfter(n + 1) == NextEpoch(EpochAfter(n)) != EpochAfter(n)
  {
  }

  ghost predicate TenureInv(s: System) {
    && s.session.epoch == EpochAfter(s.tenures)
    && (s.tenures == 0 ==> s.session.owner == "")
  }

  ghost predicate Inv(s: System) {
    && TenureInv(s)
    && BindingInv(s.session)
    && HeartbeatInv(s)
    && DispatchInv(s)
    && DistinctKeys(Resident(s.log))
  }

  lemma EvaluateKeepsBinding(s: Session, m: Message, r: AuthorityRequest, release: bool, c: Context)
    requires BindingInv(s)
    ensures var s' := Evaluate(s, m, r, release, c).1;
            && BindingInv(s') && s'.guard == s.guard
            && s'.heartbeatCounter in {0, s.heartbeatCounter}
            && s'.epoch in {s.epoch, NextEpoch(s.epoch)}
            && (s'.owner != s.owner ==> s'.epoch == NextEpoch(s.epoch))
  {
  }

  lemma AdmitKeepsKeys(
    env: Environment, s: Session, log: seq<Entry>, m: Message, release: bool, c: Context)
    requires DistinctKeys(Resident(log))
    ensures DistinctKeys(Resident(Admit(env, s, log, m, release, c).2))
  {
    var log' := Admit(env, s, log, m, release, c).2;
    if log' != log {
      var e := log'[|log|];
      assert log' == log + [e];
      AppendKeepsKeysDistinct(log, e);
    }
  }

  lemma AdmitKeepsBinding(
    env: Environment, s: Session, log: seq<Entry>, m: Message, release: bool, c: Context)
    requires BindingInv(s)
    ensures var s' := Admit(env, s, log, m, release, c).1;
            && BindingInv(s') && s'.guard == s.guard
            && s'.heartbeatCounter in {0, s.heartbeatCounter}
            && s'.epoch in {s.epoch, NextEpoch(s.epoch)}
            && (s'.owner != s.owner ==> s'.epoch == NextEpoch(s.epoch))
  {
    var d := env.decode(m.payload, release);
    if d.Accepted? {
      EvaluateKeepsBinding(s, m, d.request, release, c);
    }
  }

  lemma LeaseChangeKeepsInv(s: System, s': Session, log': seq<Entry>)
    requires Inv(s)
    requires BindingInv(s') && s'.guard == s.session.guard
    requires s'.heartbeatCounter in {0, s.session.heartbeatCounter}
    requires s'.epoch in {s.session.epoch, NextEpoch(s.session.epoch)}
    requires s'.owner != s.session.owner ==> s'.epoch == NextEpoch(s.session.epoch)
    requires DistinctKeys(Resident(log'))
    ensures Inv(WithLease(s, s', log'))
  {
    var t := WithLease(s, s', log');
    assert Committed(t) == Committed(s);
    EpochAfterNext(s.tenures);
  }

  lemma AuthorityKeepsInv(env: Environment, s: System, m: Message, release: bool, c: Context)
    requires Inv(s) && s.phase == Idle
    ensures var (_, s', log') := Admit(env, s.session, s.log, m, release, c);
            Inv(WithLease(s, s', log'))
  {
    AdmitKeepsKeys(env, s.session, s.log, m, release, c);
    AdmitKeepsBinding(env, s.session, s.log, m, release, c);
    var (_, s', log') := Admit(env, s.session, s.log, m, release, c);
    LeaseChangeKeepsInv(s, s', log');
  }

  lemma RenewKeepsInv(s: System, m: Message, h: Heartbeat, now: uint64)
    requires Inv(s)
    ensures Inv(Renew(s, m, h, now))
  {
    var t := Renew(s, m, h, now);
    if t != s {
      assert Committed(t) == Committed(s);
      assert Advancing(t.counters);
    }
  }

  lemma CheckKeepsInv(s: System, m: Message, command: Command)
    requires Inv(s) && s.phase == Idle && Startable(s.session, m, command)
    ensures Inv(s.(phase := Checked(command, m.payload)))
  {
    hide EpochAfter, DistinctKeys, Resident, BindingInv, Advancing;
  }

  lemma AbortKeepsInv(s: System)
    requires Inv(s) && s.phase.Checked?
    ensures Inv(s.(phase := Idle))
  {
    hide EpochAfter, DistinctKeys, Resident, BindingInv, Advancing;
  }

  lemma AdvancingGrows(serials: seq<uint32>, next: uint32)
    requires Advancing(serials)
    requires serials != [] ==> IsNewer(next, serials[|serials| - 1])
    ensures Advancing(serials + [next])
  {
  }

  lemma DispatchKeepsInv(s: System)
    requires Inv(s) && s.phase.Checked?
    ensures Inv(s.(phase := Dispatched(s.phase.command, s.phase.payload),
                   dispatched := s.dispatched + [s.phase.command.sequence]))
  {
    hide EpochAfter, DistinctKeys, Resident, BindingInv, Advancing, IsNewer;
    var dispatched := s.dispatched + [s.phase.command.sequence];
    AdvancingGrows(s.dispatched, s.phase.command.sequence);
    assert dispatched[..|dispatched| - 1] == s.dispatched;
  }

  lemma CommitKeepsInv(s: System, result: string)
    requires Inv(s) && s.phase.Dispatched?
    ensures Inv(s.(phase := Idle,
                   session := CommitResult(s.session, s.phase.command, s.phase.payload, result)))
  {
    hide EpochAfter, DistinctKeys, Resident, Advancing;
  }

  lemma DeadlineKeepsInv(s: System, now: uint64)
    requires Inv(s)
    ensures Inv(WithLease(s, Tick(s.session, now).1, s.log))
  {
    LeaseChangeKeepsInv(s, Tick(s.session, now).1, s.log);
  }

  lemma DepartureKeepsInv(s: System, connection: uint64)
    requires Inv(s)
    ensures Inv(WithLease(s, Disconnect(s.session, connection).1, s.log))
  {
    LeaseChangeKeepsInv(s, Disconnect(s.session, connection).1, s.log);
  }

  lemma StepKeepsInv(env: Environment, s: System, e: Event)
    requires Inv(s)
    ensures Inv(Step(env, s, e))
  {
    hide Inv, Admit, Tick, Disconnect, HolderHeartbeat, Startable;
    match e
    case Authority(m, release, c) =>
      if s.phase == Idle {
        AuthorityKeepsInv(env, s, m, release, c);
      }
    case Renewal(m, h, now) => RenewKeepsInv(s, m, h, now);
    case Deadline(now) => DeadlineKeepsInv(s, now);
    case Departure(connection) => DepartureKeepsInv(s, connection);
    case Check(m, command) =>
      if s.phase == Idle && Startable(s.session, m, command) {
        CheckKeepsInv(s, m, command);
      }
    case Abort =>
      if s.phase.Checked? {
        AbortKeepsInv(s);
      }
    case Dispatch =>
      if s.phase.Checked? {
        DispatchKeepsInv(s);
      }
    case Commit(result) =>
      if s.phase.Dispatched? {
        CommitKeepsInv(s, result);
      }
  }

  /** In every reachable state the link is ONLINE exactly when the lease is
      bound to a connection, ONLINE has a recorded owner, a bound lease is
      bound to the heartbeat's connection; dispatched sequences and accepted
      heartbeat counters advance; and after n >= 1 ownership changes the epoch
      is 1 + (n - 1) mod (2^32 - 1). */
  lemma {:induction false} ReachableInv(
    env: Environment, name: string, states: seq<System>, evs: seq<Event>, k: nat)
    requires Run(env, name, states, evs) && k <= |evs|
    ensures Inv(states[k])
  {
    if k > 0 {
      hide Inv, Step;
      ReachableInv(env, name, states, evs, k - 1);
      StepKeepsInv(env, states[k - 1], evs[k - 1]);
    }
  }
}
