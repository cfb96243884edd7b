/** What whole runs guarantee about operational commands: each is handed to the
    router at most once, the latest is answered again from its cached result,
    and exactly what the time between a command's check and its dispatch costs. */
module Commands {
  import opened Words
  import opened Contract
  import opened Runtime
  import opened LeaseRuns

  /** The sequence numbers handed to the router strictly increase once their
      wraps are undone, by less than 2^31 from one to the next. */
  lemma DispatchedSequencesAdvance(
    env: Environment, name: string, states: seq<System>, evs: seq<Event>, k: nat, i: nat)
    requires Run(env, name, states, evs) && k <= |evs|
    requires i + 1 < |states[k].dispatched|
    ensures var d := states[k].dispatched;
            Unwrapped(d, i) < Unwrapped(d, i + 1) < Unwrapped(d, i) + TWO_31
  {
    ReachableInv(env, name, states, evs, k);
    UnwrappedStep(states[k].dispatched, i + 1);
  }

  /** A command whose sequence number was dispatched before, at most 2^31 behind
      the head, is not started again at any moment of any run. */
  lemma NeverDispatchedAgain(
    env: Environment, name: string, states: seq<System>, evs: seq<Event>, k: nat,
    earlier: nat, m: Message, command: Command)
    requires Run(env, name, states, evs) && k <= |evs|
    requires earlier < |states[k].dispatched|
    requires command.sequence == states[k].dispatched[earlier]
    requires var d := states[k].dispatched;
             Unwrapped(d, |d| - 1) - Unwrapped(d, earlier) <= TWO_31
    ensures Step(env, states[k], Check(m, command)) == states[k]
  {
    hide Admit, Tick, Disconnect, Advancing, Unwrapped, EpochAfter, Resident, DistinctKeys;
    ReachableInv(env, name, states, evs, k);
    RecentIsNeverNewer(states[k].dispatched, earlier);
  }

  /** The dispatch history of a run only grows, and keeps its unwrapped values. */
  lemma {:induction false} DispatchHistoryStands(
    env: Environment, name: string, states: seq<System>, evs: seq<Event>, i: nat, j: nat, x: nat)
    requires Run(env, name, states, evs) && i <= j <= |evs| && x < |states[i].dispatched|
    ensures states[i].dispatched <= states[j].dispatched
    ensures Unwrapped(states[j].dispatched, x) == Unwrapped(states[i].dispatched, x)
    decreases j
  {
    if i < j {
      DispatchHistoryStands(env, name, states, evs, i, j - 1, x);
      var s, e := states[j - 1], evs[j - 1];
      DispatchAppends(env, s, e);
      if e == Dispatch && s.phase.Checked? {
        UnwrappedAppend(s.dispatched, s.phase.command.sequence, x);
      }
    }
  }

  lemma DispatchAppends(env: Environment, s: System, e: Event)
    ensures Step(env, s, e).dispatched
         == if e == Dispatch && s.phase.Checked? then s.dispatched + [s.phase.command.sequence]
            else s.dispatched
  {
    hide Admit, Tick, Disconnect, HolderHeartbeat, Startable, CommitResult;
  }

  /** A sequence number is dispatched a second time only after the numbers have gone
      round completely. */
  lemma SequenceReusedOnlyAfterFullCircle(
    env: Environment, name: string, states: seq<System>, evs: seq<Event>, k: nat, x: nat, y: nat)
    requires Run(env, name, states, evs) && k <= |evs| && x < y < |states[k].dispatched|
    requires states[k].dispatched[x] == states[k].dispatched[y]
    ensures Unwrapped(states[k].dispatched, y) - Unwrapped(states[k].dispatched, x) >= TWO_32
  {
    var d := states[k].dispatched;
    ReachableInv(env, name, states, evs, k);
    UnwrappedIncreases(d, x, y);
    UnwrappedIsCongruent(d, x);
    UnwrappedIsCongruent(d, y);
    hide Unwrapped, Advancing;
    CongruentApart(Unwrapped(d, x), Unwrapped(d, y));
  }

  lemma OnlyCommitMovesGuard(env: Environment, s: System, e: Event)
    requires !e.Commit?
    ensures Step(env, s, e).session.guard == s.session.guard
  {
    if e.Authority? && s.phase == Idle {
      AdmitFrame(env, s.session, s.log, e.message, e.release, e.context);
    }
  }

  lemma {:induction false} GuardStands(
    env: Environment, name: string, states: seq<System>, evs: seq<Event>, i: nat, j: nat)
    requires Run(env, name, states, evs) && i <= j <= |evs|
    requires forall x :: i <= x < j ==> !evs[x].Commit?
    ensures states[j].session.guard == states[i].session.guard
  {
    if i < j {
      GuardStands(env, name, states, evs, i, j - 1);
      OnlyCommitMovesGuard(env, states[j - 1], evs[j - 1]);
    }
  }

  /** From the commit of a command's result until the next commit, through any
      grants, expiries and disconnects: an identical copy is answered with the
      committed result exactly when the gate admits its sender at that moment, and
      with the gate's own refusal otherwise; another command under the same sequence
      number is a conflict; and neither starts anything. */
  lemma LatestIsAnsweredFromCache(
    env: Environment, name: string, states: seq<System>, evs: seq<Event>, i: nat, j: nat,
    m: Message, policyAdmitted: bool, copy: Command)
    requires Run(env, name, states, evs) && i < j <= |evs|
    requires states[i].phase.Dispatched? && evs[i].Commit?
    requires forall x :: i < x < j ==> !evs[x].Commit?
    requires copy.sequence == states[i].phase.command.sequence
    ensures var original := states[i].phase;
            var same := copy.action == original.command.action &&
                        copy.id == original.command.id && m.payload == original.payload;
            var gate := CommandGate(states[j].session, m.principal, m.connection, copy);
            var answer := AnswerTo(states[j].session, m, policyAdmitted, copy);
            && (answer == Cached(evs[i].result)
                <==> policyAdmitted && m.qos == 1 && gate == AdmitOk && same)
            && (policyAdmitted && m.qos == 1 && gate == AdmitOk && !same ==>
                  answer == Refuse("sequence_conflict"))
            && (policyAdmitted && m.qos == 1 && gate != AdmitOk ==>
                  answer == Refuse(GateReason(gate)))
            && answer != Proceed
            && Step(env, states[j], Check(m, copy)) == states[j]
  {
    GuardStands(env, name, states, evs, i + 1, j);
  }

  // ------------------------------------------------------------ what a command is answered with

  /** The sender is the owner, on the connection the lease is bound to. */
  predicate SentByHolder(s: Session, m: Message) {
    s.link == Online && s.owner != "" && s.owner == m.principal && s.connection == m.connection
  }

  /** How far a sequence number is ahead of the last committed one, round the circle. */
  ghost function Ahead(s: System, sequence: uint32): nat
    requires Committed(s) != []
  {
    (sequence - Committed(s)[|Committed(s)| - 1]) % TWO_32
  }

  /** The command comes over an admitted topic, for this session, from the holder of the
      current epoch. */
  predicate InOrder(s: Session, m: Message, policyAdmitted: bool, command: Command) {
    && policyAdmitted && m.qos == 1 && command.session == s.name
    && SentByHolder(s, m) && command.epoch == s.epoch
  }

  /** In every run a command is started exactly when it is in order and is the first one or
      less than half the circle ahead of the last committed one; and each refusal is given
      exactly for its reason, in this order. */
  lemma StartsExactly(
    env: Environment, name: string, states: seq<System>, evs: seq<Event>, k: nat,
    m: Message, policyAdmitted: bool, command: Command)
    requires Run(env, name, states, evs) && k <= |evs|
    ensures var s, l := states[k], states[k].session;
            var answer := AnswerTo(l, m, policyAdmitted, command);
            var inOrder := InOrder(l, m, policyAdmitted, command);
            && (answer == Proceed <==>
                  inOrder && (Committed(s) == [] || 1 <= Ahead(s, command.sequence) <= TWO_31 - 1))
            && (answer == Refuse("retained_forbidden") <==> !policyAdmitted && m.retain)
            && (answer == Refuse("topic_forbidden") <==> !policyAdmitted && !m.retain)
            && (answer == Refuse("qos_1_required") <==> policyAdmitted && m.qos != 1)
            && (answer == Refuse("session_mismatch") <==>
                  policyAdmitted && m.qos == 1 && command.session != l.name)
            && (answer == Refuse("not_authority_holder") <==>
                  policyAdmitted && m.qos == 1 && command.session == l.name && !SentByHolder(l, m))
            && (answer == Refuse("stale_epoch") <==>
                  policyAdmitted && m.qos == 1 && command.session == l.name && SentByHolder(l, m)
                  && command.epoch != l.epoch)
            && (answer == Refuse("stale_sequence") <==>
                  inOrder && Committed(s) != [] && Ahead(s, command.sequence) >= TWO_31)
            && (answer.Cached? || answer == Refuse("sequence_conflict") <==>
                  inOrder && Committed(s) != [] && Ahead(s, command.sequence) == 0)
  {
    ReachableInv(env, name, states, evs, k);
    hide TenureInv, BindingInv, HeartbeatInv, DistinctKeys, Resident, Advancing, Run;
    if Committed(states[k]) != [] {
      AheadOf(command.sequence, Committed(states[k])[|Committed(states[k])| - 1]);
    }
    hide IsNewer;
  }

  lemma AheadOf(a: uint32, b: uint32)
    ensures IsNewer(a, b) <==> 1 <= (a - b) % TWO_32 <= TWO_31 - 1
    ensures a == b <==> (a - b) % TWO_32 == 0
  {
  }

  /** So between commands, checking and dispatching hands the router exactly the commands
      that may start; the first one of a session is one of them. */
  lemma DispatchedExactly(
    env: Environment, name: string, states: seq<System>, evs: seq<Event>, k: nat,
    m: Message, command: Command)
    requires Run(env, name, states, evs) && k <= |evs| && states[k].phase == Idle
    ensures var s := states[k];
            var starts := InOrder(s.session, m, true, command) &&
              (s.dispatched == [] || 1 <= Ahead(s, command.sequence) <= TWO_31 - 1);
            After(env, s, [Check(m, command), Dispatch])
            == if starts then s.(phase := Dispatched(command, m.payload),
                                 dispatched := s.dispatched + [command.sequence])
               else s
  {
    StartsExactly(env, name, states, evs, k, m, true, command);
    var s := states[k];
    var checked := Step(env, s, Check(m, command));
    assert [Check(m, command), Dispatch][1..] == [Dispatch];
    assert After(env, checked, [Dispatch]) == After(env, Step(env, checked, Dispatch), []);
    hide AnswerTo, InOrder, Ahead, Run;
  }

  /** A command that was checked and then given up is not dispatched any more, and the next
      one can be checked. */
  lemma AbortedIsForgotten(env: Environment, s: System)
    requires s.phase.Checked?
    ensures After(env, s, [Abort, Dispatch]) == s.(phase := Idle)
  {
    assert [Abort, Dispatch][1..] == [Dispatch];
    var t := Step(env, s, Abort);
    assert After(env, t, [Dispatch]) == After(env, Step(env, t, Dispatch), []);
  }

  // ------------------------------------------------------------ check and dispatch are two steps

  predicate Interrupts(s: Session, e: Event) {
    match e
    case Deadline(now) => Expired(s, now)
    case Departure(connection) => connection == s.connection
    case _ => true
  }

  /** The lease as a checked command found it, with interruptions applied. */
  ghost function After(env: Environment, s: System, evs: seq<Event>): System
    decreases |evs|
  {
    if evs == [] then s else After(env, Step(env, s, evs[0]), evs[1..])
  }

  lemma {:induction false} OnceClosedStaysClosed(
    env: Environment, s: System, evs: seq<Event>)
    requires s.session.link != Online
    requires forall e :: e in evs ==> e.Deadline? || e.Departure?
    ensures After(env, s, evs).session.link != Online
    decreases |evs|
  {
    if evs != [] {
      assert evs[0] in evs;
      OnceClosedStaysClosed(env, Step(env, s, evs[0]), evs[1..]);
    }
  }

  /** Between a command's check and its dispatch only ticks and departures can
      fall. The gate would still admit the command at dispatch exactly when none
      of them expired the lease or took its connection. */
  lemma {:induction false} GateStillOpenExactly(
    env: Environment, s: System, evs: seq<Event>,
    principal: string, connection: uint64, command: Command)
    requires Inv(s) && CommandGate(s.session, principal, connection, command) == AdmitOk
    requires forall e :: e in evs ==> e.Deadline? || e.Departure?
    ensures CommandGate(After(env, s, evs).session, principal, connection, command) == AdmitOk
       <==> forall e :: e in evs ==> !Interrupts(s.session, e)
    decreases |evs|
  {
    if evs != [] {
      var t := Step(env, s, evs[0]);
      assert evs == [evs[0]] + evs[1..] && evs[0] in evs;
      if Interrupts(s.session, evs[0]) {
        OnceClosedStaysClosed(env, t, evs[1..]);
      } else {
        assert t == s;
        GateStillOpenExactly(env, s, evs[1..], principal, connection, command);
      }
    }
  }

  /** So "only the owner's commands reach the router" is true at the check and
      false at the dispatch: from every state in which a command passes its
      check, an expiry in between lets it reach the router without an owner. */
  lemma CommandOutlivesLease(env: Environment, s: System, m: Message, command: Command, now: uint64)
    requires Inv(s) && s.phase == Idle && Startable(s.session, m, command)
    requires Expired(s.session, now)
    ensures var t := After(env, s, [Check(m, command), Deadline(now), Dispatch]);
            t.dispatched == s.dispatched + [command.sequence] && t.session.owner == ""
  {
    var checked := s.(phase := Checked(command, m.payload));
    assert Step(env, s, Check(m, command)) == checked;
    var expired := Step(env, checked, Deadline(now));
    assert expired.phase == checked.phase && expired.session.owner == "";
    assert [Check(m, command), Deadline(now), Dispatch][1..] == [Deadline(now), Dispatch];
    assert [Deadline(now), Dispatch][1..] == [Dispatch];
    assert After(env, expired, [Dispatch]) == Step(env, expired, Dispatch);
  }
}
