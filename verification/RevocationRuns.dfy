/** Edits and revocations end to end: the broker's records and the machine directory in one
    run. Between the two locked regions of a CONNECT the task authenticates against the
    directory as it is at that moment. */
module RevocationRuns {
  import opened Words
  import opened Directory
  import opened MachineService
  import opened Journal
  import B = BrokerRuns
  import C = Broker
  import M = MachineRuns

  /** `logins` is the principal each task has authenticated as in its CONNECT, and then the
      one its connection was bound with. */
  datatype System = System(broker: B.System, dir: M.System, logins: seq<Option<Principal>>)

  /** `matched` is whether the secret matched, `via` the interface. */
  datatype Event =
    | Manage(m: M.Event)
    | Authenticate(slot: nat, id: string, matched: bool, via: set<nat>)
    | Bind(slot: nat, clientId: string)
    | Serve(b: B.Event)

  predicate Sized(s: System) {
    B.Sized(s.broker) && WellFormed(s.dir.p) && |s.logins| == C.MAX_CONNECTIONS
  }

  /** A login belongs to the CONNECT it was made in, and to the session this starts. */
  function Kept(s: System, t: B.System): seq<Option<Principal>>
    requires Sized(s) && B.Sized(t)
  {
    seq(C.MAX_CONNECTIONS, i requires 0 <= i < C.MAX_CONNECTIONS =>
      if t.tasks[i] == s.broker.tasks[i]
         || (s.broker.tasks[i].Authenticating? && t.tasks[i].Serving?)
      then s.logins[i] else None)
  }

  ghost function Step(env: Environment, s: System, e: Event): System
    requires Sized(s)
  {
    match e
    case Manage(m) => s.(dir := M.Step(env, s.dir, m))
    case Authenticate(slot, id, matched, via) =>
      if !B.HasTask(s.broker, slot) || !s.broker.tasks[slot].Authenticating? then s
      else
        s.(logins := s.logins[slot :=
          MachineService.Authenticate(s.dir.p, s.dir.g, id, matched, via)])
    case Bind(slot, clientId) =>
      if !B.HasTask(s.broker, slot) then s else Moved(s, BindEvent(s, slot, clientId))
    case Serve(b) => if b.Authenticated? then s else Moved(s, b)
  }

  /** The second region of CONNECT is entered with the principal of the login, if any. */
  function BindEvent(s: System, slot: nat, clientId: string): B.Event
    requires Sized(s) && slot < C.MAX_CONNECTIONS
  {
    if s.logins[slot].Some?
    then B.Authenticated(slot, s.logins[slot].value.identifier, clientId)
    else B.AuthenticationFailed(slot)
  }

  ghost function Moved(s: System, e: B.Event): System
    requires Sized(s)
  {
    StepStaysSized(s.broker, e);
    var t := B.Step(s.broker, e);
    s.(broker := t, logins := Kept(s, t))
  }

  lemma StepStaysSized(s: B.System, e: B.Event)
    requires B.Sized(s)
    ensures B.Sized(B.Step(s, e))
  {
  }

  /** Directory generations are taken not to wrap. */
  ghost predicate Run(env: Environment, states: seq<System>, evs: seq<Event>) {
    && |states| == |evs| + 1
    && states[0].broker == B.Initial() && states[0].dir.inFlight == {}
    && M.Consistent(env, states[0].dir)
    && (forall k {:trigger evs[k]} :: 0 <= k < |evs| ==>
          Sized(states[k]) && states[k + 1] == Step(env, states[k], evs[k]))
    && (forall k :: 0 <= k < |states| ==> Sized(states[k]) && states[k].dir.g < TWO_32 - 1)
  }

  // ------------------------------------------------------------ what every step keeps

  ghost predicate Inv(env: Environment, s: System) {
    && Sized(s) && B.Inv(s.broker) && M.Inv(env, s.dir)
    && forall i :: 0 <= i < C.MAX_CONNECTIONS && s.broker.tasks[i].Authenticating? ==>
         s.broker.tasks[i].captured <= |s.broker.b.history|
  }

  /** What the following needs of the broker's invariants. */
  predicate TasksFit(s: B.System) {
    && B.Sized(s) && B.TaskInv(s.b.clients, s.tasks, s.server)
    && (s.server.Starting? ==>
          s.server.slot < C.MAX_CONNECTIONS && C.IsPending(s.b.clients[s.server.slot]))
  }

  /** A step of the broker: captures are not from the future, and the history grows. */
  lemma CapturesStep(s: B.System, e: B.Event, i: nat)
    requires B.Sized(s) && i < C.MAX_CONNECTIONS
    ensures B.Sized(B.Step(s, e))
    ensures var t := B.Step(s, e);
            && s.b.history <= t.b.history
            && (t.tasks[i].Authenticating? ==>
                  t.tasks[i] == s.tasks[i] || t.tasks[i].captured == |t.b.history|)
  {
  }

  /** Only a bind makes a record usable or changes the task of one. */
  lemma UsableStep(s: B.System, e: B.Event, i: nat)
    requires TasksFit(s) && i < C.MAX_CONNECTIONS && !e.Authenticated?
    ensures B.Sized(B.Step(s, e))
    ensures var t := B.Step(s, e);
            B.Usable(t.b.clients[i]) ==>
              && B.Usable(s.b.clients[i]) && t.tasks[i] == s.tasks[i]
              && t.b.clients[i].identifier == s.b.clients[i].identifier
  {
  }

  /** What a successful bind has asked the journal. */
  lemma BindStep(s: B.System, slot: nat, identifier: string, clientId: string, i: nat)
    requires TasksFit(s) && i < C.MAX_CONNECTIONS
    requires B.HasTask(s, slot)
    ensures var t := B.Step(s, B.Authenticated(slot, identifier, clientId));
            && B.Sized(t) && t.b.history == s.b.history
            && (B.Usable(t.b.clients[i]) ==>
                  || (B.Usable(s.b.clients[i]) && t.tasks[i] == s.tasks[i]
                      && t.b.clients[i].identifier == s.b.clients[i].identifier)
                  || (i == slot && s.tasks[i].Authenticating? && t.tasks[i].Serving?
                      && t.b.clients[i].identifier == identifier
                      && !Since(s.b.history, identifier, s.tasks[i].captured)))
  {
    hide Since, C.DuplicateId;
  }

  lemma BrokerInv(s: B.System)
    requires B.Inv(s)
    ensures TasksFit(s)
  {
  }

  lemma MovedKeepsInv(env: Environment, s: System, e: B.Event)
    requires Inv(env, s)
    ensures Inv(env, Moved(s, e))
  {
    hide B.Step, M.Inv, B.Inv, TasksFit;
    StepStaysSized(s.broker, e);
    BrokerInv(s.broker);
    B.StepKeepsInv(s.broker, e);
    forall i | 0 <= i < C.MAX_CONNECTIONS
      ensures var t := B.Step(s.broker, e);
              t.tasks[i].Authenticating? ==> t.tasks[i].captured <= |t.b.history|
    {
      CapturesStep(s.broker, e, i);
    }
  }

  lemma StepKeepsInv(env: Environment, s: System, e: Event)
    requires Inv(env, s) && s.dir.g < TWO_32 - 1
    ensures Inv(env, Step(env, s, e))
  {
    hide B.Step, M.Step, B.Inv, Moved;
    match e
    case Manage(m) => M.StepKeepsInv(env, s.dir, m);
    case Authenticate(_, _, _, _) =>
    case Bind(slot, clientId) =>
      if B.HasTask(s.broker, slot) {
        MovedKeepsInv(env, s, BindEvent(s, slot, clientId));
      }
    case Serve(b) =>
      if !b.Authenticated? {
        MovedKeepsInv(env, s, b);
      }
  }

  lemma StartIsGood(env: Environment, states: seq<System>, evs: seq<Event>)
    requires Run(env, states, evs)
    ensures Inv(env, states[0])
  {
    hide B.Inv;
    B.StartIsGood();
  }

  lemma {:induction false} ReachableInv(
    env: Environment, states: seq<System>, evs: seq<Event>, k: nat)
    requires Run(env, states, evs) && k < |states|
    ensures Inv(env, states[k])
    decreases k
  {
    hide Step, Inv;
    if k == 0 {
      StartIsGood(env, states, evs);
    } else {
      ReachableInv(env, states, evs, k - 1);
      var e := evs[k - 1];
      assert states[k] == Step(env, states[k - 1], e);
      StepKeepsInv(env, states[k - 1], e);
    }
  }

  // ------------------------------------------------------------ after a fence

  /** The principal is what authentication gave at some moment after the f-th event and
      before the n-th state. */
  ghost predicate ReadBetween(states: seq<System>, f: nat, n: nat, principal: Principal)
    requires n <= |states|
  {
    exists k, via :: f < k < n && WellFormed(states[k].dir.p)
      && MachineService.Authenticate(
           states[k].dir.p, states[k].dir.g, principal.identifier, true, via) == Some(principal)
  }

  /** The machine was fenced by record `at` of the journal, in the f-th event: whoever is
      connected as it has authenticated since, and whoever is connecting as it has, too,
      or captured before the fence. */
  ghost predicate Fenced(states: seq<System>, f: nat, n: nat, id: string, at: nat)
    requires n < |states| && Sized(states[n])
  {
    var s := states[n];
    && at < |s.broker.b.history| && s.broker.b.history[at] == id
    && forall i :: 0 <= i < C.MAX_CONNECTIONS ==>
         && (B.Usable(s.broker.b.clients[i]) && s.broker.b.clients[i].identifier == id ==>
               s.logins[i].Some? && s.logins[i].value.identifier == id
               && ReadBetween(states, f, n, s.logins[i].value))
         && (s.broker.tasks[i].Authenticating? && s.logins[i].Some?
             && s.logins[i].value.identifier == id ==>
               s.broker.tasks[i].captured <= at || ReadBetween(states, f, n, s.logins[i].value))
  }

  lemma FenceTakesEffect(env: Environment, states: seq<System>, evs: seq<Event>, f: nat, id: string)
    requires Run(env, states, evs) && f < |evs|
    requires evs[f] == Serve(B.FenceMachine(id)) && IdentifierValid(id)
    ensures Fenced(states, f, f + 1, id, |states[f].broker.b.history|)
  {
    ReachableInv(env, states, evs, f);
    assert states[f + 1] == Step(env, states[f], evs[f]);
    hide M.Inv, B.Inv, ReadBetween;
  }

  /** The journal remembers the fence against every capture before it. */
  lemma FencedBindRefused(history: seq<string>, id: string, at: nat, captured: nat)
    requires captured <= at < |history| && history[at] == id
    ensures Since(history, id, captured)
  {
    assert history == history[..at] + [id] + history[at + 1..];
    RecordedStaysVisible(history[..at], id, history[at + 1..], captured);
  }

  lemma ReadLonger(states: seq<System>, f: nat, n: nat, principal: Principal)
    requires n < |states| && ReadBetween(states, f, n, principal)
    ensures ReadBetween(states, f, n + 1, principal)
  {
  }

  lemma StillFenced(states: seq<System>, f: nat, n: nat, id: string, at: nat)
    requires n + 1 < |states| && Sized(states[n]) && Fenced(states, f, n, id, at)
    requires states[n + 1].broker == states[n].broker && states[n + 1].logins == states[n].logins
    requires Sized(states[n + 1])
    ensures Fenced(states, f, n + 1, id, at)
  {
    hide ReadBetween;
    forall principal: Principal | ReadBetween(states, f, n, principal)
      ensures ReadBetween(states, f, n + 1, principal)
    {
      ReadLonger(states, f, n, principal);
    }
  }

  lemma LoginIsRead(states: seq<System>, f: nat, n: nat, id: string, matched: bool, via: set<nat>)
    requires f < n < |states| && WellFormed(states[n].dir.p)
    ensures var p := MachineService.Authenticate(states[n].dir.p, states[n].dir.g, id, matched, via);
            p.Some? ==> p.value.identifier == id && ReadBetween(states, f, n + 1, p.value)
  {
    var p := MachineService.Authenticate(states[n].dir.p, states[n].dir.g, id, matched, via);
    if p.Some? {
      assert MachineService.Authenticate(
          states[n].dir.p, states[n].dir.g, p.value.identifier, true, via) == p;
    }
  }

  lemma LoginStaysFenced(
    states: seq<System>, f: nat, n: nat, id: string, at: nat,
    slot: nat, other: string, matched: bool, via: set<nat>)
    requires f < n && n + 1 < |states| && Sized(states[n]) && Fenced(states, f, n, id, at)
    requires slot < C.MAX_CONNECTIONS && states[n].broker.tasks[slot].Authenticating?
    requires TasksFit(states[n].broker)
    requires states[n + 1] == states[n].(logins := states[n].logins[slot :=
               MachineService.Authenticate(states[n].dir.p, states[n].dir.g, other, matched, via)])
    ensures Fenced(states, f, n + 1, id, at)
  {
    hide ReadBetween, MachineService.Authenticate;
    LoginIsRead(states, f, n, other, matched, via);
    forall principal: Principal | ReadBetween(states, f, n, principal)
      ensures ReadBetween(states, f, n + 1, principal)
    {
      ReadLonger(states, f, n, principal);
    }
  }

  lemma MovedStaysFenced(states: seq<System>, f: nat, n: nat, e: B.Event, id: string, at: nat)
    requires n + 1 < |states| && Sized(states[n]) && Fenced(states, f, n, id, at)
    requires TasksFit(states[n].broker)
    requires e.Authenticated? ==>
               && B.HasTask(states[n].broker, e.slot) && states[n].logins[e.slot].Some?
               && states[n].logins[e.slot].value.identifier == e.identifier
    requires states[n + 1] == Moved(states[n], e) && Sized(states[n + 1])
    ensures Fenced(states, f, n + 1, id, at)
  {
    hide B.Step, TasksFit, Since, ReadBetween;
    var s, t := states[n], states[n + 1];
    StepStaysSized(s.broker, e);
    CapturesStep(s.broker, e, 0);
    forall i | 0 <= i < C.MAX_CONNECTIONS
      ensures B.Usable(t.broker.b.clients[i]) && t.broker.b.clients[i].identifier == id ==>
                t.logins[i].Some? && t.logins[i].value.identifier == id
                && ReadBetween(states, f, n + 1, t.logins[i].value)
      ensures t.broker.tasks[i].Authenticating? && t.logins[i].Some?
              && t.logins[i].value.identifier == id ==>
                t.broker.tasks[i].captured <= at
                || ReadBetween(states, f, n + 1, t.logins[i].value)
    {
      CapturesStep(s.broker, e, i);
      if s.logins[i].Some? && ReadBetween(states, f, n, s.logins[i].value) {
        ReadLonger(states, f, n, s.logins[i].value);
      }
      if e.Authenticated? {
        BindStep(s.broker, e.slot, e.identifier, e.clientId, i);
        if s.broker.tasks[i].Authenticating? && s.broker.tasks[i].captured <= at {
          FencedBindRefused(s.broker.b.history, id, at, s.broker.tasks[i].captured);
        }
      } else {
        UsableStep(s.broker, e, i);
      }
    }
  }

  lemma StepStaysFenced(
    env: Environment, states: seq<System>, evs: seq<Event>, f: nat, n: nat, id: string, at: nat)
    requires Run(env, states, evs) && f < n < |evs|
    requires Sized(states[n]) && Fenced(states, f, n, id, at)
    ensures Fenced(states, f, n + 1, id, at)
  {
    ReachableInv(env, states, evs, n);
    BrokerInv(states[n].broker);
    hide Fenced, Moved, M.Step, TasksFit, B.Inv, M.Inv, MachineService.Authenticate;
    var s, t := states[n], states[n + 1];
    assert t == Step(env, s, evs[n]);
    match evs[n]
    case Manage(_) => StillFenced(states, f, n, id, at);
    case Authenticate(slot, other, matched, via) =>
      if B.HasTask(s.broker, slot) && s.broker.tasks[slot].Authenticating? {
        LoginStaysFenced(states, f, n, id, at, slot, other, matched, via);
      } else {
        StillFenced(states, f, n, id, at);
      }
    case Bind(slot, clientId) =>
      if B.HasTask(s.broker, slot) {
        MovedStaysFenced(states, f, n, BindEvent(s, slot, clientId), id, at);
      } else {
        StillFenced(states, f, n, id, at);
      }
    case Serve(b) =>
      if b.Authenticated? {
        StillFenced(states, f, n, id, at);
      } else {
        MovedStaysFenced(states, f, n, b, id, at);
      }
  }

  lemma {:induction false} StaysFenced(
    env: Environment, states: seq<System>, evs: seq<Event>, f: nat, n: nat, id: string)
    requires Run(env, states, evs) && f < n < |states|
    requires evs[f] == Serve(B.FenceMachine(id)) && IdentifierValid(id)
    ensures Fenced(states, f, n, id, |states[f].broker.b.history|)
    decreases n
  {
    hide Fenced, Step;
    if n == f + 1 {
      FenceTakesEffect(env, states, evs, f, id);
    } else {
      StaysFenced(env, states, evs, f, n - 1, id);
      StepStaysFenced(env, states, evs, f, n - 1, id, |states[f].broker.b.history|);
    }
  }

  /** Whatever was edited before a machine is fenced, and whatever was in the middle of
      connecting: every usable connection it has afterwards was authenticated after the
      fence, with the principal of the record as it was then. */
  lemma FencedMachineIsReadAgain(
    env: Environment, states: seq<System>, evs: seq<Event>, f: nat, n: nat, id: string, i: nat)
    returns (k: nat, via: set<nat>)
    requires Run(env, states, evs) && f < n < |states|
    requires evs[f] == Serve(B.FenceMachine(id)) && IdentifierValid(id)
    requires Sized(states[n]) && i < C.MAX_CONNECTIONS
    requires B.Usable(states[n].broker.b.clients[i])
    requires states[n].broker.b.clients[i].identifier == id
    ensures f < k < n && WellFormed(states[k].dir.p) && states[n].logins[i].Some?
    ensures states[n].logins[i]
         == MachineService.Authenticate(states[k].dir.p, states[k].dir.g, id, true, via)
  {
    StaysFenced(env, states, evs, f, n, id);
    hide Step, MachineService.Authenticate;
    var login := states[n].logins[i].value;
    assert ReadBetween(states, f, n, login);
    k, via :| f < k < n && WellFormed(states[k].dir.p)
      && MachineService.Authenticate(
           states[k].dir.p, states[k].dir.g, login.identifier, true, via) == Some(login);
  }

  // ------------------------------------------------------------ a barred machine stays out

  /** Nobody can authenticate as the machine: it is absent, disabled or revoked. */
  predicate Barred(p: Payload, id: string)
    requires WellFormed(p)
  {
    var at := Find(p, id);
    at == p.count || !p.machines[at].enabled || p.machines[at].revoked
  }

  /** Once a machine has been fenced, it has no usable connection for as long as its record
      is missing, disabled or revoked. */
  lemma BarredMachineStaysOut(
    env: Environment, states: seq<System>, evs: seq<Event>, f: nat, n: nat, id: string)
    requires Run(env, states, evs) && f < n < |states|
    requires evs[f] == Serve(B.FenceMachine(id)) && IdentifierValid(id)
    requires forall k :: f < k < n ==> WellFormed(states[k].dir.p) && Barred(states[k].dir.p, id)
    ensures Sized(states[n])
    ensures forall i :: 0 <= i < C.MAX_CONNECTIONS && B.Usable(states[n].broker.b.clients[i]) ==>
              states[n].broker.b.clients[i].identifier != id
  {
    hide Step;
    forall i | 0 <= i < C.MAX_CONNECTIONS && B.Usable(states[n].broker.b.clients[i])
      ensures states[n].broker.b.clients[i].identifier != id
    {
      if states[n].broker.b.clients[i].identifier == id {
        var k, via := FencedMachineIsReadAgain(env, states, evs, f, n, id, i);
        assert false;
      }
    }
  }

  lemma OnlyManagedChanges(env: Environment, s: System, e: Event)
    requires Sized(s)
    ensures Step(env, s, e).dir == if e.Manage? then M.Step(env, s.dir, e.m) else s.dir
  {
    hide B.Step, M.Step;
  }

  lemma {:induction false} RevokedOrGone(
    env: Environment, states: seq<System>, evs: seq<Event>, f: nat, n: nat, id: string)
    requires Run(env, states, evs) && f <= n < |states|
    requires WellFormed(states[f].dir.p) && M.IsRevoked(states[f].dir.p, id)
    requires forall k :: f <= k < n && Find(states[k].dir.p, id) == states[k].dir.p.count ==>
               Find(states[k + 1].dir.p, id) == states[k + 1].dir.p.count
    ensures Find(states[n].dir.p, id) == states[n].dir.p.count || M.IsRevoked(states[n].dir.p, id)
    decreases n
  {
    hide Step, M.Step, M.Inv;
    if f < n {
      RevokedOrGone(env, states, evs, f, n - 1, id);
      var s, e := states[n - 1], evs[n - 1];
      ReachableInv(env, states, evs, n - 1);
      assert states[n] == Step(env, s, e);
      OnlyManagedChanges(env, s, e);
      if M.IsRevoked(s.dir.p, id) && e.Manage? {
        M.RevokedStays(env, s.dir, e.m, id);
      }
    }
  }

  /** So a machine that was revoked and then fenced has no usable connection at any later
      moment, deleted or not, unless a new record is enrolled under its identifier. */
  lemma RevokedMachineStaysOut(
    env: Environment, states: seq<System>, evs: seq<Event>, f: nat, n: nat, id: string)
    requires Run(env, states, evs) && f < n < |states|
    requires evs[f] == Serve(B.FenceMachine(id)) && IdentifierValid(id)
    requires WellFormed(states[f].dir.p) && M.IsRevoked(states[f].dir.p, id)
    requires forall k :: f <= k < n && Find(states[k].dir.p, id) == states[k].dir.p.count ==>
               Find(states[k + 1].dir.p, id) == states[k + 1].dir.p.count
    ensures Sized(states[n])
    ensures Find(states[n].dir.p, id) == states[n].dir.p.count || M.IsRevoked(states[n].dir.p, id)
    ensures forall i :: 0 <= i < C.MAX_CONNECTIONS && B.Usable(states[n].broker.b.clients[i]) ==>
              states[n].broker.b.clients[i].identifier != id
  {
    hide Step;
    RevokedOrGone(env, states, evs, f, n, id);
    forall k | f < k < n
      ensures WellFormed(states[k].dir.p) && Barred(states[k].dir.p, id)
    {
      RevokedOrGone(env, states, evs, f, k, id);
    }
    BarredMachineStaysOut(env, states, evs, f, n, id);
  }
}
