/** The machine service on top of the directory's flash: operators prepare edits from the
    snapshot in memory, the writer commits them slot by slot under power loss, and every
    such run is a run of the record operations in which whole edits land. */
module DirectoryService {
  import opened Words
  import opened Directory
  import opened MachineService
  import D = DirectoryRuns
  import M = MachineRuns

  /** `inFlight` are the edits prepared and not submitted yet, `submitted` is the last one
      that reached its slot. */
  datatype System = System(
    device: D.System, inFlight: set<M.Pending>, submitted: Option<M.Pending>)

  datatype Event =
    | Operate(actor: Actor, op: Operation)
    | Submit(edit: M.Pending, fate: Fate)
    | Drive(e: D.Event)

  /** Only the service commits, one edit at a time, and the device has been formatted long
      ago. */
  function Step(env: Environment, s: System, e: Event): System {
    match e
    case Operate(actor, op) =>
      var mem := s.device.d.mem;
      if s.device.phase != D.Running || !WellFormed(mem.payload) then s
      else
        var edit := EditOf(mem.payload, mem.generation, actor, op);
        if edit.Refused? then s
        else s.(inFlight := s.inFlight + {M.Pending(op, edit.payload, mem.generation)})
    case Submit(edit, fate) =>
      if edit !in s.inFlight || s.device.phase != D.Running then s
      else
        var t := D.DoWrite(env, s.device, edit.payload, edit.expected, fate);
        System(t, s.inFlight - {edit}, if t.phase.Selecting? then Some(edit) else s.submitted)
    case Drive(e) =>
      if e.Write? || e.Format? then s
      else
        s.(device := D.Step(env, s.device, e),
           inFlight := if e == D.PowerLoss then {} else s.inFlight)
  }

  ghost predicate Run(env: Environment, states: seq<System>, evs: seq<Event>) {
    && |states| == |evs| + 1
    && forall k {:trigger evs[k]} :: 0 <= k < |evs| ==> states[k + 1] == Step(env, states[k], evs[k])
  }

  /** The directory as the service has it, or as the next boot will find it. */
  function Current(env: Environment, s: D.System): (Payload, uint32)
    requires D.Recoverable(env, s)
  {
    if s.phase == D.Off then
      var found := Select(env, s.d.flash);
      (found.payload, found.generation)
    else (s.d.mem.payload, s.d.mem.generation)
  }

  /** The slot a boot would find holds an edit of the current records that landed in
      flash without the service knowing. */
  predicate Landed(env: Environment, s: D.System, edits: set<M.Pending>, e: M.Pending)
    requires D.Recoverable(env, s)
  {
    var slot := SlotAt(s.d.flash, Chosen(env, s.d.flash)).slot;
    && e in edits && e.expected == s.d.mem.generation
    && slot.payload == e.payload && slot.generation == NextGeneration(s.d.mem.generation)
  }

  ghost predicate Tracks(env: Environment, s: System, m: M.System) {
    && D.Inv(env, s.device)
    && Current(env, s.device) == (m.p, m.g)
    && (s.device.phase == D.Off || s.device.phase == D.Repairing ==> s.inFlight == {})
    && (forall e :: e in s.inFlight ==>
          e.expected <= m.g && (e.expected == m.g ==> e in m.inFlight))
    && (s.device.phase.Selecting? ==>
          && s.submitted.Some? && s.submitted.value in m.inFlight
          && s.submitted.value.expected == m.g
          && s.submitted.value.payload == s.device.phase.p)
    && (s.device.phase != D.Off ==>
          Chosen(env, s.device.d.flash) == s.device.d.mem.active ||
          exists e :: Landed(env, s.device, m.inFlight, e))
  }

  /** One step of the service is no step or one step of the record operations. */
  datatype Answer = Silent | Does(e: M.Event)

  function After(env: Environment, m: M.System, a: Answer): M.System
    requires WellFormed(m.p)
  {
    if a.Silent? then m else M.Step(env, m, a.e)
  }

  /** The selector write that makes the commit of the submitted edit succeed. */
  predicate Acknowledges(s: System, fate: Fate) {
    && s.device.phase.Selecting? && fate.selectorWritten
    && SelectorFate(s.device.d.flash.selector, Target(s.device.d.mem),
                    fate.selectorAfter, fate.selectorWritten)
  }

  /** Which step answers which: an edit prepared is prepared, an edit acknowledged is the
      one submitted and lands, and nothing else happens, except that a power loss may land
      an edit that was not acknowledged. */
  predicate Answers(env: Environment, s: System, e: Event, a: Answer) {
    var mem := s.device.d.mem;
    match e
    case Operate(actor, op) =>
      a == if s.device.phase == D.Running && WellFormed(mem.payload)
              && EditOf(mem.payload, mem.generation, actor, op).Edited?
           then Does(M.Prepare(actor, op)) else Silent
    case Submit(_, _) => a == Silent
    case Drive(d) =>
      match d
      case Choose(fate) =>
        if Acknowledges(s, fate)
        then s.submitted.Some? && a == Does(M.Land(s.submitted.value, true)) else a == Silent
      case PowerLoss => a.Does? ==> a.e.Land? && a.e.stored
      case _ => a == Silent
  }

  lemma OperateTracks(env: Environment, s: System, m: M.System, actor: Actor, op: Operation)
    returns (a: Answer)
    requires Tracks(env, s, m) && M.Consistent(env, m)
    ensures Tracks(env, Step(env, s, Operate(actor, op)), After(env, m, a))
    ensures Answers(env, s, Operate(actor, op), a)
  {
    var mem := s.device.d.mem;
    assert WellFormed(m.p);
    hide EditOf, Landed, SlotValid, PayloadValid;
    if s.device.phase == D.Running && EditOf(mem.payload, mem.generation, actor, op).Edited? {
      a := Does(M.Prepare(actor, op));
      var q := EditOf(mem.payload, mem.generation, actor, op).payload;
      var added := M.Pending(op, q, mem.generation);
      LandedMore(env, s.device, m.inFlight, added);
    } else {
      a := Silent;
    }
  }

  lemma LandedMore(env: Environment, s: D.System, edits: set<M.Pending>, added: M.Pending)
    requires D.Recoverable(env, s)
    ensures (exists e :: Landed(env, s, edits, e)) ==> exists e :: Landed(env, s, edits + {added}, e)
  {
    if e :| Landed(env, s, edits, e) {
      assert Landed(env, s, edits + {added}, e);
    }
  }

  /** The slot a write may have changed is not the active one, so what a boot finds is the
      active payload, the submitted one, or what it found before. */
  lemma SubmitTracks(env: Environment, s: System, m: M.System, edit: M.Pending, fate: Fate)
    requires Tracks(env, s, m)
    ensures Tracks(env, Step(env, s, Submit(edit, fate)), m)
  {
    hide PayloadValid, SlotValid;
    if edit in s.inFlight && s.device.phase == D.Running {
      D.WriteKeepsInv(env, s.device, edit.payload, edit.expected, fate);
      var t := D.DoWrite(env, s.device, edit.payload, edit.expected, fate);
      if t != s.device {
        var c := Chosen(env, t.d.flash);
        var written := NewSlot(env, s.device.d.mem, edit.payload);
        if c != t.d.mem.active && SlotAt(t.d.flash, c) == Got(written) {
          assert Landed(env, t, m.inFlight, edit);
        } else if c != t.d.mem.active {
          assert c == Chosen(env, s.device.d.flash);
          var e :| Landed(env, s.device, m.inFlight, e);
          assert Landed(env, t, m.inFlight, e);
        }
      }
    }
  }

  /** A selector write that succeeds lands the submitted edit; one that fails may leave it
      for the next boot to find. */
  lemma ChooseTracks(env: Environment, s: System, m: M.System, fate: Fate) returns (a: Answer)
    requires Tracks(env, s, m) && M.Consistent(env, m) && m.g < TWO_32 - 1
    ensures Tracks(env, Step(env, s, Drive(D.Choose(fate))), After(env, m, a))
    ensures Answers(env, s, Drive(D.Choose(fate)), a)
  {
    D.ChooseKeepsInv(env, s.device, fate);
    hide PayloadValid, SlotValid;
    a := Silent;
    var t := D.DoChoose(env, s.device, fate);
    if t != s.device {
      var e := s.submitted.value;
      if fate.selectorWritten {
        a := Does(M.Land(e, true));
      } else if Chosen(env, t.d.flash) != t.d.mem.active {
        assert Landed(env, t, m.inFlight, e);
      }
    }
  }

  /** When the power goes, an edit that reached the flash unacknowledged lands. */
  lemma PowerLossTracks(env: Environment, s: System, m: M.System) returns (a: Answer)
    requires Tracks(env, s, m) && M.Consistent(env, m) && m.g < TWO_32 - 1
    ensures Tracks(env, Step(env, s, Drive(D.PowerLoss)), After(env, m, a))
    ensures Answers(env, s, Drive(D.PowerLoss), a)
  {
    hide PayloadValid;
    a := Silent;
    if s.device.phase != D.Off && Chosen(env, s.device.d.flash) != s.device.d.mem.active {
      var e :| Landed(env, s.device, m.inFlight, e);
      assert PayloadValid(env, e.payload);
      a := Does(M.Land(e, true));
    }
  }

  lemma BootTracks(env: Environment, s: System, m: M.System, fate: Fate)
    requires Tracks(env, s, m)
    ensures Tracks(env, Step(env, s, Drive(D.PowerUp)), m)
    ensures Tracks(env, Step(env, s, Drive(D.Repair(fate))), m)
  {
    D.BootKeepsInv(env, s.device, fate);
    hide PayloadValid, SlotValid;
    if s.device.phase == D.Repairing {
      var t := D.DoRepair(env, s.device, fate);
      assert Chosen(env, t.d.flash) == s.device.d.mem.active;
    }
  }

  lemma StepTracks(env: Environment, s: System, m: M.System, e: Event) returns (a: Answer)
    requires Tracks(env, s, m) && M.Consistent(env, m) && m.g < TWO_32 - 1
    ensures Tracks(env, Step(env, s, e), After(env, m, a)) && Answers(env, s, e, a)
  {
    hide Tracks, M.Consistent, EditOf, Acknowledges;
    a := Silent;
    match e
    case Operate(actor, op) => a := OperateTracks(env, s, m, actor, op);
    case Submit(edit, fate) => SubmitTracks(env, s, m, edit, fate);
    case Drive(d) =>
      match d
      case Choose(fate) => a := ChooseTracks(env, s, m, fate);
      case PowerLoss => a := PowerLossTracks(env, s, m);
      case PowerUp => BootTracks(env, s, m, Fate(Missing, false, false, None, false));
      case Repair(fate) => BootTracks(env, s, m, fate);
      case _ =>
  }

  /** A provisioned device whose records were all stamped by its own commits. */
  ghost predicate Starts(env: Environment, s: System) {
    && D.Provisioned(env, s.device) && s.inFlight == {}
    && var found := Select(env, s.device.d.flash);
       M.Consistent(env, M.System(found.payload, found.generation, {}))
  }

  /** The generations a run goes through, which are taken not to reach the last one. */
  ghost predicate Unwrapped(env: Environment, states: seq<System>) {
    forall k :: 0 <= k < |states| && D.Recoverable(env, states[k].device) ==>
      Current(env, states[k].device).1 < TWO_32 - 1
  }

  /** The n-th state of the service shows the directory of the m-th state of the run. */
  predicate Shows(env: Environment, s: System, m: M.System) {
    D.Recoverable(env, s.device) && Current(env, s.device) == (m.p, m.g)
  }

  /** An event takes the other run from its i-th state to its j-th. */
  predicate Moves(env: Environment, s: System, e: Event, mevs: seq<M.Event>, i: nat, j: nat) {
    || (j == i && Answers(env, s, e, Silent))
    || (j == i + 1 && i < |mevs| && Answers(env, s, e, Does(mevs[i])))
  }

  ghost predicate Follows(
    env: Environment, states: seq<System>, evs: seq<Event>,
    ms: seq<M.System>, mevs: seq<M.Event>, at: seq<nat>)
  {
    && 1 <= |at| <= |states| && |at| <= |evs| + 1
    && (forall k :: 0 <= k < |at| ==> at[k] < |ms| && Shows(env, states[k], ms[at[k]]))
    && (forall k :: 0 <= k < |at| - 1 ==> Moves(env, states[k], evs[k], mevs, at[k], at[k + 1]))
  }

  /** Every run of the service over flash and power loss is a run of the record operations:
      what the service holds at each moment, or what the next boot would find, is the
      directory of that run at a moment of it, in the same order, and an acknowledged
      commit is there the landing of the very edit that was submitted. So what `MachineRuns`
      proves of its runs holds of the device. */
  lemma {:induction false} EveryRunLandsWholeEdits(
    env: Environment, states: seq<System>, evs: seq<Event>, n: nat)
    returns (ms: seq<M.System>, mevs: seq<M.Event>, at: seq<nat>)
    requires Run(env, states, evs) && n <= |evs| && Starts(env, states[0])
    requires Unwrapped(env, states)
    ensures M.Run(env, ms, mevs) && |ms| == |mevs| + 1
    ensures Follows(env, states, evs, ms, mevs, at) && |at| == n + 1 && at[n] == |mevs|
    ensures Tracks(env, states[n], ms[|mevs|])
    decreases n
  {
    hide Step, Tracks, Starts, Answers, Follows, M.Run, M.Inv, M.Consistent;
    if n == 0 {
      ms, mevs, at := StartFollows(env, states, evs);
    } else {
      ms, mevs, at := EveryRunLandsWholeEdits(env, states, evs, n - 1);
      var m, e := ms[|mevs|], evs[n - 1];
      M.ReachableInv(env, ms, mevs, |mevs|);
      InvIsConsistent(env, ms, mevs, m);
      assert states[n] == Step(env, states[n - 1], e);
      var a := StepTracks(env, states[n - 1], m, e);
      TracksShows(env, states[n], After(env, m, a));
      ms, mevs, at := StepFollows(env, states, evs, n, ms, mevs, at, a);
    }
  }

  lemma InvIsConsistent(env: Environment, ms: seq<M.System>, mevs: seq<M.Event>, m: M.System)
    requires M.Run(env, ms, mevs) && m in ms && M.Inv(env, m)
    ensures M.Consistent(env, m) && WellFormed(m.p) && m.g < TWO_32 - 1
  {
  }

  lemma StartFollows(env: Environment, states: seq<System>, evs: seq<Event>)
    returns (ms: seq<M.System>, mevs: seq<M.Event>, at: seq<nat>)
    requires Run(env, states, evs) && Starts(env, states[0]) && Unwrapped(env, states)
    ensures M.Run(env, ms, mevs) && |ms| == |mevs| + 1 && at == [|mevs|]
    ensures Follows(env, states, evs, ms, mevs, at)
    ensures Tracks(env, states[0], ms[|mevs|])
  {
    hide Step, Landed, SlotValid, Chosen, Answers;
    var found := Select(env, states[0].device.d.flash);
    D.ProvisionedIsGood(env, states[0].device);
    ms, mevs, at := [M.System(found.payload, found.generation, {})], [], [0];
  }

  lemma StepFollows(
    env: Environment, states: seq<System>, evs: seq<Event>, n: nat,
    ms: seq<M.System>, mevs: seq<M.Event>, at: seq<nat>, a: Answer)
    returns (ms': seq<M.System>, mevs': seq<M.Event>, at': seq<nat>)
    requires |states| == |evs| + 1 && 0 < n <= |evs| && Unwrapped(env, states)
    requires M.Run(env, ms, mevs) && |ms| == |mevs| + 1 && WellFormed(ms[|mevs|].p)
    requires Follows(env, states, evs, ms, mevs, at) && |at| == n && at[n - 1] == |mevs|
    requires Answers(env, states[n - 1], evs[n - 1], a)
    requires Shows(env, states[n], After(env, ms[|mevs|], a))
    ensures M.Run(env, ms', mevs') && |ms'| == |mevs'| + 1
    ensures Follows(env, states, evs, ms', mevs', at') && |at'| == n + 1 && at'[n] == |mevs'|
    ensures ms'[|mevs'|] == After(env, ms[|mevs|], a)
  {
    hide M.Run, M.Step, Answers;
    ms', mevs' := ms, mevs;
    if a.Does? {
      ms', mevs' := Appended(env, ms, mevs, a.e);
      FollowsLonger(env, states, evs, ms, mevs, ms', mevs', at);
    }
    at' := at + [|mevs'|];
  }

  lemma TracksShows(env: Environment, s: System, m: M.System)
    requires Tracks(env, s, m)
    ensures Shows(env, s, m)
  {
  }

  lemma FollowsLonger(
    env: Environment, states: seq<System>, evs: seq<Event>, ms: seq<M.System>,
    mevs: seq<M.Event>, ms': seq<M.System>, mevs': seq<M.Event>, at: seq<nat>)
    requires Follows(env, states, evs, ms, mevs, at) && ms <= ms' && mevs <= mevs'
    ensures Follows(env, states, evs, ms', mevs', at)
  {
    hide Shows, Answers;
  }

  lemma Appended(env: Environment, ms: seq<M.System>, mevs: seq<M.Event>, e: M.Event)
    returns (ms': seq<M.System>, mevs': seq<M.Event>)
    requires M.Run(env, ms, mevs) && |ms| == |mevs| + 1 && WellFormed(ms[|mevs|].p)
    requires M.Step(env, ms[|mevs|], e).g < TWO_32 - 1
    ensures M.Run(env, ms', mevs') && |ms'| == |mevs'| + 1 && |mevs'| == |mevs| + 1
    ensures mevs' == mevs + [e]
    ensures ms <= ms' && ms'[|mevs'|] == M.Step(env, ms[|mevs|], e)
  {
    hide M.Step, M.Consistent;
    ms', mevs' := ms + [M.Step(env, ms[|mevs|], e)], mevs + [e];
    forall k | 0 <= k < |mevs'|
      ensures WellFormed(ms'[k].p) && ms'[k + 1] == M.Step(env, ms'[k], mevs'[k])
    {
      if k < |mevs| {
        assert mevs'[k] == mevs[k] && ms'[k] == ms[k] && ms'[k + 1] == ms[k + 1];
      }
    }
  }

  /** The edit a selector write is about was submitted by the last step that found the
      device idle. */
  lemma {:induction false} SelectingWasSubmitted(
    env: Environment, states: seq<System>, evs: seq<Event>, n: nat) returns (k: nat)
    requires Run(env, states, evs) && n < |states| && Starts(env, states[0])
    requires states[n].device.phase.Selecting?
    ensures k < n && evs[k].Submit? && states[n].submitted == Some(evs[k].edit)
    ensures states[k].device.phase == D.Running && evs[k].edit in states[k].inFlight
    ensures forall i :: k < i <= n ==> states[i].device.phase == states[n].device.phase
    decreases n
  {
    assert n > 0;
    assert states[n] == Step(env, states[n - 1], evs[n - 1]);
    if evs[n - 1].Submit? && states[n - 1].device.phase == D.Running {
      k := n - 1;
    } else {
      k := SelectingWasSubmitted(env, states, evs, n - 1);
    }
  }
}
