/** Power loss. Commits, boots and repairs of the machine directory in any order,
    each of their flash writes complete, ignored or torn, and the power gone
    between any two of them. */
module DirectoryRuns {
  import opened Words
  import opened Directory

  /** Formatting is the very first commit, which a boot makes when it finds no slot. */
  datatype Phase =
    | Off | Running | Selecting(p: Payload) | Repairing | Formatting | FormatSelecting

  /** `acked` is the payload of the last commit that reported success, `attempts`
      the payloads of the commits tried since. */
  datatype System = System(d: Device, phase: Phase, acked: Payload, attempts: set<Payload>)

  datatype Event =
    | Write(p: Payload, expected: uint32, fate: Fate)
    | Choose(fate: Fate)
    | PowerLoss
    | PowerUp
    | Repair(fate: Fate)
    | Format(fate: Fate)

  /** The slot half of a commit. */
  function DoWrite(env: Environment, s: System, p: Payload, expected: uint32, fate: Fate): System {
    var before := SlotAt(s.d.flash, Target(s.d.mem));
    if s.phase != Running || !CommitAllowed(env, s.d.mem, p, expected)
       || !SlotFate(env, before, NewSlot(env, s.d.mem, p), fate.slotAfter) then s
    else
      var (status, d) := WriteSlot(env, s.d, p, expected, fate);
      s.(d := d, attempts := s.attempts + {p},
         phase := if status == Ok then Selecting(p) else Running)
  }

  /** The selector half; success is the acknowledgement. */
  function DoChoose(env: Environment, s: System, fate: Fate): System {
    if !(s.phase.Selecting? || s.phase.FormatSelecting?)
       || !SelectorFate(s.d.flash.selector, Target(s.d.mem), fate.selectorAfter, fate.selectorWritten)
    then s
    else
      var p := if s.phase.Selecting? then s.phase.p else EmptyPayload();
      var (status, d) := WriteSelector(env, s.d, p, fate);
      if status == Ok then System(d, Running, p, {})
      else s.(d := d, phase := if s.phase.Selecting? then Running else Off)
  }

  function DoPowerUp(env: Environment, s: System): System {
    if s.phase != Off then s
    else
      var loaded := s.(d := Loaded(env, s.d));
      match Select(env, s.d.flash)
      case Selected(_, _, _, repair) => loaded.(phase := if repair then Repairing else Running)
      case Unselected(status) => if status == NotFound then loaded.(phase := Formatting) else loaded
  }

  function DoFormat(env: Environment, s: System, fate: Fate): System {
    var before := SlotAt(s.d.flash, Target(s.d.mem));
    if s.phase != Formatting
       || !SlotFate(env, before, NewSlot(env, s.d.mem, EmptyPayload()), fate.slotAfter) then s
    else
      var (status, d) := WriteSlot(env, s.d, EmptyPayload(), 0, fate);
      s.(d := d, attempts := s.attempts + {EmptyPayload()},
         phase := if status == Ok then FormatSelecting else Off)
  }

  function DoRepair(env: Environment, s: System, fate: Fate): System {
    if s.phase != Repairing || s.d.mem.active > 1
       || !SelectorFate(s.d.flash.selector, s.d.mem.active, fate.selectorAfter, fate.selectorWritten)
    then s
    else
      s.(d := s.d.(flash := s.d.flash.(selector := fate.selectorAfter)),
         phase := if fate.selectorWritten then Running else Off)
  }

  function Step(env: Environment, s: System, e: Event): System {
    match e
    case Write(p, expected, fate) => DoWrite(env, s, p, expected, fate)
    case Choose(fate) => DoChoose(env, s, fate)
    case PowerLoss => s.(phase := Off)
    case PowerUp => DoPowerUp(env, s)
    case Repair(fate) => DoRepair(env, s, fate)
    case Format(fate) => DoFormat(env, s, fate)
  }

  ghost predicate Run(env: Environment, states: seq<System>, evs: seq<Event>) {
    && |states| == |evs| + 1
    && forall k {:trigger evs[k]} :: 0 <= k < |evs| ==> states[k + 1] == Step(env, states[k], evs[k])
  }

  /** A provisioned device: one payload, already acknowledged, is what a boot finds. */
  predicate Provisioned(env: Environment, s: System) {
    && s.phase == Off && s.attempts == {}
    && var found := Select(env, s.d.flash);
       found.Selected? && found.payload == s.acked
  }

  predicate Recoverable(env: Environment, s: System) {
    var found := Select(env, s.d.flash);
    found.Selected? && found.payload in {s.acked} + s.attempts
  }

  /** Memory agrees with the active slot, which no write touches. */
  predicate Mirrored(env: Environment, s: System) {
    var mem, r := s.d.mem, SlotAt(s.d.flash, s.d.mem.active);
    && mem.active <= 1 && mem.ready
    && ReadsValid(env, r) && r.slot.payload == mem.payload && r.slot.generation == mem.generation
    && mem.payload in {s.acked} + s.attempts
  }

  predicate Inv(env: Environment, s: System) {
    && Recoverable(env, s)
    && s.phase != Formatting && s.phase != FormatSelecting
    && (s.phase != Off ==> Mirrored(env, s))
    && (s.phase.Selecting? ==>
          && s.phase.p in s.attempts
          && SlotAt(s.d.flash, Target(s.d.mem)) == Got(NewSlot(env, s.d.mem, s.phase.p))
          && PayloadValid(env, s.phase.p))
    && (s.phase == Repairing ==>
          !SelectorUsable(env, s.d.flash) && Chosen(env, s.d.flash) == s.d.mem.active)
  }

  /** Select gives a payload exactly when no slot is unreadable and one is valid. */
  lemma SelectSucceedsExactly(env: Environment, f: Flash)
    ensures Select(env, f).Selected? <==>
              f.a != Failed && f.b != Failed && (ReadsValid(env, f.a) || ReadsValid(env, f.b))
  {
  }

  /** Writing the inactive slot can only add the new payload to what may be found. */
  lemma WriteKeepsInv(env: Environment, s: System, p: Payload, expected: uint32, fate: Fate)
    requires Inv(env, s)
    ensures Inv(env, DoWrite(env, s, p, expected, fate))
  {
    hide PayloadValid;
  }

  lemma ChooseKeepsInv(env: Environment, s: System, fate: Fate)
    requires Inv(env, s)
    ensures Inv(env, DoChoose(env, s, fate))
  {
    hide PayloadValid;
  }

  lemma BootKeepsInv(env: Environment, s: System, fate: Fate)
    requires Inv(env, s)
    ensures Inv(env, DoPowerUp(env, s))
    ensures Inv(env, DoRepair(env, s, fate))
  {
    hide PayloadValid;
  }

  lemma StepKeepsInv(env: Environment, s: System, e: Event)
    requires Inv(env, s)
    ensures Inv(env, Step(env, s, e))
  {
    match e
    case Write(p, expected, fate) => WriteKeepsInv(env, s, p, expected, fate);
    case Choose(fate) => ChooseKeepsInv(env, s, fate);
    case PowerLoss =>
    case PowerUp => BootKeepsInv(env, s, Fate(Missing, false, false, None, false));
    case Repair(fate) => BootKeepsInv(env, s, fate);
    case Format(_) =>
  }

  lemma {:induction false} ReachableInv(
    env: Environment, states: seq<System>, evs: seq<Event>, k: nat)
    requires Run(env, states, evs) && k < |states| && Provisioned(env, states[0])
    ensures Inv(env, states[k])
    decreases k
  {
    hide Inv, Step;
    if k == 0 {
      ProvisionedIsGood(env, states[0]);
    } else {
      ReachableInv(env, states, evs, k - 1);
      var e := evs[k - 1];
      StepKeepsInv(env, states[k - 1], e);
    }
  }

  lemma ProvisionedIsGood(env: Environment, s: System)
    requires Provisioned(env, s)
    ensures Inv(env, s)
  {
  }

  /** Whatever the power does, a boot finds a whole payload: the last acknowledged
      one or one whose commit was tried since. It never fails closed. */
  lemma RecoversAcknowledgedOrAttempted(
    env: Environment, states: seq<System>, evs: seq<Event>, k: nat)
    requires Run(env, states, evs) && k < |states| && Provisioned(env, states[0])
    ensures Select(env, states[k].d.flash).Selected?
    ensures Select(env, states[k].d.flash).payload in {states[k].acked} + states[k].attempts
  {
    ReachableInv(env, states, evs, k);
  }

  /** An acknowledged commit is what every boot finds until another commit starts. */
  lemma {:induction false} AcknowledgedSurvives(
    env: Environment, states: seq<System>, evs: seq<Event>, i: nat, j: nat)
    requires Run(env, states, evs) && i < j < |states| && Provisioned(env, states[0])
    requires states[i].phase.Selecting? && evs[i].Choose?
    requires SelectorFate(states[i].d.flash.selector, Target(states[i].d.mem),
                          evs[i].fate.selectorAfter, evs[i].fate.selectorWritten)
    requires evs[i].fate.selectorWritten
    requires forall k :: i < k < j ==> !evs[k].Write?
    ensures states[j].attempts == {} && states[j].acked == states[i].phase.p
    ensures Select(env, states[j].d.flash).Selected?
    ensures Select(env, states[j].d.flash).payload == states[i].phase.p
    decreases j
  {
    ReachableInv(env, states, evs, j);
    var e := evs[j - 1];
    if j > i + 1 {
      AcknowledgedSurvives(env, states, evs, i, j - 1);
      ReachableInv(env, states, evs, j - 1);
    }
    hide PayloadValid;
    assert states[j] == Step(env, states[j - 1], e);
  }

  // ------------------------------------------------------------ the firmware's calls

  /** The flash does to both writes of a commit what a flash may do. */
  predicate FateAllowed(env: Environment, d: Device, p: Payload, fate: Fate) {
    && SlotFate(env, SlotAt(d.flash, Target(d.mem)), NewSlot(env, d.mem, p), fate.slotAfter)
    && SelectorFate(d.flash.selector, Target(d.mem), fate.selectorAfter, fate.selectorWritten)
  }

  /** The firmware's commit is the slot step and, if that succeeded, the selector step. */
  lemma CommitIsTwoSteps(env: Environment, s: System, p: Payload, expected: uint32, fate: Fate)
    requires s.phase == Running && FateAllowed(env, s.d, p, fate)
    ensures var (status, d) := Commit(env, s.d, p, expected, fate);
            var s' := DoChoose(env, DoWrite(env, s, p, expected, fate), fate);
            && s'.d == d && s'.phase == Running
            && (status == Ok ==> s'.acked == p && s'.attempts == {})
            && (status != Ok ==> s'.acked == s.acked)
  {
    hide PayloadValid, SlotValid;
  }

  lemma BootIsTwoSteps(env: Environment, s: System, fate: Fate)
    requires s.phase == Off && Recoverable(env, s)
    requires SelectorFate(s.d.flash.selector, Loaded(env, s.d).mem.active,
                          fate.selectorAfter, fate.selectorWritten)
    ensures var (status, d) := Boot(env, s.d, fate);
            var s' := DoRepair(env, DoPowerUp(env, s), fate);
            s'.d == d && s'.phase == (if status == Ok then Running else Off)
  {
    hide SlotValid;
  }

  /** A commit is all or nothing: success means a boot finds exactly the new payload
      under the next generation, failure leaves memory alone. */
  lemma CommitIsAtomic(env: Environment, s: System, p: Payload, expected: uint32, fate: Fate)
    requires Inv(env, s) && s.phase == Running && FateAllowed(env, s.d, p, fate)
    ensures var (status, d) := Commit(env, s.d, p, expected, fate);
            && (status == Ok ==>
                  && Select(env, d.flash)
                  == Selected(Target(s.d.mem), p, NextGeneration(s.d.mem.generation), false)
                  && d.mem.payload == p && d.mem.generation == NextGeneration(s.d.mem.generation))
            && (status != Ok ==> d.mem == s.d.mem)
            && (status == InvalidState ==> d == s.d)
  {
    hide PayloadValid;
    assert SlotAt(s.d.flash, s.d.mem.active) != Failed;
  }

  // ------------------------------------------------------------ a blank device

  /** Nothing was ever written: a device before its first boot, or whose first commit
      left no trace. */
  predicate Blank(s: System) {
    && s.d.flash.a == Missing && s.d.flash.b == Missing
    && s.acked == EmptyPayload() && s.attempts <= {EmptyPayload()}
    && (s.phase == Off || (s.phase == Formatting && FirstMemory(s.d.mem)))
  }

  predicate FirstMemory(mem: Memory) {
    mem.payload == EmptyPayload() && mem.generation == 0 && mem.ready
  }

  /** The first commit has written its slot and is about to write the selector. */
  predicate Formatted(env: Environment, s: System) {
    && s.phase == FormatSelecting && FirstMemory(s.d.mem)
    && s.d.flash.a == Got(NewSlot(env, s.d.mem, EmptyPayload())) && s.d.flash.b == Missing
    && s.acked == EmptyPayload() && s.attempts == {EmptyPayload()}
  }

  /** The first commit left a slot that is there and not valid. */
  predicate Torn(env: Environment, s: System) {
    && s.d.flash.a.Got? && !SlotValid(env, s.d.flash.a.slot) && s.d.flash.b == Missing
    && s.phase == Off
  }

  /** The step in which that happens. */
  predicate TearsFormat(env: Environment, s: System, e: Event) {
    && s.phase == Formatting && e.Format?
    && e.fate.slotAfter.Got? && !SlotValid(env, e.fate.slotAfter.slot)
  }

  /** What a device that was once blank can be; a boot of it goes on unless it is torn. */
  lemma BlankLife(env: Environment, s: System, e: Event)
    requires Blank(s) || Formatted(env, s) || Inv(env, s)
    ensures var t := Step(env, s, e);
            if TearsFormat(env, s, e) then Torn(env, t)
            else Blank(t) || Formatted(env, t) || Inv(env, t)
  {
    assert PayloadValid(env, EmptyPayload());
    hide PayloadValid;
    if Inv(env, s) {
      StepKeepsInv(env, s, e);
    }
  }

  lemma TornStays(env: Environment, s: System, e: Event)
    requires Torn(env, s)
    ensures Torn(env, Step(env, s, e))
  {
    hide SlotValid;
  }

  /** A boot either finds a payload or formats, or it fails closed. */
  predicate GoesOn(env: Environment, f: Flash) {
    Select(env, f).Selected? || Select(env, f) == Unselected(NotFound)
  }

  lemma GoesOnUnlessTorn(env: Environment, s: System)
    ensures Blank(s) || Formatted(env, s) || Inv(env, s) ==> GoesOn(env, s.d.flash)
    ensures Torn(env, s) ==> Select(env, s.d.flash) in {Unselected(NotSupported), Unselected(InvalidCrc)}
  {
    assert PayloadValid(env, EmptyPayload());
    hide PayloadValid;
  }

  lemma {:induction false} BlankRun(env: Environment, states: seq<System>, evs: seq<Event>, k: nat)
    requires Run(env, states, evs) && k < |states| && Blank(states[0])
    ensures if exists j :: 0 <= j < k && TearsFormat(env, states[j], evs[j]) then Torn(env, states[k])
            else Blank(states[k]) || Formatted(env, states[k]) || Inv(env, states[k])
    decreases k
  {
    hide Blank, Formatted, Inv, Torn, TearsFormat, Step;
    if k > 0 {
      BlankRun(env, states, evs, k - 1);
      var s, e := states[k - 1], evs[k - 1];
      assert states[k] == Step(env, s, e);
      if exists j :: 0 <= j < k - 1 && TearsFormat(env, states[j], evs[j]) {
        TornStays(env, s, e);
      } else {
        BlankLife(env, s, e);
      }
    }
  }

  /** The one gap. Over every run of a device that was blank, at every moment a boot would
      go on exactly when the write of the first slot was never torn into one that is there
      and not valid; after that every boot fails closed. */
  lemma BlankDeviceExactly(
    env: Environment, states: seq<System>, evs: seq<Event>, k: nat)
    requires Run(env, states, evs) && k < |states| && Blank(states[0])
    ensures GoesOn(env, states[k].d.flash)
       <==> forall j :: 0 <= j < k ==> !TearsFormat(env, states[j], evs[j])
    ensures (exists j :: 0 <= j < k && TearsFormat(env, states[j], evs[j])) ==>
              states[k].phase == Off
              && Select(env, states[k].d.flash) in {Unselected(NotSupported), Unselected(InvalidCrc)}
  {
    BlankRun(env, states, evs, k);
    GoesOnUnlessTorn(env, states[k]);
    hide TearsFormat, Blank, Formatted, Inv, Select;
  }

  /** The first boot of a blank device is three of the steps above. */
  lemma FirstBootIsThreeSteps(env: Environment, s: System, fate: Fate)
    requires Blank(s) && s.phase == Off && FateAllowed(env, Loaded(env, s.d), EmptyPayload(), fate)
    ensures var (status, d) := Boot(env, s.d, fate);
            var s' := DoChoose(env, DoFormat(env, DoPowerUp(env, s), fate), fate);
            s'.d == d && s'.phase == (if status == Ok then Running else Off)
  {
    assert PayloadValid(env, EmptyPayload());
    hide PayloadValid, SlotValid;
  }

  /** What the next boot makes of a first commit that was cut short. */
  lemma TornFirstCommitExactly(env: Environment, f: Flash)
    requires f.b == Missing
    ensures GoesOn(env, f) <==> f.a == Missing || ReadsValid(env, f.a)
  {
  }

  lemma TornFirstCommitFailsClosed(env: Environment, d: Device, fate: Fate)
    requires d.flash.a == Missing && d.flash.b == Missing
    requires fate.slotAfter.Got? && !SlotValid(env, fate.slotAfter.slot)
    ensures Boot(env, d, fate).0 != Ok
    ensures forall again :: Boot(env, Boot(env, d, fate).1, again).0 in {NotSupported, InvalidCrc}
  {
    assert PayloadValid(env, EmptyPayload());
    var (status, d') := Boot(env, d, fate);
    assert d'.flash.a == fate.slotAfter && d'.flash.b == Missing;
  }

  // ------------------------------------------------------------ what a boot finds, exactly

  /** A payload as the format wants it. */
  predicate Sound(env: Environment, p: Payload) {
    && p.schema == 1 && p.reserved == 0 && |p.machines| == 16 && p.count <= 16
    && (forall i :: 0 <= i < p.count ==>
          var m := p.machines[i];
          && 1 <= |m.identifier| <= 36 && (m.enabled ==> !m.revoked)
          && m.credentialVersion > 0 && m.securityEpoch > 0 && m.principalRevision > 0
          && env.formatValid(m))
    && (forall i, j :: 0 <= i < p.count && 0 <= j < p.count && i != j ==>
          p.machines[i].identifier != p.machines[j].identifier)
    && (forall i :: p.count <= i < 16 ==> p.machines[i] == NO_MACHINE)
  }

  /** A slot that was written to the end and reads back as it was written. */
  predicate Whole(env: Environment, r: Read) {
    && r.Got?
    && r.slot.magic == 0x41524d34 && r.slot.schema == 1 && r.slot.wholeLength
    && r.slot.generation > 0 && r.slot.marker == 0x4d434c54
    && r.slot.crc == env.crc(r.slot.payload) && Sound(env, r.slot.payload)
  }

  lemma SoundIsValid(env: Environment, p: Payload)
    ensures Sound(env, p) <==> PayloadValid(env, p)
  {
    if Sound(env, p) {
      forall i | 0 <= i < p.count
        ensures MachineValid(env, p.machines[i])
      {
        var m := p.machines[i];
        assert 1 <= |m.identifier| <= 36;
      }
    }
    if PayloadValid(env, p) {
      forall i | 0 <= i < p.count
        ensures 1 <= |p.machines[i].identifier| <= 36
        ensures p.machines[i].enabled ==> !p.machines[i].revoked
        ensures p.machines[i].credentialVersion > 0 && p.machines[i].securityEpoch > 0
        ensures p.machines[i].principalRevision > 0 && env.formatValid(p.machines[i])
      {
        assert MachineValid(env, p.machines[i]);
      }
    }
  }

  lemma WholeIsValid(env: Environment, r: Read)
    ensures Whole(env, r) <==> ReadsValid(env, r)
  {
    if r.Got? {
      SoundIsValid(env, r.slot.payload);
    }
    hide Sound, PayloadValid;
  }

  predicate Names(selector: Option<uint8>, i: nat) {
    selector.Some? && selector.value == i
  }

  /** The slot a boot goes on with, if it finds one whole: the one a usable selector names,
      otherwise the one with the larger generation, the first on a tie. */
  function Newest(env: Environment, f: Flash): (i: nat)
    requires Whole(env, f.a) || Whole(env, f.b)
    ensures i <= 1 && Whole(env, if i == 0 then f.a else f.b)
  {
    if !Whole(env, f.b) then 0
    else if !Whole(env, f.a) then 1
    else if Names(f.selector, 0) then 0
    else if Names(f.selector, 1) then 1
    else if f.a.slot.generation >= f.b.slot.generation then 0 else 1
  }

  /** A boot that can read both slots and finds one whole loads that one, and repairs the
      selector exactly when it did not name it. */
  lemma BootsExactly(env: Environment, d: Device, fate: Fate)
    requires d.flash.a != Failed && d.flash.b != Failed
    requires Whole(env, d.flash.a) || Whole(env, d.flash.b)
    ensures var (status, after) := Boot(env, d, fate);
            var i := Newest(env, d.flash);
            var slot := (if i == 0 then d.flash.a else d.flash.b).slot;
            var named := Names(d.flash.selector, i);
            && after.mem == Memory(slot.payload, slot.generation, i, true,
                                   !Whole(env, d.flash.a) || !Whole(env, d.flash.b))
            && after.flash.a == d.flash.a && after.flash.b == d.flash.b
            && after.flash.selector == (if named then d.flash.selector else fate.selectorAfter)
            && status == if named || fate.selectorWritten then Ok else IoError
  {
    WholeIsValid(env, d.flash.a);
    WholeIsValid(env, d.flash.b);
    hide SlotValid, Whole;
  }

  /** Otherwise it fails closed: an unreadable slot, the schema of other firmware, or a slot
      that is there and not whole; only a device without any slot is formatted. */
  lemma FailsClosedExactly(env: Environment, d: Device, fate: Fate)
    requires || d.flash.a == Failed || d.flash.b == Failed
             || (!Whole(env, d.flash.a) && !Whole(env, d.flash.b))
    ensures var (status, after) := Boot(env, d, fate);
            var foreign :=
              || (d.flash.a.Got? && d.flash.a.slot.magic == 0x41524d34
                  && d.flash.a.slot.schema != 1)
              || (d.flash.b.Got? && d.flash.b.slot.magic == 0x41524d34
                  && d.flash.b.slot.schema != 1);
            if d.flash.a == Missing && d.flash.b == Missing then
              (status, after)
              == Commit(env, d.(mem := d.mem.(payload := EmptyPayload(), generation := 0,
                                              ready := true)), EmptyPayload(), 0, fate)
            else
              && after == d.(mem := d.mem.(ready := false))
              && status == if d.flash.a == Failed || d.flash.b == Failed then InvalidState
                           else if foreign then NotSupported else InvalidCrc
  {
    WholeIsValid(env, d.flash.a);
    WholeIsValid(env, d.flash.b);
    hide SlotValid, Whole;
  }

  /** A commit is let through exactly when the directory is ready, the payload is sound and
      the caller edited the current generation; and it succeeds exactly when the slot reads
      back whole as written and the selector reports success. */
  lemma CommitSucceedsExactly(env: Environment, d: Device, p: Payload, expected: uint32, fate: Fate)
    ensures var allowed := d.mem.ready && Sound(env, p) && expected == d.mem.generation;
            var g: uint32 := if d.mem.generation == 0xFFFF_FFFF then 1 else d.mem.generation + 1;
            var slot := Slot(0x41524d34, 1, true, g, env.crc(p), 0x4d434c54, p);
            var i := if d.mem.generation == 0 || d.mem.active != 0 then 0 else 1;
            var (status, after) := Commit(env, d, p, expected, fate);
            && (status == InvalidState <==> !allowed)
            && (status == Ok <==>
                  allowed && fate.slotWritten && fate.slotRead && fate.slotAfter == Got(slot)
                  && fate.selectorWritten)
            && (status == InvalidCrc <==>
                  allowed && fate.slotWritten && fate.slotRead && fate.slotAfter.Got?
                  && fate.slotAfter.slot != slot)
            && after.mem == (if status != Ok then d.mem
                             else Memory(p, g, i, d.mem.ready, false))
            && after.flash.a == (if allowed && i == 0 then fate.slotAfter else d.flash.a)
            && after.flash.b == (if allowed && i == 1 then fate.slotAfter else d.flash.b)
  {
    SoundIsValid(env, p);
    hide Sound, PayloadValid;
  }

  // ------------------------------------------------------------ after a power loss, exactly

  function Other(slot: nat): nat {
    if slot == 0 then 1 else 0
  }

  /** While the service runs, the selector names its slot, or the other slot is not whole,
      or it is one commit ahead. */
  predicate Ordered(env: Environment, s: System) {
    (s.phase == Running || s.phase.Selecting?) ==>
      var other := SlotAt(s.d.flash, Other(s.d.mem.active));
      || Names(s.d.flash.selector, s.d.mem.active)
      || !ReadsValid(env, other) || other.slot.generation == NextGeneration(s.d.mem.generation)
  }

  lemma MirroredTarget(env: Environment, s: System)
    requires Inv(env, s) && s.phase != Off
    ensures s.d.mem.active <= 1 && s.d.mem.generation != 0
    ensures Target(s.d.mem) == Other(s.d.mem.active)
  {
  }

  lemma StepKeepsOrder(env: Environment, s: System, e: Event)
    requires Inv(env, s) && Ordered(env, s)
    ensures Ordered(env, Step(env, s, e))
  {
    if s.phase != Off {
      MirroredTarget(env, s);
    }
    hide PayloadValid;
  }

  lemma {:induction false} ReachableOrder(
    env: Environment, states: seq<System>, evs: seq<Event>, k: nat)
    requires Run(env, states, evs) && k < |states| && Provisioned(env, states[0])
    ensures Ordered(env, states[k])
    decreases k
  {
    hide Inv, Step, Ordered;
    if k == 0 {
      StartIsOrdered(env, states[0]);
    } else {
      ReachableOrder(env, states, evs, k - 1);
      ReachableInv(env, states, evs, k - 1);
      var e := evs[k - 1];
      StepKeepsOrder(env, states[k - 1], e);
    }
  }

  lemma StartIsOrdered(env: Environment, s: System)
    requires Provisioned(env, s)
    ensures Ordered(env, s)
  {
  }

  /** What the next boot has in memory if the power goes now. */
  function AfterLoss(env: Environment, s: System): Memory {
    Step(env, Step(env, s, PowerLoss), PowerUp).d.mem
  }

  /** In every run, while generations do not wrap: a boot after a power loss finds what the
      other slot holds, one generation ahead, exactly when that slot is whole and the
      selector does not name the service's own slot; and otherwise exactly what the service
      had in memory. */
  lemma LossExactly(env: Environment, states: seq<System>, evs: seq<Event>, k: nat)
    requires Run(env, states, evs) && k < |states| && Provisioned(env, states[0])
    requires states[k].phase == Running || states[k].phase.Selecting?
    requires states[k].d.mem.generation < TWO_32 - 1
    ensures var mem, f := states[k].d.mem, states[k].d.flash;
            var other := if mem.active == 0 then f.b else f.a;
            var found := AfterLoss(env, states[k]);
            && mem.active <= 1
            && if Whole(env, other) && !Names(f.selector, mem.active)
               then found.generation == mem.generation + 1 && found.payload == other.slot.payload
               else found.generation == mem.generation && found.payload == mem.payload
  {
    ReachableInv(env, states, evs, k);
    ReachableOrder(env, states, evs, k);
    var s := states[k];
    MirroredTarget(env, s);
    WholeIsValid(env, SlotAt(s.d.flash, Other(s.d.mem.active)));
    hide SlotValid, Whole;
  }

  /** The commit of `p` has been written to its slot, and perhaps to the selector, without
      being acknowledged: what may be in the slot. */
  lemma CommitInFlight(
    env: Environment, states: seq<System>, evs: seq<Event>, k: nat, n: nat)
    requires Run(env, states, evs) && k < |evs| && Inv(env, states[k])
    requires states[k].phase == Running && evs[k].Write?
    requires CommitAllowed(env, states[k].d.mem, evs[k].p, evs[k].expected)
    requires SlotFate(env, SlotAt(states[k].d.flash, Target(states[k].d.mem)),
                      NewSlot(env, states[k].d.mem, evs[k].p), evs[k].fate.slotAfter)
    requires n == k + 1 || (n == k + 2 && n < |states| && evs[k + 1].Choose?
                            && states[n].d.mem == states[k].d.mem)
    ensures var other := Other(states[k].d.mem.active);
            var now := SlotAt(states[n].d.flash, other);
            var before := SlotAt(states[k].d.flash, other);
            var slot := NewSlot(env, states[k].d.mem, evs[k].p);
            && SlotValid(env, slot)
            && (now == Got(slot) || now == before || !ReadsValid(env, now))
            && (states[n].phase == Running || states[n].phase.Selecting?)
            && states[n].d.mem == states[k].d.mem
  {
    MirroredTarget(env, states[k]);
    assert states[k + 1] == Step(env, states[k], evs[k]);
    if n == k + 2 {
      assert states[n] == Step(env, states[k + 1], evs[k + 1]);
    }
    hide PayloadValid;
  }

  /** So when the power goes during a commit, after its slot write or after its selector
      write, the next boot finds the new payload exactly when its slot is whole and the
      selector does not still name the old slot. It finds the previous payload otherwise,
      but for one case: the slot write left no trace, and an earlier commit that reported
      failure is still whole in the slot. */
  lemma LossDuringCommitExactly(
    env: Environment, states: seq<System>, evs: seq<Event>, k: nat, n: nat)
    requires Run(env, states, evs) && k < |evs| && Provisioned(env, states[0])
    requires states[k].phase == Running && evs[k].Write?
    requires CommitAllowed(env, states[k].d.mem, evs[k].p, evs[k].expected)
    requires SlotFate(env, SlotAt(states[k].d.flash, Target(states[k].d.mem)),
                      NewSlot(env, states[k].d.mem, evs[k].p), evs[k].fate.slotAfter)
    requires n == k + 1 || (n == k + 2 && n < |states| && evs[k + 1].Choose?
                            && states[n].d.mem == states[k].d.mem)
    requires states[k].d.mem.generation < TWO_32 - 1
    ensures var mem, f := states[k].d.mem, states[n].d.flash;
            var found := AfterLoss(env, states[n]);
            var slot := Got(NewSlot(env, mem, evs[k].p));
            var before, now := SlotAt(states[k].d.flash, Other(mem.active)), SlotAt(f, Other(mem.active));
            var whole, earlier := now == slot, now == before && Whole(env, before);
            if Names(f.selector, mem.active) || (!whole && !earlier) then
              found.payload == mem.payload && found.generation == mem.generation
            else if whole then
              found.payload == evs[k].p && found.generation == mem.generation + 1
            else
              found.payload == before.slot.payload && found.generation == mem.generation + 1
  {
    ReachableInv(env, states, evs, k);
    CommitInFlight(env, states, evs, k, n);
    LossExactly(env, states, evs, n);
    WholeIsValid(env, SlotAt(states[n].d.flash, Other(states[k].d.mem.active)));
    hide Step, AfterLoss, SlotValid, Whole, Run, Inv;
  }

  /** That case happens: a commit whose selector write left the selector unreadable, another
      one whose slot write left no trace, and the power lost. */
  lemma EarlierAttemptReturns(env: Environment, s: System, p: Payload, q: Payload)
    returns (states: seq<System>, evs: seq<Event>)
    requires Inv(env, s) && Ordered(env, s) && s.phase == Running
    requires s.d.mem.generation < TWO_32 - 1
    requires PayloadValid(env, p) && PayloadValid(env, q)
    ensures Run(env, states, evs) && states[0] == s && |evs| == 5
    ensures evs[2].Write? && evs[2].p == q && states[2].phase == Running
    ensures states[5].d.mem.payload == p && states[5].d.mem.generation == s.d.mem.generation + 1
  {
    MirroredTarget(env, s);
    var g := s.d.mem.generation;
    var slot := NewSlot(env, s.d.mem, p);
    var kept := Fate(Got(slot), true, true, None, false);
    var lost := Fate(Got(slot), false, false, None, false);
    evs := [Write(p, g, kept), Choose(kept), Write(q, g, lost), PowerLoss, PowerUp];
    hide PayloadValid;
    var s1 := Step(env, s, evs[0]);
    var s2 := Step(env, s1, evs[1]);
    var s3 := Step(env, s2, evs[2]);
    var s4 := Step(env, s3, evs[3]);
    states := [s, s1, s2, s3, s4, Step(env, s4, evs[4])];
  }
}
