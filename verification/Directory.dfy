/** The machine directory: one payload kept in two flash slots and a selector.
    Every write may be cut short; a slot that was cut short reads as missing or as
    one that fails its own checks. */
module Directory {
  import opened Words

  const MAX_MACHINES: nat := 16
  const SCHEMA_VERSION: nat := 1
  const MAGIC: nat := 0x41524d34
  const VALID_MARKER: nat := 0x4d434c54
  const ID_MAX: nat := 36

  datatype Machine = Machine(
    recordVersion: nat, enabled: bool, revoked: bool, clientType: nat,
    transports: set<nat>, interfaces: set<nat>,
    identifier: string, displayName: string, scope: string, topicScope: string, apiScope: string,
    enrolledBy: string, permissions: set<nat>,
    credentialVersion: uint32, securityEpoch: uint32, principalRevision: uint32,
    verifier: seq<nat>)

  const NO_MACHINE := Machine(0, false, false, 0, {}, {}, "", "", "", "", "", "", {}, 0, 0, 0, [])

  datatype Payload = Payload(schema: nat, count: nat, reserved: nat, machines: seq<Machine>)

  datatype Slot = Slot(
    magic: nat, schema: nat, wholeLength: bool, generation: uint32, crc: uint32, marker: nat,
    payload: Payload)

  /** The checksum, and the format checks of a record that no operation depends on. */
  datatype Environment = Environment(crc: Payload -> uint32, formatValid: Machine -> bool)

  predicate MachineValid(env: Environment, m: Machine) {
    && !(m.enabled && m.revoked)
    && 0 < |m.identifier| <= ID_MAX
    && m.credentialVersion != 0 && m.securityEpoch != 0 && m.principalRevision != 0
    && env.formatValid(m)
  }

  predicate DistinctIds(p: Payload)
    requires p.count <= |p.machines|
  {
    forall i, j :: 0 <= j < i < p.count ==> p.machines[i].identifier != p.machines[j].identifier
  }

  /** Identifiers are unique and everything past the count is zero. */
  predicate PayloadValid(env: Environment, p: Payload) {
    && p.schema == SCHEMA_VERSION && p.reserved == 0
    && |p.machines| == MAX_MACHINES && p.count <= MAX_MACHINES
    && (forall i :: 0 <= i < p.count ==> MachineValid(env, p.machines[i]))
    && DistinctIds(p)
    && (forall i :: p.count <= i < MAX_MACHINES ==> p.machines[i] == NO_MACHINE)
  }

  method CheckPayload(env: Environment, p: Payload) returns (valid: bool)
    requires |p.machines| == MAX_MACHINES
    ensures valid == PayloadValid(env, p)
  {
    if p.schema != SCHEMA_VERSION || p.count > MAX_MACHINES || p.reserved != 0 {
      return false;
    }
    var i := 0;
    while i < MAX_MACHINES
      invariant 0 <= i <= MAX_MACHINES
      invariant forall k :: 0 <= k < i && k < p.count ==> MachineValid(env, p.machines[k])
      invariant forall k, l :: 0 <= l < k < i && k < p.count ==>
                  p.machines[k].identifier != p.machines[l].identifier
      invariant forall k :: p.count <= k < i ==> p.machines[k] == NO_MACHINE
    {
      if i >= p.count {
        if p.machines[i] != NO_MACHINE {
          return false;
        }
      } else {
        if !MachineValid(env, p.machines[i]) {
          return false;
        }
        var j := 0;
        while j < i
          invariant 0 <= j <= i
          invariant forall l :: 0 <= l < j ==>
                      p.machines[i].identifier != p.machines[l].identifier
        {
          if p.machines[i].identifier == p.machines[j].identifier {
            return false;
          }
          j := j + 1;
        }
      }
      i := i + 1;
    }
    return true;
  }

  predicate SlotValid(env: Environment, s: Slot) {
    && s.magic == MAGIC && s.schema == SCHEMA_VERSION && s.wholeLength
    && s.generation != 0 && s.marker == VALID_MARKER
    && s.crc == env.crc(s.payload) && PayloadValid(env, s.payload)
  }

  /** What reading a slot gives. */
  datatype Read = Missing | Failed | Got(slot: Slot)

  /** `selector` is None when it cannot be read. */
  datatype Flash = Flash(a: Read, b: Read, selector: Option<uint8>)

  function SlotAt(f: Flash, i: nat): Read {
    if i == 0 then f.a else f.b
  }

  function WithSlot(f: Flash, i: nat, r: Read): Flash {
    if i == 0 then f.(a := r) else f.(b := r)
  }

  predicate ReadsValid(env: Environment, r: Read) {
    r.Got? && SlotValid(env, r.slot)
  }

  datatype Status = Ok | NotFound | InvalidState | NotSupported | InvalidCrc | IoError

  datatype Selection =
    | Selected(slot: nat, payload: Payload, generation: uint32, repair: bool)
    | Unselected(status: Status)

  predicate ForeignSchema(r: Read) {
    r.Got? && r.slot.magic == MAGIC && r.slot.schema != SCHEMA_VERSION
  }

  predicate SelectorUsable(env: Environment, f: Flash) {
    f.selector.Some? && f.selector.value <= 1 && ReadsValid(env, SlotAt(f, f.selector.value))
  }

  function Chosen(env: Environment, f: Flash): (slot: nat)
    requires ReadsValid(env, f.a) || ReadsValid(env, f.b)
    ensures slot <= 1 && ReadsValid(env, SlotAt(f, slot))
  {
    if SelectorUsable(env, f) then f.selector.value
    else if ReadsValid(env, f.a) && ReadsValid(env, f.b)
    then (if f.b.slot.generation > f.a.slot.generation then 1 else 0)
    else if ReadsValid(env, f.a) then 0 else 1
  }

  function Select(env: Environment, f: Flash): Selection {
    if f.a == Missing && f.b == Missing then Unselected(NotFound)
    else if f.a == Failed || f.b == Failed then Unselected(InvalidState)
    else if !ReadsValid(env, f.a) && !ReadsValid(env, f.b)
    then Unselected(if ForeignSchema(f.a) || ForeignSchema(f.b) then NotSupported else InvalidCrc)
    else
      var chosen := Chosen(env, f);
      var slot := SlotAt(f, chosen).slot;
      Selected(chosen, slot.payload, slot.generation, !SelectorUsable(env, f))
  }

  /** What the running device holds in memory. */
  datatype Memory = Memory(
    payload: Payload, generation: uint32, active: nat, ready: bool, degraded: bool)

  datatype Device = Device(flash: Flash, mem: Memory)

  /** The fate of a commit's writes: what the slot and the selector read as
      afterwards, and which of the three flash calls reported success. */
  datatype Fate = Fate(
    slotAfter: Read, slotWritten: bool, slotRead: bool,
    selectorAfter: Option<uint8>, selectorWritten: bool)

  /** A slot write completes, does nothing, or leaves a slot that is not valid. */
  predicate SlotFate(env: Environment, before: Read, slot: Slot, after: Read) {
    after == Got(slot) || after == before || (after != Failed && !ReadsValid(env, after))
  }

  /** A selector write completes, does nothing, or leaves it unreadable; success
      means it completed. */
  predicate SelectorFate(before: Option<uint8>, value: uint8, after: Option<uint8>, ok: bool) {
    (after == Some(value) || after == before || after == None) && (ok ==> after == Some(value))
  }

  function NextGeneration(g: uint32): (next: uint32)
    ensures next != 0
  {
    if g == TWO_32 - 1 then 1 else g + 1
  }

  function Target(mem: Memory): nat {
    if mem.generation == 0 then 0 else if mem.active == 0 then 1 else 0
  }

  function NewSlot(env: Environment, mem: Memory, p: Payload): Slot {
    Slot(MAGIC, SCHEMA_VERSION, true, NextGeneration(mem.generation), env.crc(p), VALID_MARKER, p)
  }

  predicate CommitAllowed(env: Environment, mem: Memory, p: Payload, expected: uint32) {
    mem.ready && PayloadValid(env, p) && expected == mem.generation
  }

  /** The first half of a commit: the slot that is not active is written and read back. */
  function WriteSlot(env: Environment, d: Device, p: Payload, expected: uint32, fate: Fate)
    : (Status, Device)
  {
    if !CommitAllowed(env, d.mem, p, expected) then (InvalidState, d)
    else
      var slot := NewSlot(env, d.mem, p);
      var d' := d.(flash := WithSlot(d.flash, Target(d.mem), fate.slotAfter));
      if !fate.slotWritten || !fate.slotRead || !fate.slotAfter.Got? then (IoError, d')
      else if !SlotValid(env, fate.slotAfter.slot) || fate.slotAfter.slot != slot
      then (InvalidCrc, d')
      else (Ok, d')
  }

  /** The second half: the selector is written, and only then does memory change. */
  function WriteSelector(env: Environment, d: Device, p: Payload, fate: Fate): (Status, Device) {
    var d' := d.(flash := d.flash.(selector := fate.selectorAfter));
    if !fate.selectorWritten then (IoError, d')
    else
      (Ok, d'.(mem := Memory(p, NextGeneration(d.mem.generation), Target(d.mem), d.mem.ready, false)))
  }

  function Commit(env: Environment, d: Device, p: Payload, expected: uint32, fate: Fate)
    : (Status, Device)
  {
    var (status, d') := WriteSlot(env, d, p, expected, fate);
    if status != Ok then (status, d') else WriteSelector(env, d', p, fate)
  }

  function EmptyPayload(): Payload {
    Payload(SCHEMA_VERSION, 0, 0, seq(MAX_MACHINES, _ => NO_MACHINE))
  }

  function Loaded(env: Environment, d: Device): Device {
    var s := Select(env, d.flash);
    match s
    case Selected(slot, payload, generation, _) =>
      var both := ReadsValid(env, d.flash.a) && ReadsValid(env, d.flash.b);
      d.(mem := Memory(payload, generation, slot, true, !both))
    case Unselected(status) =>
      if status == NotFound
      then d.(mem := Memory(EmptyPayload(), 0, d.mem.active, true, d.mem.degraded))
      else d.(mem := d.mem.(ready := false))
  }

  function Boot(env: Environment, d: Device, fate: Fate): (Status, Device) {
    var s := Select(env, d.flash);
    var loaded := Loaded(env, d);
    match s
    case Selected(slot, _, _, repair) =>
      if !repair then (Ok, loaded)
      else
        (if fate.selectorWritten then Ok else IoError,
         loaded.(flash := d.flash.(selector := fate.selectorAfter)))
    case Unselected(status) =>
      if status == NotFound then Commit(env, loaded, EmptyPayload(), 0, fate)
      else (status, loaded)
  }

  /** The flash slots, the selector and the variables the firmware keeps. A method's
      `fate` is what the flash does to its writes. */
  class MachineDirectory {
    const env: Environment
    var slots: array<Read>
    var selector: Option<uint8>
    var payload: Payload
    var generation: uint32
    var activeSlot: nat
    var ready: bool
    var degraded: bool

    ghost predicate Valid()
      reads this
    {
      slots.Length == 2 && activeSlot <= 1 && |payload.machines| == MAX_MACHINES
    }

    ghost function View(): Device
      reads this, slots
      requires slots.Length == 2
    {
      Device(Flash(slots[0], slots[1], selector),
             Memory(payload, generation, activeSlot, ready, degraded))
    }

    constructor (env: Environment, a: Read, b: Read, selector: Option<uint8>)
      ensures Valid() && this.env == env && fresh(slots)
      ensures View() == Device(Flash(a, b, selector), Memory(EmptyPayload(), 0, 0, false, false))
    {
      this.env := env;
      this.selector := selector;
      slots := new Read[2](i => if i == 0 then a else b);
      payload, generation, activeSlot, ready, degraded := EmptyPayload(), 0, 0, false, false;
    }

    method CommitLocked(p: Payload, expected: uint32, fate: Fate) returns (status: Status)
      requires Valid() && |p.machines| == MAX_MACHINES
      modifies this, slots
      ensures Valid() && slots == old(slots)
      ensures (status, View()) == Commit(env, old(View()), p, expected, fate)
    {
      var valid := CheckPayload(env, p);
      if !ready || !valid || expected != generation {
        return InvalidState;
      }
      var target := if generation == 0 then 0 else if activeSlot == 0 then 1 else 0;
      var next: uint32 := if generation == TWO_32 - 1 then 0 else generation + 1;
      if next == 0 {
        next := 1;
      }
      var slot := Slot(MAGIC, SCHEMA_VERSION, true, next, env.crc(p), VALID_MARKER, p);
      slots[target] := fate.slotAfter;
      if !fate.slotWritten || !fate.slotRead || !slots[target].Got? {
        return IoError;
      }
      if !SlotValid(env, slots[target].slot) || slots[target].slot != slot {
        return InvalidCrc;
      }
      selector := fate.selectorAfter;
      if !fate.selectorWritten {
        return IoError;
      }
      payload, generation, activeSlot, degraded := p, next, target, false;
      return Ok;
    }

    method Init(fate: Fate) returns (status: Status)
      requires Valid()
      modifies this, slots
      ensures Valid() && slots == old(slots)
      ensures (status, View()) == Boot(env, old(View()), fate)
    {
      var flash := Flash(slots[0], slots[1], selector);
      match Select(env, flash)
      case Selected(slot, p, g, repair) =>
        payload, generation, activeSlot, ready := p, g, slot, true;
        degraded := !(ReadsValid(env, slots[0]) && ReadsValid(env, slots[1]));
        if !repair {
          return Ok;
        }
        selector := fate.selectorAfter;
        status := if fate.selectorWritten then Ok else IoError;
      case Unselected(reason) =>
        if reason != NotFound {
          ready := false;
          return reason;
        }
        payload, generation, ready := EmptyPayload(), 0, true;
        status := CommitLocked(payload, 0, fate);
    }
  }
}
