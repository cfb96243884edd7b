/** Whole runs of machine management: any number of operators prepare edits from
    snapshots of any age, and the directory lands those whose generation is current. */
module MachineRuns {
  import opened Words
  import opened Directory
  import opened MachineService
  import Subscription

  /** An edit on its way to the directory. */
  datatype Pending = Pending(op: Operation, payload: Payload, expected: uint32)

  datatype System = System(p: Payload, g: uint32, inFlight: set<Pending>)

  /** `stored` is whether the flash kept the commit; a commit that was kept but not
      acknowledged lands when the device next boots. */
  datatype Event =
    | Prepare(actor: Actor, op: Operation)
    | Land(edit: Pending, stored: bool)

  function DoPrepare(s: System, actor: Actor, op: Operation): System
    requires WellFormed(s.p)
  {
    var edit := EditOf(s.p, s.g, actor, op);
    if edit.Refused? then s
    else s.(inFlight := s.inFlight + {Pending(op, edit.payload, s.g)})
  }

  predicate Lands(env: Environment, s: System, edit: Pending, stored: bool) {
    edit in s.inFlight && stored && edit.expected == s.g && PayloadValid(env, edit.payload)
  }

  function DoLand(env: Environment, s: System, edit: Pending, stored: bool): System {
    var left := s.inFlight - {edit};
    if Lands(env, s, edit, stored) then System(edit.payload, NextGeneration(s.g), left)
    else s.(inFlight := left)
  }

  function Step(env: Environment, s: System, e: Event): System
    requires WellFormed(s.p)
  {
    match e
    case Prepare(actor, op) => DoPrepare(s, actor, op)
    case Land(edit, stored) => DoLand(env, s, edit, stored)
  }

  /** A directory whose records were all stamped by a commit up to this generation. */
  predicate Consistent(env: Environment, s: System) {
    && PayloadValid(env, s.p) && s.g != 0
    && forall i :: 0 <= i < s.p.count ==> s.p.machines[i].securityEpoch <= s.g
  }

  /** Generations are taken not to wrap; see OnlyDeletionCanWrap. */
  ghost predicate Run(env: Environment, states: seq<System>, evs: seq<Event>) {
    && |states| == |evs| + 1
    && Consistent(env, states[0]) && states[0].inFlight == {}
    && (forall k {:trigger evs[k]} :: 0 <= k < |evs| ==>
          WellFormed(states[k].p) && states[k + 1] == Step(env, states[k], evs[k]))
    && (forall k :: 0 <= k < |states| ==> states[k].g < TWO_32 - 1)
  }

  // ------------------------------------------------------------ one edit

  predicate Has(p: Payload, m: Machine)
    requires WellFormed(p)
  {
    exists i :: 0 <= i < p.count && p.machines[i] == m
  }

  /** What one edit may do: leave records alone or restamp them, never revive one. */
  predicate Successor(p: Payload, g: uint32, op: Operation, q: Payload)
    requires WellFormed(p)
  {
    && WellFormed(q)
    && (forall j :: 0 <= j < q.count ==>
          Has(p, q.machines[j]) || q.machines[j].securityEpoch == Inc32(g))
    && (forall i, j ::
          (0 <= i < p.count && 0 <= j < q.count && p.machines[i].revoked
           && p.machines[i].identifier == q.machines[j].identifier) ==> q.machines[j].revoked)
    && (!op.Enroll? ==> forall j :: 0 <= j < q.count && q.machines[j].identifier == op.id ==>
          q.machines[j].securityEpoch == Inc32(g))
  }

  lemma FindIsUnique(p: Payload, i: nat)
    requires WellFormed(p) && DistinctIds(p) && i < p.count
    ensures Find(p, p.machines[i].identifier) == i
  {
  }

  lemma RemovalIsSuccessor(p: Payload, g: uint32, op: Operation)
    requires WellFormed(p) && DistinctIds(p) && op.Delete? && Find(p, op.id) < p.count
    ensures Successor(p, g, op, Removed(p, Find(p, op.id)))
  {
    var q := Removed(p, Find(p, op.id));
    forall j | 0 <= j < q.count
      ensures Has(p, q.machines[j]) && q.machines[j].identifier != op.id
    {
      assert q.machines[j] == p.machines[j] || q.machines[j] == p.machines[p.count - 1];
    }
  }

  lemma ChangeIsSuccessor(p: Payload, g: uint32, op: Operation, at: nat)
    requires WellFormed(p) && DistinctIds(p) && !op.Enroll? && !op.Delete?
    requires at == Find(p, op.id) < p.count && !RefusesRecord(p.machines[at], op)
    ensures Successor(p, g, op, p.(machines := p.machines[at := Changed(p.machines[at], g, op)]))
  {
    var q := p.(machines := p.machines[at := Changed(p.machines[at], g, op)]);
    forall j | 0 <= j < q.count && j != at
      ensures Has(p, q.machines[j]) && q.machines[j].identifier != op.id
    {
      assert q.machines[j] == p.machines[j];
    }
  }

  lemma EditIsSuccessor(p: Payload, g: uint32, actor: Actor, op: Operation)
    requires WellFormed(p) && DistinctIds(p)
    requires EditOf(p, g, actor, op).Edited?
    ensures Successor(p, g, op, EditOf(p, g, actor, op).payload)
  {
    if !op.Enroll? {
      hide Successor, Removed, Changed, RefusesRecord;
      if op.Delete? {
        RemovalIsSuccessor(p, g, op);
      } else {
        ChangeIsSuccessor(p, g, op, Find(p, op.id));
      }
    }
  }

  /** Deletion removes exactly the one record, wherever the others end up. */
  lemma DeletionRemovesExactly(p: Payload, g: uint32, actor: Actor, id: string, m: Machine)
    requires WellFormed(p) && DistinctIds(p) && EditOf(p, g, actor, Delete(id)).Edited?
    ensures var q := EditOf(p, g, actor, Delete(id)).payload;
            && q.count == p.count - 1
            && (Has(q, m) <==> Has(p, m) && m.identifier != id)
    ensures p.machines[Find(p, id)].revoked
  {
    var at, q := Find(p, id), Removed(p, Find(p, id));
    if Has(p, m) && m.identifier != id {
      var i :| 0 <= i < p.count && p.machines[i] == m;
      var j := if i == p.count - 1 then at else i;
      assert q.machines[j] == m;
    }
    if Has(q, m) {
      var j :| 0 <= j < q.count && q.machines[j] == m;
      var i := if j == at then p.count - 1 else j;
      assert p.machines[i] == m && i != at;
    }
  }

  /** Enrolment adds exactly one record: enabled, under an identifier nobody had. */
  lemma EnrollmentAddsExactly(p: Payload, g: uint32, actor: Actor, op: Operation, m: Machine)
    requires WellFormed(p) && op.Enroll? && EditOf(p, g, actor, op).Edited?
    ensures var q := EditOf(p, g, actor, op).payload;
            && q.count == p.count + 1
            && var added := q.machines[p.count];
               && (Has(q, m) <==> Has(p, m) || m == added)
               && Find(p, added.identifier) == p.count
               && added.identifier in op.candidates
               && added.enabled && !added.revoked && added.verifier == op.verifier
               && added.enrolledBy == actor.identifier
               && added.securityEpoch == Inc32(g)
               && added.credentialVersion == added.principalRevision == added.recordVersion == 1
               && var r := op.request;
                  && added.permissions == r.permissions && added.clientType == r.clientType
                  && added.transports == r.transports && added.interfaces == r.interfaces
                  && added.displayName == r.displayName && added.scope == r.scope
                  && added.topicScope == r.topicScope && added.apiScope == r.apiScope
  {
    FreshIdIsDrawn(p, op.candidates);
    var q := EditOf(p, g, actor, op).payload;
    if Has(p, m) {
      var i :| 0 <= i < p.count && p.machines[i] == m;
      assert q.machines[i] == m;
    }
    if Has(q, m) {
      var j :| 0 <= j < q.count && q.machines[j] == m;
      assert j < p.count ==> p.machines[j] == m;
    }
    assert q.machines[p.count] == q.machines[q.count - 1];
  }

  /** Every other operation touches its own record only, and in it only what it is for. */
  lemma ChangeIsConfined(p: Payload, g: uint32, actor: Actor, op: Operation)
    requires WellFormed(p) && !op.Enroll? && !op.Delete? && EditOf(p, g, actor, op).Edited?
    ensures var q, at := EditOf(p, g, actor, op).payload, Find(p, op.id);
            && at < p.count == q.count
            && (forall j :: 0 <= j < MAX_MACHINES && j != at ==> q.machines[j] == p.machines[j])
            && var m, n := p.machines[at], q.machines[at];
               && n.(enabled := m.enabled, revoked := m.revoked, verifier := m.verifier,
                     permissions := m.permissions, credentialVersion := m.credentialVersion,
                     principalRevision := m.principalRevision, securityEpoch := m.securityEpoch)
                  == m
               && (n.verifier != m.verifier ==> op.Rotate?)
               && (n.permissions != m.permissions ==> op.SetPermissions?)
               && (n.enabled && !m.enabled ==> op.SetEnabled? && op.on && !m.revoked)
               && (op.Revoke? ==> n.revoked && !n.enabled) && (m.revoked ==> n.revoked)
               && (op.Quarantine? ==> !n.enabled)
               && n.principalRevision != m.principalRevision
               && (n.credentialVersion != m.credentialVersion <==> op.Rotate? || op.Revoke?)
  {
  }

  /** And does its work: the record holds the new verifier after a rotation, is enabled or
      disabled as asked, has exactly the permissions granted, is revoked and disabled after a
      revocation and disabled after a quarantine; every other field of it stays, but for the
      stamps, which name the commit and a later version. */
  lemma ChangeDoesExactly(p: Payload, g: uint32, actor: Actor, op: Operation)
    requires WellFormed(p) && !op.Enroll? && !op.Delete? && EditOf(p, g, actor, op).Edited?
    ensures var q, at := EditOf(p, g, actor, op).payload, Find(p, op.id);
            at < p.count == q.count && |q.machines| == MAX_MACHINES &&
            var m, n := p.machines[at], q.machines[at];
            && n == m.(
                 verifier := if op.Rotate? then op.newVerifier else m.verifier,
                 permissions := if op.SetPermissions? then op.granted else m.permissions,
                 enabled := if op.SetEnabled? then op.on
                            else m.enabled && !op.Revoke? && !op.Quarantine?,
                 revoked := m.revoked || op.Revoke?,
                 credentialVersion := n.credentialVersion,
                 principalRevision := n.principalRevision,
                 securityEpoch := Inc32(g))
            && n.principalRevision == (if m.principalRevision == 0xFFFF_FFFF then 1
                                       else m.principalRevision + 1)
            && n.credentialVersion == (if !op.Rotate? && !op.Revoke? then m.credentialVersion
                                       else if m.credentialVersion == 0xFFFF_FFFF then 1
                                       else m.credentialVersion + 1)
  {
  }

  // ------------------------------------------------------------ what is refused

  /** The actor has the permission the operation requires and a scope that holds the
      target: everything, the target itself, or everything with its prefix. */
  predicate Manages(actor: Actor, target: string) {
    && actor.permitted
    && (|| (actor.scope == "*" && target != "")
        || actor.scope == target
        || (|actor.scope| > 1 && actor.scope[|actor.scope| - 1] == '*'
            && actor.scope[..|actor.scope| - 1] <= target))
  }

  /** The permissions may be given to a machine by this actor. */
  predicate Grantable(actor: Actor, permissions: set<nat>) {
    forall b :: b in permissions ==> b in actor.delegable && b < 6
  }

  predicate Printable(s: string, limit: nat) {
    1 <= |s| <= limit && forall c :: c in s ==> ' ' <= c <= '~'
  }

  /** What an enrolment may ask for, field by field. */
  predicate Enrollable(r: Request) {
    && Printable(r.displayName, 48) && 1 <= r.clientType <= 6
    && (exists t :: t in r.transports) && (forall t :: t in r.transports ==> t in {0, 1, 2})
    && (exists i :: i in r.interfaces) && (forall i :: i in r.interfaces ==> i in {0, 1})
    && ScopeValid(r.scope)
    && Printable(r.topicScope, Subscription.SCOPE_LIMIT - 1)
    && '+' !in r.topicScope && '#' !in r.topicScope
    && (r.apiScope == "" || Printable(r.apiScope, 64))
  }

  lemma PrintableIsBounded(s: string, limit: nat)
    ensures Printable(s, limit) <==> Subscription.BoundedText(s, limit + 1)
  {
    if Subscription.BoundedText(s, limit + 1) {
      forall c | c in s
        ensures ' ' <= c <= '~'
      {
        var i :| 0 <= i < |s| && s[i] == c;
      }
    }
    forall i | 0 <= i < |s|
      ensures s[i] in s
    {
    }
  }

  lemma EnrollableIsAllowed(actor: Actor, r: Request)
    ensures Enrollable(r) && Manages(actor, r.scope) && Grantable(actor, r.permissions)
       <==> EnrollmentAllowed(actor, r)
  {
    PrintableIsBounded(r.displayName, 48);
    PrintableIsBounded(r.topicScope, Subscription.SCOPE_LIMIT - 1);
    PrintableIsBounded(r.apiScope, 64);
    hide Printable, Subscription.BoundedText, ScopeValid;
    if Enrollable(r) && Manages(actor, r.scope) && Grantable(actor, r.permissions) {
      assert forall b :: b in r.permissions ==> b in actor.delegable && b < 6;
    }
    if EnrollmentAllowed(actor, r) {
      assert r.transports <= {0, 1, 2} && r.interfaces <= {0, 1};
      assert r.permissions <= actor.delegable;
      if r.transports != {} {
        var t :| t in r.transports;
      }
    }
  }

  predicate Unused(p: Payload, id: string)
    requires WellFormed(p)
  {
    forall i :: 0 <= i < p.count ==> p.machines[i].identifier != id
  }

  /** Enrolment goes through exactly for such a request by an actor who manages the scope
      and may grant the permissions, while there is room and one drawn identifier is new. */
  lemma EnrollsExactly(p: Payload, g: uint32, actor: Actor, op: Operation)
    requires WellFormed(p) && op.Enroll?
    ensures var r, edit := op.request, EditOf(p, g, actor, op);
            var may := Enrollable(r) && Manages(actor, r.scope) && Grantable(actor, r.permissions);
            var unused := exists id :: id in op.candidates && Unused(p, id);
            && (edit.Edited? <==> may && p.count < 16 && unused)
            && (edit == Refused(NotAllowed) <==> !may)
            && (edit == Refused(NoRoom) <==> may && p.count == 16)
            && (edit == Refused(WrongState) <==> may && p.count < 16 && !unused)
  {
    EnrollableIsAllowed(actor, op.request);
    FreshIdExactly(p, op.candidates);
    hide Enrollable, EnrollmentAllowed, Manages, Grantable, FreshId, Unused;
  }

  lemma {:induction false} FreshIdExactly(p: Payload, candidates: seq<string>)
    requires WellFormed(p)
    ensures FreshId(p, candidates).Some?
       <==> exists id :: id in candidates && Unused(p, id)
  {
    if candidates != [] {
      FreshIdExactly(p, candidates[1..]);
      UnusedIsNotFound(p, candidates[0]);
      hide Unused, Find;
      assert candidates == [candidates[0]] + candidates[1..];
    }
  }

  lemma UnusedIsNotFound(p: Payload, id: string)
    requires WellFormed(p)
    ensures Unused(p, id) <==> Find(p, id) == p.count
  {
  }

  /** An operation on a record goes through exactly when the record exists, the actor
      manages its scope (a quarantine needs nobody), and the record is in a state for it:
      nothing enables or grants to a revoked machine, and only a revoked one is deleted.
      A grant needs permissions that are defined and the actor may give. */
  lemma ChangesExactly(p: Payload, g: uint32, actor: Actor, op: Operation)
    requires WellFormed(p) && !op.Enroll?
    ensures var at, edit := Find(p, op.id), EditOf(p, g, actor, op);
            edit.Edited? <==>
              at < p.count &&
              var m := p.machines[at];
              && (!op.Quarantine? ==> Manages(actor, m.scope))
              && (op.SetEnabled? && op.on ==> !m.revoked)
              && (op.SetPermissions? ==> !m.revoked && Grantable(actor, op.granted))
              && (op.Delete? ==> m.revoked)
    ensures var at, edit := Find(p, op.id), EditOf(p, g, actor, op);
            && (edit == Refused(BadArgument) <==>
                  op.SetPermissions? && exists b :: b in op.granted && b >= 23)
            && (edit == Refused(Unknown) ==> at == p.count)
            && (edit == Refused(WrongState) ==>
                  at < p.count && (p.machines[at].revoked != op.Delete?))
            && (edit != Refused(NoRoom))
  {
    hide Removed, Changed, Find;
  }

  // ------------------------------------------------------------ every state

  /** An edit prepared at the current generation is an edit of the current records. */
  predicate Inv(env: Environment, s: System) {
    && Consistent(env, s)
    && forall e :: e in s.inFlight ==>
         && e.expected <= s.g
         && (e.expected == s.g ==> Successor(s.p, s.g, e.op, e.payload))
  }

  lemma StepKeepsInv(env: Environment, s: System, e: Event)
    requires Inv(env, s) && s.g < TWO_32 - 1
    ensures Inv(env, Step(env, s, e))
  {
    hide EditOf, Successor;
    match e
    case Prepare(actor, op) =>
      if EditOf(s.p, s.g, actor, op).Edited? {
        EditIsSuccessor(s.p, s.g, actor, op);
      }
    case Land(edit, stored) =>
      if Lands(env, s, edit, stored) {
        LandedStamps(env, s, edit);
      }
  }

  lemma LandedStamps(env: Environment, s: System, edit: Pending)
    requires Consistent(env, s) && s.g < TWO_32 - 1
    requires Successor(s.p, s.g, edit.op, edit.payload)
    ensures forall i :: 0 <= i < edit.payload.count ==>
              edit.payload.machines[i].securityEpoch <= s.g + 1
  {
    forall i | 0 <= i < edit.payload.count
      ensures edit.payload.machines[i].securityEpoch <= s.g + 1
    {
      assert Has(s.p, edit.payload.machines[i])
          || edit.payload.machines[i].securityEpoch == Inc32(s.g);
    }
  }

  lemma {:induction false} ReachableInv(
    env: Environment, states: seq<System>, evs: seq<Event>, k: nat)
    requires Run(env, states, evs) && k < |states|
    ensures Inv(env, states[k])
    decreases k
  {
    if k > 0 {
      ReachableInv(env, states, evs, k - 1);
      hide Step, Inv;
      var e := evs[k - 1];
      assert states[k] == Step(env, states[k - 1], e);
      StepKeepsInv(env, states[k - 1], e);
    }
  }

  /** At the last generation every edit that stamps a record is refused: the stamp
      would be zero. Only a deletion could land there and wrap the generation. */
  lemma OnlyDeletionCanWrap(
    env: Environment, p: Payload, g: uint32, actor: Actor, op: Operation)
    requires PayloadValid(env, p) && g == TWO_32 - 1
    requires EditOf(p, g, actor, op).Edited? && !op.Delete?
    ensures !PayloadValid(env, EditOf(p, g, actor, op).payload)
  {
    var q := EditOf(p, g, actor, op).payload;
    var at := if op.Enroll? then p.count else Find(p, op.id);
    assert at < q.count && !MachineValid(env, q.machines[at]);
  }

  // ------------------------------------------------------------ what lands

  /** An edit in flight against the current generation is what its operation makes of the
      current records. */
  ghost predicate Current(s: System) {
    WellFormed(s.p) && forall e :: e in s.inFlight && e.expected == s.g ==> EditedBy(s, e)
  }

  ghost predicate EditedBy(s: System, e: Pending)
    requires WellFormed(s.p)
  {
    exists actor :: EditOf(s.p, s.g, actor, e.op) == Edited(e.payload)
  }

  lemma StepKeepsCurrent(env: Environment, s: System, e: Event)
    requires Inv(env, s) && Current(s) && s.g < TWO_32 - 1
    ensures Current(Step(env, s, e))
  {
    StepKeepsInv(env, s, e);
    hide EditOf, Consistent, Successor;
    var t := Step(env, s, e);
    forall f | f in t.inFlight && f.expected == t.g
      ensures EditedBy(t, f)
    {
      if f in s.inFlight {
        assert f.expected <= s.g;
        assert EditedBy(s, f);
        var actor :| EditOf(s.p, s.g, actor, f.op) == Edited(f.payload);
        assert EditOf(t.p, t.g, actor, f.op) == Edited(f.payload);
      } else {
        assert EditOf(t.p, t.g, e.actor, f.op) == Edited(f.payload);
      }
    }
  }

  lemma {:induction false} ReachableCurrent(
    env: Environment, states: seq<System>, evs: seq<Event>, k: nat)
    requires Run(env, states, evs) && k < |states|
    ensures Current(states[k])
    decreases k
  {
    ReachableInv(env, states, evs, k);
    if k > 0 {
      ReachableCurrent(env, states, evs, k - 1);
      ReachableInv(env, states, evs, k - 1);
      var e := evs[k - 1];
      assert states[k] == Step(env, states[k - 1], e);
      StepKeepsCurrent(env, states[k - 1], e);
    }
  }

  /** What lands is the edit of the records it lands on. */
  lemma LandsOnCurrent(env: Environment, states: seq<System>, evs: seq<Event>, k: nat)
    returns (actor: Actor)
    requires Run(env, states, evs) && k < |evs| && evs[k].Land?
    requires Lands(env, states[k], evs[k].edit, evs[k].stored)
    ensures WellFormed(states[k].p) && WellFormed(states[k + 1].p)
    ensures EditOf(states[k].p, states[k].g, actor, evs[k].edit.op) == Edited(states[k + 1].p)
  {
    ReachableCurrent(env, states, evs, k);
    assert states[k + 1] == Step(env, states[k], evs[k]);
    assert EditedBy(states[k], evs[k].edit);
    actor :| EditOf(states[k].p, states[k].g, actor, evs[k].edit.op) == Edited(evs[k].edit.payload);
    hide EditOf;
  }

  /** The record with the identifier, if there is one. */
  function RecordOf(p: Payload, id: string): Option<Machine>
    requires WellFormed(p)
  {
    if Find(p, id) == p.count then None else Some(p.machines[Find(p, id)])
  }

  lemma RecordIsThere(p: Payload, i: nat)
    requires WellFormed(p) && DistinctIds(p) && i < p.count
    ensures RecordOf(p, p.machines[i].identifier) == Some(p.machines[i])
  {
  }

  /** An edit of one machine leaves the records of all others, wherever they end up. */
  lemma OthersStand(p: Payload, g: uint32, actor: Actor, op: Operation, id: string)
    requires WellFormed(p) && DistinctIds(p) && EditOf(p, g, actor, op).Edited?
    requires WellFormed(EditOf(p, g, actor, op).payload)
    requires DistinctIds(EditOf(p, g, actor, op).payload)
    requires RecordOf(p, id).Some? && (op.Enroll? || op.id != id)
    ensures RecordOf(EditOf(p, g, actor, op).payload, id) == RecordOf(p, id)
  {
    var q, m := EditOf(p, g, actor, op).payload, RecordOf(p, id).value;
    var i := Find(p, id);
    if op.Enroll? {
      assert q.machines[i] == m;
      RecordIsThere(q, i);
    } else if op.Delete? {
      var at := Find(p, op.id);
      var j := if i == p.count - 1 then at else i;
      assert q.machines[j] == m;
      RecordIsThere(q, j);
    } else {
      assert q.machines[i] == m;
      RecordIsThere(q, i);
    }
  }

  /** The step lands an edit of the machine. */
  predicate Edits(env: Environment, s: System, e: Event, id: string) {
    e.Land? && Lands(env, s, e.edit, e.stored) && !e.edit.op.Enroll? && e.edit.op.id == id
  }

  lemma UneditedStep(
    env: Environment, states: seq<System>, evs: seq<Event>, k: nat, id: string)
    requires Run(env, states, evs) && k < |evs| && !Edits(env, states[k], evs[k], id)
    requires WellFormed(states[k].p) && RecordOf(states[k].p, id).Some?
    ensures WellFormed(states[k + 1].p) && RecordOf(states[k + 1].p, id) == RecordOf(states[k].p, id)
  {
    ReachableInv(env, states, evs, k);
    ReachableInv(env, states, evs, k + 1);
    assert states[k + 1] == Step(env, states[k], evs[k]);
    hide EditOf, RecordOf, Successor;
    if evs[k].Land? && Lands(env, states[k], evs[k].edit, evs[k].stored) {
      var actor := LandsOnCurrent(env, states, evs, k);
      OthersStand(states[k].p, states[k].g, actor, evs[k].edit.op, id);
    }
  }

  /** Between two edits of a machine its record stays what the first one made it. */
  lemma {:induction false} RecordStands(
    env: Environment, states: seq<System>, evs: seq<Event>, i: nat, j: nat, id: string)
    requires Run(env, states, evs) && i <= j < |states|
    requires forall k :: i <= k < j ==> !Edits(env, states[k], evs[k], id)
    requires WellFormed(states[i].p) && RecordOf(states[i].p, id).Some?
    ensures WellFormed(states[j].p) && RecordOf(states[j].p, id) == RecordOf(states[i].p, id)
    decreases j
  {
    hide Step, RecordOf, Edits, Consistent;
    if i < j {
      RecordStands(env, states, evs, i, j - 1, id);
      UneditedStep(env, states, evs, j - 1, id);
    }
  }

  /** From a landed rotation until the next edit of that machine, its record has the new
      verifier, and the old one is gone. */
  lemma RotatedUntilNextEdit(
    env: Environment, states: seq<System>, evs: seq<Event>, k: nat, j: nat, id: string)
    requires Run(env, states, evs) && k < j < |states| && Edits(env, states[k], evs[k], id)
    requires evs[k].edit.op.Rotate?
    requires forall i :: k < i < j ==> !Edits(env, states[i], evs[i], id)
    ensures WellFormed(states[k].p) && WellFormed(states[j].p)
    ensures RecordOf(states[k].p, id).Some? && RecordOf(states[j].p, id).Some?
    ensures var m, n := RecordOf(states[k].p, id).value, RecordOf(states[j].p, id).value;
            && n.verifier == evs[k].edit.op.newVerifier
            && n.credentialVersion != m.credentialVersion
            && n == m.(verifier := n.verifier, credentialVersion := n.credentialVersion,
                       principalRevision := n.principalRevision,
                       securityEpoch := n.securityEpoch)
  {
    EditedRecord(env, states, evs, k, id);
    hide Run, RecordOf, Edits, Changed;
    RecordStands(env, states, evs, k + 1, j, id);
  }

  /** A landed edit, other than a deletion, leaves the machine's record as it says. */
  lemma EditedRecord(env: Environment, states: seq<System>, evs: seq<Event>, k: nat, id: string)
    requires Run(env, states, evs) && k < |evs| && Edits(env, states[k], evs[k], id)
    requires !evs[k].edit.op.Delete?
    ensures WellFormed(states[k].p) && WellFormed(states[k + 1].p)
    ensures RecordOf(states[k].p, id).Some? && RecordOf(states[k + 1].p, id).Some?
    ensures var m, n, op := RecordOf(states[k].p, id).value, RecordOf(states[k + 1].p, id).value,
                            evs[k].edit.op;
            && (op.Rotate? || op.Revoke? <==> n.credentialVersion != m.credentialVersion)
            && n == m.(
                 verifier := if op.Rotate? then op.newVerifier else m.verifier,
                 permissions := if op.SetPermissions? then op.granted else m.permissions,
                 enabled := if op.SetEnabled? then op.on
                            else m.enabled && !op.Revoke? && !op.Quarantine?,
                 revoked := m.revoked || op.Revoke?,
                 credentialVersion := n.credentialVersion,
                 principalRevision := n.principalRevision,
                 securityEpoch := states[k].g + 1)
  {
    var actor := LandsOnCurrent(env, states, evs, k);
    var p, q := states[k].p, states[k + 1].p;
    ReachableInv(env, states, evs, k + 1);
    ChangeDoesExactly(p, states[k].g, actor, evs[k].edit.op);
    hide EditOf, Step, Successor;
    RecordIsThere(q, Find(p, id));
  }

  // ------------------------------------------------------------ record versions

  /** A record whose stamp is not newer than an earlier state was there unchanged. */
  lemma {:induction false} OldStampsAreOldRecords(
    env: Environment, states: seq<System>, evs: seq<Event>, i: nat, j: nat, m: Machine)
    requires Run(env, states, evs) && i <= j < |states|
    requires WellFormed(states[j].p) && Has(states[j].p, m)
    requires m.securityEpoch <= states[i].g
    ensures WellFormed(states[i].p) && Has(states[i].p, m)
    ensures states[i].g <= states[j].g
    decreases j
  {
    if i < j {
      ReachableInv(env, states, evs, j - 1);
      var e := evs[j - 1];
      assert states[j] == Step(env, states[j - 1], e);
      GenerationsGrow(env, states, evs, i, j - 1);
      if e.Land? && Lands(env, states[j - 1], e.edit, e.stored) {
        LandedRecords(states[j - 1], e.edit, m);
      }
      OldStampsAreOldRecords(env, states, evs, i, j - 1, m);
    }
  }

  lemma LandedRecords(s: System, edit: Pending, m: Machine)
    requires WellFormed(s.p) && s.g < TWO_32 - 1
    requires Successor(s.p, s.g, edit.op, edit.payload)
    requires Has(edit.payload, m)
    ensures Has(s.p, m) || m.securityEpoch == s.g + 1
  {
  }

  lemma {:induction false} GenerationsGrow(
    env: Environment, states: seq<System>, evs: seq<Event>, i: nat, j: nat)
    requires Run(env, states, evs) && i <= j < |states|
    ensures states[i].g <= states[j].g
    decreases j
  {
    if i < j {
      var e := evs[j - 1];
      assert states[j] == Step(env, states[j - 1], e);
      GenerationsGrow(env, states, evs, i, j - 1);
    }
  }

  /** The identifier and the security epoch name one version of one record: at any
      two times they are equal, every other field is. */
  lemma StampIdentifiesRecord(
    env: Environment, states: seq<System>, evs: seq<Event>, i: nat, j: nat, m: Machine, n: Machine)
    requires Run(env, states, evs) && i <= j < |states|
    requires WellFormed(states[i].p) && Has(states[i].p, m)
    requires WellFormed(states[j].p) && Has(states[j].p, n)
    requires m.identifier == n.identifier && m.securityEpoch == n.securityEpoch
    ensures m == n
  {
    ReachableInv(env, states, evs, i);
    OldStampsAreOldRecords(env, states, evs, i, j, n);
    var a :| 0 <= a < states[i].p.count && states[i].p.machines[a] == m;
    var b :| 0 <= b < states[i].p.count && states[i].p.machines[b] == n;
    FindIsUnique(states[i].p, a);
    FindIsUnique(states[i].p, b);
  }

  /** A machine is authenticated exactly by the secret of its own record while that is
      enabled, not revoked, and open to MQTT and to the interface; the session then holds
      what the record says and the stamps of both. */
  lemma AuthenticatesExactly(
    p: Payload, g: uint32, id: string, matched: bool, via: set<nat>)
    requires WellFormed(p)
    ensures var at, login := Find(p, id), Authenticate(p, g, id, matched, via);
            && (login.Some? <==>
                  at < p.count && matched &&
                  var m := p.machines[at];
                  && m.enabled && !m.revoked && 1 in m.transports
                  && exists i :: i in m.interfaces && i in via)
            && (login.Some? ==>
                  var m, l := p.machines[at], login.value;
                  && l.identifier == id && l.generation == g
                  && l.scope == m.scope && l.topicScope == m.topicScope
                  && l.apiScope == m.apiScope && l.permissions == m.permissions
                  && l.transports == m.transports && l.interfaces == m.interfaces
                  && l.clientType == m.clientType && l.credentialVersion == m.credentialVersion
                  && l.principalRevision == m.principalRevision
                  && l.securityEpoch == m.securityEpoch)
  {
    var at := Find(p, id);
    if at < p.count {
      var both := p.machines[at].interfaces * via;
      if i :| i in both {
        assert i in p.machines[at].interfaces && i in via;
      }
      forall i | i in p.machines[at].interfaces && i in via
        ensures i in both
      {
      }
    }
  }

  /** A session is revalidated exactly while the record it was admitted with is still
      there, field for field, and admits the interface it is now used over. */
  lemma RevalidatesExactly(
    env: Environment, states: seq<System>, evs: seq<Event>, i: nat, j: nat,
    id: string, via: set<nat>, over: set<nat>)
    requires Run(env, states, evs) && i <= j < |states|
    requires WellFormed(states[i].p) && WellFormed(states[j].p)
    requires Authenticate(states[i].p, states[i].g, id, true, via).Some?
    ensures var m := states[i].p.machines[Find(states[i].p, id)];
            Revalidate(states[j].p,
                       Authenticate(states[i].p, states[i].g, id, true, via).value, over)
            <==> Has(states[j].p, m) && m.interfaces * over != {}
  {
    ReachableInv(env, states, evs, i);
    ReachableInv(env, states, evs, j);
    var p, q := states[i].p, states[j].p;
    var m := p.machines[Find(p, id)];
    var principal := PrincipalOf(m, states[i].g);
    assert Has(p, m);
    assert MachineValid(env, m);
    if Revalidate(q, principal, over) {
      var n := q.machines[Find(q, id)];
      assert Has(q, n);
      StampIdentifiesRecord(env, states, evs, i, j, m, n);
    }
    if Has(q, m) {
      var b :| 0 <= b < q.count && q.machines[b] == m;
      FindIsUnique(q, b);
    }
  }

  /** Once the record is no longer what it was, the session is refused for good. */
  lemma LostForGood(
    env: Environment, states: seq<System>, evs: seq<Event>, i: nat, j: nat, k: nat,
    id: string, via: set<nat>, over: set<nat>)
    requires Run(env, states, evs) && i <= j <= k < |states|
    requires WellFormed(states[i].p) && WellFormed(states[j].p) && WellFormed(states[k].p)
    requires Authenticate(states[i].p, states[i].g, id, true, via).Some?
    requires !Has(states[j].p, states[i].p.machines[Find(states[i].p, id)])
    ensures !Revalidate(states[k].p,
                        Authenticate(states[i].p, states[i].g, id, true, via).value, over)
  {
    var m := states[i].p.machines[Find(states[i].p, id)];
    RevalidatesExactly(env, states, evs, i, k, id, via, over);
    ReachableInv(env, states, evs, i);
    GenerationsGrow(env, states, evs, i, j);
    if Has(states[k].p, m) {
      OldStampsAreOldRecords(env, states, evs, j, k, m);
    }
  }

  /** Once any edit of a machine has landed, every session it had before is refused,
      then and ever after. */
  lemma LandedEditEndsSessions(
    env: Environment, states: seq<System>, evs: seq<Event>, i: nat, k: nat, j: nat,
    id: string, via: set<nat>, over: set<nat>)
    requires Run(env, states, evs) && i <= k < j < |states|
    requires WellFormed(states[i].p) && WellFormed(states[k + 1].p) && WellFormed(states[j].p)
    requires Authenticate(states[i].p, states[i].g, id, true, via).Some?
    requires evs[k].Land? && Lands(env, states[k], evs[k].edit, evs[k].stored)
    requires !evs[k].edit.op.Enroll? && evs[k].edit.op.id == id
    ensures !Revalidate(states[j].p,
                        Authenticate(states[i].p, states[i].g, id, true, via).value, over)
  {
    var m := states[i].p.machines[Find(states[i].p, id)];
    ReachableInv(env, states, evs, i);
    ReachableInv(env, states, evs, k);
    GenerationsGrow(env, states, evs, i, k);
    assert states[k + 1] == Step(env, states[k], evs[k]);
    assert m.securityEpoch <= states[i].g;
    assert !Has(states[k + 1].p, m);
    LostForGood(env, states, evs, i, k + 1, j, id, via, over);
  }

  // ------------------------------------------------------------ revocation

  predicate IsRevoked(p: Payload, id: string)
    requires WellFormed(p)
  {
    Find(p, id) < p.count && p.machines[Find(p, id)].revoked
  }

  /** A step cannot revive a revoked machine: it stays so, and not enabled, or is gone. */
  lemma RevokedStays(env: Environment, s: System, e: Event, id: string)
    requires Inv(env, s) && s.g < TWO_32 - 1 && IsRevoked(s.p, id)
    ensures var q := Step(env, s, e).p;
            && WellFormed(q)
            && (Find(q, id) < q.count ==> IsRevoked(q, id) && !q.machines[Find(q, id)].enabled)
  {
    StepKeepsInv(env, s, e);
    var q := Step(env, s, e).p;
    assert Find(q, id) < q.count ==> MachineValid(env, q.machines[Find(q, id)]);
    hide EditOf;
  }

  /** A revoked machine stays revoked, and so not enabled, for as long as its record
      exists. */
  lemma {:induction false} RevokedUntilDeleted(
    env: Environment, states: seq<System>, evs: seq<Event>, i: nat, j: nat, id: string)
    requires Run(env, states, evs) && i <= j < |states|
    requires forall k :: i <= k <= j ==>
               WellFormed(states[k].p) && Find(states[k].p, id) < states[k].p.count
    requires states[i].p.machines[Find(states[i].p, id)].revoked
    ensures IsRevoked(states[j].p, id)
    ensures !states[j].p.machines[Find(states[j].p, id)].enabled
    decreases j
  {
    ReachableInv(env, states, evs, j);
    if i < j {
      RevokedUntilDeleted(env, states, evs, i, j - 1, id);
      ReachableInv(env, states, evs, j - 1);
      var e := evs[j - 1];
      hide Step;
      assert states[j] == Step(env, states[j - 1], e);
      RevokedStays(env, states[j - 1], e, id);
    } else {
      assert MachineValid(env, states[j].p.machines[Find(states[j].p, id)]);
    }
  }

  // ------------------------------------------------------------ what no machine ever gets

  /** No administrative permission, and a topic scope without wildcards. */
  predicate Harmless(m: Machine) {
    && (forall p :: p in m.permissions ==> p < 6)
    && Subscription.WildcardFree(m.topicScope)
  }

  predicate AllHarmless(p: Payload) {
    WellFormed(p) && forall i :: 0 <= i < p.count ==> Harmless(p.machines[i])
  }

  predicate HarmlessState(s: System) {
    AllHarmless(s.p) && forall e :: e in s.inFlight ==> AllHarmless(e.payload)
  }

  lemma EditKeepsHarmless(p: Payload, g: uint32, actor: Actor, op: Operation)
    requires AllHarmless(p) && EditOf(p, g, actor, op).Edited?
    ensures AllHarmless(EditOf(p, g, actor, op).payload)
  {
    var q := EditOf(p, g, actor, op).payload;
    hide ScopeContains, ScopeValid;
    if op.Enroll? {
      assert forall i :: 0 <= i < p.count ==> q.machines[i] == p.machines[i];
    } else if op.Delete? {
      var at := Find(p, op.id);
      assert forall i :: 0 <= i < q.count ==>
               q.machines[i] == p.machines[if i == at then p.count - 1 else i];
    } else {
      var at := Find(p, op.id);
      assert forall i :: 0 <= i < q.count && i != at ==> q.machines[i] == p.machines[i];
    }
  }

  /** Whoever enrols and grants, in every run no machine is ever given an administrative
      permission or a topic scope with a wildcard. */
  lemma {:induction false} MachinesStayHarmless(
    env: Environment, states: seq<System>, evs: seq<Event>, k: nat)
    requires Run(env, states, evs) && k < |states| && AllHarmless(states[0].p)
    ensures HarmlessState(states[k])
    decreases k
  {
    if k > 0 {
      MachinesStayHarmless(env, states, evs, k - 1);
      var s, e := states[k - 1], evs[k - 1];
      assert states[k] == Step(env, s, e);
      if e.Prepare? && EditOf(s.p, s.g, e.actor, e.op).Edited? {
        EditKeepsHarmless(s.p, s.g, e.actor, e.op);
      }
      hide EditOf, AllHarmless;
    }
  }

  /** So every session, in every run, reads only what its unit's categories and its own
      topic scope hold, and no command. */
  lemma SessionsAreConfined(
    env: Environment, states: seq<System>, evs: seq<Event>, k: nat,
    id: string, via: set<nat>, client: string, unit: string,
    permissions: set<Subscription.Permission>, filter: string, topic: string)
    requires Run(env, states, evs) && k < |states| && AllHarmless(states[0].p)
    requires WellFormed(states[k].p)
    requires Authenticate(states[k].p, states[k].g, id, true, via).Some?
    requires Subscription.ValidId(client) && Subscription.ValidId(unit)
    requires var session := Authenticate(states[k].p, states[k].g, id, true, via).value;
             Subscription.SubscriptionAllowed(
               Subscription.Root(client, unit), permissions, session.topicScope, filter)
    requires Subscription.Matches(filter, topic)
    ensures var session := Authenticate(states[k].p, states[k].g, id, true, via).value;
            && Subscription.Under(session.topicScope, topic)
            && !(Subscription.Root(client, unit) + "/command/" <= topic)
            && (exists i :: 0 <= i < |Subscription.CATEGORIES| &&
                  Subscription.CategoryPrefix(Subscription.Root(client, unit), i) <= topic)
            && forall p :: p in session.permissions ==> p < ADMINISTRATIVE
  {
    MachinesStayHarmless(env, states, evs, k);
    var session := Authenticate(states[k].p, states[k].g, id, true, via).value;
    assert Harmless(states[k].p.machines[Find(states[k].p, id)]);
    Subscription.Confinement(client, unit, permissions, session.topicScope, filter, topic);
  }

  // ------------------------------------------------------------ where permissions come from

  /** An operator asked to give the permission to the machine, could delegate it and has
      the machine's scope. */
  predicate Gives(e: Event, id: string, scope: string, permission: nat) {
    && e.Prepare? && e.actor.permitted
    && permission in e.actor.delegable && permission < ADMINISTRATIVE
    && ScopeContains(e.actor.scope, scope)
    && match e.op
       case Enroll(r, candidates, _) =>
         permission in r.permissions && id in candidates && scope == r.scope
       case SetPermissions(target, granted) => permission in granted && id == target
       case _ => false
  }

  predicate Holds(p: Payload, id: string, scope: string, permission: nat)
    requires WellFormed(p)
  {
    exists i :: 0 <= i < p.count && p.machines[i].identifier == id
      && p.machines[i].scope == scope && permission in p.machines[i].permissions
  }

  lemma {:induction false} FreshIdIsDrawn(p: Payload, candidates: seq<string>)
    requires WellFormed(p) && FreshId(p, candidates).Some?
    ensures FreshId(p, candidates).value in candidates
  {
    if Find(p, candidates[0]) != p.count {
      FreshIdIsDrawn(p, candidates[1..]);
    }
  }

  lemma EditGives(p: Payload, g: uint32, actor: Actor, op: Operation, j: nat, permission: nat)
    requires WellFormed(p) && EditOf(p, g, actor, op).Edited?
    requires var q := EditOf(p, g, actor, op).payload;
             WellFormed(q) && j < q.count && permission in q.machines[j].permissions
    ensures var m := EditOf(p, g, actor, op).payload.machines[j];
            || Holds(p, m.identifier, m.scope, permission)
            || Gives(Prepare(actor, op), m.identifier, m.scope, permission)
  {
    var q := EditOf(p, g, actor, op).payload;
    hide ScopeContains, ScopeValid;
    if op.Enroll? {
      FreshIdIsDrawn(p, op.candidates);
      assert j < p.count ==> q.machines[j] == p.machines[j];
    } else if op.Delete? {
      assert q.machines[j] == p.machines[if j == Find(p, op.id) then p.count - 1 else j];
    } else if j != Find(p, op.id) {
      assert q.machines[j] == p.machines[j];
    }
  }

  /** The permission was held at the start, or one of the first `k` events gave it. */
  ghost predicate HasOrigin(
    start: Payload, evs: seq<Event>, k: nat, id: string, scope: string, permission: nat)
    requires WellFormed(start) && k <= |evs|
  {
    || Holds(start, id, scope, permission)
    || exists j :: 0 <= j < k && Gives(evs[j], id, scope, permission)
  }

  ghost predicate Traced(start: Payload, evs: seq<Event>, k: nat, p: Payload)
    requires WellFormed(start) && k <= |evs|
  {
    && WellFormed(p)
    && forall id, scope, permission :: Holds(p, id, scope, permission) ==>
         HasOrigin(start, evs, k, id, scope, permission)
  }

  lemma EditIsTraced(
    start: Payload, evs: seq<Event>, k: nat, p: Payload, g: uint32, actor: Actor, op: Operation)
    requires WellFormed(start) && k < |evs| && evs[k] == Prepare(actor, op)
    requires Traced(start, evs, k, p) && EditOf(p, g, actor, op).Edited?
    ensures Traced(start, evs, k + 1, EditOf(p, g, actor, op).payload)
  {
    var q := EditOf(p, g, actor, op).payload;
    EditIsWellFormed(p, g, actor, op);
    hide EditOf, Gives;
    forall id, scope, permission | Holds(q, id, scope, permission)
      ensures HasOrigin(start, evs, k + 1, id, scope, permission)
    {
      var j :| 0 <= j < q.count && q.machines[j].identifier == id
        && q.machines[j].scope == scope && permission in q.machines[j].permissions;
      EditGives(p, g, actor, op, j, permission);
    }
  }

  lemma EditIsWellFormed(p: Payload, g: uint32, actor: Actor, op: Operation)
    requires WellFormed(p) && EditOf(p, g, actor, op).Edited?
    ensures WellFormed(EditOf(p, g, actor, op).payload)
  {
  }

  lemma {:induction false} AllTraced(
    env: Environment, states: seq<System>, evs: seq<Event>, k: nat)
    requires Run(env, states, evs) && k < |states| && WellFormed(states[0].p)
    ensures Traced(states[0].p, evs, k, states[k].p)
    ensures forall e :: e in states[k].inFlight ==> Traced(states[0].p, evs, k, e.payload)
    decreases k
  {
    if k > 0 {
      AllTraced(env, states, evs, k - 1);
      hide EditOf, Gives, Holds, PayloadValid, Consistent;
      var s, e := states[k - 1], evs[k - 1];
      assert states[k] == Step(env, s, e);
      if e.Prepare? && EditOf(s.p, s.g, e.actor, e.op).Edited? {
        EditIsTraced(states[0].p, evs, k - 1, s.p, s.g, e.actor, e.op);
      }
    }
  }

  /** Every permission a machine holds at any moment it held at the start, or an operator
      gave it who was permitted, could delegate it, and had the machine's scope; no
      administrative one is ever given. */
  lemma PermissionsWereDelegated(
    env: Environment, states: seq<System>, evs: seq<Event>, k: nat, i: nat, permission: nat)
    requires Run(env, states, evs) && k < |states|
    requires WellFormed(states[0].p) && WellFormed(states[k].p) && i < states[k].p.count
    requires permission in states[k].p.machines[i].permissions
    ensures var m := states[k].p.machines[i];
            || Holds(states[0].p, m.identifier, m.scope, permission)
            || exists j :: 0 <= j < k && Gives(evs[j], m.identifier, m.scope, permission)
  {
    AllTraced(env, states, evs, k);
    var m := states[k].p.machines[i];
    assert Holds(states[k].p, m.identifier, m.scope, permission);
    hide Gives;
  }
}
