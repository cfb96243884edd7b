/** Enrolment and management of machine records. Every operation edits a private
    snapshot of the directory and commits it against the generation it was taken
    at; sessions are checked against the stamps the edits leave behind. */
module MachineService {
  import opened Words
  import opened Directory
  import Subscription

  const MQTT_TRANSPORT: nat := 1
  const ID_ATTEMPTS: nat := 8
  const SCOPE_MAX: nat := 36

  /** Permission bits below 23 are defined; those from 6 on administer the unit. */
  const DEFINED_PERMISSIONS: nat := 23
  const ADMINISTRATIVE: nat := 6

  /** `permitted` is the authorization layer's verdict: a valid principal with the
      permission the operation requires. */
  datatype Actor = Actor(
    permitted: bool, identifier: string, scope: string, delegable: set<nat>)

  datatype Request = Request(
    displayName: string, clientType: nat, transports: set<nat>, interfaces: set<nat>,
    scope: string, topicScope: string, apiScope: string, permissions: set<nat>)

  /** `candidates` are the random identifiers an enrolment draws, in order. */
  datatype Operation =
    | Enroll(request: Request, candidates: seq<string>, verifier: seq<nat>)
    | Rotate(id: string, newVerifier: seq<nat>)
    | SetEnabled(id: string, on: bool)
    | SetPermissions(id: string, granted: set<nat>)
    | Revoke(id: string)
    | Delete(id: string)
    | Quarantine(id: string)

  datatype Refusal = NotAllowed | Unknown | WrongState | NoRoom | BadArgument

  datatype Edit = Edited(payload: Payload) | Refused(reason: Refusal)

  predicate ScopeContains(scope: string, target: string) {
    if scope == "*" then target != ""
    else
      scope == target ||
      (scope != "" && scope[|scope| - 1] == '*' && scope[..|scope| - 1] <= target)
  }

  /** May the actor hand these permissions to a machine of that scope? */
  predicate CanManage(a: Actor, scope: string, permissions: set<nat>) {
    && a.permitted && ScopeContains(a.scope, scope)
    && permissions <= a.delegable
    && forall p :: p in permissions ==> p < ADMINISTRATIVE || p >= DEFINED_PERMISSIONS
  }

  predicate ScopeChar(c: char) {
    Subscription.IdChar(c) || c == '.'
  }

  /** The rest of a scope from position `i`; `named` says that the segment has a name. */
  predicate ScopeRest(s: string, i: nat, named: bool)
    requires i <= |s|
    decreases |s| - i
  {
    if i == |s| then named
    else if ScopeChar(s[i]) then ScopeRest(s, i + 1, true)
    else if s[i] == '/' then named && i + 1 < |s| && ScopeRest(s, i + 1, false)
    else s[i] == '*' && i + 1 == |s| && i > 0 && s[i - 1] == '/'
  }

  predicate ScopeValid(s: string) {
    1 <= |s| <= SCOPE_MAX && (s == "*" || ScopeRest(s, 0, false))
  }

  method CheckScope(s: string) returns (valid: bool)
    ensures valid == ScopeValid(s)
  {
    if |s| == 0 || |s| > SCOPE_MAX {
      return false;
    }
    if |s| == 1 && s[0] == '*' {
      return true;
    }
    var named := false;
    var i := 0;
    while i < |s|
      invariant 0 <= i <= |s|
      invariant ScopeRest(s, 0, false) == ScopeRest(s, i, named)
    {
      if ScopeChar(s[i]) {
        named := true;
      } else if s[i] == '/' {
        if !named || i + 1 >= |s| {
          return false;
        }
        named := false;
      } else if s[i] == '*' {
        return i + 1 == |s| && i > 0 && s[i - 1] == '/';
      } else {
        return false;
      }
      i := i + 1;
    }
    return named;
  }

  /** A segment of a scope: letters, digits, hyphens, underscores and dots. */
  predicate SegmentName(n: string) {
    n != "" && forall c :: c in n ==>
      'a' <= c <= 'z' || 'A' <= c <= 'Z' || '0' <= c <= '9' || c in {'-', '_', '.'}
  }

  function Joined(segments: seq<string>): string
    requires segments != []
  {
    segments[0] + if |segments| == 1 then "" else "/" + Joined(segments[1..])
  }

  /** Segments, of which the first may go on with one that has begun. */
  predicate Segments(segments: seq<string>, begun: bool) {
    && segments != []
    && ((begun && segments[0] == "") || SegmentName(segments[0]))
    && forall k :: 0 < k < |segments| ==> SegmentName(segments[k])
  }

  function Ending(open: bool): string {
    if open then "/*" else ""
  }

  /** A scope is everything, or names separated by slashes, perhaps with everything below. */
  lemma ScopesExactly(s: string)
    ensures ScopeValid(s) <==>
              1 <= |s| <= 36 &&
              (s == "*" || exists segments, open ::
                 Segments(segments, false) && s == Joined(segments) + Ending(open))
  {
    if ScopeValid(s) && s != "*" {
      assert s[0..] == s;
      var segments, open := RestInSegments(s, 0, false);
      assert Segments(segments, false) && s == Joined(segments) + Ending(open);
    }
    if segments, open :| Segments(segments, false) && s == Joined(segments) + Ending(open) {
      assert s[0..] == s;
      assert segments != [];
      SegmentsInRest(s, 0, false, segments, open);
    }
  }

  lemma LongerName(c: char, n: string)
    requires ScopeChar(c) && (n == "" || SegmentName(n))
    ensures SegmentName([c] + n)
  {
    assert forall x :: x in [c] + n ==> x == c || x in n;
  }

  lemma JoinedFirst(n: string, tail: seq<string>)
    ensures Joined([n] + tail) == n + if tail == [] then "" else "/" + Joined(tail)
  {
    assert ([n] + tail)[1..] == tail;
  }

  lemma LongerJoined(c: char, n: string, tail: seq<string>)
    ensures Joined([[c] + n] + tail) == [c] + Joined([n] + tail)
  {
    JoinedFirst([c] + n, tail);
    JoinedFirst(n, tail);
    hide Joined;
    var rest := if tail == [] then "" else "/" + Joined(tail);
    assert ([c] + n) + rest == [c] + (n + rest);
  }

  lemma LongerSegments(c: char, n: string, tail: seq<string>, begun: bool)
    requires Segments([n] + tail, true) && ScopeChar(c)
    ensures Segments([[c] + n] + tail, begun)
  {
    LongerName(c, ([n] + tail)[0]);
    hide SegmentName;
    var segments := [[c] + n] + tail;
    forall k | 0 < k < |segments|
      ensures SegmentName(segments[k])
    {
      assert segments[k] == ([n] + tail)[k];
    }
  }

  lemma LongerFirst(c: char, more: seq<string>, begun: bool)
    requires more != [] && Segments(more, true) && ScopeChar(c)
    ensures Segments([[c] + more[0]] + more[1..], begun)
    ensures Joined([[c] + more[0]] + more[1..]) == [c] + Joined(more)
  {
    hide Segments, Joined, ScopeChar;
    assert more == [more[0]] + more[1..];
    LongerJoined(c, more[0], more[1..]);
    LongerSegments(c, more[0], more[1..], begun);
  }

  lemma ShorterFirst(segments: seq<string>)
    requires Segments(segments, true) && segments[0] != ""
    ensures ScopeChar(segments[0][0])
    ensures Segments([segments[0][1..]] + segments[1..], true)
    ensures Joined(segments) == [segments[0][0]] + Joined([segments[0][1..]] + segments[1..])
  {
    var more := [segments[0][1..]] + segments[1..];
    assert more[1..] == segments[1..];
    assert segments[0] == [segments[0][0]] + segments[0][1..];
    assert segments[0][0] in segments[0];
    assert forall x :: x in segments[0][1..] ==> x in segments[0];
  }

  lemma NewFirst(more: seq<string>)
    requires Segments(more, false)
    ensures Segments([""] + more, true) && Joined([""] + more) == "/" + Joined(more)
    ensures Joined(more) != ""
  {
    assert ([""] + more)[1..] == more;
  }

  lemma {:induction false} RestInSegments(s: string, i: nat, named: bool)
    returns (segments: seq<string>, open: bool)
    requires i <= |s| && ScopeRest(s, i, named)
    requires named ==> i > 0 && ScopeChar(s[i - 1])
    ensures segments != []
    ensures || (Segments(segments, named) && s[i..] == Joined(segments) + Ending(open))
            || (!named && i > 0 && s[i..] == "*")
    decreases |s| - i
  {
    hide Segments, Joined, ScopeChar;
    segments, open := [""], false;
    NothingYet();
    SlashIsNoName();
    if i == |s| {
    } else if ScopeChar(s[i]) {
      var more, ends := RestInSegments(s, i + 1, true);
      segments, open := [[s[i]] + more[0]] + more[1..], ends;
      LongerFirst(s[i], more, named);
      assert s[i..] == [s[i]] + s[i + 1..];
    } else if s[i] == '/' {
      var more, ends := RestInSegments(s, i + 1, false);
      assert s[i..] == "/" + s[i + 1..];
      if s[i + 1..] == "*" {
        open := true;
      } else {
        segments, open := [""] + more, ends;
        NewFirst(more);
      }
    } else {
      assert s[i..] == "*";
    }
  }

  lemma NothingYet()
    ensures Segments([""], true) && Joined([""]) == ""
  {
  }

  lemma {:induction false} SegmentsInRest(
    s: string, i: nat, named: bool, segments: seq<string>, open: bool)
    requires i <= |s| && segments != [] && Segments(segments, named)
    requires s[i..] == Joined(segments) + Ending(open)
    ensures ScopeRest(s, i, named)
    decreases |s| - i
  {
    hide Segments, Joined, ScopeChar;
    NothingYet();
    SlashIsNoName();
    BegunAtMost(segments, named);
    var t, more := s[i..], segments[1..];
    if segments[0] != "" {
      ShorterFirst(segments);
      more := [segments[0][1..]] + more;
      assert s[i] == t[0] && s[i + 1..] == t[1..] == Joined(more) + Ending(open);
      SegmentsInRest(s, i + 1, true, more, open);
    } else if |segments| == 1 {
      assert segments == [""];
      assert t == Ending(open);
      assert open ==> s[i] == t[0] && s[i + 1] == t[1];
    } else {
      assert segments == [""] + more;
      RestIsSegments(segments);
      NewFirst(more);
      assert s[i] == t[0] && s[i + 1..] == t[1..] == Joined(more) + Ending(open);
      SegmentsInRest(s, i + 1, false, more, open);
    }
  }

  lemma BegunAtMost(segments: seq<string>, begun: bool)
    requires Segments(segments, begun)
    ensures Segments(segments, true) && (segments[0] == "" ==> begun)
  {
  }

  lemma RestIsSegments(segments: seq<string>)
    requires Segments(segments, true) && |segments| > 1
    ensures Segments(segments[1..], false)
  {
  }

  lemma SlashIsNoName()
    ensures !ScopeChar('/') && !ScopeChar('*')
  {
  }

  predicate Undefined(permissions: set<nat>) {
    exists p :: p in permissions && p >= DEFINED_PERMISSIONS
  }

  predicate RequestValid(r: Request) {
    && Subscription.BoundedText(r.displayName, 49)
    && 1 <= r.clientType <= 6
    && r.transports != {} && r.transports <= {0, 1, 2}
    && r.interfaces != {} && r.interfaces <= {0, 1}
    && ScopeValid(r.scope)
    && Subscription.BoundedText(r.topicScope, Subscription.SCOPE_LIMIT)
    && Subscription.WildcardFree(r.topicScope)
    && (r.apiScope == "" || Subscription.BoundedText(r.apiScope, 65))
    && !Undefined(r.permissions)
  }

  predicate EnrollmentAllowed(a: Actor, r: Request) {
    RequestValid(r) && CanManage(a, r.scope, r.permissions)
  }

  method CheckEnrollment(a: Actor, r: Request) returns (allowed: bool)
    ensures allowed == EnrollmentAllowed(a, r)
  {
    var nameBounded := Subscription.CheckText(r.displayName, 49);
    var scopeValid := CheckScope(r.scope);
    var topicBounded := Subscription.CheckText(r.topicScope, Subscription.SCOPE_LIMIT);
    var wild := Subscription.HasWildcard(r.topicScope, 0);
    assert r.topicScope[0..] == r.topicScope;
    var apiBounded := r.apiScope == "";
    if !apiBounded {
      apiBounded := Subscription.CheckText(r.apiScope, 65);
    }
    if !nameBounded || r.clientType < 1 || r.clientType > 6
       || r.transports == {} || r.transports - {0, 1, 2} != {}
       || r.interfaces == {} || r.interfaces - {0, 1} != {}
       || !scopeValid || !topicBounded || wild || !apiBounded || Undefined(r.permissions) {
      return false;
    }
    return CanManage(a, r.scope, r.permissions);
  }

  predicate WellFormed(p: Payload) {
    |p.machines| == MAX_MACHINES && p.count <= MAX_MACHINES
  }

  /** The position of a record, or the count. */
  function FindFrom(p: Payload, id: string, i: nat): (at: nat)
    requires WellFormed(p) && i <= p.count
    ensures i <= at <= p.count
    ensures at < p.count ==> p.machines[at].identifier == id
    ensures forall k :: i <= k < at ==> p.machines[k].identifier != id
    decreases p.count - i
  {
    if i == p.count || p.machines[i].identifier == id then i else FindFrom(p, id, i + 1)
  }

  function Find(p: Payload, id: string): (at: nat)
    requires WellFormed(p)
    ensures at <= p.count
    ensures at < p.count ==> p.machines[at].identifier == id
    ensures forall k :: 0 <= k < at ==> p.machines[k].identifier != id
  {
    FindFrom(p, id, 0)
  }

  /** The first drawn identifier nobody has. */
  function FreshId(p: Payload, candidates: seq<string>): (id: Option<string>)
    requires WellFormed(p)
    ensures id.Some? ==> Find(p, id.value) == p.count
  {
    if candidates == [] then None
    else if Find(p, candidates[0]) == p.count then Some(candidates[0])
    else FreshId(p, candidates[1..])
  }

  /** Version counters skip zero when they wrap. */
  function Bump(v: uint32): (next: uint32)
    ensures next != 0
  {
    if v == TWO_32 - 1 then 1 else v + 1
  }

  /** Every edit of a record leaves the stamps of the commit it is part of. */
  function Stamped(m: Machine, g: uint32): Machine {
    m.(principalRevision := Bump(m.principalRevision), securityEpoch := Inc32(g))
  }

  function Enrolled(actor: Actor, r: Request, id: string, verifier: seq<nat>, g: uint32): Machine {
    Machine(1, true, false, r.clientType, r.transports, r.interfaces, id, r.displayName,
            r.scope, r.topicScope, r.apiScope, actor.identifier, r.permissions,
            1, Inc32(g), 1, verifier)
  }

  /** The record after an operation that edits one record. */
  function Changed(m: Machine, g: uint32, op: Operation): Machine {
    match op
    case Rotate(_, v) =>
      Stamped(m.(verifier := v, credentialVersion := Bump(m.credentialVersion)), g)
    case SetEnabled(_, on) => Stamped(m.(enabled := on), g)
    case SetPermissions(_, granted) => Stamped(m.(permissions := granted), g)
    case Revoke(_) =>
      Stamped(m.(enabled := false, revoked := true,
                 credentialVersion := Bump(m.credentialVersion)), g)
    case _ => Stamped(m.(enabled := false), g)
  }

  /** Why an operation refuses the record it found, once the caller may manage it. */
  predicate RefusesRecord(m: Machine, op: Operation) {
    match op
    case SetEnabled(_, on) => on && m.revoked
    case SetPermissions(_, _) => m.revoked
    case Delete(_) => !m.revoked
    case _ => false
  }

  function Removed(p: Payload, at: nat): Payload
    requires WellFormed(p) && at < p.count
  {
    p.(count := p.count - 1,
       machines := p.machines[at := p.machines[p.count - 1]][p.count - 1 := NO_MACHINE])
  }

  /** The edited snapshot. Quarantine is the service's own reaction and has no caller. */
  function EditOf(p: Payload, g: uint32, actor: Actor, op: Operation): Edit
    requires WellFormed(p)
  {
    if op.Enroll? then
      if !EnrollmentAllowed(actor, op.request) then Refused(NotAllowed)
      else if p.count >= MAX_MACHINES then Refused(NoRoom)
      else
        var id := FreshId(p, op.candidates);
        if id.None? then Refused(WrongState)
        else
          Edited(p.(count := p.count + 1, machines := p.machines[p.count :=
            Enrolled(actor, op.request, id.value, op.verifier, g)]))
    else if op.SetPermissions? && Undefined(op.granted) then Refused(BadArgument)
    else if !op.Quarantine? && !actor.permitted then Refused(NotAllowed)
    else
      var at := Find(p, op.id);
      if at == p.count then Refused(Unknown)
      else if !op.Quarantine? && !ScopeContains(actor.scope, p.machines[at].scope)
      then Refused(NotAllowed)
      else if op.SetPermissions? && !CanManage(actor, p.machines[at].scope, op.granted)
      then Refused(NotAllowed)
      else if RefusesRecord(p.machines[at], op) then Refused(WrongState)
      else if op.Delete? then Edited(Removed(p, at))
      else Edited(p.(machines := p.machines[at := Changed(p.machines[at], g, op)]))
  }

  /** A private copy of the directory, edited in place. */
  class Snapshot {
    const machines: array<Machine>
    var count: nat
    const generation: uint32

    ghost predicate Valid()
      reads this
    {
      machines.Length == MAX_MACHINES && count <= MAX_MACHINES
    }

    ghost function View(): (p: Payload)
      requires Valid()
      reads this, machines
      ensures WellFormed(p)
    {
      Payload(SCHEMA_VERSION, count, 0, machines[..])
    }

    constructor (p: Payload, generation: uint32)
      requires WellFormed(p)
      ensures Valid() && fresh(machines)
      ensures this.generation == generation && machines[..] == p.machines && count == p.count
    {
      this.generation := generation;
      count := p.count;
      machines := new Machine[MAX_MACHINES](i requires 0 <= i < MAX_MACHINES => p.machines[i]);
    }

    method IndexOf(id: string) returns (at: nat)
      requires Valid()
      ensures at == Find(View(), id)
    {
      at := 0;
      while at < count
        invariant 0 <= at <= count
        invariant FindFrom(View(), id, 0) == FindFrom(View(), id, at)
      {
        if machines[at].identifier == id {
          return;
        }
        at := at + 1;
      }
    }

    method DrawIdentifier(candidates: seq<string>) returns (id: Option<string>)
      requires Valid()
      ensures id == FreshId(View(), candidates)
    {
      var attempt := 0;
      while attempt < |candidates|
        invariant 0 <= attempt <= |candidates|
        invariant FreshId(View(), candidates) == FreshId(View(), candidates[attempt..])
      {
        var at := IndexOf(candidates[attempt]);
        if at == count {
          return Some(candidates[attempt]);
        }
        attempt := attempt + 1;
      }
      return None;
    }

    method EnrollMachine(
      actor: Actor, request: Request, candidates: seq<string>, verifier: seq<nat>)
      returns (refusal: Option<Refusal>)
      requires Valid() && |candidates| == ID_ATTEMPTS
      modifies this, machines
      ensures Valid()
      ensures EditOf(old(View()), generation, actor, Enroll(request, candidates, verifier))
           == if refusal.Some? then Refused(refusal.value) else Edited(View())
      ensures refusal.Some? ==> View() == old(View())
    {
      var allowed := CheckEnrollment(actor, request);
      if !allowed {
        return Some(NotAllowed);
      }
      if count >= MAX_MACHINES {
        return Some(NoRoom);
      }
      var id := DrawIdentifier(candidates);
      if id.None? {
        return Some(WrongState);
      }
      machines[count] := Enrolled(actor, request, id.value, verifier, generation);
      count := count + 1;
      return None;
    }

    /** The record an operation may edit, if the caller manages it. */
    method MutableTarget(actor: Actor, id: string) returns (at: nat, refusal: Option<Refusal>)
      requires Valid()
      ensures at <= count
      ensures refusal == if !actor.permitted then Some(NotAllowed)
                         else if Find(View(), id) == count then Some(Unknown)
                         else if !ScopeContains(actor.scope, machines[Find(View(), id)].scope)
                         then Some(NotAllowed) else None
      ensures refusal.None? ==> at == Find(View(), id) < count
    {
      at := 0;
      if !actor.permitted {
        return at, Some(NotAllowed);
      }
      at := IndexOf(id);
      if at == count {
        return at, Some(Unknown);
      }
      if !ScopeContains(actor.scope, machines[at].scope) {
        return at, Some(NotAllowed);
      }
      return at, None;
    }

    /** Rotation, enabling, permissions, revocation: one record edited where it is. */
    method ChangeMachine(actor: Actor, op: Operation) returns (refusal: Option<Refusal>)
      requires Valid() && !op.Enroll? && !op.Delete? && !op.Quarantine?
      modifies machines
      ensures Valid()
      ensures EditOf(old(View()), generation, actor, op)
           == if refusal.Some? then Refused(refusal.value) else Edited(View())
      ensures refusal.Some? ==> View() == old(View())
    {
      if op.SetPermissions? && Undefined(op.granted) {
        return Some(BadArgument);
      }
      var at;
      at, refusal := MutableTarget(actor, op.id);
      if refusal.Some? {
        return;
      }
      var m := machines[at];
      if op.SetPermissions? && !CanManage(actor, m.scope, op.granted) {
        return Some(NotAllowed);
      }
      match op {
        case Rotate(_, v) =>
          m := m.(verifier := v, credentialVersion := Bump(m.credentialVersion));
        case SetEnabled(_, on) =>
          if on && m.revoked {
            return Some(WrongState);
          }
          m := m.(enabled := on);
        case SetPermissions(_, granted) =>
          if m.revoked {
            return Some(WrongState);
          }
          m := m.(permissions := granted);
        case Revoke(_) =>
          m := m.(enabled := false, revoked := true);
          m := m.(credentialVersion := Bump(m.credentialVersion));
      }
      m := m.(principalRevision := Bump(m.principalRevision));
      machines[at] := m.(securityEpoch := Inc32(generation));
    }

    method QuarantineMachine(id: string) returns (refusal: Option<Refusal>)
      requires Valid()
      modifies machines
      ensures Valid()
      ensures forall actor ::
                EditOf(old(View()), generation, actor, Quarantine(id))
                == (if refusal.Some? then Refused(refusal.value) else Edited(View()))
      ensures refusal.Some? ==> View() == old(View())
    {
      var at := IndexOf(id);
      if at == count {
        return Some(Unknown);
      }
      machines[at] := Stamped(machines[at].(enabled := false), generation);
      return None;
    }

    /** The last record takes the place of the deleted one. */
    method DeleteMachine(actor: Actor, id: string) returns (refusal: Option<Refusal>)
      requires Valid()
      modifies this, machines
      ensures Valid()
      ensures EditOf(old(View()), generation, actor, Delete(id))
           == if refusal.Some? then Refused(refusal.value) else Edited(View())
      ensures refusal.Some? ==> View() == old(View())
    {
      var at;
      at, refusal := MutableTarget(actor, id);
      if refusal.Some? {
        return;
      }
      if !machines[at].revoked {
        return Some(WrongState);
      }
      var last := count - 1;
      machines[at] := NO_MACHINE;
      if at != last {
        machines[at] := machines[last];
        machines[last] := NO_MACHINE;
      }
      count := count - 1;
      assert machines[..] == old(machines[..])[at := old(machines[..])[last]][last := NO_MACHINE];
    }
  }

  // ------------------------------------------------------------ sessions

  /** What a session remembers of the record it was authenticated against. */
  datatype Principal = Principal(
    identifier: string, scope: string, topicScope: string, apiScope: string,
    permissions: set<nat>, transports: set<nat>, interfaces: set<nat>, clientType: nat,
    credentialVersion: uint32, principalRevision: uint32, securityEpoch: uint32,
    generation: uint32)

  function PrincipalOf(m: Machine, g: uint32): Principal {
    Principal(m.identifier, m.scope, m.topicScope, m.apiScope, m.permissions, m.transports,
              m.interfaces, m.clientType, m.credentialVersion, m.principalRevision,
              m.securityEpoch, g)
  }

  /** The conditions under which a record admits an MQTT session over an interface. */
  predicate Admits(m: Machine, via: set<nat>) {
    m.enabled && !m.revoked && MQTT_TRANSPORT in m.transports && m.interfaces * via != {}
  }

  /** Authentication, once the key derivation has said whether the secret matched. */
  function Authenticate(p: Payload, g: uint32, id: string, matched: bool, via: set<nat>)
    : Option<Principal>
    requires WellFormed(p)
  {
    var at := Find(p, id);
    if at == p.count || !matched || !Admits(p.machines[at], via) then None
    else Some(PrincipalOf(p.machines[at], g))
  }

  /** Is a live session still backed by the record it was admitted with? */
  predicate Revalidate(p: Payload, principal: Principal, via: set<nat>)
    requires WellFormed(p)
  {
    var at := Find(p, principal.identifier);
    && principal.identifier != ""
    && at < p.count
    && var m := p.machines[at];
       && Admits(m, via)
       && m.credentialVersion == principal.credentialVersion
       && m.principalRevision == principal.principalRevision
       && m.securityEpoch == principal.securityEpoch
       && m.permissions == principal.permissions
       && m.scope == principal.scope
       && m.topicScope == principal.topicScope
  }
}
