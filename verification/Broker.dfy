/** The broker's connection records and authenticated-session slots. Every
    function here is one region under the client lock; the class below runs the
    same regions over the arrays the firmware changes in place. */
module Broker {
  import opened Words
  import opened Journal

  const MAX_CLIENTS: nat := 3
  const MAX_PRECONNECT: nat := 3
  const MAX_PRECONNECT_UNPROVEN: nat := 2
  const MAX_PRECONNECT_PER_SOURCE: nat := 1
  const MAX_CONNECTIONS: nat := 6

  /** `session` is the index of the session slot the record owns, or -1. */
  datatype Client = Client(
    inUse: bool, connected: bool, invalidated: bool, claimed: bool,
    sock: int, connectionId: uint64, peer: uint32,
    clientId: string, identifier: string, session: int)

  const FREE := Client(false, false, false, false, 0, 0, 0, "", "", -1)

  datatype State = State(
    clients: seq<Client>, sessions: seq<bool>, history: seq<string>, nextId: uint64)

  predicate WellSized(b: State) {
    |b.clients| == MAX_CONNECTIONS && |b.sessions| == MAX_CLIENTS
  }

  function Start(): State {
    State(seq(MAX_CONNECTIONS, _ => FREE), seq(MAX_CLIENTS, _ => false), [], 0)
  }

  // ------------------------------------------------------------ arrival

  predicate IsPending(c: Client) {
    c.inUse && !c.connected
  }

  predicate IsConnected(c: Client) {
    c.inUse && c.connected
  }

  ghost function Pending(clients: seq<Client>): set<nat> {
    set i: nat | i < |clients| && IsPending(clients[i])
  }

  ghost function PendingFrom(clients: seq<Client>, peer: uint32): set<nat> {
    set i: nat | i < |clients| && IsPending(clients[i]) && clients[i].peer == peer
  }

  ghost function Connected(clients: seq<Client>): set<nat> {
    set i: nat | i < |clients| && IsConnected(clients[i])
  }

  datatype Decision = AdmitSocket | RefusePool | RefuseReserved | RefuseSource

  function PreconnectDecide(pending: nat, fromSource: nat, proven: bool): Decision {
    if pending >= MAX_PRECONNECT then RefusePool
    else if pending >= MAX_PRECONNECT_UNPROVEN && !proven then RefuseReserved
    else if fromSource >= MAX_PRECONNECT_PER_SOURCE then RefuseSource
    else AdmitSocket
  }

  ghost function ArrivalDecision(b: State, peer: uint32, proven: bool): Decision {
    PreconnectDecide(|Pending(b.clients)|, |PendingFrom(b.clients, peer)|,
                     |Pending(b.clients)| >= MAX_PRECONNECT_UNPROVEN && proven)
  }

  /** The first record from `i` on that nobody uses; the length if there is none. */
  function FirstFree(clients: seq<Client>, i: nat): (slot: nat)
    requires i <= |clients|
    ensures i <= slot <= |clients|
    ensures slot < |clients| ==> !clients[slot].inUse
    ensures forall j :: i <= j < slot ==> clients[j].inUse
    decreases |clients| - i
  {
    if i == |clients| || !clients[i].inUse then i else FirstFree(clients, i + 1)
  }

  function NextId(id: uint64): uint64 {
    if id == TWO_64 - 1 then 0 else id + 1
  }

  /** A freshly accepted socket: admission, then a record for it. */
  ghost function Arrive(b: State, sock: int, peer: uint32, proven: bool): (Option<nat>, State) {
    var slot := FirstFree(b.clients, 0);
    if ArrivalDecision(b, peer, proven) != AdmitSocket || slot == |b.clients| then (None, b)
    else
      var id := NextId(b.nextId);
      var c := Client(true, false, false, false, sock, id, peer, "", "", -1);
      (Some(slot), b.(clients := b.clients[slot := c], nextId := id))
  }

  // ------------------------------------------------------------ binding

  predicate DuplicateId(clients: seq<Client>, slot: nat, clientId: string) {
    exists i :: 0 <= i < |clients| && i != slot &&
      IsConnected(clients[i]) && clients[i].clientId == clientId
  }

  predicate BindAllowed(
    b: State, slot: nat, expectedId: uint64, identifier: string, clientId: string,
    captured: nat)
    requires slot < |b.clients|
  {
    var c := b.clients[slot];
    && c.inUse && !c.connected && !c.invalidated
    && c.connectionId == expectedId
    && !DuplicateId(b.clients, slot, clientId)
    && !Since(b.history, identifier, captured)
  }

  function FirstSession(sessions: seq<bool>, i: nat): (s: nat)
    requires i <= |sessions|
    ensures i <= s <= |sessions|
    ensures s < |sessions| ==> !sessions[s]
    ensures forall j :: i <= j < s ==> sessions[j]
    decreases |sessions| - i
  {
    if i == |sessions| || !sessions[i] then i else FirstSession(sessions, i + 1)
  }

  datatype BindResult = Bound | Refused | NoCapacity

  /** The second locked region of CONNECT, after authentication succeeded. */
  function Bind(
    b: State, slot: nat, expectedId: uint64, identifier: string, clientId: string,
    captured: nat): (BindResult, State)
    requires slot < |b.clients|
  {
    var c := b.clients[slot];
    if !BindAllowed(b, slot, expectedId, identifier, clientId, captured) then (Refused, b)
    else if c.session >= 0 then
      (Bound, b.(clients := b.clients[slot := c.(
         connected := true, clientId := clientId, identifier := identifier)]))
    else
      var s := FirstSession(b.sessions, 0);
      if s == |b.sessions| then (NoCapacity, b)
      else
        (Bound, b.(
           clients := b.clients[slot := c.(
             connected := true, clientId := clientId, identifier := identifier, session := s)],
           sessions := b.sessions[s := true]))
  }

  // ------------------------------------------------------------ revocation

  predicate Matches(c: Client, identifier: string) {
    c.inUse && c.connected && c.sock >= 0 && c.identifier == identifier
  }

  function Invalidate(clients: seq<Client>, identifier: string): seq<Client> {
    seq(|clients|, i requires 0 <= i < |clients| =>
      if Matches(clients[i], identifier) then clients[i].(invalidated := true) else clients[i])
  }

  function Fence(b: State, identifier: string): State {
    if !IdentifierValid(identifier) then b
    else b.(history := b.history + [identifier], clients := Invalidate(b.clients, identifier))
  }

  /** A descriptor an invalidator holds across its unlocked shutdown. */
  datatype Target = Target(slot: nat, connectionId: uint64, sock: int)

  function TargetOf(clients: seq<Client>, i: nat): Target
    requires i < |clients|
  {
    Target(i, clients[i].connectionId, clients[i].sock)
  }

  function Claimable(clients: seq<Client>, identifier: string): set<Target> {
    set i | 0 <= i < |clients| && Matches(clients[i], identifier) && !clients[i].claimed ::
      TargetOf(clients, i)
  }

  function Claim(b: State, identifier: string): (set<Target>, State) {
    (Claimable(b.clients, identifier),
     b.(clients := seq(|b.clients|, i requires 0 <= i < |b.clients| =>
          if Matches(b.clients[i], identifier)
          then b.clients[i].(invalidated := true, claimed := true) else b.clients[i])))
  }

  /** False is the branch the firmware logs as "ownership lost". */
  function ReleaseClaim(b: State, t: Target): (bool, State)
    requires t.slot < |b.clients|
  {
    var c := b.clients[t.slot];
    if !c.claimed || !c.inUse || c.connectionId != t.connectionId || c.sock != t.sock then (false, b)
    else (true, b.(clients := b.clients[t.slot := c.(claimed := false)]))
  }

  // ------------------------------------------------------------ closing

  function WithoutSession(sessions: seq<bool>, s: int): seq<bool> {
    if 0 <= s < |sessions| then sessions[s := false] else sessions
  }

  /** The record is cleared only when no invalidator holds its descriptor. */
  function Close(b: State, slot: nat): (Option<int>, State)
    requires slot < |b.clients|
  {
    var c := b.clients[slot];
    if c.claimed then (None, b)
    else
      (Some(c.sock),
       b.(clients := b.clients[slot := c.(
            sock := -1, connected := false, invalidated := false, claimed := false,
            inUse := false, session := -1, identifier := "")],
          sessions := WithoutSession(b.sessions, c.session)))
  }

  /** The server could not start a task for a record it just allocated. */
  function Abandon(b: State, slot: nat): State
    requires slot < |b.clients|
  {
    var c := b.clients[slot];
    b.(clients := b.clients[slot := c.(sock := -1, inUse := false, session := -1)],
       sessions := WithoutSession(b.sessions, c.session))
  }

  predicate AnyClaim(clients: seq<Client>) {
    exists i :: 0 <= i < |clients| && clients[i].claimed
  }

  predicate Retires(c: Client) {
    c.inUse && c.sock >= 0
  }

  function Retirable(clients: seq<Client>): set<int> {
    set i | 0 <= i < |clients| && Retires(clients[i]) :: clients[i].sock
  }

  /** Stopping takes every descriptor out of its record, once none is claimed. */
  function Retire(b: State): (set<int>, State) {
    if AnyClaim(b.clients) then ({}, b)
    else
      (Retirable(b.clients),
       b.(clients := seq(|b.clients|, i requires 0 <= i < |b.clients| =>
            if Retires(b.clients[i]) then b.clients[i].(sock := -1) else b.clients[i])))
  }

  // ------------------------------------------------------------ the arrays

  lemma PendingGrows(clients: seq<Client>, i: nat)
    requires i < |clients|
    ensures |Pending(clients[..i + 1])|
         == |Pending(clients[..i])| + (if IsPending(clients[i]) then 1 else 0)
  {
    assert Pending(clients[..i + 1])
        == Pending(clients[..i]) + (if IsPending(clients[i]) then {i} else {});
  }

  lemma PendingFromGrows(clients: seq<Client>, i: nat, peer: uint32)
    requires i < |clients|
    ensures |PendingFrom(clients[..i + 1], peer)|
         == |PendingFrom(clients[..i], peer)|
            + (if IsPending(clients[i]) && clients[i].peer == peer then 1 else 0)
  {
    assert PendingFrom(clients[..i + 1], peer)
        == PendingFrom(clients[..i], peer)
           + (if IsPending(clients[i]) && clients[i].peer == peer then {i} else {});
  }

  class Connections {
    const clients: array<Client>
    const sessions: array<bool>
    const journal: InvalidationJournal
    var nextId: uint64

    ghost predicate Valid()
      reads this, clients, sessions, journal, journal.events
    {
      && clients.Length == MAX_CONNECTIONS && sessions.Length == MAX_CLIENTS
      && journal.Valid()
      && forall i :: 0 <= i < clients.Length ==> -1 <= clients[i].session < MAX_CLIENTS
    }

    ghost function View(): State
      reads this, clients, sessions, journal
    {
      State(clients[..], sessions[..], journal.history, nextId)
    }

    constructor ()
      ensures Valid() && View() == Start()
      ensures fresh(clients) && fresh(sessions) && fresh(journal) && fresh(journal.events)
    {
      clients := new Client[MAX_CONNECTIONS](_ => FREE);
      sessions := new bool[MAX_CLIENTS](_ => false);
      journal := new InvalidationJournal();
      nextId := 0;
    }

    /** Counts both pools in one pass; `proven` is the machine service's answer,
        consulted only when the reserved share is in play. */
    method PreconnectAdmit(peer: uint32, proven: bool) returns (admitted: bool)
      requires Valid()
      ensures admitted == (ArrivalDecision(View(), peer, proven) == AdmitSocket)
    {
      var pending, fromSource := 0, 0;
      var i := 0;
      while i < clients.Length
        invariant 0 <= i <= clients.Length
        invariant pending == |Pending(clients[..i])|
        invariant fromSource == |PendingFrom(clients[..i], peer)|
      {
        PendingGrows(clients[..], i);
        PendingFromGrows(clients[..], i, peer);
        assert clients[..][..i] == clients[..i] && clients[..][..i + 1] == clients[..i + 1];
        var c := clients[i];
        if c.inUse && !c.connected {
          pending := pending + 1;
          if c.peer == peer {
            fromSource := fromSource + 1;
          }
        }
        i := i + 1;
      }
      assert clients[..i] == clients[..];
      var consulted := pending >= MAX_PRECONNECT_UNPROVEN && proven;
      admitted := PreconnectDecide(pending, fromSource, consulted) == AdmitSocket;
    }

    method AllocClient(sock: int, peer: uint32, proven: bool) returns (slot: Option<nat>)
      requires Valid()
      modifies `nextId, clients
      ensures Valid()
      ensures (slot, View()) == Arrive(old(View()), sock, peer, proven)
    {
      var admitted := PreconnectAdmit(peer, proven);
      if !admitted {
        return None;
      }
      var i := 0;
      while i < clients.Length
        invariant 0 <= i <= clients.Length
        invariant FirstFree(clients[..], 0) == FirstFree(clients[..], i)
      {
        if !clients[i].inUse {
          nextId := NextId(nextId);
          clients[i] := Client(true, false, false, false, sock, nextId, peer, "", "", -1);
          return Some(i);
        }
        i := i + 1;
      }
      return None;
    }

    method DuplicateClientId(slot: nat, clientId: string) returns (duplicate: bool)
      requires Valid() && slot < clients.Length
      ensures duplicate == DuplicateId(clients[..], slot, clientId)
    {
      var i := 0;
      while i < clients.Length
        invariant 0 <= i <= clients.Length
        invariant forall j :: 0 <= j < i && j != slot ==>
                    !(IsConnected(clients[j]) && clients[j].clientId == clientId)
      {
        var other := clients[i];
        if i != slot && other.inUse && other.connected && other.clientId == clientId {
          assert IsConnected(clients[..][i]);
          return true;
        }
        i := i + 1;
      }
      return false;
    }

    method SessionClaim(slot: nat) returns (claimed: bool)
      requires Valid() && slot < clients.Length
      modifies clients, sessions
      ensures Valid()
      ensures var s := FirstSession(old(sessions[..]), 0);
              var c := old(clients[slot]);
              && claimed == (c.session >= 0 || s < MAX_CLIENTS)
              && (if c.session >= 0 || s == MAX_CLIENTS
                  then clients[..] == old(clients[..]) && sessions[..] == old(sessions[..])
                  else clients[..] == old(clients[..])[slot := c.(session := s)]
                       && sessions[..] == old(sessions[..])[s := true])
    {
      if clients[slot].session >= 0 {
        return true;
      }
      var i := 0;
      while i < sessions.Length
        invariant 0 <= i <= sessions.Length
        invariant FirstSession(sessions[..], 0) == FirstSession(sessions[..], i)
      {
        if !sessions[i] {
          sessions[i] := true;
          clients[slot] := clients[slot].(session := i);
          return true;
        }
        i := i + 1;
      }
      return false;
    }

    /** The second locked region of CONNECT. */
    method BindSession(slot: nat, expectedId: uint64, identifier: string, clientId: string,
                       captured: uint64)
      returns (result: BindResult)
      requires Valid() && slot < clients.Length
      modifies clients, sessions
      ensures Valid()
      ensures (result, View())
           == Bind(old(View()), slot, expectedId, identifier, clientId, captured)
    {
      var duplicate := DuplicateClientId(slot, clientId);
      var revoked := journal.QuerySince(identifier, captured);
      var c := clients[slot];
      if !c.inUse || c.connected || c.invalidated || c.connectionId != expectedId
         || duplicate || revoked {
        return Refused;
      }
      var capacity := SessionClaim(slot);
      if !capacity {
        return NoCapacity;
      }
      clients[slot] := clients[slot].(
        clientId := clientId, identifier := identifier, connected := true);
      assert clients[..] == old(clients[..])[slot := clients[slot]];
      return Bound;
    }

    /** When the journal's counter wraps, its history starts over first. */
    method FenceMachine(identifier: string) returns (recorded: bool)
      requires Valid()
      modifies clients, journal, journal.events
      ensures Valid()
      ensures recorded == IdentifierValid(identifier)
      ensures var before := if recorded && |old(journal.history)| == TWO_64 - 1
                            then old(View()).(history := []) else old(View());
              View() == Fence(before, identifier)
    {
      recorded := journal.Record(identifier);
      if recorded {
        var i := 0;
        while i < clients.Length
          modifies clients
          invariant 0 <= i <= clients.Length
          invariant forall j :: 0 <= j < clients.Length ==>
                      clients[j] == if j < i then Invalidate(old(clients[..]), identifier)[j]
                                    else old(clients[j])
        {
          var c := clients[i];
          if c.inUse && c.connected && c.sock >= 0 && c.identifier == identifier {
            clients[i] := c.(invalidated := true);
          }
          i := i + 1;
        }
      }
    }

    /** Collects every matching descriptor nobody else holds. */
    method ClaimMatching(identifier: string) returns (targets: seq<Target>)
      requires Valid()
      modifies clients
      ensures Valid()
      ensures var (claimed, b) := Claim(old(View()), identifier);
              View() == b && (set t | t in targets) == claimed
      ensures forall i, j :: 0 <= i < j < |targets| ==> targets[i] != targets[j]
    {
      targets := [];
      ghost var before := clients[..];
      var i := 0;
      while i < clients.Length
        invariant 0 <= i <= clients.Length
        invariant forall j :: 0 <= j < clients.Length ==>
                    clients[j] == if j < i && Matches(before[j], identifier)
                                  then before[j].(invalidated := true, claimed := true)
                                  else before[j]
        invariant forall t :: t in targets <==>
                    t.slot < i && Matches(before[t.slot], identifier)
                    && !before[t.slot].claimed && t == TargetOf(before, t.slot)
        invariant forall j, k :: 0 <= j < k < |targets| ==> targets[j].slot < targets[k].slot
      {
        var c := clients[i];
        if c.inUse && c.connected && c.sock >= 0 && c.identifier == identifier {
          clients[i] := c.(invalidated := true);
          if !c.claimed {
            clients[i] := c.(invalidated := true, claimed := true);
            targets := targets + [Target(i, c.connectionId, c.sock)];
          }
        }
        i := i + 1;
      }
      assert (set t | t in targets) == Claimable(before, identifier);
    }

    method ReleaseClaimed(t: Target) returns (released: bool)
      requires Valid() && t.slot < clients.Length
      modifies clients
      ensures Valid()
      ensures (released, View()) == ReleaseClaim(old(View()), t)
    {
      var c := clients[t.slot];
      if !c.claimed || !c.inUse || c.connectionId != t.connectionId || c.sock != t.sock {
        return false;
      }
      clients[t.slot] := c.(claimed := false);
      return true;
    }

    method SessionRelease(slot: nat)
      requires Valid() && slot < clients.Length
      modifies clients, sessions
      ensures Valid()
      ensures var c := old(clients[slot]);
              clients[..] == old(clients[..])[slot := if c.session < 0 then c else c.(session := -1)]
      ensures sessions[..] == WithoutSession(old(sessions[..]), old(clients[slot]).session)
    {
      var c := clients[slot];
      if c.session < 0 {
        return;
      }
      sessions[c.session] := false;
      clients[slot] := c.(session := -1);
    }

    /** One pass of the closing loop: nothing while a claim is held. */
    method CloseClient(slot: nat) returns (sock: Option<int>)
      requires Valid() && slot < clients.Length
      modifies clients, sessions
      ensures Valid()
      ensures (sock, View()) == Close(old(View()), slot)
    {
      var c := clients[slot];
      if c.claimed {
        return None;
      }
      sock := Some(c.sock);
      clients[slot] := c.(
        sock := -1, connected := false, invalidated := false, claimed := false, inUse := false);
      SessionRelease(slot);
      clients[slot] := clients[slot].(identifier := "");
      assert clients[..] == old(clients[..])[slot := clients[slot]];
    }

    method AbandonClient(slot: nat)
      requires Valid() && slot < clients.Length
      modifies clients, sessions
      ensures Valid() && View() == Abandon(old(View()), slot)
    {
      clients[slot] := clients[slot].(sock := -1, inUse := false);
      SessionRelease(slot);
    }

    /** One pass of the stopping loop. */
    method RetireSockets() returns (socks: seq<int>)
      requires Valid()
      modifies clients
      ensures Valid()
      ensures var (retired, b) := Retire(old(View()));
              View() == b && (set s | s in socks) == retired
    {
      socks := [];
      ghost var before := clients[..];
      var i := 0;
      while i < clients.Length
        invariant 0 <= i <= clients.Length
        invariant forall j :: 0 <= j < i ==> !clients[j].claimed
      {
        if clients[i].claimed {
          return;
        }
        i := i + 1;
      }
      i := 0;
      while i < clients.Length
        invariant 0 <= i <= clients.Length
        invariant forall j :: 0 <= j < clients.Length ==>
                    clients[j] == if j < i && Retires(before[j])
                                  then before[j].(sock := -1) else before[j]
        invariant forall s :: s in socks ==>
                    exists j :: 0 <= j < i && Retires(before[j]) && before[j].sock == s
        invariant forall j :: 0 <= j < i && Retires(before[j]) ==> before[j].sock in socks
      {
        var c := clients[i];
        if c.inUse && c.sock >= 0 {
          clients[i] := c.(sock := -1);
          socks := socks + [c.sock];
        }
        i := i + 1;
      }
      forall s | s in socks
        ensures s in Retirable(before)
      {
        var j :| 0 <= j < i && Retires(before[j]) && before[j].sock == s;
      }
      assert forall s :: s in Retirable(before) ==> s in socks;
      assert (set s | s in socks) == Retirable(before);
    }
  }
}
