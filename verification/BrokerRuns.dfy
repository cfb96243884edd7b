/** Whole runs of one broker lifecycle: the server task, one task per connection,
    any number of invalidators and the stopping task interleave their locked
    regions and their unlocked socket calls in any order. */
module BrokerRuns {
  import opened Words
  import opened Journal
  import opened Broker

  /** What the task of a connection record is doing. */
  datatype Task =
    | NoTask
    | Waiting
    | Authenticating(expectedId: uint64, captured: nat)
    | Serving(captured: nat)

  /** The accept loop: it handles one descriptor at a time. */
  datatype Server =
    | Idle
    | Accepted(sock: int)
    | Starting(slot: nat, sock: int)
    | Rejecting(sock: int)

  /** `claims` are the descriptors invalidators hold, `open` the descriptors of the
      operating system, `closing` those a task or the stopping task has taken out
      of a record and is about to close, `proven` what admission was told. */
  datatype System = System(
    b: State, tasks: seq<Task>, proven: seq<bool>, claims: set<Target>,
    open: set<int>, closing: set<int>, server: Server, stopping: bool)

  datatype Event =
    | Accept(sock: int)
    | Allocate(peer: uint32, isProven: bool)
    | StartTask
    | RefuseTask
    | Reject
    | Capture(slot: nat)
    | Authenticated(slot: nat, identifier: string, clientId: string)
    | AuthenticationFailed(slot: nat)
    | FenceMachine(identifier: string)
    | ClaimMachine(identifier: string)
    | ReleaseTarget(target: Target)
    | CloseRecord(slot: nat)
    | CloseDescriptor(sock: int)
    | Stop
    | RetireRecords

  function Initial(): System {
    System(Start(), seq(MAX_CONNECTIONS, _ => NoTask), seq(MAX_CONNECTIONS, _ => false),
           {}, {}, {}, Idle, false)
  }

  predicate Sized(s: System) {
    WellSized(s.b) && |s.tasks| == MAX_CONNECTIONS && |s.proven| == MAX_CONNECTIONS
  }

  predicate HasTask(s: System, slot: nat)
    requires Sized(s)
  {
    slot < MAX_CONNECTIONS && !s.tasks[slot].NoTask?
  }

  // ------------------------------------------------------------ steps

  /** A descriptor the broker does not have open yet, while it is running. */
  function DoAccept(s: System, sock: int): System {
    if s.server != Idle || s.stopping || sock < 0 || sock in s.open then s
    else s.(server := Accepted(sock), open := s.open + {sock})
  }

  ghost function DoAllocate(s: System, peer: uint32, isProven: bool): System
    requires Sized(s)
  {
    if !s.server.Accepted? then s
    else
      var (slot, b) := Arrive(s.b, s.server.sock, peer, isProven);
      if slot.None? then s.(server := Rejecting(s.server.sock))
      else
        s.(b := b, server := Starting(slot.value, s.server.sock),
           proven := s.proven[slot.value :=
             |Pending(s.b.clients)| >= MAX_PRECONNECT_UNPROVEN && isProven])
  }

  function DoStartTask(s: System): System
    requires Sized(s)
  {
    if !s.server.Starting? || s.server.slot >= MAX_CONNECTIONS then s
    else s.(server := Idle, tasks := s.tasks[s.server.slot := Waiting])
  }

  function DoRefuseTask(s: System): System
    requires Sized(s)
  {
    if !s.server.Starting? || s.server.slot >= MAX_CONNECTIONS then s
    else s.(server := Rejecting(s.server.sock), b := Abandon(s.b, s.server.slot))
  }

  function DoReject(s: System): System {
    if !s.server.Rejecting? then s
    else s.(server := Idle, open := s.open - {s.server.sock})
  }

  /** The first locked region of CONNECT. */
  function DoCapture(s: System, slot: nat): System
    requires Sized(s)
  {
    if !HasTask(s, slot) || s.tasks[slot].Authenticating? then s
    else
      var c := s.b.clients[slot];
      if c.inUse && !c.connected && !c.invalidated
      then s.(tasks := s.tasks[slot := Authenticating(c.connectionId, |s.b.history|)])
      else s
  }

  /** The second locked region of CONNECT; any identity may have authenticated. */
  function DoAuthenticated(s: System, slot: nat, identifier: string, clientId: string): System
    requires Sized(s)
  {
    if !HasTask(s, slot) || !s.tasks[slot].Authenticating? then s
    else
      var t := s.tasks[slot];
      var (result, b) := Bind(s.b, slot, t.expectedId, identifier, clientId, t.captured);
      s.(b := b,
         tasks := s.tasks[slot := if result == Bound then Serving(t.captured) else Waiting])
  }

  function DoAuthenticationFailed(s: System, slot: nat): System
    requires Sized(s)
  {
    if !HasTask(s, slot) || !s.tasks[slot].Authenticating? then s
    else s.(tasks := s.tasks[slot := Waiting])
  }

  function DoClaim(s: System, identifier: string): System {
    var (claimed, b) := Claim(s.b, identifier);
    s.(b := b, claims := s.claims + claimed)
  }

  function DoRelease(s: System, t: Target): System
    requires Sized(s)
  {
    if t !in s.claims || t.slot >= MAX_CONNECTIONS then s
    else s.(b := ReleaseClaim(s.b, t).1, claims := s.claims - {t})
  }

  function DoClose(s: System, slot: nat): System
    requires Sized(s)
  {
    if !HasTask(s, slot) then s
    else
      var (sock, b) := Close(s.b, slot);
      if sock.None? then s
      else
        s.(b := b, tasks := s.tasks[slot := NoTask],
           closing := if sock.value >= 0 then s.closing + {sock.value} else s.closing)
  }

  function DoCloseDescriptor(s: System, sock: int): System {
    if sock !in s.closing then s
    else s.(open := s.open - {sock}, closing := s.closing - {sock})
  }

  function DoRetire(s: System): System {
    if !s.stopping then s
    else
      var (socks, b) := Retire(s.b);
      s.(b := b, closing := s.closing + socks)
  }

  /** An event that the current state does not enable changes nothing. */
  ghost function Step(s: System, e: Event): System
    requires Sized(s)
  {
    match e
    case Accept(sock) => DoAccept(s, sock)
    case Allocate(peer, isProven) => DoAllocate(s, peer, isProven)
    case StartTask => DoStartTask(s)
    case RefuseTask => DoRefuseTask(s)
    case Reject => DoReject(s)
    case Capture(slot) => DoCapture(s, slot)
    case Authenticated(slot, identifier, clientId) =>
      DoAuthenticated(s, slot, identifier, clientId)
    case AuthenticationFailed(slot) => DoAuthenticationFailed(s, slot)
    case FenceMachine(identifier) => s.(b := Fence(s.b, identifier))
    case ClaimMachine(identifier) => DoClaim(s, identifier)
    case ReleaseTarget(t) => DoRelease(s, t)
    case CloseRecord(slot) => DoClose(s, slot)
    case CloseDescriptor(sock) => DoCloseDescriptor(s, sock)
    case Stop => s.(stopping := true)
    case RetireRecords => DoRetire(s)
  }

  // ------------------------------------------------------------ invariants

  /** A usable record: connected, not invalidated, its descriptor still there. */
  predicate Usable(c: Client) {
    c.inUse && c.connected && !c.invalidated && c.sock >= 0
  }

  predicate TaskInv(clients: seq<Client>, tasks: seq<Task>, server: Server)
    requires |clients| == |tasks|
  {
    forall i :: 0 <= i < |clients| ==>
      && (!tasks[i].NoTask? ==> clients[i].inUse)
      && (IsConnected(clients[i]) ==> tasks[i].Serving?)
      && (clients[i].inUse && tasks[i].NoTask? ==> server.Starting? && server.slot == i)
  }

  /** Connection fencing: nothing usable was captured before a revocation of it. */
  predicate FenceInv(clients: seq<Client>, tasks: seq<Task>, history: seq<string>)
    requires |clients| == |tasks|
  {
    forall i :: 0 <= i < |clients| && Usable(clients[i]) ==>
      && tasks[i].Serving? && tasks[i].captured <= |history|
      && clients[i].identifier !in history[tasks[i].captured..]
  }

  ghost function Unproven(clients: seq<Client>, proven: seq<bool>): set<nat>
    requires |clients| == |proven|
  {
    set i: nat | i < |clients| && IsPending(clients[i]) && !proven[i]
  }

  predicate DistinctPeers(clients: seq<Client>) {
    forall i, j :: (0 <= i < j < |clients| && IsPending(clients[i]) && IsPending(clients[j])) ==>
      clients[i].peer != clients[j].peer
  }

  ghost predicate PoolInv(clients: seq<Client>, proven: seq<bool>)
    requires |clients| == |proven|
  {
    && |Pending(clients)| <= MAX_PRECONNECT
    && |Unproven(clients, proven)| <= MAX_PRECONNECT_UNPROVEN
    && DistinctPeers(clients)
  }

  predicate Owned(clients: seq<Client>, k: int) {
    exists i :: 0 <= i < |clients| && clients[i].session == k
  }

  /** Connected records and occupied session slots correspond one to one. */
  predicate SlotInv(clients: seq<Client>, sessions: seq<bool>) {
    && (forall i :: 0 <= i < |clients| ==>
          && -1 <= clients[i].session < |sessions|
          && (IsConnected(clients[i]) <==> clients[i].session >= 0)
          && (clients[i].session >= 0 ==> sessions[clients[i].session]))
    && (forall i, j :: 0 <= i < j < |clients| && clients[i].session >= 0 ==>
          clients[i].session != clients[j].session)
    && (forall k :: 0 <= k < |sessions| && sessions[k] ==> Owned(clients, k))
  }

  /** A claimed record stays exactly what its one invalidator claimed. */
  predicate Holds(clients: seq<Client>, t: Target) {
    && t.slot < |clients| && t.sock >= 0
    && IsConnected(clients[t.slot]) && clients[t.slot].claimed
    && t == TargetOf(clients, t.slot)
  }

  predicate ClaimInv(clients: seq<Client>, claims: set<Target>) {
    && (forall t :: t in claims ==> Holds(clients, t))
    && (forall i :: 0 <= i < |clients| && clients[i].claimed ==> TargetOf(clients, i) in claims)
  }

  predicate DistinctSockets(clients: seq<Client>) {
    forall i, j :: (0 <= i < j < |clients| && Retires(clients[i]) && Retires(clients[j])) ==>
      clients[i].sock != clients[j].sock
  }

  /** Who may still close a descriptor: one record, or one closer. */
  predicate DescriptorInv(
    clients: seq<Client>, open: set<int>, closing: set<int>, stopping: bool)
  {
    && (forall i :: 0 <= i < |clients| && Retires(clients[i]) ==>
          clients[i].sock in open && clients[i].sock !in closing)
    && DistinctSockets(clients)
    && (!stopping ==> closing <= open)
  }

  /** No two connections go by the same client id. */
  predicate IdentityInv(clients: seq<Client>) {
    forall i, j :: (0 <= i < |clients| && 0 <= j < |clients| && i != j
                    && IsConnected(clients[i]) && IsConnected(clients[j])) ==>
      clients[i].clientId != clients[j].clientId
  }

  predicate NoneHolds(clients: seq<Client>, sock: int, except: int) {
    forall i :: 0 <= i < |clients| && i != except ==>
      !(clients[i].inUse && clients[i].sock == sock)
  }

  predicate ServerInv(
    clients: seq<Client>, tasks: seq<Task>, server: Server,
    open: set<int>, closing: set<int>, stopping: bool)
    requires |clients| == |tasks|
  {
    match server
    case Idle => true
    case Accepted(sock) =>
      sock >= 0 && sock in open && sock !in closing && NoneHolds(clients, sock, -1)
    case Starting(slot, sock) =>
      && sock >= 0 && slot < |clients|
      && IsPending(clients[slot]) && tasks[slot].NoTask?
      && (clients[slot].sock == sock ||
          (clients[slot].sock == -1 && stopping && (sock in closing || sock !in open)))
      && NoneHolds(clients, sock, slot)
    case Rejecting(sock) =>
      && sock >= 0
      && (!stopping ==> sock in open && sock !in closing)
      && NoneHolds(clients, sock, -1)
  }

  ghost predicate Inv(s: System) {
    && Sized(s)
    && TaskInv(s.b.clients, s.tasks, s.server)
    && FenceInv(s.b.clients, s.tasks, s.b.history)
    && PoolInv(s.b.clients, s.proven)
    && SlotInv(s.b.clients, s.b.sessions)
    && ClaimInv(s.b.clients, s.claims)
    && IdentityInv(s.b.clients)
    && DescriptorInv(s.b.clients, s.open, s.closing, s.stopping)
    && ServerInv(s.b.clients, s.tasks, s.server, s.open, s.closing, s.stopping)
  }

  // ------------------------------------------------------------ every step keeps them

  lemma {:induction false} SubsetIsSmaller<T>(a: set<T>, b: set<T>)
    requires a <= b
    ensures |a| <= |b|
    decreases a
  {
    if x :| x in a {
      SubsetIsSmaller(a - {x}, b - {x});
    }
  }

  /** Nobody becomes pending, so the pools only get emptier. */
  lemma PoolsShrink(clients: seq<Client>, clients': seq<Client>, proven: seq<bool>)
    requires |clients| == |clients'| == |proven| && PoolInv(clients, proven)
    requires forall i :: 0 <= i < |clients| && IsPending(clients'[i]) ==>
               IsPending(clients[i]) && clients'[i].peer == clients[i].peer
    ensures PoolInv(clients', proven)
  {
    SubsetIsSmaller(Pending(clients'), Pending(clients));
    SubsetIsSmaller(Unproven(clients', proven), Unproven(clients, proven));
  }

  lemma NobodyConnected(clients: seq<Client>)
    requires forall i :: 0 <= i < |clients| ==> clients[i] == FREE
    ensures IdentityInv(clients)
  {
  }

  lemma StartIsGood()
    ensures Inv(Initial())
  {
    var s := Initial();
    assert forall i :: 0 <= i < MAX_CONNECTIONS ==> s.b.clients[i] == FREE;
    NobodyConnected(s.b.clients);
    hide IdentityInv;
    assert Pending(s.b.clients) == {};
    assert Unproven(s.b.clients, s.proven) == {};
  }

  lemma AllocatedPeers(clients: seq<Client>, slot: nat, c: Client)
    requires DistinctPeers(clients)
    requires slot < |clients| && !clients[slot].inUse && IsPending(c)
    requires PendingFrom(clients, c.peer) == {}
    ensures DistinctPeers(clients[slot := c])
    ensures Pending(clients[slot := c]) == Pending(clients) + {slot}
    ensures |Pending(clients[slot := c])| == |Pending(clients)| + 1
  {
    forall i: nat | i < |clients| && IsPending(clients[i])
      ensures clients[i].peer != c.peer
    {
      assert i !in PendingFrom(clients, c.peer);
    }
    assert Pending(clients[slot := c]) == Pending(clients) + {slot};
  }

  /** A fresh source admitted below the caps keeps every pool within them. */
  lemma AllocatedPools(
    clients: seq<Client>, proven: seq<bool>, slot: nat, c: Client, consulted: bool)
    requires |clients| == |proven| && PoolInv(clients, proven)
    requires slot < |clients| && !clients[slot].inUse && IsPending(c)
    requires |Pending(clients)| < MAX_PRECONNECT
    requires |Pending(clients)| < MAX_PRECONNECT_UNPROVEN || consulted
    requires PendingFrom(clients, c.peer) == {}
    ensures PoolInv(clients[slot := c], proven[slot := consulted])
  {
    var clients', proven' := clients[slot := c], proven[slot := consulted];
    AllocatedPeers(clients, slot, c);
    if consulted {
      assert Unproven(clients', proven') == Unproven(clients, proven);
    } else {
      SubsetIsSmaller(Unproven(clients', proven'), Pending(clients'));
    }
  }

  lemma AllocatedSlots(clients: seq<Client>, sessions: seq<bool>, slot: nat, c: Client)
    requires SlotInv(clients, sessions)
    requires slot < |clients| && !clients[slot].inUse && IsPending(c) && c.session == -1
    ensures SlotInv(clients[slot := c], sessions)
  {
    var clients' := clients[slot := c];
    forall k | 0 <= k < |sessions| && sessions[k]
      ensures Owned(clients', k)
    {
      var i :| 0 <= i < |clients| && clients[i].session == k;
      assert clients'[i].session == k;
    }
  }

  lemma AllocatedClaims(clients: seq<Client>, claims: set<Target>, slot: nat, c: Client)
    requires ClaimInv(clients, claims)
    requires slot < |clients| && !clients[slot].inUse && !c.claimed
    ensures ClaimInv(clients[slot := c], claims)
  {
    forall t | t in claims
      ensures Holds(clients[slot := c], t)
    {
      assert Holds(clients, t);
    }
  }

  lemma AllocatedDescriptors(
    clients: seq<Client>, open: set<int>, closing: set<int>, stopping: bool,
    slot: nat, c: Client)
    requires DescriptorInv(clients, open, closing, stopping)
    requires slot < |clients| && !clients[slot].inUse
    requires c.sock in open && c.sock !in closing && NoneHolds(clients, c.sock, -1)
    ensures DescriptorInv(clients[slot := c], open, closing, stopping)
  {
  }

  lemma AllocatedTasks(
    clients: seq<Client>, tasks: seq<Task>, history: seq<string>, slot: nat, c: Client, sock: int)
    requires |clients| == |tasks|
    requires TaskInv(clients, tasks, Accepted(sock)) && FenceInv(clients, tasks, history)
    requires slot < |clients| && !clients[slot].inUse && IsPending(c)
    ensures TaskInv(clients[slot := c], tasks, Starting(slot, sock))
    ensures FenceInv(clients[slot := c], tasks, history)
    ensures tasks[slot].NoTask?
  {
  }

  lemma AllocatedServer(clients: seq<Client>, tasks: seq<Task>, slot: nat, c: Client, s: System)
    requires |clients| == |tasks| && slot < |clients| && tasks[slot].NoTask?
    requires IsPending(c) && c.sock >= 0 && NoneHolds(clients, c.sock, -1)
    ensures ServerInv(clients[slot := c], tasks, Starting(slot, c.sock),
                      s.open, s.closing, s.stopping)
  {
  }

  lemma ServerMoves(clients: seq<Client>, tasks: seq<Task>, server: Server, server': Server)
    requires |clients| == |tasks| && TaskInv(clients, tasks, server) && !server.Starting?
    ensures TaskInv(clients, tasks, server')
  {
  }

  /** Records that go on being connected keep their client ids, and nobody joins them. */
  lemma NobodyConnects(clients: seq<Client>, clients': seq<Client>)
    requires |clients| == |clients'| && IdentityInv(clients)
    requires forall i :: 0 <= i < |clients| && IsConnected(clients'[i]) ==>
               IsConnected(clients[i]) && clients'[i].clientId == clients[i].clientId
    ensures IdentityInv(clients')
  {
  }

  /** Only a connected record can be claimed. */
  lemma OnlyConnectedClaimed(clients: seq<Client>, claims: set<Target>, i: nat)
    requires ClaimInv(clients, claims) && i < |clients| && clients[i].claimed
    ensures IsConnected(clients[i])
  {
    assert Holds(clients, TargetOf(clients, i));
  }

  lemma AllocateKeepsInv(s: System, peer: uint32, isProven: bool)
    requires Inv(s)
    ensures Inv(DoAllocate(s, peer, isProven))
  {
    hide TaskInv, FenceInv, PoolInv, SlotInv, IdentityInv, ClaimInv, DescriptorInv, FirstFree;
    if s.server.Accepted? {
      var (slot, b) := Arrive(s.b, s.server.sock, peer, isProven);
      if slot.Some? {
        var i, c := slot.value, b.clients[slot.value];
        assert b.clients == s.b.clients[i := c];
        AllocatedPools(s.b.clients, s.proven, i, c,
                       |Pending(s.b.clients)| >= MAX_PRECONNECT_UNPROVEN && isProven);
        AllocatedSlots(s.b.clients, s.b.sessions, i, c);
        AllocatedClaims(s.b.clients, s.claims, i, c);
        AllocatedDescriptors(s.b.clients, s.open, s.closing, s.stopping, i, c);
        AllocatedTasks(s.b.clients, s.tasks, s.b.history, i, c, s.server.sock);
        AllocatedServer(s.b.clients, s.tasks, i, c, s);
        NobodyConnects(s.b.clients, b.clients);
      } else {
        ServerMoves(s.b.clients, s.tasks, s.server, Rejecting(s.server.sock));
      }
    }
  }

  /** The steps of the server and of the descriptors that touch no record. */
  lemma QuietKeepsInv(s: System, e: Event)
    requires Inv(s)
    requires e.Accept? || e.StartTask? || e.Reject? || e.CloseDescriptor? || e.Stop?
    ensures Inv(Step(s, e))
  {
    hide PoolInv, SlotInv, IdentityInv, ClaimInv;
  }

  lemma CaptureKeepsInv(s: System, slot: nat)
    requires Inv(s)
    ensures Inv(DoCapture(s, slot))
    ensures Inv(DoAuthenticationFailed(s, slot))
  {
    hide PoolInv, SlotInv, IdentityInv, ClaimInv, DescriptorInv;
  }

  /** A record leaves: nothing else owned its session or its claim. */
  lemma VacatedSlots(clients: seq<Client>, sessions: seq<bool>, slot: nat, c: Client)
    requires SlotInv(clients, sessions)
    requires slot < |clients| && !c.inUse && c.session == -1
    ensures SlotInv(clients[slot := c], WithoutSession(sessions, clients[slot].session))
  {
    var clients', gone := clients[slot := c], clients[slot].session;
    forall k | 0 <= k < |sessions| && sessions[k] && k != gone
      ensures Owned(clients', k)
    {
      var i :| 0 <= i < |clients| && clients[i].session == k;
      assert clients'[i].session == k;
    }
  }

  lemma VacatedClaims(clients: seq<Client>, claims: set<Target>, slot: nat, c: Client)
    requires ClaimInv(clients, claims)
    requires slot < |clients| && !clients[slot].claimed && !c.claimed
    ensures ClaimInv(clients[slot := c], claims)
  {
    forall t | t in claims
      ensures Holds(clients[slot := c], t)
    {
      assert Holds(clients, t);
    }
  }

  lemma VacatedDescriptors(
    clients: seq<Client>, open: set<int>, closing: set<int>, stopping: bool,
    slot: nat, c: Client)
    requires DescriptorInv(clients, open, closing, stopping)
    requires slot < |clients| && clients[slot].inUse && !c.inUse
    ensures DescriptorInv(clients[slot := c], open, closing, stopping)
    ensures clients[slot].sock >= 0 ==>
              DescriptorInv(clients[slot := c], open, closing + {clients[slot].sock}, stopping)
  {
  }

  lemma VacatedTasks(
    clients: seq<Client>, tasks: seq<Task>, history: seq<string>, server: Server,
    server': Server, slot: nat, c: Client)
    requires |clients| == |tasks|
    requires TaskInv(clients, tasks, server) && FenceInv(clients, tasks, history)
    requires slot < |clients| && !c.inUse
    requires server' == server || (server.Starting? && server.slot == slot)
    ensures TaskInv(clients[slot := c], tasks[slot := NoTask], server')
    ensures FenceInv(clients[slot := c], tasks[slot := NoTask], history)
  {
  }

  /** The server keeps no hold on a record whose task closes it. */
  lemma VacatedServer(s: System, slot: nat, c: Client)
    requires Sized(s) && HasTask(s, slot) && !c.inUse
    requires ServerInv(s.b.clients, s.tasks, s.server, s.open, s.closing, s.stopping)
    ensures ServerInv(s.b.clients[slot := c], s.tasks[slot := NoTask], s.server,
                      s.open, s.closing, s.stopping)
    ensures s.b.clients[slot].inUse && s.b.clients[slot].sock >= 0 ==>
              ServerInv(s.b.clients[slot := c], s.tasks[slot := NoTask], s.server,
                        s.open, s.closing + {s.b.clients[slot].sock}, s.stopping)
  {
  }

  lemma TaskHasRecord(s: System, slot: nat)
    requires Sized(s) && HasTask(s, slot) && TaskInv(s.b.clients, s.tasks, s.server)
    ensures s.b.clients[slot].inUse
  {
  }

  lemma RefuseTaskKeepsInv(s: System)
    requires Inv(s)
    ensures Inv(DoRefuseTask(s))
  {
    hide FenceInv, PoolInv, SlotInv, IdentityInv, ClaimInv;
    if s.server.Starting? {
      var i := s.server.slot;
      var b := Abandon(s.b, i);
      if s.b.clients[i].claimed {
        OnlyConnectedClaimed(s.b.clients, s.claims, i);
      }
      assert s.tasks[i := NoTask] == s.tasks;
      VacatedTasks(s.b.clients, s.tasks, s.b.history, s.server, Rejecting(s.server.sock),
                   i, b.clients[i]);
      VacatedSlots(s.b.clients, s.b.sessions, i, b.clients[i]);
      VacatedClaims(s.b.clients, s.claims, i, b.clients[i]);
      VacatedDescriptors(s.b.clients, s.open, s.closing, s.stopping, i, b.clients[i]);
      PoolsShrink(s.b.clients, b.clients, s.proven);
      NobodyConnects(s.b.clients, b.clients);
    }
  }

  lemma CloseKeepsInv(s: System, slot: nat)
    requires Inv(s)
    ensures Inv(DoClose(s, slot))
  {
    hide TaskInv, FenceInv, PoolInv, SlotInv, IdentityInv, ClaimInv, DescriptorInv, ServerInv;
    if HasTask(s, slot) && !s.b.clients[slot].claimed {
      var b := Close(s.b, slot).1;
      TaskHasRecord(s, slot);
      VacatedTasks(s.b.clients, s.tasks, s.b.history, s.server, s.server,
                   slot, b.clients[slot]);
      VacatedServer(s, slot, b.clients[slot]);
      VacatedSlots(s.b.clients, s.b.sessions, slot, b.clients[slot]);
      VacatedClaims(s.b.clients, s.claims, slot, b.clients[slot]);
      VacatedDescriptors(s.b.clients, s.open, s.closing, s.stopping, slot, b.clients[slot]);
      PoolsShrink(s.b.clients, b.clients, s.proven);
      NobodyConnects(s.b.clients, b.clients);
    }
  }

  /** Only the flags and the descriptor of a record change, the descriptor to none. */
  predicate Flagged(c: Client, c': Client) {
    && c' == c.(invalidated := c'.invalidated, claimed := c'.claimed, sock := c'.sock)
    && (c.invalidated ==> c'.invalidated)
    && (c'.sock == c.sock || c'.sock == -1)
  }

  predicate AllFlagged(clients: seq<Client>, clients': seq<Client>) {
    |clients| == |clients'| &&
    forall i :: 0 <= i < |clients| ==> Flagged(clients[i], clients'[i])
  }

  lemma FlaggedPools(clients: seq<Client>, clients': seq<Client>, proven: seq<bool>)
    requires AllFlagged(clients, clients') && |clients| == |proven| && PoolInv(clients, proven)
    ensures PoolInv(clients', proven)
  {
    PoolsShrink(clients, clients', proven);
  }

  lemma FlaggedSlots(clients: seq<Client>, clients': seq<Client>, sessions: seq<bool>)
    requires AllFlagged(clients, clients') && SlotInv(clients, sessions)
    ensures SlotInv(clients', sessions)
  {
    forall k | 0 <= k < |sessions| && sessions[k]
      ensures Owned(clients', k)
    {
      var i :| 0 <= i < |clients| && clients[i].session == k;
      assert clients'[i].session == k;
    }
  }

  lemma FlaggedIdentities(clients: seq<Client>, clients': seq<Client>)
    requires AllFlagged(clients, clients') && IdentityInv(clients)
    ensures IdentityInv(clients')
  {
    NobodyConnects(clients, clients');
  }

  lemma FlaggedTasks(
    clients: seq<Client>, clients': seq<Client>, tasks: seq<Task>, history: seq<string>,
    server: Server)
    requires AllFlagged(clients, clients') && |clients| == |tasks|
    requires TaskInv(clients, tasks, server) && FenceInv(clients, tasks, history)
    ensures TaskInv(clients', tasks, server) && FenceInv(clients', tasks, history)
  {
  }

  lemma FlaggedDescriptors(
    clients: seq<Client>, clients': seq<Client>, open: set<int>, closing: set<int>,
    stopping: bool)
    requires AllFlagged(clients, clients')
    requires DescriptorInv(clients, open, closing, stopping)
    ensures DescriptorInv(clients', open, closing, stopping)
  {
  }

  lemma FlaggedServer(
    clients: seq<Client>, clients': seq<Client>, tasks: seq<Task>, server: Server,
    open: set<int>, closing: set<int>, stopping: bool)
    requires AllFlagged(clients, clients') && |clients| == |tasks|
    requires ServerInv(clients, tasks, server, open, closing, stopping)
    requires forall i :: 0 <= i < |clients| ==> clients'[i].sock == clients[i].sock
    ensures ServerInv(clients', tasks, server, open, closing, stopping)
  {
    assert forall i :: 0 <= i < |clients| ==> Flagged(clients[i], clients'[i]);
  }

  lemma InvalidateIsFlagged(clients: seq<Client>, identifier: string)
    ensures AllFlagged(clients, Invalidate(clients, identifier))
    ensures forall i :: 0 <= i < |clients| ==>
              && Invalidate(clients, identifier)[i].sock == clients[i].sock
              && Invalidate(clients, identifier)[i].claimed == clients[i].claimed
  {
  }

  lemma FencedRecords(
    clients: seq<Client>, tasks: seq<Task>, history: seq<string>, identifier: string)
    requires |clients| == |tasks| && FenceInv(clients, tasks, history)
    ensures FenceInv(Invalidate(clients, identifier), tasks, history + [identifier])
  {
    var clients' := Invalidate(clients, identifier);
    forall i | 0 <= i < |clients'| && Usable(clients'[i])
      ensures tasks[i].Serving? && tasks[i].captured <= |history|
      ensures clients'[i].identifier !in (history + [identifier])[tasks[i].captured..]
    {
      assert Usable(clients[i]);
      assert (history + [identifier])[tasks[i].captured..]
          == history[tasks[i].captured..] + [identifier];
    }
  }

  /** Claims are about identity and descriptor, which a fence leaves alone. */
  lemma FlaggedClaims(clients: seq<Client>, clients': seq<Client>, claims: set<Target>)
    requires AllFlagged(clients, clients') && ClaimInv(clients, claims)
    requires forall i :: 0 <= i < |clients| ==>
               && clients'[i].claimed == clients[i].claimed
               && (clients[i].claimed ==> clients'[i].sock == clients[i].sock)
    ensures ClaimInv(clients', claims)
  {
    forall t | t in claims
      ensures Holds(clients', t)
    {
      assert Holds(clients, t);
    }
  }

  lemma FenceKeepsInv(s: System, identifier: string)
    requires Inv(s)
    ensures Inv(s.(b := Fence(s.b, identifier)))
  {
    hide TaskInv, FenceInv, PoolInv, SlotInv, IdentityInv, ClaimInv, DescriptorInv, ServerInv;
    hide Invalidate, AllFlagged;
    if IdentifierValid(identifier) {
      var clients := s.b.clients;
      var clients' := Invalidate(clients, identifier);
      InvalidateIsFlagged(clients, identifier);
      FlaggedPools(clients, clients', s.proven);
      FlaggedSlots(clients, clients', s.b.sessions);
      FlaggedIdentities(clients, clients');
      FlaggedTasks(clients, clients', s.tasks, s.b.history, s.server);
      FencedRecords(clients, s.tasks, s.b.history, identifier);
      FlaggedClaims(clients, clients', s.claims);
      FlaggedDescriptors(clients, clients', s.open, s.closing, s.stopping);
      FlaggedServer(clients, clients', s.tasks, s.server, s.open, s.closing, s.stopping);
    }
  }

  lemma ClaimIsFlagged(b: State, identifier: string)
    ensures var clients' := Claim(b, identifier).1.clients;
            && AllFlagged(b.clients, clients')
            && forall i :: 0 <= i < |b.clients| ==>
                 && clients'[i].sock == b.clients[i].sock
                 && (clients'[i].claimed <==>
                       b.clients[i].claimed || Matches(b.clients[i], identifier))
  {
  }

  lemma ClaimedRecords(b: State, claims: set<Target>, identifier: string)
    requires ClaimInv(b.clients, claims)
    ensures var (claimed, b') := Claim(b, identifier);
            ClaimInv(b'.clients, claims + claimed)
  {
    var (claimed, b') := Claim(b, identifier);
    forall t | t in claims + claimed
      ensures Holds(b'.clients, t)
    {
      assert t in claims ==> Holds(b.clients, t);
    }
    forall i | 0 <= i < |b'.clients| && b'.clients[i].claimed
      ensures TargetOf(b'.clients, i) in claims + claimed
    {
      assert TargetOf(b'.clients, i) == TargetOf(b.clients, i);
    }
  }

  lemma ClaimKeepsInv(s: System, identifier: string)
    requires Inv(s)
    ensures Inv(DoClaim(s, identifier))
  {
    hide TaskInv, FenceInv, PoolInv, SlotInv, IdentityInv, ClaimInv, DescriptorInv, ServerInv, AllFlagged;
    var clients, clients' := s.b.clients, Claim(s.b, identifier).1.clients;
    ClaimIsFlagged(s.b, identifier);
    ClaimedRecords(s.b, s.claims, identifier);
    FlaggedPools(clients, clients', s.proven);
    FlaggedSlots(clients, clients', s.b.sessions);
    FlaggedIdentities(clients, clients');
    FlaggedTasks(clients, clients', s.tasks, s.b.history, s.server);
    FlaggedDescriptors(clients, clients', s.open, s.closing, s.stopping);
    FlaggedServer(clients, clients', s.tasks, s.server, s.open, s.closing, s.stopping);
  }

  /** The record is still what was claimed, so the release always finds it. */
  lemma ReleasedRecords(b: State, claims: set<Target>, t: Target)
    requires ClaimInv(b.clients, claims) && t in claims
    ensures t.slot < |b.clients| && ReleaseClaim(b, t).0
    ensures AllFlagged(b.clients, ReleaseClaim(b, t).1.clients)
    ensures forall i :: 0 <= i < |b.clients| ==>
              ReleaseClaim(b, t).1.clients[i].sock == b.clients[i].sock
    ensures ClaimInv(ReleaseClaim(b, t).1.clients, claims - {t})
  {
    assert Holds(b.clients, t);
    var clients' := ReleaseClaim(b, t).1.clients;
    forall u | u in claims - {t}
      ensures Holds(clients', u)
    {
      assert Holds(b.clients, u);
    }
  }

  lemma ReleaseKeepsInv(s: System, t: Target)
    requires Inv(s)
    ensures Inv(DoRelease(s, t))
  {
    hide TaskInv, FenceInv, PoolInv, SlotInv, IdentityInv, ClaimInv, DescriptorInv, ServerInv, AllFlagged;
    if t in s.claims {
      ReleasedRecords(s.b, s.claims, t);
      var clients, clients' := s.b.clients, ReleaseClaim(s.b, t).1.clients;
      FlaggedPools(clients, clients', s.proven);
      FlaggedSlots(clients, clients', s.b.sessions);
      FlaggedIdentities(clients, clients');
      FlaggedTasks(clients, clients', s.tasks, s.b.history, s.server);
      FlaggedDescriptors(clients, clients', s.open, s.closing, s.stopping);
      FlaggedServer(clients, clients', s.tasks, s.server, s.open, s.closing, s.stopping);
    }
  }

  lemma RetiredRecords(s: System)
    requires Sized(s) && s.stopping && !AnyClaim(s.b.clients)
    requires DescriptorInv(s.b.clients, s.open, s.closing, s.stopping)
    requires ServerInv(s.b.clients, s.tasks, s.server, s.open, s.closing, s.stopping)
    requires ClaimInv(s.b.clients, s.claims)
    ensures var (socks, b) := Retire(s.b);
            && AllFlagged(s.b.clients, b.clients)
            && DescriptorInv(b.clients, s.open, s.closing + socks, s.stopping)
            && ServerInv(b.clients, s.tasks, s.server, s.open, s.closing + socks, s.stopping)
            && ClaimInv(b.clients, s.claims)
  {
    var (socks, b) := Retire(s.b);
    forall t | t in s.claims
      ensures Holds(b.clients, t)
    {
      assert Holds(s.b.clients, t);
    }
  }

  lemma RetireKeepsInv(s: System)
    requires Inv(s)
    ensures Inv(DoRetire(s))
  {
    hide TaskInv, FenceInv, PoolInv, SlotInv, IdentityInv, ClaimInv, DescriptorInv, ServerInv, AllFlagged;
    hide AnyClaim;
    assert s.closing + {} == s.closing;
    if s.stopping && !AnyClaim(s.b.clients) {
      var clients, clients' := s.b.clients, Retire(s.b).1.clients;
      RetiredRecords(s);
      FlaggedPools(clients, clients', s.proven);
      FlaggedSlots(clients, clients', s.b.sessions);
      FlaggedIdentities(clients, clients');
      FlaggedTasks(clients, clients', s.tasks, s.b.history, s.server);
    }
  }

  // ------------------------------------------------------------ binding

  lemma BoundSlots(
    clients: seq<Client>, sessions: seq<bool>, slot: nat, c: Client, k: nat)
    requires SlotInv(clients, sessions)
    requires slot < |clients| && !IsConnected(clients[slot])
    requires IsConnected(c) && c.session == k < |sessions| && !sessions[k]
    ensures SlotInv(clients[slot := c], sessions[k := true])
  {
    var clients', sessions' := clients[slot := c], sessions[k := true];
    forall j | 0 <= j < |sessions| && sessions'[j]
      ensures Owned(clients', j)
    {
      if j == k {
        assert clients'[slot].session == j;
      } else {
        var i :| 0 <= i < |clients| && clients[i].session == j;
        assert clients'[i].session == j;
      }
    }
  }

  lemma BoundIdentities(clients: seq<Client>, slot: nat, c: Client)
    requires IdentityInv(clients) && slot < |clients|
    requires !DuplicateId(clients, slot, c.clientId)
    ensures IdentityInv(clients[slot := c])
  {
  }

  lemma BoundTasks(
    clients: seq<Client>, tasks: seq<Task>, history: seq<string>, server: Server,
    slot: nat, c: Client, captured: nat)
    requires |clients| == |tasks| && slot < |clients| && c.inUse
    requires TaskInv(clients, tasks, server) && FenceInv(clients, tasks, history)
    requires captured <= |history| && c.identifier !in history[captured..]
    ensures TaskInv(clients[slot := c], tasks[slot := Serving(captured)], server)
    ensures FenceInv(clients[slot := c], tasks[slot := Serving(captured)], history)
  {
  }

  lemma BoundDescriptors(
    clients: seq<Client>, open: set<int>, closing: set<int>, stopping: bool,
    slot: nat, c: Client)
    requires DescriptorInv(clients, open, closing, stopping)
    requires slot < |clients| && clients[slot].inUse && c.sock == clients[slot].sock
    ensures DescriptorInv(clients[slot := c], open, closing, stopping)
  {
  }

  lemma BoundServer(s: System, slot: nat, c: Client, t: Task)
    requires Sized(s) && HasTask(s, slot) && s.b.clients[slot].inUse
    requires c.sock == s.b.clients[slot].sock
    requires ServerInv(s.b.clients, s.tasks, s.server, s.open, s.closing, s.stopping)
    ensures ServerInv(s.b.clients[slot := c], s.tasks[slot := t], s.server,
                      s.open, s.closing, s.stopping)
  {
  }

  lemma RefusedTasks(
    clients: seq<Client>, tasks: seq<Task>, history: seq<string>, server: Server, slot: nat)
    requires |clients| == |tasks| && slot < |clients| && tasks[slot].Authenticating?
    requires TaskInv(clients, tasks, server) && FenceInv(clients, tasks, history)
    ensures TaskInv(clients, tasks[slot := Waiting], server)
    ensures FenceInv(clients, tasks[slot := Waiting], history)
  {
  }

  /** Not connected, so it owns no session slot and nobody claims it. */
  lemma PendingOwnsNothing(b: State, claims: set<Target>, slot: nat)
    requires slot < |b.clients| && !IsConnected(b.clients[slot])
    requires SlotInv(b.clients, b.sessions) && ClaimInv(b.clients, claims)
    ensures b.clients[slot].session == -1 && !b.clients[slot].claimed
  {
    if b.clients[slot].claimed {
      OnlyConnectedClaimed(b.clients, claims, slot);
    }
  }

  lemma AuthenticatedKeepsInv(s: System, slot: nat, identifier: string, clientId: string)
    requires Inv(s)
    ensures Inv(DoAuthenticated(s, slot, identifier, clientId))
  {
    hide TaskInv, FenceInv, PoolInv, SlotInv, IdentityInv, ClaimInv, DescriptorInv, ServerInv;
    hide DuplicateId, Since, FirstSession;
    if HasTask(s, slot) && s.tasks[slot].Authenticating? {
      var t := s.tasks[slot];
      TaskHasRecord(s, slot);
      var (result, b) := Bind(s.b, slot, t.expectedId, identifier, clientId, t.captured);
      if result == Bound {
        var c := b.clients[slot];
        PendingOwnsNothing(s.b, s.claims, slot);
        SinceIsSafeAndExact(s.b.history, identifier, t.captured);
        PoolsShrink(s.b.clients, b.clients, s.proven);
        BoundSlots(s.b.clients, s.b.sessions, slot, c, c.session);
        BoundIdentities(s.b.clients, slot, c);
        BoundTasks(s.b.clients, s.tasks, s.b.history, s.server, slot, c, t.captured);
        VacatedClaims(s.b.clients, s.claims, slot, c);
        BoundDescriptors(s.b.clients, s.open, s.closing, s.stopping, slot, c);
        BoundServer(s, slot, c, Serving(t.captured));
      } else {
        assert b == s.b;
        assert s.b.clients[slot := s.b.clients[slot]] == s.b.clients;
        RefusedTasks(s.b.clients, s.tasks, s.b.history, s.server, slot);
        BoundServer(s, slot, s.b.clients[slot], Waiting);
      }
    }
  }

  // ------------------------------------------------------------ runs

  lemma StepKeepsInv(s: System, e: Event)
    requires Inv(s)
    ensures Inv(Step(s, e))
  {
    hide Inv;
    match e
    case Accept(_) => QuietKeepsInv(s, e);
    case Allocate(peer, isProven) => AllocateKeepsInv(s, peer, isProven);
    case StartTask => QuietKeepsInv(s, e);
    case RefuseTask => RefuseTaskKeepsInv(s);
    case Reject => QuietKeepsInv(s, e);
    case Capture(slot) => CaptureKeepsInv(s, slot);
    case Authenticated(slot, identifier, clientId) =>
      AuthenticatedKeepsInv(s, slot, identifier, clientId);
    case AuthenticationFailed(slot) => CaptureKeepsInv(s, slot);
    case FenceMachine(identifier) => FenceKeepsInv(s, identifier);
    case ClaimMachine(identifier) => ClaimKeepsInv(s, identifier);
    case ReleaseTarget(t) => ReleaseKeepsInv(s, t);
    case CloseRecord(slot) => CloseKeepsInv(s, slot);
    case CloseDescriptor(_) => QuietKeepsInv(s, e);
    case Stop => QuietKeepsInv(s, e);
    case RetireRecords => RetireKeepsInv(s);
  }

  /** A run of one broker lifecycle, from its start. */
  ghost predicate Run(states: seq<System>, evs: seq<Event>) {
    && |states| == |evs| + 1
    && states[0] == Initial()
    && forall k {:trigger evs[k]} :: 0 <= k < |evs| ==>
         Sized(states[k]) && states[k + 1] == Step(states[k], evs[k])
  }

  lemma {:induction false} ReachableInv(states: seq<System>, evs: seq<Event>, k: nat)
    requires Run(states, evs) && k < |states|
    ensures Inv(states[k])
    decreases k
  {
    hide Inv, Step;
    if k == 0 {
      StartIsGood();
    } else {
      ReachableInv(states, evs, k - 1);
      var e := evs[k - 1];
      StepKeepsInv(states[k - 1], e);
    }
  }

  // ------------------------------------------------------------ fencing

  lemma HistoryGrows(s: System, e: Event)
    requires Inv(s)
    ensures s.b.history <= Step(s, e).b.history
  {
    hide TaskInv, FenceInv, PoolInv, SlotInv, IdentityInv, ClaimInv, DescriptorInv, ServerInv;
  }

  lemma {:induction false} HistoryOnlyGrows(
    states: seq<System>, evs: seq<Event>, first: nat, last: nat)
    requires Run(states, evs) && first <= last < |states|
    ensures states[first].b.history <= states[last].b.history
    decreases last
  {
    hide Inv, Step;
    if first < last {
      HistoryOnlyGrows(states, evs, first, last - 1);
      ReachableInv(states, evs, last - 1);
      var e := evs[last - 1];
      HistoryGrows(states[last - 1], e);
    }
  }

  lemma InTail(history: seq<string>, captured: nat, at: nat)
    requires at < |history|
    ensures captured <= at ==> history[at] in history[captured..]
  {
    if captured <= at {
      assert history[captured..][at - captured] == history[at];
    }
  }

  /** After a fence for a machine, whatever was interleaved with it, every usable
      connection of that machine began its CONNECT after the fence. */
  lemma FencedMachineMustReconnect(
    states: seq<System>, evs: seq<Event>, k: nat, m: nat, i: nat, identifier: string)
    requires Run(states, evs) && k < m < |states|
    requires evs[k] == FenceMachine(identifier) && IdentifierValid(identifier)
    requires i < MAX_CONNECTIONS && WellSized(states[m].b) && Usable(states[m].b.clients[i])
    requires states[m].b.clients[i].identifier == identifier
    ensures |states[m].tasks| == MAX_CONNECTIONS && states[m].tasks[i].Serving?
    ensures states[m].tasks[i].captured >= |states[k + 1].b.history|
  {
    ReachableInv(states, evs, m);
    ReachableInv(states, evs, k);
    HistoryOnlyGrows(states, evs, k + 1, m);
    hide TaskInv, PoolInv, SlotInv, IdentityInv, ClaimInv, DescriptorInv, ServerInv;
    var at, history := |states[k].b.history|, states[m].b.history;
    assert states[k + 1] == Step(states[k], evs[k]);
    assert history[at] == identifier;
    InTail(history, states[m].tasks[i].captured, at);
  }

  /** A fence, and a disconnect after it, leave no usable connection of the machine. */
  lemma RevocationIsImmediate(s: System, identifier: string, i: nat)
    requires Inv(s) && IdentifierValid(identifier) && i < MAX_CONNECTIONS
    ensures Step(s, ClaimMachine(identifier)).b.clients[i].identifier == identifier ==>
              !Usable(Step(s, ClaimMachine(identifier)).b.clients[i])
    ensures Step(s, FenceMachine(identifier)).b.clients[i].identifier == identifier ==>
              !Usable(Step(s, FenceMachine(identifier)).b.clients[i])
  {
    hide TaskInv, FenceInv, PoolInv, SlotInv, IdentityInv, ClaimInv, DescriptorInv, ServerInv;
  }

  // ------------------------------------------------------------ pools

  ghost function Occupied(sessions: seq<bool>): set<int> {
    set k | 0 <= k < |sessions| && sessions[k]
  }

  lemma {:induction false} SessionsOf(clients: seq<Client>, a: set<nat>)
    requires forall i :: i in a ==> i < |clients| && clients[i].session >= 0
    requires forall i, j :: 0 <= i < j < |clients| && clients[i].session >= 0 ==>
               clients[i].session != clients[j].session
    ensures |set i | i in a :: clients[i].session| == |a|
    decreases a
  {
    var image := set i | i in a :: clients[i].session;
    if x :| x in a {
      SessionsOf(clients, a - {x});
      assert image == (set i | i in a - {x} :: clients[i].session) + {clients[x].session};
    } else {
      assert image == {};
    }
  }

  lemma SessionsAreTheImage(b: State)
    requires WellSized(b) && SlotInv(b.clients, b.sessions)
    ensures (set i | i in Connected(b.clients) :: b.clients[i].session) == Occupied(b.sessions)
  {
    var image := set i | i in Connected(b.clients) :: b.clients[i].session;
    forall k | k in Occupied(b.sessions)
      ensures k in image
    {
      var i :| 0 <= i < |b.clients| && b.clients[i].session == k;
      assert i in Connected(b.clients);
    }
  }

  /** Connected records are counted by the session slots, so there are at most three. */
  lemma ConnectedAreTheSessions(b: State)
    requires WellSized(b) && SlotInv(b.clients, b.sessions)
    ensures |Connected(b.clients)| == |Occupied(b.sessions)| <= MAX_CLIENTS
  {
    SessionsAreTheImage(b);
    SessionsOf(b.clients, Connected(b.clients));
    SubsetIsSmaller(Occupied(b.sessions), {0, 1, 2});
  }

  lemma ConnectedGrows(clients: seq<Client>, i: nat)
    requires i < |clients|
    ensures |Connected(clients[..i + 1])|
         == |Connected(clients[..i])| + (if IsConnected(clients[i]) then 1 else 0)
  {
    assert Connected(clients[..i + 1])
        == Connected(clients[..i]) + (if IsConnected(clients[i]) then {i} else {});
  }

  lemma NobodyYet(clients: seq<Client>)
    ensures Pending(clients[..0]) == {} && Connected(clients[..0]) == {}
  {
  }

  lemma {:induction false} AllInUse(clients: seq<Client>, n: nat)
    requires n <= |clients| && forall j :: 0 <= j < n ==> clients[j].inUse
    ensures |Pending(clients[..n])| + |Connected(clients[..n])| == n
    decreases n
  {
    hide Pending, Connected, PendingFrom;
    if n == 0 {
      NobodyYet(clients);
    } else {
      AllInUse(clients, n - 1);
      PendingGrows(clients, n - 1);
      ConnectedGrows(clients, n - 1);
    }
  }

  /** The pools cannot take each other's records. */
  lemma AdmittedArrivalFindsRecord(s: System, sock: int, peer: uint32, isProven: bool)
    requires Inv(s) && ArrivalDecision(s.b, peer, isProven) == AdmitSocket
    ensures Arrive(s.b, sock, peer, isProven).0.Some?
  {
    hide TaskInv, FenceInv, SlotInv, IdentityInv, ClaimInv, DescriptorInv, ServerInv;
    ConnectedAreTheSessions(s.b);
    var n := FirstFree(s.b.clients, 0);
    AllInUse(s.b.clients, n);
    SubsetIsSmaller(Pending(s.b.clients[..n]), Pending(s.b.clients));
    SubsetIsSmaller(Connected(s.b.clients[..n]), Connected(s.b.clients));
  }

  /** A credential is refused for capacity exactly when three sessions exist. */
  lemma CapacityRefusedExactly(
    s: System, slot: nat, expectedId: uint64, identifier: string, clientId: string, captured: nat)
    requires Inv(s) && slot < MAX_CONNECTIONS
    requires BindAllowed(s.b, slot, expectedId, identifier, clientId, captured)
    ensures Bind(s.b, slot, expectedId, identifier, clientId, captured).0 == NoCapacity
       <==> |Connected(s.b.clients)| == MAX_CLIENTS
  {
    hide TaskInv, FenceInv, PoolInv, DescriptorInv, ServerInv, DuplicateId, Since;
    PendingOwnsNothing(s.b, s.claims, slot);
    ConnectedAreTheSessions(s.b);
    var free := FirstSession(s.b.sessions, 0);
    if free < MAX_CLIENTS {
      SubsetIsSmaller(Occupied(s.b.sessions), {0, 1, 2} - {free});
    } else {
      assert Occupied(s.b.sessions) == {0, 1, 2};
    }
  }

  /** What CONNECT has to find for its record to be bound, on the records and the history. */
  predicate MayBind(
    clients: seq<Client>, history: seq<string>, slot: nat, expectedId: uint64,
    identifier: string, clientId: string, captured: nat)
    requires slot < |clients|
  {
    && clients[slot].inUse && !clients[slot].connected && !clients[slot].invalidated
    && clients[slot].connectionId == expectedId
    && (forall i :: 0 <= i < |clients| && i != slot && clients[i].inUse && clients[i].connected ==>
          clients[i].clientId != clientId)
    && 0 < |identifier| <= 36
    && captured <= |history| <= captured + 32 && identifier !in history[captured..]
  }

  /** CONNECT is bound exactly when its record is in use, pending, not invalidated and still
      the one that authenticated, nobody else is connected under the client id, no revocation
      of the identity can have fallen in between, and fewer than three are connected. */
  lemma BindsExactly(
    s: System, slot: nat, expectedId: uint64, identifier: string, clientId: string, captured: nat)
    requires Inv(s) && slot < MAX_CONNECTIONS
    ensures var (result, b) := Bind(s.b, slot, expectedId, identifier, clientId, captured);
            var may := MayBind(s.b.clients, s.b.history, slot, expectedId, identifier, clientId,
                               captured);
            && (result == Bound <==> may && |Connected(s.b.clients)| < 3)
            && (result == NoCapacity <==> may && |Connected(s.b.clients)| == 3)
            && (result != Bound ==> b == s.b)
            && (result == Bound ==>
                  && b.history == s.b.history && b.nextId == s.b.nextId
                  && 0 <= b.clients[slot].session < MAX_CLIENTS
                  && !s.b.sessions[b.clients[slot].session]
                  && b.sessions == s.b.sessions[b.clients[slot].session := true]
                  && b.clients == s.b.clients[slot := s.b.clients[slot].(
                       connected := true, clientId := clientId, identifier := identifier,
                       session := b.clients[slot].session)])
  {
    ConnectedAreTheSessions(s.b);
    if BindAllowed(s.b, slot, expectedId, identifier, clientId, captured) {
      PendingOrConnected(s, slot);
      CapacityRefusedExactly(s, slot, expectedId, identifier, clientId, captured);
    }
    hide TaskInv, FenceInv, PoolInv, SlotInv, IdentityInv, ClaimInv, DescriptorInv, ServerInv;
  }

  lemma PendingOrConnected(s: System, slot: nat)
    requires Inv(s) && slot < MAX_CONNECTIONS && !IsConnected(s.b.clients[slot])
    ensures s.b.clients[slot].session == -1
  {
    hide TaskInv, FenceInv, PoolInv, IdentityInv, DescriptorInv, ServerInv;
    PendingOwnsNothing(s.b, s.claims, slot);
  }

  /** So in a run a task that has authenticated becomes a connection exactly then, for the
      record and the generation it captured; otherwise nothing changes but the task. */
  lemma ConnectsExactly(s: System, slot: nat, identifier: string, clientId: string)
    requires Inv(s) && HasTask(s, slot) && s.tasks[slot].Authenticating?
    ensures var t, task := Step(s, Authenticated(slot, identifier, clientId)), s.tasks[slot];
            if MayBind(s.b.clients, s.b.history, slot, task.expectedId, identifier, clientId,
                       task.captured) && |Connected(s.b.clients)| < 3
            then IsConnected(t.b.clients[slot]) && t.tasks == s.tasks[slot := Serving(task.captured)]
            else t == s.(tasks := s.tasks[slot := Waiting])
  {
    BindsExactly(s, slot, s.tasks[slot].expectedId, identifier, clientId, s.tasks[slot].captured);
    hide TaskInv, FenceInv, PoolInv, SlotInv, IdentityInv, ClaimInv, DescriptorInv, ServerInv, Bind;
  }

  /** The first part of CONNECT notes the record and the generation of the journal exactly
      when the record is pending and not invalidated. */
  lemma CapturesExactly(s: System, slot: nat)
    requires Inv(s) && HasTask(s, slot)
    ensures Step(s, Capture(slot))
         == if !s.tasks[slot].Authenticating? && !s.b.clients[slot].connected
               && !s.b.clients[slot].invalidated
            then s.(tasks := s.tasks[slot :=
                   Authenticating(s.b.clients[slot].connectionId, |s.b.history|)])
            else s
  {
    TaskHasRecord(s, slot);
    hide TaskInv, FenceInv, PoolInv, SlotInv, IdentityInv, ClaimInv, DescriptorInv, ServerInv;
  }

  /** A CONNECT nothing falls into is bound whenever its identity is valid, its client id is
      not in use and a session is free. */
  lemma ConnectsUndisturbed(s: System, slot: nat, identifier: string, clientId: string)
    requires Inv(s) && HasTask(s, slot) && s.tasks[slot].Waiting?
    requires !s.b.clients[slot].invalidated
    ensures var t := Step(Step(s, Capture(slot)), Authenticated(slot, identifier, clientId));
            t.tasks[slot].Serving? <==>
              && 0 < |identifier| <= 36 && |Connected(s.b.clients)| < 3
              && forall i :: 0 <= i < MAX_CONNECTIONS && IsConnected(s.b.clients[i]) ==>
                   s.b.clients[i].clientId != clientId
  {
    WaitingIsPending(s, slot);
    CapturesExactly(s, slot);
    CaptureKeepsInv(s, slot);
    ConnectsExactly(Step(s, Capture(slot)), slot, identifier, clientId);
    hide Inv, TaskInv, FenceInv, PoolInv, SlotInv, IdentityInv, ClaimInv, DescriptorInv, ServerInv;
    hide Step, Connected;
  }

  lemma WaitingIsPending(s: System, slot: nat)
    requires Inv(s) && HasTask(s, slot) && s.tasks[slot].Waiting?
    ensures IsPending(s.b.clients[slot])
  {
    hide FenceInv, PoolInv, SlotInv, IdentityInv, ClaimInv, DescriptorInv, ServerInv;
  }

  /** In every run no two connections go by the same client id. */
  lemma ClientIdsAreDistinct(states: seq<System>, evs: seq<Event>, k: nat, i: nat, j: nat)
    requires Run(states, evs) && k < |states|
    requires i < MAX_CONNECTIONS && j < MAX_CONNECTIONS && i != j && WellSized(states[k].b)
    requires IsConnected(states[k].b.clients[i]) && IsConnected(states[k].b.clients[j])
    ensures states[k].b.clients[i].clientId != states[k].b.clients[j].clientId
  {
    ReachableInv(states, evs, k);
  }

  lemma LargerHasOther(a: set<nat>, b: set<nat>) returns (x: nat)
    requires |a| < |b|
    ensures x in b && x !in a
  {
    if b <= a {
      SubsetIsSmaller(b, a);
    }
    x :| x in b && x !in a;
  }

  /** However it filled up, the full pending pool was not filled by unproven sources. */
  lemma FullPoolHasProvenSource(s: System)
    requires Inv(s) && |Pending(s.b.clients)| == MAX_PRECONNECT
    ensures exists i :: 0 <= i < MAX_CONNECTIONS && IsPending(s.b.clients[i]) && s.proven[i]
  {
    hide TaskInv, FenceInv, SlotInv, IdentityInv, ClaimInv, DescriptorInv, ServerInv;
    var i := LargerHasOther(Unproven(s.b.clients, s.proven), Pending(s.b.clients));
    assert IsPending(s.b.clients[i]) && s.proven[i];
  }

  lemma PoolBounds(states: seq<System>, evs: seq<Event>, k: nat)
    requires Run(states, evs) && k < |states|
    ensures WellSized(states[k].b)
    ensures |states[k].b.clients| == 6
    ensures |Pending(states[k].b.clients)| <= 3
    ensures |Connected(states[k].b.clients)| == |Occupied(states[k].b.sessions)| <= 3
    ensures forall peer :: |PendingFrom(states[k].b.clients, peer)| <= 1
  {
    ReachableInv(states, evs, k);
    hide TaskInv, FenceInv, SlotInv, IdentityInv, ClaimInv, DescriptorInv, ServerInv;
    var clients := states[k].b.clients;
    ConnectedAreTheSessions(states[k].b);
    forall peer
      ensures |PendingFrom(clients, peer)| <= MAX_PRECONNECT_PER_SOURCE
    {
      if i :| i in PendingFrom(clients, peer) {
        assert PendingFrom(clients, peer) == {i};
      }
    }
  }

  // ------------------------------------------------------------ what each step does to records

  /** A socket that was accepted gets a record exactly when fewer than three are pending, two
      only if its source is not proven, and none from the same source; the record is new,
      pending and its own, and no other changes. */
  lemma ArrivesExactly(s: System, peer: uint32, isProven: bool)
    requires Inv(s) && s.server.Accepted?
    ensures var t := Step(s, Allocate(peer, isProven));
            var clients, pending := s.b.clients, |Pending(s.b.clients)|;
            if (&& pending < (if isProven then 3 else 2)
                && forall i :: 0 <= i < |clients| && IsPending(clients[i]) ==> clients[i].peer != peer)
            then
              && t.server.Starting? && t.server.sock == s.server.sock
              && t.server.slot < |clients| && !clients[t.server.slot].inUse
              && t.b.nextId == (if s.b.nextId == TWO_64 - 1 then 0 else s.b.nextId + 1)
              && t.b == s.b.(nextId := t.b.nextId, clients := clients[t.server.slot :=
                   Client(true, false, false, false, s.server.sock, t.b.nextId, peer, "", "", -1)])
            else t == s.(server := Rejecting(s.server.sock))
  {
    NoneFromSource(s.b.clients, peer);
    if ArrivalDecision(s.b, peer, isProven) == AdmitSocket {
      AdmittedArrivalFindsRecord(s, s.server.sock, peer, isProven);
    }
    hide TaskInv, FenceInv, PoolInv, SlotInv, IdentityInv, ClaimInv, DescriptorInv, ServerInv;
    hide Pending, PendingFrom, FirstFree;
  }

  lemma NoneFromSource(clients: seq<Client>, peer: uint32)
    ensures |PendingFrom(clients, peer)| == 0
       <==> forall i :: 0 <= i < |clients| && IsPending(clients[i]) ==> clients[i].peer != peer
  {
    if |PendingFrom(clients, peer)| == 0 {
      forall i: nat | i < |clients| && IsPending(clients[i])
        ensures clients[i].peer != peer
      {
        assert i !in PendingFrom(clients, peer);
      }
    } else if i :| i in PendingFrom(clients, peer) {
      assert IsPending(clients[i]);
    }
  }

  /** A fence records the identity once and marks exactly its connections. */
  lemma FencesExactly(s: System, identifier: string, i: nat)
    requires Inv(s) && i < MAX_CONNECTIONS
    ensures var c, fenced := s.b.clients[i], Step(s, FenceMachine(identifier));
            var hit := c.inUse && c.connected && c.sock >= 0 && c.identifier == identifier;
            && fenced == s.(b := fenced.b)
            && fenced.b.sessions == s.b.sessions && fenced.b.nextId == s.b.nextId
            && (if 0 < |identifier| <= 36
                then fenced.b.history == s.b.history + [identifier]
                     && fenced.b.clients[i] == c.(invalidated := c.invalidated || hit)
                else fenced == s)
  {
    hide TaskInv, FenceInv, PoolInv, SlotInv, IdentityInv, ClaimInv, DescriptorInv, ServerInv;
  }

  /** A claim marks the same connections and holds the descriptors nobody held. */
  lemma ClaimsExactly(s: System, identifier: string, i: nat)
    requires Inv(s) && i < MAX_CONNECTIONS
    ensures var c, claimed := s.b.clients[i], Step(s, ClaimMachine(identifier));
            var hit := c.inUse && c.connected && c.sock >= 0 && c.identifier == identifier;
            && claimed == s.(b := claimed.b, claims := claimed.claims)
            && claimed.b == s.b.(clients := claimed.b.clients)
            && claimed.b.clients[i]
               == c.(invalidated := c.invalidated || hit, claimed := c.claimed || hit)
            && (forall t: Target :: t in claimed.claims && t.slot == i <==>
                  (t in s.claims && t.slot == i)
                  || (hit && !c.claimed && t == Target(i, c.connectionId, c.sock)))
  {
    hide TaskInv, FenceInv, PoolInv, SlotInv, IdentityInv, ClaimInv, DescriptorInv, ServerInv;
  }

  /** A claim is given up exactly when the record is still the one that was claimed. */
  lemma ReleasesExactly(b: State, t: Target)
    requires t.slot < |b.clients|
    ensures var (released, after) := ReleaseClaim(b, t);
            var c := b.clients[t.slot];
            && (released <==> c.claimed && c.inUse && c.connectionId == t.connectionId
                              && c.sock == t.sock)
            && after == b.(clients := b.clients[t.slot :=
                 c.(claimed := if released then false else c.claimed)])
  {
    assert b.clients[t.slot := b.clients[t.slot]] == b.clients;
  }

  /** A task leaves exactly when nobody holds its descriptor: its record keeps no flag, no
      identity and no session, whose slot is free again, and no other record changes. */
  lemma ClosesExactly(s: System, slot: nat)
    requires Inv(s) && HasTask(s, slot)
    ensures var t, c := Step(s, CloseRecord(slot)), s.b.clients[slot];
            if c.claimed then t == s
            else
              && t.b.clients == s.b.clients[slot := Client(
                   false, false, false, false, -1, c.connectionId, c.peer, c.clientId, "", -1)]
              && t.b.sessions == (if c.session >= 0 then s.b.sessions[c.session := false]
                                  else s.b.sessions)
              && t.b.history == s.b.history && t.b.nextId == s.b.nextId
              && t == s.(b := t.b, tasks := s.tasks[slot := NoTask],
                         closing := if c.sock >= 0 then s.closing + {c.sock} else s.closing)
  {
    hide TaskInv, FenceInv, PoolInv, IdentityInv, ClaimInv, DescriptorInv, ServerInv;
  }

  /** A record whose task cannot be created is given back, and its descriptor is the
      server's to close; only that record changes. */
  lemma AbandonsExactly(s: System)
    requires Inv(s) && s.server.Starting?
    ensures var t, slot := Step(s, RefuseTask), s.server.slot;
            && slot < MAX_CONNECTIONS
            && t == s.(b := t.b, server := Rejecting(s.server.sock))
            && t.b == s.b.(clients := s.b.clients[slot :=
                 s.b.clients[slot].(inUse := false, sock := -1, session := -1)])
  {
    hide TaskInv, FenceInv, PoolInv, IdentityInv, DescriptorInv;
    PendingOwnsNothing(s.b, s.claims, s.server.slot);
  }

  /** A stop takes the descriptors exactly when nobody holds one, and then all of them. */
  lemma RetiresExactly(s: System, i: nat)
    requires Inv(s) && i < MAX_CONNECTIONS
    ensures var t, c := Step(s, RetireRecords), s.b.clients[i];
            if !s.stopping || s.claims != {} then t == s
            else
              && t == s.(b := t.b, closing := t.closing)
              && t.b == s.b.(clients := t.b.clients)
              && t.b.clients[i] == (if c.inUse && c.sock >= 0 then c.(sock := -1) else c)
              && (forall sock :: sock in t.closing <==>
                    sock in s.closing
                    || exists j :: 0 <= j < MAX_CONNECTIONS && s.b.clients[j].inUse
                         && s.b.clients[j].sock == sock >= 0)
  {
    NobodyClaims(s);
    hide TaskInv, FenceInv, PoolInv, SlotInv, IdentityInv, ClaimInv, ServerInv;
  }

  lemma NobodyClaims(s: System)
    requires Inv(s)
    ensures AnyClaim(s.b.clients) <==> s.claims != {}
  {
    hide TaskInv, FenceInv, PoolInv, SlotInv, IdentityInv, DescriptorInv, ServerInv;
    if AnyClaim(s.b.clients) {
      var i :| 0 <= i < |s.b.clients| && s.b.clients[i].claimed;
      assert TargetOf(s.b.clients, i) in s.claims;
    }
    if t :| t in s.claims {
      assert Holds(s.b.clients, t);
    }
  }

  // ------------------------------------------------------------ claims

  /** A claimed descriptor is open, nobody else may close it, and its record is
      untouched, until its own invalidator releases it: the "ownership lost" branch
      is never taken. */
  lemma ClaimSurvives(s: System, e: Event, t: Target)
    requires Inv(s) && t in s.claims
    ensures ReleaseClaim(s.b, t).0
    ensures t.sock in s.open && t.sock !in s.closing
    ensures t in Step(s, e).claims <==> e != ReleaseTarget(t)
    ensures t.sock in Step(s, e).open
  {
    hide TaskInv, FenceInv, PoolInv, SlotInv, IdentityInv;
    assert Holds(s.b.clients, t);
    assert Retires(s.b.clients[t.slot]);
  }

  lemma OneInvalidatorPerDescriptor(s: System, t: Target, u: Target)
    requires Inv(s) && t in s.claims && u in s.claims
    requires t.slot == u.slot || t.sock == u.sock
    ensures t == u
  {
    hide TaskInv, FenceInv, PoolInv, SlotInv, IdentityInv, ServerInv;
    assert Holds(s.b.clients, t) && Holds(s.b.clients, u);
    assert Retires(s.b.clients[t.slot]) && Retires(s.b.clients[u.slot]);
  }

  lemma {:induction false} ClaimHeldThroughout(
    states: seq<System>, evs: seq<Event>, first: nat, last: nat, t: Target)
    requires Run(states, evs) && first <= last < |states|
    requires t in states[first].claims
    requires forall k :: first <= k < last ==> evs[k] != ReleaseTarget(t)
    ensures t in states[last].claims && t.sock in states[last].open
    ensures WellSized(states[last].b) && t.slot < MAX_CONNECTIONS
    ensures t == TargetOf(states[last].b.clients, t.slot) && states[last].b.clients[t.slot].inUse
    ensures ReleaseClaim(states[last].b, t).0
    decreases last
  {
    if first < last {
      ClaimHeldThroughout(states, evs, first, last - 1, t);
      ReachableInv(states, evs, last - 1);
      var e := evs[last - 1];
      assert states[last] == Step(states[last - 1], e);
      ClaimSurvives(states[last - 1], e, t);
    }
    ReachableInv(states, evs, last);
    ClaimSurvives(states[last], Stop, t);
    hide TaskInv, FenceInv, PoolInv, SlotInv, IdentityInv, DescriptorInv, ServerInv, Step;
    assert Holds(states[last].b.clients, t);
  }

  // ------------------------------------------------------------ descriptors

  /** The server is about to close a descriptor that is the stop's, or closed already. */
  predicate ClosedTwice(s: System) {
    s.server.Rejecting? && (s.server.sock in s.closing || s.server.sock !in s.open)
  }

  /** The task of a new record cannot be created, and the stop has taken the record's
      descriptor: what the firmware does not ask before it closes its own copy. */
  predicate RefusesRetired(s: System, e: Event) {
    && e == RefuseTask && s.server.Starting? && s.server.slot < |s.b.clients|
    && s.b.clients[s.server.slot].sock == -1
  }

  /** A second closer appears exactly when such a record is refused, and is there until
      the server has closed its copy. */
  lemma TwoClosersExactly(s: System, e: Event)
    requires Inv(s)
    ensures ClosedTwice(Step(s, e)) <==> RefusesRetired(s, e) || (ClosedTwice(s) && e != Reject)
  {
    hide FenceInv, PoolInv, SlotInv, IdentityInv, ClaimInv;
    match e
    case CloseRecord(slot) => hide Bind, Arrive;
    case RetireRecords =>
      hide TaskInv;
      assert s.server.Rejecting? ==> s.server.sock !in Retirable(s.b.clients);
    case RefuseTask => hide TaskInv;
    case _ =>
  }

  /** In a run some descriptor gets two closers exactly when, at some step, a record
      whose descriptor the stop has taken is refused its task. */
  lemma {:induction false} TwoClosersInRunExactly(
    states: seq<System>, evs: seq<Event>, n: nat)
    requires Run(states, evs) && n <= |evs|
    ensures (exists k :: 0 <= k <= n && ClosedTwice(states[k]))
       <==> (exists k :: 0 <= k < n && Sized(states[k]) && RefusesRetired(states[k], evs[k]))
    decreases n
  {
    hide Step, Inv, ClosedTwice, RefusesRetired;
    if n == 0 {
      StartHasOneCloser();
    } else {
      TwoClosersInRunExactly(states, evs, n - 1);
      ReachableInv(states, evs, n - 1);
      var e := evs[n - 1];
      TwoClosersExactly(states[n - 1], e);
      assert Sized(states[n - 1]);
    }
  }

  lemma StartHasOneCloser()
    ensures !ClosedTwice(Initial())
  {
  }

  /** In particular, only once a stop has begun. */
  lemma DescriptorsClosedOnceWhileRunning(states: seq<System>, evs: seq<Event>, k: nat)
    requires Run(states, evs) && k < |states|
    ensures ClosedTwice(states[k]) ==> states[k].stopping
  {
    ReachableInv(states, evs, k);
  }

  /** Who is going to close a descriptor: the task of a record, a party that has taken
      it out of its record, or the server. */
  datatype Closer = RecordsTask(slot: nat) | TakenOut | ServersCopy

  predicate Closes(s: System, who: Closer, sock: int) {
    match who
    case RecordsTask(slot) =>
      slot < |s.b.clients| && s.b.clients[slot].inUse && s.b.clients[slot].sock == sock
    case TakenOut => sock in s.closing
    case ServersCopy => (s.server.Accepted? || s.server.Rejecting?) && s.server.sock == sock
  }

  /** Every open descriptor the broker knows has exactly one closer, of whatever kind,
      unless the server is about to close it twice. */
  lemma OneCloserEach(s: System, sock: int, one: Closer, other: Closer)
    requires Inv(s) && sock >= 0 && Closes(s, one, sock) && Closes(s, other, sock)
    ensures one == other || (ClosedTwice(s) && s.server.sock == sock)
  {
    hide TaskInv, FenceInv, PoolInv, SlotInv, IdentityInv, ClaimInv;
    RecordsDescriptor(s, one, sock);
    RecordsDescriptor(s, other, sock);
  }

  lemma RecordsDescriptor(s: System, who: Closer, sock: int)
    requires Inv(s) && sock >= 0 && Closes(s, who, sock)
    ensures who.RecordsTask? ==>
              && Retires(s.b.clients[who.slot]) && s.b.clients[who.slot].sock == sock
              && sock in s.open && sock !in s.closing
  {
    hide TaskInv, FenceInv, PoolInv, SlotInv, IdentityInv, ClaimInv, ServerInv;
  }

  /** A step passes a record's descriptor on at most once, to one closer: a task or the
      stop, which takes it out although nobody had, or the server. */
  lemma TakenOutOnce(s: System, e: Event, slot: nat, sock: int)
    requires Inv(s) && sock >= 0 && Closes(s, RecordsTask(slot), sock)
    ensures sock in s.open && sock !in s.closing
    ensures var t := Step(s, e);
            if Closes(t, RecordsTask(slot), sock) then sock !in t.closing
            else if e == RefuseTask then Closes(t, ServersCopy, sock) && sock !in t.closing
            else (e == CloseRecord(slot) || e == RetireRecords) && sock in t.closing
  {
    hide FenceInv, PoolInv, SlotInv, IdentityInv, ClaimInv;
    RecordsDescriptor(s, RecordsTask(slot), sock);
    StepKeepsInv(s, e);
  }

  /** What a step adds to the descriptors taken out was some record's, and taken out by
      nobody, just before. */
  lemma OnlyRecordsAreTakenOut(s: System, e: Event, sock: int) returns (slot: nat)
    requires Inv(s) && sock in Step(s, e).closing && sock !in s.closing
    ensures Closes(s, RecordsTask(slot), sock)
  {
    hide FenceInv, PoolInv, SlotInv, IdentityInv, ClaimInv, DescriptorInv, ServerInv;
    if e.CloseRecord? {
      TaskHasRecord(s, e.slot);
      slot := e.slot;
    } else {
      var i :| 0 <= i < MAX_CONNECTIONS && Retires(s.b.clients[i]) && s.b.clients[i].sock == sock;
      slot := i;
    }
  }

  /** As long as no such record has been refused, nobody closes a descriptor that is
      not open, during a stop either. */
  lemma {:induction false} OnlyOpenDescriptorsAreClosed(
    states: seq<System>, evs: seq<Event>, n: nat)
    requires Run(states, evs) && n <= |evs|
    requires forall k :: 0 <= k < n ==> !RefusesRetired(states[k], evs[k])
    ensures !ClosedTwice(states[n]) && states[n].closing <= states[n].open
    decreases n
  {
    if n > 0 {
      OnlyOpenDescriptorsAreClosed(states, evs, n - 1);
      ReachableInv(states, evs, n - 1);
      var e := evs[n - 1];
      TwoClosersExactly(states[n - 1], e);
      ClosingStaysOpen(states[n - 1], e);
      hide Step, Inv, ClosedTwice, RefusesRetired;
      assert states[n] == Step(states[n - 1], e);
    }
  }

  lemma ClosingStaysOpen(s: System, e: Event)
    requires Inv(s) && !ClosedTwice(s) && s.closing <= s.open
    ensures Step(s, e).closing <= Step(s, e).open
  {
    hide TaskInv, FenceInv, PoolInv, SlotInv, IdentityInv, ClaimInv;
    if e.CloseRecord? && HasTask(s, e.slot) && s.b.clients[e.slot].sock >= 0 {
      TaskHasRecord(s, e.slot);
      assert Retires(s.b.clients[e.slot]);
    }
  }

  lemma FirstArrival(sock: int, peer: uint32)
    requires sock >= 0
    ensures var s := DoAccept(Initial(), sock);
            s.claims == {} && Sized(s) && DoAllocate(s, peer, false) == s.(
              server := Starting(0, sock),
              b := s.b.(nextId := 1, clients := s.b.clients[0 :=
                     Client(true, false, false, false, sock, 1, peer, "", "", -1)]))
  {
    var s := DoAccept(Initial(), sock);
    assert Pending(s.b.clients) == {} && PendingFrom(s.b.clients, peer) == {};
    assert s.proven[0 := false] == s.proven;
  }

  lemma RetirementTakesAll(s: System)
    requires Inv(s) && s.stopping && s.claims == {} && s.server.Starting?
    ensures RefusesRetired(DoRetire(s), RefuseTask)
  {
    hide TaskInv, FenceInv, PoolInv, SlotInv, IdentityInv, DescriptorInv;
    assert forall i :: 0 <= i < MAX_CONNECTIONS ==> !s.b.clients[i].claimed;
  }

  lemma RunStarts()
    ensures Run([Initial()], [])
  {
  }

  lemma Extended(states: seq<System>, evs: seq<Event>, e: Event)
    returns (states': seq<System>, evs': seq<Event>)
    requires Run(states, evs)
    ensures Run(states', evs') && |states'| == |evs'| + 1 && Inv(states'[|evs'|])
    ensures Sized(states[|evs|]) && states'[|evs'|] == Step(states[|evs|], e)
  {
    hide TaskInv, FenceInv, PoolInv, SlotInv, IdentityInv, ClaimInv, DescriptorInv, ServerInv;
    ReachableInv(states, evs, |evs|);
    states', evs' := states + [Step(states[|evs|], e)], evs + [e];
    forall k | 0 <= k < |evs'|
      ensures Sized(states'[k]) && states'[k + 1] == Step(states'[k], evs'[k])
    {
      if k < |evs| {
        assert evs'[k] == evs[k] && states'[k] == states[k] && states'[k + 1] == states[k + 1];
      }
    }
    assert Run(states', evs');
    ReachableInv(states', evs', |evs'|);
  }

  /** Such runs exist: the stop falls between an arrival and the refusal of its task. */
  lemma StopCanLeaveTwoClosers() returns (states: seq<System>, evs: seq<Event>)
    ensures Run(states, evs) && ClosedTwice(states[|evs|])
  {
    RunStarts();
    hide Run, Inv, DoAllocate, DoRefuseTask, DoRetire, Initial, ClosedTwice;
    states, evs := Extended([Initial()], [], Accept(5));
    states, evs := Extended(states, evs, Allocate(7, false));
    FirstArrival(5, 7);
    states, evs := Extended(states, evs, Stop);
    var s := states[|evs|];
    states, evs := Extended(states, evs, RetireRecords);
    states, evs := Extended(states, evs, RefuseTask);
    RetirementTakesAll(s);
    TwoClosersExactly(DoRetire(s), RefuseTask);
  }
}
