/** The budget for password derivations started by machine authentication: fixed
    windows of ten seconds, with a share that only recently authenticated sources
    may spend. */
module KdfBudget {
  import opened Words

  const BURST: nat := 8
  const UNPROVEN_BURST: nat := 5
  const WINDOW_US: nat := 10_000_000
  const PROVEN_SOURCES: nat := 2
  const PROVEN_TTL_US: nat := 600_000_000
  const SECOND_US: nat := 1_000_000

  datatype Source = Source(inUse: bool, peer: uint32, lastSuccess: uint64)

  const NO_SOURCE := Source(false, 0, 0)

  /** `window` is the start of the current window, 0 before the first one. */
  datatype Budget = Budget(window: uint64, spent: nat, proven: seq<Source>)

  predicate Live(e: Source, now: uint64) {
    e.inUse && Sub64(now, e.lastSuccess) < PROVEN_TTL_US
  }

  predicate IsProven(proven: seq<Source>, peer: uint32, now: uint64) {
    exists i :: 0 <= i < |proven| && proven[i].peer == peer && Live(proven[i], now)
  }

  predicate Reopens(b: Budget, now: uint64) {
    b.window == 0 || Sub64(now, b.window) >= WINDOW_US
  }

  function Refreshed(b: Budget, now: uint64): Budget {
    if Reopens(b, now) then b.(window := now, spent := 0) else b
  }

  function Allowance(b: Budget, peer: uint32, now: uint64): nat {
    if IsProven(b.proven, peer, now) then BURST else UNPROVEN_BURST
  }

  predicate Admitted(b: Budget, peer: uint32, now: uint64) {
    Refreshed(b, now).spent < Allowance(b, peer, now)
  }

  function Admit(b: Budget, peer: uint32, now: uint64): Budget {
    var current := Refreshed(b, now);
    if Admitted(b, peer, now) then current.(spent := current.spent + 1) else current
  }

  function RetryAfter(b: Budget, now: uint64): nat {
    var current := Refreshed(b, now);
    (WINDOW_US - Sub64(now, current.window) + SECOND_US - 1) / SECOND_US
  }

  // ------------------------------------------------------------ the proven table

  function FirstWithPeer(proven: seq<Source>, peer: uint32, i: nat): (at: nat)
    requires i <= |proven|
    ensures i <= at <= |proven|
    ensures at < |proven| ==> proven[at].inUse && proven[at].peer == peer
    ensures forall k :: i <= k < at ==> !(proven[k].inUse && proven[k].peer == peer)
    decreases |proven| - i
  {
    if i == |proven| || (proven[i].inUse && proven[i].peer == peer) then i
    else FirstWithPeer(proven, peer, i + 1)
  }

  /** The entry a new source takes over, scanning from `i` with `best` so far. */
  function Victim(proven: seq<Source>, now: uint64, i: nat, best: nat): (at: nat)
    requires i <= |proven| && best < |proven|
    ensures at < |proven|
    decreases |proven| - i
  {
    if i == |proven| then best
    else if !Live(proven[i], now) then i
    else Victim(proven, now, i + 1,
                if proven[i].lastSuccess < proven[best].lastSuccess then i else best)
  }

  function Marked(proven: seq<Source>, peer: uint32, now: uint64): (marked: seq<Source>)
    requires |proven| == PROVEN_SOURCES
    ensures |marked| == PROVEN_SOURCES
  {
    var known := FirstWithPeer(proven, peer, 0);
    var at := if known < |proven| then known else Victim(proven, now, 0, 0);
    proven[at := Source(true, peer, now)]
  }

  /** Nobody is in the table twice. */
  predicate DistinctSources(proven: seq<Source>) {
    forall i, j :: 0 <= i < j < |proven| && proven[i].inUse && proven[j].inUse ==>
      proven[i].peer != proven[j].peer
  }

  /** A success, first or renewed, is remembered for exactly ten minutes. It displaces no
      other source if its own was known, and otherwise only an entry that has run out or
      is no newer than the other one. */
  lemma MarkedSources(proven: seq<Source>, peer: uint32, now: uint64, later: uint64)
    requires |proven| == PROVEN_SOURCES && DistinctSources(proven) && now <= later
    ensures DistinctSources(Marked(proven, peer, now))
    ensures IsProven(Marked(proven, peer, now), peer, later) <==> later - now < 600_000_000
    ensures forall i ::
              (&& 0 <= i < PROVEN_SOURCES && proven[i].peer != peer && Live(proven[i], now)
               && (FirstWithPeer(proven, peer, 0) < PROVEN_SOURCES
                   || proven[1 - i].lastSuccess < proven[i].lastSuccess)) ==>
                Marked(proven, peer, now)[i] == proven[i]
  {
    var known := FirstWithPeer(proven, peer, 0);
    var at := if known < PROVEN_SOURCES then known else Victim(proven, now, 0, 0);
    var marked := Marked(proven, peer, now);
    assert marked[at] == Source(true, peer, now);
    if later - now < PROVEN_TTL_US {
      assert Live(marked[at], later);
    }
    if known == PROVEN_SOURCES {
      forall i | 0 <= i < PROVEN_SOURCES && Live(proven[i], now)
                 && proven[1 - i].lastSuccess < proven[i].lastSuccess
        ensures at == 1 - i
      {
        assert Live(proven[0], now) ==> at == Victim(proven, now, 1, 0);
        assert Victim(proven, now, 2, 0) == 0 && Victim(proven, now, 2, 1) == 1;
      }
    }
  }

  class KdfGate {
    const proven: array<Source>
    var window: uint64
    var spent: nat

    ghost predicate Valid()
      reads this
    {
      proven.Length == PROVEN_SOURCES
    }

    ghost function View(): Budget
      reads this, proven
    {
      Budget(window, spent, proven[..])
    }

    constructor ()
      ensures Valid() && fresh(proven)
      ensures View() == Budget(0, 0, seq(PROVEN_SOURCES, _ => NO_SOURCE))
    {
      proven := new Source[PROVEN_SOURCES](_ => NO_SOURCE);
      window, spent := 0, 0;
    }

    method SourceIsProven(peer: uint32, now: uint64) returns (found: bool)
      requires Valid()
      ensures found == IsProven(proven[..], peer, now)
    {
      var i := 0;
      while i < proven.Length
        invariant 0 <= i <= proven.Length
        invariant forall k :: 0 <= k < i ==> !(proven[k].peer == peer && Live(proven[k], now))
      {
        if proven[i].peer == peer && Live(proven[i], now) {
          assert Live(proven[..][i], now);
          return true;
        }
        i := i + 1;
      }
      return false;
    }

    method MarkSourceProven(peer: uint32, now: uint64)
      requires Valid()
      modifies proven
      ensures Valid() && proven[..] == Marked(old(proven[..]), peer, now)
    {
      var target := proven.Length;
      var i := 0;
      while i < proven.Length
        invariant 0 <= i <= proven.Length && target == proven.Length
        invariant FirstWithPeer(proven[..], peer, 0) == FirstWithPeer(proven[..], peer, i)
      {
        if proven[i].inUse && proven[i].peer == peer {
          target := i;
          break;
        }
        i := i + 1;
      }
      if target == proven.Length {
        target := 0;
        i := 0;
        while i < proven.Length
          invariant 0 <= i <= proven.Length && target < proven.Length
          invariant Victim(proven[..], now, 0, 0) == Victim(proven[..], now, i, target)
        {
          if !Live(proven[i], now) {
            target := i;
            break;
          }
          if proven[i].lastSuccess < proven[target].lastSuccess {
            target := i;
          }
          i := i + 1;
        }
      }
      proven[target] := Source(true, peer, now);
    }

    method GlobalAdmit(peer: uint32, now: uint64) returns (admitted: bool, retryAfter: nat)
      requires Valid()
      modifies `window, `spent
      ensures View() == Admit(old(View()), peer, now)
      ensures admitted == Admitted(old(View()), peer, now)
      ensures retryAfter == if admitted then 0 else RetryAfter(old(View()), now)
    {
      if window == 0 || Sub64(now, window) >= WINDOW_US {
        window, spent := now, 0;
      }
      var isProven := SourceIsProven(peer, now);
      var allowance := if isProven then BURST else UNPROVEN_BURST;
      if spent >= allowance {
        var remaining := WINDOW_US - Sub64(now, window);
        return false, (remaining + 999_999) / 1_000_000;
      }
      spent := spent + 1;
      return true, 0;
    }
  }

  // ------------------------------------------------------------ runs

  datatype Admission = Admission(now: uint64, proven: bool)

  /** The admissions of one window, in order. */
  datatype Window = Window(start: uint64, admissions: seq<Admission>)

  /** `log` is every admission so far; `windows` the same, cut where windows opened. */
  datatype System = System(b: Budget, log: seq<Admission>, windows: seq<Window>)

  datatype Event = Ask(peer: uint32, now: uint64) | Succeed(peer: uint32, now: uint64)

  function Initial(): System {
    System(Budget(0, 0, seq(PROVEN_SOURCES, _ => NO_SOURCE)), [], [])
  }

  function Opened(s: System, now: uint64): seq<Window> {
    if Reopens(s.b, now) then s.windows + [Window(now, [])] else s.windows
  }

  function Recorded(windows: seq<Window>, a: Admission): seq<Window> {
    if windows == [] then [] else
      var last := |windows| - 1;
      windows[last := windows[last].(admissions := windows[last].admissions + [a])]
  }

  function Step(s: System, e: Event): System
    requires |s.b.proven| == PROVEN_SOURCES
  {
    match e
    case Succeed(peer, now) => s.(b := s.b.(proven := Marked(s.b.proven, peer, now)))
    case Ask(peer, now) =>
      var a := Admission(now, IsProven(s.b.proven, peer, now));
      var s' := s.(b := Admit(s.b, peer, now), windows := Opened(s, now));
      if Admitted(s.b, peer, now)
      then s'.(log := s.log + [a], windows := Recorded(Opened(s, now), a)) else s'
  }

  /** Every run of the gate. Asking times are positive and come in any order: the clock is
      read before the lock is taken. */
  ghost predicate Run(states: seq<System>, evs: seq<Event>) {
    && |states| == |evs| + 1
    && states[0] == Initial()
    && forall k {:trigger evs[k]} :: 0 <= k < |evs| ==>
         && |states[k].b.proven| == PROVEN_SOURCES
         && states[k + 1] == Step(states[k], evs[k])
         && (evs[k].Ask? ==> 0 < evs[k].now)
  }

  /** Nobody asks with a time from before the current window. */
  ghost predicate NeverBeforeWindow(states: seq<System>, evs: seq<Event>) {
    |states| == |evs| + 1 &&
    forall k {:trigger evs[k]} :: 0 <= k < |evs| && evs[k].Ask? ==>
      states[k].b.window <= evs[k].now
  }

  ghost predicate OrderlyRun(states: seq<System>, evs: seq<Event>) {
    Run(states, evs) && NeverBeforeWindow(states, evs)
  }

  /** Asking times do not decrease in the order in which the lock is taken. */
  predicate InLockOrder(evs: seq<Event>) {
    forall i, k :: 0 <= i < k < |evs| && evs[i].Ask? && evs[k].Ask? ==> evs[i].now <= evs[k].now
  }

  lemma {:induction false} WindowWasAsked(states: seq<System>, evs: seq<Event>, k: nat)
    returns (i: nat)
    requires Run(states, evs) && k < |states| && states[k].b.window != 0
    ensures i < k && evs[i].Ask? && evs[i].now == states[k].b.window
    decreases k
  {
    assert k > 0;
    assert states[k] == Step(states[k - 1], evs[k - 1]);
    if evs[k - 1].Ask? && Reopens(states[k - 1].b, evs[k - 1].now) {
      i := k - 1;
    } else {
      i := WindowWasAsked(states, evs, k - 1);
    }
  }

  /** Times in the order of the lock are never from before the window. */
  lemma LockOrderIsOrderly(states: seq<System>, evs: seq<Event>)
    requires Run(states, evs) && InLockOrder(evs)
    ensures OrderlyRun(states, evs)
  {
    forall k | 0 <= k < |evs| && evs[k].Ask?
      ensures states[k].b.window <= evs[k].now
    {
      if states[k].b.window != 0 {
        var i := WindowWasAsked(states, evs, k);
      }
    }
  }

  function Flatten(windows: seq<Window>): seq<Admission> {
    if windows == [] then []
    else Flatten(windows[..|windows| - 1]) + windows[|windows| - 1].admissions
  }

  /** One window: opened by its first admission, at most 8, and past the fifth only
      proven sources. */
  predicate WindowInv(w: Window) {
    && 1 <= |w.admissions| <= BURST
    && w.start == w.admissions[0].now
    && (forall i :: 0 <= i < |w.admissions| ==> Sub64(w.admissions[i].now, w.start) < WINDOW_US)
    && (forall i :: UNPROVEN_BURST <= i < |w.admissions| ==> w.admissions[i].proven)
  }

  predicate Inv(s: System) {
    && |s.b.proven| == PROVEN_SOURCES
    && (forall i :: 0 <= i < |s.windows| ==> WindowInv(s.windows[i]))
    && Flatten(s.windows) == s.log
    && (s.windows == [] <==> s.b.window == 0)
    && (s.windows != [] ==>
          var w := s.windows[|s.windows| - 1];
          w.start == s.b.window && |w.admissions| == s.b.spent)
  }

  lemma FlattenAppend(windows: seq<Window>, w: Window)
    ensures Flatten(windows + [w]) == Flatten(windows) + w.admissions
  {
    assert (windows + [w])[..|windows|] == windows;
  }

  /** Recording an admission in the last window appends it to the log. */
  lemma {:induction false} RecordedAppends(front: seq<Window>, w: Window, a: Admission)
    ensures Recorded(front + [w], a) == front + [w.(admissions := w.admissions + [a])]
    ensures Flatten(Recorded(front + [w], a)) == Flatten(front + [w]) + [a]
  {
    FlattenAppend(front, w);
    FlattenAppend(front, w.(admissions := w.admissions + [a]));
  }

  lemma ReopenedStep(s: System, peer: uint32, now: uint64)
    requires Inv(s) && Reopens(s.b, now)
    ensures var a := Admission(now, IsProven(s.b.proven, peer, now));
            Step(s, Ask(peer, now))
            == System(Budget(now, 1, s.b.proven), s.log + [a], s.windows + [Window(now, [a])])
  {
    hide IsProven, Flatten, WindowInv;
    var a := Admission(now, IsProven(s.b.proven, peer, now));
    RecordedAppends(s.windows, Window(now, []), a);
    assert [] + [a] == [a];
  }

  lemma FreshWindow(a: Admission)
    ensures WindowInv(Window(a.now, [a]))
  {
  }

  lemma ReopenedKeepsInv(s: System, peer: uint32, now: uint64)
    requires Inv(s) && 0 < now && Reopens(s.b, now)
    ensures Inv(Step(s, Ask(peer, now)))
  {
    hide IsProven, Flatten, WindowInv, Step, Reopens;
    var a := Admission(now, IsProven(s.b.proven, peer, now));
    ReopenedStep(s, peer, now);
    FreshWindow(a);
    FlattenAppend(s.windows, Window(now, [a]));
  }

  lemma ContinuedKeepsInv(s: System, peer: uint32, now: uint64)
    requires Inv(s) && 0 < now && !Reopens(s.b, now) && Admitted(s.b, peer, now)
    ensures Inv(Step(s, Ask(peer, now))) && s.windows != []
    ensures var last := |s.windows| - 1;
            var a := Admission(now, IsProven(s.b.proven, peer, now));
            Step(s, Ask(peer, now)).windows
            == s.windows[..last]
               + [s.windows[last].(admissions := s.windows[last].admissions + [a])]
  {
    var a := Admission(now, IsProven(s.b.proven, peer, now));
    var last := |s.windows| - 1;
    var front, w := s.windows[..last], s.windows[last];
    assert s.windows == front + [w];
    assert WindowInv(w);
    assert WindowInv(w.(admissions := w.admissions + [a]));
    RecordedAppends(front, w, a);
    hide Flatten, WindowInv, IsProven, Recorded;
  }

  lemma AskKeepsInv(s: System, peer: uint32, now: uint64)
    requires Inv(s) && 0 < now
    ensures Inv(Step(s, Ask(peer, now)))
  {
    hide Flatten, WindowInv, IsProven, Recorded;
    if Reopens(s.b, now) {
      ReopenedKeepsInv(s, peer, now);
    } else if Admitted(s.b, peer, now) {
      ContinuedKeepsInv(s, peer, now);
    }
  }

  lemma {:induction false} ReachableInv(states: seq<System>, evs: seq<Event>, k: nat)
    requires Run(states, evs) && k < |states|
    ensures Inv(states[k])
    decreases k
  {
    if k > 0 {
      ReachableInv(states, evs, k - 1);
      var e := evs[k - 1];
      assert states[k] == Step(states[k - 1], e);
      if e.Ask? {
        AskKeepsInv(states[k - 1], e.peer, e.now);
      }
    }
  }

  /** No admission of the window was asked for with a time from before it. */
  predicate Upright(w: Window) {
    forall i :: 0 <= i < |w.admissions| ==> w.start <= w.admissions[i].now
  }

  /** The windows of an orderly run: one after the other. */
  predicate InOrder(windows: seq<Window>) {
    && (forall i :: 0 <= i < |windows| ==> Upright(windows[i]))
    && (forall i :: 0 < i < |windows| ==>
          windows[i - 1].start + WINDOW_US <= windows[i].start)
  }

  lemma AskKeepsOrder(s: System, peer: uint32, now: uint64)
    requires Inv(s) && InOrder(s.windows) && 0 < now && s.b.window <= now
    ensures InOrder(Step(s, Ask(peer, now)).windows)
  {
    hide Flatten, WindowInv, IsProven, Recorded;
    if Reopens(s.b, now) {
      ReopenedStep(s, peer, now);
    } else if Admitted(s.b, peer, now) {
      ContinuedKeepsInv(s, peer, now);
      assert Upright(s.windows[|s.windows| - 1]);
    }
  }

  lemma {:induction false} OrderlyInv(states: seq<System>, evs: seq<Event>, k: nat)
    requires OrderlyRun(states, evs) && k < |states|
    ensures InOrder(states[k].windows)
    decreases k
  {
    if k > 0 {
      OrderlyInv(states, evs, k - 1);
      ReachableInv(states, evs, k - 1);
      var e := evs[k - 1];
      assert states[k] == Step(states[k - 1], e);
      if e.Ask? {
        AskKeepsOrder(states[k - 1], e.peer, e.now);
      }
    }
  }

  // ------------------------------------------------------------ any ten seconds

  predicate Within(a: Admission, t: int) {
    t <= a.now < t + 10_000_000
  }

  /** Admissions in [t, t + 10 s); with `all` false, only those of unproven sources. */
  function Count(log: seq<Admission>, t: int, all: bool): (n: nat)
    ensures n <= |log|
  {
    if log == [] then 0
    else
      var a := log[|log| - 1];
      Count(log[..|log| - 1], t, all) + (if Within(a, t) && (all || !a.proven) then 1 else 0)
  }

  function Cap(all: bool): nat {
    if all then BURST else UNPROVEN_BURST
  }

  /** What a window can put into [t, t + 10 s): all it has if it opens there, all but its
      opener if it opened less than ten seconds before. */
  function Share(start: int, t: int, all: bool): nat {
    if t <= start < t + WINDOW_US then Cap(all)
    else if t - WINDOW_US < start < t then Cap(all) - 1
    else 0
  }

  function Peak(starts: seq<nat>, t: int, all: bool): nat {
    if starts == [] then 0
    else
      var last := |starts| - 1;
      Peak(starts[..last], t, all) + Share(starts[last], t, all)
  }

  function Starts(windows: seq<Window>): seq<nat> {
    seq(|windows|, i requires 0 <= i < |windows| => windows[i].start)
  }

  lemma {:induction false} CountConcat(a: seq<Admission>, b: seq<Admission>, t: int, all: bool)
    ensures Count(a + b, t, all) == Count(a, t, all) + Count(b, t, all)
    decreases |b|
  {
    if b == [] {
      assert a + b == a;
    } else {
      var last := |b| - 1;
      CountConcat(a, b[..last], t, all);
      assert (a + b)[..|a + b| - 1] == a + b[..last];
    }
  }

  /** The part of a prefix of one window that falls into the interval. */
  lemma {:induction false} CountOfWindow(w: Window, k: nat, t: int, all: bool)
    requires WindowInv(w) && Upright(w) && k <= |w.admissions|
    ensures Count(w.admissions[..k], t, all) <= Share(w.start, t, all)
    ensures Count(w.admissions[..k], t, all) <= if w.start < t && k > 0 then k - 1 else k
    decreases k
  {
    if k > 0 {
      CountOfWindow(w, k - 1, t, all);
      assert w.admissions[..k][..k - 1] == w.admissions[..k - 1];
    }
  }

  lemma {:induction false} CountOfWindows(windows: seq<Window>, t: int, all: bool)
    requires forall i :: 0 <= i < |windows| ==> WindowInv(windows[i]) && Upright(windows[i])
    ensures Count(Flatten(windows), t, all) <= Peak(Starts(windows), t, all)
    decreases |windows|
  {
    if windows != [] {
      var last := |windows| - 1;
      var w := windows[last];
      CountOfWindows(windows[..last], t, all);
      CountConcat(Flatten(windows[..last]), w.admissions, t, all);
      CountOfWindow(w, |w.admissions|, t, all);
      assert w.admissions[..|w.admissions|] == w.admissions;
      assert Starts(windows)[..last] == Starts(windows[..last]);
      hide Count, WindowInv, Upright, Share;
    }
  }

  /** Window starts at least ten seconds apart, in whatever order. */
  predicate Spaced(starts: seq<nat>) {
    forall i, j :: 0 <= i < j < |starts| ==>
      starts[i] + WINDOW_US <= starts[j] || starts[j] + WINDOW_US <= starts[i]
  }

  predicate SomeIn(starts: seq<nat>, low: int, high: int) {
    exists i :: 0 <= i < |starts| && low <= starts[i] < high
  }

  /** At most one window opens inside an interval, and at most one reaches into it
      from before. */
  lemma {:induction false} PeakOfSpaced(starts: seq<nat>, t: int, all: bool)
    requires Spaced(starts)
    ensures Peak(starts, t, all)
         == (if SomeIn(starts, t, t + WINDOW_US) then Cap(all) else 0)
          + (if SomeIn(starts, t - WINDOW_US + 1, t) then Cap(all) - 1 else 0)
    decreases |starts|
  {
    if starts != [] {
      var last := |starts| - 1;
      PeakOfSpaced(starts[..last], t, all);
      SomeInGrows(starts, t, t + WINDOW_US);
      SomeInGrows(starts, t - WINDOW_US + 1, t);
    }
  }

  lemma SomeInGrows(starts: seq<nat>, low: int, high: int)
    requires starts != [] && Spaced(starts) && high - low <= WINDOW_US
    ensures var last := |starts| - 1;
            if low <= starts[last] < high
            then SomeIn(starts, low, high) && !SomeIn(starts[..last], low, high)
            else SomeIn(starts, low, high) == SomeIn(starts[..last], low, high)
  {
    var last := |starts| - 1;
    if i :| 0 <= i < last && low <= starts[i] < high {
      assert starts[..last][i] == starts[i];
    }
  }

  lemma OrderIsSpaced(windows: seq<Window>)
    requires InOrder(windows)
    ensures Spaced(Starts(windows))
  {
    forall i, j | 0 <= i < j < |windows|
      ensures windows[i].start + WINDOW_US <= windows[j].start
    {
      WindowsApart(windows, i, j);
    }
  }

  lemma {:induction false} WindowsApart(windows: seq<Window>, i: nat, j: nat)
    requires InOrder(windows) && i < j < |windows|
    ensures windows[i].start + WINDOW_US <= windows[j].start
    decreases j
  {
    if i < j - 1 {
      WindowsApart(windows, i, j - 1);
    }
  }

  lemma OrderlyPeak(states: seq<System>, evs: seq<Event>, k: nat, t: int, all: bool)
    requires OrderlyRun(states, evs) && k < |states|
    ensures Spaced(Starts(states[k].windows))
    ensures Count(states[k].log, t, all) <= Peak(Starts(states[k].windows), t, all)
  {
    ReachableInv(states, evs, k);
    OrderlyInv(states, evs, k);
    OrderIsSpaced(states[k].windows);
    CountOfWindows(states[k].windows, t, all);
  }

  /** When nobody asks with a time from before the current window, the budget admits at
      most 15 in any ten seconds, at most 9 of them unproven when admitted. */
  lemma AnyTenSeconds(states: seq<System>, evs: seq<Event>, k: nat, t: int)
    requires OrderlyRun(states, evs) && k < |states|
    ensures Count(states[k].log, t, true) <= 15
    ensures Count(states[k].log, t, false) <= 9
  {
    OrderlyPeak(states, evs, k, t, true);
    OrderlyPeak(states, evs, k, t, false);
    PeakOfSpaced(Starts(states[k].windows), t, true);
    PeakOfSpaced(Starts(states[k].windows), t, false);
  }

  /** Each window admits at most 8, at most 5 of them unproven, and every admission is in
      exactly one, in whatever order times come; in an orderly run they fall within the ten
      seconds of their window and no two windows overlap. */
  lemma EachWindow(states: seq<System>, evs: seq<Event>, k: nat, i: nat)
    requires Run(states, evs) && k < |states| && i < |states[k].windows|
    ensures Flatten(states[k].windows) == states[k].log
    ensures 1 <= |states[k].windows[i].admissions| <= BURST
    ensures Unproven(states[k].windows[i].admissions) <= UNPROVEN_BURST
    ensures NeverBeforeWindow(states, evs) ==>
              forall a :: a in states[k].windows[i].admissions ==>
                Within(a, states[k].windows[i].start)
    ensures NeverBeforeWindow(states, evs) ==>
              forall j :: i < j < |states[k].windows| ==>
                states[k].windows[i].start + WINDOW_US <= states[k].windows[j].start
  {
    ReachableInv(states, evs, k);
    var windows := states[k].windows;
    assert WindowInv(windows[i]);
    UnprovenOfWindow(windows[i], |windows[i].admissions|);
    assert windows[i].admissions[..|windows[i].admissions|] == windows[i].admissions;
    if NeverBeforeWindow(states, evs) {
      OrderlyInv(states, evs, k);
      assert Upright(windows[i]);
      forall j | i < j < |windows|
        ensures windows[i].start + WINDOW_US <= windows[j].start
      {
        WindowsApart(windows, i, j);
      }
    }
  }

  function Unproven(log: seq<Admission>): (n: nat)
    ensures n <= |log|
  {
    if log == [] then 0
    else Unproven(log[..|log| - 1]) + (if log[|log| - 1].proven then 0 else 1)
  }

  lemma {:induction false} UnprovenOfWindow(w: Window, k: nat)
    requires WindowInv(w) && k <= |w.admissions|
    ensures Unproven(w.admissions[..k]) <= UNPROVEN_BURST
  {
    if k > 0 {
      UnprovenOfWindow(w, k - 1);
      assert w.admissions[..k][..k - 1] == w.admissions[..k - 1];
    }
  }

  // ------------------------------------------------------------ the reserved share

  /** A proven source is turned away only after three proven admissions in the
      current window: unproven sources cannot spend the reserved share. */
  lemma ReservedShare(states: seq<System>, evs: seq<Event>, k: nat, peer: uint32, now: uint64)
    requires Run(states, evs) && k < |states| && 0 < now
    requires |states[k].b.proven| == PROVEN_SOURCES && IsProven(states[k].b.proven, peer, now)
    requires !Admitted(states[k].b, peer, now)
    ensures states[k].windows != []
    ensures var w := states[k].windows[|states[k].windows| - 1];
            && Sub64(now, w.start) < WINDOW_US
            && |w.admissions| - Unproven(w.admissions) >= BURST - UNPROVEN_BURST
  {
    ReachableInv(states, evs, k);
    EachWindow(states, evs, k, |states[k].windows| - 1);
  }

  /** Waiting the returned number of seconds reaches a fresh window, and no whole
      number of seconds less is certain to. */
  lemma RetryReachesFreshWindow(b: Budget, peer: uint32, now: uint64, later: uint64)
    requires 0 < b.window <= now && !Admitted(b, peer, now) && now <= later
    ensures 1 <= RetryAfter(b, now) <= 10
    ensures now + RetryAfter(b, now) * SECOND_US <= later ==> Reopens(Admit(b, peer, now), later)
    ensures later <= now + (RetryAfter(b, now) - 1) * SECOND_US ==>
              !Reopens(Admit(b, peer, now), later)
    ensures forall other :: Reopens(Admit(b, peer, now), later) ==>
              Admitted(Admit(b, peer, now), other, later)
  {
  }

  // ------------------------------------------------------------ building runs

  lemma Extended(states: seq<System>, evs: seq<Event>, e: Event)
    returns (states': seq<System>, evs': seq<Event>)
    requires Run(states, evs) && |states[|evs|].b.proven| == PROVEN_SOURCES
    requires e.Ask? ==> 0 < e.now
    ensures Run(states', evs') && |states'| == |evs'| + 1
    ensures states'[|evs'|] == Step(states[|evs|], e) && evs' == evs + [e]
    ensures NeverBeforeWindow(states, evs) && (e.Ask? ==> states[|evs|].b.window <= e.now) ==>
              NeverBeforeWindow(states', evs')
  {
    hide Step;
    states', evs' := states + [Step(states[|evs|], e)], evs + [e];
    forall k | 0 <= k < |evs'|
      ensures |states'[k].b.proven| == PROVEN_SOURCES && states'[k + 1] == Step(states'[k], evs'[k])
      ensures evs'[k].Ask? ==> 0 < evs'[k].now
    {
      if k < |evs| {
        assert evs'[k] == evs[k] && states'[k] == states[k] && states'[k + 1] == states[k + 1];
      }
    }
    if NeverBeforeWindow(states, evs) && (e.Ask? ==> states[|evs|].b.window <= e.now) {
      forall k | 0 <= k < |evs'| && evs'[k].Ask?
        ensures states'[k].b.window <= evs'[k].now
      {
        if k < |evs| {
          assert evs'[k] == evs[k] && states'[k] == states[k];
        }
      }
    }
  }

  function Copies(a: Admission, n: nat): (copies: seq<Admission>)
    ensures |copies| == n
  {
    seq(n, _ => a)
  }

  lemma {:induction false} CountCopies(a: Admission, n: nat, t: int, all: bool)
    ensures Count(Copies(a, n), t, all) == if Within(a, t) && (all || !a.proven) then n else 0
  {
    if n > 0 {
      CountCopies(a, n - 1, t, all);
      assert Copies(a, n)[..n - 1] == Copies(a, n - 1);
    }
  }

  /** An admitted ask in an open window: one more in the log, the same windows. */
  lemma AskAgain(s: System, now: uint64)
    requires |s.b.proven| == PROVEN_SOURCES && !Reopens(s.b, now) && s.windows != []
    requires s.b.spent < Allowance(s.b, 1, now)
    ensures var s' := Step(s, Ask(1, now));
            && s'.b == s.b.(spent := s.b.spent + 1)
            && s'.log == s.log + [Admission(now, IsProven(s.b.proven, 1, now))]
            && Starts(s'.windows) == Starts(s.windows)
  {
  }

  /** The first ask of a window. */
  lemma AskFirst(s: System, now: uint64)
    requires |s.b.proven| == PROVEN_SOURCES && Reopens(s.b, now)
    ensures var s' := Step(s, Ask(1, now));
            && s'.b == Budget(now, 1, s.b.proven)
            && s'.log == s.log + [Admission(now, IsProven(s.b.proven, 1, now))]
            && Starts(s'.windows) == Starts(s.windows) + [now]
  {
  }

  /** Source 1 asks `n` more times at one moment of the open window. */
  lemma {:induction false} Burst(states: seq<System>, evs: seq<Event>, now: uint64, n: nat)
    returns (states': seq<System>, evs': seq<Event>)
    requires Run(states, evs) && 0 < now && states[|evs|].windows != []
    requires |states[|evs|].b.proven| == PROVEN_SOURCES && !Reopens(states[|evs|].b, now)
    requires states[|evs|].b.spent + n <= Allowance(states[|evs|].b, 1, now)
    ensures Run(states', evs') && |states'| == |evs'| + 1
    ensures NeverBeforeWindow(states, evs) && states[|evs|].b.window <= now ==>
              NeverBeforeWindow(states', evs')
    ensures var s, s' := states[|evs|], states'[|evs'|];
            && s'.b == s.b.(spent := s.b.spent + n)
            && s'.log == s.log + Copies(Admission(now, IsProven(s.b.proven, 1, now)), n)
            && Starts(s'.windows) == Starts(s.windows)
    ensures evs <= evs' && forall k :: |evs| <= k < |evs'| ==> evs'[k] == Ask(1, now)
    decreases n
  {
    hide Step, Starts, IsProven;
    if n == 0 {
      states', evs' := states, evs;
      CopiesGrow(Admission(now, IsProven(states[|evs|].b.proven, 1, now)), 0);
    } else {
      states', evs' := Burst(states, evs, now, n - 1);
      ghost var before := states'[|evs'|];
      CopiesGrow(Admission(now, IsProven(states[|evs|].b.proven, 1, now)), n - 1);
      StartsLength(before.windows, states[|evs|].windows);
      AskAgain(before, now);
      states', evs' := Extended(states', evs', Ask(1, now));
    }
  }

  lemma CopiesGrow(a: Admission, n: nat)
    ensures Copies(a, n + 1) == Copies(a, n) + [a] && Copies(a, 0) == []
  {
  }

  lemma StartsLength(a: seq<Window>, b: seq<Window>)
    requires Starts(a) == Starts(b)
    ensures |a| == |b|
  {
    assert |Starts(a)| == |a| && |Starts(b)| == |b|;
  }

  lemma StartsGrow(a: seq<Window>, b: seq<Window>, start: nat)
    requires Starts(b) == Starts(a) + [start]
    ensures b != []
  {
    assert |Starts(b)| == |b| && |Starts(a)| == |a|;
  }

  /** Source 1 opens a window. */
  lemma Open(states: seq<System>, evs: seq<Event>, first: uint64)
    returns (states': seq<System>, evs': seq<Event>)
    requires Run(states, evs) && 0 < first
    requires |states[|evs|].b.proven| == PROVEN_SOURCES && Reopens(states[|evs|].b, first)
    ensures Run(states', evs') && |states'| == |evs'| + 1
    ensures NeverBeforeWindow(states, evs) && states[|evs|].b.window <= first ==>
              NeverBeforeWindow(states', evs')
    ensures var s, s' := states[|evs|], states'[|evs'|];
            && s'.b == Budget(first, 1, s.b.proven)
            && s'.log == s.log + [Admission(first, IsProven(s.b.proven, 1, first))]
            && Starts(s'.windows) == Starts(s.windows) + [first]
    ensures evs' == evs + [Ask(1, first)]
  {
    hide Step, Starts, IsProven, Reopens;
    AskFirst(states[|evs|], first);
    states', evs' := Extended(states, evs, Ask(1, first));
  }

  /** Source 1 opens a window and later, at one moment, spends the rest of its allowance. */
  lemma OpenAndSpend(
    states: seq<System>, evs: seq<Event>, first: uint64, now: uint64, proven: bool)
    returns (states': seq<System>, evs': seq<Event>)
    requires Run(states, evs) && 0 < first <= now < first + WINDOW_US
    requires |states[|evs|].b.proven| == PROVEN_SOURCES && Reopens(states[|evs|].b, first)
    requires IsProven(states[|evs|].b.proven, 1, first) == proven
    requires IsProven(states[|evs|].b.proven, 1, now) == proven
    ensures Run(states', evs') && |states'| == |evs'| + 1
    ensures NeverBeforeWindow(states, evs) && states[|evs|].b.window <= first ==>
              NeverBeforeWindow(states', evs')
    ensures var s, s', n := states[|evs|], states'[|evs'|], Cap(proven);
            && s'.b == Budget(first, n, s.b.proven)
            && s'.log == s.log + [Admission(first, proven)]
                         + Copies(Admission(now, proven), n - 1)
            && Starts(s'.windows) == Starts(s.windows) + [first]
    ensures evs + [Ask(1, first)] <= evs'
    ensures forall k :: |evs| < k < |evs'| ==> evs'[k] == Ask(1, now)
  {
    hide Step, Starts, IsProven;
    states', evs' := Open(states, evs, first);
    StartsGrow(states[|evs|].windows, states'[|evs'|].windows, first);
    states', evs' := Burst(states', evs', now, Cap(proven) - 1);
  }

  // ------------------------------------------------------------ fillings of given windows

  /** Window starts as a run can have them, short of the end of the clock: a later window
      opens after the one before it has ended, or at a time from before that one. */
  predicate Feasible(starts: seq<nat>) {
    && (forall i :: 0 <= i < |starts| ==> 0 < starts[i] < TWO_64 - 2 * WINDOW_US)
    && (forall i :: 0 < i < |starts| ==>
          starts[i] < starts[i - 1] || starts[i - 1] + WINDOW_US <= starts[i])
  }

  /** The same when every window opens after the one before it. */
  predicate Schedule(starts: seq<nat>) {
    Feasible(starts) && forall i :: 0 < i < |starts| ==> starts[i - 1] <= starts[i]
  }

  /** A run and what it has come to: the window starts, the window, the proven table. */
  ghost predicate Reached(states: seq<System>, evs: seq<Event>, starts: seq<nat>) {
    && Run(states, evs) && |states| == |evs| + 1
    && Starts(states[|evs|].windows) == starts
    && states[|evs|].b.window == if starts == [] then 0 else starts[|starts| - 1]
  }

  const UNKNOWN: seq<Source> := [NO_SOURCE, NO_SOURCE]

  /** The table in which source 1 alone succeeded, at `stamp`. */
  function Known(stamp: uint64): (table: seq<Source>)
    ensures |table| == PROVEN_SOURCES
  {
    [Source(true, 1, stamp), NO_SOURCE]
  }

  lemma KnownFor(stamp: uint64)
    requires stamp < TWO_64 - 2 * WINDOW_US
    ensures Marked(UNKNOWN, 1, stamp) == Known(stamp) == Marked(Known(stamp), 1, stamp)
    ensures forall now: uint64 :: stamp <= now < stamp + 2 * WINDOW_US ==>
              IsProven(Known(stamp), 1, now)
    ensures forall now: uint64 :: !IsProven(UNKNOWN, 1, now)
  {
    assert FirstWithPeer(UNKNOWN, 1, 0) == 2 && FirstWithPeer(Known(stamp), 1, 0) == 0;
    assert Victim(UNKNOWN, stamp, 0, 0) == 0;
    assert forall now: uint64 :: stamp <= now < stamp + 2 * WINDOW_US ==>
        Live(Known(stamp)[0], now);
  }

  /** The last moment at which a success serves every window that reaches into [t, t + 10 s). */
  function Stamp(t: int): int {
    if t > WINDOW_US then t - WINDOW_US + 1 else 1
  }

  /** The tables of a filling: nobody proven, or source 1 as long as the ten seconds last. */
  predicate Served(proven: seq<Source>, t: int, all: bool) {
    proven == UNKNOWN
    || (all && Stamp(t) < TWO_64 - 2 * WINDOW_US && proven == Known(Stamp(t)))
  }

  /** The run so far, with source 1 proven around `t`. */
  lemma Proved(states: seq<System>, evs: seq<Event>, starts: seq<nat>, t: int)
    returns (states': seq<System>, evs': seq<Event>)
    requires Reached(states, evs, starts) && Stamp(t) < TWO_64 - 2 * WINDOW_US
    requires Served(states[|evs|].b.proven, t, true)
    ensures Reached(states', evs', starts)
    ensures NeverBeforeWindow(states, evs) ==> NeverBeforeWindow(states', evs')
    ensures states'[|evs'|].log == states[|evs|].log && evs' == evs + [Succeed(1, Stamp(t))]
    ensures states'[|evs'|].b.proven == Known(Stamp(t))
  {
    KnownFor(Stamp(t));
    hide IsProven, Marked, Starts;
    states', evs' := Extended(states, evs, Succeed(1, Stamp(t)));
  }

  lemma CountFilled(
    before: seq<Admission>, first: uint64, now: uint64, t: int, proven: bool)
    requires t <= now < t + WINDOW_US
    ensures Count(before + [Admission(first, proven)]
                  + Copies(Admission(now, proven), Cap(proven) - 1), t, proven)
         == Count(before, t, proven) + Cap(proven) - if t <= first < t + WINDOW_US then 0 else 1
  {
    var a, b := Admission(first, proven), Admission(now, proven);
    CountConcat(before + [a], Copies(b, Cap(proven) - 1), t, proven);
    CountConcat(before, [a], t, proven);
    CountCopies(b, Cap(proven) - 1, t, proven);
  }

  lemma ReopensAsFeasible(states: seq<System>, evs: seq<Event>, starts: seq<nat>, next: uint64)
    requires Reached(states, evs, starts) && Feasible(starts + [next])
    ensures Reopens(states[|evs|].b, next)
  {
    if starts != [] {
      assert starts[|starts| - 1] == (starts + [next])[|starts| - 1];
      assert next == (starts + [next])[|starts|];
    }
  }

  /** A window that reaches into [t, t + 10 s), filled as far as it goes. */
  lemma FillNext(states: seq<System>, evs: seq<Event>, starts: seq<nat>, next: uint64, t: int,
                 all: bool)
    returns (states': seq<System>, evs': seq<Event>)
    requires Reached(states, evs, starts) && Feasible(starts + [next])
    requires t - WINDOW_US < next < t + WINDOW_US
    requires Served(states[|evs|].b.proven, t, all)
    ensures Reached(states', evs', starts + [next])
    ensures NeverBeforeWindow(states, evs) && Schedule(starts + [next]) ==>
              NeverBeforeWindow(states', evs')
    ensures Served(states'[|evs'|].b.proven, t, all)
    ensures Count(states'[|evs'|].log, t, all)
         == Count(states[|evs|].log, t, all) + Share(next, t, all)
  {
    assert next == (starts + [next])[|starts|];
    assert starts != [] ==> starts[|starts| - 1] == (starts + [next])[|starts| - 1];
    states', evs' := states, evs;
    if all {
      states', evs' := Proved(states, evs, starts, t);
      KnownFor(Stamp(t));
    } else {
      KnownFor(1);
    }
    ReopensAsFeasible(states', evs', starts, next);
    var rest := if next < t then t else next;
    ghost var log := states'[|evs'|].log;
    hide Step, IsProven, Run, Starts, Count, Reopens;
    states', evs' := OpenAndSpend(states', evs', next, rest, all);
    CountFilled(log, next, rest, t, all);
  }

  /** A window that does not reach into [t, t + 10 s), opened and left. */
  lemma PassNext(states: seq<System>, evs: seq<Event>, starts: seq<nat>, next: uint64, t: int,
                 all: bool)
    returns (states': seq<System>, evs': seq<Event>)
    requires Reached(states, evs, starts) && Feasible(starts + [next])
    requires !(t - WINDOW_US < next < t + WINDOW_US)
    requires |states[|evs|].b.proven| == PROVEN_SOURCES
    ensures Reached(states', evs', starts + [next])
    ensures NeverBeforeWindow(states, evs) && Schedule(starts + [next]) ==>
              NeverBeforeWindow(states', evs')
    ensures states'[|evs'|].b.proven == states[|evs|].b.proven
    ensures Count(states'[|evs'|].log, t, all) == Count(states[|evs|].log, t, all)
  {
    assert next == (starts + [next])[|starts|];
    assert starts != [] ==> starts[|starts| - 1] == (starts + [next])[|starts| - 1];
    ReopensAsFeasible(states, evs, starts, next);
    hide Step, IsProven, Run, Starts, Reopens;
    states', evs' := Open(states, evs, next);
    var a := Admission(next, IsProven(states[|evs|].b.proven, 1, next));
    CountConcat(states[|evs|].log, [a], t, all);
    CountCopies(a, 1, t, all);
    CopiesGrow(a, 0);
    assert [] + [a] == [a];
  }

  lemma FeasiblePrefix(starts: seq<nat>)
    requires starts != [] && Feasible(starts)
    ensures Feasible(starts[..|starts| - 1])
    ensures starts == starts[..|starts| - 1] + [starts[|starts| - 1]]
    ensures Schedule(starts) ==> Schedule(starts[..|starts| - 1])
    ensures starts[|starts| - 1] < TWO_64
  {
  }

  /** One more window, filled as far as it reaches into [t, t + 10 s). */
  lemma Next(states: seq<System>, evs: seq<Event>, starts: seq<nat>, next: uint64, t: int,
             all: bool)
    returns (states': seq<System>, evs': seq<Event>)
    requires Reached(states, evs, starts) && Feasible(starts + [next])
    requires Served(states[|evs|].b.proven, t, all)
    ensures Reached(states', evs', starts + [next])
    ensures NeverBeforeWindow(states, evs) && Schedule(starts + [next]) ==>
              NeverBeforeWindow(states', evs')
    ensures Served(states'[|evs'|].b.proven, t, all)
    ensures Count(states'[|evs'|].log, t, all)
         == Count(states[|evs|].log, t, all) + Share(next, t, all)
  {
    hide Run, NeverBeforeWindow, Starts, Count, Known, Stamp, Feasible, Schedule;
    if t - WINDOW_US < next < t + WINDOW_US {
      states', evs' := FillNext(states, evs, starts, next, t, all);
    } else {
      states', evs' := PassNext(states, evs, starts, next, t, all);
    }
  }

  /** Any feasible windows can be filled so that the ten seconds from `t` hold their peak,
      and by an orderly run if the windows are in order. */
  lemma {:induction false} Filled(starts: seq<nat>, t: int, all: bool)
    returns (states: seq<System>, evs: seq<Event>)
    requires Feasible(starts)
    ensures Reached(states, evs, starts)
    ensures Schedule(starts) ==> NeverBeforeWindow(states, evs)
    ensures Count(states[|evs|].log, t, all) == Peak(starts, t, all)
    ensures Served(states[|evs|].b.proven, t, all)
    decreases |starts|
  {
    hide Run, NeverBeforeWindow, Reached, Served, Count, Share, Feasible, Schedule;
    if starts == [] {
      Unopened(t, all);
      states, evs := [Initial()], [];
    } else {
      var last := |starts| - 1;
      FeasiblePrefix(starts);
      states, evs := Filled(starts[..last], t, all);
      states, evs := Next(states, evs, starts[..last], starts[last], t, all);
    }
  }

  lemma Unopened(t: int, all: bool)
    ensures Reached([Initial()], [], []) && NeverBeforeWindow([Initial()], [])
    ensures Count(Initial().log, t, all) == 0 && Served(Initial().b.proven, t, all)
  {
  }

  // ------------------------------------------------------------ what given windows admit

  /** A run that opens exactly the given windows. */
  ghost predicate Fills(states: seq<System>, evs: seq<Event>, starts: seq<nat>) {
    && |states| == |evs| + 1
    && Run(states, evs)
    && Starts(states[|evs|].windows) == starts
  }

  lemma PeakIsNeverExceeded(
    states: seq<System>, evs: seq<Event>, starts: seq<nat>, t: int, all: bool)
    requires Fills(states, evs, starts) && Feasible(starts)
    ensures Count(states[|evs|].log, t, all) <= Peak(starts, t, all)
  {
    ReachableInv(states, evs, |evs|);
    var windows := states[|evs|].windows;
    forall i | 0 <= i < |windows|
      ensures WindowInv(windows[i]) && Upright(windows[i])
    {
      assert starts[i] == windows[i].start;
    }
    CountOfWindows(windows, t, all);
  }

  /** For given window starts, whatever order times come in: every run admits at most the
      peak in the ten seconds from `t`, and some run admits as much. */
  lemma PeakExactly(starts: seq<nat>, t: int, all: bool)
    requires Feasible(starts)
    ensures forall states: seq<System>, evs: seq<Event> :: Fills(states, evs, starts) ==>
              Count(states[|evs|].log, t, all) <= Peak(starts, t, all)
    ensures exists states: seq<System>, evs: seq<Event> ::
              Fills(states, evs, starts) && Count(states[|evs|].log, t, all) == Peak(starts, t, all)
  {
    var states, evs := Filled(starts, t, all);
    assert Fills(states, evs, starts);
    hide Run, Count, Peak, Starts, Feasible;
    forall states: seq<System>, evs: seq<Event> | Fills(states, evs, starts)
      ensures Count(states[|evs|].log, t, all) <= Peak(starts, t, all)
    {
      PeakIsNeverExceeded(states, evs, starts, t, all);
    }
  }

  lemma {:induction false} PeakHasBoth(starts: seq<nat>, i: nat, j: nat, t: int, all: bool)
    requires i < j < |starts|
    ensures Peak(starts, t, all) >= Share(starts[i], t, all) + Share(starts[j], t, all)
    decreases |starts|
  {
    hide Share;
    var last := |starts| - 1;
    if j < last {
      PeakHasBoth(starts[..last], i, j, t, all);
    } else {
      PeakHas(starts[..last], i, t, all);
    }
  }

  lemma {:induction false} PeakHas(starts: seq<nat>, i: nat, t: int, all: bool)
    requires i < |starts|
    ensures Peak(starts, t, all) >= Share(starts[i], t, all)
    decreases |starts|
  {
    if i < |starts| - 1 {
      PeakHas(starts[..|starts| - 1], i, t, all);
    }
  }

  /** The bounds of AnyTenSeconds hold of every run with the given windows exactly when
      these are pairwise at least ten seconds apart. */
  lemma BoundsExactly(starts: seq<nat>, all: bool)
    requires Feasible(starts)
    ensures (forall states: seq<System>, evs: seq<Event>, t: int :: Fills(states, evs, starts) ==>
               Count(states[|evs|].log, t, all) <= 2 * Cap(all) - 1)
       <==> Spaced(starts)
  {
    hide Run, Count, Peak, Starts, Feasible;
    if Spaced(starts) {
      forall states: seq<System>, evs: seq<Event>, t: int | Fills(states, evs, starts)
        ensures Count(states[|evs|].log, t, all) <= 2 * Cap(all) - 1
      {
        PeakIsNeverExceeded(states, evs, starts, t, all);
        PeakOfSpaced(starts, t, all);
      }
    } else {
      var i, j :| 0 <= i < j < |starts| &&
        starts[i] < starts[j] + WINDOW_US && starts[j] < starts[i] + WINDOW_US;
      var t := if starts[i] < starts[j] then starts[i] else starts[j];
      PeakHasBoth(starts, i, j, t, all);
      PeakExactly(starts, t, all);
    }
  }

  /** Two windows reach into the ten seconds from `t`. */
  predicate Crowded(starts: seq<nat>, t: int) {
    exists i, j :: 0 <= i < j < |starts|
      && t - WINDOW_US < starts[i] < t + WINDOW_US && t - WINDOW_US < starts[j] < t + WINDOW_US
  }

  lemma {:induction false} PeakOfUncrowded(starts: seq<nat>, t: int, all: bool)
    requires !Crowded(starts, t)
    ensures Peak(starts, t, all) <= Cap(all)
    ensures !SomeIn(starts, t - WINDOW_US + 1, t + WINDOW_US) ==> Peak(starts, t, all) == 0
    decreases |starts|
  {
    if starts != [] {
      var last := |starts| - 1;
      assert forall i :: 0 <= i < last ==> starts[..last][i] == starts[i];
      PeakOfUncrowded(starts[..last], t, all);
    }
  }

  /** The documented bound, 8 in ten seconds and 5 of them unproven, holds from `t` on for
      every run with the given windows exactly when no two of these reach into the ten
      seconds. */
  lemma DocumentedBoundExactly(starts: seq<nat>, t: int, all: bool)
    requires Feasible(starts)
    ensures (forall states: seq<System>, evs: seq<Event> :: Fills(states, evs, starts) ==>
               Count(states[|evs|].log, t, all) <= Cap(all))
       <==> !Crowded(starts, t)
  {
    hide Run, Count, Peak, Starts, Feasible;
    if Crowded(starts, t) {
      var i, j :| 0 <= i < j < |starts|
        && t - WINDOW_US < starts[i] < t + WINDOW_US && t - WINDOW_US < starts[j] < t + WINDOW_US;
      PeakHasBoth(starts, i, j, t, all);
      PeakExactly(starts, t, all);
    } else {
      PeakOfUncrowded(starts, t, all);
      forall states: seq<System>, evs: seq<Event> | Fills(states, evs, starts)
        ensures Count(states[|evs|].log, t, all) <= Cap(all)
      {
        PeakIsNeverExceeded(states, evs, starts, t, all);
      }
    }
  }

  lemma ScheduleIsSpaced(starts: seq<nat>)
    requires Schedule(starts)
    ensures Spaced(starts)
  {
    forall i, j | 0 <= i < j < |starts|
      ensures starts[i] + WINDOW_US <= starts[j]
    {
      ScheduleSpread(starts, i, j);
    }
  }

  lemma {:induction false} ScheduleSpread(starts: seq<nat>, i: nat, j: nat)
    requires Schedule(starts) && i < j < |starts|
    ensures starts[i] + WINDOW_US <= starts[j]
    decreases j
  {
    if i < j - 1 {
      ScheduleSpread(starts, i, j - 1);
    }
  }

  /** Windows in order of which one is open at `t` and the next opens within ten seconds
      can be filled, by an orderly run, to 15 in all or 9 unproven. */
  lemma StraddledOverfills(starts: seq<nat>, t: int, i: nat, all: bool)
    returns (states: seq<System>, evs: seq<Event>)
    requires Schedule(starts) && i + 1 < |starts|
    requires starts[i] < t < starts[i] + WINDOW_US && starts[i + 1] < t + WINDOW_US
    ensures OrderlyRun(states, evs) && Starts(states[|evs|].windows) == starts
    ensures Count(states[|evs|].log, t, all) == 2 * Cap(all) - 1
  {
    ScheduleIsSpaced(starts);
    PeakOfSpaced(starts, t, all);
    assert SomeIn(starts, t - WINDOW_US + 1, t);
    assert SomeIn(starts, t, t + WINDOW_US) by {
      assert starts[i + 1 - 1] + WINDOW_US <= starts[i + 1];
    }
    hide Run, NeverBeforeWindow, Count, Peak, Starts;
    states, evs := Filled(starts, t, all);
  }

  /** So orderly runs meet both bounds of AnyTenSeconds. */
  lemma BoundsAreSharp(all: bool) returns (states: seq<System>, evs: seq<Event>)
    ensures OrderlyRun(states, evs)
    ensures Count(states[|evs|].log, WINDOW_US, all) == if all then 15 else 9
  {
    hide Run, NeverBeforeWindow, Count, Starts;
    states, evs := StraddledOverfills([1, WINDOW_US + 1], WINDOW_US, 0, all);
  }

  // ------------------------------------------------------------ the order of times

  /** A window ends ten seconds after it opened, and also at any time read before it
      opened. */
  lemma ReopensExactly(b: Budget, now: uint64)
    requires 0 < b.window <= TWO_64 - WINDOW_US
    ensures Reopens(b, now) <==> now < b.window || b.window + WINDOW_US <= now
  {
  }

  lemma StartsOfStep(s: System, e: Event)
    requires |s.b.proven| == PROVEN_SOURCES
    ensures var s' := Step(s, e);
            if e.Ask? && Reopens(s.b, e.now) then Starts(s'.windows) == Starts(s.windows) + [e.now]
            else Starts(s'.windows) == Starts(s.windows)
  {
  }

  /** Short of the end of the clock, where the differences of times would wrap. */
  predicate Early(starts: seq<nat>) {
    forall i :: 0 <= i < |starts| ==> starts[i] < TWO_64 - 2 * WINDOW_US
  }

  lemma FeasibleGrows(b: Budget, starts: seq<nat>, now: uint64)
    requires Feasible(starts) && Reopens(b, now) && 0 < now < TWO_64 - 2 * WINDOW_US
    requires b.window == if starts == [] then 0 else starts[|starts| - 1]
    ensures Feasible(starts + [now])
  {
  }

  lemma WindowIsLast(s: System)
    requires Inv(s)
    ensures s.b.window == if Starts(s.windows) == [] then 0
                          else Starts(s.windows)[|Starts(s.windows)| - 1]
  {
    assert |Starts(s.windows)| == |s.windows|;
  }

  lemma EarlyBefore(starts: seq<nat>, now: uint64)
    requires Early(starts + [now])
    ensures Early(starts) && now < TWO_64 - 2 * WINDOW_US
  {
    assert (starts + [now])[|starts|] == now;
    assert forall i :: 0 <= i < |starts| ==> starts[i] == (starts + [now])[i];
  }

  lemma {:induction false} StartsAreFeasible(states: seq<System>, evs: seq<Event>, k: nat)
    requires Run(states, evs) && k < |states| && Early(Starts(states[k].windows))
    ensures Feasible(Starts(states[k].windows))
    decreases k
  {
    hide Step, Inv, Starts, Feasible, Early, Reopens;
    if k == 0 {
      NoStarts();
    } else {
      var s, e := states[k - 1], evs[k - 1];
      assert states[k] == Step(s, e);
      ReachableInv(states, evs, k - 1);
      StartsOfStep(s, e);
      WindowIsLast(s);
      if e.Ask? && Reopens(s.b, e.now) {
        EarlyBefore(Starts(s.windows), e.now);
        StartsAreFeasible(states, evs, k - 1);
        FeasibleGrows(s.b, Starts(s.windows), e.now);
      } else {
        StartsAreFeasible(states, evs, k - 1);
      }
    }
  }

  lemma NoStarts()
    ensures Feasible(Starts(Initial().windows))
  {
  }

  /** The given window starts are those of some run exactly when each one is at least ten
      seconds after the one before it, or before that one. */
  lemma FeasibleExactly(starts: seq<nat>)
    requires Early(starts)
    ensures (exists states: seq<System>, evs: seq<Event> :: Fills(states, evs, starts))
       <==> Feasible(starts)
  {
    hide Run, Starts, Feasible, Count, Peak;
    if Feasible(starts) {
      PeakExactly(starts, 0, true);
    }
    if states: seq<System>, evs: seq<Event> :| Fills(states, evs, starts) {
      StartsAreFeasible(states, evs, |evs|);
    }
  }

  /** One late caller is enough to lose the bounds: the window of time 2 is spent, one ask
      read the clock at 1, all others at 2, and the budget admits 16, or 10 unproven. */
  lemma LateCallerBreaksTheBound(all: bool)
    returns (states: seq<System>, evs: seq<Event>, late: nat)
    ensures Run(states, evs) && late < |evs| && evs[late] == Ask(1, 1)
    ensures forall k :: 0 <= k < |evs| && k != late && evs[k].Ask? ==> evs[k].now == 2
    ensures Count(states[|evs|].log, 1, all) == if all then 16 else 10
  {
    Unopened(1, all);
    KnownFor(1);
    states, evs := [Initial()], [];
    hide Step, Starts, IsProven, Run, Count, Known, Reopens;
    if all {
      states, evs := Proved(states, evs, [], 1);
    }
    ghost var log := states[|evs|].log;
    states, evs := OpenAndSpend(states, evs, 2, 2, all);
    CountFilled(log, 2, 2, 1, all);
    late := |evs|;
    log := states[|evs|].log;
    states, evs := OpenAndSpend(states, evs, 1, 2, all);
    CountFilled(log, 1, 2, 1, all);
  }
}
