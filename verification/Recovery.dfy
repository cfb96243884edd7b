/** The physical recovery gesture: hold the button for ten seconds, then let go. */
module Recovery {
  import opened Words

  const DEBOUNCE_MS: nat := 100
  const HOLD_MS: nat := 10_000

  datatype Detector = Detector(
    rawHigh: bool, stableHigh: bool, stableInitialized: bool, startupReleaseSeen: bool,
    holdQualified: bool, triggered: bool, rawStableMs: uint32, heldMs: uint32)

  function AddBounded(value: uint32, increment: uint32): uint32 {
    if TWO_32 - 1 - value < increment then TWO_32 - 1 else value + increment
  }

  function Start(initialHigh: bool): Detector {
    Detector(initialHigh, initialHigh, false, false, false, false, 0, 0)
  }

  /** The level and the time of the sample are folded into the raw run. */
  function Sampled(d: Detector, high: bool, elapsed: uint32): Detector {
    if high != d.rawHigh then d.(rawHigh := high, rawStableMs := elapsed)
    else d.(rawStableMs := AddBounded(d.rawStableMs, elapsed))
  }

  /** A debounced sample. */
  function Settle(d: Detector, elapsed: uint32): (bool, Detector) {
    var changed := !d.stableInitialized || d.stableHigh != d.rawHigh;
    var s := d.(stableHigh := d.rawHigh, stableInitialized := true);
    if d.rawHigh then
      if changed && !d.stableHigh && d.holdQualified
      then (true, s.(startupReleaseSeen := true, heldMs := 0, triggered := true))
      else (false, s.(startupReleaseSeen := true, heldMs := 0, holdQualified := false))
    else if !d.startupReleaseSeen then (false, s.(heldMs := 0, holdQualified := false))
    else
      var held := AddBounded(if changed then 0 else d.heldMs, elapsed);
      (false, s.(heldMs := held, holdQualified := d.holdQualified || held >= HOLD_MS))
  }

  function Update(d: Detector, high: bool, elapsed: uint32): (bool, Detector) {
    if elapsed == 0 || d.triggered then (false, d)
    else
      var s := Sampled(d, high, elapsed);
      if s.rawStableMs < DEBOUNCE_MS then (false, s) else Settle(s, elapsed)
  }

  class RecoveryDetector {
    var rawHigh: bool
    var stableHigh: bool
    var stableInitialized: bool
    var startupReleaseSeen: bool
    var holdQualified: bool
    var triggered: bool
    var rawStableMs: uint32
    var heldMs: uint32

    ghost function View(): Detector
      reads this
    {
      Detector(rawHigh, stableHigh, stableInitialized, startupReleaseSeen, holdQualified,
               triggered, rawStableMs, heldMs)
    }

    constructor (initialHigh: bool)
      ensures View() == Start(initialHigh)
    {
      rawHigh, stableHigh := initialHigh, initialHigh;
      stableInitialized, startupReleaseSeen, holdQualified, triggered := false, false, false, false;
      rawStableMs, heldMs := 0, 0;
    }

    method Sample(levelHigh: bool, elapsed: uint32) returns (released: bool)
      modifies this
      ensures released == Update(old(View()), levelHigh, elapsed).0
      ensures View() == Update(old(View()), levelHigh, elapsed).1
    {
      if elapsed == 0 || triggered {
        return false;
      }
      if levelHigh != rawHigh {
        rawHigh, rawStableMs := levelHigh, elapsed;
      } else {
        rawStableMs := AddBounded(rawStableMs, elapsed);
      }
      if rawStableMs < DEBOUNCE_MS {
        return false;
      }
      var changed := !stableInitialized || stableHigh != rawHigh;
      var priorHigh := stableHigh;
      stableHigh, stableInitialized := rawHigh, true;
      if stableHigh {
        startupReleaseSeen, heldMs := true, 0;
        if changed && !priorHigh && holdQualified {
          triggered := true;
          return true;
        }
        holdQualified := false;
        return false;
      }
      if !startupReleaseSeen {
        heldMs, holdQualified := 0, false;
        return false;
      }
      if changed {
        heldMs := 0;
      }
      heldMs := AddBounded(heldMs, elapsed);
      if heldMs >= HOLD_MS {
        holdQualified := true;
      }
      return false;
    }
  }

  // ------------------------------------------------------------ what a trace means

  datatype Sampling = Sampling(high: bool, elapsed: uint32)

  /** The detector after the first `n` samples. */
  function After(initialHigh: bool, tr: seq<Sampling>, n: nat): Detector
    requires n <= |tr|
  {
    if n == 0 then Start(initialHigh)
    else Update(After(initialHigh, tr, n - 1), tr[n - 1].high, tr[n - 1].elapsed).1
  }

  /** Does the detector report a release at sample `k`? */
  predicate Reports(initialHigh: bool, tr: seq<Sampling>, k: nat)
    requires k < |tr|
  {
    Update(After(initialHigh, tr, k), tr[k].high, tr[k].elapsed).0
  }

  function Elapsed(tr: seq<Sampling>, i: nat, j: nat): nat
    requires i <= j <= |tr|
    decreases j
  {
    if i == j then 0 else Elapsed(tr, i, j - 1) + tr[j - 1].elapsed
  }

  predicate Steady(tr: seq<Sampling>, i: nat, k: nat)
    requires k < |tr|
  {
    i <= k && forall m :: i <= m <= k ==> tr[m].high == tr[k].high
  }

  /** The level at `k` is debounced: it has been the same for 100 ms. */
  ghost predicate Settled(tr: seq<Sampling>, k: nat)
    requires k < |tr|
  {
    exists i :: Steady(tr, i, k) && Elapsed(tr, i, k + 1) >= 100
  }

  ghost predicate Released(tr: seq<Sampling>, k: nat)
    requires k < |tr|
  {
    Settled(tr, k) && tr[k].high
  }

  /** The debounced pressed time in samples i..j. */
  ghost function PressedMs(tr: seq<Sampling>, i: nat, j: nat): nat
    requires i <= j <= |tr|
    decreases j
  {
    if i == j then 0
    else
      PressedMs(tr, i, j - 1) + (if Settled(tr, j - 1) && !tr[j - 1].high then tr[j - 1].elapsed else 0)
  }

  /** A release, then ten seconds of debounced pressing with no release between, then
      this release. */
  ghost predicate Gesture(tr: seq<Sampling>, k: nat)
    requires k < |tr|
  {
    && Released(tr, k)
    && exists j :: 0 <= j < k && Released(tr, j) && GestureFrom(tr, j, k)
  }

  ghost predicate GestureFrom(tr: seq<Sampling>, j: nat, k: nat)
    requires j < k < |tr|
  {
    && (forall m :: j < m < k ==> !Released(tr, m))
    && PressedMs(tr, j + 1, k) >= 10_000
  }

  predicate Timed(tr: seq<Sampling>) {
    forall k :: 0 <= k < |tr| ==> tr[k].elapsed > 0
  }

  /** The first `n` samples without those that took no time. */
  function Awake(tr: seq<Sampling>, n: nat): (f: seq<Sampling>)
    requires n <= |tr|
    ensures Timed(f)
  {
    if n == 0 then []
    else if tr[n - 1].elapsed == 0 then Awake(tr, n - 1)
    else Awake(tr, n - 1) + [tr[n - 1]]
  }

  // ------------------------------------------------------------ the proof

  ghost function RunStart(tr: seq<Sampling>, n: nat): (i: nat)
    requires 0 < n <= |tr|
    ensures i < n && Steady(tr, i, n - 1)
    ensures i > 0 ==> tr[i - 1].high != tr[n - 1].high
  {
    if n == 1 || tr[n - 2].high != tr[n - 1].high then n - 1 else RunStart(tr, n - 1)
  }

  lemma {:induction false} ElapsedMonotone(tr: seq<Sampling>, i: nat, j: nat, n: nat)
    requires i <= j <= n <= |tr|
    ensures Elapsed(tr, j, n) <= Elapsed(tr, i, n)
    decreases n
  {
    if j < n {
      ElapsedMonotone(tr, i, j, n - 1);
    }
  }

  /** The longest steady run decides whether the level is debounced. */
  lemma SettledExactly(tr: seq<Sampling>, k: nat)
    requires k < |tr|
    ensures Settled(tr, k) <==> Elapsed(tr, RunStart(tr, k + 1), k + 1) >= DEBOUNCE_MS
  {
    if Settled(tr, k) {
      var i :| Steady(tr, i, k) && Elapsed(tr, i, k + 1) >= DEBOUNCE_MS;
      var i0 := RunStart(tr, k + 1);
      assert i0 <= i;
      ElapsedMonotone(tr, i0, i, k + 1);
    }
  }

  function Capped(n: nat): uint32 {
    if n < TWO_32 then n else TWO_32 - 1
  }

  /** The last debounced release before `n`, or -1. */
  ghost function LastRelease(tr: seq<Sampling>, n: nat): (j: int)
    requires n <= |tr|
    ensures -1 <= j < n
    ensures j >= 0 ==> Released(tr, j)
    ensures forall m :: j < m < n ==> !Released(tr, m)
  {
    if n == 0 then -1 else if Released(tr, n - 1) then n - 1 else LastRelease(tr, n - 1)
  }

  /** The raw fields: the level of the last sample and the length of its run. */
  ghost predicate RawExplained(d: Detector, tr: seq<Sampling>, n: nat)
    requires n <= |tr|
  {
    && (n == 0 ==> d.rawStableMs == 0)
    && (n > 0 ==> d.rawHigh == tr[n - 1].high
                  && d.rawStableMs == Capped(Elapsed(tr, RunStart(tr, n), n)))
  }

  /** The debounced fields, given whether a release was seen and the time pressed since. */
  predicate StableExplained(d: Detector, seen: bool, pressed: nat) {
    && !d.triggered
    && d.startupReleaseSeen == seen
    && (seen ==> d.stableInitialized && d.heldMs == Capped(pressed)
                 && d.holdQualified == (pressed >= HOLD_MS)
                 && d.stableHigh == (pressed == 0))
    && (!seen ==> !d.holdQualified)
  }

  ghost predicate Explained(d: Detector, tr: seq<Sampling>, n: nat)
    requires n <= |tr|
  {
    && RawExplained(d, tr, n)
    && StableExplained(d, LastRelease(tr, n) >= 0, PressedMs(tr, LastRelease(tr, n) + 1, n))
  }

  lemma SampleExplained(d: Detector, tr: seq<Sampling>, n: nat)
    requires n < |tr| && RawExplained(d, tr, n)
    ensures RawExplained(Sampled(d, tr[n].high, tr[n].elapsed), tr, n + 1)
    ensures Settled(tr, n) <==> Sampled(d, tr[n].high, tr[n].elapsed).rawStableMs >= DEBOUNCE_MS
  {
    SettledExactly(tr, n);
    hide Settled;
  }

  /** A debounced sample moves the debounced fields as the trace says. */
  lemma SettleExplained(d: Detector, elapsed: uint32, seen: bool, pressed: nat)
    requires StableExplained(d, seen, pressed) && elapsed > 0
    ensures var (reported, d') := Settle(d, elapsed);
            && (reported <==> d.rawHigh && seen && pressed >= HOLD_MS)
            && (reported ==> d'.triggered)
            && (!reported && d.rawHigh ==> StableExplained(d', true, 0))
            && (!d.rawHigh ==>
                  StableExplained(d', seen, if seen then pressed + elapsed else pressed))
            && d'.rawHigh == d.rawHigh && d'.rawStableMs == d.rawStableMs
  {
  }

  lemma TraceAdvances(tr: seq<Sampling>, n: nat)
    requires n < |tr|
    ensures var j, j' := LastRelease(tr, n), LastRelease(tr, n + 1);
            && j' == (if Released(tr, n) then n else j)
            && PressedMs(tr, j' + 1, n + 1)
            == (if Released(tr, n) then 0
                else if Settled(tr, n) then PressedMs(tr, j + 1, n) + tr[n].elapsed
                else PressedMs(tr, j + 1, n))
  {
    hide Settled;
  }

  lemma SampledKeepsStable(d: Detector, high: bool, elapsed: uint32, seen: bool, pressed: nat)
    requires StableExplained(d, seen, pressed)
    ensures StableExplained(Sampled(d, high, elapsed), seen, pressed)
  {
  }

  lemma RawFieldsOnly(d: Detector, d': Detector, tr: seq<Sampling>, n: nat)
    requires n <= |tr| && RawExplained(d, tr, n)
    requires d'.rawHigh == d.rawHigh && d'.rawStableMs == d.rawStableMs
    ensures RawExplained(d', tr, n)
  {
  }

  /** How the sample after a debounced one leaves the debounced fields. */
  lemma SettledStep(s: Detector, tr: seq<Sampling>, n: nat)
    requires n < |tr| && tr[n].elapsed > 0 && Settled(tr, n)
    requires RawExplained(s, tr, n + 1)
    requires StableExplained(s, LastRelease(tr, n) >= 0, PressedMs(tr, LastRelease(tr, n) + 1, n))
    ensures var j := LastRelease(tr, n);
            var (reported, d') := Settle(s, tr[n].elapsed);
            && (reported <==> Released(tr, n) && j >= 0 && PressedMs(tr, j + 1, n) >= HOLD_MS)
            && (!reported ==> Explained(d', tr, n + 1) && !d'.triggered)
            && (reported ==> d'.triggered)
  {
    var j := LastRelease(tr, n);
    var d' := Settle(s, tr[n].elapsed).1;
    assert s.rawHigh == tr[n].high;
    hide Settled, Settle, LastRelease, PressedMs, RawExplained, StableExplained;
    TraceAdvances(tr, n);
    SettleExplained(s, tr[n].elapsed, j >= 0, PressedMs(tr, j + 1, n));
    RawFieldsOnly(s, d', tr, n + 1);
    StableBeforeRelease(d', PressedMs(tr, j + 1, n), PressedMs(tr, j + 1, n) + tr[n].elapsed);
  }

  /** Before the first release the pressed time does not matter. */
  lemma StableBeforeRelease(d: Detector, pressed: nat, other: nat)
    ensures StableExplained(d, false, pressed) == StableExplained(d, false, other)
  {
  }

  /** A sample that is not debounced yet only moves the raw fields. */
  lemma UnsettledStep(s: Detector, tr: seq<Sampling>, n: nat)
    requires n < |tr| && !Settled(tr, n)
    requires RawExplained(s, tr, n + 1)
    requires StableExplained(s, LastRelease(tr, n) >= 0, PressedMs(tr, LastRelease(tr, n) + 1, n))
    ensures !Released(tr, n) && Explained(s, tr, n + 1) && !s.triggered
  {
    hide LastRelease, PressedMs, RawExplained;
    TraceAdvances(tr, n);
  }

  lemma NotTriggered(d: Detector, seen: bool, pressed: nat)
    requires StableExplained(d, seen, pressed)
    ensures !d.triggered
  {
  }

  lemma StepExplained(d: Detector, tr: seq<Sampling>, n: nat)
    requires n < |tr| && Timed(tr) && Explained(d, tr, n)
    ensures var j := LastRelease(tr, n);
            var (reported, d') := Update(d, tr[n].high, tr[n].elapsed);
            && (reported <==> Released(tr, n) && j >= 0 && PressedMs(tr, j + 1, n) >= HOLD_MS)
            && (!reported ==> Explained(d', tr, n + 1) && !d'.triggered)
            && (reported ==> d'.triggered)
  {
    hide Settled, Settle, Sampled, LastRelease, PressedMs, RawExplained, StableExplained;
    hide Released, RunStart, Elapsed, Capped;
    var j := LastRelease(tr, n);
    var s := Sampled(d, tr[n].high, tr[n].elapsed);
    NotTriggered(d, j >= 0, PressedMs(tr, j + 1, n));
    SampleExplained(d, tr, n);
    SampledKeepsStable(d, tr[n].high, tr[n].elapsed, j >= 0, PressedMs(tr, j + 1, n));
    if s.rawStableMs >= DEBOUNCE_MS {
      SettledStep(s, tr, n);
    } else {
      UnsettledStep(s, tr, n);
    }
  }

  /** A gesture is always measured from the last release before it. */
  lemma GestureFromLastRelease(tr: seq<Sampling>, k: nat)
    requires k < |tr|
    ensures var j := LastRelease(tr, k);
            Gesture(tr, k) <==> Released(tr, k) && j >= 0 && PressedMs(tr, j + 1, k) >= HOLD_MS
  {
    hide Settled, Released, PressedMs;
    var j := LastRelease(tr, k);
    if j >= 0 && PressedMs(tr, j + 1, k) >= HOLD_MS {
      assert GestureFrom(tr, j, k);
    }
    forall i: nat | i < k && Released(tr, i) && GestureFrom(tr, i, k)
      ensures i == j
    {
    }
  }

  lemma StartExplained(initialHigh: bool, tr: seq<Sampling>)
    ensures Explained(Start(initialHigh), tr, 0)
  {
  }

  lemma {:induction false} AfterExplained(initialHigh: bool, tr: seq<Sampling>, n: nat)
    requires n <= |tr| && Timed(tr)
    ensures var d := After(initialHigh, tr, n);
            && (d.triggered <==> exists m :: 0 <= m < n && Gesture(tr, m))
            && (!d.triggered ==> Explained(d, tr, n))
    ensures n > 0 ==>
              (Reports(initialHigh, tr, n - 1) <==>
                 Gesture(tr, n - 1) && forall m :: 0 <= m < n - 1 ==> !Gesture(tr, m))
    decreases n
  {
    hide Gesture, Explained, Released, LastRelease, PressedMs, Sampled, Settle;
    if n == 0 {
      StartExplained(initialHigh, tr);
    } else {
      var before := After(initialHigh, tr, n - 1);
      AfterExplained(initialHigh, tr, n - 1);
      GestureFromLastRelease(tr, n - 1);
      if !before.triggered {
        StepExplained(before, tr, n - 1);
      }
    }
  }

  lemma {:induction false} AfterAppend(initialHigh: bool, f: seq<Sampling>, x: Sampling, n: nat)
    requires n <= |f|
    ensures After(initialHigh, f + [x], n) == After(initialHigh, f, n)
    decreases n
  {
    hide Update;
    if n > 0 {
      AfterAppend(initialHigh, f, x, n - 1);
    }
  }

  /** Samples that take no time are as good as absent. */
  lemma {:induction false} AfterAwake(initialHigh: bool, tr: seq<Sampling>, n: nat)
    requires n <= |tr|
    ensures After(initialHigh, tr, n)
         == After(initialHigh, Awake(tr, n), |Awake(tr, n)|)
    decreases n
  {
    hide Settle, Sampled;
    if n > 0 {
      AfterAwake(initialHigh, tr, n - 1);
      var f := Awake(tr, n - 1);
      if tr[n - 1].elapsed > 0 {
        AfterAppend(initialHigh, f, tr[n - 1], |f|);
      }
    }
  }

  /** A release is reported at a sample exactly when it completes the first gesture of
      the trace: so at most once, and never for a button held since the start. */
  lemma ReportsExactly(initialHigh: bool, tr: seq<Sampling>, k: nat)
    requires k < |tr|
    ensures var f := Awake(tr, k + 1);
            Reports(initialHigh, tr, k) <==>
              && tr[k].elapsed > 0
              && Gesture(f, |f| - 1) && forall m :: 0 <= m < |f| - 1 ==> !Gesture(f, m)
  {
    hide Settle, Sampled, Gesture, Timed, After;
    var f := Awake(tr, k + 1);
    if tr[k].elapsed > 0 {
      AfterAwake(initialHigh, tr, k);
      AfterAppend(initialHigh, Awake(tr, k), tr[k], |f| - 1);
      AfterExplained(initialHigh, f, |f|);
    }
  }

  lemma {:induction false} TriggeredStays(initialHigh: bool, tr: seq<Sampling>, j: nat, k: nat)
    requires j < k <= |tr| && Reports(initialHigh, tr, j)
    ensures After(initialHigh, tr, k).triggered
    decreases k
  {
    if j < k - 1 {
      TriggeredStays(initialHigh, tr, j, k - 1);
    }
  }

  /** At most one release is reported in the life of a detector. */
  lemma ReportedAtMostOnce(initialHigh: bool, tr: seq<Sampling>, j: nat, k: nat)
    requires j < |tr| && Reports(initialHigh, tr, j)
    requires k < |tr| && Reports(initialHigh, tr, k)
    ensures j == k
  {
    if j < k {
      TriggeredStays(initialHigh, tr, j, k);
    } else if k < j {
      TriggeredStays(initialHigh, tr, k, j);
    }
  }
}
