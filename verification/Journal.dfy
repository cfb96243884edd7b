/** The revocation journal: a 32-entry ring that stands for the full history of
    revoked machine identifiers. */
module Journal {
  import opened Words
  import Ring

  const HISTORY_CAPACITY: nat := 32
  const ID_MAX: nat := 36

  datatype Event = Event(generation: uint64, identifier: string)

  predicate IdentifierValid(identifier: string) {
    0 < |identifier| <= ID_MAX
  }

  /** Has the identifier to be treated as revoked since the captured generation?
      In terms of everything ever recorded. */
  predicate Since(history: seq<string>, identifier: string, captured: nat) {
    || !IdentifierValid(identifier)
    || captured > |history|
    || |history| - captured > HISTORY_CAPACITY
    || identifier in history[captured..]
  }

  /** A revocation after the capture is never missed, and inside the ring's
      window nothing else is reported. */
  lemma SinceIsSafeAndExact(history: seq<string>, identifier: string, captured: nat)
    ensures !Since(history, identifier, captured) ==>
              captured <= |history| && identifier !in history[captured..]
    ensures IdentifierValid(identifier) && captured <= |history| <= captured + HISTORY_CAPACITY ==>
              (Since(history, identifier, captured) <==> identifier in history[captured..])
  {
  }

  /** Recording X is seen by every later query about X with an earlier capture,
      however many other records follow. */
  lemma RecordedStaysVisible(
    before: seq<string>, identifier: string, after: seq<string>, captured: nat)
    requires captured <= |before|
    ensures Since(before + [identifier] + after, identifier, captured)
  {
    var history := before + [identifier] + after;
    assert history[captured..][|before| - captured] == identifier;
  }

  /** The history as the journal's entries: the n-th record has generation n. */
  ghost function Entries(history: seq<string>): (entries: seq<Event>)
    requires |history| < TWO_64
    ensures |entries| == |history|
    ensures forall k :: 0 <= k < |history| ==> entries[k] == Event(k + 1, history[k])
  {
    seq(|history|, k requires 0 <= k < |history| => Event(k + 1, history[k]))
  }

  function Cell(e: Option<Event>): Event {
    if e.Some? then e.value else Event(0, "")
  }

  /** The ring's 32 cells as the full history determines them. */
  ghost function Cells(history: seq<string>): (cells: seq<Event>)
    requires |history| < TWO_64
    ensures |cells| == HISTORY_CAPACITY
  {
    seq(HISTORY_CAPACITY, i requires 0 <= i < HISTORY_CAPACITY =>
      Cell(Ring.Table(HISTORY_CAPACITY, Entries(history))[i]))
  }

  /** Recording overwrites one cell and nothing else. */
  lemma CellsAppend(history: seq<string>, identifier: string)
    requires |history| < TWO_64 - 1
    ensures Cells(history + [identifier])
         == Cells(history)[|history| % HISTORY_CAPACITY := Event(|history| + 1, identifier)]
  {
    var entry := Event(|history| + 1, identifier);
    assert Entries(history + [identifier]) == Entries(history) + [entry];
    Ring.TableAppend(HISTORY_CAPACITY, Entries(history), entry);
  }

  /** The last 32 records are still in their cells. */
  lemma CellHoldsRecent(history: seq<string>, g: nat)
    requires g < |history| < TWO_64 && |history| - g <= HISTORY_CAPACITY
    ensures Cells(history)[g % HISTORY_CAPACITY] == Event(g + 1, history[g])
  {
    Ring.RecentIsShown(HISTORY_CAPACITY, Entries(history), g);
  }

  class InvalidationJournal {
    var generation: uint64
    const events: array<Event>
    /** Everything recorded since the counter last wrapped. */
    ghost var history: seq<string>

    ghost predicate Valid()
      reads this, events
    {
      && events.Length == HISTORY_CAPACITY
      && generation == |history|
      && events[..] == Cells(history)
    }

    constructor ()
      ensures Valid() && history == [] && fresh(events)
    {
      generation, history := 0, [];
      events := new Event[HISTORY_CAPACITY](_ => Event(0, ""));
    }

    method Capture() returns (g: uint64)
      requires Valid()
      ensures g == |history|
    {
      g := generation;
    }

    method Clear()
      requires events.Length == HISTORY_CAPACITY
      modifies events
      ensures forall i :: 0 <= i < HISTORY_CAPACITY ==> events[i] == Event(0, "")
    {
      var i := 0;
      while i < events.Length
        invariant 0 <= i <= events.Length
        invariant forall j :: 0 <= j < i ==> events[j] == Event(0, "")
      {
        events[i] := Event(0, "");
        i := i + 1;
      }
    }

    /** After 2^64 - 1 records the counter wraps and the history starts over. */
    method Record(identifier: string) returns (recorded: bool)
      requires Valid()
      modifies this, events
      ensures Valid()
      ensures recorded == IdentifierValid(identifier)
      ensures history == (if !recorded then old(history)
                          else if |old(history)| == TWO_64 - 1 then [identifier]
                          else old(history) + [identifier])
    {
      recorded := 0 < |identifier| <= ID_MAX;
      if !recorded {
        return;
      }
      if generation == TWO_64 - 1 {
        Clear();
        generation, history := 0, [];
      }
      CellsAppend(history, identifier);
      generation, history := generation + 1, history + [identifier];
      events[(generation - 1) % HISTORY_CAPACITY] := Event(generation, identifier);
    }

    /** The ring answers exactly as the full history does. */
    method QuerySince(identifier: string, captured: uint64) returns (invalidated: bool)
      requires Valid()
      ensures invalidated == Since(history, identifier, captured)
    {
      if !(0 < |identifier| <= ID_MAX) {
        return true;
      }
      var current := generation;
      if current == captured {
        return false;
      }
      if current < captured || current - captured > HISTORY_CAPACITY {
        return true;
      }
      var g := captured + 1;
      while g <= current
        invariant captured < g <= current + 1
        invariant identifier !in history[captured..g - 1]
      {
        CellHoldsRecent(history, g - 1);
        var event := events[(g - 1) % HISTORY_CAPACITY];
        if event.generation != g {
          return true;
        }
        if event.identifier == identifier {
          assert history[captured..][g - 1 - captured] == identifier;
          return true;
        }
        g := g + 1;
      }
      assert history[captured..current] == history[captured..];
      return false;
    }
  }
}
