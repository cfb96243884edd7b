/** A fixed-size table that is overwritten round-robin, seen as a window on the
    unbounded log of everything stored through it. */
module Ring {
  import opened Words

  /** What the table shows after `log` has been stored through it. */
  ghost function Table<T>(capacity: nat, log: seq<T>): (t: seq<Option<T>>)
    requires capacity > 0
    ensures |t| == capacity
  {
    if log == [] then seq(capacity, _ => None)
    else
      var last := |log| - 1;
      Table(capacity, log[..last])[last % capacity := Some(log[last])]
  }

  /** Storing one more entry overwrites one slot and nothing else. */
  lemma TableAppend<T>(capacity: nat, log: seq<T>, e: T)
    requires capacity > 0
    ensures Table(capacity, log + [e]) == Table(capacity, log)[|log| % capacity := Some(e)]
  {
    assert (log + [e])[..|log|] == log;
  }

  lemma MultipleIsLarge(q: int, capacity: nat)
    ensures q >= 1 ==> q * capacity >= capacity
    ensures q <= -1 ==> q * capacity <= 0 - capacity
  {
    if q >= 1 {
      assert (q - 1) * capacity >= 0;
    } else if q <= -1 {
      assert (q + 1) * capacity <= 0;
    }
  }

  lemma ResiduesDiffer(a: nat, b: nat, capacity: nat)
    requires a < b < a + capacity
    ensures a % capacity != b % capacity
  {
    var q := b / capacity - a / capacity;
    assert b - a == q * capacity + (b % capacity - a % capacity);
    MultipleIsLarge(q, capacity);
  }

  lemma NextSlot(n: nat, capacity: nat)
    requires capacity > 0
    ensures (n + 1) % capacity == if n % capacity + 1 == capacity then 0 else n % capacity + 1
  {
    var q, r := n / capacity, n % capacity;
    assert n + 1 == q * capacity + (r + 1);
    if r + 1 == capacity {
      assert n + 1 == (q + 1) * capacity;
      Multiple(q + 1, capacity, 0);
    } else {
      Multiple(q, capacity, r + 1);
    }
  }

  lemma Multiple(q: nat, capacity: nat, r: nat)
    requires r < capacity
    ensures (q * capacity + r) % capacity == r
  {
    var x := q * capacity + r;
    var d := x / capacity - q;
    assert d * capacity == r - x % capacity;
    MultipleIsLarge(d, capacity);
  }

  /** Each of the last `capacity` entries is in its slot. */
  lemma {:induction false} RecentIsShown<T>(capacity: nat, log: seq<T>, k: nat)
    requires capacity > 0 && k < |log| <= k + capacity
    ensures Table(capacity, log)[k % capacity] == Some(log[k])
  {
    var last := |log| - 1;
    if k < last {
      ResiduesDiffer(k, last, capacity);
      RecentIsShown(capacity, log[..last], k);
    }
  }

  /** Nothing but those entries is in any slot. */
  lemma {:induction false} ShownIsRecent<T>(capacity: nat, log: seq<T>, i: nat) returns (k: nat)
    requires capacity > 0 && i < capacity && Table(capacity, log)[i].Some?
    ensures k < |log| <= k + capacity && k % capacity == i
    ensures Table(capacity, log)[i] == Some(log[k])
  {
    var last := |log| - 1;
    if i == last % capacity {
      k := last;
    } else {
      k := ShownIsRecent(capacity, log[..last], i);
      if last == k + capacity {
        SameResidue(k, capacity);
      }
    }
  }

  lemma SameResidue(k: nat, capacity: nat)
    requires capacity > 0
    ensures (k + capacity) % capacity == k % capacity
  {
    var q, r := k / capacity, k % capacity;
    assert k + capacity == (q + 1) * capacity + r;
    Multiple(q + 1, capacity, r);
  }
}
