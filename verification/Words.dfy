/** Fixed-width unsigned integers, and the wrapping serial-number order that the
    controller uses for heartbeat counters and command sequences. The order is
    the one of section 3.2 of RFC 1982 with SERIAL_BITS = 32. */
module Words {

  const TWO_31: int := 0x8000_0000
  const TWO_32: int := 0x1_0000_0000
  const TWO_64: int := 0x1_0000_0000_0000_0000

  type uint8 = x: int | 0 <= x < 0x100
  type uint32 = x: int | 0 <= x < TWO_32
  type uint64 = x: int | 0 <= x < TWO_64

  datatype Option<+T> = None | Some(value: T)

  /** C subtraction on `uint32_t`. */
  function Sub32(a: uint32, b: uint32): uint32 {
    if a >= b then a - b else a - b + TWO_32
  }

  /** C subtraction on `uint64_t`. */
  function Sub64(a: uint64, b: uint64): uint64 {
    if a >= b then a - b else a - b + TWO_64
  }

  /** C increment of a `uint32_t`. */
  function Inc32(a: uint32): uint32 {
    if a == TWO_32 - 1 then 0 else a + 1
  }

  predicate IsNewer(candidate: uint32, reference: uint32) {
    var delta := Sub32(candidate, reference);
    delta != 0 && delta < TWO_31
  }

  /** Each serial was newer than the one before it when it was accepted. */
  ghost predicate Advancing(s: seq<uint32>) {
    forall i :: 0 < i < |s| ==> IsNewer(s[i], s[i - 1])
  }

  /** The i-th accepted serial with every wrap undone. */
  ghost function Unwrapped(s: seq<uint32>, i: nat): int
    requires i < |s|
  {
    if i == 0 then s[0] else Unwrapped(s, i - 1) + Sub32(s[i], s[i - 1])
  }

  lemma {:induction false} UnwrappedIsCongruent(s: seq<uint32>, i: nat)
    requires i < |s|
    ensures Unwrapped(s, i) % TWO_32 == s[i]
  {
    if i > 0 {
      UnwrappedIsCongruent(s, i - 1);
    }
  }

  /** Accepted serials strictly advance, by less than half the number space. */
  lemma UnwrappedStep(s: seq<uint32>, i: nat)
    requires Advancing(s) && 0 < i < |s|
    ensures Unwrapped(s, i - 1) < Unwrapped(s, i) < Unwrapped(s, i - 1) + TWO_31
  {
    assert IsNewer(s[i], s[i - 1]);
  }

  lemma {:induction false} UnwrappedIncreases(s: seq<uint32>, i: nat, j: nat)
    requires Advancing(s) && i < j < |s|
    ensures Unwrapped(s, i) < Unwrapped(s, j)
  {
    UnwrappedStep(s, j);
    if i < j - 1 {
      UnwrappedIncreases(s, i, j - 1);
    }
  }

  /** The wrapped difference of two counters is the difference of the counters,
      reduced. */
  lemma WrappedDifference(ahead: int, behind: int)
    ensures Sub32(behind % TWO_32, ahead % TWO_32) == (behind - ahead) % TWO_32
    ensures (behind - ahead) % TWO_32
         == if (ahead - behind) % TWO_32 == 0 then 0 else TWO_32 - (ahead - behind) % TWO_32
  {
    var q := behind / TWO_32 - ahead / TWO_32;
    assert behind - ahead == q * TWO_32 + (behind % TWO_32 - ahead % TWO_32);
    var d, r := (ahead - behind) / TWO_32, (ahead - behind) % TWO_32;
    assert behind - ahead == (-d) * TWO_32 - r;
  }

  /** When is an old serial taken for a new one? Exactly when, reduced modulo
      2^32, it lies more than 2^31 behind the head. */
  lemma {:induction false} ReplayIsNewerExactly(s: seq<uint32>, k: nat)
    requires Advancing(s) && k < |s|
    ensures IsNewer(s[k], s[|s| - 1])
       <==> (Unwrapped(s, |s| - 1) - Unwrapped(s, k)) % TWO_32 > TWO_31
  {
    UnwrappedIsCongruent(s, k);
    UnwrappedIsCongruent(s, |s| - 1);
    WrappedDifference(Unwrapped(s, |s| - 1), Unwrapped(s, k));
  }

  /** A serial at most 2^31 behind the head is never taken for a new one. */
  lemma {:induction false} RecentIsNeverNewer(s: seq<uint32>, k: nat)
    requires Advancing(s) && k < |s|
    requires Unwrapped(s, |s| - 1) - Unwrapped(s, k) <= TWO_31
    ensures !IsNewer(s[k], s[|s| - 1])
  {
    if k < |s| - 1 {
      UnwrappedIncreases(s, k, |s| - 1);
    }
    ReplayIsNewerExactly(s, k);
  }

  lemma CongruentApart(a: int, b: int)
    requires a < b && a % TWO_32 == b % TWO_32
    ensures b - a >= TWO_32
  {
    assert a / TWO_32 != b / TWO_32;
  }

  /** Appending a serial leaves the unwrapped values of the others alone. */
  lemma {:induction false} UnwrappedAppend(s: seq<uint32>, x: uint32, i: nat)
    requires i < |s|
    ensures Unwrapped(s + [x], i) == Unwrapped(s, i)
  {
    if i > 0 {
      UnwrappedAppend(s, x, i - 1);
    }
  }
}
