/** The variable-length remaining length of section 2.2.3 of MQTT 3.1.1: seven bits a
    byte, least significant first, the high bit saying that another byte follows. */
module RemainingLength {
  import opened Words

  const MAX_BYTES: nat := 4
  const LIMIT: nat := 0x1000_0000

  /** The bytes the encoder writes once it has written `count` of them. */
  function EncodeFrom(n: nat, count: nat): (bytes: seq<uint8>)
    requires count < MAX_BYTES
    ensures 1 <= |bytes| <= MAX_BYTES - count
    decreases MAX_BYTES - count
  {
    if n < 128 then [n]
    else if count + 1 == MAX_BYTES then [n % 128 + 128]
    else [n % 128 + 128] + EncodeFrom(n / 128, count + 1)
  }

  function Encode(n: uint32): seq<uint8> {
    EncodeFrom(n, 0)
  }

  method EncodeInto(out: array<uint8>, length: uint32) returns (count: nat)
    requires out.Length >= MAX_BYTES
    modifies out
    ensures count <= MAX_BYTES && out[..count] == Encode(length)
    ensures forall i :: count <= i < out.Length ==> out[i] == old(out[i])
  {
    var len: nat := length;
    count := 0;
    var more := true;
    while more
      invariant 0 <= count <= MAX_BYTES
      invariant more ==> count < MAX_BYTES && Encode(length) == out[..count] + EncodeFrom(len, count)
      invariant !more ==> Encode(length) == out[..count]
      invariant forall i :: count <= i < out.Length ==> out[i] == old(out[i])
      decreases MAX_BYTES - count, more
    {
      var encoded := len % 128;
      len := len / 128;
      if len > 0 {
        encoded := encoded + 128;
      }
      out[count] := encoded;
      count := count + 1;
      more := len > 0 && count < MAX_BYTES;
    }
  }

  /** `Ended` is the peer closing in the middle. */
  datatype Decoded = Value(value: nat, used: nat) | Ended | Malformed

  function Digit(encoded: uint8, multiplier: nat): nat {
    encoded % 128 * multiplier
  }

  function DecodeFrom(s: seq<uint8>, used: nat, value: nat, multiplier: nat): Decoded
    requires used <= MAX_BYTES
    decreases MAX_BYTES - used
  {
    if used == MAX_BYTES then Malformed
    else if |s| <= used then Ended
    else
      var v := value + Digit(s[used], multiplier);
      if s[used] < 128 then Value(v, used + 1)
      else DecodeFrom(s, used + 1, v, multiplier * 128)
  }

  function Decode(s: seq<uint8>): Decoded {
    DecodeFrom(s, 0, 0, 1)
  }

  method ReadLength(stream: seq<uint8>) returns (result: Decoded)
    ensures result == Decode(stream)
  {
    hide Digit;
    var multiplier: nat, value: nat := 1, 0;
    var i := 0;
    while i < MAX_BYTES
      invariant 0 <= i <= MAX_BYTES
      invariant Decode(stream) == DecodeFrom(stream, i, value, multiplier)
    {
      if i >= |stream| {
        return Ended;
      }
      var encoded := stream[i];
      value := value + Digit(encoded, multiplier);
      if encoded < 128 {
        return Value(value, i + 1);
      }
      multiplier := multiplier * 128;
      i := i + 1;
    }
    return Malformed;
  }

  // ------------------------------------------------------------ the code

  /** The little-endian value of a code word. */
  function ValueOf(bytes: seq<uint8>): nat {
    if bytes == [] then 0 else bytes[0] % 128 + 128 * ValueOf(bytes[1..])
  }

  /** A code word: every byte but the last says that another follows. */
  predicate CodeWord(bytes: seq<uint8>) {
    && 1 <= |bytes| <= 4
    && bytes[|bytes| - 1] < 128
    && forall i :: 0 <= i < |bytes| - 1 ==> bytes[i] >= 128
  }

  function Power128(k: nat): nat {
    if k == 0 then 1 else 128 * Power128(k - 1)
  }

  lemma DigitsAdd(encoded: uint8, m: nat, higher: nat)
    ensures Digit(encoded, m) + 128 * m * higher == m * (encoded % 128 + 128 * higher)
  {
    assert m * (encoded % 128 + 128 * higher) == m * (encoded % 128) + m * (128 * higher);
  }

  lemma {:induction false} DecodeFromWord(
    bytes: seq<uint8>, used: nat, rest: seq<uint8>, value: nat)
    requires CodeWord(bytes) && used < |bytes|
    ensures DecodeFrom(bytes + rest, used, value, Power128(used))
         == Value(value + Power128(used) * ValueOf(bytes[used..]), |bytes|)
    decreases |bytes| - used
  {
    hide Digit;
    var m, v := Power128(used), value + Digit(bytes[used], Power128(used));
    var higher := ValueOf(bytes[used + 1..]);
    assert bytes[used..][1..] == bytes[used + 1..];
    assert ValueOf(bytes[used..]) == bytes[used] % 128 + 128 * higher;
    DigitsAdd(bytes[used], m, higher);
    if used + 1 < |bytes| {
      DecodeFromWord(bytes, used + 1, rest, v);
    }
  }

  /** A code word decodes to its value, whatever follows it. */
  lemma WordDecodes(bytes: seq<uint8>, rest: seq<uint8>)
    requires CodeWord(bytes)
    ensures Decode(bytes + rest) == Value(ValueOf(bytes), |bytes|)
  {
    DecodeFromWord(bytes, 0, rest, 0);
    assert bytes[0..] == bytes;
  }

  /** And nothing else decodes. */
  lemma {:induction false} OnlyWordsDecode(s: seq<uint8>, used: nat, value: nat, multiplier: nat)
    requires used <= MAX_BYTES && used <= |s|
    requires forall i :: 0 <= i < used ==> s[i] >= 128
    requires DecodeFrom(s, used, value, multiplier).Value?
    ensures var k := DecodeFrom(s, used, value, multiplier).used;
            used < k <= |s| && CodeWord(s[..k])
    decreases MAX_BYTES - used
  {
    if s[used] >= 128 {
      OnlyWordsDecode(s, used + 1, value + Digit(s[used], multiplier), multiplier * 128);
    }
  }

  lemma DecodesExactly(s: seq<uint8>, k: nat)
    ensures Decode(s).Value? && Decode(s).used == k <==> k <= |s| && CodeWord(s[..k])
    ensures k <= |s| && CodeWord(s[..k]) ==> Decode(s) == Value(ValueOf(s[..k]), k)
  {
    if Decode(s).Value? {
      OnlyWordsDecode(s, 0, 0, 1);
    }
    if k <= |s| && CodeWord(s[..k]) {
      WordDecodes(s[..k], s[k..]);
      assert s[..k] + s[k..] == s;
    }
  }

  /** One byte more in front of a code word. */
  lemma WordGrows(digit: nat, bytes: seq<uint8>)
    requires CodeWord(bytes) && |bytes| < MAX_BYTES && digit < 128
    ensures CodeWord([digit + 128] + bytes)
    ensures ValueOf([digit + 128] + bytes) == digit + 128 * ValueOf(bytes)
  {
    assert ([digit + 128] + bytes)[1..] == bytes;
  }

  /** The bounds on a number of more than one byte, passed on to the rest of it. */
  lemma RestInBounds(n: nat, q: nat, digit: nat, k: nat)
    requires n == 128 * q + digit && digit < 128
    ensures n < Power128(k + 1) <==> q < Power128(k)
    ensures Power128(k) <= q ==> Power128(k + 1) <= n
  {
    assert Power128(k + 1) == 128 * Power128(k);
  }

  lemma EncodeSplits(n: nat, count: nat) returns (q: nat, digit: nat)
    requires n >= 128 && count + 1 < MAX_BYTES
    ensures n == 128 * q + digit && digit < 128 && 1 <= q < n
    ensures EncodeFrom(n, count) == [digit + 128] + EncodeFrom(q, count + 1)
  {
    q, digit := n / 128, n % 128;
  }

  lemma LastByte(n: nat, count: nat)
    requires count < MAX_BYTES
    ensures Power128(0) == 1 && Power128(1) == 128
    ensures n < 128 ==> EncodeFrom(n, count) == [n] && CodeWord([n]) && ValueOf([n]) == n
  {
    assert Power128(1) == 128 * Power128(0);
  }

  lemma {:induction false} EncodeIsWord(n: nat, count: nat)
    requires count < MAX_BYTES && n < Power128(MAX_BYTES - count)
    ensures var bytes := EncodeFrom(n, count);
            CodeWord(bytes) && ValueOf(bytes) == n
    ensures |EncodeFrom(n, count)| == 1 || Power128(|EncodeFrom(n, count)| - 1) <= n
    decreases MAX_BYTES - count
  {
    hide CodeWord, ValueOf, Power128, EncodeFrom;
    LastByte(n, count);
    if n >= 128 {
      var q, digit := EncodeSplits(n, count);
      RestInBounds(n, q, digit, MAX_BYTES - count - 1);
      EncodeIsWord(q, count + 1);
      var more := EncodeFrom(q, count + 1);
      WordGrows(digit, more);
      RestInBounds(n, q, digit, |more| - 1);
    }
  }

  /** Decoding the encoder's bytes followed by anything gives the length back and uses
      exactly those bytes; for lengths of 2^28 or more the encoder's bytes do not
      decode at all. */
  lemma RoundTripExactly(n: uint32, rest: seq<uint8>)
    ensures n < 0x1000_0000 ==> Decode(Encode(n) + rest) == Value(n, |Encode(n)|)
    ensures n >= 0x1000_0000 ==> Decode(Encode(n) + rest) == Malformed
  {
    if n < LIMIT {
      assert Power128(4) == LIMIT;
      EncodeIsWord(n, 0);
      WordDecodes(Encode(n), rest);
    } else {
      TooLongIsMalformed(n, rest);
    }
  }

  lemma FourContinuations(s: seq<uint8>)
    requires |s| >= 4 && s[0] >= 128 && s[1] >= 128 && s[2] >= 128 && s[3] >= 128
    ensures Decode(s) == Malformed
  {
    hide Digit;
    var v1 := 0 + Digit(s[0], 1);
    var v2 := v1 + Digit(s[1], 128);
    var v3 := v2 + Digit(s[2], 128 * 128);
    assert Decode(s) == DecodeFrom(s, 1, v1, 128);
    assert DecodeFrom(s, 1, v1, 128) == DecodeFrom(s, 2, v2, 128 * 128);
    assert DecodeFrom(s, 2, v2, 128 * 128) == DecodeFrom(s, 3, v3, 128 * 128 * 128);
  }

  lemma TooLongIsMalformed(n: uint32, rest: seq<uint8>)
    requires n >= LIMIT
    ensures Decode(Encode(n) + rest) == Malformed
  {
    assert EncodeFrom(n / 128 / 128 / 128, 3) == [n / 128 / 128 / 128 % 128 + 128];
    assert EncodeFrom(n / 128 / 128, 2)
        == [n / 128 / 128 % 128 + 128] + EncodeFrom(n / 128 / 128 / 128, 3);
    assert EncodeFrom(n / 128, 1) == [n / 128 % 128 + 128] + EncodeFrom(n / 128 / 128, 2);
    FourContinuations(Encode(n) + rest);
  }

  lemma {:induction false} ValueBelow(bytes: seq<uint8>)
    ensures ValueOf(bytes) < Power128(|bytes|)
  {
    if bytes != [] {
      ValueBelow(bytes[1..]);
    }
  }

  /** No code word for the same length is shorter than the encoder's. */
  lemma EncodingIsShortest(n: uint32, s: seq<uint8>)
    requires n < LIMIT && Decode(s).Value? && Decode(s).value == n
    ensures |Encode(n)| <= Decode(s).used
  {
    assert Power128(4) == LIMIT;
    EncodeIsWord(n, 0);
    var k := Decode(s).used;
    DecodesExactly(s, k);
    ValueBelow(s[..k]);
    PowerGrows(k, |Encode(n)| - 1);
  }

  lemma {:induction false} PowerGrows(i: nat, j: nat)
    ensures i <= j ==> Power128(i) <= Power128(j)
    decreases j
  {
    if i < j {
      PowerGrows(i, j - 1);
    }
  }

  /** What does not decode: a stream that ends before a byte without the high bit, and four
      bytes with it. */
  lemma FailsExactly(s: seq<uint8>)
    ensures Decode(s) == Ended <==> |s| < 4 && forall i :: 0 <= i < |s| ==> s[i] >= 128
    ensures Decode(s) == Malformed <==> |s| >= 4 && forall i :: 0 <= i < 4 ==> s[i] >= 128
  {
    hide Digit;
    FailsFrom(s, 0, 0, 1);
  }

  lemma {:induction false} FailsFrom(s: seq<uint8>, used: nat, value: nat, multiplier: nat)
    requires used <= MAX_BYTES && used <= |s|
    ensures DecodeFrom(s, used, value, multiplier) == Ended
       <==> |s| < 4 && forall i :: used <= i < |s| ==> s[i] >= 128
    ensures DecodeFrom(s, used, value, multiplier) == Malformed
       <==> |s| >= 4 && forall i :: used <= i < 4 ==> s[i] >= 128
    decreases MAX_BYTES - used
  {
    hide Digit;
    if used < MAX_BYTES && used < |s| && s[used] >= 128 {
      FailsFrom(s, used + 1, value + Digit(s[used], multiplier), multiplier * 128);
    }
  }
}
