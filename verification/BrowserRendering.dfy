/** The language the browser decoder accepts, written down independently of it: all
    renderings of a request as JSON, in the sense of RFC 8259, and the UTF-8 of
    RFC 3629. */
module BrowserRendering {
  import opened Words
  import opened BrowserCommand

  // ------------------------------------------------------------ UTF-8

  function Code(c: Byte): nat {
    c as int
  }

  predicate Tail(c: Byte) {
    0x80 <= c as int <= 0xBF
  }

  /** The well-formed byte sequences of section 4 of RFC 3629. */
  predicate WellFormedUtf8(b: seq<Byte>) {
    || (|b| == 1 && Code(b[0]) <= 0x7F)
    || (|b| == 2 && 0xC2 <= Code(b[0]) <= 0xDF && Tail(b[1]))
    || (|b| == 3 && Tail(b[1]) && Tail(b[2])
        && (|| (Code(b[0]) == 0xE0 && Code(b[1]) >= 0xA0)
            || 0xE1 <= Code(b[0]) <= 0xEC
            || (Code(b[0]) == 0xED && Code(b[1]) <= 0x9F)
            || 0xEE <= Code(b[0]) <= 0xEF))
    || (|b| == 4 && Tail(b[1]) && Tail(b[2]) && Tail(b[3])
        && (|| (Code(b[0]) == 0xF0 && Code(b[1]) >= 0x90)
            || 0xF1 <= Code(b[0]) <= 0xF3
            || (Code(b[0]) == 0xF4 && Code(b[1]) <= 0x8F)))
  }

  /** The code point of a well-formed sequence, from the bit fields of section 3. */
  function CodePoint(b: seq<Byte>): nat
    requires WellFormedUtf8(b)
  {
    if |b| == 1 then Code(b[0])
    else if |b| == 2 then (Code(b[0]) - 0xC0) * 64 + (Code(b[1]) - 0x80)
    else if |b| == 3 then
      (Code(b[0]) - 0xE0) * 4096 + (Code(b[1]) - 0x80) * 64 + (Code(b[2]) - 0x80)
    else
      (Code(b[0]) - 0xF0) * 262144 + (Code(b[1]) - 0x80) * 4096
      + (Code(b[2]) - 0x80) * 64 + (Code(b[3]) - 0x80)
  }

  /** A number in digits of six bits. */
  lemma SixBits(n: nat)
    ensures n == n / 64 * 64 + n % 64
    ensures n / 4096 == n / 64 / 64 && n / 262144 == n / 4096 / 64
  {
  }

  /** The appended bytes are the UTF-8 of the code point. */
  lemma Utf8IsWellFormed(cp: nat)
    requires Scalar(cp)
    ensures WellFormedUtf8(Utf8(cp)) && CodePoint(Utf8(cp)) == cp
  {
    SixBits(cp);
    SixBits(cp / 64);
    SixBits(cp / 4096);
  }

  lemma ThreeBytesAreUnique(b: seq<Byte>)
    requires WellFormedUtf8(b) && |b| == 3
    ensures Scalar(CodePoint(b)) && Utf8(CodePoint(b)) == b
  {
    var cp := CodePoint(b);
    assert cp / 64 == (Code(b[0]) - 0xE0) * 64 + (Code(b[1]) - 0x80);
    assert cp / 4096 == Code(b[0]) - 0xE0;
  }

  lemma FourBytesAreUnique(b: seq<Byte>)
    requires WellFormedUtf8(b) && |b| == 4
    ensures Scalar(CodePoint(b)) && Utf8(CodePoint(b)) == b
  {
    var cp := CodePoint(b);
    assert cp / 64 == ((Code(b[0]) - 0xF0) * 64 + (Code(b[1]) - 0x80)) * 64 + (Code(b[2]) - 0x80);
    assert cp / 4096 == (Code(b[0]) - 0xF0) * 64 + (Code(b[1]) - 0x80);
    assert cp / 262144 == Code(b[0]) - 0xF0;
  }

  /** And of nothing else. */
  lemma Utf8IsUnique(b: seq<Byte>)
    requires WellFormedUtf8(b)
    ensures Scalar(CodePoint(b)) && Utf8(CodePoint(b)) == b
  {
    if |b| == 3 {
      ThreeBytesAreUnique(b);
    } else if |b| == 4 {
      FourBytesAreUnique(b);
    }
  }

  // ------------------------------------------------------------ strings

  /** One element of a string: itself, a short escape, a \u escape or a pair of them. */
  datatype Piece =
    | Raw(c: Byte)
    | Short(letter: Byte)
    | Unicode(hex: seq<Byte>)
    | Surrogates(high: seq<Byte>, low: seq<Byte>)

  predicate GoodPiece(p: Piece) {
    match p
    case Raw(c) => c >= ' ' && c != '"' && c != '\\'
    case Short(letter) => letter != 'u' && ShortEscape(letter).Some?
    case Unicode(hex) =>
      && |hex| == 4 && IsHexQuad(hex)
      && QuadValue(hex) != 0 && Scalar(QuadValue(hex))
    case Surrogates(high, low) =>
      && |high| == 4 && IsHexQuad(high) && HighSurrogate(QuadValue(high))
      && |low| == 4 && IsHexQuad(low) && LowSurrogate(QuadValue(low))
  }

  function PieceText(p: Piece): seq<Byte> {
    match p
    case Raw(c) => [c]
    case Short(letter) => ['\\', letter]
    case Unicode(hex) => ['\\', 'u'] + hex
    case Surrogates(high, low) => ['\\', 'u'] + high + ['\\', 'u'] + low
  }

  function PieceMeaning(p: Piece): seq<Byte>
    requires GoodPiece(p)
  {
    match p
    case Raw(c) => [c]
    case Short(letter) => [ShortEscape(letter).value]
    case Unicode(hex) => Utf8(QuadValue(hex))
    case Surrogates(high, low) => Utf8(Combined(QuadValue(high), QuadValue(low)))
  }

  predicate GoodPieces(ps: seq<Piece>) {
    forall i :: 0 <= i < |ps| ==> GoodPiece(ps[i])
  }

  function Meaning(ps: seq<Piece>): seq<Byte>
    requires GoodPieces(ps)
  {
    if ps == [] then [] else PieceMeaning(ps[0]) + Meaning(ps[1..])
  }

  // The text functions below take what follows them.

  function TextThen(ps: seq<Piece>, t: seq<Byte>): seq<Byte> {
    if ps == [] then t else PieceText(ps[0]) + TextThen(ps[1..], t)
  }

  function QuotedThen(ps: seq<Piece>, t: seq<Byte>): seq<Byte> {
    ['"'] + TextThen(ps, ['"'] + t)
  }

  lemma ElementOfPiece(p: Piece, t: seq<Byte>)
    requires GoodPiece(p)
    ensures (PieceText(p) + t)[0] != '"'
    ensures NextElement(PieceText(p) + t) == Element(PieceMeaning(p), |PieceText(p)|)
  {
    var s := PieceText(p) + t;
    match p
    case Raw(_) =>
    case Short(_) =>
    case Unicode(hex) =>
      assert s[2..][..4] == hex;
      assert IsHexQuad(s[2..]) && QuadValue(s[2..]) == QuadValue(hex);
    case Surrogates(high, low) =>
      assert s[2..][..4] == high && s[8..][..4] == low;
      assert IsHexQuad(s[2..]) && QuadValue(s[2..]) == QuadValue(high);
      assert IsHexQuad(s[8..]) && QuadValue(s[8..]) == QuadValue(low);
  }

  lemma PieceOfElement(s: seq<Byte>) returns (p: Piece)
    requires s != [] && s[0] != '"' && NextElement(s).Element?
    ensures GoodPiece(p) && PieceMeaning(p) == NextElement(s).bytes
    ensures PieceText(p) == s[..NextElement(s).used]
  {
    if s[0] != '\\' {
      p := Raw(s[0]);
    } else if s[1] != 'u' {
      p := Short(s[1]);
    } else {
      var hex := s[2..6];
      assert QuadValue(hex) == QuadValue(s[2..]);
      if HighSurrogate(QuadValue(hex)) {
        var low := s[8..12];
        assert QuadValue(low) == QuadValue(s[8..]);
        p := Surrogates(hex, low);
        assert s[..12] == ['\\', 'u'] + hex + ['\\', 'u'] + low;
      } else {
        p := Unicode(hex);
        assert s[..6] == ['\\', 'u'] + hex;
      }
    }
  }

  lemma {:induction false} RestRenders(ps: seq<Piece>, t: seq<Byte>, out: seq<Byte>, size: nat)
    requires GoodPieces(ps) && |out| + |Meaning(ps)| < size
    ensures StringRest(TextThen(ps, ['"'] + t), out, size) == Done(out + Meaning(ps), t)
    decreases |ps|
  {
    hide NextElement, PieceText, PieceMeaning, GoodPiece;
    if ps == [] {
      assert out + Meaning(ps) == out;
    } else {
      var more := TextThen(ps[1..], ['"'] + t);
      ElementOfPiece(ps[0], more);
      RestRenders(ps[1..], t, out + PieceMeaning(ps[0]), size);
      assert out + PieceMeaning(ps[0]) + Meaning(ps[1..]) == out + Meaning(ps);
    }
  }

  lemma {:induction false} RestRendered(s: seq<Byte>, out: seq<Byte>, size: nat)
    returns (ps: seq<Piece>)
    requires StringRest(s, out, size).Done? && |out| < size
    ensures GoodPieces(ps) && |out| + |Meaning(ps)| < size
    ensures s == TextThen(ps, ['"'] + StringRest(s, out, size).rest)
    ensures StringRest(s, out, size).value == out + Meaning(ps)
    decreases |s|
  {
    hide NextElement, PieceText, PieceMeaning, GoodPiece;
    if s[0] == '"' {
      ps := [];
      assert s == ['"'] + s[1..];
    } else {
      var p := PieceOfElement(s);
      var e := NextElement(s);
      var more := RestRendered(s[e.used..], out + e.bytes, size);
      ps := [p] + more;
      assert ps[1..] == more;
      assert out + e.bytes + Meaning(more) == out + Meaning(ps);
    }
  }

  lemma StringRenders(ps: seq<Piece>, t: seq<Byte>, size: nat)
    requires GoodPieces(ps) && |Meaning(ps)| < size
    ensures ParseString(QuotedThen(ps, t), size) == Done(Meaning(ps), t)
  {
    RestRenders(ps, t, [], size);
    assert [] + Meaning(ps) == Meaning(ps);
  }

  lemma StringRendered(s: seq<Byte>, size: nat) returns (ps: seq<Piece>)
    requires ParseString(s, size).Done?
    ensures GoodPieces(ps) && |Meaning(ps)| < size
    ensures s == QuotedThen(ps, ParseString(s, size).rest)
    ensures ParseString(s, size).value == Meaning(ps)
  {
    ps := RestRendered(s[1..], [], size);
    assert s == ['"'] + s[1..];
    assert [] + Meaning(ps) == Meaning(ps);
  }

  /** A string is accepted exactly when it is a rendering of what it is read as. */
  lemma StringsExactly(s: seq<Byte>, size: nat, value: seq<Byte>, rest: seq<Byte>)
    requires size > 0
    ensures ParseString(s, size) == Done(value, rest) <==>
              exists ps :: GoodPieces(ps) && Meaning(ps) == value && |value| < size
                           && s == QuotedThen(ps, rest)
  {
    hide ParseString, QuotedThen, Meaning;
    if ParseString(s, size) == Done(value, rest) {
      var ps := StringRendered(s, size);
      assert GoodPieces(ps) && Meaning(ps) == value;
    }
    forall ps | GoodPieces(ps) && Meaning(ps) == value && |value| < size && s == QuotedThen(ps, rest)
      ensures ParseString(s, size) == Done(value, rest)
    {
      StringRenders(ps, rest, size);
    }
  }

  /** The escapes of section 7 of RFC 8259, the control characters by their numbers. */
  lemma EscapesExactly(letter: Byte)
    ensures ShortEscape(letter)
         == (if letter in {'"', '\\', '/'} then Some(letter)
             else if letter == 'b' then Some(8 as char) else if letter == 't' then Some(9 as char)
             else if letter == 'n' then Some(10 as char) else if letter == 'f' then Some(12 as char)
             else if letter == 'r' then Some(13 as char) else None)
  {
  }

  /** Four hexadecimal digits stand for a 16-bit number, two of them for one code point in
      the sense of section 3.8 of the Unicode Standard. */
  lemma HexExactly(s: seq<Byte>)
    requires |s| == 4
    ensures IsHexQuad(s) <==> forall k :: 0 <= k < 4 ==> s[k] in "0123456789abcdefABCDEF"
    ensures IsHexQuad(s) ==>
              QuadValue(s) == HexDigit(s[0]) * 4096 + HexDigit(s[1]) * 256 + HexDigit(s[2]) * 16
                              + HexDigit(s[3])
  {
    HexDigitExactly(s[0]);
    HexDigitExactly(s[1]);
    HexDigitExactly(s[2]);
    HexDigitExactly(s[3]);
    hide HexDigit, HexValue;
  }

  function HexDigit(c: Byte): nat {
    if c in "0123456789" then c as int - 48
    else if c in "abcdef" then c as int - 87 else if c in "ABCDEF" then c as int - 55 else 0
  }

  lemma HexDigitExactly(c: Byte)
    ensures HexValue(c) >= 0 <==> c in "0123456789abcdefABCDEF"
    ensures HexValue(c) >= 0 ==> HexValue(c) == HexDigit(c)
  {
    var all := "0123456789abcdefABCDEF";
    if '0' <= c <= '9' {
      assert all[c as int - 48] == c && "0123456789"[c as int - 48] == c;
    } else if 'a' <= c <= 'f' {
      assert all[c as int - 87] == c && "abcdef"[c as int - 97] == c;
    } else if 'A' <= c <= 'F' {
      assert all[c as int - 55 + 6] == c && "ABCDEF"[c as int - 65] == c;
    }
  }

  lemma SurrogatesExactly(high: nat, low: nat)
    requires 0xD800 <= high <= 0xDBFF && 0xDC00 <= low <= 0xDFFF
    ensures HighSurrogate(high) && LowSurrogate(low)
    ensures (Combined(high, low) - 0x10000) / 0x400 == high - 0xD800
    ensures (Combined(high, low) - 0x10000) % 0x400 == low - 0xDC00
  {
  }

  // ------------------------------------------------------------ white space

  lemma SpacesExactly(c: Byte)
    ensures IsSpace(c) <==> c as int in {9, 10, 13, 32}
  {
  }

  predicate AllSpace(w: seq<Byte>) {
    forall i :: 0 <= i < |w| ==> IsSpace(w[i])
  }

  predicate Solid(t: seq<Byte>) {
    t == [] || !IsSpace(t[0])
  }

  lemma {:induction false} SpaceSkipped(w: seq<Byte>, t: seq<Byte>)
    requires AllSpace(w) && Solid(t)
    ensures SkipSpace(w + t) == t
    decreases |w|
  {
    if w == [] {
      assert w + t == t;
    } else {
      SpaceSkipped(w[1..], t);
      assert (w + t)[1..] == w[1..] + t;
    }
  }

  lemma {:induction false} LeadingSpace(s: seq<Byte>) returns (w: seq<Byte>)
    ensures AllSpace(w) && s == w + SkipSpace(s) && Solid(SkipSpace(s))
    decreases |s|
  {
    if s != [] && IsSpace(s[0]) {
      hide IsSpace;
      var more := LeadingSpace(s[1..]);
      w := [s[0]] + more;
      assert s == [s[0]] + (more + SkipSpace(s));
      assert s == w + SkipSpace(s);
    } else {
      w := [];
    }
  }

  // ------------------------------------------------------------ numbers

  /** A decimal number without sign, fraction, exponent or leading zero. */
  predicate Canonical(d: seq<Byte>) {
    && d != [] && (forall i :: 0 <= i < |d| ==> IsDigit(d[i]))
    && (d[0] == '0' ==> |d| == 1)
  }

  function NumberFrom(d: seq<Byte>, value: nat): (n: nat)
    requires forall i :: 0 <= i < |d| ==> IsDigit(d[i])
    ensures n >= value
  {
    if d == [] then value else NumberFrom(d[1..], value * 10 + DigitValue(d[0]))
  }

  predicate NotDigit(t: seq<Byte>) {
    t == [] || !IsDigit(t[0])
  }

  lemma {:induction false} DigitsRead(d: seq<Byte>, value: nat, t: seq<Byte>)
    requires forall i :: 0 <= i < |d| ==> IsDigit(d[i])
    requires NotDigit(t) && NumberFrom(d, value) <= MAX_TARGET
    ensures Digits(d + t, value) == Done(NumberFrom(d, value), t)
    decreases |d|
  {
    if d == [] {
      assert d + t == t;
    } else {
      assert (d + t)[1..] == d[1..] + t;
      DigitsRead(d[1..], value * 10 + DigitValue(d[0]), t);
    }
  }

  lemma {:induction false} DigitsWritten(s: seq<Byte>, value: nat) returns (d: seq<Byte>)
    requires Digits(s, value).Done?
    ensures forall i :: 0 <= i < |d| ==> IsDigit(d[i])
    ensures s == d + Digits(s, value).rest && Digits(s, value).value == NumberFrom(d, value)
    ensures s != [] && IsDigit(s[0]) ==> d != [] && d[0] == s[0]
    ensures NotDigit(Digits(s, value).rest)
    decreases |s|
  {
    if s == [] || !IsDigit(s[0]) {
      d := [];
    } else {
      var more := DigitsWritten(s[1..], value * 10 + DigitValue(s[0]));
      d := [s[0]] + more;
      assert d[1..] == more && s == [s[0]] + s[1..];
    }
  }

  lemma NumberRenders(d: seq<Byte>, t: seq<Byte>)
    requires Canonical(d) && NumberFrom(d, 0) <= MAX_TARGET && Delimited(t)
    ensures TargetValue(d + t) == Done(NumberFrom(d, 0), t)
  {
    if d[0] == '0' {
      assert d == ['0'] && (d + t)[1..] == t;
      assert NumberFrom(d[1..], 0) == 0;
    } else {
      DigitsRead(d, 0, t);
    }
  }

  lemma NumberRendered(s: seq<Byte>) returns (d: seq<Byte>)
    requires TargetValue(s).Done?
    ensures Canonical(d) && NumberFrom(d, 0) == TargetValue(s).value <= MAX_TARGET
    ensures s == d + TargetValue(s).rest && Delimited(TargetValue(s).rest)
  {
    if s[0] == '0' {
      d := ['0'];
      assert s == d + s[1..];
      assert NumberFrom(d[1..], 0) == 0;
    } else {
      d := DigitsWritten(s, 0);
    }
  }
}
