/** The strict decoder of browser commands: one bounded JSON object with at most
    three known members. A byte is a character below 256. */
module BrowserCommand {
  import opened Words

  const MAX_BODY: nat := 192
  const MAX_TARGET: nat := 200_000
  const KEY_BUFFER: nat := 24
  const COMMAND_BUFFER: nat := 20

  type Byte = c: char | c as int < 256

  datatype Command = SetTarget | StartPump | StopNormal | Unlock | EStop | ResetEStop | Recover

  datatype Field = CommandField | TargetField | ForwardField

  /** `command` is None in a request nobody may dispatch. */
  datatype Request = Request(valid: bool, command: Option<Command>, target: nat, forward: bool)

  const NO_REQUEST := Request(false, None, 0, false)

  datatype Status =
    | Ok | EmptyBody | BodyTooLarge | NotObject | Malformed | DuplicateField | UnknownField
    | MissingField | InvalidType | UnsupportedCommand | OutOfRange | UnexpectedField

  type Failure = s: Status | s != Ok witness Malformed

  datatype Parsed<+T> = Done(value: T, rest: seq<Byte>) | Fail(status: Failure)

  // ------------------------------------------------------------ characters

  predicate IsSpace(c: Byte) {
    c == ' ' || c == '\t' || c == '\r' || c == '\n'
  }

  function SkipSpace(s: seq<Byte>): (rest: seq<Byte>)
    ensures |rest| <= |s|
  {
    if s != [] && IsSpace(s[0]) then SkipSpace(s[1..]) else s
  }

  predicate Delimited(s: seq<Byte>) {
    s == [] || IsSpace(s[0]) || s[0] == ',' || s[0] == '}'
  }

  function HexValue(c: Byte): (v: int)
    ensures -1 <= v < 16
  {
    if '0' <= c <= '9' then c as int - '0' as int
    else if 'a' <= c <= 'f' then c as int - 'a' as int + 10
    else if 'A' <= c <= 'F' then c as int - 'A' as int + 10
    else -1
  }

  predicate IsHexQuad(s: seq<Byte>) {
    |s| >= 4 && HexValue(s[0]) >= 0 && HexValue(s[1]) >= 0
    && HexValue(s[2]) >= 0 && HexValue(s[3]) >= 0
  }

  function QuadValue(s: seq<Byte>): (v: nat)
    requires IsHexQuad(s)
    ensures v < 0x1_0000
  {
    ((HexValue(s[0]) * 16 + HexValue(s[1])) * 16 + HexValue(s[2])) * 16 + HexValue(s[3])
  }

  function ByteOf(n: nat): (b: Byte)
    requires n < 256
    ensures n != 0 ==> b != '\0'
  {
    n as char
  }

  /** A continuation byte: the low six bits of a number. */
  function TailByte(n: nat): (b: Byte)
    ensures b != '\0'
  {
    ByteOf(0x80 + n % 64)
  }

  predicate Scalar(cp: nat) {
    cp <= 0x10FFFF && !(0xD800 <= cp <= 0xDFFF)
  }

  /** The bytes appended for a code point. */
  function Utf8(cp: nat): (bytes: seq<Byte>)
    requires cp <= 0x10FFFF
    ensures 1 <= |bytes| <= 4
  {
    if cp <= 0x7F then [ByteOf(cp)]
    else if cp <= 0x7FF then [ByteOf(0xC0 + cp / 64), TailByte(cp)]
    else if cp <= 0xFFFF then
      [ByteOf(0xE0 + cp / 4096), TailByte(cp / 64), TailByte(cp)]
    else
      [ByteOf(0xF0 + cp / 262144), TailByte(cp / 4096), TailByte(cp / 64), TailByte(cp)]
  }

  predicate HighSurrogate(v: nat) { 0xD800 <= v <= 0xDBFF }
  predicate LowSurrogate(v: nat) { 0xDC00 <= v <= 0xDFFF }

  function Combined(high: nat, low: nat): (cp: nat)
    requires HighSurrogate(high) && LowSurrogate(low)
    ensures 0x10000 <= cp <= 0x10FFFF
  {
    0x10000 + (high - 0xD800) * 1024 + (low - 0xDC00)
  }

  /** The control characters with a letter of their own. */
  function ShortEscape(c: Byte): Option<Byte> {
    if c == '"' || c == '\\' || c == '/' then Some(c)
    else if c == 'b' then Some(8 as char)
    else if c == 'f' then Some(12 as char)
    else if c == 'n' then Some('\n')
    else if c == 'r' then Some('\r')
    else if c == 't' then Some('\t')
    else None
  }

  /** `bytes` is what one source element appends and `used` its length. */
  datatype Element = Element(bytes: seq<Byte>, used: nat) | Bad

  function UnicodeEscape(s: seq<Byte>): (e: Element)
    requires |s| >= 2
    ensures e.Element? ==> 0 < e.used <= |s|
  {
    if !IsHexQuad(s[2..]) then Bad
    else
      var v := QuadValue(s[2..]);
      if HighSurrogate(v) then
        if |s| < 12 || s[6] != '\\' || s[7] != 'u' || !IsHexQuad(s[8..])
           || !LowSurrogate(QuadValue(s[8..])) then Bad
        else Element(Utf8(Combined(v, QuadValue(s[8..]))), 12)
      else if LowSurrogate(v) || v == 0 then Bad
      else Element(Utf8(v), 6)
  }

  /** One element of a string, its closing quote excluded. */
  function NextElement(s: seq<Byte>): (e: Element)
    requires s != []
    ensures e.Element? ==> 0 < e.used <= |s|
  {
    if s[0] < ' ' || s[0] == '"' then Bad
    else if s[0] != '\\' then Element([s[0]], 1)
    else if |s| < 2 then Bad
    else if s[1] == 'u' then UnicodeEscape(s)
    else
      var c := ShortEscape(s[1]);
      if c.None? then Bad else Element([c.value], 2)
  }

  /** The rest of a string after `out`, in a buffer of `size` bytes that also has to
      hold the terminating zero. */
  function StringRest(s: seq<Byte>, out: seq<Byte>, size: nat): (r: Parsed<seq<Byte>>)
    ensures r.Done? ==> |r.rest| < |s|
    decreases |s|
  {
    if s == [] then Fail(Malformed)
    else if s[0] == '"' then Done(out, s[1..])
    else
      var e := NextElement(s);
      if e.Bad? || |out| + |e.bytes| >= size then Fail(Malformed)
      else StringRest(s[e.used..], out + e.bytes, size)
  }

  function ParseString(s: seq<Byte>, size: nat): (r: Parsed<seq<Byte>>)
    ensures r.Done? ==> |r.rest| < |s|
  {
    if s == [] || s[0] != '"' || size == 0 then Fail(Malformed)
    else StringRest(s[1..], [], size)
  }

  // ------------------------------------------------------------ values

  function FieldOf(key: string): Option<Field> {
    if key == "command" then Some(CommandField)
    else if key == "target_rpm_milli" then Some(TargetField)
    else if key == "forward" then Some(ForwardField)
    else None
  }

  function CommandOf(name: string): Option<Command> {
    if name == "set_target" then Some(SetTarget)
    else if name == "start" then Some(StartPump)
    else if name == "stop" then Some(StopNormal)
    else if name == "unlock" then Some(Unlock)
    else if name == "estop" then Some(EStop)
    else if name == "reset_estop" then Some(ResetEStop)
    else if name == "recover" then Some(Recover)
    else None
  }

  function CommandValue(s: seq<Byte>): (r: Parsed<Command>)
    ensures r.Done? ==> |r.rest| < |s|
  {
    if s == [] then Fail(Malformed)
    else if s[0] != '"' then Fail(InvalidType)
    else
      var name := ParseString(s, COMMAND_BUFFER);
      if name.Fail? then Fail(Malformed)
      else
        var c := CommandOf(name.value);
        if c.None? then Fail(UnsupportedCommand) else Done(c.value, name.rest)
  }

  predicate IsDigit(c: Byte) {
    '0' <= c <= '9'
  }

  function DigitValue(c: Byte): nat
    requires IsDigit(c)
  {
    c as int - '0' as int
  }

  /** The digits of a number, read into 64 bits. */
  function Digits(s: seq<Byte>, value: nat): (r: Parsed<nat>)
    ensures r.Done? ==> |r.rest| <= |s|
  {
    if s == [] || !IsDigit(s[0]) then Done(value, s)
    else if value > (TWO_64 - 1 - DigitValue(s[0])) / 10 then Fail(OutOfRange)
    else Digits(s[1..], value * 10 + DigitValue(s[0]))
  }

  /** Everything after the digits of a number is looked at before its size. */
  function NumberEnd(negative: bool, value: nat, s: seq<Byte>): (r: Parsed<nat>)
    ensures r.Done? ==> r.rest == s && r.value == value
  {
    if s != [] && (s[0] == '.' || s[0] == 'e' || s[0] == 'E') then Fail(InvalidType)
    else if !Delimited(s) then Fail(Malformed)
    else if negative || value > MAX_TARGET then Fail(OutOfRange)
    else Done(value, s)
  }

  function TargetValue(s: seq<Byte>): (r: Parsed<nat>)
    ensures r.Done? ==> |r.rest| < |s|
  {
    if s == [] then Fail(Malformed)
    else
      var negative := s[0] == '-';
      var t := if negative then s[1..] else s;
      if t == [] then Fail(Malformed)
      else if !IsDigit(t[0]) then Fail(InvalidType)
      else if t[0] == '0' then
        if |t| > 1 && IsDigit(t[1]) then Fail(Malformed) else NumberEnd(negative, 0, t[1..])
      else
        var d := Digits(t, 0);
        if d.Fail? then d else NumberEnd(negative, d.value, d.rest)
  }

  function ForwardValue(s: seq<Byte>): (r: Parsed<bool>)
    ensures r.Done? ==> |r.rest| < |s|
  {
    if s == [] then Fail(Malformed)
    else if "true" <= s then
      if Delimited(s[4..]) then Done(true, s[4..]) else Fail(Malformed)
    else if "false" <= s then
      if Delimited(s[5..]) then Done(false, s[5..]) else Fail(Malformed)
    else Fail(InvalidType)
  }

  // ------------------------------------------------------------ the object

  /** The candidate request and the members seen so far. */
  datatype Progress = Progress(request: Request, seen: set<Field>)

  const NOTHING := Progress(NO_REQUEST, {})

  /** A member's value, once its key has been recognised. */
  function FieldValue(f: Field, s: seq<Byte>, p: Progress): (r: Parsed<Progress>)
    ensures r.Done? ==> |r.rest| < |s|
  {
    var seen := p.seen + {f};
    match f
    case CommandField =>
      var v := CommandValue(s);
      if v.Fail? then Fail(v.status)
      else Done(Progress(p.request.(command := Some(v.value)), seen), v.rest)
    case TargetField =>
      var v := TargetValue(s);
      if v.Fail? then Fail(v.status)
      else Done(Progress(p.request.(target := v.value), seen), v.rest)
    case ForwardField =>
      var v := ForwardValue(s);
      if v.Fail? then Fail(v.status)
      else Done(Progress(p.request.(forward := v.value), seen), v.rest)
  }

  function ParseMember(s: seq<Byte>, p: Progress): (r: Parsed<Progress>)
    ensures r.Done? ==> |r.rest| < |s|
  {
    var key := ParseString(s, KEY_BUFFER);
    if key.Fail? then Fail(Malformed)
    else
      var colon := SkipSpace(key.rest);
      if colon == [] || colon[0] != ':' then Fail(Malformed)
      else
        var f := FieldOf(key.value);
        if f.None? then Fail(UnknownField)
        else if f.value in p.seen then Fail(DuplicateField)
        else FieldValue(f.value, SkipSpace(colon[1..]), p)
  }

  /** The members up to and including the closing brace. */
  function ParseMembers(s: seq<Byte>, p: Progress): (r: Parsed<Progress>)
    ensures r.Done? ==> |r.rest| < |s|
    decreases |s|
  {
    var m := ParseMember(s, p);
    if m.Fail? then m
    else
      var t := SkipSpace(m.rest);
      if t == [] then Fail(Malformed)
      else if t[0] == '}' then Done(m.value, t[1..])
      else if t[0] != ',' then Fail(Malformed)
      else ParseMembers(SkipSpace(t[1..]), m.value)
  }

  function ParseObject(s: seq<Byte>): (r: Parsed<Progress>) {
    var t := SkipSpace(s);
    if t == [] then Fail(EmptyBody)
    else if t[0] != '{' then Fail(NotObject)
    else
      var u := SkipSpace(t[1..]);
      if u != [] && u[0] == '}' then Done(NOTHING, u[1..]) else ParseMembers(u, NOTHING)
  }

  function Conclude(p: Progress): Status {
    if CommandField !in p.seen then MissingField
    else if p.request.command == Some(SetTarget) then
      if TargetField in p.seen && ForwardField in p.seen then Ok else MissingField
    else if TargetField in p.seen || ForwardField in p.seen then UnexpectedField
    else Ok
  }

  function Decode(body: seq<Byte>): (Status, Request) {
    if |body| > MAX_BODY then (BodyTooLarge, NO_REQUEST)
    else
      var r := ParseObject(body);
      if r.Fail? then (r.status, NO_REQUEST)
      else if SkipSpace(r.rest) != [] then (Malformed, NO_REQUEST)
      else if Conclude(r.value) != Ok then (Conclude(r.value), NO_REQUEST)
      else (Ok, r.value.request.(valid := true))
  }

  // ------------------------------------------------------------ the parser

  /** The firmware's cursor over the body. */
  class Parser {
    const body: seq<Byte>
    var pos: nat

    ghost predicate Valid()
      reads this
    {
      pos <= |body|
    }

    ghost function Rest(): seq<Byte>
      requires Valid()
      reads this
    {
      body[pos..]
    }

    constructor (body: seq<Byte>)
      ensures Valid() && Rest() == body && this.body == body
    {
      this.body, pos := body, 0;
    }

    method SkipWhitespace()
      requires Valid()
      modifies this
      ensures Valid() && Rest() == SkipSpace(old(Rest())) && pos >= old(pos)
    {
      while pos < |body| && IsSpace(body[pos])
        invariant Valid() && old(pos) <= pos
        invariant SkipSpace(old(Rest())) == SkipSpace(Rest())
      {
        pos := pos + 1;
      }
    }

    method ParseHexQuad() returns (ok: bool, value: nat)
      requires Valid()
      modifies this
      ensures Valid() && pos >= old(pos)
      ensures ok == IsHexQuad(old(Rest()))
      ensures ok ==> value == QuadValue(old(Rest())) && pos == old(pos) + 4
    {
      value := 0;
      if |body| - pos < 4 {
        return false, 0;
      }
      ghost var s := Rest();
      var i := 0;
      while i < 4
        invariant 0 <= i <= 4 && pos == old(pos) + i && Valid()
        invariant forall k :: 0 <= k < i ==> HexValue(s[k]) >= 0
        invariant i == 0 ==> value == 0
        invariant i == 1 ==> value == HexValue(s[0])
        invariant i == 2 ==> value == HexValue(s[0]) * 16 + HexValue(s[1])
        invariant i == 3 ==> value == (HexValue(s[0]) * 16 + HexValue(s[1])) * 16 + HexValue(s[2])
        invariant i == 4 ==> value == QuadValue(s)
      {
        assert body[pos] == s[i];
        var digit := HexValue(body[pos]);
        pos := pos + 1;
        if digit < 0 {
          return false, 0;
        }
        value := value * 16 + digit;
        i := i + 1;
      }
      ok := true;
    }

    method AppendByte(out: array<Byte>, length: nat, value: Byte) returns (ok: bool, length': nat)
      requires length <= out.Length
      modifies out
      ensures ok == (value != '\0' && length + 1 < out.Length)
      ensures ok ==> length' == length + 1 && out[..length'] == old(out[..length]) + [value]
      ensures !ok ==> length' == length && out[..] == old(out[..])
    {
      if value == '\0' || length + 1 >= out.Length {
        return false, length;
      }
      out[length] := value;
      return true, length + 1;
    }

    method AppendCodepoint(out: array<Byte>, length: nat, cp: nat)
      returns (ok: bool, length': nat)
      requires length <= out.Length
      modifies out
      ensures ok == (cp != 0 && Scalar(cp) && length + |Utf8(cp)| < out.Length)
      ensures ok ==> length' == length + |Utf8(cp)| && out[..length'] == old(out[..length]) + Utf8(cp)
    {
      hide TailByte, ByteOf;
      if cp == 0 || cp > 0x10FFFF || 0xD800 <= cp <= 0xDFFF {
        return false, length;
      }
      if cp <= 0x7F {
        ok, length' := AppendByte(out, length, ByteOf(cp));
        return;
      }
      if cp <= 0x7FF {
        ok, length' := AppendByte(out, length, ByteOf(0xC0 + cp / 64));
      } else {
        if cp <= 0xFFFF {
          ok, length' := AppendByte(out, length, ByteOf(0xE0 + cp / 4096));
        } else {
          ok, length' := AppendByte(out, length, ByteOf(0xF0 + cp / 262144));
          if ok {
            ok, length' := AppendByte(out, length', TailByte(cp / 4096));
          }
        }
        if ok {
          ok, length' := AppendByte(out, length', TailByte(cp / 64));
        }
      }
      if ok {
        ok, length' := AppendByte(out, length', TailByte(cp));
      }
    }

    /** The body of a `\u` escape whose six or twelve characters start at the cursor. */
    method ParseUnicodeEscape(ghost s: seq<Byte>) returns (ok: bool, cp: nat)
      requires Valid() && |s| >= 2 && s[2..] == Rest()
      modifies this
      ensures Valid() && pos >= old(pos) && ok == UnicodeEscape(s).Element?
      ensures ok ==> cp != 0 && Scalar(cp) && UnicodeEscape(s).bytes == Utf8(cp)
                     && Rest() == s[UnicodeEscape(s).used..]
    {
      ok, cp := ParseHexQuad();
      if !ok {
        return;
      }
      assert Rest() == s[6..];
      if 0xD800 <= cp <= 0xDBFF {
        if |body| - pos < 6 || body[pos] != '\\' || body[pos + 1] != 'u' {
          return false, 0;
        }
        pos := pos + 2;
        assert Rest() == s[8..];
        var low;
        ok, low := ParseHexQuad();
        if !ok || low < 0xDC00 || low > 0xDFFF {
          return false, 0;
        }
        assert Rest() == s[12..];
        cp := Combined(cp, low);
      } else if 0xDC00 <= cp <= 0xDFFF || cp == 0 {
        return false, 0;
      }
    }

    /** One element of a string: a plain byte or an escape. */
    method ParseElement(out: array<Byte>, length: nat) returns (ok: bool, length': nat)
      requires Valid() && Rest() != [] && Rest()[0] != '"' && length < out.Length
      modifies this, out
      ensures Valid() && pos > old(pos)
      ensures var e := NextElement(old(Rest()));
              && ok == (e.Element? && length + |e.bytes| < out.Length)
              && (ok ==> length' == length + |e.bytes|
                         && out[..length'] == old(out[..length]) + e.bytes
                         && Rest() == old(Rest())[e.used..])
    {
      hide Utf8, QuadValue, IsHexQuad, Combined;
      ghost var s := Rest();
      length' := length;
      var ch := body[pos];
      pos := pos + 1;
      if ch < ' ' {
        return false, length;
      }
      if ch != '\\' {
        ok, length' := AppendByte(out, length, ch);
        return;
      }
      if pos >= |body| {
        return false, length;
      }
      var escape := body[pos];
      pos := pos + 1;
      if escape == 'u' {
        var cp;
        ok, cp := ParseUnicodeEscape(s);
        if ok {
          ok, length' := AppendCodepoint(out, length, cp);
        }
      } else {
        var c := ShortEscape(escape);
        if c.None? {
          return false, length;
        }
        ok, length' := AppendByte(out, length, c.value);
      }
    }

    /** Reads a string into `out`, which also receives the terminating zero. */
    method ParseJsonString(out: array<Byte>) returns (ok: bool, length: nat)
      requires Valid()
      modifies this, out
      ensures Valid() && ok == ParseString(old(Rest()), out.Length).Done?
      ensures ok ==> length < out.Length && out[length] == '\0'
                     && out[..length] == ParseString(old(Rest()), out.Length).value
                     && Rest() == ParseString(old(Rest()), out.Length).rest
    {
      length := 0;
      if pos >= |body| || body[pos] != '"' || out.Length == 0 {
        return false, 0;
      }
      hide NextElement;
      ghost var r := ParseString(Rest(), out.Length);
      pos := pos + 1;
      while pos < |body|
        invariant Valid() && length < out.Length
        invariant r == StringRest(Rest(), out[..length], out.Length)
        decreases |body| - pos
      {
        if body[pos] == '"' {
          pos := pos + 1;
          out[length] := '\0';
          return true, length;
        }
        ok, length := ParseElement(out, length);
        if !ok {
          return;
        }
      }
      return false, length;
    }

    method ParseCommandValue() returns (status: Status, command: Option<Command>)
      requires Valid()
      modifies this
      ensures Valid()
      ensures match CommandValue(old(Rest()))
              case Done(c, rest) => status == Ok && command == Some(c) && Rest() == rest
              case Fail(why) => status == why
    {
      if pos >= |body| {
        return Malformed, None;
      }
      if body[pos] != '"' {
        return InvalidType, None;
      }
      var name := new Byte[COMMAND_BUFFER](_ => '\0');
      var ok, length := ParseJsonString(name);
      if !ok {
        return Malformed, None;
      }
      command := CommandOf(name[..length]);
      status := if command.None? then UnsupportedCommand else Ok;
    }

    method ParseDigits() returns (fits: bool, value: nat)
      requires Valid()
      modifies this
      ensures Valid()
      ensures Digits(old(Rest()), 0) == if fits then Done(value, Rest()) else Fail(OutOfRange)
    {
      value := 0;
      ghost var d := Digits(Rest(), 0);
      while pos < |body| && IsDigit(body[pos])
        invariant Valid()
        invariant d == Digits(Rest(), value)
      {
        var digit := DigitValue(body[pos]);
        if value > (TWO_64 - 1 - digit) / 10 {
          return false, 0;
        }
        pos := pos + 1;
        value := value * 10 + digit;
      }
      fits := true;
    }

    method ParseTargetValue() returns (status: Status, target: nat)
      requires Valid()
      modifies this
      ensures Valid()
      ensures match TargetValue(old(Rest()))
              case Done(v, rest) => status == Ok && target == v && Rest() == rest
              case Fail(why) => status == why
    {
      target := 0;
      if pos >= |body| {
        return Malformed, 0;
      }
      var negative := false;
      if body[pos] == '-' {
        negative := true;
        pos := pos + 1;
      }
      if pos >= |body| {
        return Malformed, 0;
      }
      if !IsDigit(body[pos]) {
        return InvalidType, 0;
      }
      var value: nat := 0;
      hide Digits;
      if body[pos] == '0' {
        pos := pos + 1;
        if pos < |body| && IsDigit(body[pos]) {
          return Malformed, 0;
        }
      } else {
        var fits;
        fits, value := ParseDigits();
        if !fits {
          return OutOfRange, 0;
        }
      }
      if pos < |body| && (body[pos] == '.' || body[pos] == 'e' || body[pos] == 'E') {
        return InvalidType, 0;
      }
      if !Delimited(body[pos..]) {
        return Malformed, 0;
      }
      if negative || value > MAX_TARGET {
        return OutOfRange, 0;
      }
      return Ok, value;
    }

    method ParseForwardValue() returns (status: Status, forward: bool)
      requires Valid()
      modifies this
      ensures Valid()
      ensures match ForwardValue(old(Rest()))
              case Done(v, rest) => status == Ok && forward == v && Rest() == rest
              case Fail(why) => status == why
    {
      if pos >= |body| {
        return Malformed, false;
      }
      if |body| - pos >= 4 && body[pos..pos + 4] == "true" {
        pos := pos + 4;
        return (if Delimited(body[pos..]) then Ok else Malformed), true;
      }
      if |body| - pos >= 5 && body[pos..pos + 5] == "false" {
        pos := pos + 5;
        return (if Delimited(body[pos..]) then Ok else Malformed), false;
      }
      return InvalidType, false;
    }

    method ParseFieldValue(f: Field, candidate: Request, ghost seen: set<Field>)
      returns (status: Status, candidate': Request)
      requires Valid()
      modifies this
      ensures Valid()
      ensures match FieldValue(f, old(Rest()), Progress(candidate, seen))
              case Done(p, rest) =>
                status == Ok && p == Progress(candidate', seen + {f}) && Rest() == rest
              case Fail(why) => status == why
    {
      candidate' := candidate;
      match f {
        case CommandField =>
          var command;
          status, command := ParseCommandValue();
          candidate' := candidate.(command := command);
        case TargetField =>
          var target;
          status, target := ParseTargetValue();
          candidate' := candidate.(target := target);
        case ForwardField =>
          var forward;
          status, forward := ParseForwardValue();
          candidate' := candidate.(forward := forward);
      }
    }

    /** A key, its colon and its value. */
    method ParseOneMember(candidate: Request, seen: set<Field>)
      returns (status: Status, candidate': Request, seen': set<Field>)
      requires Valid()
      modifies this
      ensures Valid()
      ensures match ParseMember(old(Rest()), Progress(candidate, seen))
              case Done(p, rest) =>
                status == Ok && p == Progress(candidate', seen') && Rest() == rest
              case Fail(why) => status == why
    {
      hide SkipSpace, ParseString, FieldValue, FieldOf;
      candidate', seen' := candidate, seen;
      var key := new Byte[KEY_BUFFER](_ => '\0');
      var ok, length := ParseJsonString(key);
      if !ok {
        return Malformed, candidate, seen;
      }
      SkipWhitespace();
      if pos >= |body| {
        return Malformed, candidate, seen;
      }
      var colon := body[pos];
      pos := pos + 1;
      if colon != ':' {
        return Malformed, candidate, seen;
      }
      SkipWhitespace();
      var f := FieldOf(key[..length]);
      if f.None? {
        return UnknownField, candidate, seen;
      }
      if f.value in seen {
        return DuplicateField, candidate, seen;
      }
      seen' := seen + {f.value};
      status, candidate' := ParseFieldValue(f.value, candidate, seen);
    }

    /** The loop over the members, up to and including the closing brace. */
    method ParseAllMembers() returns (status: Status, candidate: Request, seen: set<Field>)
      requires Valid()
      modifies this
      ensures Valid()
      ensures match ParseMembers(old(Rest()), NOTHING)
              case Done(p, rest) =>
                status == Ok && p == Progress(candidate, seen) && Rest() == rest
              case Fail(why) => status == why
    {
      hide ParseMember;
      candidate, seen := NO_REQUEST, {};
      ghost var r := ParseMembers(Rest(), NOTHING);
      while true
        invariant Valid()
        invariant r == ParseMembers(Rest(), Progress(candidate, seen))
        decreases |body| - pos
      {
        status, candidate, seen := ParseOneMember(candidate, seen);
        if status != Ok {
          return;
        }
        SkipWhitespace();
        if pos >= |body| {
          return Malformed, candidate, seen;
        }
        if body[pos] == '}' {
          pos := pos + 1;
          return Ok, candidate, seen;
        }
        if body[pos] != ',' {
          return Malformed, candidate, seen;
        }
        pos := pos + 1;
        SkipWhitespace();
      }
    }

    method ParseWholeObject() returns (status: Status, candidate: Request, seen: set<Field>)
      requires Valid()
      modifies this
      ensures Valid()
      ensures match ParseObject(old(Rest()))
              case Done(p, rest) =>
                status == Ok && p == Progress(candidate, seen) && Rest() == rest
              case Fail(why) => status == why
    {
      hide SkipSpace, ParseMembers;
      candidate, seen := NO_REQUEST, {};
      SkipWhitespace();
      if pos == |body| {
        return EmptyBody, candidate, seen;
      }
      if body[pos] != '{' {
        return NotObject, candidate, seen;
      }
      pos := pos + 1;
      SkipWhitespace();
      if pos < |body| && body[pos] == '}' {
        pos := pos + 1;
        status := Ok;
      } else {
        status, candidate, seen := ParseAllMembers();
      }
    }
  }

  /** The whole decoder; the request it gives back is dispatchable only on success. */
  method DecodeCommand(body: seq<Byte>) returns (status: Status, request: Request)
    ensures status == Decode(body).0 && request == Decode(body).1
    ensures status != Ok ==> request == NO_REQUEST
    ensures request.valid <==> status == Ok
  {
    hide ParseObject, SkipSpace, Conclude;
    if |body| > MAX_BODY {
      return BodyTooLarge, NO_REQUEST;
    }
    var parser := new Parser(body);
    var candidate, seen;
    status, candidate, seen := parser.ParseWholeObject();
    if status != Ok {
      return status, NO_REQUEST;
    }
    parser.SkipWhitespace();
    if parser.pos != |parser.body| {
      return Malformed, NO_REQUEST;
    }
    status := Conclude(Progress(candidate, seen));
    request := if status == Ok then candidate.(valid := true) else NO_REQUEST;
  }
}
