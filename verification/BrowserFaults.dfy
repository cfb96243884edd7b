/** What the browser decoder refuses, and as what: the first fault of a body decides. */
module BrowserFaults {
  import opened Words
  import opened BrowserCommand
  import opened BrowserRendering
  import opened BrowserDocument

  // ------------------------------------------------------------ the body

  lemma {:induction false} MembersFail(s: seq<Byte>, p: Progress)
    requires ParseMembers(s, p).Fail?
    ensures ParseMembers(s, p).status in {
              Malformed, UnknownField, DuplicateField, InvalidType, UnsupportedCommand, OutOfRange}
    decreases |s|
  {
    hide ParseMember, SkipSpace;
    MemberFails(s, p);
    var m := ParseMember(s, p);
    if m.Done? {
      var t := SkipSpace(m.rest);
      if t != [] && t[0] == ',' {
        MembersFail(SkipSpace(t[1..]), m.value);
      }
    }
  }

  lemma MemberFails(s: seq<Byte>, p: Progress)
    ensures ParseMember(s, p).Fail? ==>
              ParseMember(s, p).status in {
                Malformed, UnknownField, DuplicateField, InvalidType, UnsupportedCommand,
                OutOfRange}
  {
    hide ParseString, SkipSpace, FieldOf, CommandOf, Digits;
    var key := ParseString(s, KEY_BUFFER);
    if key.Done? && SkipSpace(key.rest) != [] {
      TargetFails(SkipSpace(SkipSpace(key.rest)[1..]));
    }
  }

  lemma TargetFails(s: seq<Byte>)
    ensures TargetValue(s).Fail? ==> TargetValue(s).status in {Malformed, InvalidType, OutOfRange}
  {
    DigitsFail(if s != [] && s[0] == '-' then s[1..] else s, 0);
    hide Digits;
  }

  lemma {:induction false} DigitsFail(s: seq<Byte>, value: nat)
    ensures Digits(s, value).Fail? ==> Digits(s, value).status == OutOfRange
    decreases |s|
  {
    if s != [] && IsDigit(s[0]) {
      DigitsFail(s[1..], value * 10 + DigitValue(s[0]));
    }
  }

  lemma ObjectFails(s: seq<Byte>)
    requires ParseObject(s).Fail?
    ensures ParseObject(s).status == EmptyBody <==> SkipSpace(s) == []
    ensures ParseObject(s).status == NotObject <==> SkipSpace(s) != [] && SkipSpace(s)[0] != '{'
    ensures ParseObject(s).status in {
              EmptyBody, NotObject, Malformed, UnknownField, DuplicateField, InvalidType,
              UnsupportedCommand, OutOfRange}
  {
    hide ParseMembers, SkipSpace;
    var t := SkipSpace(s);
    if t != [] && t[0] == '{' {
      var u := SkipSpace(t[1..]);
      if ParseMembers(u, NOTHING).Fail? {
        MembersFail(u, NOTHING);
      }
    }
  }

  /** Something other than a brace comes first. */
  ghost predicate StartsWithout(body: seq<Byte>) {
    exists w, c, rest ::
      body == w + [c] + rest && AllSpace(w) && !IsSpace(c) && c != '{'
  }

  lemma SkippedExactly(body: seq<Byte>)
    ensures SkipSpace(body) == [] <==> AllSpace(body)
  {
    var w := LeadingSpace(body);
    if AllSpace(body) {
      SpaceOnly(body);
    }
    assert SkipSpace(body) == [] ==> w + SkipSpace(body) == w;
  }

  lemma FirstExactly(body: seq<Byte>)
    ensures StartsWithout(body) <==> SkipSpace(body) != [] && SkipSpace(body)[0] != '{'
  {
    var w := LeadingSpace(body);
    var t := SkipSpace(body);
    hide SkipSpace, AllSpace, IsSpace;
    if t != [] && t[0] != '{' {
      assert body == w + [t[0]] + t[1..];
    }
    forall w', c, rest | body == w' + [c] + rest && AllSpace(w') && !IsSpace(c)
      ensures t == [c] + rest
    {
      assert body == w' + ([c] + rest);
      SpaceSkipped(w', [c] + rest);
    }
  }

  /** A body is too large beyond 192 bytes, empty if it is white space, and no object exactly
      when something else than a brace comes first. */
  lemma EnvelopeFaultsExactly(body: seq<Byte>)
    ensures Decode(body).0 == BodyTooLarge <==> |body| > 192
    ensures Decode(body).0 == EmptyBody <==> |body| <= 192 && AllSpace(body)
    ensures Decode(body).0 == NotObject <==> |body| <= 192 && StartsWithout(body)
  {
    SkippedExactly(body);
    FirstExactly(body);
    if ParseObject(body).Fail? {
      ObjectFails(body);
    } else {
      ObjectOpens(body);
    }
    hide ParseObject, SkipSpace, AllSpace, StartsWithout;
  }

  lemma ObjectOpens(s: seq<Byte>)
    ensures ParseObject(s).Done? ==> SkipSpace(s) != [] && SkipSpace(s)[0] == '{'
  {
    hide ParseMembers, SkipSpace;
  }

  // ------------------------------------------------------------ the first faulty member

  /** Well-formed members, each followed by a comma, and then something else. */
  function UpTo(ms: seq<Member>, t: seq<Byte>): seq<Byte> {
    if ms == [] then t else ms[0].lead + MemberThen(ms[0], [','] + UpTo(ms[1..], t))
  }

  lemma {:induction false} UpToRead(
    ms: seq<Member>, fs: seq<Field>, lead: seq<Byte>, s: seq<Byte>, p: Progress)
    requires Spells(ms, fs) && AllNew(fs, p.seen) && AllSpace(lead) && Solid(s)
    ensures ParseMember(s, AfterMembers(ms, fs, p)).Fail? ==>
              ParseMembers(SkipSpace(UpTo(ms, lead + s)), p)
              == ParseMember(s, AfterMembers(ms, fs, p))
    decreases |ms|
  {
    if ms == [] {
      SpaceSkipped(lead, s);
    } else {
      SpellsTail(ms, fs, p.seen);
      FitsSpace(ms[0], fs[0]);
      hide ParseMember, MemberThen, Spells, Fits, AllNew, SkipSpace;
      var m, f := ms[0], fs[0];
      var p' := Progress(Updated(p.request, f, m.value), p.seen + {f});
      var u := [','] + UpTo(ms[1..], lead + s);
      MemberRead(m, f, u, p);
      MemberIsSolid(m, u);
      SpaceSkipped(m.lead, MemberThen(m, u));
      TailDelimits(m.tail, u);
      assert u[1..] == UpTo(ms[1..], lead + s);
      UpToRead(ms[1..], fs[1..], lead, s, p');
    }
  }

  lemma MemberIsSolid(m: Member, t: seq<Byte>)
    ensures MemberThen(m, t) != [] && Solid(MemberThen(m, t))
  {
  }

  /** After well-formed members, a member that cannot be read decides. */
  lemma FirstFaultDecides(
    before: seq<Byte>, ms: seq<Member>, fs: seq<Field>, lead: seq<Byte>, s: seq<Byte>)
    requires AllSpace(before) && AllSpace(lead) && Solid(s) && Spells(ms, fs)
    requires s != [] && s[0] != '}'
    requires ParseMember(s, AfterMembers(ms, fs, NOTHING)).Fail?
    requires |before + ['{'] + UpTo(ms, lead + s)| <= MAX_BODY
    ensures Decode(before + ['{'] + UpTo(ms, lead + s))
         == (ParseMember(s, AfterMembers(ms, fs, NOTHING)).status, NO_REQUEST)
  {
    var more := UpTo(ms, lead + s);
    assert before + ['{'] + more == before + (['{'] + more) && (['{'] + more)[1..] == more;
    SpaceSkipped(before, ['{'] + more);
    UpToRead(ms, fs, lead, s, NOTHING);
    NoBraceFirst(ms, fs, lead, s);
    hide ParseMembers, ParseMember, SkipSpace, UpTo, AfterMembers, Spells;
  }

  lemma NoBraceFirst(ms: seq<Member>, fs: seq<Field>, lead: seq<Byte>, s: seq<Byte>)
    requires AllSpace(lead) && Solid(s) && Spells(ms, fs) && s != [] && s[0] != '}'
    ensures var u := SkipSpace(UpTo(ms, lead + s)); u != [] && u[0] != '}'
  {
    if ms == [] {
      SpaceSkipped(lead, s);
    } else {
      var u := MemberThen(ms[0], [','] + UpTo(ms[1..], lead + s));
      assert Fits(ms[0], fs[0]);
      FitsSpace(ms[0], fs[0]);
      MemberIsSolid(ms[0], [','] + UpTo(ms[1..], lead + s));
      SpaceSkipped(ms[0].lead, u);
      assert u[0] == '"';
    }
  }

  // ------------------------------------------------------------ what is wrong with a member

  /** A key, a colon, and what should be a value. */
  function KeyThen(key: seq<Piece>, gap: seq<Byte>, room: seq<Byte>, v: seq<Byte>): seq<Byte> {
    QuotedThen(key, gap + ([':'] + (room + v)))
  }

  /** A key that no field has is unknown, one that was there is a duplicate, and otherwise
      the value of its field decides. */
  lemma KeyFaultsExactly(
    key: seq<Piece>, gap: seq<Byte>, room: seq<Byte>, v: seq<Byte>, p: Progress)
    requires GoodPieces(key) && |Meaning(key)| < 24 && AllSpace(gap) && AllSpace(room) && Solid(v)
    ensures var f, m := FieldOf(Meaning(key)), ParseMember(KeyThen(key, gap, room, v), p);
            && (m == Fail(UnknownField) <==> f == None)
            && (f.Some? && f.value in p.seen ==> m == Fail(DuplicateField))
            && (f.Some? && f.value !in p.seen ==> m == FieldValue(f.value, v, p))
  {
    var colon := [':'] + (room + v);
    StringRenders(key, gap + colon, KEY_BUFFER);
    SpaceSkipped(gap, colon);
    assert colon[1..] == room + v;
    SpaceSkipped(room, v);
    ValueStatus(v, p);
    hide ParseString, FieldValue, SkipSpace, QuotedThen, FieldOf, Meaning;
  }

  lemma ValueStatus(v: seq<Byte>, p: Progress)
    ensures forall f :: FieldValue(f, v, p) != Fail(UnknownField)
  {
    TargetFails(v);
    hide ParseString, CommandOf, Digits, TargetValue;
  }

  /** A command has to be a string, and the string one of the seven commands. */
  lemma CommandFaultsExactly(v: seq<Byte>, p: Progress)
    ensures FieldValue(CommandField, v, p) == Fail(InvalidType) <==> v != [] && v[0] != '"'
    ensures FieldValue(CommandField, v, p) == Fail(UnsupportedCommand) <==>
              exists ps, rest :: GoodPieces(ps) && |Meaning(ps)| < 20 && v == QuotedThen(ps, rest)
                && CommandOf(Meaning(ps)) == None
  {
    hide ParseString, QuotedThen, Meaning, CommandOf;
    var name := ParseString(v, COMMAND_BUFFER);
    if name.Done? {
      StringsExactly(v, COMMAND_BUFFER, name.value, name.rest);
    }
    forall ps, rest | GoodPieces(ps) && |Meaning(ps)| < 20 && v == QuotedThen(ps, rest)
      ensures name == Done(Meaning(ps), rest) && v != [] && v[0] == '"'
    {
      StringRenders(ps, rest, COMMAND_BUFFER);
      QuoteFirst(ps, rest);
    }
  }

  lemma QuoteFirst(ps: seq<Piece>, rest: seq<Byte>)
    ensures QuotedThen(ps, rest) != [] && QuotedThen(ps, rest)[0] == '"'
  {
  }

  /** The direction has to be true or false, delimited. */
  lemma ForwardFaultsExactly(v: seq<Byte>, p: Progress)
    ensures FieldValue(ForwardField, v, p) == Fail(InvalidType) <==>
              v != [] && !("true" <= v) && !("false" <= v)
    ensures FieldValue(ForwardField, v, p) == Fail(Malformed) <==>
              v == [] || exists word, t :: word in {"true", "false"} && v == word + t && !Delimited(t)
  {
    if "true" <= v {
      assert v == "true" + v[4..];
      assert v[0] == 't';
    } else if "false" <= v {
      assert v == "false" + v[5..];
    }
    forall word, t | word in {"true", "false"} && v == word + t && !Delimited(t)
      ensures FieldValue(ForwardField, v, p) == Fail(Malformed)
    {
      assert v[|word|..] == t;
      assert word == "false" ==> v[0] == 'f';
    }
  }

  /** A number has to begin with a digit, after a sign at most, may have no leading zero, no
      fraction and no exponent, and is out of range if it is negative or above 200 000. */
  lemma TargetFaultsExactly(negative: bool, d: seq<Byte>, t: seq<Byte>, p: Progress)
    requires Canonical(d) && NotDigit(t) && NumberFrom(d, 0) <= MAX_TARGET
    ensures var v := (if negative then ['-'] else []) + (d + t);
            FieldValue(TargetField, v, p)
            == if t != [] && t[0] in {'.', 'e', 'E'} then Fail(InvalidType)
               else if !Delimited(t) then Fail(Malformed)
               else if negative then Fail(OutOfRange)
               else Done(Progress(p.request.(target := NumberFrom(d, 0)), p.seen + {TargetField}), t)
  {
    var v := (if negative then ['-'] else []) + (d + t);
    assert negative ==> v[1..] == d + t;
    assert !negative ==> v == d + t;
    assert (d + t)[0] == d[0];
    if d[0] == '0' {
      assert d == ['0'] && (d + t)[1..] == t;
      assert NumberFrom(d[1..], 0) == 0;
    } else {
      DigitsRead(d, 0, t);
    }
    hide Digits;
  }

  lemma ZeroIsSmall(d: seq<Byte>)
    requires Canonical(d)
    ensures d[0] == '0' ==> NumberFrom(d, 0) == 0
  {
    if d[0] == '0' {
      assert d == ['0'];
      assert NumberFrom(d[1..], 0) == 0;
    }
  }

  lemma LargeTargetsExactly(d: seq<Byte>, t: seq<Byte>, p: Progress)
    requires Canonical(d) && Delimited(t) && NumberFrom(d, 0) > MAX_TARGET
    ensures FieldValue(TargetField, d + t, p) == Fail(OutOfRange)
  {
    assert (d + t)[0] == d[0];
    LargeDigits(d, 0, t);
    ZeroIsSmall(d);
    hide Digits, NumberFrom;
  }

  lemma {:induction false} LargeDigits(d: seq<Byte>, value: nat, t: seq<Byte>)
    requires forall i :: 0 <= i < |d| ==> IsDigit(d[i])
    requires NotDigit(t)
    ensures Digits(d + t, value) in {Done(NumberFrom(d, value), t), Fail(OutOfRange)}
    decreases |d|
  {
    if d == [] {
      assert d + t == t;
    } else {
      assert (d + t)[1..] == d[1..] + t;
      LargeDigits(d[1..], value * 10 + DigitValue(d[0]), t);
    }
  }

  lemma NoNumberExactly(v: seq<Byte>, p: Progress)
    requires v != []
    ensures !IsDigit(v[0]) && v[0] != '-' ==> FieldValue(TargetField, v, p) == Fail(InvalidType)
    ensures |v| > 1 && v[0] == '0' && IsDigit(v[1]) ==> FieldValue(TargetField, v, p) == Fail(Malformed)
  {
  }

  // ------------------------------------------------------------ what is wrong with the whole

  lemma StatusOfMembers(d: Document, fs: seq<Field>)
    requires AllSpace(d.before) && AllSpace(d.after) && d.members != [] && Spells(d.members, fs)
    requires |TextOf(d)| <= MAX_BODY
    ensures Decode(TextOf(d)).0 == Conclude(AfterMembers(d.members, fs, NOTHING))
  {
    BodyRead(d, fs);
    hide TextOf, ParseObject, SkipSpace, AfterMembers, Spells, Conclude;
  }

  /** Members that can all be read make no request exactly when the command is missing, when
      a target or a direction of a new target is missing, or when one comes with another
      command. */
  lemma MemberSetFaultsExactly(d: Document, fs: seq<Field>)
    requires AllSpace(d.before) && AllSpace(d.after) && d.members != [] && Spells(d.members, fs)
    requires |TextOf(d)| <= MAX_BODY
    ensures CommandField !in fs ==> Decode(TextOf(d)).0 == MissingField
    ensures forall v :: Gives(d.members, fs, CommandField, v) && GoodValue(v, CommandField) ==>
              Decode(TextOf(d)).0
              == if CommandOf(Meaning(v.ps)) == Some(SetTarget) then
                   (if TargetField in fs && ForwardField in fs then Ok else MissingField)
                 else if TargetField in fs || ForwardField in fs then UnexpectedField else Ok
  {
    hide TextOf, Decode, AfterMembers, Spells, Meaning, NumberFrom, CommandOf, AllSpace;
    StatusOfMembers(d, fs);
    GivenValueHolds(d.members, fs, CommandField);
    SeenAddsUp(d.members, fs, NOTHING);
    forall v | Gives(d.members, fs, CommandField, v)
      ensures CommandField in fs
    {
    }
  }
}
