/** Whole request bodies: the decoder accepts exactly the renderings of valid
    requests, with members in any order, any white space and any escapes. */
module BrowserDocument {
  import opened Words
  import opened BrowserCommand
  import opened BrowserRendering

  datatype Value = Word(ps: seq<Piece>) | Number(d: seq<Byte>) | Truth(b: bool)

  /** `lead`, `gap`, `room` and `tail` are the white space before the key, before and
      after the colon, and after the value. */
  datatype Member = Member(
    lead: seq<Byte>, key: seq<Piece>, gap: seq<Byte>, room: seq<Byte>, value: Value,
    tail: seq<Byte>)

  datatype Document = Document(before: seq<Byte>, members: seq<Member>, after: seq<Byte>)

  function ValueThen(v: Value, t: seq<Byte>): seq<Byte> {
    match v
    case Word(ps) => QuotedThen(ps, t)
    case Number(d) => d + t
    case Truth(b) => (if b then "true" else "false") + t
  }

  /** A member without its leading white space. */
  function MemberThen(m: Member, t: seq<Byte>): seq<Byte> {
    QuotedThen(m.key, m.gap + ([':'] + (m.room + ValueThen(m.value, m.tail + t))))
  }

  function MembersThen(ms: seq<Member>, t: seq<Byte>): seq<Byte>
    requires ms != []
  {
    MemberThen(ms[0], if |ms| == 1 then ['}'] + t
                      else [','] + (ms[1].lead + MembersThen(ms[1..], t)))
  }

  function TextOf(d: Document): seq<Byte>
    requires d.members != []
  {
    d.before + (['{'] + (d.members[0].lead + MembersThen(d.members, d.after)))
  }

  // ------------------------------------------------------------ what a member says

  predicate GoodKey(ps: seq<Piece>, f: Field) {
    GoodPieces(ps) && FieldOf(Meaning(ps)) == Some(f)
  }

  predicate GoodValue(v: Value, f: Field) {
    match f
    case CommandField => v.Word? && GoodPieces(v.ps) && CommandOf(Meaning(v.ps)).Some?
    case TargetField => v.Number? && Canonical(v.d) && NumberFrom(v.d, 0) <= 200_000
    case ForwardField => v.Truth?
  }

  /** A well-formed member for a field. */
  predicate Fits(m: Member, f: Field) {
    && AllSpace(m.lead) && AllSpace(m.gap) && AllSpace(m.room) && AllSpace(m.tail)
    && GoodKey(m.key, f) && GoodValue(m.value, f)
  }

  function Updated(r: Request, f: Field, v: Value): Request
    requires GoodValue(v, f)
  {
    match f
    case CommandField => r.(command := CommandOf(Meaning(v.ps)))
    case TargetField => r.(target := NumberFrom(v.d, 0))
    case ForwardField => r.(forward := v.b)
  }

  /** The fields of the members, in the order they are written. */
  predicate Spells(ms: seq<Member>, fs: seq<Field>) {
    && |ms| == |fs|
    && (forall i :: 0 <= i < |ms| ==> Fits(ms[i], fs[i]))
    && (forall i, j :: 0 <= i < j < |fs| ==> fs[i] != fs[j])
  }

  /** The value a document gives a field. */
  predicate Gives(ms: seq<Member>, fs: seq<Field>, f: Field, v: Value) {
    |ms| == |fs| && exists i :: 0 <= i < |ms| && fs[i] == f && ms[i].value == v
  }

  /** The document is a rendering of the request: SET_TARGET has all three members,
      every other command only its own. */
  ghost predicate Renders(d: Document, fs: seq<Field>, r: Request) {
    && AllSpace(d.before) && AllSpace(d.after)
    && Spells(d.members, fs) && r.valid
    && (exists v :: Gives(d.members, fs, CommandField, v) && GoodValue(v, CommandField)
                    && r.command == CommandOf(Meaning(v.ps)))
    && (if r.command == Some(SetTarget) then
          && (exists v :: Gives(d.members, fs, TargetField, v) && GoodValue(v, TargetField)
                          && r.target == NumberFrom(v.d, 0))
          && Gives(d.members, fs, ForwardField, Truth(r.forward))
        else fs == [CommandField] && r.target == 0 && !r.forward)
  }

  // ------------------------------------------------------------ one member

  predicate Follows(t: seq<Byte>) {
    t != [] && (t[0] == ',' || t[0] == '}')
  }

  lemma TailDelimits(w: seq<Byte>, t: seq<Byte>)
    requires AllSpace(w) && Follows(t)
    ensures Delimited(w + t) && SkipSpace(w + t) == t
  {
    SpaceSkipped(w, t);
    assert w != [] ==> (w + t)[0] == w[0];
  }

  lemma NamesFit(ps: seq<Piece>, f: Field)
    requires GoodPieces(ps)
    ensures FieldOf(Meaning(ps)) == Some(f) ==> |Meaning(ps)| < KEY_BUFFER
    ensures CommandOf(Meaning(ps)).Some? ==> |Meaning(ps)| < COMMAND_BUFFER
  {
  }

  lemma ValueRead(v: Value, f: Field, t: seq<Byte>, p: Progress)
    requires GoodValue(v, f) && Delimited(t)
    ensures FieldValue(f, ValueThen(v, t), p) == Done(Progress(Updated(p.request, f, v), p.seen + {f}), t)
  {
    hide ParseString, TargetValue, Digits;
    match f
    case CommandField =>
      NamesFit(v.ps, f);
      StringRenders(v.ps, t, COMMAND_BUFFER);
    case TargetField => NumberRenders(v.d, t);
    case ForwardField =>
      var s := ValueThen(v, t);
      assert v.b ==> s[4..] == t && "true" <= s;
      assert !v.b ==> s[5..] == t && "false" <= s && s[0] == 'f';
  }

  lemma ValueIsSolid(v: Value, f: Field, t: seq<Byte>)
    requires GoodValue(v, f)
    ensures Solid(ValueThen(v, t))
  {
    hide Meaning;
    assert v.Number? ==> (v.d + t)[0] == v.d[0] && IsDigit(v.d[0]);
  }

  lemma MemberRead(m: Member, f: Field, t: seq<Byte>, p: Progress)
    requires Fits(m, f) && f !in p.seen && Follows(t)
    ensures ParseMember(MemberThen(m, t), p)
         == Done(Progress(Updated(p.request, f, m.value), p.seen + {f}), m.tail + t)
  {
    var value := ValueThen(m.value, m.tail + t);
    var colon := [':'] + (m.room + value);
    NamesFit(m.key, f);
    StringRenders(m.key, m.gap + colon, KEY_BUFFER);
    SpaceSkipped(m.gap, colon);
    assert colon[1..] == m.room + value;
    TailDelimits(m.tail, t);
    ValueIsSolid(m.value, f, m.tail + t);
    SpaceSkipped(m.room, value);
    ValueRead(m.value, f, m.tail + t, p);
    hide ParseString, FieldValue, SkipSpace, QuotedThen, ValueThen;
  }

  lemma ValueWritten(s: seq<Byte>, f: Field, p: Progress) returns (v: Value)
    requires FieldValue(f, s, p).Done?
    ensures GoodValue(v, f) && s == ValueThen(v, FieldValue(f, s, p).rest)
    ensures FieldValue(f, s, p).value == Progress(Updated(p.request, f, v), p.seen + {f})
  {
    hide ParseString, TargetValue, Digits, QuotedThen;
    match f
    case CommandField =>
      var ps := StringRendered(s, COMMAND_BUFFER);
      v := Word(ps);
    case TargetField =>
      var d := NumberRendered(s);
      v := Number(d);
    case ForwardField =>
      v := Truth("true" <= s);
      if "true" <= s {
        assert s == s[..4] + s[4..];
      } else {
        assert s == s[..5] + s[5..];
      }
  }

  /** A member without leading and trailing white space. */
  lemma MemberWritten(s: seq<Byte>, p: Progress) returns (m: Member, f: Field)
    requires ParseMember(s, p).Done?
    ensures Fits(m, f) && f !in p.seen && m.lead == [] && m.tail == []
    ensures s == MemberThen(m, ParseMember(s, p).rest)
    ensures ParseMember(s, p).value == Progress(Updated(p.request, f, m.value), p.seen + {f})
  {
    hide ParseString, FieldValue, SkipSpace, QuotedThen, ValueThen;
    var key := StringRendered(s, KEY_BUFFER);
    f := FieldOf(Meaning(key)).value;
    var after := ParseString(s, KEY_BUFFER).rest;
    var gap := LeadingSpace(after);
    var colon := SkipSpace(after);
    assert colon == [':'] + colon[1..];
    var room := LeadingSpace(colon[1..]);
    var v := ValueWritten(SkipSpace(colon[1..]), f, p);
    m := Member([], key, gap, room, v, []);
    assert [] + ParseMember(s, p).rest == ParseMember(s, p).rest;
  }

  // ------------------------------------------------------------ all members

  /** The progress after the members, read in order. */
  function AfterMembers(ms: seq<Member>, fs: seq<Field>, p: Progress): Progress
    requires Spells(ms, fs)
  {
    if ms == [] then p
    else
      AfterMembers(ms[1..], fs[1..],
                   Progress(Updated(p.request, fs[0], ms[0].value), p.seen + {fs[0]}))
  }

  predicate AllNew(fs: seq<Field>, seen: set<Field>) {
    forall i :: 0 <= i < |fs| ==> fs[i] !in seen
  }

  lemma SpellsTail(ms: seq<Member>, fs: seq<Field>, seen: set<Field>)
    requires Spells(ms, fs) && ms != [] && AllNew(fs, seen)
    ensures Spells(ms[1..], fs[1..]) && AllNew(fs[1..], seen + {fs[0]})
    ensures Fits(ms[0], fs[0]) && fs[0] !in seen
  {
    hide Fits;
  }

  lemma MembersAreSolid(ms: seq<Member>, t: seq<Byte>)
    requires ms != []
    ensures MembersThen(ms, t) != [] && MembersThen(ms, t)[0] == '"'
  {
  }

  lemma {:induction false} MembersRead(ms: seq<Member>, fs: seq<Field>, t: seq<Byte>, p: Progress)
    requires Spells(ms, fs) && ms != [] && AllNew(fs, p.seen)
    ensures ParseMembers(MembersThen(ms, t), p) == Done(AfterMembers(ms, fs, p), t)
    decreases |ms|
  {
    SpellsTail(ms, fs, p.seen);
    hide ParseMember, MemberThen, Spells, Fits, AllNew, SkipSpace;
    var m, f := ms[0], fs[0];
    var p' := Progress(Updated(p.request, f, m.value), p.seen + {f});
    if |ms| == 1 {
      var u := ['}'] + t;
      MemberRead(m, f, u, p);
      FitsSpace(m, f);
      TailDelimits(m.tail, u);
      assert u[1..] == t;
      assert AfterMembers(ms[1..], fs[1..], p') == p';
    } else {
      var more := MembersThen(ms[1..], t);
      var u := [','] + (ms[1].lead + more);
      MemberRead(m, f, u, p);
      FitsSpace(m, f);
      TailDelimits(m.tail, u);
      assert u[1..] == ms[1].lead + more;
      SpellsTail(ms[1..], fs[1..], p'.seen);
      FitsSpace(ms[1], fs[1]);
      MembersAreSolid(ms[1..], t);
      SpaceSkipped(ms[1].lead, more);
      MembersRead(ms[1..], fs[1..], t, p');
    }
  }

  lemma FitsSpace(m: Member, f: Field)
    requires Fits(m, f)
    ensures AllSpace(m.lead) && AllSpace(m.gap) && AllSpace(m.room) && AllSpace(m.tail)
  {
  }

  /** Members starting without white space in front. */
  lemma {:induction false} MembersWritten(s: seq<Byte>, p: Progress)
    returns (ms: seq<Member>, fs: seq<Field>)
    requires ParseMembers(s, p).Done?
    ensures Spells(ms, fs) && ms != [] && AllNew(fs, p.seen)
    ensures s == MembersThen(ms, ParseMembers(s, p).rest)
    ensures ParseMembers(s, p).value == AfterMembers(ms, fs, p)
    decreases |s|
  {
    hide ParseMember, SkipSpace, MemberThen, Updated, Fits;
    var r := ParseMember(s, p);
    var m, f := MemberWritten(s, p);
    var tail := LeadingSpace(r.rest);
    var u := SkipSpace(r.rest);
    var m' := m.(tail := tail);
    Retailed(m, f, tail, r.rest, u);
    if u[0] == '}' {
      ms, fs := [m'], [f];
      assert u == ['}'] + u[1..];
      assert AfterMembers(ms[1..], fs[1..], r.value) == r.value;
    } else {
      var lead := LeadingSpace(u[1..]);
      var more, gs := MembersWritten(SkipSpace(u[1..]), r.value);
      var more' := more[0 := more[0].(lead := lead)];
      Relead(more, gs, lead, r.value, ParseMembers(s, p).rest);
      assert u == [','] + u[1..];
      ms, fs := [m'] + more', [f] + gs;
      assert ms[1..] == more' && fs[1..] == gs;
      SpellsCons(m', f, more', gs, p.seen);
    }
  }

  /** White space after a value may be counted to the member or to what follows. */
  lemma Retailed(m: Member, f: Field, tail: seq<Byte>, rest: seq<Byte>, u: seq<Byte>)
    requires Fits(m, f) && m.tail == [] && AllSpace(tail) && rest == tail + u
    ensures Fits(m.(tail := tail), f)
    ensures MemberThen(m.(tail := tail), u) == MemberThen(m, rest)
  {
    assert [] + rest == rest;
  }

  lemma Relead(ms: seq<Member>, fs: seq<Field>, lead: seq<Byte>, p: Progress, t: seq<Byte>)
    requires Spells(ms, fs) && ms != [] && AllSpace(lead)
    ensures var ms' := ms[0 := ms[0].(lead := lead)];
            && Spells(ms', fs)
            && MembersThen(ms', t) == MembersThen(ms, t)
            && AfterMembers(ms', fs, p) == AfterMembers(ms, fs, p)
  {
    var ms' := ms[0 := ms[0].(lead := lead)];
    assert ms'[1..] == ms[1..];
    assert Fits(ms[0], fs[0]);
    assert Fits(ms'[0], fs[0]);
    assert MemberThen(ms'[0], t) == MemberThen(ms[0], t);
    assert forall u :: MemberThen(ms'[0], u) == MemberThen(ms[0], u);
  }

  lemma SpellsCons(m: Member, f: Field, ms: seq<Member>, fs: seq<Field>, seen: set<Field>)
    requires Fits(m, f) && Spells(ms, fs) && f !in seen && AllNew(fs, seen + {f})
    ensures Spells([m] + ms, [f] + fs) && AllNew([f] + fs, seen)
  {
    hide Fits;
    var ms', fs' := [m] + ms, [f] + fs;
    forall i | 0 <= i < |ms'|
      ensures Fits(ms'[i], fs'[i])
    {
      if i > 0 {
        assert ms'[i] == ms[i - 1] && fs'[i] == fs[i - 1];
      }
    }
  }

  // ------------------------------------------------------------ what the members add up to

  predicate HasValue(r: Request, f: Field, v: Value)
    requires GoodValue(v, f)
  {
    Updated(r, f, v) == r
  }

  predicate SameField(r: Request, q: Request, f: Field) {
    match f
    case CommandField => r.command == q.command
    case TargetField => r.target == q.target
    case ForwardField => r.forward == q.forward
  }

  lemma {:induction false} SeenAddsUp(ms: seq<Member>, fs: seq<Field>, p: Progress)
    requires Spells(ms, fs)
    ensures AfterMembers(ms, fs, p).seen == p.seen + (set f | f in fs)
    ensures AfterMembers(ms, fs, p).request.valid == p.request.valid
    decreases |ms|
  {
    hide Meaning, NumberFrom, Canonical;
    if ms != [] {
      SpellsTail(ms, fs, {});
      assert fs == [fs[0]] + fs[1..];
      hide Fits;
      SeenAddsUp(ms[1..], fs[1..],
                 Progress(Updated(p.request, fs[0], ms[0].value), p.seen + {fs[0]}));
    }
  }

  /** A field no member names keeps its value. */
  lemma {:induction false} OthersUntouched(
    ms: seq<Member>, fs: seq<Field>, p: Progress, f: Field)
    requires Spells(ms, fs) && f !in fs
    ensures SameField(AfterMembers(ms, fs, p).request, p.request, f)
    decreases |ms|
  {
    hide Meaning, NumberFrom, Canonical;
    if ms != [] {
      SpellsTail(ms, fs, {});
      OthersUntouched(ms[1..], fs[1..],
                      Progress(Updated(p.request, fs[0], ms[0].value), p.seen + {fs[0]}), f);
    }
  }

  lemma ValueCarries(r: Request, q: Request, f: Field, v: Value)
    requires GoodValue(v, f) && HasValue(r, f, v) && SameField(q, r, f)
    ensures HasValue(q, f, v)
  {
    hide Meaning, NumberFrom, Canonical;
  }

  /** A field some member names has that member's value in the end. */
  lemma {:induction false} NamedValueHolds(
    ms: seq<Member>, fs: seq<Field>, p: Progress, i: nat)
    requires Spells(ms, fs) && i < |ms|
    ensures GoodValue(ms[i].value, fs[i])
    ensures HasValue(AfterMembers(ms, fs, p).request, fs[i], ms[i].value)
    decreases |ms|
  {
    SpellsTail(ms, fs, {});
    var p' := Progress(Updated(p.request, fs[0], ms[0].value), p.seen + {fs[0]});
    if i == 0 {
      hide Meaning, NumberFrom, Canonical;
      assert HasValue(p'.request, fs[0], ms[0].value);
      assert fs[0] !in fs[1..];
      OthersUntouched(ms[1..], fs[1..], p', fs[0]);
      ValueCarries(p'.request, AfterMembers(ms, fs, p).request, fs[0], ms[0].value);
    } else {
      hide Fits, GoodValue, Updated, HasValue;
      NamedValueHolds(ms[1..], fs[1..], p', i - 1);
    }
  }

  // ------------------------------------------------------------ the whole body

  lemma SpaceOnly(w: seq<Byte>)
    requires AllSpace(w)
    ensures SkipSpace(w) == []
  {
    SpaceSkipped(w, []);
    assert w + [] == w;
  }

  lemma BodyRead(d: Document, fs: seq<Field>)
    requires AllSpace(d.before) && AllSpace(d.after) && d.members != [] && Spells(d.members, fs)
    ensures ParseObject(TextOf(d)) == Done(AfterMembers(d.members, fs, NOTHING), d.after)
    ensures SkipSpace(d.after) == []
  {
    hide ParseMembers, SkipSpace, MembersThen, AfterMembers;
    var more := MembersThen(d.members, d.after);
    var u := d.members[0].lead + more;
    SpaceSkipped(d.before, ['{'] + u);
    assert (['{'] + u)[1..] == u;
    assert Fits(d.members[0], fs[0]);
    FitsSpace(d.members[0], fs[0]);
    MembersAreSolid(d.members, d.after);
    SpaceSkipped(d.members[0].lead, more);
    MembersRead(d.members, fs, d.after, NOTHING);
    SpaceOnly(d.after);
  }

  lemma BodyWritten(body: seq<Byte>) returns (d: Document, fs: seq<Field>)
    requires ParseObject(body).Done? && SkipSpace(ParseObject(body).rest) == []
    requires ParseObject(body).value.seen != {}
    ensures AllSpace(d.before) && AllSpace(d.after) && d.members != [] && Spells(d.members, fs)
    ensures body == TextOf(d)
    ensures ParseObject(body).value == AfterMembers(d.members, fs, NOTHING)
  {
    hide ParseMembers, SkipSpace, MembersThen, AfterMembers;
    var before := LeadingSpace(body);
    var t := SkipSpace(body);
    assert t == ['{'] + t[1..];
    var lead := LeadingSpace(t[1..]);
    var ms;
    ms, fs := MembersWritten(SkipSpace(t[1..]), NOTHING);
    var after := ParseObject(body).rest;
    var tail := LeadingSpace(after);
    assert tail + [] == tail;
    Relead(ms, fs, lead, NOTHING, after);
    d := Document(before, ms[0 := ms[0].(lead := lead)], after);
  }

  /** What the finished progress holds for a field, in terms of the document. */
  lemma GivenValueHolds(ms: seq<Member>, fs: seq<Field>, f: Field)
    requires Spells(ms, fs)
    ensures var q := AfterMembers(ms, fs, NOTHING);
            && (f in q.seen <==> f in fs)
            && (f !in fs ==> SameField(q.request, NO_REQUEST, f))
            && (f in fs ==> exists v :: Gives(ms, fs, f, v) && GoodValue(v, f) && HasValue(q.request, f, v))
            && (forall v :: Gives(ms, fs, f, v) ==> GoodValue(v, f) && HasValue(q.request, f, v))
  {
    SeenAddsUp(ms, fs, NOTHING);
    if f !in fs {
      OthersUntouched(ms, fs, NOTHING, f);
    }
    hide AfterMembers, Updated, GoodValue, Spells, HasValue;
    forall v | Gives(ms, fs, f, v)
      ensures GoodValue(v, f) && HasValue(AfterMembers(ms, fs, NOTHING).request, f, v)
    {
      var i :| 0 <= i < |ms| && fs[i] == f && ms[i].value == v;
      NamedValueHolds(ms, fs, NOTHING, i);
    }
    if f in fs {
      var i :| 0 <= i < |fs| && fs[i] == f;
      SameLength(ms, fs);
      assert Gives(ms, fs, f, ms[i].value);
    }
  }

  lemma SameLength(ms: seq<Member>, fs: seq<Field>)
    requires Spells(ms, fs)
    ensures |ms| == |fs|
  {
  }

  /** Only a command's own field in a document means it is the only member. */
  lemma LoneField(fs: seq<Field>)
    requires forall i, j :: 0 <= i < j < |fs| ==> fs[i] != fs[j]
    requires CommandField in fs && TargetField !in fs && ForwardField !in fs
    ensures fs == [CommandField]
  {
    forall i | 0 <= i < |fs|
      ensures fs[i] == CommandField && i == 0
    {
      assert fs[i] in fs && fs[0] in fs;
    }
    assert fs[|fs| - 1] == CommandField;
  }

  /** Every rendering of a request that fits the limit decodes to exactly it. */
  lemma RenderedIsDecoded(d: Document, fs: seq<Field>, r: Request)
    requires d.members != [] && Renders(d, fs, r) && |TextOf(d)| <= MAX_BODY
    ensures Decode(TextOf(d)) == (Ok, r)
  {
    BodyRead(d, fs);
    GivenValueHolds(d.members, fs, CommandField);
    GivenValueHolds(d.members, fs, TargetField);
    GivenValueHolds(d.members, fs, ForwardField);
    SeenAddsUp(d.members, fs, NOTHING);
    hide TextOf, ParseObject, SkipSpace, AfterMembers, Spells, Meaning, NumberFrom;
    forall v, f | Gives(d.members, fs, f, v)
      ensures f in fs
    {
    }
    assert Gives(d.members, fs, ForwardField, Truth(r.forward)) ==> ForwardField in fs;
  }

  lemma DecodeSucceeds(body: seq<Byte>, r: Request)
    requires Decode(body) == (Ok, r)
    ensures |body| <= MAX_BODY && ParseObject(body).Done?
    ensures SkipSpace(ParseObject(body).rest) == []
    ensures Conclude(ParseObject(body).value) == Ok
    ensures r == ParseObject(body).value.request.(valid := true)
  {
    hide ParseObject, SkipSpace, Conclude;
  }

  lemma ConcludesOnlyWithCommand(p: Progress)
    requires Conclude(p) == Ok
    ensures CommandField in p.seen && p.seen != {}
    ensures p.request.command == Some(SetTarget) ==> TargetField in p.seen && ForwardField in p.seen
    ensures p.request.command != Some(SetTarget) ==> TargetField !in p.seen && ForwardField !in p.seen
  {
  }

  /** And what decodes is a rendering of the request it decodes to. */
  lemma DecodedIsRendered(body: seq<Byte>, r: Request) returns (d: Document, fs: seq<Field>)
    requires Decode(body) == (Ok, r)
    ensures d.members != [] && body == TextOf(d) && Renders(d, fs, r) && |body| <= MAX_BODY
  {
    hide Decode, TextOf, ParseObject, SkipSpace, AfterMembers, Meaning, NumberFrom, Fits, Conclude;
    DecodeSucceeds(body, r);
    ConcludesOnlyWithCommand(ParseObject(body).value);
    d, fs := BodyWritten(body);
    GivenValueHolds(d.members, fs, CommandField);
    GivenValueHolds(d.members, fs, TargetField);
    GivenValueHolds(d.members, fs, ForwardField);
    SeenAddsUp(d.members, fs, NOTHING);
    if TargetField !in fs && ForwardField !in fs {
      LoneField(fs);
    }
  }

  /** The decoder accepts a body with a request exactly when the body is one of the
      request's renderings in at most 192 bytes. */
  lemma DecodesExactly(body: seq<Byte>, r: Request)
    ensures Decode(body) == (Ok, r) <==>
              && |body| <= 192
              && exists d: Document, fs :: d.members != [] && body == TextOf(d) && Renders(d, fs, r)
  {
    hide Decode, TextOf, Renders;
    if Decode(body) == (Ok, r) {
      var d, fs := DecodedIsRendered(body, r);
    }
    forall d: Document, fs | d.members != [] && body == TextOf(d) && Renders(d, fs, r) && |body| <= MAX_BODY
      ensures Decode(body) == (Ok, r)
    {
      RenderedIsDecoded(d, fs, r);
    }
  }

  /** Everything that is not such a rendering leaves a request nobody may dispatch. */
  lemma FailureIsInert(body: seq<Byte>)
    ensures var (status, request) := Decode(body);
            && (status != Ok ==> request == NO_REQUEST)
            && (request.valid <==> status == Ok)
            && (status == Ok ==> request.command.Some? && request.target <= MAX_TARGET)
  {
    var (status, request) := Decode(body);
    if status == Ok {
      var d, fs := DecodedIsRendered(body, request);
      assert request.target <= MAX_TARGET;
    }
  }

  // ------------------------------------------------------------ writing a request

  function Plain(name: seq<Byte>): seq<Piece> {
    if name == [] then [] else [Raw(name[0])] + Plain(name[1..])
  }

  lemma {:induction false} PlainMeans(name: seq<Byte>)
    requires forall i :: 0 <= i < |name| ==> GoodPiece(Raw(name[i]))
    ensures GoodPieces(Plain(name)) && Meaning(Plain(name)) == name
    decreases |name|
  {
    if name != [] {
      PlainMeans(name[1..]);
      assert Plain(name)[1..] == Plain(name[1..]);
      assert name == [name[0]] + name[1..];
    }
  }

  lemma {:induction false} PlainLength(name: seq<Byte>, t: seq<Byte>)
    ensures |TextThen(Plain(name), t)| == |name| + |t|
    decreases |name|
  {
    if name != [] {
      PlainLength(name[1..], t);
      assert Plain(name)[1..] == Plain(name[1..]);
    }
  }

  function Decimal(n: nat): (d: seq<Byte>)
    ensures d != [] && forall i :: 0 <= i < |d| ==> IsDigit(d[i])
  {
    var last := [('0' as int + n % 10) as char];
    if n < 10 then last else Decimal(n / 10) + last
  }

  lemma {:induction false} NumberAppend(d: seq<Byte>, c: Byte, value: nat)
    requires IsDigit(c) && forall i :: 0 <= i < |d| ==> IsDigit(d[i])
    ensures NumberFrom(d + [c], value) == NumberFrom(d, value) * 10 + DigitValue(c)
    decreases |d|
  {
    if d == [] {
      assert [] + [c] == [c];
      assert NumberFrom([c][1..], value * 10 + DigitValue(c)) == value * 10 + DigitValue(c);
    } else {
      assert (d + [c])[1..] == d[1..] + [c];
      NumberAppend(d[1..], c, value * 10 + DigitValue(d[0]));
    }
  }

  lemma {:induction false} DecimalReads(n: nat)
    ensures NumberFrom(Decimal(n), 0) == n && (Decimal(n)[0] == '0' <==> n == 0)
    ensures Canonical(Decimal(n))
  {
    var last := ('0' as int + n % 10) as char;
    if n < 10 {
      assert NumberFrom([last][1..], DigitValue(last)) == DigitValue(last);
    } else {
      DecimalReads(n / 10);
      NumberAppend(Decimal(n / 10), last, 0);
    }
  }

  function Power10(k: nat): nat {
    if k == 0 then 1 else 10 * Power10(k - 1)
  }

  lemma {:induction false} DecimalIsShort(n: nat, k: nat)
    requires 1 <= k && n < Power10(k)
    ensures |Decimal(n)| <= k
    decreases k
  {
    if n >= 10 {
      assert Power10(1) == 10;
      DecimalIsShort(n / 10, k - 1);
    }
  }

  predicate Dispatchable(r: Request) {
    && r.valid && r.command.Some?
    && (if r.command == Some(SetTarget) then r.target <= MAX_TARGET
        else r.target == 0 && !r.forward)
  }

  function KeyOf(f: Field): (key: seq<Byte>)
    ensures FieldOf(key) == Some(f) && |key| <= 16
    ensures forall i :: 0 <= i < |key| ==> GoodPiece(Raw(key[i]))
  {
    match f
    case CommandField => "command"
    case TargetField => "target_rpm_milli"
    case ForwardField => "forward"
  }

  function NameOf(c: Command): (name: seq<Byte>)
    ensures CommandOf(name) == Some(c) && |name| <= 11
    ensures forall i :: 0 <= i < |name| ==> GoodPiece(Raw(name[i]))
  {
    match c
    case SetTarget => "set_target"
    case StartPump => "start"
    case StopNormal => "stop"
    case Unlock => "unlock"
    case EStop => "estop"
    case ResetEStop => "reset_estop"
    case Recover => "recover"
  }

  function Bare(f: Field, v: Value): Member {
    Member([], Plain(KeyOf(f)), [], [], v, [])
  }

  /** The shortest rendering, as a client would write it. */
  function Written(r: Request): (ms: seq<Member>)
    requires Dispatchable(r)
    ensures ms != []
  {
    var command := Bare(CommandField, Word(Plain(NameOf(r.command.value))));
    if r.command != Some(SetTarget) then [command]
    else
      [command, Bare(TargetField, Number(Decimal(r.target))),
       Bare(ForwardField, Truth(r.forward))]
  }

  function WrittenFields(r: Request): seq<Field> {
    if r.command != Some(SetTarget) then [CommandField] else [CommandField, TargetField, ForwardField]
  }

  lemma BareFits(f: Field, v: Value)
    requires GoodValue(v, f)
    ensures Fits(Bare(f, v), f)
  {
    PlainMeans(KeyOf(f));
  }

  lemma BareLength(f: Field, v: Value, t: seq<Byte>)
    ensures |MemberThen(Bare(f, v), t)| == |KeyOf(f)| + 3 + |ValueThen(v, [] + t)|
  {
    hide KeyOf;
    var rest := [] + ([':'] + ([] + ValueThen(v, [] + t)));
    PlainLength(KeyOf(f), ['"'] + rest);
  }

  lemma NameLength(c: Command, t: seq<Byte>)
    ensures |ValueThen(Word(Plain(NameOf(c))), t)| <= 13 + |t|
    ensures GoodValue(Word(Plain(NameOf(c))), CommandField)
    ensures CommandOf(Meaning(Plain(NameOf(c)))) == Some(c)
  {
    PlainLength(NameOf(c), ['"'] + t);
    PlainMeans(NameOf(c));
  }

  lemma WrittenIsShort(r: Request)
    requires Dispatchable(r)
    ensures |TextOf(Document([], Written(r), []))| <= MAX_BODY
  {
    hide KeyOf, NameOf, MemberThen, ValueThen, Plain, Decimal;
    var c, ms := r.command.value, Written(r);
    var word := Word(Plain(NameOf(c)));
    if r.command != Some(SetTarget) {
      BareLength(CommandField, word, ['}'] + []);
      NameLength(c, [] + (['}'] + []));
    } else {
      var d := Number(Decimal(r.target));
      var t2 := ['}'] + [];
      var m2 := MembersThen(ms[2..], []);
      BareLength(ForwardField, Truth(r.forward), t2);
      TruthLength(r.forward, [] + t2);
      var t1 := [','] + ([] + m2);
      var m1 := MembersThen(ms[1..], []);
      assert ms[1..][1..] == ms[2..];
      BareLength(TargetField, d, t1);
      NumberLength(r.target, [] + t1);
      var t0 := [','] + ([] + m1);
      BareLength(CommandField, word, t0);
      NameLength(c, [] + t0);
    }
  }

  lemma TruthLength(b: bool, t: seq<Byte>)
    ensures |ValueThen(Truth(b), t)| <= 5 + |t|
  {
  }

  lemma NumberLength(n: nat, t: seq<Byte>)
    requires n <= MAX_TARGET
    ensures |ValueThen(Number(Decimal(n)), t)| <= 6 + |t|
  {
    assert Power10(6) == 1_000_000;
    DecimalIsShort(n, 6);
  }

  lemma GivesAt(ms: seq<Member>, fs: seq<Field>, i: nat)
    requires |ms| == |fs| && i < |ms|
    ensures Gives(ms, fs, fs[i], ms[i].value)
  {
  }

  /** The members a request is written with, field by field. */
  lemma WrittenSpells(r: Request)
    requires Dispatchable(r)
    ensures Spells(Written(r), WrittenFields(r))
    ensures Written(r)[0].value == Word(Plain(NameOf(r.command.value)))
    ensures r.command == Some(SetTarget) ==>
              && Written(r)[1].value == Number(Decimal(r.target))
              && Written(r)[2].value == Truth(r.forward)
  {
    hide KeyOf, NameOf, Plain, Decimal, Fits, Meaning, Canonical, NumberFrom;
    NameLength(r.command.value, []);
    BareFits(CommandField, Word(Plain(NameOf(r.command.value))));
    if r.command == Some(SetTarget) {
      DecimalReads(r.target);
      BareFits(TargetField, Number(Decimal(r.target)));
      BareFits(ForwardField, Truth(r.forward));
    }
  }

  lemma WrittenRenders(r: Request)
    requires Dispatchable(r)
    ensures Renders(Document([], Written(r), []), WrittenFields(r), r)
  {
    hide KeyOf, NameOf, Plain, Decimal, Spells, Meaning, Canonical, NumberFrom, Gives, Written;
    var ms, fs := Written(r), WrittenFields(r);
    WrittenSpells(r);
    SameLength(ms, fs);
    NameLength(r.command.value, []);
    DecimalReads(r.target);
    GivesAt(ms, fs, 0);
    if r.command == Some(SetTarget) {
      GivesAt(ms, fs, 1);
      GivesAt(ms, fs, 2);
    }
  }

  /** Every dispatchable request has a rendering, and it is read back as the request. */
  lemma WrittenIsDecoded(r: Request)
    requires Dispatchable(r)
    ensures Decode(TextOf(Document([], Written(r), []))) == (Ok, r)
  {
    hide TextOf, Renders, Decode;
    WrittenIsShort(r);
    WrittenRenders(r);
    RenderedIsDecoded(Document([], Written(r), []), WrittenFields(r), r);
  }
}
