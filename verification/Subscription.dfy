/** What a machine may read and publish over MQTT. */
module Subscription {

  const ID_LIMIT: nat := 32
  const SCOPE_LIMIT: nat := 97
  const TOPIC_LIMIT: nat := 160

  // ------------------------------------------------------------ topics

  predicate IdChar(c: char) {
    'a' <= c <= 'z' || 'A' <= c <= 'Z' || '0' <= c <= '9' || c == '-' || c == '_'
  }

  predicate ValidId(id: string) {
    1 <= |id| <= ID_LIMIT && forall i :: 0 <= i < |id| ==> IdChar(id[i])
  }

  function Root(client: string, unit: string): string {
    "argus/" + client + "/" + unit
  }

  const CATEGORIES: seq<string> := ["metadata", "state", "status", "telemetry", "event"]

  datatype Action =
    | SetTarget | StartPump | StopPump | Unlock | EStop | ResetEStop | Recover
    | Heartbeat | RequestAuthority | ReleaseAuthority

  function Leaf(a: Action): string {
    match a
    case SetTarget => "/command/pump1/set_target_rpm_milli"
    case StartPump => "/command/pump1/start"
    case StopPump => "/command/pump1/stop"
    case Unlock => "/command/pump1/unlock"
    case EStop => "/command/pump1/e_stop"
    case ResetEStop => "/command/pump1/reset_e_stop"
    case Recover => "/command/pump1/recover"
    case Heartbeat => "/status/supervisor/heartbeat"
    case RequestAuthority => "/command/core/request_authority"
    case ReleaseAuthority => "/command/core/release_authority"
  }

  /** The exact topic of an action. */
  function TopicOf(root: string, a: Action): string {
    root + Leaf(a)
  }

  /** No topic stands for two actions, so the order of the comparisons is no matter. */
  lemma TopicsAreDistinct(root: string, a: Action, b: Action)
    requires TopicOf(root, a) == TopicOf(root, b)
    ensures a == b
  {
    assert TopicOf(root, a)[|root|..] == Leaf(a) && TopicOf(root, b)[|root|..] == Leaf(b);
  }

  // ------------------------------------------------------------ matching

  /** The rest of a topic after its current level. */
  function SkipLevel(t: string): string {
    if t == "" || t[0] == '/' then t else SkipLevel(t[1..])
  }

  /** The broker's own matcher, narrower than section 4.7 of MQTT 3.1.1. */
  predicate Matches(filter: string, topic: string)
    decreases |filter|, |topic|
  {
    if filter == "" then topic == ""
    else if topic == "" then filter == "#"
    else if filter[0] == '#' then |filter| == 1
    else if filter[0] == '+' then Matches(filter[1..], SkipLevel(topic))
    else filter[0] == topic[0] && Matches(filter[1..], topic[1..])
  }

  method TopicMatches(filter: string, topic: string) returns (matches: bool)
    ensures matches == Matches(filter, topic)
  {
    var i, j := 0, 0;
    while i < |filter| && j < |topic|
      invariant 0 <= i <= |filter| && 0 <= j <= |topic|
      invariant Matches(filter, topic) == Matches(filter[i..], topic[j..])
      decreases |filter| - i
    {
      if filter[i] == '#' {
        return i + 1 == |filter|;
      }
      if filter[i] == '+' {
        ghost var start := j;
        while j < |topic| && topic[j] != '/'
          invariant start <= j <= |topic|
          invariant SkipLevel(topic[start..]) == SkipLevel(topic[j..])
        {
          j := j + 1;
        }
      } else {
        if filter[i] != topic[j] {
          return false;
        }
        j := j + 1;
      }
      i := i + 1;
    }
    if i < |filter| && filter[i] == '#' && i + 1 == |filter| {
      return true;
    }
    return i == |filter| && j == |topic|;
  }

  // ------------------------------------------------------------ permission

  predicate WildcardFree(s: string) {
    forall i :: 0 <= i < |s| ==> s[i] != '#' && s[i] != '+'
  }

  /** One read category as a whole, or one fully named topic in it. */
  predicate ApprovedRest(rest: string) {
    rest == "#" || (rest != "" && WildcardFree(rest))
  }

  function CategoryPrefix(root: string, i: nat): string
    requires i < |CATEGORIES|
  {
    root + "/" + CATEGORIES[i] + "/"
  }

  predicate Approved(root: string, filter: string) {
    exists i :: 0 <= i < |CATEGORIES| && CategoryPrefix(root, i) <= filter
                && ApprovedRest(filter[|CategoryPrefix(root, i)|..])
  }

  lemma PrefixTail(p: string, q: string, s: string)
    requires |p| <= |s|
    ensures p + q <= s <==> p <= s && q <= s[|p|..]
  {
    if p <= s && q <= s[|p|..] {
      assert s == p + q + s[|p| + |q|..];
    }
    if p + q <= s {
      assert s[..|p|] == p && s[|p|..][..|q|] == q;
    }
  }

  /** Only one category fits a filter, so the scan may stop at the first: the fifth
      letters differ. */
  lemma OneCategory(leaf: string, i: nat, j: nat)
    requires i < |CATEGORIES| && j < |CATEGORIES|
    requires CATEGORIES[i] + "/" <= leaf && CATEGORIES[j] + "/" <= leaf
    ensures i == j
  {
    assert forall k :: 0 <= k < |CATEGORIES| ==> |CATEGORIES[k]| >= 5;
    assert leaf[4] == (CATEGORIES[i] + "/")[4] == CATEGORIES[i][4];
    assert leaf[4] == (CATEGORIES[j] + "/")[4] == CATEGORIES[j][4];
  }

  lemma PrefixChar(prefix: string, s: string, at: nat, i: nat)
    requires at <= |s| && i < |prefix|
    ensures prefix <= s[at..] ==> at + i < |s| && s[at + i] == prefix[i]
  {
    if prefix <= s[at..] {
      assert s[at..][i] == prefix[i];
    }
  }

  /** Does `s` begin with `prefix` at position `at`? */
  method HasPrefixAt(s: string, at: nat, prefix: string) returns (has: bool)
    requires at <= |s|
    ensures has == (prefix <= s[at..])
  {
    var i := 0;
    while i < |prefix|
      invariant 0 <= i <= |prefix| && at + i <= |s|
      invariant prefix[..i] == s[at..at + i]
    {
      PrefixChar(prefix, s, at, i);
      if at + i == |s| || s[at + i] != prefix[i] {
        return false;
      }
      i := i + 1;
    }
    assert s[at..][..|prefix|] == prefix[..|prefix|] == prefix;
    return true;
  }

  method HasWildcard(s: string, at: nat) returns (has: bool)
    requires at <= |s|
    ensures has == !WildcardFree(s[at..])
  {
    var i := at;
    while i < |s|
      invariant at <= i <= |s|
      invariant forall k :: 0 <= k < i - at ==> s[at..][k] != '#' && s[at..][k] != '+'
    {
      if s[i] == '#' || s[i] == '+' {
        assert s[at..][i - at] == s[i];
        return true;
      }
      i := i + 1;
    }
    return false;
  }

  lemma CategoryPrefixIn(root: string, i: nat, filter: string)
    requires i < |CATEGORIES| && root + "/" <= filter
    ensures CategoryPrefix(root, i) <= filter
       <==> CATEGORIES[i] + "/" <= filter[|root| + 1..]
  {
    assert CategoryPrefix(root, i) == (root + "/") + (CATEGORIES[i] + "/");
    PrefixTail(root + "/", CATEGORIES[i] + "/", filter);
  }

  lemma ApprovedNeedsRoot(root: string, filter: string)
    ensures Approved(root, filter) ==> root + "/" <= filter
  {
    forall i | 0 <= i < |CATEGORIES| && CategoryPrefix(root, i) <= filter
      ensures root + "/" <= filter
    {
      assert CategoryPrefix(root, i) == (root + "/") + (CATEGORIES[i] + "/");
      PrefixTail(root + "/", CATEGORIES[i] + "/", filter);
    }
  }

  method ApprovedReadFilter(root: string, filter: string) returns (approved: bool)
    ensures approved == Approved(root, filter)
  {
    ApprovedNeedsRoot(root, filter);
    var rooted := HasPrefixAt(filter, 0, root + "/");
    assert filter[0..] == filter;
    if !rooted {
      return false;
    }
    var at := |root| + 1;
    var i := 0;
    while i < |CATEGORIES|
      invariant 0 <= i <= |CATEGORIES|
      invariant forall k :: 0 <= k < i ==> !(CategoryPrefix(root, k) <= filter)
    {
      CategoryPrefixIn(root, i, filter);
      var fits := HasPrefixAt(filter, at, CATEGORIES[i] + "/");
      if fits {
        forall k | 0 <= k < |CATEGORIES| && CategoryPrefix(root, k) <= filter
          ensures k == i
        {
          CategoryPrefixIn(root, k, filter);
          OneCategory(filter[at..], i, k);
        }
        var rest := at + |CATEGORIES[i]| + 1;
        assert rest == |CategoryPrefix(root, i)|;
        if filter[rest..] == "#" {
          return true;
        }
        var wild := HasWildcard(filter, rest);
        return !wild && rest < |filter|;
      }
      i := i + 1;
    }
    return false;
  }

  predicate BoundedText(s: string, capacity: nat) {
    1 <= |s| < capacity && forall i :: 0 <= i < |s| ==> ' ' <= s[i] <= '~'
  }

  method CheckText(s: string, capacity: nat) returns (bounded: bool)
    ensures bounded == BoundedText(s, capacity)
  {
    if |s| >= capacity || |s| == 0 {
      return false;
    }
    for i := 0 to |s|
      invariant forall k :: 0 <= k < i ==> ' ' <= s[k] <= '~'
    {
      if s[i] < ' ' || s[i] > '~' {
        return false;
      }
    }
    return true;
  }

  /** `topic` is the scope or lies below it. */
  predicate Under(scope: string, topic: string) {
    scope == "*" || topic == scope || scope + "/" <= topic
  }

  method TopicScopeContains(scope: string, topic: string) returns (contains: bool)
    ensures contains == (BoundedText(scope, SCOPE_LIMIT) && BoundedText(topic, TOPIC_LIMIT)
                         && Under(scope, topic))
  {
    var scopeBounded := CheckText(scope, SCOPE_LIMIT);
    var topicBounded := CheckText(topic, TOPIC_LIMIT);
    if !scopeBounded || !topicBounded {
      return false;
    }
    if scope == "*" {
      return true;
    }
    var has := HasPrefixAt(topic, 0, scope);
    assert topic[0..] == topic;
    if !has {
      return false;
    }
    PrefixTail(scope, "/", topic);
    return |scope| == |topic| || topic[|scope|] == '/';
  }

  datatype Permission =
    | ViewStatus | RequestControl | SoftwareEStop | ResetSoftwareEStop | Motion | Other(bit: nat)

  predicate SubscriptionAllowed(
    root: string, permissions: set<Permission>, scope: string, filter: string)
  {
    && ViewStatus in permissions
    && Approved(root, filter)
    && BoundedText(scope, SCOPE_LIMIT) && BoundedText(filter, TOPIC_LIMIT)
    && Under(scope, filter)
  }

  function Required(a: Action): Permission {
    match a
    case Heartbeat | RequestAuthority | ReleaseAuthority => RequestControl
    case EStop => SoftwareEStop
    case ResetEStop => ResetSoftwareEStop
    case _ => Motion
  }

  predicate PublishAllowed(
    root: string, permissions: set<Permission>, scope: string, topic: string, a: Action)
  {
    && BoundedText(scope, SCOPE_LIMIT) && BoundedText(topic, TOPIC_LIMIT)
    && Under(scope, topic)
    && topic == TopicOf(root, a) && Required(a) in permissions
  }

  // ------------------------------------------------------------ confinement

  lemma {:induction false} LiteralPrefixMatches(p: string, f: string, t: string)
    requires WildcardFree(p)
    ensures Matches(p + f, t) <==> p <= t && Matches(f, t[|p|..])
    decreases |p|
  {
    if p == "" {
      assert p + f == f && t[0..] == t;
    } else {
      assert (p + f)[0] == p[0] && (p + f)[1..] == p[1..] + f;
      if t != "" {
        LiteralPrefixMatches(p[1..], f, t[1..]);
        PrefixTail(p[..1], p[1..], t);
        assert p == p[..1] + p[1..];
        assert p[..1] <= t <==> p[0] == t[0];
        assert p[1..] <= t[1..] ==> t[1..][|p| - 1..] == t[|p|..];
      }
    }
  }

  /** The matcher on approved filters: a literal filter matches itself, a category
      filter everything that begins with the category. */
  lemma ApprovedMatchesExactly(p: string, filter: string, topic: string)
    requires WildcardFree(p) && p <= filter && ApprovedRest(filter[|p|..])
    ensures Matches(filter, topic) <==>
              if filter[|p|..] == "#" then p <= topic else topic == filter
  {
    var rest := filter[|p|..];
    assert filter == p + rest;
    LiteralPrefixMatches(p, rest, topic);
    if rest != "#" {
      assert WildcardFree(filter);
      LiteralPrefixMatches(filter, "", topic);
      assert filter + "" == filter;
      if filter <= topic && topic[|filter|..] == "" {
        assert topic == topic[..|filter|];
      }
    }
  }

  lemma RootIsWildcardFree(client: string, unit: string)
    requires ValidId(client) && ValidId(unit)
    ensures WildcardFree(Root(client, unit))
    ensures forall i :: 0 <= i < |CATEGORIES| ==>
              WildcardFree(CategoryPrefix(Root(client, unit), i))
  {
    assert WildcardFree("argus/") && WildcardFree("/");
    assert forall i :: 0 <= i < |CATEGORIES| ==> WildcardFree(CATEGORIES[i]);
  }

  /** Below a wildcard-free scope a category filter reaches nothing outside it. */
  lemma ScopeCarriesOver(p: string, scope: string, topic: string)
    requires WildcardFree(scope) && Under(scope, p + "#") && p <= topic
    ensures Under(scope, topic)
  {
    var filter := p + "#";
    if scope != "*" {
      assert filter[|p|] == '#';
      assert scope + "/" <= filter && (scope + "/")[|scope|] == '/';
      assert filter[|scope|] == '/';
      assert filter[..|p|] == p;
      assert scope + "/" <= p;
    }
  }

  /** Everything an allowed subscription can deliver is in one of the unit's five read
      categories and under the principal's scope, and is no command. */
  lemma Confinement(
    client: string, unit: string, permissions: set<Permission>, scope: string,
    filter: string, topic: string)
    requires ValidId(client) && ValidId(unit) && WildcardFree(scope)
    requires SubscriptionAllowed(Root(client, unit), permissions, scope, filter)
    requires Matches(filter, topic)
    ensures exists i :: 0 <= i < |CATEGORIES| && CategoryPrefix(Root(client, unit), i) <= topic
    ensures Under(scope, topic)
    ensures !(Root(client, unit) + "/command/" <= topic)
    ensures ViewStatus in permissions
  {
    var root := Root(client, unit);
    RootIsWildcardFree(client, unit);
    var i :| 0 <= i < |CATEGORIES| && CategoryPrefix(root, i) <= filter
             && ApprovedRest(filter[|CategoryPrefix(root, i)|..]);
    var p := CategoryPrefix(root, i);
    ApprovedMatchesExactly(p, filter, topic);
    assert p <= topic;
    if filter[|p|..] == "#" {
      assert filter == p + "#";
      ScopeCarriesOver(p, scope, topic);
    }
    NoCategoryIsCommand(root, i, topic);
  }

  lemma NoCategoryIsCommand(root: string, i: nat, topic: string)
    requires i < |CATEGORIES| && CategoryPrefix(root, i) <= topic
    ensures !(root + "/command/" <= topic)
  {
    assert CategoryPrefix(root, i)[|root| + 1] == CATEGORIES[i][0];
    assert (root + "/command/")[|root| + 1] == 'c';
    assert topic[|root| + 1] == CATEGORIES[i][0] != 'c';
  }

  lemma CommandLeaf(a: Action)
    ensures "/command/" <= Leaf(a) <==> a != Heartbeat
  {
    assert Leaf(Heartbeat)[1] == 's';
  }

  /** No machine can read what machines publish, heartbeats excepted. */
  lemma CommandsAreNotReadable(
    client: string, unit: string, readers: set<Permission>, scope: string, filter: string,
    writers: set<Permission>, theirScope: string, topic: string, a: Action)
    requires ValidId(client) && ValidId(unit) && WildcardFree(scope)
    requires SubscriptionAllowed(Root(client, unit), readers, scope, filter)
    requires PublishAllowed(Root(client, unit), writers, theirScope, topic, a)
    requires Matches(filter, topic)
    ensures a == Heartbeat
  {
    Confinement(client, unit, readers, scope, filter, topic);
    CommandLeaf(a);
    PrefixTail(Root(client, unit), "/command/", topic);
  }

  // ------------------------------------------------------------ level by level

  /** What comes before the first slash. */
  function FirstLevel(t: string): (first: string)
    ensures |first| <= |t|
  {
    if t == "" || t[0] == '/' then "" else [t[0]] + FirstLevel(t[1..])
  }

  function Levels(t: string): seq<string>
    decreases |t|
  {
    var first := FirstLevel(t);
    if |first| == |t| then [first] else [first] + Levels(t[|first| + 1..])
  }

  /** A wildcard is a level of its own, the multi-level one the last. */
  predicate LevelsValid(filter: seq<string>) {
    forall k :: 0 <= k < |filter| ==>
      WildcardFree(filter[k]) || filter[k] == "+" || (filter[k] == "#" && k == |filter| - 1)
  }

  /** Section 4.7 of MQTT 3.1.1, but for two differences: "#" needs a level to stand for,
      and "+" does not stand for an empty last level. */
  predicate LevelsMatch(filter: seq<string>, topic: seq<string>) {
    if filter == [] || topic == [] then filter == [] && topic == []
    else if filter == ["#"] then true
    else
      && (if filter[0] == "+" then topic != [""] else filter[0] == topic[0])
      && LevelsMatch(filter[1..], topic[1..])
  }

  lemma {:induction false} LevelSplits(t: string)
    ensures t == FirstLevel(t) + SkipLevel(t)
    ensures SkipLevel(t) == "" || SkipLevel(t)[0] == '/'
    ensures '/' !in FirstLevel(t)
  {
    if t != "" && t[0] != '/' {
      var first, rest := FirstLevel(t[1..]), SkipLevel(t[1..]);
      assert FirstLevel(t) == [t[0]] + first && SkipLevel(t) == rest;
      LevelSplits(t[1..]);
      hide FirstLevel, SkipLevel;
      assert t == [t[0]] + t[1..];
      assert [t[0]] + (first + rest) == [t[0]] + first + rest;
    }
  }

  lemma {:induction false} LevelBefore(p: string, rest: string)
    requires '/' !in p && (rest == "" || rest[0] == '/')
    ensures FirstLevel(p + rest) == p
  {
    if p == "" {
      assert p + rest == rest;
    } else {
      assert p[0] in p && forall c :: c in p[1..] ==> c in p;
      assert (p + rest)[1..] == p[1..] + rest;
      LevelBefore(p[1..], rest);
    }
  }

  /** A topic begins with a whole level and a slash exactly when that is its first level and
      another one follows. */
  lemma BeginsWithLevel(p: string, t: string)
    requires '/' !in p
    ensures p + "/" <= t <==> FirstLevel(t) == p && |t| > |p|
  {
    hide FirstLevel, SkipLevel;
    LevelSplits(t);
    if p + "/" <= t {
      var rest := t[|p|..];
      assert rest[0] == (p + "/")[|p|] == '/';
      assert t == p + rest;
      LevelBefore(p, rest);
    }
    if FirstLevel(t) == p && |t| > |p| {
      assert t[|p|] == SkipLevel(t)[0] == '/';
      assert t[..|p|] == p;
    }
  }

  lemma IsOneLevel(p: string, t: string)
    requires '/' !in p
    ensures p == t <==> FirstLevel(t) == p && |t| == |p|
  {
    hide FirstLevel, SkipLevel;
    LevelSplits(t);
    if p == t {
      LevelBefore(p, "");
      assert p + "" == p;
    }
    if FirstLevel(t) == p && |t| == |p| {
      assert t == p + "";
    }
  }

  lemma LastLevelMatches(filter: string, topic: string)
    requires |FirstLevel(filter)| == |filter| && LevelsValid([filter])
    ensures Matches(filter, topic) <==> LevelsMatch([filter], Levels(topic))
  {
    LevelSplits(filter);
    LevelSplits(topic);
    assert FirstLevel(filter) == filter;
    assert [filter][0] == filter;
    if filter == "+" {
      assert filter[1..] == "";
    } else if filter != "#" {
      LiteralPrefixMatches(filter, "", topic);
      assert filter + "" == filter;
      IsOneLevel(filter, topic);
      assert filter <= topic && topic[|filter|..] == "" ==> topic == topic[..|filter|] == filter;
    }
  }

  lemma PlusMatches(rest: string, topic: string)
    ensures var t := FirstLevel(topic);
            Matches("+/" + rest, topic) <==>
              |t| < |topic| && Matches(rest, topic[|t| + 1..])
  {
    LevelSplits(topic);
    hide FirstLevel, SkipLevel;
    var u, t, slashed := SkipLevel(topic), FirstLevel(topic), "/" + rest;
    assert ("+/" + rest)[1..] == slashed && slashed[1..] == rest && slashed[0] == '/';
    assert topic == "" ==> u == "";
    assert topic != "" ==> (Matches("+/" + rest, topic) <==> Matches(slashed, u));
    assert u == "" ==> !Matches(slashed, u);
    assert u != "" ==> (Matches(slashed, u) <==> Matches(rest, u[1..]));
    assert u != "" ==> u[1..] == topic[|t| + 1..];
  }

  lemma LiteralMatches(f: string, rest: string, topic: string)
    requires WildcardFree(f) && '/' !in f
    ensures var t := FirstLevel(topic);
            Matches(f + "/" + rest, topic) <==>
              |t| < |topic| && f == t && Matches(rest, topic[|t| + 1..])
  {
    hide FirstLevel, Matches;
    BeginsWithLevel(f, topic);
    LiteralPrefixMatches(f + "/", rest, topic);
  }

  lemma FirstLevelMatches(f: string, rest: string, topic: string)
    requires '/' !in f && (WildcardFree(f) || f == "+")
    ensures var t := FirstLevel(topic);
            Matches(f + "/" + rest, topic) <==>
              |t| < |topic| && (f == "+" || f == t) && Matches(rest, topic[|t| + 1..])
  {
    hide FirstLevel, SkipLevel, Matches;
    if f == "+" {
      assert f + "/" + rest == "+/" + rest;
      PlusMatches(rest, topic);
    } else {
      LiteralMatches(f, rest, topic);
    }
  }

  /** On filters whose wildcards are levels of their own, the matcher matches level by
      level. */
  lemma {:induction false} MatchesByLevels(filter: string, topic: string)
    requires LevelsValid(Levels(filter))
    ensures Matches(filter, topic) <==> LevelsMatch(Levels(filter), Levels(topic))
    decreases |filter|
  {
    hide Matches, SkipLevel, WildcardFree;
    var f, t := FirstLevel(filter), FirstLevel(topic);
    LevelSplits(filter);
    LevelSplits(topic);
    if |f| == |filter| {
      assert f == filter;
      LastLevelMatches(filter, topic);
    } else {
      var rest := filter[|f| + 1..];
      assert Levels(filter)[0] == f && Levels(filter)[1..] == Levels(rest);
      LevelsNonempty(rest);
      TailValid(Levels(filter));
      assert filter == f + "/" + rest;
      FirstLevelMatches(f, rest, topic);
      if |t| < |topic| {
        var more := topic[|t| + 1..];
        assert Levels(topic)[0] == t && Levels(topic)[1..] == Levels(more);
        LevelsNonempty(more);
        MatchesByLevels(rest, more);
      } else {
        assert Levels(topic) == [t];
      }
    }
  }

  /** A multi-level wildcard that is not the end of its filter matches nothing. */
  lemma MisplacedWildcardMatchesNothing(p: string, rest: string, topic: string)
    requires WildcardFree(p) && rest != ""
    ensures !Matches(p + ("#" + rest), topic)
  {
    LiteralPrefixMatches(p, "#" + rest, topic);
    assert |"#" + rest| > 1 && ("#" + rest)[0] == '#';
  }

  lemma LevelsNonempty(t: string)
    ensures Levels(t) != []
  {
  }

  lemma TailValid(filter: seq<string>)
    requires |filter| > 1 && LevelsValid(filter)
    ensures LevelsValid(filter[1..])
    ensures WildcardFree(filter[0]) || filter[0] == "+"
  {
    assert filter[0] == filter[1 - 1];
    forall k | 0 <= k < |filter[1..]|
      ensures WildcardFree(filter[1..][k]) || filter[1..][k] == "+"
              || (filter[1..][k] == "#" && k == |filter[1..]| - 1)
    {
      assert filter[1..][k] == filter[k + 1];
    }
  }

  // ------------------------------------------------------------ who may do what

  predicate Text(s: string, limit: nat) {
    1 <= |s| <= limit && forall c :: c in s ==> ' ' <= c <= '~'
  }

  lemma TextIsBounded(s: string, limit: nat)
    ensures Text(s, limit) <==> BoundedText(s, limit + 1)
  {
    if BoundedText(s, limit + 1) {
      forall c | c in s
        ensures ' ' <= c <= '~'
      {
        var i :| 0 <= i < |s| && s[i] == c;
      }
    }
    forall i | 0 <= i < |s|
      ensures s[i] in s
    {
    }
  }

  predicate NoWildcard(s: string) {
    '#' !in s && '+' !in s
  }

  lemma NoWildcardIsFree(s: string)
    ensures NoWildcard(s) <==> WildcardFree(s)
  {
    forall i | 0 <= i < |s|
      ensures s[i] in s
    {
    }
  }

  /** A filter for one read category, as a whole or for one topic in it. */
  predicate Reads(p: string, filter: string) {
    p <= filter && (filter[|p|..] == "#" || (filter[|p|..] != "" && NoWildcard(filter[|p|..])))
  }

  function Category(client: string, unit: string, name: string): string {
    "argus/" + client + "/" + unit + "/" + name + "/"
  }

  lemma ReadsCategory(client: string, unit: string, filter: string, i: nat)
    requires i < |CATEGORIES|
    ensures var p := CategoryPrefix(Root(client, unit), i);
            Reads(Category(client, unit, CATEGORIES[i]), filter)
            <==> p <= filter && ApprovedRest(filter[|p|..])
  {
    hide WildcardFree, NoWildcard;
    var p := CategoryPrefix(Root(client, unit), i);
    assert p == Category(client, unit, CATEGORIES[i]);
    if p <= filter {
      NoWildcardIsFree(filter[|p|..]);
    }
  }

  lemma ReadsExactly(client: string, unit: string, filter: string)
    ensures Approved(Root(client, unit), filter) <==>
              exists name :: name in {"metadata", "state", "status", "telemetry", "event"}
                && Reads(Category(client, unit, name), filter)
  {
    hide Reads, Category, ApprovedRest, CategoryPrefix, Root;
    forall i | 0 <= i < |CATEGORIES|
      ensures var p := CategoryPrefix(Root(client, unit), i);
              Reads(Category(client, unit, CATEGORIES[i]), filter)
              <==> p <= filter && ApprovedRest(filter[|p|..])
    {
      ReadsCategory(client, unit, filter, i);
    }
    if name :| name in {"metadata", "state", "status", "telemetry", "event"}
               && Reads(Category(client, unit, name), filter) {
      var i := if name == "metadata" then 0 else if name == "state" then 1
               else if name == "status" then 2 else if name == "telemetry" then 3 else 4;
      assert CATEGORIES[i] == name;
      assert CategoryPrefix(Root(client, unit), i) <= filter;
    }
  }

  /** A machine that may view the status of the unit may subscribe to exactly the five read
      categories of its own client and unit, each as a whole or topic by topic, as far as
      they lie in its topic scope. */
  lemma SubscribesExactly(
    client: string, unit: string, permissions: set<Permission>, scope: string, filter: string)
    ensures SubscriptionAllowed(Root(client, unit), permissions, scope, filter) <==>
              && ViewStatus in permissions && Text(scope, 96) && Text(filter, 159)
              && (scope == "*" || filter == scope || scope + "/" <= filter)
              && exists name :: name in {"metadata", "state", "status", "telemetry", "event"}
                   && Reads(Category(client, unit, name), filter)
  {
    hide Text, BoundedText, Reads, Category, Approved, Root;
    TextIsBounded(scope, 96);
    TextIsBounded(filter, 159);
    ReadsExactly(client, unit, filter);
  }

  /** A machine may publish an action exactly on its one topic, within its topic scope, and
      with the permission of the action: control, the emergency stop, its reset, or motion. */
  lemma PublishesExactly(
    client: string, unit: string, permissions: set<Permission>, scope: string, topic: string,
    a: Action)
    ensures PublishAllowed(Root(client, unit), permissions, scope, topic, a) <==>
              && Text(scope, 96) && Text(topic, 159)
              && (scope == "*" || topic == scope || scope + "/" <= topic)
              && topic == "argus/" + client + "/" + unit + Leaf(a)
              && (a in {Heartbeat, RequestAuthority, ReleaseAuthority} ==>
                    RequestControl in permissions)
              && (a == EStop ==> SoftwareEStop in permissions)
              && (a == ResetEStop ==> ResetSoftwareEStop in permissions)
              && (a in {SetTarget, StartPump, StopPump, Unlock, Recover} ==>
                    Motion in permissions)
  {
    TextIsBounded(scope, 96);
    TextIsBounded(topic, 159);
    hide Text, BoundedText;
  }
}
