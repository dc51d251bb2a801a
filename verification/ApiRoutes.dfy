/** The path dispatch of `serveAPI` (main.go) and the path splitting of the handlers behind it. Route paths
    are made of letters, digits and slashes, so that each is its own regular expression. */
module ApiRoutes {
  import opened Strings

  predicate IsSlash(c: char) {
    c == '/'
  }

  predicate IsAlnum(c: char) {
    'a' <= c <= 'z' || 'A' <= c <= 'Z' || '0' <= c <= '9'
  }

  /** `strings.Split(strings.Trim(path, "/"), "/")`. */
  function UrlList(path: string): seq<string> {
    Split(Trim(path, IsSlash), '/')
  }

  // ---------------------------------------------------------------- the four patterns

  datatype Collection = Nodes | Resources | Cluster | Constraints

  function Name(c: Collection): string {
    match c
    case Nodes => "nodes"
    case Resources => "resources"
    case Cluster => "cluster"
    case Constraints => "constraints"
  }

  /** What follows the collection name: an optional item id, except for the cluster, and an optional slash. */
  datatype Tail = Tail(id: string, slash: bool) {
    predicate Valid(c: Collection) {
      All(id, IsAlnum) && (c.Cluster? ==> id == "")
    }

    function Ids(): seq<string> {
      if id == "" then [] else [id]
    }

    function Slash(): string {
      if slash then "/" else ""
    }
  }

  /** "configuration", the collection and the item id, with slashes between them. */
  function Ending(c: Collection, id: string): string {
    "configuration" + ['/'] + (Name(c) + (if id == "" then "" else ['/'] + id))
  }

  /** A path that the pattern of a collection accepts. The pattern is anchored at the end only, so anything
      may come before the route path. */
  function Path(before: string, route: string, c: Collection, t: Tail): string {
    before + route + ['/'] + Ending(c, t.id) + t.Slash()
  }

  /** The language of the pattern. */
  ghost predicate Matches(route: string, c: Collection, path: string) {
    exists before, t: Tail :: t.Valid(c) && path == Path(before, route, c, t)
  }

  // -------------------------------------------------------------------- splitting

  lemma NameHasNoSlash(c: Collection)
    ensures '/' !in Name(c) && Name(c) != "" && Name(c) != "configuration"
    ensures !IsSlash(Name(c)[|Name(c)| - 1])
  {
  }

  lemma {:induction false} TrimLeftAppend(h: string, rest: string)
    requires TrimLeft(h, IsSlash) != ""
    ensures TrimLeft(h + rest, IsSlash) == TrimLeft(h, IsSlash) + rest
  {
    var s := h + rest;
    assert s[0] == h[0];
    if IsSlash(h[0]) {
      assert s[1..] == h[1..] + rest;
      assert TrimLeft(s, IsSlash) == TrimLeft(s[1..], IsSlash) && TrimLeft(h, IsSlash) == TrimLeft(h[1..], IsSlash);
      hide TrimLeft;
      TrimLeftAppend(h[1..], rest);
    } else {
      NotLeftTrimmed(h);
      NotLeftTrimmed(s);
      hide TrimLeft;
    }
  }

  /** The segments of the route path, with what precedes it. */
  function RouteSegments(h: string): seq<string> {
    if TrimLeft(h, IsSlash) == "" then [] else Split(TrimLeft(h, IsSlash), '/')
  }

  lemma EndingSegments(c: Collection, t: Tail)
    requires t.Valid(c)
    ensures Split(Ending(c, t.id), '/') == ["configuration", Name(c)] + t.Ids()
    ensures Ending(c, t.id) != "" && !IsSlash(Ending(c, t.id)[0]) && !IsSlash(Ending(c, t.id)[|Ending(c, t.id)| - 1])
  {
    hide Split;
    NameHasNoSlash(c);
    SplitOne("configuration", '/');
    SplitOne(Name(c), '/');
    SplitAppend("configuration", Name(c) + (if t.id == "" then "" else ['/'] + t.id), '/');
    if t.id == "" {
      assert Name(c) + "" == Name(c);
    } else {
      SplitOne(t.id, '/');
      SplitAppend(Name(c), t.id, '/');
      assert Name(c) + (['/'] + t.id) == Name(c) + ['/'] + t.id;
    }
  }

  /** Trimming slashes around a text that neither starts nor ends with one. */
  lemma TrimmedPath(h: string, rest: string, post: string)
    requires rest != "" && !IsSlash(rest[0]) && !IsSlash(rest[|rest| - 1]) && All(post, IsSlash)
    ensures Trim(h + ['/'] + rest + post, IsSlash)
         == if TrimLeft(h, IsSlash) == "" then rest else TrimLeft(h, IsSlash) + ['/'] + rest
  {
    hide TrimLeft, TrimRight;
    if TrimLeft(h, IsSlash) == "" {
      LeftTrimmedAway(h);
      TrimPadded(h + ['/'], rest, post, IsSlash);
    } else {
      hide IsSlash;
      var left, more := TrimLeft(h, IsSlash), ['/'] + rest + post;
      Regroup(h, ['/'], rest, post);
      Regroup(left, ['/'], rest, post);
      TrimLeftAppend(h, more);
      TrimRightAll(left + ['/'] + rest, post, IsSlash);
      NotTrimmed(left + ['/'], rest);
    }
  }

  lemma Regroup(a: string, b: string, c: string, d: string)
    ensures a + b + c + d == a + (b + c + d)
  {
  }

  lemma NotTrimmed(a: string, s: string)
    requires s != "" && !IsSlash(s[|s| - 1])
    ensures TrimRight(a + s, IsSlash) == a + s
  {
    assert (a + s)[|a + s| - 1] == s[|s| - 1];
  }

  lemma {:induction false} LeftTrimmedAway(h: string)
    ensures TrimLeft(h, IsSlash) == "" <==> All(h, IsSlash)
  {
    if h != "" && IsSlash(h[0]) {
      LeftTrimmedAway(h[1..]);
      assert forall i :: 1 <= i < |h| ==> h[i] == h[1..][i - 1];
    }
  }

  /** The segments of every accepted path: those of the route and what precedes it, "configuration", the
      collection, and the item id if there is one. A trailing slash changes nothing. */
  lemma AcceptedSegments(before: string, route: string, c: Collection, t: Tail)
    requires t.Valid(c)
    ensures UrlList(Path(before, route, c, t))
         == RouteSegments(before + route) + ["configuration", Name(c)] + t.Ids()
  {
    hide Split, Ending, Trim, TrimLeft;
    var h, rest := before + route, Ending(c, t.id);
    EndingSegments(c, t);
    TrimmedPath(h, rest, t.Slash());
    if TrimLeft(h, IsSlash) != "" {
      SplitAppend(TrimLeft(h, IsSlash), rest, '/');
    }
  }

  // --------------------------------------------------------------- what follows

  /** Two readings of the same segments give the same collection name. */
  lemma SameEnding(us: seq<string>, x: seq<string>, name: string, ids: seq<string>,
                   x': seq<string>, name': string, ids': seq<string>)
    requires us == x + ["configuration", name] + ids && us == x' + ["configuration", name'] + ids'
    requires |ids| <= 1 && |ids'| <= 1 && name != "configuration" && name' != "configuration"
    ensures name == name'
  {
    var n := |us|;
    assert us[n - 1 - |ids|] == name && us[n - 2 - |ids|] == "configuration";
    assert us[n - 1 - |ids'|] == name' && us[n - 2 - |ids'|] == "configuration";
  }

  /** The four patterns are pairwise disjoint, for any route paths at all. */
  lemma PatternsDisjoint(route: string, route': string, c: Collection, c': Collection, path: string)
    requires Matches(route, c, path) && Matches(route', c', path)
    ensures c == c'
  {
    hide UrlList, RouteSegments, Path, Name;
    var before, t: Tail :| t.Valid(c) && path == Path(before, route, c, t);
    var before', t': Tail :| t'.Valid(c') && path == Path(before', route', c', t');
    AcceptedSegments(before, route, c, t);
    AcceptedSegments(before', route', c', t');
    NameHasNoSlash(c);
    NameHasNoSlash(c');
    SameEnding(UrlList(path), RouteSegments(before + route), Name(c), t.Ids(),
               RouteSegments(before' + route'), Name(c'), t'.Ids());
    NamesDiffer(c, c');
  }

  lemma NamesDiffer(c: Collection, c': Collection)
    requires Name(c) == Name(c')
    ensures c == c'
  {
  }

  /** Some segment of the route path is not empty. */
  predicate HasSegment(route: string) {
    !All(route, IsSlash)
  }

  /** `urllist[3]` is read whenever there are not exactly three segments. It is in range for every accepted
      path if and only if the route path has a non-empty segment. */
  lemma SegmentsInRangeExactly(route: string)
    ensures (forall c, path :: Matches(route, c, path) ==> |UrlList(path)| >= 3) <==> HasSegment(route)
  {
    hide UrlList, Path;
    if HasSegment(route) {
      forall c, path | Matches(route, c, path) ensures |UrlList(path)| >= 3 {
        var before, t: Tail :| t.Valid(c) && path == Path(before, route, c, t);
        AcceptedSegments(before, route, c, t);
        RoutedSegments(before, route);
      }
    } else {
      var t := Tail("", false);
      AcceptedSegments("", route, Nodes, t);
      LeftTrimmedAway(route);
      assert "" + route == route;
      assert Matches(route, Nodes, Path("", route, Nodes, t));
    }
  }

  lemma RoutedSegments(before: string, route: string)
    requires HasSegment(route)
    ensures |RouteSegments(before + route)| >= 1
  {
    LeftTrimmedAway(before + route);
    assert forall i :: 0 <= i < |route| ==> (before + route)[|before| + i] == route[i];
  }

  /** A trailing slash changes neither whether a path is accepted nor how it is split. */
  lemma TrailingSlashIrrelevant(route: string, c: Collection, path: string)
    requires path != "" && !IsSlash(path[|path| - 1])
    ensures Matches(route, c, path) <==> Matches(route, c, path + "/")
    ensures UrlList(path + "/") == UrlList(path)
  {
    hide Path, Trim, Split;
    SlashTrimmed(path);
    if Matches(route, c, path) {
      var before, t: Tail :| t.Valid(c) && path == Path(before, route, c, t);
      PathEnd(before, route, c, t);
      assert path + "/" == Path(before, route, c, t.(slash := true));
    }
    if Matches(route, c, path + "/") {
      var before, t: Tail :| t.Valid(c) && path + "/" == Path(before, route, c, t);
      PathEnd(before, route, c, t);
      assert (path + "/")[..|path|] == path;
      assert path == Path(before, route, c, t.(slash := false));
    }
  }

  /** An accepted path ends with a slash exactly when its tail has one. */
  lemma PathEnd(before: string, route: string, c: Collection, t: Tail)
    requires t.Valid(c)
    ensures var p, q := Path(before, route, c, t.(slash := false)), Path(before, route, c, t.(slash := true));
            p != "" && !IsSlash(p[|p| - 1]) && q == p + "/" && q[..|p|] == p
    ensures t == t.(slash := false) || t == t.(slash := true)
  {
    EndingSegments(c, t);
    hide Ending;
    var stem, rest := before + route + ['/'] + Ending(c, t.id), Ending(c, t.id);
    assert stem + "" == stem && stem[|stem| - 1] == rest[|rest| - 1];
  }

  lemma SlashTrimmed(path: string)
    ensures Trim(path + "/", IsSlash) == Trim(path, IsSlash)
  {
    hide TrimRight;
    if TrimLeft(path, IsSlash) != "" {
      TrimLeftAppend(path, "/");
      TrimRightAll(TrimLeft(path, IsSlash), "/", IsSlash);
    } else {
      LeftTrimmedAway(path);
      assert path + "/" == (path + "/") + "";
      TrimLeftAll(path + "/", "", IsSlash);
    }
  }

  // ------------------------------------------------------------- what is looked up

  /** What a handler takes from the segments: with three of them the whole collection, otherwise the object
      whose id is the fourth. */
  datatype Selection = Whole | Key(key: string) | OutOfRange

  function SelectionOf(us: seq<string>): Selection {
    if |us| == 3 then Whole else if |us| > 3 then Key(us[3]) else OutOfRange
  }

  /** What the path names: the collection, or one item of it. */
  function Asked(t: Tail): Selection {
    if t.id == "" then Whole else Key(t.id)
  }

  /** What is looked up behind the given route segments. */
  function SelectionBehind(segments: seq<string>, c: Collection, t: Tail): Selection {
    match |segments|
    case 0 => if t.id == "" then OutOfRange else Whole
    case 1 => Asked(t)
    case 2 => Key(Name(c))
    case 3 => Key("configuration")
    case _ => Key(segments[3])
  }

  /** For every accepted path, the segments of the route and of what precedes it decide what is looked up. */
  lemma SelectionOfPath(before: string, route: string, c: Collection, t: Tail)
    requires t.Valid(c)
    ensures SelectionOf(UrlList(Path(before, route, c, t))) == SelectionBehind(RouteSegments(before + route), c, t)
  {
    hide UrlList, Path, RouteSegments, Name;
    AcceptedSegments(before, route, c, t);
  }

  /** The router hands over a path only if it starts with the route path. Then everything before the place
      where the pattern matched adds its slashes to the number of segments. */
  lemma SegmentsBefore(before: string, route: string, c: Collection, t: Tail)
    requires HasSegment(route) && HasPrefix(Path(before, route, c, t), route)
    ensures |RouteSegments(before + route)| == |RouteSegments(route)| + Count(before, '/')
    ensures |RouteSegments(route)| >= 1
  {
    hide Split, Count, TrimLeft, Ending;
    var h := before + route;
    assert Path(before, route, c, t)[..|h|] == h;
    var rest := h[|route|..];
    assert h == route + rest;
    LeftTrimmedAway(route);
    TrimLeftAppend(route, rest);
    hide Path, IsSlash, HasPrefix;
    CountAppend(before, route, '/');
    CountAppend(route, rest, '/');
    CountAppend(TrimLeft(route, IsSlash), rest, '/');
    SplitJoin(TrimLeft(route, IsSlash), '/');
    SplitJoin(TrimLeft(h, IsSlash), '/');
    TrimLeftNotEmpty(route, rest);
  }

  lemma TrimLeftNotEmpty(route: string, rest: string)
    requires TrimLeft(route, IsSlash) != ""
    ensures TrimLeft(route, IsSlash) + rest != ""
  {
  }

  /** Behind the given segments, the item id happens to be what is looked up. */
  predicate Coincides(segments: seq<string>, c: Collection, id: string) {
    match |segments|
    case 0 => false
    case 1 => false
    case 2 => id == Name(c)
    case 3 => id == "configuration"
    case _ => id == segments[3]
  }

  /** A routed and accepted request gets the collection or the item that it names if and only if the route
      path has one segment and nothing with a slash precedes the place where the pattern matched, or the item's id
      happens to be the fourth segment. */
  lemma GetsWhatItNamesExactly(before: string, route: string, c: Collection, t: Tail)
    requires t.Valid(c) && HasSegment(route) && HasPrefix(Path(before, route, c, t), route)
    ensures SelectionOf(UrlList(Path(before, route, c, t))) == Asked(t) <==>
            || (|RouteSegments(route)| == 1 && Count(before, '/') == 0)
            || (t.id != "" && Coincides(RouteSegments(before + route), c, t.id))
  {
    hide UrlList, Path, RouteSegments, Name, HasSegment, HasPrefix, Count;
    SelectionOfPath(before, route, c, t);
    SegmentsBefore(before, route, c, t);
  }

  /** A request path starts with a slash, so there nothing at all may precede. */
  lemma NothingPrecedes(before: string, route: string, c: Collection, t: Tail)
    requires HasPrefix(Path(before, route, c, t), "/")
    ensures Count(before, '/') == 0 <==> before == ""
  {
    if before != "" {
      assert Path(before, route, c, t)[0] == before[0];
    }
  }

  /** Under the default route "/api/v1" no routed and accepted request gets a whole collection, and without a
      detour it looks up the name of its own collection. */
  lemma DefaultRouteLooksUpCollection(before: string, c: Collection, t: Tail)
    requires t.Valid(c) && HasPrefix(Path(before, "/api/v1", c, t), "/api/v1")
    ensures var sel := SelectionOf(UrlList(Path(before, "/api/v1", c, t)));
            && sel.Key?
            && (before == "" ==> sel.key == Name(c))
            && (sel == Asked(t) <==> t.id != "" && Coincides(RouteSegments(before + "/api/v1"), c, t.id))
  {
    hide UrlList, Path, RouteSegments, Name, Count, HasPrefix;
    DefaultRouteSegments();
    assert HasSegment("/api/v1") by {
      assert !IsSlash("/api/v1"[1]);
    }
    SegmentsBefore(before, "/api/v1", c, t);
    SelectionOfPath(before, "/api/v1", c, t);
    assert "" + "/api/v1" == "/api/v1";
    CountZero("", '/');
  }

  /** The pattern is not anchored at its start, so a detour changes what is looked up, also behind a route with
      a single segment. */
  lemma DetoursMislead()
    ensures HasPrefix("/api/v1/api/v1/configuration/nodes", "/api/v1")
    ensures Matches("/api/v1", Nodes, "/api/v1/api/v1/configuration/nodes")
    ensures SelectionOf(UrlList("/api/v1/api/v1/configuration/nodes")) == Key("v1")
    ensures HasPrefix("/api/x/api/configuration/nodes/n1", "/api")
    ensures Matches("/api", Nodes, "/api/x/api/configuration/nodes/n1")
    ensures SelectionOf(UrlList("/api/x/api/configuration/nodes/n1")) == Key("configuration")
  {
    DetourOne();
    DetourTwo();
    hide Matches, UrlList;
  }

  lemma DetourOne()
    ensures Matches("/api/v1", Nodes, "/api/v1/api/v1/configuration/nodes")
    ensures SelectionOf(UrlList("/api/v1/api/v1/configuration/nodes")) == Key("v1")
  {
    hide UrlList, RouteSegments, Path;
    var t := Tail("", false);
    DetourPathOne();
    DetourSegments();
    SelectionOfPath("/api/v1", "/api/v1", Nodes, t);
  }

  lemma DetourTwo()
    ensures Matches("/api", Nodes, "/api/x/api/configuration/nodes/n1")
    ensures SelectionOf(UrlList("/api/x/api/configuration/nodes/n1")) == Key("configuration")
  {
    hide UrlList, RouteSegments, Path;
    var t := Tail("n1", false);
    DetourPathTwo();
    DetourSegments();
    SelectionOfPath("/api/x", "/api", Nodes, t);
  }

  lemma DetourPathOne()
    ensures Path("/api/v1", "/api/v1", Nodes, Tail("", false)) == "/api/v1/api/v1/configuration/nodes"
  {
  }

  lemma DetourPathTwo()
    ensures Path("/api/x", "/api", Nodes, Tail("n1", false)) == "/api/x/api/configuration/nodes/n1"
  {
  }

  lemma DetourSegments()
    ensures RouteSegments("/api/v1" + "/api/v1") == ["api", "v1", "api", "v1"]
    ensures RouteSegments("/api/x" + "/api") == ["api", "x", "api"]
  {
    hide RouteSegments, Join;
    SplitAfterSlash(["api", "v1", "api", "v1"]);
    SplitAfterSlash(["api", "x", "api"]);
    JoinFour("api", "v1", "api", "v1");
    JoinFour("v1", "api", "x", "api");
    assert "/api/v1" + "/api/v1" == ['/'] + Join(["api", "v1", "api", "v1"], '/');
    assert "/api/x" + "/api" == ['/'] + Join(["api", "x", "api"], '/');
  }

  lemma JoinFour(a: string, b: string, c: string, d: string)
    ensures Join([b, c, d], '/') == b + ['/'] + (c + ['/'] + d)
    ensures Join([a, b, c, d], '/') == a + ['/'] + Join([b, c, d], '/')
  {
    assert [a, b, c, d][1..] == [b, c, d] && [b, c, d][1..] == [c, d] && [c, d][1..] == [d];
    assert Join([c, d], '/') == c + ['/'] + Join([d], '/');
  }

  /** A slash and then segments split into these segments. */
  lemma SplitAfterSlash(segments: seq<string>)
    requires segments != [] && segments[0] != "" && forall i :: 0 <= i < |segments| ==> '/' !in segments[i]
    ensures RouteSegments(['/'] + Join(segments, '/')) == segments
  {
    hide Split;
    var text := Join(segments, '/');
    assert text[0] == segments[0][0];
    TrimLeftAll(['/'], text, IsSlash);
    NotLeftTrimmed(text);
    JoinSplit(segments, '/');
  }

  lemma DefaultRouteSegments()
    ensures RouteSegments("/api/v1") == ["api", "v1"]
  {
    hide RouteSegments;
    SplitAfterSlash(["api", "v1"]);
    assert Join(["api", "v1"], '/') == "api/v1";
    assert ['/'] + "api/v1" == "/api/v1";
  }

  lemma NotLeftTrimmed(s: string)
    requires s != "" && !IsSlash(s[0])
    ensures TrimLeft(s, IsSlash) == s
  {
  }

  // -------------------------------------------------------------------- dispatch

  datatype Handler = Unauthorized | Handle(collection: Collection) | CibXml | NoRoute

  /** `serveAPI`: the patterns are tried in this order. */
  ghost function Dispatch(authorized: bool, method_: string, route: string, path: string): Handler {
    if !authorized then Unauthorized
    else if method_ != "GET" then NoRoute
    else if Matches(route, Nodes, path) then Handle(Nodes)
    else if Matches(route, Resources, path) then Handle(Resources)
    else if Matches(route, Cluster, path) then Handle(Cluster)
    else if Matches(route, Constraints, path) then Handle(Constraints)
    else if HasPrefix(path, route + "/configuration/cib.xml") then CibXml
    else NoRoute
  }

  /** The order does not matter: a collection's handler runs exactly for the authorized GET requests whose path its
      own pattern accepts. Everything else is decided in turn: authorization, then the prefix of the raw CIB. */
  lemma DispatchExactly(authorized: bool, method_: string, route: string, path: string)
    ensures var h := Dispatch(authorized, method_, route, path);
            && (h == Unauthorized <==> !authorized)
            && (forall c :: h == Handle(c) <==> authorized && method_ == "GET" && Matches(route, c, path))
            && (h == CibXml <==> && authorized && method_ == "GET" && (forall c :: !Matches(route, c, path))
                                 && HasPrefix(path, route + "/configuration/cib.xml"))
            && (h == NoRoute <==> && authorized
                                  && (method_ == "GET" ==> !HasPrefix(path, route + "/configuration/cib.xml"))
                                  && (method_ == "GET" ==> forall c :: !Matches(route, c, path)))
  {
    hide Matches, HasPrefix;
    forall c, d | Matches(route, c, path) && Matches(route, d, path)
      ensures c == d
    {
      PatternsDisjoint(route, route, c, d, path);
    }
  }

  /** What may follow the name of a collection: nothing, a slash, or an id of letters and digits with or without one. */
  predicate OptionalId(rest: string) {
    || rest == "" || rest == "/"
    || exists slash :: 1 < slash <= |rest| && rest[0] == '/' && LettersAndDigits(rest[1..slash])
                       && (rest[slash..] == "" || rest[slash..] == "/")
  }

  predicate LettersAndDigits(s: string) {
    forall c :: c in s ==> 'a' <= c <= 'z' || 'A' <= c <= 'Z' || '0' <= c <= '9'
  }

  /** The path ends with the route path and `text`, and with an id if it may. */
  ghost predicate EndsWith(path: string, route: string, text: string, withId: bool) {
    exists before, rest :: Parts(path, before, route, text, rest, withId)
  }

  predicate Parts(path: string, before: string, route: string, text: string, rest: string, withId: bool) {
    path == before + route + text + rest && (if withId then OptionalId(rest) else rest == "" || rest == "/")
  }

  /** The four patterns in full. */
  lemma PatternsInFull(route: string, path: string)
    ensures Matches(route, Nodes, path) <==> EndsWith(path, route, "/configuration/nodes", true)
    ensures Matches(route, Resources, path) <==> EndsWith(path, route, "/configuration/resources", true)
    ensures Matches(route, Constraints, path) <==> EndsWith(path, route, "/configuration/constraints", true)
    ensures Matches(route, Cluster, path) <==> EndsWith(path, route, "/configuration/cluster", false)
  {
    hide Matches, EndsWith, Name;
    NamesInFull();
    PatternInFull(route, Nodes, path);
    PatternInFull(route, Resources, path);
    PatternInFull(route, Constraints, path);
    PatternInFull(route, Cluster, path);
  }

  lemma NamesInFull()
    ensures "/configuration/" + Name(Nodes) == "/configuration/nodes"
    ensures "/configuration/" + Name(Resources) == "/configuration/resources"
    ensures "/configuration/" + Name(Constraints) == "/configuration/constraints"
    ensures "/configuration/" + Name(Cluster) == "/configuration/cluster"
  {
  }

  lemma PatternInFull(route: string, c: Collection, path: string)
    ensures Matches(route, c, path) <==> EndsWith(path, route, "/configuration/" + Name(c), !c.Cluster?)
  {
    hide Path, Name, OptionalId;
    var text := "/configuration/" + Name(c);
    if Matches(route, c, path) {
      var before, t: Tail :| t.Valid(c) && path == Path(before, route, c, t);
      TailFollows(c, t);
      PathParts(before, route, c, t);
      assert Parts(path, before, route, text, After(t), !c.Cluster?);
    }
    if EndsWith(path, route, text, !c.Cluster?) {
      var before, rest :| Parts(path, before, route, text, rest, !c.Cluster?);
      var t := FollowedByTail(c, rest);
      PathParts(before, route, c, t);
    }
  }

  /** A tail as text. */
  function After(t: Tail): string {
    (if t.id == "" then "" else "/" + t.id) + t.Slash()
  }

  lemma PathParts(before: string, route: string, c: Collection, t: Tail)
    ensures Path(before, route, c, t) == before + route + ("/configuration/" + Name(c)) + After(t)
  {
    hide Name;
    var id := if t.id == "" then "" else ['/'] + t.id;
    assert "/configuration/" == ['/'] + ("configuration" + ['/']);
    assert ['/'] + Ending(c, t.id) == ("/configuration/" + Name(c)) + id;
    assert before + route + ['/'] + Ending(c, t.id) == before + route + (['/'] + Ending(c, t.id));
  }

  lemma TailFollows(c: Collection, t: Tail)
    requires t.Valid(c)
    ensures if c.Cluster? then After(t) == "" || After(t) == "/" else OptionalId(After(t))
  {
    if t.id != "" {
      AlnumInFull(t.id);
      var rest, slash := After(t), |t.id| + 1;
      assert rest[1..slash] == t.id && rest[slash..] == t.Slash();
      assert OptionalId(rest);
    }
  }

  lemma AlnumInFull(s: string)
    ensures LettersAndDigits(s) <==> All(s, IsAlnum)
  {
    assert forall i :: 0 <= i < |s| ==> s[i] in s;
  }

  lemma FollowedByTail(c: Collection, rest: string) returns (t: Tail)
    requires if c.Cluster? then rest == "" || rest == "/" else OptionalId(rest)
    ensures t.Valid(c) && After(t) == rest
  {
    if rest == "" || rest == "/" {
      t := Tail("", rest == "/");
    } else {
      var slash :| 1 < slash <= |rest| && rest[0] == '/' && LettersAndDigits(rest[1..slash])
                   && (rest[slash..] == "" || rest[slash..] == "/");
      t := Tail(rest[1..slash], rest[slash..] == "/");
      AlnumInFull(rest[1..slash]);
      assert rest == [rest[0]] + rest[1..slash] + rest[slash..];
    }
  }
}
