/**
 * Route registration and dispatch. A request is dispatched to the FIRST
 * registered route whose method matches and whose pattern matches the
 * path. A literal segment matches case-insensitively; a `:name`
 * parameter matches exactly one non-empty segment and captures it.
 */
module Router {
  import opened Wrappers
  import JsString

  /** The HTTP methods routes are registered for; every other method is `OtherVerb`. */
  datatype Verb = Get | Post | Put | Delete | OtherVerb

  datatype Segment = Literal(text: string) | Param(name: string)

  datatype Handler =
    | ListAll | FindOne | CreateOne | UpdateOne | DeleteOne
    | SearchByName | CategoryStats | Banner

  datatype Route = Route(verb: Verb, pattern: seq<Segment>, handler: Handler)

  /** The chosen handler and the captured `req.params`. */
  datatype Hit = Hit(handler: Handler, params: map<string, string>)

  /**
   * Literals are written in lower case, so comparing them with the
   * lower-cased segment is the router's case-insensitive comparison
   * (`LiteralMatchIgnoresCase`).
   */
  predicate SegmentMatches(seg: Segment, part: string) {
    match seg
    case Literal(text) => text == JsString.Lower(part)
    case Param(_) => part != ""
  }

  /** For a lower-case literal, matching is equality after lower-casing both sides. */
  lemma LiteralMatchIgnoresCase(text: string, part: string)
    requires forall i :: 0 <= i < |text| ==> !('A' <= text[i] <= 'Z')
    ensures SegmentMatches(Literal(text), part) <==> JsString.Lower(text) == JsString.Lower(part)
  {
    JsString.LowerOfLowercase(text);
  }

  /** Match a pattern against a path already split into segments, capturing the parameters. */
  function Match(pattern: seq<Segment>, path: seq<string>): Option<map<string, string>>
    decreases |path|
  {
    if pattern == [] && path == [] then Some(map[])
    else if pattern == [] || path == [] then None
    else if !SegmentMatches(pattern[0], path[0]) then None
    else
      match Match(pattern[1..], path[1..])
      case None => None
      case Some(m) => Some(if pattern[0].Param? then m[pattern[0].name := path[0]] else m)
  }

  /**
   * A pattern matches exactly the paths of its length whose segments match
   * one by one; the captured names are the pattern's parameters, each bound
   * to the path segment at one of its positions.
   */
  lemma {:induction false} MatchSpec(pattern: seq<Segment>, path: seq<string>)
    ensures var r := Match(pattern, path);
      && (r.Some? <==>
            (|pattern| == |path| && forall k :: 0 <= k < |path| ==> SegmentMatches(pattern[k], path[k])))
      && (r.Some? ==> forall n :: n in r.value <==> Param(n) in pattern)
      && (r.Some? ==> forall n :: n in r.value ==>
            exists k :: 0 <= k < |path| && pattern[k] == Param(n) && path[k] == r.value[n])
    decreases |path|
  {
    if pattern != [] && path != [] {
      MatchSpec(pattern[1..], path[1..]);
      var r := Match(pattern, path);
      if r.Some? {
        var m := Match(pattern[1..], path[1..]).value;
        forall n | n in r.value
          ensures Param(n) in pattern
          ensures exists k :: 0 <= k < |path| && pattern[k] == Param(n) && path[k] == r.value[n]
        {
          if pattern[0] == Param(n) {
            assert path[0] == r.value[n];
          } else {
            var k :| 0 <= k < |path[1..]| && pattern[1..][k] == Param(n) && path[1..][k] == m[n];
            assert pattern[k + 1] == Param(n) && path[k + 1] == r.value[n];
          }
        }
        forall n | Param(n) in pattern
          ensures n in r.value
        {
          if pattern[0] != Param(n) {
            var k :| 0 <= k < |pattern| && pattern[k] == Param(n);
            assert pattern[1..][k - 1] == Param(n);
          }
        }
      } else if |pattern| == |path| && SegmentMatches(pattern[0], path[0]) {
        assert forall k :: 0 <= k < |path| - 1 ==> pattern[1..][k] == pattern[k + 1] && path[1..][k] == path[k + 1];
      }
      if Match(pattern[1..], path[1..]).Some? && SegmentMatches(pattern[0], path[0]) {
        assert forall k :: 1 <= k < |path| ==> pattern[k] == pattern[1..][k - 1] && path[k] == path[1..][k - 1];
      }
    }
  }

  predicate Matches(route: Route, verb: Verb, path: seq<string>) {
    route.verb == verb && Match(route.pattern, path).Some?
  }

  /** First match over the routes in registration order. */
  function Dispatch(routes: seq<Route>, verb: Verb, path: seq<string>): Option<Hit>
    decreases |routes|
  {
    if routes == [] then None
    else if Matches(routes[0], verb, path) then
      Some(Hit(routes[0].handler, Match(routes[0].pattern, path).value))
    else
      Dispatch(routes[1..], verb, path)
  }

  /** The position of the first route that matches, or |routes| when none does. */
  function FirstMatch(routes: seq<Route>, verb: Verb, path: seq<string>): (i: nat)
    ensures i <= |routes|
    ensures forall j :: 0 <= j < i ==> !Matches(routes[j], verb, path)
    ensures i < |routes| ==> Matches(routes[i], verb, path)
    decreases |routes|
  {
    if routes == [] || Matches(routes[0], verb, path) then 0 else 1 + FirstMatch(routes[1..], verb, path)
  }

  /**
   * Dispatch finds nothing exactly when no route matches; otherwise it
   * answers with the handler of the first matching route and what that
   * route's pattern captured.
   */
  lemma {:induction false} DispatchSpec(routes: seq<Route>, verb: Verb, path: seq<string>)
    ensures var d, i := Dispatch(routes, verb, path), FirstMatch(routes, verb, path);
      && (d.None? <==> i == |routes|)
      && (d.Some? ==> i < |routes| && d.value == Hit(routes[i].handler, Match(routes[i].pattern, path).value))
    decreases |routes|
  {
    if routes != [] && !Matches(routes[0], verb, path) {
      DispatchSpec(routes[1..], verb, path);
    }
  }

  /** The route parameters a handler reads. */
  function Needs(h: Handler): set<string> {
    match h
    case FindOne => {"id"}
    case UpdateOne => {"id"}
    case DeleteOne => {"id"}
    case SearchByName => {"name"}
    case _ => {}
  }

  /** Every route captures the parameters its handler reads. */
  ghost predicate ParamsFit(routes: seq<Route>) {
    forall i, n :: 0 <= i < |routes| && n in Needs(routes[i].handler) ==> Param(n) in routes[i].pattern
  }

  /** A hit, if any, carries every parameter its handler reads. */
  predicate HitFits(d: Option<Hit>) {
    d.Some? ==> Needs(d.value.handler) <= d.value.params.Keys
  }

  /** On a table whose routes capture what their handlers read, a hit carries those parameters. */
  lemma DispatchFits(routes: seq<Route>, verb: Verb, path: seq<string>)
    requires ParamsFit(routes)
    ensures HitFits(Dispatch(routes, verb, path))
  {
    DispatchSpec(routes, verb, path);
    var d, i := Dispatch(routes, verb, path), FirstMatch(routes, verb, path);
    if d.Some? {
      MatchSpec(routes[i].pattern, path);
      forall n | n in Needs(d.value.handler)
        ensures n in d.value.params
      {
        assert Param(n) in routes[i].pattern;
      }
    }
  }

  const Collection: seq<Segment> := [Literal("api"), Literal("products")]
  const ById: seq<Segment> := [Literal("api"), Literal("products"), Param("id")]
  const ByName: seq<Segment> := [Literal("api"), Literal("products"), Literal("search"), Param("name")]
  const StatsPattern: seq<Segment> := [Literal("api"), Literal("products"), Literal("stats")]
  const StatsRoute := Route(Get, StatsPattern, CategoryStats)

  /** The routes in the order the server registers them. */
  const Registered: seq<Route> := [
    Route(Get, Collection, ListAll),
    Route(Get, ById, FindOne),
    Route(Post, Collection, CreateOne),
    Route(Put, ById, UpdateOne),
    Route(Delete, ById, DeleteOne),
    Route(Get, ByName, SearchByName),
    StatsRoute,
    Route(Get, [], Banner)
  ]

  /** The same routes with the stats route moved ahead of the id lookup. */
  const Corrected: seq<Route> := [
    Route(Get, Collection, ListAll),
    StatsRoute,
    Route(Get, ById, FindOne),
    Route(Post, Collection, CreateOne),
    Route(Put, ById, UpdateOne),
    Route(Delete, ById, DeleteOne),
    Route(Get, ByName, SearchByName),
    Route(Get, [], Banner)
  ]

  lemma TablesFit()
    ensures ParamsFit(Registered) && ParamsFit(Corrected)
  {
  }

  /** The stats path `/api/products/stats`, in any letter case. */
  predicate IsStatsPath(path: seq<string>) {
    |path| == 3 && JsString.Lower(path[0]) == "api" && JsString.Lower(path[1]) == "products"
    && JsString.Lower(path[2]) == "stats"
  }

  /** Matching one more leading segment. */
  lemma MatchCons(seg: Segment, pat: seq<Segment>, part: string, rest: seq<string>)
    ensures Match([seg] + pat, [part] + rest) ==
      if !SegmentMatches(seg, part) then None
      else match Match(pat, rest)
        case None => None
        case Some(m) => Some(if seg.Param? then m[seg.name := part] else m)
  {
    assert ([seg] + pat)[1..] == pat;
    assert ([part] + rest)[1..] == rest;
  }

  /** The stats route matches exactly the GET requests for the stats path. */
  lemma StatsRouteMatches(verb: Verb, path: seq<string>)
    ensures Matches(StatsRoute, verb, path) <==> verb == Get && IsStatsPath(path)
    ensures Matches(StatsRoute, verb, path) ==> Match(StatsPattern, path) == Some(map[])
  {
    MatchSpec(StatsPattern, path);
    if |path| == 3 {
      var empty: seq<string> := [];
      var none: seq<Segment> := [];
      assert Match(none, empty) == Some(map[]);
      MatchCons(Literal("stats"), none, path[2], empty);
      MatchCons(Literal("products"), [Literal("stats")], path[1], [path[2]]);
      MatchCons(Literal("api"), [Literal("products"), Literal("stats")], path[0], path[1..]);
      assert path == [path[0]] + ([path[1]] + ([path[2]] + empty));
    }
  }

  /** `/api/products/:id` on a three-segment path whose first two segments name the collection. */
  lemma MatchById(path: seq<string>)
    requires |path| == 3 && path[2] != ""
    requires JsString.Lower(path[0]) == "api" && JsString.Lower(path[1]) == "products"
    ensures Match(ById, path) == Some(map["id" := path[2]])
  {
    var empty: seq<string> := [];
    var none: seq<Segment> := [];
    assert Match(none, empty) == Some(map[]);
    MatchCons(Param("id"), none, path[2], empty);
    MatchCons(Literal("products"), [Param("id")], path[1], [path[2]]);
    MatchCons(Literal("api"), [Literal("products"), Param("id")], path[0], path[1..]);
    assert path == [path[0]] + ([path[1]] + ([path[2]] + empty));
  }

  /**
   * As registered, a GET of the stats path never reaches the stats handler:
   * the earlier `/api/products/:id` route takes it, with `id` = "stats".
   */
  lemma StatsShadowedById(path: seq<string>)
    requires IsStatsPath(path)
    ensures Dispatch(Registered, Get, path) == Some(Hit(FindOne, map["id" := path[2]]))
  {
    assert path[2] != "" by {
      assert |JsString.Lower(path[2])| == 5;
    }
    MatchSpec(Collection, path);
    MatchById(path);
  }

  /** With the stats route ahead of the id lookup, the stats path reaches the stats handler. */
  lemma CorrectedServesStats(path: seq<string>)
    requires IsStatsPath(path)
    ensures Dispatch(Corrected, Get, path) == Some(Hit(CategoryStats, map[]))
  {
    MatchSpec(Collection, path);
    StatsRouteMatches(Get, path);
  }

  /** A route that does not match can be dropped from anywhere in the table. */
  lemma {:induction false} DispatchSkips(a: seq<Route>, r: Route, b: seq<Route>, verb: Verb, path: seq<string>)
    requires !Matches(r, verb, path)
    ensures Dispatch(a + [r] + b, verb, path) == Dispatch(a + b, verb, path)
    decreases |a|
  {
    if a == [] {
      assert a + [r] + b == [r] + b;
      assert ([r] + b)[1..] == b;
      assert a + b == b;
    } else {
      DispatchSkips(a[1..], r, b, verb, path);
      assert (a + [r] + b)[0] == a[0] && (a + b)[0] == a[0];
      assert (a + [r] + b)[1..] == a[1..] + [r] + b;
      assert (a + b)[1..] == a[1..] + b;
    }
  }

  /** Every request other than a GET of the stats path is dispatched as before. */
  lemma CorrectedAgreesElsewhere(verb: Verb, path: seq<string>)
    requires !(verb == Get && IsStatsPath(path))
    ensures Dispatch(Corrected, verb, path) == Dispatch(Registered, verb, path)
  {
    StatsRouteMatches(verb, path);
    var first := [Route(Get, Collection, ListAll)];
    var middle := [Route(Get, ById, FindOne), Route(Post, Collection, CreateOne), Route(Put, ById, UpdateOne),
                   Route(Delete, ById, DeleteOne), Route(Get, ByName, SearchByName)];
    var last := [Route(Get, [], Banner)];
    assert Registered == first + middle + [StatsRoute] + last;
    assert Corrected == first + [StatsRoute] + (middle + last);
    DispatchSkips(first + middle, StatsRoute, last, verb, path);
    DispatchSkips(first, StatsRoute, middle + last, verb, path);
    assert first + middle + last == first + (middle + last);
  }
}
