/** The resolver (router.ts): `findRoute` scans the table in order and
    commits to the first row whose pattern matches, and `resolveRouting`
    splits the URL at `?`, resolves the path and decides what runs. */
module Router {
  import opened Wrappers
  import opened Strings
  import opened Http
  import opened QueryParams
  import opened PathPattern
  import opened Routes
  import MatchPath

  /** `match[p + 1]`: capture `p`. Past the last capture group the source
      reads `undefined`, which `decodeURIComponent` renders as "undefined". */
  function CaptureAt(caps: seq<string>, p: nat): string {
    if p < |caps| then caps[p] else "undefined"
  }

  /** Position `p` is the last one carrying its name. */
  predicate LastOccurrence(names: seq<string>, p: int)
    requires 0 <= p < |names|
  {
    forall q :: p < q < |names| ==> names[q] != names[p]
  }

  /** The loop `params[parameters[p]] = decodeURIComponent(match[p + 1])`:
      every name is a key, and a repeated name keeps its last capture.
      `decode` stands for `decodeURIComponent`. */
  function Params(names: seq<string>, caps: seq<string>, decode: string -> string): (params: map<string, string>)
    ensures params.Keys == set n | n in names
    ensures forall p :: 0 <= p < |names| && LastOccurrence(names, p) ==>
                          params[names[p]] == decode(CaptureAt(caps, p))
  {
    if |names| == 0 then map[]
    else
      var k := |names| - 1;
      var before := Params(names[..k], caps, decode);
      ParamsStep(names, caps, decode, before);
      before[names[k] := decode(CaptureAt(caps, k))]
  }

  lemma ParamsStep(names: seq<string>, caps: seq<string>, decode: string -> string, before: map<string, string>)
    requires |names| > 0
    requires var k := |names| - 1;
             && before.Keys == (set n | n in names[..k])
             && forall p :: 0 <= p < k && LastOccurrence(names[..k], p) ==>
                              names[..k][p] in before && before[names[..k][p]] == decode(CaptureAt(caps, p))
    ensures var k := |names| - 1;
            var params := before[names[k] := decode(CaptureAt(caps, k))];
            && params.Keys == (set n | n in names)
            && forall p :: 0 <= p < |names| && LastOccurrence(names, p) ==>
                             names[p] in params && params[names[p]] == decode(CaptureAt(caps, p))
  {
    var k := |names| - 1;
    NamesSnoc(names);
    forall p | 0 <= p < k && LastOccurrence(names, p)
      ensures LastOccurrence(names[..k], p) && names[p] != names[k]
    {
    }
  }

  lemma NamesSnoc(names: seq<string>)
    requires |names| > 0
    ensures var init := names[..|names| - 1];
            (set n | n in names) == (set n | n in init) + {names[|names| - 1]}
  {
    assert names == names[..|names| - 1] + [names[|names| - 1]];
  }

  /** What the scan returns once it has committed to `item`: nothing when the
      row has no handler under exactly `verb`, otherwise that handler's
      middleware and effect with the decoded parameters. */
  function Commit(item: RoutingItem, caps: seq<string>, verb: HttpMethod, decode: string -> string): (r: Option<RouteMatched>)
    ensures r.None? <==> verb !in item.methods
    ensures r.Some? ==> r.value.effect == item.methods[verb].effect
    ensures r.Some? ==> r.value.middleware == item.methods[verb].middleware
    ensures r.Some? && item.methods[verb].parameters.None? ==> r.value.params == map[]
    ensures r.Some? && item.methods[verb].parameters.Some? ==>
              r.value.params == Params(item.methods[verb].parameters.value, caps, decode)
  {
    if verb !in item.methods then None
    else
      var rm := item.methods[verb];
      var params := if rm.parameters.Some? then Params(rm.parameters.value, caps, decode) else map[];
      Some(RouteMatched(rm.middleware, rm.effect, params))
  }

  predicate MatchesAt(routing: Routing, url: string, i: int)
    requires 0 <= i < |routing|
  {
    Match(routing[i].pattern, url).Some?
  }

  /** Row `i` is the first row at or after `from` whose pattern matches `url`. */
  predicate IsFirstMatch(routing: Routing, url: string, from: int, i: int) {
    && 0 <= from <= i < |routing|
    && MatchesAt(routing, url, i)
    && forall j :: from <= j < i ==> !MatchesAt(routing, url, j)
  }

  /** The loop of `findRoute` from row `from` on. */
  function FindFrom(routing: Routing, url: string, verb: HttpMethod, decode: string -> string, from: nat): (r: Option<RouteMatched>)
    requires from <= |routing|
    ensures (forall j :: from <= j < |routing| ==> !MatchesAt(routing, url, j)) ==> r.None?
    ensures forall i :: IsFirstMatch(routing, url, from, i) ==>
              r == Commit(routing[i], Match(routing[i].pattern, url).value, verb, decode)
    decreases |routing| - from
  {
    if from == |routing| then None
    else if !MatchesAt(routing, url, from) then
      SkipRow(routing, url, from);
      FindFrom(routing, url, verb, decode, from + 1)
    else
      StopAtRow(routing, url, from);
      Commit(routing[from], Match(routing[from].pattern, url).value, verb, decode)
  }

  /** A row that does not match is skipped. */
  lemma SkipRow(routing: Routing, url: string, from: nat)
    requires from < |routing| && !MatchesAt(routing, url, from)
    ensures forall i :: IsFirstMatch(routing, url, from, i) ==> IsFirstMatch(routing, url, from + 1, i)
    ensures (forall j :: from + 1 <= j < |routing| ==> !MatchesAt(routing, url, j))
            ==> forall j :: from <= j < |routing| ==> !MatchesAt(routing, url, j)
  {
  }

  /** A row that matches is the first match from its own position. */
  lemma StopAtRow(routing: Routing, url: string, from: nat)
    requires from < |routing| && MatchesAt(routing, url, from)
    ensures forall i :: IsFirstMatch(routing, url, from, i) ==> i == from
  {
  }

  /** `findRoute(routing, url, method)`: the first row whose pattern matches
      decides; rows after it are never consulted, even when the first one has
      no handler for the method. */
  function FindRoute(routing: Routing, url: string, verb: HttpMethod, decode: string -> string): (r: Option<RouteMatched>)
    ensures (forall j :: 0 <= j < |routing| ==> !MatchesAt(routing, url, j)) ==> r.None?
    ensures forall i :: IsFirstMatch(routing, url, 0, i) ==>
              r == Commit(routing[i], Match(routing[i].pattern, url).value, verb, decode)
  {
    FindFrom(routing, url, verb, decode, 0)
  }

  /** On a table whose handlers fit their patterns (as every table
      `factorizeRouting` builds does), each parameter is decoded from its own
      capture group: the `undefined` fallback of `match[p + 1]` is never read. */
  lemma FittingTableParams(routing: Routing, url: string, verb: HttpMethod, decode: string -> string, i: nat)
    requires TableFits(routing)
    requires IsFirstMatch(routing, url, 0, i) && verb in routing[i].methods
    ensures var r := FindRoute(routing, url, verb, decode);
            var caps := Match(routing[i].pattern, url).value;
            var names := routing[i].methods[verb].parameters;
            && r.Some?
            && (names.None? ==> r.value.params == map[])
            && (names.Some? ==> |names.value| == |caps| && r.value.params.Keys == set n | n in names.value)
            && (names.Some? ==> forall p :: 0 <= p < |names.value| && LastOccurrence(names.value, p) ==>
                                  r.value.params[names.value[p]] == decode(caps[p]))
  {
    var caps := Match(routing[i].pattern, url).value;
    assert ParamsFit(routing[i].pattern, routing[i].methods[verb].parameters);
    assert forall p :: 0 <= p < |caps| ==> CaptureAt(caps, p) == caps[p];
  }

  /** First match commits: a later row that would serve the method is never
      reached when an earlier matching row lacks it. The row `j` and its
      requires are not needed by the proof; they only name the scenario, a
      later matching row that does serve `verb`, which the lookup skips. */
  lemma NoFallthrough(routing: Routing, url: string, verb: HttpMethod, decode: string -> string, i: nat, j: nat)
    requires IsFirstMatch(routing, url, 0, i)
    requires verb !in routing[i].methods
    requires i < j < |routing| && MatchesAt(routing, url, j) && verb in routing[j].methods
    ensures FindRoute(routing, url, verb, decode) == None
  {
  }

  /** Tables compose in order: rows appended after a table only matter for a
      URL that no row of the table matches. */
  lemma FindRouteAppend(a: Routing, b: Routing, url: string, verb: HttpMethod, decode: string -> string)
    ensures FindRoute(a + b, url, verb, decode)
         == if exists i :: 0 <= i < |a| && MatchesAt(a, url, i) then FindRoute(a, url, verb, decode)
            else FindRoute(b, url, verb, decode)
  {
    var ab := a + b;
    if exists i :: 0 <= i < |a| && MatchesAt(a, url, i) {
      var i := FirstMatching(a, url);
      assert IsFirstMatch(ab, url, 0, i) by {
        forall j | 0 <= j < i ensures !MatchesAt(ab, url, j) {
          assert ab[j] == a[j] && !MatchesAt(a, url, j);
        }
      }
    } else if exists i :: 0 <= i < |b| && MatchesAt(b, url, i) {
      var i := FirstMatching(b, url);
      assert IsFirstMatch(ab, url, 0, |a| + i) by {
        forall j | 0 <= j < |a| + i ensures !MatchesAt(ab, url, j) {
          if j < |a| {
            assert ab[j] == a[j] && !MatchesAt(a, url, j);
          } else {
            assert ab[j] == b[j - |a|] && !MatchesAt(b, url, j - |a|);
          }
        }
      }
    } else {
      forall j | 0 <= j < |ab| ensures !MatchesAt(ab, url, j) {
        if j < |a| {
          assert ab[j] == a[j] && !MatchesAt(a, url, j);
        } else {
          assert ab[j] == b[j - |a|] && !MatchesAt(b, url, j - |a|);
        }
      }
    }
  }

  /** The first matching row of a table that has one. */
  lemma FirstMatching(routing: Routing, url: string) returns (i: nat)
    requires exists k :: 0 <= k < |routing| && MatchesAt(routing, url, k)
    ensures IsFirstMatch(routing, url, 0, i)
  {
    var k :| 0 <= k < |routing| && MatchesAt(routing, url, k);
    i := 0;
    while !MatchesAt(routing, url, i)
      invariant i <= k
      invariant forall j :: 0 <= j < i ==> !MatchesAt(routing, url, j)
      decreases k - i
    {
      i := i + 1;
    }
  }

  // ---------------------------------------------------------------------------
  // resolveRouting

  /** `req.url.split('?')` destructured into its first two pieces: the path,
      and the query (`undefined` when the URL has no `?`). */
  function SplitUrl(url: string): (r: (string, Option<string>))
    ensures r.0 == MatchPath.RemoveQueryParams(url)
    ensures r.1.None? <==> '?' !in url
    ensures r.1.Some? ==> '?' !in r.1.value
    ensures r.1.Some? ==>
              var rest := url[|r.0| + 1..];
              && |r.1.value| <= |rest|
              && rest[..|r.1.value|] == r.1.value
              && (|r.1.value| == |rest| || rest[|r.1.value|] == '?')
  {
    var parts := Split(url, '?');
    SplitHead(url, '?');
    if |parts| > 1 then
      SplitSecond(url, '?');
      (parts[0], Some(parts[1]))
    else (parts[0], None)
  }

  /** A path and a query free of `?`, joined by `?`, are split back apart;
      a URL free of `?` is all path. */
  lemma SplitUrlJoin(path: string, query: string)
    requires '?' !in path && '?' !in query
    ensures SplitUrl(path + "?" + query) == (path, Some(query))
    ensures SplitUrl(path) == (path, None)
  {
    SplitJoin([path, query], '?');
    SplitJoin([path], '?');
  }

  /** What the stage that runs a matched route receives. */
  datatype Input = Direct(req: Request) | AfterMiddleware(middleware: Middleware, req: Request)

  /** The observable `resolveRouting` returns: empty, or the route's effect
      applied to the request (through the route's middleware, if it has one). */
  datatype Dispatch = NoResponse | RunEffect(effect: EffectId, input: Input)

  /** `resolveRouting(routing)(res)(req)`. On a match the request gains its
      parsed query and its URL parameters and nothing else about it changes;
      with no match nothing is set. */
  function ResolveRouting(routing: Routing, req: Request, decode: string -> string): (d: Dispatch)
    ensures var found := FindRoute(routing, MatchPath.RemoveQueryParams(req.url), req.verb, decode);
            && (d.NoResponse? <==> found.None?)
            && (d.RunEffect? ==>
                  && d.effect == found.value.effect
                  && (d.input.AfterMiddleware? <==> found.value.middleware.Some?)
                  && (d.input.AfterMiddleware? ==> d.input.middleware == found.value.middleware.value)
                  && d.input.req == req.(query := Some(QueryParamsFactory(SplitUrl(req.url).1)),
                                         params := Some(found.value.params)))
  {
    var (path, query) := SplitUrl(req.url);
    match FindRoute(routing, path, req.verb, decode)
    case None => NoResponse
    case Some(matched) =>
      var routed := req.(query := Some(QueryParamsFactory(query)), params := Some(matched.params));
      match matched.middleware
      case Some(m) => RunEffect(matched.effect, AfterMiddleware(m, routed))
      case None => RunEffect(matched.effect, Direct(routed))
  }

  /** Only the text before the first `?` is matched: appending a query string
      to a path never changes which effect runs or through which middleware. */
  lemma QueryDoesNotRoute(routing: Routing, req: Request, query: string, decode: string -> string)
    requires '?' !in req.url
    ensures var withQuery := req.(url := req.url + "?" + query);
            var d1 := ResolveRouting(routing, req, decode);
            var d2 := ResolveRouting(routing, withQuery, decode);
            && (d1.NoResponse? <==> d2.NoResponse?)
            && (d1.RunEffect? ==> d1.effect == d2.effect)
            && (d1.RunEffect? ==> d1.input.AfterMiddleware? == d2.input.AfterMiddleware?)
            && (d1.RunEffect? && d1.input.AfterMiddleware? ==> d1.input.middleware == d2.input.middleware)
            && (d1.RunEffect? ==> d1.input.req.params == d2.input.req.params)
  {
    var url := req.url + "?" + query;
    IndexOfPrefix(req.url, '?', query);
    SplitHead(url, '?');
    assert url[..|req.url|] == req.url;
  }
}
