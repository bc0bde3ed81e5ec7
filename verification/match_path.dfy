/** The path-string helpers of the `matchPath` operator
    (src/operators/matchPath.operator.ts) and its matcher-accumulation rule. */
module MatchPath {
  import opened Wrappers
  import opened Strings
  import opened Http

  /** `path.replace(/\/$/, '')`: drops one final `/`, if there is one. */
  function RemoveTrailingSlash(path: string): (r: string)
    ensures r == path || r + "/" == path
    ensures r != path <==> (|path| > 0 && path[|path| - 1] == '/')
  {
    if |path| > 0 && path[|path| - 1] == '/' then path[..|path| - 1] else path
  }

  /** `path.split('?')[0]`: everything before the first `?`. */
  function RemoveQueryParams(path: string): (r: string)
    ensures '?' !in r
    ensures |r| <= |path| && path[..|r|] == r
    ensures r == path || path[|r|] == '?'
  {
    SplitHead(path, '?');
    Split(path, '?')[0]
  }

  /** `urlFactory`: the request URL with its query string stripped, which
      leaves a URL free of `?` untouched. */
  function UrlFactory(url: string): (r: string)
    ensures '?' !in r && |r| <= |url| && url[..|r|] == r
    ensures '?' !in url ==> r == url
    ensures '?' in url ==> url[|r|] == '?'
  {
    RemoveQueryParams(url)
  }

  /** `pathFactory`: the accumulated matcher prefixes, then the path, then the
      optional suffix (`suffix || ''`), with one trailing `/` removed. */
  function PathFactory(matchers: seq<string>, path: string, suffix: Option<string>): (r: string)
    ensures var full := Concat(matchers) + path + suffix.GetOr("");
            && (r == full || r + "/" == full)
            && (r != full <==> |full| > 0 && full[|full| - 1] == '/')
  {
    RemoveTrailingSlash(Concat(matchers) + path + suffix.GetOr(""))
  }

  /** What one `matchPath(path, suffix)` stage does to one request: the request
      object afterwards (the first `tap` runs for every request, so even a
      request that is filtered out has its `matchers` defaulted to `[]`), and
      whether the request is passed downstream. `test(pattern, url)` stands
      for `pathToRegexp(pattern).test(url)`, a library outside the model. */
  datatype Step = Step(request: Request, passed: bool)

  function MatchPathStep(req: Request, path: string, suffix: Option<string>,
                         test: (string, string) -> bool): (s: Step)
    ensures s.request == req.(matchers := s.request.matchers)
    ensures s.request.matchers.Some?
    ensures s.passed <==> test(PathFactory(req.matchers.GetOr([]), path, suffix), UrlFactory(req.url))
    ensures !s.passed ==> s.request.matchers.value == req.matchers.GetOr([])
    ensures s.passed && path == "/" ==> s.request.matchers.value == req.matchers.GetOr([])
    ensures s.passed && path != "/" ==> s.request.matchers.value == req.matchers.GetOr([]) + [path]
  {
    var matchers := req.matchers.GetOr([]);
    var passed := test(PathFactory(matchers, path, suffix), UrlFactory(req.url));
    var pushed := if passed && path != "/" then matchers + [path] else matchers;
    Step(req.(matchers := Some(pushed)), passed)
  }

  /** Removing a trailing slash undoes appending one. */
  lemma RemoveTrailingSlashAppend(s: string)
    ensures RemoveTrailingSlash(s + "/") == s
  {
    assert (s + "/")[..|s|] == s;
  }

  /** `removeTrailingSlash` is not idempotent: `"//"` loses one slash per call. */
  lemma RemoveTrailingSlashNotIdempotent()
    ensures RemoveTrailingSlash("//") == "/"
    ensures RemoveTrailingSlash(RemoveTrailingSlash("//")) == ""
  {
  }

  /** Stripping the query twice is stripping it once. */
  lemma RemoveQueryParamsIdempotent(path: string)
    ensures RemoveQueryParams(RemoveQueryParams(path)) == RemoveQueryParams(path)
  {
    var r := RemoveQueryParams(path);
  }

  /** Nested `matchPath` stages compose: after a stage for a prefix `p` (other
      than `/`) lets a request through, the next stage tests the prefix and its
      own path concatenated. */
  lemma {:induction false} PathFactoryAfterPush(matchers: seq<string>, p: string, path: string, suffix: Option<string>)
    ensures PathFactory(matchers + [p], path, suffix)
         == RemoveTrailingSlash(Concat(matchers) + p + path + suffix.GetOr(""))
  {
    ConcatAppend(matchers, [p]);
  }

  /** Sibling effects receive the same request object, so a later sibling's
      stage runs on the request an earlier sibling's stage left behind. When
      the earlier stage for a path `p` other than `/` passes, the later stage
      for the same `p` tests `p` twice over: under `/users`, a `GET` branch
      that passes makes a `POST` branch test `/users/users`. */
  lemma {:induction false} SiblingSeesPush(req: Request, p: string, suffix: Option<string>,
                                           test: (string, string) -> bool)
    requires p != "/"
    ensures var first := MatchPathStep(req, p, suffix, test);
            var second := MatchPathStep(first.request, p, suffix, test);
            first.passed ==>
              (second.passed <==> test(RemoveTrailingSlash(Concat(req.matchers.GetOr([])) + p + p + suffix.GetOr("")),
                                       UrlFactory(req.url)))
  {
    var first := MatchPathStep(req, p, suffix, test);
    if first.passed {
      PathFactoryAfterPush(req.matchers.GetOr([]), p, p, suffix);
    }
  }
}
