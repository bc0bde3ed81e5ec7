# Marble routing core in Dafny

A model of the routing core of the marble HTTP framework, together with the
proofs of what it promises.

- **Route tree.** A route tree of `RouteEffect` leaves and `RouteEffectGroup`
  groups is compiled into a routing table (`factorizeRouting`).
  - The traversal is depth-first.
  - Each group's path prefix and middlewares are prepended to those of its
    children.
  - Each full route path is compiled into an anchored pattern.
  - Declarations whose patterns are identical share one table row, keyed
    by HTTP method.
  - A second declaration of the same pattern and method fails with
    `Redefinition of route at "METHOD: path"`.
- **Lookup.** `findRoute` scans the table in order and commits to the first
  row whose pattern matches the path.
  - If that row has no handler for the request's method, the lookup ends
    with nothing. It does not fall through to later rows.
  - Otherwise the lookup returns the handler's middleware and effect.
  - It also returns the decoded URL parameters. When a name repeats, the
    last position with that name wins.
- **Resolution.** `resolveRouting` splits the URL at `?` and looks up the
  path.
  - On a match, it sets the request's `query` from `queryParamsFactory` and
    its `params`.
  - It then hands the request to the effect, through the middleware when
    there is one.
- **Query strings.** `queryParamsFactory` turns a query string into a map.
  - A key given once holds a string.
  - A repeated key holds the list of its values, in order.
  - A key `name[sub]` fills a one-level nested map.
- **matchPath helpers.** These are the path-string helpers of the
  `matchPath` operator, and the way that operator accumulates the prefixes
  of nested stages.
- **Errors.**
  - The error classes and their guards.
  - The default error effect, which answers every request with the error's
    status (500 unless it is an `HttpError`).
  - The selection of the custom-or-default error effect, for HTTP and for
    websockets.

## Layout

| file | module | contents |
|---|---|---|
| wrappers.dfy | Wrappers | `Option`, `Result` |
| strings.dfy | Strings | `IndexOf`, `Split`, `Join`, `Concat` and their laws |
| http.dfy | Http | the request record the router reads and writes |
| routes.dfy | Routes | the shapes of router.interface.ts |
| path_pattern.dfy | PathPattern | compiled route patterns, their language, matching, the route-path compiler |
| match_path.dfy | MatchPath | the `matchPath` helpers |
| query_params.dfy | QueryParams | `queryParamsFactory`, a reference view of its result, the write/read round trip |
| router_factory.dfy | RouterFactory | `combineRoutes`, flattening, `factorizeRouting` and the table it builds |
| router.dfy | Router | `findRoute`, `resolveRouting` |
| errors.dfy | Errors | `ExtendableError`, `HttpError`, `ServerError`, `isHttpError`, `isServerError` |
| error_effect.dfy | ErrorEffect | `errorEffectProvider`, `getStatusCode`, `errorFactory`, `error$` |
| ws_error_provider.dfy | WsErrorProvider | `provideErrorEffect` |
| scenarios.dfy | Scenarios | the test cases of the router-factory and query-parameter test suites, proved about the model |

### How the pieces are represented

- **Patterns.** A compiled regular expression is a `Pattern`: a sequence of
  pieces and a tail.
  - A piece is either a literal `Lit(text)` or a capture `Param`.
  - The tail is `OptSlash` for `\/?$`, or `Wildcard` for `\/.*?$`.
  - The pattern matches the pieces' texts joined by `/`, followed by text
    the tail accepts. `InLanguage` states that language.
  - `Match` is proved sound and complete for it.
- **Compiling a path.**
  1. A final `*` selects the wildcard tail.
  2. One trailing `/` is removed.
  3. The rest is split on `/`.
  4. A piece `:name` with a non-empty name becomes a capture, and its name
     goes to the handler's `parameters`.
  5. `parameters` is `None` when the path declares no parameter.

  This reproduces the four regular expressions the router-factory test
  expects.
- **Opaque values.** Effects and middlewares are opaque identifiers, and a
  composed middleware is the list of middlewares it runs, `Combined(chain)`.
  The router only stores these and hands them back.
- **Decoding.** `decodeURIComponent` is the parameter `decode` of the
  lookup.
  - A capture group that does not exist reads as the text `undefined`,
    before decoding, as in JavaScript.

## Model

| member | source | states |
|---|---|---|
| MatchPath.RemoveTrailingSlash | src/operators/matchPath.operator.ts:6-7 | the result is the path, or the path less one final `/`; it differs from the path exactly when the path ends in `/` |
| MatchPath.RemoveTrailingSlashAppend | src/operators/matchPath.operator.ts:6-7 | removing the trailing slash undoes appending one |
| MatchPath.RemoveTrailingSlashNotIdempotent | src/operators/matchPath.operator.ts:6-7 | only one slash goes per call: `//` becomes `/`, then the empty string |
| MatchPath.RemoveQueryParams | src/operators/matchPath.operator.ts:9-10 | the result is a `?`-free prefix of the path that ends at the first `?` or at the end |
| MatchPath.RemoveQueryParamsIdempotent | src/operators/matchPath.operator.ts:9-10 | stripping the query twice is stripping it once |
| MatchPath.UrlFactory | src/operators/matchPath.operator.ts:18-19 | the URL handed to the matcher is the `?`-free prefix of the request URL up to its first `?`; a URL without `?` is unchanged |
| MatchPath.PathFactory | src/operators/matchPath.operator.ts:12-16 | the pattern handed to the matcher is the accumulated prefixes, the path and the suffix (empty when absent) concatenated, less one trailing `/` exactly when it ends in one |
| MatchPath.PathFactoryAfterPush | src/operators/matchPath.operator.ts:12-16 | once a stage has pushed prefix `p`, the next stage matches against `p` followed by its own path |
| MatchPath.MatchPathStep | src/operators/matchPath.operator.ts:21-30 | every request leaves with `matchers` defaulted and nothing else changed; it passes exactly when the pattern matches the stripped URL; only a passing stage whose path is not `/` appends that path |
| MatchPath.SiblingSeesPush | src/operators/matchPath.operator.ts:23-29 | two stages for the same path `p` other than `/` on one request: once the first passes, the second tests the accumulated prefixes followed by `p` twice |
| Strings.Split | packages/core/src/router/router.ts:44 | the pieces are `c`-free, at least one, and joined by `c` give back the string; there is one piece exactly when `c` does not occur |
| Strings.SplitJoin | packages/core/src/router/router.ts:44 | splitting `c`-free pieces joined by `c` gives the pieces back |
| Strings.Concat | src/operators/matchPath.operator.ts:14 | reducing no prefixes gives the empty string; otherwise the result starts with the first prefix |
| Strings.ConcatAppend | src/operators/matchPath.operator.ts:14 | reducing a concatenation of two prefix lists is concatenating the two reductions |
| PathPattern.Match | packages/core/src/router/router.ts:14 | a URL matches exactly when it is in the pattern's language; a match has one capture per parameter piece |
| PathPattern.MatchPartsComplete | packages/core/src/router/router.ts:14 | any choice of piece texts and tail that the pattern accepts is found by matching their concatenation, with exactly those texts as the pieces' matches |
| PathPattern.Compile | packages/core/src/router/specs/router.factory.spec.ts:47-67 | a compiled route path has at least one piece; its parameter list is absent exactly when it has no captures, and otherwise names one parameter per capture |
| PathPattern.ParamNamesInOrder | packages/core/src/router/specs/router.factory.spec.ts:53-65 | the parameter names are the texts after `:` of the parameter pieces, in path order: the same selection `Captures` makes of the matched texts |
| PathPattern.CompiledNames | packages/core/src/router/specs/router.factory.spec.ts:53-65 | the i-th name of a compiled route path is the text after `:` of its i-th `:name` piece, and there are no other names |
| PathPattern.CompiledPathMatches | packages/core/src/router/specs/router.factory.spec.ts:53-65 | a route path with its literal pieces kept, each `:name` piece replaced by a non-empty `/`-free text and any text its tail admits appended (nothing or `/`; for `*`, `/` and the rest of the line) matches, capturing exactly the replacement texts in order |
| PathPattern.CompiledLiteralMatchesItself | packages/core/src/router/specs/router.factory.spec.ts:47-51 | a route path without parameters or wildcard matches itself, with or without one trailing `/`, and captures nothing |
| Router.Params | packages/core/src/router/router.ts:27-33 | the keys are exactly the parameter names; each name maps to the decoded capture at its last position, and a missing capture decodes `undefined` |
| Router.Commit | packages/core/src/router/router.ts:20-35 | nothing when the row has no handler for the method; otherwise the handler's middleware and effect, and no parameters unless it declares some |
| Router.FindRoute | packages/core/src/router/router.ts:7-38 | no matching row gives nothing; otherwise the result is what the first matching row yields for the method |
| Router.NoFallthrough | packages/core/src/router/router.ts:20-24 | when the first matching row lacks the method, the lookup fails even though a later matching row has it |
| Router.FindRouteAppend | packages/core/src/router/router.ts:12-18 | rows after a table that already matches are never consulted; otherwise only they are |
| Router.FittingTableParams | packages/core/src/router/router.ts:26-35 | in a table whose parameter lists fit their patterns, a found handler's parameters are keyed by exactly its names, each holding the decoded capture at its last position |
| Router.SplitUrl | packages/core/src/router/router.ts:44 | the path is the URL before the first `?`; the query is absent exactly when there is no `?`, and is otherwise the text between the first `?` and the next one |
| Router.SplitUrlJoin | packages/core/src/router/router.ts:44 | splitting `path?query` gives the path and the query back, and a `?`-free URL has no query |
| Router.ResolveRouting | packages/core/src/router/router.ts:40-60 | an unmatched request gets no response; a matched one runs the found effect, through the middleware exactly when there is one, on the request with `query` parsed from the URL and `params` from the lookup |
| Router.QueryDoesNotRoute | packages/core/src/router/router.ts:44-52 | appending a query string changes neither whether a request is served, nor which effect serves it, nor whether a middleware runs and which one, nor its `params` |
| RouterFactory.CombineRoutes | packages/core/src/router/specs/router.factory.spec.ts:89-148 | the group keeps the prefix and the effects; its middlewares are the given list, or empty when none are given |
| RouterFactory.FlattenAppend | packages/core/src/router/specs/router.factory.spec.ts:15-68 | flattening a concatenation of routes is concatenating their flattenings, so routes keep declaration order |
| RouterFactory.FlattenCount | packages/core/src/router/specs/router.factory.spec.ts:15-68 | there is one flattened route per leaf of the tree |
| RouterFactory.FlattenRebase | packages/core/src/router/specs/router.factory.spec.ts:15-68 | flattening under a prefix and middleware chain prepends them to every route flattened at the top |
| RouterFactory.MiddlewareOf | packages/core/src/router/specs/router.factory.spec.ts:47-67 | no middleware exactly when no enclosing group has one; otherwise their composition in order |
| RouterFactory.Build | packages/core/src/router/specs/router.factory.spec.ts:70-87 | fails exactly when some pattern and method are declared twice, with the message of the first repeat; otherwise the rows are the distinct patterns in first-declaration order, and every pattern and method looks up its first declaration |
| RouterFactory.InsertSpec | packages/core/src/router/specs/router.factory.spec.ts:47-67 | adding a declaration fails exactly when its pattern already has the method; otherwise only that one lookup changes, and a new row is added only for a new pattern |
| RouterFactory.DeclaredIff | packages/core/src/router/specs/router.factory.spec.ts:47-67 | a pattern and method have a handler exactly when some declaration has them |
| RouterFactory.FactorizedTableFits | packages/core/src/router/router.interface.ts:23-33 | in a factorized table, every handler has one parameter name per capture of its row's pattern, and none when there are none |
| RouterFactory.FactorizeRouting | packages/core/src/router/specs/router.factory.spec.ts:15-87 | fails exactly when two routes of the tree share a compiled pattern and a method; otherwise each route is found under its own pattern and method with its own handler, and every pattern and method that finds something comes from a route of the tree |
| QueryParams.QueryParamsFactory | packages/core/src/router/specs/queryParams.factory.spec.ts:4-15 | a missing or empty query gives the empty map |
| QueryParams.ParsePair | packages/core/src/router/specs/queryParams.factory.spec.ts:17-63 | the key of a piece has no `=`; writing the pair back gives the piece, or the piece followed by `=` when it had none, in which case the value is empty |
| QueryParams.FoldPlain | packages/core/src/router/specs/queryParams.factory.spec.ts:29-51 | a key used only plainly is present exactly when it occurs, holding its one value, or the list of its values in query order |
| QueryParams.FoldBracketKey | packages/core/src/router/specs/queryParams.factory.spec.ts:53-63 | a key used only with brackets is present exactly when it occurs, holding a nested map |
| QueryParams.FoldBracket | packages/core/src/router/specs/queryParams.factory.spec.ts:53-63 | in that nested map, a sub-key is present exactly when it occurs, holding its one value or its values in order |
| QueryParams.ParseRender | packages/core/src/router/specs/queryParams.factory.spec.ts:17-63 | a well-formed pair written as `k=v` or `k[s]=v` reads back as itself |
| QueryParams.ParseKeyOnly | packages/core/src/router/specs/queryParams.factory.spec.ts:17-27 | a piece without `=` is a key with the empty value |
| QueryParams.ReadWrite | packages/core/src/router/specs/queryParams.factory.spec.ts:29-63 | a query written from well-formed pairs parses to the fold of those pairs |
| Errors.ConstructorsClassify | src/util/error.util.ts:12-34 | an `HttpError` is recognised by `isHttpError` and not `isServerError`; a `ServerError` the other way round |
| Errors.ClassesDisjoint | src/util/error.util.ts:30-34 | no error is both an HTTP error and a server error |
| Errors.ClassifiedByName | src/util/error.util.ts:3-31 | the guards look only at the name: any error named `HttpError` is an HTTP error, and two errors with the same name are classified alike |
| Errors.ExtendableError | src/util/error.util.ts:3-10 | the error has the given name and message and no other field set |
| Errors.HttpError | src/util/error.util.ts:12-19 | the error is named `HttpError` and carries the message and the status |
| Errors.ServerError | src/util/error.util.ts:21-28 | the error is named `ServerError` and carries the message and the wrapped error |
| Errors.IsHttpError | src/util/error.util.ts:30-31 | an error that passes is not named `ServerError` |
| Errors.IsServerError | src/util/error.util.ts:33-34 | an error that passes is not named `HttpError` |
| ErrorEffect.ErrorEffectProvider | packages/core/src/error/error.effect.ts:8-10 | a supplied error effect is used; otherwise the default one |
| ErrorEffect.GetStatusCode | packages/core/src/error/error.effect.ts:12-14 | an error classified as an HTTP error answers with its own status, any other with 500 |
| ErrorEffect.ErrorFactory | packages/core/src/error/error.effect.ts:16-18 | the body holds the message, the status and the data as given |
| ErrorEffect.ErrorResponseFor | packages/core/src/error/error.effect.ts:12-28 | the response status equals the status in its body, is the one `getStatusCode` gives, and the body carries the error's message and data |
| ErrorEffect.StatusByKind | packages/core/src/error/error.effect.ts:12-14 | an `HttpError` answers with its status, a `ServerError` or plain error with 500, and an error merely named `HttpError` with no status at all |
| ErrorEffect.ErrorEffect | packages/core/src/error/error.effect.ts:20-29 | one response per request, each the response for the error |
| ErrorEffect.ErrorEffectIgnoresRequests | packages/core/src/error/error.effect.ts:20-29 | the responses depend on the number of requests only, not on their contents |
| WsErrorProvider.ProvideErrorEffect | packages/websockets/src/error/ws-error.provider.ts:6-12 | a supplied effect is used; with neither effect nor transformer the default; with only a transformer nothing |
| WsErrorProvider.ProvidesDefaultOrArgument | packages/websockets/src/error/ws-error.provider.ts:6-12 | the result is the default or the argument, and the default only when no effect was supplied |
| Scenarios.CompileRoot | packages/core/src/router/specs/router.factory.spec.ts:49 | `/` compiles to the pattern of `^\/?$` with no parameters |
| Scenarios.CompileId | packages/core/src/router/specs/router.factory.spec.ts:53-56 | `/:id/` compiles to the pattern of `^\/([^\/]+)\/?$` with parameters `["id"]` |
| Scenarios.CompileNested | packages/core/src/router/specs/router.factory.spec.ts:60-61 | `/:id/nested/` compiles to the pattern of `^\/([^\/]+)\/nested\/?$` with parameters `["id"]` |
| Scenarios.CompileWildcard | packages/core/src/router/specs/router.factory.spec.ts:64-65 | `/:id*` compiles to the pattern of `^\/([^\/]+)\/.*?$` with parameters `["id"]` |
| Scenarios.FactorizeNested | packages/core/src/router/specs/router.factory.spec.ts:15-68 | the nested route tree of the test factorizes into the expected four-row table |
| Scenarios.FactorizeRedefined | packages/core/src/router/specs/router.factory.spec.ts:70-87 | declaring `GET /test` twice fails with `Redefinition of route at "GET: /test"` |
| Scenarios.CombineEffectsOnly | packages/core/src/router/specs/router.factory.spec.ts:90-105 | combining effects only gives a group with no middlewares |
| Scenarios.CombineWithMiddlewares | packages/core/src/router/specs/router.factory.spec.ts:107-128 | combining a configuration keeps its middlewares in order |
| Scenarios.CombineWithoutMiddlewares | packages/core/src/router/specs/router.factory.spec.ts:130-147 | a configuration without middlewares gives an empty middleware list |
| Scenarios.QueryNoParams | packages/core/src/router/specs/queryParams.factory.spec.ts:4-15 | a missing or empty query gives `{}` |
| Scenarios.QueryKeyWithoutValue | packages/core/src/router/specs/queryParams.factory.spec.ts:17-27 | `testParam` gives `{ testParam: '' }` |
| Scenarios.QueryTwoKeys | packages/core/src/router/specs/queryParams.factory.spec.ts:29-39 | two keys give two single values |
| Scenarios.QueryRepeatedKey | packages/core/src/router/specs/queryParams.factory.spec.ts:41-51 | a repeated key gives the list of its values in order |
| Scenarios.QueryNested | packages/core/src/router/specs/queryParams.factory.spec.ts:53-63 | `testParam[testNested]=test` gives a nested object |
| Scenarios.GetById | packages/core/src/router/router.ts:12-35 | in the test's table, `GET /v` finds the `/:id` handler with `id` decoded from `v` |
| Scenarios.WildcardMethodIsLiteral | packages/core/src/router/router.ts:20-24 | in the test's table, `/v/w` reaches the wildcard row, which serves a request whose method is `*` and finds nothing for any other method |
| Scenarios.ResolveExample | packages/core/src/router/router.ts:40-60 | `GET /42?page=1` runs the `/:id` effect through its middleware, with `id` decoded from `42` and query `{ page: '1' }` |

## Left out

- The HTTP listener, the effects combiner and the default 404 response are left out. They are the streaming plumbing around the router. `resolveRouting`'s result is a `Dispatch` value that says which effect runs and on what input, not an Observable.
- The middleware packages (body parsing, joi validation, logging) are left out. They are handlers the router stores, not routing logic.
- The implementation of `factorizeRouting` is not part of this model. `RouterFactory.FactorizeRouting` is built from its test suite.
  - It flattens the tree depth-first.
  - It merges a declaration into any earlier row with an identical pattern.
  - It fails on the first repeated pattern and method. The message names the full path of the repeat.
- The test of the nested tree mocks middleware composition, so any composed middleware equals any other there. In the model a composed middleware is the chain of middlewares it runs, from the outermost group inward. The test's expected table is stated with those chains.
- The implementation of `queryParamsFactory` is not part of this model. `QueryParams.QueryParamsFactory` follows its test suite.
  - Percent-decoding of query text is left out.
  - Nesting deeper than one level is left out.
  - Array syntax `a[]` is left out.
  - When one key is used both plainly and with brackets, the model keeps the first form and drops the conflicting pairs.
- Regular expressions are modelled only in the shapes the route compiler produces.
  - A literal piece is matched as plain text. Regular-expression metacharacters in a route path are not modelled.
  - A parameter embedded in the middle of a piece, such as `a:b`, is a literal.
  - A parameter name runs to the end of its piece: `/:id.json` declares one parameter named `id.json`. The library's stricter name rules and its `(regex)` and `?` modifiers are not modelled.
- Requests are modelled as values. The source updates one request object in place and hands that same object to sibling effects, so every later holder sees the update.
  - For `matchers` (matchPath.operator.ts:23,29) the model shows this by threading the request from one `MatchPathStep` to the next (`MatchPath.SiblingSeesPush`).
  - The writes of `query` and `params` at router.ts:51-52 appear only on the request carried inside the `Dispatch` result. That a later holder of the same request object sees them is not modelled.
- `path-to-regexp` is left out. It is the `test` parameter of `MatchPath.MatchPathStep`.
- `decodeURIComponent` is left out: it is the `decode` parameter. The `URIError` it throws on a malformed escape is not modelled.
- HTTP methods are strings, and a row's handlers are looked up by exact key.
  - A route declared with method `*` is served only to requests whose method is literally `*`. This is what `methods[method]` at router.ts:20 does.
- Object keys that JavaScript objects inherit, such as `constructor`, are not modelled. Lookups see only declared keys.
- `error.model.ts` is not part of this model. `isHttpError` is taken from src/util/error.util.ts, which defines it by the error's name alone.
- The websocket default error effect itself, `ws-error.effect.ts`, is not part of this model. It is named by `WsErrorProvider.DefaultWsError`.
- QueryParams.QueryParamsFactory: its own contract states only the empty cases. What it yields for other queries is stated by `FoldPlain`, `FoldBracketKey`, `FoldBracket` and `ReadWrite`.
