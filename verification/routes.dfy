/** The shapes of router.interface.ts: the declared route tree, the compiled
    routing table and the result of a lookup. Effects and middlewares are
    functions over request streams in the source; here they are opaque
    identifiers, since the router only stores and hands them back. */
module Routes {
  import opened Wrappers
  import opened Http
  import opened PathPattern

  type EffectId = nat
  type MiddlewareId = nat

  /** `RouteEffect | RouteEffectGroup`: a leaf route, or a group with a path
      prefix, its middlewares in order and its children in order. */
  datatype RouteNode =
    | RouteEffect(path: string, verb: HttpMethod, effect: EffectId)
    | RouteEffectGroup(path: string, middlewares: seq<MiddlewareId>, effects: seq<RouteNode>)

  /** `RouteCombinerConfig`: `middlewares` may be left out. */
  datatype RouteCombinerConfig = RouteCombinerConfig(middlewares: Option<seq<MiddlewareId>>, effects: seq<RouteNode>)

  /** The middlewares of every enclosing group, composed into one middleware
      that runs them left to right (`combineMiddlewareEffects`). */
  datatype Middleware = Combined(chain: seq<MiddlewareId>)

  /** `RoutingMethod`: what one method of one table row runs. */
  datatype RoutingMethod = RoutingMethod(parameters: Option<seq<string>>, middleware: Option<Middleware>, effect: EffectId)

  /** `RoutingItem`: one compiled pattern and a partial map from method to handler. */
  datatype RoutingItem = RoutingItem(pattern: Pattern, methods: map<HttpMethod, RoutingMethod>)

  /** `Routing`: the table, searched in order. */
  type Routing = seq<RoutingItem>

  /** `RouteMatched`: the handler chosen for a request and its URL parameters. */
  datatype RouteMatched = RouteMatched(middleware: Option<Middleware>, effect: EffectId, params: map<string, string>)

  /** A handler's parameter names are one per capture group of its row's
      pattern (`undefined` when the pattern has none). */
  predicate ParamsFit(p: Pattern, parameters: Option<seq<string>>) {
    match parameters
    case None => ParamCount(p.parts) == 0
    case Some(names) => |names| == ParamCount(p.parts) && |names| > 0
  }

  /** Every handler of every row fits that row's pattern. */
  predicate TableFits(routing: Routing) {
    forall a, m :: 0 <= a < |routing| && m in routing[a].methods ==>
      ParamsFit(routing[a].pattern, routing[a].methods[m].parameters)
  }
}
