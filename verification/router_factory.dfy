/** The route compiler: `combineRoutes` builds a group, and `factorizeRouting`
    flattens the route tree depth-first, compiles each route's full path,
    merges routes whose patterns coincide into one table row, and rejects a
    second declaration of the same method on the same pattern. */
module RouterFactory {
  import opened Wrappers
  import opened Strings
  import opened Http
  import opened PathPattern
  import opened Routes

  /** The second argument of `combineRoutes`: a bare list of effects or a
      configuration object. */
  datatype CombinerInput = EffectList(effects: seq<RouteNode>) | WithConfig(config: RouteCombinerConfig)

  /** `combineRoutes(path, input)`: a group at `path`; a bare list has no
      middlewares, a configuration keeps its middlewares (default `[]`). */
  function CombineRoutes(path: string, input: CombinerInput): (g: RouteNode)
    ensures g.RouteEffectGroup? && g.path == path
    ensures input.EffectList? ==> g.middlewares == [] && g.effects == input.effects
    ensures input.WithConfig? && input.config.middlewares.Some? ==> g.middlewares == input.config.middlewares.value
    ensures input.WithConfig? && input.config.middlewares.None? ==> g.middlewares == []
    ensures input.WithConfig? ==> g.effects == input.config.effects
  {
    match input
    case EffectList(effects) => RouteEffectGroup(path, [], effects)
    case WithConfig(config) => RouteEffectGroup(path, config.middlewares.GetOr([]), config.effects)
  }

  // ---------------------------------------------------------------------------
  // Depth-first flattening

  /** A route together with what its enclosing groups contributed: the full
      path (group prefixes concatenated) and the middleware chain. */
  datatype Leaf = Leaf(path: string, verb: HttpMethod, effect: EffectId, chain: seq<MiddlewareId>)

  function Flatten(nodes: seq<RouteNode>, prefix: string, chain: seq<MiddlewareId>): seq<Leaf>
    decreases nodes, 1
  {
    if |nodes| == 0 then []
    else FlattenNode(nodes[0], prefix, chain) + Flatten(nodes[1..], prefix, chain)
  }

  function FlattenNode(n: RouteNode, prefix: string, chain: seq<MiddlewareId>): seq<Leaf>
    decreases n, 0
  {
    match n
    case RouteEffect(path, verb, effect) => [Leaf(prefix + path, verb, effect, chain)]
    case RouteEffectGroup(path, middlewares, effects) => Flatten(effects, prefix + path, chain + middlewares)
  }

  /** The number of routes in a forest. */
  function RouteCount(nodes: seq<RouteNode>): nat
    decreases nodes, 1
  {
    if |nodes| == 0 then 0 else NodeRouteCount(nodes[0]) + RouteCount(nodes[1..])
  }

  function NodeRouteCount(n: RouteNode): nat
    decreases n, 0
  {
    match n
    case RouteEffect(_, _, _) => 1
    case RouteEffectGroup(_, _, effects) => RouteCount(effects)
  }

  /** Prepends an outer prefix and an outer middleware chain to every leaf. */
  function Rebase(leaves: seq<Leaf>, prefix: string, chain: seq<MiddlewareId>): (r: seq<Leaf>)
    ensures |r| == |leaves|
    ensures forall i :: 0 <= i < |r| ==>
      r[i] == leaves[i].(path := prefix + leaves[i].path, chain := chain + leaves[i].chain)
  {
    if |leaves| == 0 then []
    else [leaves[0].(path := prefix + leaves[0].path, chain := chain + leaves[0].chain)]
         + Rebase(leaves[1..], prefix, chain)
  }

  /** Flattening keeps declaration order: a forest's leaves are its first
      tree's leaves followed by the rest's. */
  lemma {:induction false} FlattenAppend(a: seq<RouteNode>, b: seq<RouteNode>, prefix: string, chain: seq<MiddlewareId>)
    ensures Flatten(a + b, prefix, chain) == Flatten(a, prefix, chain) + Flatten(b, prefix, chain)
    decreases |a|
  {
    if |a| == 0 {
      assert a + b == b;
    } else {
      assert (a + b)[0] == a[0];
      assert (a + b)[1..] == a[1..] + b;
      FlattenAppend(a[1..], b, prefix, chain);
      var h := FlattenNode(a[0], prefix, chain);
      assert h + (Flatten(a[1..], prefix, chain) + Flatten(b, prefix, chain))
          == (h + Flatten(a[1..], prefix, chain)) + Flatten(b, prefix, chain);
    }
  }

  /** Every route yields exactly one leaf. */
  lemma {:induction false} FlattenCount(nodes: seq<RouteNode>, prefix: string, chain: seq<MiddlewareId>)
    ensures |Flatten(nodes, prefix, chain)| == RouteCount(nodes)
    decreases nodes, 1
  {
    if |nodes| > 0 {
      FlattenNodeCount(nodes[0], prefix, chain);
      FlattenCount(nodes[1..], prefix, chain);
    }
  }

  lemma {:induction false} FlattenNodeCount(n: RouteNode, prefix: string, chain: seq<MiddlewareId>)
    ensures |FlattenNode(n, prefix, chain)| == NodeRouteCount(n)
    decreases n, 0
  {
    if n.RouteEffectGroup? {
      FlattenCount(n.effects, prefix + n.path, chain + n.middlewares);
    }
  }

  /** Group prefixes and middleware chains concatenate: flattening under an
      outer prefix and chain is flattening at the root and prepending them. */
  lemma {:induction false} FlattenRebase(nodes: seq<RouteNode>, prefix: string, chain: seq<MiddlewareId>)
    ensures Flatten(nodes, prefix, chain) == Rebase(Flatten(nodes, "", []), prefix, chain)
    decreases nodes, 1
  {
    if |nodes| > 0 {
      FlattenNodeRebase(nodes[0], prefix, chain);
      FlattenRebase(nodes[1..], prefix, chain);
      RebaseAppend(FlattenNode(nodes[0], "", []), Flatten(nodes[1..], "", []), prefix, chain);
    }
  }

  lemma {:induction false} FlattenNodeRebase(n: RouteNode, prefix: string, chain: seq<MiddlewareId>)
    ensures FlattenNode(n, prefix, chain) == Rebase(FlattenNode(n, "", []), prefix, chain)
    decreases n, 0
  {
    match n
    case RouteEffect(path, verb, effect) =>
      assert "" + path == path;
      assert chain + [] == chain;
    case RouteEffectGroup(path, middlewares, effects) =>
      var root := Flatten(effects, "", []);
      FlattenRebase(effects, prefix + path, chain + middlewares);
      assert "" + path == path && [] + middlewares == middlewares;
      FlattenRebase(effects, path, middlewares);
      assert FlattenNode(n, "", []) == Rebase(root, path, middlewares);
      RebaseTwice(root, prefix, chain, path, middlewares);
  }

  lemma RebaseAppend(a: seq<Leaf>, b: seq<Leaf>, prefix: string, chain: seq<MiddlewareId>)
    ensures Rebase(a + b, prefix, chain) == Rebase(a, prefix, chain) + Rebase(b, prefix, chain)
  {
  }

  lemma RebaseTwice(leaves: seq<Leaf>, p1: string, c1: seq<MiddlewareId>, p2: string, c2: seq<MiddlewareId>)
    ensures Rebase(leaves, p1 + p2, c1 + c2) == Rebase(Rebase(leaves, p2, c2), p1, c1)
  {
    var x := Rebase(leaves, p1 + p2, c1 + c2);
    var y := Rebase(Rebase(leaves, p2, c2), p1, c1);
    forall i | 0 <= i < |leaves| ensures x[i] == y[i] {
      assert p1 + p2 + leaves[i].path == p1 + (p2 + leaves[i].path);
      assert c1 + c2 + leaves[i].chain == c1 + (c2 + leaves[i].chain);
    }
  }

  // ---------------------------------------------------------------------------
  // Building the table

  /** The middleware a route runs: none outside any group with middlewares,
      otherwise the composition of the inherited chain. */
  function MiddlewareOf(chain: seq<MiddlewareId>): (m: Option<Middleware>)
    ensures m.None? <==> |chain| == 0
    ensures m.Some? ==> m.value.chain == chain
  {
    if |chain| == 0 then None else Some(Combined(chain))
  }

  /** A route as the table builder sees it: its compiled pattern, its
      method, the handler it contributes and its full path (for messages). */
  datatype Declaration = Declaration(pattern: Pattern, verb: HttpMethod, handler: RoutingMethod, path: string)

  /** Compiles one leaf: the pattern and parameter names come from its full path. */
  function Declare(l: Leaf): (d: Declaration)
    ensures d.pattern == Compile(l.path).pattern && d.verb == l.verb && d.path == l.path
    ensures d.handler == RoutingMethod(Compile(l.path).parameters, MiddlewareOf(l.chain), l.effect)
  {
    var c := Compile(l.path);
    Declaration(c.pattern, l.verb, RoutingMethod(c.parameters, MiddlewareOf(l.chain), l.effect), l.path)
  }

  function DeclareAll(leaves: seq<Leaf>): (ds: seq<Declaration>)
    ensures |ds| == |leaves|
    ensures forall i :: 0 <= i < |leaves| ==> ds[i] == Declare(leaves[i])
  {
    seq(|leaves|, i requires 0 <= i < |leaves| => Declare(leaves[i]))
  }

  /** The error thrown on a second declaration: `Redefinition of route at "GET: /test"`. */
  function RedefinitionMessage(d: Declaration): string {
    "Redefinition of route at \"" + d.verb + ": " + d.path + "\""
  }

  /** Position of the row holding pattern `p`, or `|routing|` when none does. */
  function EntryIndex(routing: Routing, p: Pattern): (i: nat)
    ensures i <= |routing|
    ensures i < |routing| ==> routing[i].pattern == p
    ensures forall j :: 0 <= j < i ==> routing[j].pattern != p
  {
    if |routing| == 0 then 0
    else if routing[0].pattern == p then 0
    else 1 + EntryIndex(routing[1..], p)
  }

  /** Adds one declaration: a new row for a new pattern, a new method on the
      row already holding the pattern, or an error when that method is taken. */
  function Insert(routing: Routing, d: Declaration): Result<Routing, string> {
    var i := EntryIndex(routing, d.pattern);
    if i == |routing| then Success(routing + [RoutingItem(d.pattern, map[d.verb := d.handler])])
    else if d.verb in routing[i].methods then Failure(RedefinitionMessage(d))
    else Success(routing[i := routing[i].(methods := routing[i].methods[d.verb := d.handler])])
  }

  /** The table's patterns in row order. */
  function Patterns(routing: Routing): (ps: seq<Pattern>)
    ensures |ps| == |routing|
    ensures forall i :: 0 <= i < |routing| ==> ps[i] == routing[i].pattern
  {
    seq(|routing|, i requires 0 <= i < |routing| => routing[i].pattern)
  }

  /** Reads the table as a map: the handler under method `m` of the first row
      with pattern `p`. */
  function Lookup(routing: Routing, p: Pattern, m: HttpMethod): Option<RoutingMethod> {
    var i := EntryIndex(routing, p);
    if i < |routing| && m in routing[i].methods then Some(routing[i].methods[m]) else None
  }

  // Reference definitions read straight off the declarations.

  /** The handler of the first declaration of method `m` on pattern `p`. */
  function Declared(ds: seq<Declaration>, p: Pattern, m: HttpMethod): Option<RoutingMethod>
  {
    if |ds| == 0 then None
    else
      var before := Declared(ds[..|ds| - 1], p, m);
      var d := ds[|ds| - 1];
      if before.None? && d.pattern == p && d.verb == m then Some(d.handler) else before
  }

  /** The distinct patterns, in order of first declaration. */
  function DistinctPatterns(ds: seq<Declaration>): seq<Pattern>
  {
    if |ds| == 0 then []
    else
      var before := DistinctPatterns(ds[..|ds| - 1]);
      var p := ds[|ds| - 1].pattern;
      if p in before then before else before + [p]
  }

  /** Declaration `j` repeats the pattern and method of an earlier one. */
  predicate Repeats(ds: seq<Declaration>, j: int)
    requires 0 <= j < |ds|
  {
    exists i :: 0 <= i < j && ds[i].pattern == ds[j].pattern && ds[i].verb == ds[j].verb
  }

  /** Some declaration repeats an earlier one. */
  predicate Duplicated(ds: seq<Declaration>) {
    exists j :: 0 <= j < |ds| && Repeats(ds, j)
  }

  /** Folds the declarations into a table, stopping at the first repeat,
      whose message names that repeat. */
  function Build(ds: seq<Declaration>): (r: Result<Routing, string>)
    ensures r.Failure? <==> Duplicated(ds)
    ensures r.Failure? ==> exists j :: 0 <= j < |ds| && Repeats(ds, j) && !Duplicated(ds[..j])
                                    && r.error == RedefinitionMessage(ds[j])
    ensures r.Success? ==> Patterns(r.value) == DistinctPatterns(ds)
    ensures r.Success? ==> forall p, m :: Lookup(r.value, p, m) == Declared(ds, p, m)
  {
    if |ds| == 0 then Success([])
    else
      var init := ds[..|ds| - 1];
      match Build(init)
      case Failure(e) =>
        DuplicatedSnoc(ds);
        FirstRepeatSnoc(ds, e);
        Failure(e)
      case Success(routing) =>
        InsertStep(ds, routing);
        Insert(routing, ds[|ds| - 1])
  }

  /** Two routes of the tree share a compiled pattern and a method. */
  predicate RepeatedRoute(leaves: seq<Leaf>) {
    exists i, j :: 0 <= i < j < |leaves|
      && Compile(leaves[i].path).pattern == Compile(leaves[j].path).pattern
      && leaves[i].verb == leaves[j].verb
  }

  /** `factorizeRouting(routes)`: fails exactly when two routes of the tree
      repeat a pattern and method; otherwise every route of the tree is found
      under its own pattern and method with its own handler, and nothing else
      is found. */
  function FactorizeRouting(routes: seq<RouteNode>): (r: Result<Routing, string>)
    ensures var leaves := Flatten(routes, "", []);
            && (r.Failure? <==> RepeatedRoute(leaves))
            && (r.Success? ==> forall l :: l in leaves ==>
                  Lookup(r.value, Compile(l.path).pattern, l.verb) == Some(Declare(l).handler))
            && (r.Success? ==> forall p, m :: Lookup(r.value, p, m).Some? ==>
                  exists l :: l in leaves && Compile(l.path).pattern == p && l.verb == m)
  {
    BuiltFromLeaves(Flatten(routes, "", []));
    Build(DeclareAll(Flatten(routes, "", [])))
  }

  /** `Build` over the declarations of a list of routes, stated route by route. */
  lemma BuiltFromLeaves(leaves: seq<Leaf>)
    ensures var r := Build(DeclareAll(leaves));
            && (r.Failure? <==> RepeatedRoute(leaves))
            && (r.Success? ==> forall l :: l in leaves ==>
                  Lookup(r.value, Compile(l.path).pattern, l.verb) == Some(Declare(l).handler))
            && (r.Success? ==> forall p, m :: Lookup(r.value, p, m).Some? ==>
                  exists l :: l in leaves && Compile(l.path).pattern == p && l.verb == m)
  {
    DuplicatedIffRepeated(leaves);
    if Build(DeclareAll(leaves)).Success? {
      FindsEveryRoute(leaves);
      FindsOnlyRoutes(leaves);
    }
  }

  /** The declarations repeat one another exactly when the routes do. */
  lemma DuplicatedIffRepeated(leaves: seq<Leaf>)
    ensures Duplicated(DeclareAll(leaves)) <==> RepeatedRoute(leaves)
  {
    if Duplicated(DeclareAll(leaves)) {
      DuplicatedRepeated(leaves);
    }
    if RepeatedRoute(leaves) {
      RepeatedDuplicated(leaves);
    }
  }

  /** A repeat among the declarations comes from two routes repeating. */
  lemma DuplicatedRepeated(leaves: seq<Leaf>)
    requires Duplicated(DeclareAll(leaves))
    ensures RepeatedRoute(leaves)
  {
    var j :| 0 <= j < |DeclareAll(leaves)| && Repeats(DeclareAll(leaves), j);
    RepeatsAt(leaves, j);
  }

  /** Declaration `j` repeating an earlier one makes route `j` repeat one. */
  lemma RepeatsAt(leaves: seq<Leaf>, j: nat)
    requires j < |leaves| && Repeats(DeclareAll(leaves), j)
    ensures RepeatedRoute(leaves)
  {
    var ds := DeclareAll(leaves);
    var i :| 0 <= i < j && ds[i].pattern == ds[j].pattern && ds[i].verb == ds[j].verb;
    assert ds[i] == Declare(leaves[i]) && ds[j] == Declare(leaves[j]);
    RepeatedWitness(leaves, i, j);
  }

  /** Routes `i` and `j` with equal declared patterns and methods repeat. */
  lemma RepeatedWitness(leaves: seq<Leaf>, i: nat, j: nat)
    requires i < j < |leaves|
    requires Declare(leaves[i]).pattern == Declare(leaves[j]).pattern
    requires Declare(leaves[i]).verb == Declare(leaves[j]).verb
    ensures RepeatedRoute(leaves)
  {
    assert Compile(leaves[i].path).pattern == Compile(leaves[j].path).pattern;
  }

  /** Two routes repeating make their declarations repeat. */
  lemma RepeatedDuplicated(leaves: seq<Leaf>)
    requires RepeatedRoute(leaves)
    ensures Duplicated(DeclareAll(leaves))
  {
    var ds := DeclareAll(leaves);
    var i, j :| 0 <= i < j < |leaves|
      && Compile(leaves[i].path).pattern == Compile(leaves[j].path).pattern
      && leaves[i].verb == leaves[j].verb;
    assert ds[i].pattern == ds[j].pattern && ds[i].verb == ds[j].verb;
    assert Repeats(ds, j);
  }

  /** Without repeats, each route is found with its own handler. */
  lemma FindsEveryRoute(leaves: seq<Leaf>)
    requires Build(DeclareAll(leaves)).Success?
    ensures forall l :: l in leaves ==>
              Lookup(Build(DeclareAll(leaves)).value, Compile(l.path).pattern, l.verb) == Some(Declare(l).handler)
  {
    var ds := DeclareAll(leaves);
    var t := Build(ds).value;
    forall l | l in leaves
      ensures Lookup(t, Compile(l.path).pattern, l.verb) == Some(Declare(l).handler)
    {
      var j :| 0 <= j < |leaves| && leaves[j] == l;
      var p, m := Compile(l.path).pattern, l.verb;
      assert ds[j].pattern == p && ds[j].verb == m;
      DeclaredIff(ds, p, m);
      var i := DeclaredWitness(ds, p, m);
      assert !Repeats(ds, j) && !Repeats(ds, i);
    }
  }

  /** Whatever the table finds was declared by some route. */
  lemma FindsOnlyRoutes(leaves: seq<Leaf>)
    requires Build(DeclareAll(leaves)).Success?
    ensures forall p, m :: Lookup(Build(DeclareAll(leaves)).value, p, m).Some? ==>
              exists l :: l in leaves && Compile(l.path).pattern == p && l.verb == m
  {
    var ds := DeclareAll(leaves);
    var t := Build(ds).value;
    forall p, m | Lookup(t, p, m).Some?
      ensures exists l :: l in leaves && Compile(l.path).pattern == p && l.verb == m
    {
      var i := DeclaredWitness(ds, p, m);
      assert leaves[i] in leaves;
    }
  }

  // ---------------------------------------------------------------------------
  // Lemmas behind `Build`

  /** One step of `Build`: inserting the last declaration into a table that
      stands for all the others keeps the table standing for all of them. */
  lemma InsertStep(ds: seq<Declaration>, routing: Routing)
    requires |ds| > 0
    requires !Duplicated(ds[..|ds| - 1])
    requires Patterns(routing) == DistinctPatterns(ds[..|ds| - 1])
    requires forall p, m :: Lookup(routing, p, m) == Declared(ds[..|ds| - 1], p, m)
    ensures var r := Insert(routing, ds[|ds| - 1]);
            && (r.Failure? <==> Duplicated(ds))
            && (r.Failure? ==> exists j :: 0 <= j < |ds| && Repeats(ds, j) && !Duplicated(ds[..j])
                                        && r.error == RedefinitionMessage(ds[j]))
            && (r.Success? ==> Patterns(r.value) == DistinctPatterns(ds))
            && (r.Success? ==> forall p, m :: Lookup(r.value, p, m) == Declared(ds, p, m))
  {
    var d := ds[|ds| - 1];
    InsertFailsOnRepeat(ds, routing);
    if Insert(routing, d).Failure? {
      InsertSpec(routing, d);
      assert Repeats(ds, |ds| - 1) && !Duplicated(ds[..|ds| - 1]);
    } else {
      InsertKeepsPatterns(ds, routing);
      InsertKeepsLookups(ds, routing);
    }
  }

  /** Inserting the last declaration fails exactly when it repeats an earlier
      one, and then that declaration is the first repeat. */
  lemma InsertFailsOnRepeat(ds: seq<Declaration>, routing: Routing)
    requires |ds| > 0
    requires !Duplicated(ds[..|ds| - 1])
    requires forall p, m :: Lookup(routing, p, m) == Declared(ds[..|ds| - 1], p, m)
    ensures Insert(routing, ds[|ds| - 1]).Failure? <==> Duplicated(ds)
    ensures Insert(routing, ds[|ds| - 1]).Failure? <==> Repeats(ds, |ds| - 1)
  {
    var init := ds[..|ds| - 1];
    var d := ds[|ds| - 1];
    InsertSpec(routing, d);
    DuplicatedSnoc(ds);
    assert Lookup(routing, d.pattern, d.verb) == Declared(init, d.pattern, d.verb);
    DeclaredIff(init, d.pattern, d.verb);
    assert Repeats(ds, |ds| - 1) <==> exists i :: 0 <= i < |init| && init[i].pattern == d.pattern && init[i].verb == d.verb by {
      forall i | 0 <= i < |init| ensures init[i] == ds[i] {}
    }
  }

  /** A successful insertion of the last declaration lists the distinct patterns. */
  lemma InsertKeepsPatterns(ds: seq<Declaration>, routing: Routing)
    requires |ds| > 0
    requires Patterns(routing) == DistinctPatterns(ds[..|ds| - 1])
    requires Insert(routing, ds[|ds| - 1]).Success?
    ensures Patterns(Insert(routing, ds[|ds| - 1]).value) == DistinctPatterns(ds)
  {
    InsertSpec(routing, ds[|ds| - 1]);
  }

  /** A successful insertion of the last declaration looks up every first declaration. */
  lemma InsertKeepsLookups(ds: seq<Declaration>, routing: Routing)
    requires |ds| > 0
    requires forall p, m :: Lookup(routing, p, m) == Declared(ds[..|ds| - 1], p, m)
    requires Insert(routing, ds[|ds| - 1]).Success?
    ensures forall p, m :: Lookup(Insert(routing, ds[|ds| - 1]).value, p, m) == Declared(ds, p, m)
  {
    var init := ds[..|ds| - 1];
    var d := ds[|ds| - 1];
    InsertSpec(routing, d);
    var t := Insert(routing, d).value;
    assert Declared(init, d.pattern, d.verb).None?;
    forall p, m ensures Lookup(t, p, m) == Declared(ds, p, m) {
      DeclaredSnoc(ds, p, m);
      assert Lookup(t, p, m) == if p == d.pattern && m == d.verb then Some(d.handler) else Lookup(routing, p, m);
      assert Lookup(routing, p, m) == Declared(init, p, m);
    }
  }

  /** The first declaration of a pattern and method among `ds`, read off the
      first declaration among all but the last one. */
  lemma DeclaredSnoc(ds: seq<Declaration>, p: Pattern, m: HttpMethod)
    requires |ds| > 0
    ensures var before := Declared(ds[..|ds| - 1], p, m);
            var d := ds[|ds| - 1];
            Declared(ds, p, m) == if before.None? && d.pattern == p && d.verb == m then Some(d.handler) else before
  {
  }

  /** A repeat found among all but the last declaration is still the first repeat. */
  lemma FirstRepeatSnoc(ds: seq<Declaration>, e: string)
    requires |ds| > 0
    requires var init := ds[..|ds| - 1];
             exists j :: 0 <= j < |init| && Repeats(init, j) && !Duplicated(init[..j])
                      && e == RedefinitionMessage(init[j])
    ensures exists j :: 0 <= j < |ds| && Repeats(ds, j) && !Duplicated(ds[..j])
                     && e == RedefinitionMessage(ds[j])
  {
    var init := ds[..|ds| - 1];
    var j :| 0 <= j < |init| && Repeats(init, j) && !Duplicated(init[..j]) && e == RedefinitionMessage(init[j]);
    assert init[..j] == ds[..j];
    var i :| 0 <= i < j && init[i].pattern == init[j].pattern && init[i].verb == init[j].verb;
    assert ds[i] == init[i] && ds[j] == init[j];
  }

  /** What `Insert` does to the table read as a map and to its pattern list. */
  lemma InsertSpec(routing: Routing, d: Declaration)
    ensures Insert(routing, d).Failure? <==> Lookup(routing, d.pattern, d.verb).Some?
    ensures Insert(routing, d).Failure? ==> Insert(routing, d).error == RedefinitionMessage(d)
    ensures Insert(routing, d).Success? ==>
      forall p, m :: Lookup(Insert(routing, d).value, p, m)
        == if p == d.pattern && m == d.verb then Some(d.handler) else Lookup(routing, p, m)
    ensures Insert(routing, d).Success? ==>
      Patterns(Insert(routing, d).value)
        == if d.pattern in Patterns(routing) then Patterns(routing) else Patterns(routing) + [d.pattern]
  {
    var i := EntryIndex(routing, d.pattern);
    PatternsIndex(routing, d.pattern);
    if i == |routing| {
      var item := RoutingItem(d.pattern, map[d.verb := d.handler]);
      forall p, m ensures Lookup(routing + [item], p, m)
                          == if p == d.pattern && m == d.verb then Some(d.handler) else Lookup(routing, p, m) {
        LookupAppend(routing, item, p, m);
      }
      assert Patterns(routing + [item]) == Patterns(routing) + [d.pattern];
    } else if d.verb !in routing[i].methods {
      var item := routing[i].(methods := routing[i].methods[d.verb := d.handler]);
      forall p, m ensures Lookup(routing[i := item], p, m)
                          == if p == d.pattern && m == d.verb then Some(d.handler) else Lookup(routing, p, m) {
        LookupUpdate(routing, i, item, p, m);
      }
      assert Patterns(routing[i := item]) == Patterns(routing);
    }
  }

  lemma LookupAppend(routing: Routing, item: RoutingItem, p: Pattern, m: HttpMethod)
    requires EntryIndex(routing, item.pattern) == |routing|
    ensures Lookup(routing + [item], p, m)
         == if p == item.pattern && m in item.methods then Some(item.methods[m])
            else if p == item.pattern then None
            else Lookup(routing, p, m)
  {
    EntryIndexAppend(routing, item, p);
  }

  lemma LookupUpdate(routing: Routing, i: nat, item: RoutingItem, p: Pattern, m: HttpMethod)
    requires i < |routing| && item.pattern == routing[i].pattern && EntryIndex(routing, item.pattern) == i
    ensures Lookup(routing[i := item], p, m)
         == if p == item.pattern && m in item.methods then Some(item.methods[m])
            else if p == item.pattern then None
            else Lookup(routing, p, m)
  {
    EntryIndexUpdate(routing, i, item, p);
  }

  lemma PatternsIndex(routing: Routing, p: Pattern)
    ensures EntryIndex(routing, p) < |routing| <==> p in Patterns(routing)
  {
    if p in Patterns(routing) {
      var k :| 0 <= k < |routing| && Patterns(routing)[k] == p;
      assert routing[k].pattern == p;
    }
  }

  lemma {:induction false} EntryIndexAppend(routing: Routing, item: RoutingItem, p: Pattern)
    ensures EntryIndex(routing + [item], p)
         == if EntryIndex(routing, p) < |routing| || item.pattern == p then EntryIndex(routing, p) else |routing| + 1
    decreases |routing|
  {
    if |routing| > 0 {
      assert (routing + [item])[1..] == routing[1..] + [item];
      EntryIndexAppend(routing[1..], item, p);
    }
  }

  lemma {:induction false} EntryIndexUpdate(routing: Routing, i: nat, item: RoutingItem, p: Pattern)
    requires i < |routing| && item.pattern == routing[i].pattern
    ensures EntryIndex(routing[i := item], p) == EntryIndex(routing, p)
    decreases |routing|
  {
    if |routing| > 0 && i > 0 {
      assert routing[i := item][1..] == routing[1..][i - 1 := item];
      EntryIndexUpdate(routing[1..], i - 1, item, p);
    }
  }

  /** `Declared` finds a handler exactly when some declaration has that
      pattern and method. */
  lemma {:induction false} DeclaredIff(ds: seq<Declaration>, p: Pattern, m: HttpMethod)
    ensures Declared(ds, p, m).Some?
        <==> exists i :: 0 <= i < |ds| && ds[i].pattern == p && ds[i].verb == m
    decreases |ds|
  {
    if |ds| > 0 {
      var init := ds[..|ds| - 1];
      DeclaredIff(init, p, m);
      if exists i :: 0 <= i < |ds| && ds[i].pattern == p && ds[i].verb == m {
        var i :| 0 <= i < |ds| && ds[i].pattern == p && ds[i].verb == m;
        if i < |init| {
          assert init[i] == ds[i];
        }
      }
      if exists i :: 0 <= i < |init| && init[i].pattern == p && init[i].verb == m {
        var i :| 0 <= i < |init| && init[i].pattern == p && init[i].verb == m;
        assert ds[i] == init[i];
      }
    }
  }

  /** A repeat among `ds` is one among all but the last declaration, or the
      last declaration repeating an earlier one. */
  lemma DuplicatedSnoc(ds: seq<Declaration>)
    requires |ds| > 0
    ensures Duplicated(ds) <==> (Duplicated(ds[..|ds| - 1]) || Repeats(ds, |ds| - 1))
  {
    var init := ds[..|ds| - 1];
    if Duplicated(ds) && !Repeats(ds, |ds| - 1) {
      var j :| 0 <= j < |ds| && Repeats(ds, j);
      var i :| 0 <= i < j && ds[i].pattern == ds[j].pattern && ds[i].verb == ds[j].verb;
      assert init[i] == ds[i] && init[j] == ds[j];
      assert Repeats(init, j);
    }
    if Duplicated(init) {
      var j :| 0 <= j < |init| && Repeats(init, j);
      var i :| 0 <= i < j && init[i].pattern == init[j].pattern && init[i].verb == init[j].verb;
      assert ds[i] == init[i] && ds[j] == init[j];
      assert Repeats(ds, j);
    }
  }

  // ---------------------------------------------------------------------------
  // Parameter names line up with capture groups

  /** In every table `factorizeRouting` builds, each handler's parameter names
      correspond one to one, in order, to its row's capture groups. */
  lemma FactorizedTableFits(routes: seq<RouteNode>)
    ensures FactorizeRouting(routes).Success? ==> TableFits(FactorizeRouting(routes).value)
  {
    var leaves := Flatten(routes, "", []);
    var ds := DeclareAll(leaves);
    if Build(ds).Success? {
      forall i | 0 <= i < |ds| ensures ParamsFit(ds[i].pattern, ds[i].handler.parameters) {
        DeclarationFits(leaves[i]);
      }
      BuiltTableFits(ds);
    }
  }

  lemma DeclarationFits(l: Leaf)
    ensures ParamsFit(Declare(l).pattern, Declare(l).handler.parameters)
  {
  }

  /** A table built from declarations that each fit is a fitting table. */
  lemma BuiltTableFits(ds: seq<Declaration>)
    requires Build(ds).Success?
    requires forall i :: 0 <= i < |ds| ==> ParamsFit(ds[i].pattern, ds[i].handler.parameters)
    ensures TableFits(Build(ds).value)
  {
    var t := Build(ds).value;
    forall a, m | 0 <= a < |t| && m in t[a].methods
      ensures ParamsFit(t[a].pattern, t[a].methods[m].parameters)
    {
      RowIsLookup(ds, t, a, m);
      var i := DeclaredWitness(ds, t[a].pattern, m);
    }
  }

  /** In a built table a row's handler is what the table read as a map gives
      for its pattern, since no pattern occupies two rows. */
  lemma RowIsLookup(ds: seq<Declaration>, t: Routing, a: nat, m: HttpMethod)
    requires Build(ds) == Success(t)
    requires a < |t| && m in t[a].methods
    ensures Declared(ds, t[a].pattern, m) == Some(t[a].methods[m])
  {
    DistinctPatternsUnique(ds);
    EntryIndexUnique(t, a);
    assert Lookup(t, t[a].pattern, m) == Some(t[a].methods[m]);
  }

  /** With no pattern repeated, a row is the one `EntryIndex` finds for its pattern. */
  lemma {:induction false} EntryIndexUnique(t: Routing, a: nat)
    requires a < |t| && Unique(Patterns(t))
    ensures EntryIndex(t, t[a].pattern) == a
  {
    var ps := Patterns(t);
    assert forall x :: 0 <= x < a ==> ps[x] != ps[a];
  }

  predicate Unique(ps: seq<Pattern>) {
    forall x, y :: 0 <= x < y < |ps| ==> ps[x] != ps[y]
  }

  /** The distinct patterns list no pattern twice. */
  lemma {:induction false} DistinctPatternsUnique(ds: seq<Declaration>)
    ensures Unique(DistinctPatterns(ds))
    decreases |ds|
  {
    if |ds| > 0 {
      var before := DistinctPatterns(ds[..|ds| - 1]);
      var p := ds[|ds| - 1].pattern;
      DistinctPatternsUnique(ds[..|ds| - 1]);
      if p !in before {
        var ps := before + [p];
        assert DistinctPatterns(ds) == ps;
        forall x, y | 0 <= x < y < |ps| ensures ps[x] != ps[y] {
          if y == |before| {
            assert ps[x] == before[x];
          } else {
            assert ps[x] == before[x] && ps[y] == before[y];
          }
        }
      } else {
        assert DistinctPatterns(ds) == before;
      }
    }
  }

  /** A handler `Declared` finds is the handler of a declaration with that
      pattern and method. */
  lemma {:induction false} DeclaredWitness(ds: seq<Declaration>, p: Pattern, m: HttpMethod) returns (i: nat)
    requires Declared(ds, p, m).Some?
    ensures i < |ds| && ds[i].pattern == p && ds[i].verb == m && Declared(ds, p, m) == Some(ds[i].handler)
    decreases |ds|
  {
    var init := ds[..|ds| - 1];
    if Declared(init, p, m).Some? {
      i := DeclaredWitness(init, p, m);
      assert ds[i] == init[i];
    } else {
      i := |ds| - 1;
    }
  }
}
