/** The router's unit-test scenarios, restated as facts about the model:
    the patterns of the nested-group test, the table it expects, the
    redefinition error, the three `combineRoutes` cases and the query-string
    examples. */
module Scenarios {
  import opened Wrappers
  import opened Strings
  import opened Http
  import opened PathPattern
  import opened Routes
  import opened RouterFactory
  import QueryParams
  import opened Router
  import MatchPath

  // ---------------------------------------------------------------------------
  // Compiled patterns of the nested-group test

  /** `/^\/?$/` */
  const RootPattern := Pattern([Lit("")], OptSlash)
  /** `/^\/([^\/]+)\/?$/` */
  const IdPattern := Pattern([Lit(""), Param], OptSlash)
  /** `/^\/([^\/]+)\/nested\/?$/` */
  const NestedPattern := Pattern([Lit(""), Param, Lit("nested")], OptSlash)
  /** `/^\/([^\/]+)\/.*?$/` */
  const WildcardPattern := Pattern([Lit(""), Param], Wildcard)

  lemma CompileRoot()
    ensures Compile("/") == ParametricPattern(RootPattern, None)
  {
    assert MatchPath.RemoveTrailingSlash("/") == "";
  }

  /** Split of a text built by joining slash-free pieces gives back those pieces. */
  lemma PiecesOf(body: string, pieces: seq<string>)
    requires |pieces| >= 1
    requires forall k :: 0 <= k < |pieces| ==> '/' !in pieces[k]
    requires Join(pieces, '/') == body
    ensures Split(body, '/') == pieces
  {
    SplitJoin(pieces, '/');
  }

  lemma IdBody()
    ensures MatchPath.RemoveTrailingSlash("/:id/") == "/:id"
    ensures Join(["", ":id"], '/') == "/:id"
    ensures '/' !in ":id"
  {
  }

  lemma IdPieces()
    ensures SegsOf(["", ":id"]) == [Lit(""), Param]
    ensures ParamNames(["", ":id"]) == ["id"]
  {
  }

  lemma CompileId()
    ensures Compile("/:id/") == ParametricPattern(IdPattern, Some(["id"]))
  {
    IdBody();
    PiecesOf("/:id", ["", ":id"]);
    assert Pieces("/:id/") == (["", ":id"], OptSlash);
    IdPieces();
  }

  lemma CompileWildcard()
    ensures Compile("/:id*") == ParametricPattern(WildcardPattern, Some(["id"]))
  {
    IdBody();
    assert "/:id*"[..4] == "/:id";
    assert MatchPath.RemoveTrailingSlash("/:id") == "/:id";
    PiecesOf("/:id", ["", ":id"]);
    assert Pieces("/:id*") == (["", ":id"], Wildcard);
    IdPieces();
  }

  lemma NestedBody()
    ensures MatchPath.RemoveTrailingSlash("/:id/nested/") == "/:id/nested"
    ensures Join(["", ":id", "nested"], '/') == "/:id/nested"
    ensures '/' !in ":id" && '/' !in "nested"
  {
    assert Join([":id", "nested"], '/') == ":id/nested";
  }

  lemma NestedPieces()
    ensures SegsOf(["", ":id", "nested"]) == [Lit(""), Param, Lit("nested")]
    ensures ParamNames(["", ":id", "nested"]) == ["id"]
  {
  }

  lemma CompileNested()
    ensures Compile("/:id/nested/") == ParametricPattern(NestedPattern, Some(["id"]))
  {
    NestedBody();
    PiecesOf("/:id/nested", ["", ":id", "nested"]);
    assert Pieces("/:id/nested/") == (["", ":id", "nested"], OptSlash);
    NestedPieces();
  }

  // ---------------------------------------------------------------------------
  // `#factorizeRouting factorizes routing with nested groups`

  /** The effect `e$` and the middleware `m$` of the test. */
  const E: EffectId := 1
  const M: MiddlewareId := 2

  const NestedGroup := RouteEffectGroup("/nested", [M], [RouteEffect("/", "GET", E)])
  const IdGroup := RouteEffectGroup("/:id", [M], [
    RouteEffect("/", "GET", E),
    RouteEffect("/", "POST", E),
    NestedGroup,
    RouteEffect("*", "*", E)
  ])
  const NestedRouting := [RouteEffect("/", "GET", E), IdGroup]

  /** The handler every route inside the `/:id` group gets. */
  const InGroup := RoutingMethod(Some(["id"]), Some(Combined([M])), E)

  const ExpectedTable: Routing := [
    RoutingItem(RootPattern, map["GET" := RoutingMethod(None, None, E)]),
    RoutingItem(IdPattern, map["GET" := InGroup, "POST" := InGroup]),
    RoutingItem(NestedPattern, map["GET" := RoutingMethod(Some(["id"]), Some(Combined([M, M])), E)]),
    RoutingItem(WildcardPattern, map["*" := InGroup])
  ]

  const NestedLeaves := [
    Leaf("/", "GET", E, []),
    Leaf("/:id/", "GET", E, [M]),
    Leaf("/:id/", "POST", E, [M]),
    Leaf("/:id/nested/", "GET", E, [M, M]),
    Leaf("/:id*", "*", E, [M])
  ]

  /** A one-tree forest flattens to that tree's leaves. */
  lemma FlattenSingle(n: RouteNode, prefix: string, chain: seq<MiddlewareId>)
    ensures Flatten([n], prefix, chain) == FlattenNode(n, prefix, chain)
  {
    assert [n][1..] == [];
    assert FlattenNode(n, prefix, chain) + [] == FlattenNode(n, prefix, chain);
  }

  lemma NestedGroupLeaves()
    ensures FlattenNode(NestedGroup, "/:id", [M]) == [Leaf("/:id/nested/", "GET", E, [M, M])]
  {
    assert "/:id" + "/nested" == "/:id/nested";
    assert "/:id/nested" + "/" == "/:id/nested/";
    assert [M] + [M] == [M, M];
    FlattenSingle(RouteEffect("/", "GET", E), "/:id/nested", [M, M]);
  }

  lemma IdGroupLeaves()
    ensures FlattenNode(IdGroup, "", []) == NestedLeaves[1..]
  {
    var c := IdGroup.effects;
    assert "" + "/:id" == "/:id";
    assert [] + [M] == [M];
    assert c == [c[0]] + [c[1]] + [c[2]] + [c[3]];
    FlattenAppend([c[0]] + [c[1]] + [c[2]], [c[3]], "/:id", [M]);
    FlattenAppend([c[0]] + [c[1]], [c[2]], "/:id", [M]);
    FlattenAppend([c[0]], [c[1]], "/:id", [M]);
    FlattenSingle(c[0], "/:id", [M]);
    FlattenSingle(c[1], "/:id", [M]);
    FlattenSingle(c[2], "/:id", [M]);
    FlattenSingle(c[3], "/:id", [M]);
    NestedGroupLeaves();
    assert "/:id" + "/" == "/:id/";
    assert "/:id" + "*" == "/:id*";
  }

  lemma FlattenNested()
    ensures Flatten(NestedRouting, "", []) == NestedLeaves
  {
    var r := NestedRouting;
    assert r == [r[0]] + [r[1]];
    FlattenAppend([r[0]], [r[1]], "", []);
    FlattenSingle(r[0], "", []);
    FlattenSingle(r[1], "", []);
    IdGroupLeaves();
    assert "" + "/" == "/";
  }

  const NestedDeclarations := [
    Declaration(RootPattern, "GET", RoutingMethod(None, None, E), "/"),
    Declaration(IdPattern, "GET", InGroup, "/:id/"),
    Declaration(IdPattern, "POST", InGroup, "/:id/"),
    Declaration(NestedPattern, "GET", RoutingMethod(Some(["id"]), Some(Combined([M, M])), E), "/:id/nested/"),
    Declaration(WildcardPattern, "*", InGroup, "/:id*")
  ]

  /** A leaf whose path compiles to `c` declares `c` with the leaf's method,
      effect and composed middleware. */
  lemma DeclareCompiled(l: Leaf, c: ParametricPattern)
    requires Compile(l.path) == c
    ensures Declare(l) == Declaration(c.pattern, l.verb, RoutingMethod(c.parameters, MiddlewareOf(l.chain), l.effect), l.path)
  {
  }

  lemma DeclareRoot()
    ensures Declare(NestedLeaves[0]) == NestedDeclarations[0]
  {
    CompileRoot();
    DeclareCompiled(NestedLeaves[0], ParametricPattern(RootPattern, None));
  }

  lemma DeclareIdGet()
    ensures Declare(NestedLeaves[1]) == NestedDeclarations[1]
  {
    CompileId();
    DeclareCompiled(NestedLeaves[1], ParametricPattern(IdPattern, Some(["id"])));
  }

  lemma DeclareIdPost()
    ensures Declare(NestedLeaves[2]) == NestedDeclarations[2]
  {
    CompileId();
    DeclareCompiled(NestedLeaves[2], ParametricPattern(IdPattern, Some(["id"])));
  }

  lemma DeclareNestedGet()
    ensures Declare(NestedLeaves[3]) == NestedDeclarations[3]
  {
    CompileNested();
    DeclareCompiled(NestedLeaves[3], ParametricPattern(NestedPattern, Some(["id"])));
  }

  lemma DeclareWildcard()
    ensures Declare(NestedLeaves[4]) == NestedDeclarations[4]
  {
    CompileWildcard();
    DeclareCompiled(NestedLeaves[4], ParametricPattern(WildcardPattern, Some(["id"])));
  }

  lemma DeclareNested()
    ensures DeclareAll(NestedLeaves) == NestedDeclarations
  {
    forall i | 0 <= i < 5 ensures Declare(NestedLeaves[i]) == NestedDeclarations[i] {
      if i == 0 {
        DeclareRoot();
      } else if i == 1 {
        DeclareIdGet();
      } else if i == 2 {
        DeclareIdPost();
      } else if i == 3 {
        DeclareNestedGet();
      } else {
        DeclareWildcard();
      }
    }
    DeclareAllFrom(NestedLeaves, NestedDeclarations);
  }

  /** `DeclareAll` is determined element by element. */
  lemma DeclareAllFrom(leaves: seq<Leaf>, ds: seq<Declaration>)
    requires |leaves| == |ds|
    requires forall i :: 0 <= i < |ds| ==> Declare(leaves[i]) == ds[i]
    ensures DeclareAll(leaves) == ds
  {
  }

  /** `Build` over a prefix one longer inserts the next declaration. */
  lemma BuildNext(ds: seq<Declaration>, k: nat, t: Routing)
    requires 0 < k <= |ds| && Build(ds[..k - 1]) == Success(t)
    ensures Build(ds[..k]) == Insert(t, ds[k - 1])
  {
    assert ds[..k][..k - 1] == ds[..k - 1];
  }

  const T1: Routing := ExpectedTable[..1]
  const T2: Routing := T1 + [RoutingItem(IdPattern, map["GET" := InGroup])]
  const T3: Routing := ExpectedTable[..2]
  const T4: Routing := ExpectedTable[..3]

  lemma Build1()
    ensures Build(NestedDeclarations[..1]) == Success(T1)
  {
    assert NestedDeclarations[..0] == [];
    BuildNext(NestedDeclarations, 1, []);
    Insert1();
  }

  lemma Insert1()
    ensures Insert([], NestedDeclarations[0]) == Success(T1)
  {
    assert [] + [ExpectedTable[0]] == T1;
  }

  lemma Build2()
    ensures Build(NestedDeclarations[..2]) == Success(T2)
  {
    Build1();
    BuildNext(NestedDeclarations, 2, T1);
    Insert2();
  }

  lemma Insert2()
    ensures Insert(T1, NestedDeclarations[1]) == Success(T2)
  {
  }

  lemma Build3()
    ensures Build(NestedDeclarations[..3]) == Success(T3)
  {
    Build2();
    BuildNext(NestedDeclarations, 3, T2);
    Insert3();
  }

  lemma Insert3()
    ensures Insert(T2, NestedDeclarations[2]) == Success(T3)
  {
    assert "POST" !in T2[1].methods;
    assert T2[1].(methods := T2[1].methods["POST" := InGroup]) == ExpectedTable[1];
    assert T2[1 := ExpectedTable[1]] == T3;
  }

  lemma Build4()
    ensures Build(NestedDeclarations[..4]) == Success(T4)
  {
    Build3();
    BuildNext(NestedDeclarations, 4, T3);
    Insert4();
  }

  lemma Insert4()
    ensures Insert(T3, NestedDeclarations[3]) == Success(T4)
  {
    assert T3 + [ExpectedTable[2]] == T4;
  }

  lemma Insert5()
    ensures Insert(T4, NestedDeclarations[4]) == Success(ExpectedTable)
  {
    assert T4 + [ExpectedTable[3]] == ExpectedTable;
  }

  lemma BuildNested()
    ensures Build(NestedDeclarations) == Success(ExpectedTable)
  {
    var ds := NestedDeclarations;
    assert ds[..5] == ds;
    Build4();
    BuildNext(ds, 5, T4);
    Insert5();
  }

  /** The table the nested-group test expects, row for row. */
  lemma FactorizeNested()
    ensures FactorizeRouting(NestedRouting) == Success(ExpectedTable)
  {
    FlattenNested();
    DeclareNested();
    BuildNested();
  }

  // ---------------------------------------------------------------------------
  // `#factorizeRouting throws error if route is redefined`

  const Redefined := [RouteEffect("/test", "GET", E), RouteEffect("/test", "GET", E), RouteEffect("/test/foo", "GET", E)]

  lemma FlattenRedefined()
    ensures Flatten(Redefined, "", []) == [Leaf("/test", "GET", E, []), Leaf("/test", "GET", E, []), Leaf("/test/foo", "GET", E, [])]
  {
    var r := Redefined;
    assert r == [r[0]] + [r[1]] + [r[2]];
    FlattenAppend([r[0]] + [r[1]], [r[2]], "", []);
    FlattenAppend([r[0]], [r[1]], "", []);
    FlattenSingle(r[0], "", []);
    FlattenSingle(r[1], "", []);
    FlattenSingle(r[2], "", []);
    assert "" + "/test" == "/test";
    assert "" + "/test/foo" == "/test/foo";
  }

  /** Two leading declarations of the same method on the same pattern: the
      second is reported, whatever follows. */
  lemma SecondReported(ds: seq<Declaration>)
    requires |ds| >= 2 && ds[0].pattern == ds[1].pattern && ds[0].verb == ds[1].verb
    ensures Build(ds) == Failure(RedefinitionMessage(ds[1]))
  {
    assert Repeats(ds, 1);
    var r := Build(ds);
    var j :| 0 <= j < |ds| && Repeats(ds, j) && !Duplicated(ds[..j]) && r.error == RedefinitionMessage(ds[j]);
    if j > 1 {
      assert Repeats(ds[..j], 1);
    }
  }

  lemma {:induction false} RepeatedLeaf(leaves: seq<Leaf>)
    requires |leaves| >= 2 && leaves[0] == leaves[1]
    ensures Build(DeclareAll(leaves)) == Failure(RedefinitionMessage(Declare(leaves[1])))
  {
    SecondReported(DeclareAll(leaves));
  }

  lemma RedefinedMessage(d: Declaration)
    requires d.path == "/test" && d.verb == "GET"
    ensures RedefinitionMessage(d) == "Redefinition of route at \"GET: /test\""
  {
  }

  /** The second `GET /test` is reported, and the route after it never matters. */
  lemma FactorizeRedefined()
    ensures FactorizeRouting(Redefined) == Failure("Redefinition of route at \"GET: /test\"")
  {
    FlattenRedefined();
    var leaves := Flatten(Redefined, "", []);
    RepeatedLeaf(leaves);
    RedefinedMessage(Declare(leaves[1]));
  }

  // ---------------------------------------------------------------------------
  // `#combineRoutes`

  const RouteA := RouteEffect("/a", "GET", E)
  const RouteB := RouteEffect("/b", "GET", E)

  lemma CombineEffectsOnly()
    ensures CombineRoutes("/test", EffectList([RouteA, RouteB])) == RouteEffectGroup("/test", [], [RouteA, RouteB])
  {
  }

  lemma CombineWithMiddlewares()
    ensures CombineRoutes("/test", WithConfig(RouteCombinerConfig(Some([3, 4]), [RouteA, RouteB])))
         == RouteEffectGroup("/test", [3, 4], [RouteA, RouteB])
  {
  }

  lemma CombineWithoutMiddlewares()
    ensures CombineRoutes("/test", WithConfig(RouteCombinerConfig(None, [RouteA, RouteB])))
         == RouteEffectGroup("/test", [], [RouteA, RouteB])
  {
  }

  // ---------------------------------------------------------------------------
  // `queryParamsFactory`

  /** `''`, `null` and `undefined` give `{}`. */
  lemma QueryNoParams()
    ensures QueryParams.QueryParamsFactory(None) == map[]
    ensures QueryParams.QueryParamsFactory(Some("")) == map[]
  {
  }

  /** `testParam` gives `{ testParam: '' }`. */
  lemma QueryKeyWithoutValue()
    ensures QueryParams.QueryParamsFactory(Some("testParam")) == map["testParam" := QueryParams.Leaf(QueryParams.One(""))]
  {
    KeyOnlyQuery("testParam");
  }

  /** A query that is one bare key maps that key to the empty string. */
  lemma KeyOnlyQuery(k: string)
    requires k != "" && '=' !in k && '[' !in k && '&' !in k
    ensures QueryParams.QueryParamsFactory(Some(k)) == map[k := QueryParams.Leaf(QueryParams.One(""))]
  {
    assert Split(k, '&') == [k] by {
      SplitJoin([k], '&');
    }
    QueryParams.ParseKeyOnly(k);
    assert QueryParams.PairsOf([k]) == [QueryParams.Plain(k, "")];
    assert QueryParams.Fold([QueryParams.Plain(k, "")]) == QueryParams.Accumulate(map[], QueryParams.Plain(k, ""));
  }

  /** Writes the two plain pairs `a=x&b=y`. */
  lemma WriteTwoPlain(a: string, x: string, b: string, y: string)
    requires '=' !in a && '[' !in a && '&' !in a && '&' !in x
    requires '=' !in b && '[' !in b && '&' !in b && '&' !in y
    ensures QueryParams.QueryParamsFactory(Some(a + "=" + x + "&" + b + "=" + y))
         == QueryParams.Fold([QueryParams.Plain(a, x), QueryParams.Plain(b, y)])
  {
    var ps := [QueryParams.Plain(a, x), QueryParams.Plain(b, y)];
    var texts := QueryParams.Renders(ps);
    assert texts == [a + "=" + x, b + "=" + y];
    assert QueryParams.Write(ps) == a + "=" + x + "&" + b + "=" + y by {
      assert Join(texts[1..], '&') == b + "=" + y;
    }
    QueryParams.ReadWrite(ps);
  }

  lemma FoldTwoPlain(a: string, x: string, b: string, y: string)
    ensures QueryParams.Fold([QueryParams.Plain(a, x), QueryParams.Plain(b, y)])
         == if a == b then map[a := QueryParams.Leaf(QueryParams.Many([x, y]))]
            else map[a := QueryParams.Leaf(QueryParams.One(x)), b := QueryParams.Leaf(QueryParams.One(y))]
  {
    var ps := [QueryParams.Plain(a, x), QueryParams.Plain(b, y)];
    assert ps[..1] == [ps[0]] && [ps[0]][..0] == [];
    var m1 := QueryParams.Fold(ps[..1]);
    assert ps[..1][..0] == [];
    assert QueryParams.Fold(ps[..1][..0]) == map[];
    assert m1 == QueryParams.Accumulate(map[], ps[0]);
    assert m1 == map[a := QueryParams.Leaf(QueryParams.One(x))];
    assert |ps| == 2 && ps[..|ps| - 1] == ps[..1];
    assert QueryParams.Fold(ps) == QueryParams.Accumulate(QueryParams.Fold(ps[..|ps| - 1]), ps[|ps| - 1]);
  }

  lemma TwoKeysText()
    ensures "testParam" + "=" + "test" + "&" + "testParam2" + "=" + "test2" == "testParam=test&testParam2=test2"
  {
  }

  lemma RepeatedKeyText()
    ensures "testParam" + "=" + "test" + "&" + "testParam" + "=" + "123" == "testParam=test&testParam=123"
  {
  }

  /** `testParam=test&testParam2=test2` gives `{ testParam: 'test', testParam2: 'test2' }`. */
  lemma QueryTwoKeys()
    ensures QueryParams.QueryParamsFactory(Some("testParam=test&testParam2=test2"))
         == map["testParam" := QueryParams.Leaf(QueryParams.One("test")),
                "testParam2" := QueryParams.Leaf(QueryParams.One("test2"))]
  {
    WriteTwoPlain("testParam", "test", "testParam2", "test2");
    TwoKeysText();
    FoldTwoPlain("testParam", "test", "testParam2", "test2");
  }

  /** `testParam=test&testParam=123` gives `{ testParam: ['test', '123'] }`. */
  lemma QueryRepeatedKey()
    ensures QueryParams.QueryParamsFactory(Some("testParam=test&testParam=123"))
         == map["testParam" := QueryParams.Leaf(QueryParams.Many(["test", "123"]))]
  {
    WriteTwoPlain("testParam", "test", "testParam", "123");
    RepeatedKeyText();
    FoldTwoPlain("testParam", "test", "testParam", "123");
  }

  lemma WriteOneBracket(k: string, s: string, v: string)
    requires |k| > 0 && |s| > 0 && '=' !in k && '[' !in k && '=' !in s && ']' !in s
    requires '&' !in k + "[" + s + "]=" + v
    ensures QueryParams.QueryParamsFactory(Some(k + "[" + s + "]=" + v))
         == map[k := QueryParams.Nested(map[s := QueryParams.One(v)])]
  {
    var p := QueryParams.Bracket(k, s, v);
    assert QueryParams.Write([p]) == QueryParams.Render(p);
    QueryParams.ReadWrite([p]);
    assert [p][..0] == [];
  }

  lemma NestedText()
    ensures "testParam" + "[" + "testNested" + "]=" + "test" == "testParam[testNested]=test"
  {
  }

  /** `testParam[testNested]=test` gives `{ testParam: { testNested: 'test' } }`. */
  lemma QueryNested()
    ensures QueryParams.QueryParamsFactory(Some("testParam[testNested]=test"))
         == map["testParam" := QueryParams.Nested(map["testNested" := QueryParams.One("test")])]
  {
    NestedText();
    WriteOneBracket("testParam", "testNested", "test");
  }

  // ---------------------------------------------------------------------------
  // Resolving requests against the nested-group table

  /** `/^\/?$/` accepts nothing longer than `/`. */
  lemma RootRejects(w: string)
    requires w != ""
    ensures Match(RootPattern, "/" + w).None?
  {
    var url := "/" + w;
    assert url == "" + ['/'] + w;
    IndexOfPrefix("", '/', w);
    assert url[..0] == "";
  }

  /** `/^\/([^\/]+)\/?$/` captures a single non-empty piece. */
  lemma IdAccepts(v: string)
    requires |v| > 0 && '/' !in v
    ensures Match(IdPattern, "/" + v) == Some([v])
  {
    var vs := ["", v];
    assert Fits(IdPattern.parts, vs);
    assert Join(vs, '/') + "" == "/" + v by {
      assert vs[1..] == [v];
    }
    MatchPartsComplete(IdPattern.parts, OptSlash, vs, "");
    assert Captures(IdPattern.parts, vs) == [v] by {
      assert IdPattern.parts[1..] == [Param] && vs[1..] == [v];
    }
  }

  /** A pattern starting with an empty piece matches `/` + `rest` exactly
      when its other pieces match `rest`. */
  lemma LeadingSlash(ps: seq<Seg>, tail: Tail, rest: string)
    requires |ps| >= 1
    ensures MatchParts([Lit("")] + ps, tail, "/" + rest).None? <==> MatchParts(ps, tail, rest).None?
  {
    var url := "/" + rest;
    assert url == "" + ['/'] + rest;
    IndexOfPrefix("", '/', rest);
    assert url[..0] == "" && url[1..] == rest;
    assert ([Lit("")] + ps)[1..] == ps;
  }

  /** The first piece of `v/w` is `v`, and `w` comes after it. */
  lemma SlashAfter(v: string, w: string)
    requires '/' !in v
    ensures var url := v + "/" + w;
            IndexOf(url, '/') == |v| && url[..|v|] == v && url[|v|..] == "/" + w && url[|v| + 1..] == w
  {
    var url := v + "/" + w;
    assert url == v + ['/'] + w;
    IndexOfPrefix(v, '/', w);
    assert url[..|v|] == v && url[|v|..] == "/" + w && url[|v| + 1..] == w;
  }

  lemma ParamThenMore(v: string, w: string)
    requires |v| > 0 && '/' !in v && w != ""
    ensures MatchParts([Param], OptSlash, v + "/" + w).None?
  {
    SlashAfter(v, w);
    assert |"/" + w| > 1;
    assert !TailAccepts(OptSlash, "/" + w);
  }

  /** ... and nothing with a second piece. */
  lemma IdRejects(v: string, w: string)
    requires |v| > 0 && '/' !in v && w != ""
    ensures Match(IdPattern, "/" + v + "/" + w).None?
  {
    var rest := v + "/" + w;
    ParamThenMore(v, w);
    LeadingSlash([Param], OptSlash, rest);
    assert "/" + v + "/" + w == "/" + rest;
    assert IdPattern.parts == [Lit("")] + [Param];
  }

  /** `/^\/([^\/]+)\/nested\/?$/` needs `nested` as its second piece. */
  lemma NestedRejects(v: string, w: string)
    requires |v| > 0 && '/' !in v && '/' !in w && w != "nested"
    ensures Match(NestedPattern, "/" + v + "/" + w).None?
  {
    var rest := v + "/" + w;
    SlashAfter(v, w);
    assert IndexOf(w, '/') == |w| && w[..|w|] == w;
    assert MatchParts([Lit("nested")], OptSlash, w).None?;
    assert [Param, Lit("nested")][1..] == [Lit("nested")];
    assert MatchParts([Param, Lit("nested")], OptSlash, rest).None?;
    LeadingSlash([Param, Lit("nested")], OptSlash, rest);
    assert "/" + v + "/" + w == "/" + rest;
    assert NestedPattern.parts == [Lit("")] + [Param, Lit("nested")];
  }

  /** `/^\/([^\/]+)\/.*?$/` accepts any further pieces. */
  lemma WildcardAccepts(v: string, w: string)
    requires |v| > 0 && '/' !in v && '/' !in w
    requires forall k :: 0 <= k < |w| ==> !LineTerminator(w[k])
    ensures Match(WildcardPattern, "/" + v + "/" + w) == Some([v])
  {
    var vs := ["", v];
    var t := "/" + w;
    assert Fits(WildcardPattern.parts, vs);
    assert TailAccepts(Wildcard, t) by {
      forall k | 1 <= k < |t| ensures !LineTerminator(t[k]) {
        assert t[k] == w[k - 1];
      }
    }
    assert Join(vs, '/') + t == "/" + v + "/" + w by {
      assert vs[1..] == [v];
    }
    MatchPartsComplete(WildcardPattern.parts, Wildcard, vs, t);
    assert Captures(WildcardPattern.parts, vs) == [v] by {
      assert WildcardPattern.parts[1..] == [Param] && vs[1..] == [v];
    }
  }

  /** `GET /v` reaches the `/:id` row with `id` decoded from `v`. */
  lemma GetById(decode: string -> string, v: string)
    requires |v| > 0 && '/' !in v
    ensures FindRoute(ExpectedTable, "/" + v, "GET", decode)
         == Some(RouteMatched(Some(Combined([M])), E, map["id" := decode(v)]))
  {
    RootRejects(v);
    IdAccepts(v);
    var t := ExpectedTable;
    assert t[0].pattern == RootPattern && t[1].pattern == IdPattern;
    assert IsFirstMatch(t, "/" + v, 0, 1);
    IdParams(decode, v);
  }

  /** The parameters of the `/:id` handlers for a captured `v`. */
  lemma IdParams(decode: string -> string, v: string)
    ensures Params(["id"], [v], decode) == map["id" := decode(v)]
  {
    var params := Params(["id"], [v], decode);
    assert LastOccurrence(["id"], 0);
    assert params.Keys == {"id"};
  }

  /** Every row before the wildcard row rejects `/v/w` (for `w` other than
      `nested`), and the wildcard row accepts it. */
  lemma ReachesWildcard(v: string, w: string)
    requires |v| > 0 && '/' !in v && '/' !in w && w != "" && w != "nested"
    requires forall k :: 0 <= k < |w| ==> !LineTerminator(w[k])
    ensures IsFirstMatch(ExpectedTable, "/" + v + "/" + w, 0, 3)
    ensures Match(WildcardPattern, "/" + v + "/" + w) == Some([v])
  {
    var url := "/" + v + "/" + w;
    var t := ExpectedTable;
    assert !MatchesAt(t, url, 0) by {
      assert url == "/" + (v + "/" + w);
      RootRejects(v + "/" + w);
    }
    assert !MatchesAt(t, url, 1) by {
      IdRejects(v, w);
    }
    assert !MatchesAt(t, url, 2) by {
      NestedRejects(v, w);
    }
    WildcardAccepts(v, w);
    FourthRowFirst(t, url);
  }

  lemma FourthRowFirst(t: Routing, url: string)
    requires |t| == 4 && MatchesAt(t, url, 3)
    requires !MatchesAt(t, url, 0) && !MatchesAt(t, url, 1) && !MatchesAt(t, url, 2)
    ensures IsFirstMatch(t, url, 0, 3)
  {
  }

  /** The wildcard route is declared with method `*`, which is a key like any
      other: any other method on a URL only that row matches finds nothing,
      and only a request whose method is literally `*` reaches it. */
  lemma WildcardMethodIsLiteral(decode: string -> string, v: string, w: string, verb: HttpMethod)
    requires |v| > 0 && '/' !in v && '/' !in w && w != "" && w != "nested"
    requires forall k :: 0 <= k < |w| ==> !LineTerminator(w[k])
    requires verb != "*"
    ensures FindRoute(ExpectedTable, "/" + v + "/" + w, verb, decode) == None
    ensures FindRoute(ExpectedTable, "/" + v + "/" + w, "*", decode)
         == Some(RouteMatched(Some(Combined([M])), E, map["id" := decode(v)]))
  {
    ReachesWildcard(v, w);
    IdParams(decode, v);
  }

  lemma PageQuery()
    ensures QueryParams.QueryParamsFactory(Some("page=1")) == map["page" := QueryParams.Leaf(QueryParams.One("1"))]
  {
    var p := QueryParams.Plain("page", "1");
    assert QueryParams.Write([p]) == "page=1";
    QueryParams.ReadWrite([p]);
    assert [p][..0] == [];
  }

  /** `GET /v?q` runs the `/:id` group's middleware and then its effect, on
      the request with its parsed query and `id` decoded from `v`. */
  lemma ResolveById(decode: string -> string, req: Request, v: string, q: string)
    requires |v| > 0 && '/' !in v && '?' !in v && '?' !in q
    requires req.url == "/" + v + "?" + q && req.verb == "GET"
    ensures ResolveRouting(ExpectedTable, req, decode)
         == RunEffect(E, AfterMiddleware(Combined([M]), req.(
              query := Some(QueryParams.QueryParamsFactory(Some(q))),
              params := Some(map["id" := decode(v)]))))
  {
    SplitUrlJoin("/" + v, q);
    GetById(decode, v);
  }

  /** `GET /42?page=1`, as a request arrives. */
  lemma ResolveExample(decode: string -> string)
    ensures ResolveRouting(ExpectedTable, Incoming("GET", "/42?page=1"), decode)
         == RunEffect(E, AfterMiddleware(Combined([M]), Incoming("GET", "/42?page=1").(
              query := Some(map["page" := QueryParams.Leaf(QueryParams.One("1"))]),
              params := Some(map["id" := decode("42")]))))
  {
    var req := Incoming("GET", "/42?page=1");
    assert req.url == "/" + "42" + "?" + "page=1";
    ResolveById(decode, req, "42", "page=1");
    PageQuery();
  }
}
