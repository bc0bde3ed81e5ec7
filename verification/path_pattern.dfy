/** Compiled route patterns. The router stores a regular expression per route;
    every expression the route compiler produces has one of the shapes
      ^p0\/p1\/…\/pn\/?$      (a plain route)
      ^p0\/p1\/…\/pn\/.*?$    (a route ending in `*`)
    where each piece `pi` is either literal text or `([^\/]+)`. This module
    represents such an expression by its pieces and tail, gives the language it
    accepts, and computes its capture groups without a regex engine. */
module PathPattern {
  import opened Wrappers
  import opened Strings
  import MatchPath

  /** One `/`-separated piece of a pattern: literal text, or one capture of
      one or more characters other than `/`. */
  datatype Seg = Lit(text: string) | Param

  /** `\/?$` (an optional trailing slash) or `\/.*?$` (a wildcard tail). */
  datatype Tail = OptSlash | Wildcard

  datatype Pattern = Pattern(parts: seq<Seg>, tail: Tail)

  /** `ParametricRegExp`: a compiled pattern and its parameter names, `undefined`
      when the route declares none. */
  datatype ParametricPattern = ParametricPattern(pattern: Pattern, parameters: Option<seq<string>>)

  /** JavaScript's `.` matches every character except these four. */
  predicate LineTerminator(ch: char) {
    ch == '\n' || ch == '\r' || ch == '\U{2028}' || ch == '\U{2029}'
  }

  /** The text one piece accepts. */
  predicate Accepts(seg: Seg, v: string) {
    match seg
    case Lit(t) => v == t
    case Param => |v| > 0 && '/' !in v
  }

  /** The text the tail accepts after the last piece. */
  predicate TailAccepts(tail: Tail, t: string) {
    match tail
    case OptSlash => t == "" || t == "/"
    case Wildcard => |t| > 0 && t[0] == '/' && forall k :: 1 <= k < |t| ==> !LineTerminator(t[k])
  }

  /** `vs` is a choice of one slash-free text per piece that each piece accepts. */
  predicate Fits(parts: seq<Seg>, vs: seq<string>) {
    && |vs| == |parts|
    && forall i :: 0 <= i < |vs| ==> '/' !in vs[i] && Accepts(parts[i], vs[i])
  }

  /** The language of a pattern: `url` is the pieces' texts joined by `/`
      followed by text the tail accepts. */
  ghost predicate InLanguage(p: Pattern, url: string) {
    exists vs: seq<string>, t: string :: Fits(p.parts, vs) && TailAccepts(p.tail, t) && url == Join(vs, '/') + t
  }

  /** Anchored matching of the pieces against `url`: each piece takes the text
      up to the next `/` (a capture `[^\/]+` cannot cross one). Returns the text
      taken by each piece. */
  function MatchParts(parts: seq<Seg>, tail: Tail, url: string): (r: Option<seq<string>>)
    requires |parts| >= 1
    ensures r.Some? ==> Fits(parts, r.value)
    ensures r.Some? ==> var j := Join(r.value, '/');
                        |j| <= |url| && url[..|j|] == j && TailAccepts(tail, url[|j|..])
    decreases |parts|
  {
    var k := IndexOf(url, '/');
    var v := url[..k];
    if !Accepts(parts[0], v) then None
    else if |parts| == 1 then
      if TailAccepts(tail, url[k..]) then Some([v]) else None
    else if k == |url| then None
    else
      match MatchParts(parts[1..], tail, url[k + 1..])
      case None => None
      case Some(vs) =>
        MatchPartsStep(parts, tail, url, k, vs);
        Some([v] + vs)
  }

  /** The inductive step of `MatchParts`: a first piece ending at the slash at
      `k`, followed by a match of the remaining pieces after it. */
  lemma MatchPartsStep(parts: seq<Seg>, tail: Tail, url: string, k: nat, vs: seq<string>)
    requires |parts| >= 2 && k < |url| && url[k] == '/' && '/' !in url[..k]
    requires Accepts(parts[0], url[..k])
    requires Fits(parts[1..], vs)
    requires var j := Join(vs, '/'); var u := url[k + 1..];
             |j| <= |u| && u[..|j|] == j && TailAccepts(tail, u[|j|..])
    ensures Fits(parts, [url[..k]] + vs)
    ensures var j := Join([url[..k]] + vs, '/');
            |j| <= |url| && url[..|j|] == j && TailAccepts(tail, url[|j|..])
  {
    var v := url[..k];
    var u := url[k + 1..];
    var j := Join(vs, '/');
    assert Join([v] + vs, '/') == v + "/" + j by {
      assert ([v] + vs)[1..] == vs;
    }
    assert url == v + "/" + u;
    assert url[..|v + "/" + j|] == v + "/" + j;
    assert url[|v + "/" + j|..] == u[|j|..];
    assert Fits(parts, [v] + vs) by {
      forall i | 0 <= i < |vs| + 1
        ensures '/' !in ([v] + vs)[i] && Accepts(parts[i], ([v] + vs)[i])
      {
        if i > 0 {
          assert ([v] + vs)[i] == vs[i - 1];
          assert parts[i] == parts[1..][i - 1];
        }
      }
    }
  }

  /** The texts of the capture groups: those taken by `Param` pieces, in order. */
  function Captures(parts: seq<Seg>, vs: seq<string>): (caps: seq<string>)
    requires |vs| == |parts|
    ensures |caps| == ParamCount(parts)
  {
    if |parts| == 0 then []
    else (if parts[0].Param? then [vs[0]] else []) + Captures(parts[1..], vs[1..])
  }

  function ParamCount(parts: seq<Seg>): nat {
    if |parts| == 0 then 0 else (if parts[0].Param? then 1 else 0) + ParamCount(parts[1..])
  }

  /** The text taken by each piece when `url` matches `p`, or `None`. */
  function Decompose(p: Pattern, url: string): Option<seq<string>> {
    if |p.parts| == 0 then
      if TailAccepts(p.tail, url) then Some([]) else None
    else MatchParts(p.parts, p.tail, url)
  }

  /** `url.match(regExp)`: the capture groups of a match, or `None`. */
  function Match(p: Pattern, url: string): (r: Option<seq<string>>)
    ensures r.Some? <==> InLanguage(p, url)
    ensures r.Some? ==> |r.value| == ParamCount(p.parts)
  {
    var m := Decompose(p, url);
    DecomposeIff(p, url);
    if m.None? then None
    else
      assert Fits(p.parts, m.value);
      Some(Captures(p.parts, m.value))
  }

  /** `Decompose` succeeds exactly on the language of the pattern. */
  lemma DecomposeIff(p: Pattern, url: string)
    ensures Decompose(p, url).Some? <==> InLanguage(p, url)
    ensures Decompose(p, url).Some? ==> Fits(p.parts, Decompose(p, url).value)
  {
    var m := Decompose(p, url);
    if m.Some? {
      var j := Join(m.value, '/');
      if |p.parts| == 0 {
        assert url == Join([], '/') + url;
        assert Fits(p.parts, []);
      } else {
        assert url == j + url[|j|..];
      }
    } else if |p.parts| > 0 && InLanguage(p, url) {
      var vs, t :| Fits(p.parts, vs) && TailAccepts(p.tail, t) && url == Join(vs, '/') + t;
      MatchPartsComplete(p.parts, p.tail, vs, t);
    }
  }

  /** Every text in the language is found by `MatchParts`, with exactly the
      per-piece texts it was built from: the decomposition is unique. */
  lemma {:induction false} MatchPartsComplete(parts: seq<Seg>, tail: Tail, vs: seq<string>, t: string)
    requires |parts| >= 1
    requires Fits(parts, vs)
    requires TailAccepts(tail, t)
    ensures MatchParts(parts, tail, Join(vs, '/') + t) == Some(vs)
    decreases |parts|
  {
    var url := Join(vs, '/') + t;
    var v := vs[0];
    if |parts| == 1 {
      assert url == v + t;
      FirstSlashAfter(v, t);
      assert url[..|v|] == v && url[|v|..] == t;
      assert vs == [v];
    } else {
      var rest := Join(vs[1..], '/') + t;
      assert url == v + ['/'] + rest;
      IndexOfPrefix(v, '/', rest);
      assert url[..|v|] == v;
      assert url[|v| + 1..] == rest;
      FitsTail(parts, vs);
      MatchPartsComplete(parts[1..], tail, vs[1..], t);
      assert [v] + vs[1..] == vs;
    }
  }

  /** A slash-free text followed by a tail: the first `/` is where the tail begins. */
  lemma FirstSlashAfter(v: string, t: string)
    requires '/' !in v
    requires t == "" || t[0] == '/'
    ensures IndexOf(v + t, '/') == |v|
  {
    if t == "" {
      assert v + t == v;
    } else {
      assert v + t == v + ['/'] + t[1..];
      IndexOfPrefix(v, '/', t[1..]);
    }
  }

  lemma FitsTail(parts: seq<Seg>, vs: seq<string>)
    requires |parts| >= 1 && Fits(parts, vs)
    ensures Fits(parts[1..], vs[1..])
  {
    forall i | 0 <= i < |vs| - 1
      ensures '/' !in vs[1..][i] && Accepts(parts[1..][i], vs[1..][i])
    {
      assert vs[1..][i] == vs[i + 1];
    }
  }

  // ---------------------------------------------------------------------------
  // Compiling a route path

  /** A piece `:name` with a non-empty name declares a parameter. */
  predicate IsParamPiece(piece: string) {
    |piece| >= 2 && piece[0] == ':'
  }

  function SegOf(piece: string): Seg {
    if IsParamPiece(piece) then Param else Lit(piece)
  }

  function SegsOf(pieces: seq<string>): (parts: seq<Seg>)
    ensures |parts| == |pieces|
    ensures forall i :: 0 <= i < |pieces| ==> parts[i] == SegOf(pieces[i])
  {
    if |pieces| == 0 then [] else [SegOf(pieces[0])] + SegsOf(pieces[1..])
  }

  /** The names of the parameter pieces, in declaration order. */
  function ParamNames(pieces: seq<string>): (names: seq<string>)
    ensures |names| == ParamCount(SegsOf(pieces))
  {
    if |pieces| == 0 then []
    else
      assert SegsOf(pieces)[1..] == SegsOf(pieces[1..]);
      (if IsParamPiece(pieces[0]) then [pieces[0][1..]] else []) + ParamNames(pieces[1..])
  }

  /** The pieces of a route path: a final `*` selects the wildcard tail, one
      trailing `/` is dropped (the tail admits it again), and the rest is split
      on `/`. */
  function Pieces(path: string): (r: (seq<string>, Tail))
    ensures |r.0| >= 1
  {
    var wild := |path| > 0 && path[|path| - 1] == '*';
    var body := if wild then path[..|path| - 1] else path;
    (Split(MatchPath.RemoveTrailingSlash(body), '/'), if wild then Wildcard else OptSlash)
  }

  /** Compiles a full route path into its pattern and parameter names; one
      name per capture group, in order. */
  function Compile(path: string): (c: ParametricPattern)
    ensures |c.pattern.parts| >= 1
    ensures c.parameters.None? <==> ParamCount(c.pattern.parts) == 0
    ensures c.parameters.Some? ==> |c.parameters.value| == ParamCount(c.pattern.parts)
  {
    var (pieces, tail) := Pieces(path);
    var names := ParamNames(pieces);
    ParametricPattern(Pattern(SegsOf(pieces), tail), if |names| == 0 then None else Some(names))
  }

  /** No piece of `pieces` declares a parameter. */
  predicate Literal(pieces: seq<string>) {
    forall k :: 0 <= k < |pieces| ==> !IsParamPiece(pieces[k])
  }

  /** A route path that declares no parameter and no wildcard matches its own
      text, with or without one trailing `/`, capturing nothing. */
  lemma CompiledLiteralMatchesItself(path: string)
    requires !(|path| > 0 && path[|path| - 1] == '*')
    requires Literal(Pieces(path).0)
    ensures var body := MatchPath.RemoveTrailingSlash(path);
            && Match(Compile(path).pattern, body) == Some([])
            && Match(Compile(path).pattern, body + "/") == Some([])
            && Match(Compile(path).pattern, path) == Some([])
  {
    var body := MatchPath.RemoveTrailingSlash(path);
    var pieces := Split(body, '/');
    assert Compile(path).pattern == Pattern(SegsOf(pieces), OptSlash);
    LiteralMatches(pieces, "");
    LiteralMatches(pieces, "/");
    assert body + "" == body;
  }

  /** Literal pieces joined by `/` and followed by an optional slash are in
      the language of their pattern, with no capture. */
  lemma LiteralMatches(pieces: seq<string>, t: string)
    requires Literal(pieces)
    requires forall k :: 0 <= k < |pieces| ==> '/' !in pieces[k]
    requires t == "" || t == "/"
    ensures Match(Pattern(SegsOf(pieces), OptSlash), Join(pieces, '/') + t) == Some([])
  {
    var p := Pattern(SegsOf(pieces), OptSlash);
    forall i | 0 <= i < |pieces| ensures Accepts(p.parts[i], pieces[i]) {
      assert !IsParamPiece(pieces[i]);
    }
    assert Fits(p.parts, pieces);
    assert TailAccepts(OptSlash, t);
    var url := Join(pieces, '/') + t;
    assert InLanguage(p, url);
    LiteralCountsNoParams(pieces);
    assert |Match(p, url).value| == 0;
  }

  lemma {:induction false} LiteralCountsNoParams(pieces: seq<string>)
    requires Literal(pieces)
    ensures ParamCount(SegsOf(pieces)) == 0
    decreases |pieces|
  {
    if |pieces| > 0 {
      assert SegsOf(pieces)[1..] == SegsOf(pieces[1..]);
      assert Literal(pieces[1..]) by {
        forall k | 0 <= k < |pieces| - 1 ensures !IsParamPiece(pieces[1..][k]) {
          assert pieces[1..][k] == pieces[k + 1];
        }
      }
      LiteralCountsNoParams(pieces[1..]);
    }
  }

  /** Names and capture groups line up: given, for every parameter piece, the
      text after its `:`, selecting those texts at the parameter positions
      gives `ParamNames`, just as `Captures` selects the matched texts there. */
  lemma {:induction false} ParamNamesInOrder(pieces: seq<string>, names: seq<string>)
    requires |names| == |pieces|
    requires forall k :: 0 <= k < |pieces| && IsParamPiece(pieces[k]) ==> names[k] == pieces[k][1..]
    ensures ParamNames(pieces) == Captures(SegsOf(pieces), names)
    decreases |pieces|
  {
    if |pieces| > 0 {
      assert SegsOf(pieces)[1..] == SegsOf(pieces[1..]);
      forall k | 0 <= k < |pieces| - 1 && IsParamPiece(pieces[1..][k])
        ensures names[1..][k] == pieces[1..][k][1..]
      {
        assert pieces[1..][k] == pieces[k + 1];
      }
      ParamNamesInOrder(pieces[1..], names[1..]);
    }
  }

  /** The parameter names of a compiled route path are the texts after `:` of
      its `:name` pieces, in the order they appear, and nothing else. */
  lemma CompiledNames(path: string, names: seq<string>)
    requires |names| == |Pieces(path).0|
    requires forall k :: 0 <= k < |names| && IsParamPiece(Pieces(path).0[k]) ==> names[k] == Pieces(path).0[k][1..]
    ensures Compile(path).parameters.GetOr([]) == Captures(Compile(path).pattern.parts, names)
  {
    ParamNamesInOrder(Pieces(path).0, names);
  }

  /** A route path instantiated matches its compiled pattern: keep every
      literal piece, put a non-empty text without `/` in place of every
      `:name` piece, append what the tail admits (nothing or one `/`; for a
      trailing `*`, a `/` and the rest of the line), and the match captures
      exactly the texts put in, in order. */
  lemma CompiledPathMatches(path: string, vs: seq<string>, t: string)
    requires |vs| == |Pieces(path).0|
    requires forall k :: 0 <= k < |vs| ==>
               if IsParamPiece(Pieces(path).0[k]) then vs[k] != "" && '/' !in vs[k]
               else vs[k] == Pieces(path).0[k]
    requires TailAccepts(Pieces(path).1, t)
    ensures Match(Compile(path).pattern, Join(vs, '/') + t) == Some(Captures(Compile(path).pattern.parts, vs))
  {
    var pieces := Pieces(path).0;
    var p := Compile(path).pattern;
    assert p == Pattern(SegsOf(pieces), Pieces(path).1);
    forall i | 0 <= i < |vs| ensures '/' !in vs[i] && Accepts(p.parts[i], vs[i]) {
      if !IsParamPiece(pieces[i]) {
        assert '/' !in pieces[i];
      }
    }
    assert Fits(p.parts, vs);
    MatchPartsComplete(p.parts, p.tail, vs, t);
  }
}
