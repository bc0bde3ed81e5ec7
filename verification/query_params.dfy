/** `queryParamsFactory`: the query string after `?` turned into a map.
    Pieces are separated by `&`; a piece is split at its first `=` (a piece
    without `=` has the value `""`); a repeated key collects its values in
    order; a key `name[sub]` fills a one-level nested map under `name`.
    Empty pieces are skipped, so `""` gives the empty map. */
module QueryParams {
  import opened Wrappers
  import opened Strings

  /** The value(s) of one key: a single value, or two or more in query order. */
  datatype Flat = One(v: string) | Many(vs: seq<string>)

  datatype QueryValue = Leaf(flat: Flat) | Nested(fields: map<string, Flat>)

  type QueryMap = map<string, QueryValue>

  /** One `key=value` piece, with a bracketed key already taken apart. */
  datatype Pair = Plain(key: string, value: string) | Bracket(key: string, sub: string, value: string)

  /** The values a `Flat` stands for, in order. */
  function Values(f: Flat): seq<string> {
    match f
    case One(v) => [v]
    case Many(vs) => vs
  }

  /** The representation of a non-empty list of values: one value stays a
      string, two or more become a list. */
  function FlatOf(vs: seq<string>): (f: Flat)
    requires |vs| >= 1
    ensures Values(f) == vs
  {
    if |vs| == 1 then One(vs[0]) else Many(vs)
  }

  /** One more occurrence of a key: a string becomes a two-element list, a list grows. */
  function Add(f: Flat, v: string): (g: Flat)
    ensures Values(g) == Values(f) + [v]
  {
    match f
    case One(u) => Many([u, v])
    case Many(vs) => Many(vs + [v])
  }

  /** `name[sub]` with a non-empty `name` and a non-empty `sub` free of brackets. */
  predicate IsBracketKey(k: string) {
    var b := IndexOf(k, '[');
    && 0 < b < |k| - 2
    && k[|k| - 1] == ']'
    && ']' !in k[b + 1..|k| - 1]
  }

  /** The pair a key and its value stand for, the key taken apart when it is
      bracketed. */
  function PairOf(key: string, value: string): Pair {
    if IsBracketKey(key) then
      var b := IndexOf(key, '[');
      Bracket(key[..b], key[b + 1..|key| - 1], value)
    else Plain(key, value)
  }

  /** A piece splits at its first `=`; without one, the value is empty.
      Writing the pair back gives the piece (followed by the `=` it lacked). */
  function ParsePair(piece: string): (r: Pair)
    ensures '=' !in r.key
    ensures '=' in piece ==> Render(r) == piece
    ensures '=' !in piece ==> r.value == "" && Render(r) == piece + "="
  {
    var i := IndexOf(piece, '=');
    var value := if i < |piece| then piece[i + 1..] else "";
    PairOfRender(piece[..i], value);
    assert '=' in piece ==> piece == piece[..i] + "=" + value;
    PairOf(piece[..i], value)
  }

  /** The pair a key stands for writes back to that key; its own key is a
      prefix of it. */
  lemma PairOfRender(key: string, value: string)
    ensures Render(PairOf(key, value)) == key + "=" + value
    ensures PairOf(key, value).value == value
    ensures PairOf(key, value).key <= key
  {
    if IsBracketKey(key) {
      var b := IndexOf(key, '[');
      assert key == key[..b] + "[" + key[b + 1..|key| - 1] + "]";
    }
  }

  /** The pairs of a query string, skipping empty pieces. */
  function PairsOf(pieces: seq<string>): seq<Pair>
  {
    if |pieces| == 0 then []
    else
      var rest := PairsOf(pieces[1..]);
      if pieces[0] == "" then rest else [ParsePair(pieces[0])] + rest
  }

  /** Adds one pair to the map. A pair whose key already holds the other
      form (plain versus bracketed) is dropped. */
  function Accumulate(m: QueryMap, p: Pair): QueryMap {
    match p
    case Plain(k, v) =>
      if k !in m then m[k := Leaf(One(v))]
      else if m[k].Leaf? then m[k := Leaf(Add(m[k].flat, v))]
      else m
    case Bracket(k, s, v) =>
      if k !in m then m[k := Nested(map[s := One(v)])]
      else if m[k].Nested? then
        var n := m[k].fields;
        m[k := Nested(n[s := if s in n then Add(n[s], v) else One(v)])]
      else m
  }

  /** Folds the pairs into a map from left to right. */
  function Fold(ps: seq<Pair>): QueryMap
  {
    if |ps| == 0 then map[] else Accumulate(Fold(ps[..|ps| - 1]), ps[|ps| - 1])
  }

  /** `queryParamsFactory(query)`, where `None` is `null` or `undefined`. */
  function QueryParamsFactory(query: Option<string>): (m: QueryMap)
    ensures query.None? || query == Some("") ==> m == map[]
  {
    match query
    case None => map[]
    case Some(q) =>
      assert q == "" ==> Split(q, '&') == [""] && PairsOf([""]) == PairsOf([]);
      Fold(PairsOf(Split(q, '&')))
  }

  // ---------------------------------------------------------------------------
  // Reference view: the values each key was given, read straight off the pairs

  /** The values of the plain pairs with key `k`, in order. */
  function PlainValues(ps: seq<Pair>, k: string): seq<string> {
    if |ps| == 0 then []
    else
      var last := ps[|ps| - 1];
      PlainValues(ps[..|ps| - 1], k) + (if last.Plain? && last.key == k then [last.value] else [])
  }

  /** The values of the bracketed pairs `k[s]`, in order. */
  function SubValues(ps: seq<Pair>, k: string, s: string): seq<string> {
    if |ps| == 0 then []
    else
      var last := ps[|ps| - 1];
      SubValues(ps[..|ps| - 1], k, s) + (if last.Bracket? && last.key == k && last.sub == s then [last.value] else [])
  }

  predicate HasBracket(ps: seq<Pair>, k: string) {
    exists i :: 0 <= i < |ps| && ps[i].Bracket? && ps[i].key == k
  }

  predicate HasPlain(ps: seq<Pair>, k: string) {
    exists i :: 0 <= i < |ps| && ps[i].Plain? && ps[i].key == k
  }

  /** A key only ever used plainly maps to exactly its values in query order:
      a string for one occurrence, the ordered list for two or more; a key
      that never occurs is absent. */
  lemma {:induction false} FoldPlain(ps: seq<Pair>, k: string)
    requires !HasBracket(ps, k)
    ensures k in Fold(ps) <==> |PlainValues(ps, k)| > 0
    ensures k in Fold(ps) ==> Fold(ps)[k] == Leaf(FlatOf(PlainValues(ps, k)))
    decreases |ps|
  {
    if |ps| > 0 {
      var init := ps[..|ps| - 1];
      assert !HasBracket(init, k) by {
        forall i | 0 <= i < |init| ensures !(init[i].Bracket? && init[i].key == k) {
          assert init[i] == ps[i];
        }
      }
      FoldPlain(init, k);
      var last := ps[|ps| - 1];
      assert !(last.Bracket? && last.key == k);
      if last.Plain? && last.key == k && |PlainValues(init, k)| > 0 {
        assert FlatOf(PlainValues(ps, k)) == Add(FlatOf(PlainValues(init, k)), last.value);
      }
    }
  }

  /** A key only ever used with brackets is present exactly when it occurs,
      and then holds a nested map. */
  lemma {:induction false} FoldBracketKey(ps: seq<Pair>, k: string)
    requires !HasPlain(ps, k)
    ensures k in Fold(ps) <==> HasBracket(ps, k)
    ensures k in Fold(ps) ==> Fold(ps)[k].Nested?
    decreases |ps|
  {
    if |ps| > 0 {
      var init := ps[..|ps| - 1];
      NoPlainInit(ps, k);
      FoldBracketKey(init, k);
      HasBracketSnoc(ps, k);
    }
  }

  /** Under such a key, the nested map's fields are exactly its sub-keys, each
      holding its values in query order. */
  lemma {:induction false} FoldBracket(ps: seq<Pair>, k: string, s: string)
    requires !HasPlain(ps, k)
    requires k in Fold(ps)
    ensures Fold(ps)[k].Nested?
    ensures s in Fold(ps)[k].fields <==> |SubValues(ps, k, s)| > 0
    ensures s in Fold(ps)[k].fields ==> Fold(ps)[k].fields[s] == FlatOf(SubValues(ps, k, s))
    decreases |ps|
  {
    FoldBracketKey(ps, k);
    var init := ps[..|ps| - 1];
    var last := ps[|ps| - 1];
    var m := Fold(init);
    assert Fold(ps) == Accumulate(m, last);
    NoPlainInit(ps, k);
    FoldBracketKey(init, k);
    var before := SubValues(init, k, s);
    if last.Bracket? && last.key == k {
      if k in m {
        FoldBracket(init, k, s);
        var n := m[k].fields;
        assert Fold(ps)[k] == Nested(n[last.sub := if last.sub in n then Add(n[last.sub], last.value) else One(last.value)]);
        if last.sub == s && |before| > 0 {
          assert FlatOf(SubValues(ps, k, s)) == Add(FlatOf(before), last.value);
        }
      } else {
        SubValuesOccur(init, k, s);
        assert Fold(ps)[k] == Nested(map[last.sub := One(last.value)]);
      }
    } else {
      assert Fold(ps)[k] == m[k];
      FoldBracket(init, k, s);
    }
  }

  lemma NoPlainInit(ps: seq<Pair>, k: string)
    requires |ps| > 0 && !HasPlain(ps, k)
    ensures !HasPlain(ps[..|ps| - 1], k)
    ensures !(ps[|ps| - 1].Plain? && ps[|ps| - 1].key == k)
  {
    var init := ps[..|ps| - 1];
    forall i | 0 <= i < |init| ensures !(init[i].Plain? && init[i].key == k) {
      assert init[i] == ps[i];
    }
  }

  lemma HasBracketSnoc(ps: seq<Pair>, k: string)
    requires |ps| > 0
    ensures HasBracket(ps, k) <==> HasBracket(ps[..|ps| - 1], k) || (ps[|ps| - 1].Bracket? && ps[|ps| - 1].key == k)
  {
    var init := ps[..|ps| - 1];
    if HasBracket(init, k) {
      var i :| 0 <= i < |init| && init[i].Bracket? && init[i].key == k;
      assert ps[i] == init[i];
    }
    if HasBracket(ps, k) && !(ps[|ps| - 1].Bracket? && ps[|ps| - 1].key == k) {
      var i :| 0 <= i < |ps| && ps[i].Bracket? && ps[i].key == k;
      assert init[i] == ps[i];
    }
  }

  /** Only a bracketed pair for `k` contributes a value to `k[s]`. */
  lemma {:induction false} SubValuesOccur(ps: seq<Pair>, k: string, s: string)
    ensures |SubValues(ps, k, s)| > 0 ==> HasBracket(ps, k)
    decreases |ps|
  {
    if |ps| > 0 {
      var init := ps[..|ps| - 1];
      SubValuesOccur(init, k, s);
      if HasBracket(init, k) {
        var i :| 0 <= i < |init| && init[i].Bracket? && init[i].key == k;
        assert ps[i] == init[i];
      }
    }
  }

  // ---------------------------------------------------------------------------
  // Parsing one piece, against the text a pair is written as

  /** The text of a pair as it is written in a query string. */
  function Render(p: Pair): string {
    match p
    case Plain(k, v) => k + "=" + v
    case Bracket(k, s, v) => k + "[" + s + "]=" + v
  }

  /** A pair whose written form reads back as itself: the key holds no `=`
      (the first `=` ends it), a plain key no `[`, and a bracketed key has a
      non-empty name and a non-empty sub-key free of `]`. */
  predicate WellFormed(p: Pair) {
    match p
    case Plain(k, _) => '=' !in k && '[' !in k
    case Bracket(k, s, _) => |k| > 0 && |s| > 0 && '=' !in k && '[' !in k && '=' !in s && ']' !in s
  }

  /** Reading a written pair gives the pair back; the value may hold anything,
      `=` included. */
  lemma ParseRender(p: Pair)
    requires WellFormed(p)
    ensures ParsePair(Render(p)) == p
  {
    match p
    case Plain(k, v) => ParsePlain(k, v);
    case Bracket(k, s, v) => ParseBracket(k, s, v);
  }

  lemma ParsePlain(k: string, v: string)
    requires '=' !in k && '[' !in k
    ensures ParsePair(k + "=" + v) == Plain(k, v)
  {
    ParseKeyValue(k, v);
    assert !IsBracketKey(k);
  }

  lemma ParseBracket(k: string, s: string, v: string)
    requires |k| > 0 && |s| > 0 && '=' !in k && '[' !in k && '=' !in s && ']' !in s
    ensures ParsePair(k + "[" + s + "]=" + v) == Bracket(k, s, v)
  {
    var key := k + "[" + s + "]";
    assert '=' !in key;
    assert key + "=" + v == k + "[" + s + "]=" + v;
    BracketKeyParts(k, s);
    ParseKeyValue(key, v);
  }

  /** A piece `key=value` with no `=` in `key` reads as that key and value. */
  lemma ParseKeyValue(key: string, value: string)
    requires '=' !in key
    ensures ParsePair(key + "=" + value) == PairOf(key, value)
  {
    SplitAtEquals(key, value);
  }

  /** A piece `key=value` with no `=` in `key` splits into `key` and `value`. */
  lemma SplitAtEquals(key: string, value: string)
    requires '=' !in key
    ensures var piece := key + "=" + value;
            var i := IndexOf(piece, '=');
            && i == |key| && piece[..i] == key && piece[i + 1..] == value
  {
    IndexOfPrefix(key, '=', value);
    var piece := key + "=" + value;
    assert piece[..|key|] == key && piece[|key| + 1..] == value;
  }

  lemma BracketKeyParts(k: string, s: string)
    requires |k| > 0 && |s| > 0 && '[' !in k && ']' !in s
    ensures var key := k + "[" + s + "]";
            && IsBracketKey(key)
            && IndexOf(key, '[') == |k|
            && key[..|k|] == k && key[|k| + 1..|key| - 1] == s
  {
    var key := k + "[" + s + "]";
    assert key == k + ['['] + (s + "]");
    IndexOfPrefix(k, '[', s + "]");
    assert key[..|k|] == k;
    assert key[|k| + 1..|key| - 1] == s;
  }

  /** A piece without `=` is a key with the empty value. */
  lemma ParseKeyOnly(k: string)
    requires '=' !in k && '[' !in k
    ensures ParsePair(k) == Plain(k, "")
  {
    assert k[..|k|] == k;
  }

  function Renders(ps: seq<Pair>): (texts: seq<string>)
    ensures |texts| == |ps|
    ensures forall i :: 0 <= i < |ps| ==> texts[i] == Render(ps[i])
  {
    if |ps| == 0 then [] else [Render(ps[0])] + Renders(ps[1..])
  }

  /** A query string written from pairs, joined by `&`. */
  function Write(ps: seq<Pair>): string {
    Join(Renders(ps), '&')
  }

  /** Written pairs are read back one per piece: no written pair is empty. */
  lemma {:induction false} PairsOfRendered(ps: seq<Pair>)
    requires forall i :: 0 <= i < |ps| ==> WellFormed(ps[i])
    ensures PairsOf(Renders(ps)) == ps
    decreases |ps|
  {
    if |ps| > 0 {
      var texts := Renders(ps);
      RenderNonEmpty(ps[0]);
      ParseRender(ps[0]);
      PairsOfRendered(ps[1..]);
      PairsOfCons(texts, ps[0], ps[1..]);
      assert [ps[0]] + ps[1..] == ps;
    }
  }

  /** One step of reading: a non-empty first piece that reads as `p`, before
      pieces that read as `rest`. */
  lemma PairsOfCons(texts: seq<string>, p: Pair, rest: seq<Pair>)
    requires |texts| > 0 && texts[0] != ""
    requires ParsePair(texts[0]) == p && PairsOf(texts[1..]) == rest
    ensures PairsOf(texts) == [p] + rest
  {
  }

  /** A written pair is never empty: it holds at least its `=`. */
  lemma RenderNonEmpty(p: Pair)
    ensures |Render(p)| > 0
  {
  }

  /** `queryParamsFactory` reads a written query as the fold of its pairs, so
      the reference view above describes its result. */
  lemma ReadWrite(ps: seq<Pair>)
    requires |ps| >= 1
    requires forall i :: 0 <= i < |ps| ==> WellFormed(ps[i]) && '&' !in Render(ps[i])
    ensures QueryParamsFactory(Some(Write(ps))) == Fold(ps)
  {
    SplitJoin(Renders(ps), '&');
    PairsOfRendered(ps);
  }
}
