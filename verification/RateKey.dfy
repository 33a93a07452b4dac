/** The Redis key a limiter charges for a request, and when two requests share one. */
module RateKey {
  import opened Http
  import opened Text

  datatype VaryBy = VaryBy(meth: bool, user: bool, headers: seq<HeaderKey>, params: seq<string>)

  datatype Keyer =
    | MethodKeyer
    | UsernameKeyer
    | HeaderKeyer(headerKeys: seq<HeaderKey>)
    | ParamKeyer(paramKeys: seq<string>)

  /** The user part of a key. */
  function UserPart(r: Request): string {
    ToLower(match r.session case Some(s) => s.username case None => "guest")
  }

  function HeaderValues(keys: seq<HeaderKey>, r: Request): (vs: seq<string>)
    ensures |vs| == |keys|
  {
    seq(|keys|, i requires 0 <= i < |keys| => ToLower(Get(r.header, keys[i])))
  }

  function ParamValues(keys: seq<string>, r: Request): (vs: seq<string>)
    ensures |vs| == |keys|
  {
    seq(|keys|, i requires 0 <= i < |keys| => ToLower(QueryGet(r, keys[i])))
  }

  /** The values a limiter varies over, one by one. */
  function Flat(v: VaryBy, r: Request): seq<string> {
    ContextValues(v, r) + HeaderValues(v.headers, r) + ParamValues(v.params, r)
  }

  function KeyerValues(keyer: Keyer, r: Request): seq<string> {
    match keyer
    case MethodKeyer => [r.meth]
    case UsernameKeyer => [UserPart(r)]
    case HeaderKeyer(keys) => HeaderValues(keys, r)
    case ParamKeyer(keys) => ParamValues(keys, r)
  }

  /** One keyer's part of the key; header and parameter values are collected and joined. */
  method KeyerKey(keyer: Keyer, r: Request) returns (key: string)
    ensures key == Join(KeyerValues(keyer, r), ':')
  {
    match keyer
    case MethodKeyer =>
      key := r.meth;
    case UsernameKeyer =>
      var username := "guest";
      if r.session.Some? {
        username := r.session.value.username;
      }
      key := ToLower(username);
    case HeaderKeyer(keys) =>
      var values := [];
      for i := 0 to |keys|
        invariant values == HeaderValues(keys, r)[..i]
      {
        values := values + [ToLower(Get(r.header, keys[i]))];
      }
      assert values == HeaderValues(keys, r);
      key := Join(values, ':');
    case ParamKeyer(keys) =>
      var values := [];
      for i := 0 to |keys|
        invariant values == ParamValues(keys, r)[..i]
      {
        values := values + [ToLower(QueryGet(r, keys[i]))];
      }
      assert values == ParamValues(keys, r);
      key := Join(values, ':');
  }

  /** The values of all keyers, in order. */
  function AllValues(keyers: seq<Keyer>, r: Request): seq<string> {
    if keyers == [] then [] else AllValues(keyers[..|keyers| - 1], r) + KeyerValues(keyers[|keyers| - 1], r)
  }

  /** Appending a join of some values to a list with the right join is appending the values. */
  lemma JoinMore(front: seq<string>, values: seq<string>, more: seq<string>, keys: seq<string>, part: string)
    requires front != [] && more != [] && keys != []
    requires Join(keys, ':') == Join(front + values, ':') && part == Join(more, ':')
    ensures Join(keys + [part], ':') == Join(front + (values + more), ':')
  {
    JoinConcat(keys, [part], ':');
    JoinConcat(front + values, more, ':');
    assert front + values + more == front + (values + more);
  }

  /** The key: the prefix and the parts of the keyers, joined. Because every keyer's part is
      itself a join, this nested join is the flat join of all values. */
  method RateLimitKey(prefix: string, keyers: seq<Keyer>, r: Request) returns (key: string)
    requires AllNonEmpty(keyers, r)
    ensures key == Join([prefix] + AllValues(keyers, r), ':')
  {
    var keys := [prefix];
    for i := 0 to |keyers|
      invariant keys != []
      invariant Join(keys, ':') == Join([prefix] + AllValues(keyers[..i], r), ':')
    {
      var part := KeyerKey(keyers[i], r);
      assert keyers[..i + 1][..i] == keyers[..i];
      JoinMore([prefix], AllValues(keyers[..i], r), KeyerValues(keyers[i], r), keys, part);
      keys := keys + [part];
    }
    assert keyers[..|keyers|] == keyers;
    key := Join(keys, ':');
  }

  ghost predicate AllNonEmpty(keyers: seq<Keyer>, r: Request) {
    forall k <- keyers :: KeyerValues(k, r) != []
  }

  function ContextValues(v: VaryBy, r: Request): seq<string> {
    (if v.meth then [r.meth] else []) + (if v.user then [UserPart(r)] else [])
  }

  /** These keyers give these values for the request. */
  ghost predicate Gives(keyers: seq<Keyer>, r: Request, values: seq<string>) {
    AllNonEmpty(keyers, r) && AllValues(keyers, r) == values
  }

  lemma GivesMore(keyers: seq<Keyer>, r: Request, values: seq<string>, k: Keyer)
    requires Gives(keyers, r, values) && KeyerValues(k, r) != []
    ensures Gives(keyers + [k], r, values + KeyerValues(k, r))
  {
    assert (keyers + [k])[..|keyers|] == keyers;
  }

  lemma ContextGives(v: VaryBy, r: Request)
    ensures Gives((if v.meth then [MethodKeyer] else []) + if v.user then [UsernameKeyer] else [], r, ContextValues(v, r))
  {
    var ms := if v.meth then [MethodKeyer] else [];
    assert Gives([], r, []);
    if v.meth {
      GivesMore([], r, [], MethodKeyer);
      assert [] + [MethodKeyer] == ms && [] + [r.meth] == [r.meth];
    }
    if v.user {
      GivesMore(ms, r, if v.meth then [r.meth] else [], UsernameKeyer);
    } else {
      assert ms + [] == ms;
    }
  }

  /** The keyers a configuration asks for: for every request their values are, in order, exactly
      those the limiter varies over, and each of them has one. */
  method Keyers(v: VaryBy) returns (keyers: seq<Keyer>)
    ensures forall r :: Gives(keyers, r, Flat(v, r))
  {
    keyers := [];
    if v.meth {
      keyers := keyers + [MethodKeyer];
    }
    if v.user {
      keyers := keyers + [UsernameKeyer];
    }
    ghost var context := (if v.meth then [MethodKeyer] else []) + if v.user then [UsernameKeyer] else [];
    assert keyers == context;
    forall r ensures Gives(context, r, ContextValues(v, r)) {
      ContextGives(v, r);
    }
    if |v.headers| > 0 {
      forall r ensures Gives(context + [HeaderKeyer(v.headers)], r, ContextValues(v, r) + HeaderValues(v.headers, r)) {
        GivesMore(context, r, ContextValues(v, r), HeaderKeyer(v.headers));
      }
      keyers := keyers + [HeaderKeyer(v.headers)];
    }
    ghost var most := keyers;
    forall r ensures Gives(most, r, ContextValues(v, r) + HeaderValues(v.headers, r)) {
    }
    if |v.params| > 0 {
      forall r ensures Gives(most + [ParamKeyer(v.params)], r, Flat(v, r)) {
        GivesMore(most, r, ContextValues(v, r) + HeaderValues(v.headers, r), ParamKeyer(v.params));
      }
      keyers := keyers + [ParamKeyer(v.params)];
    }
  }

  /** The key of a request under a configuration: `keyers` followed by `rateLimitKey`. */
  method KeyFor(prefix: string, v: VaryBy, r: Request) returns (key: string)
    ensures key == Key(prefix, v, r)
  {
    var keyers := Keyers(v);
    assert Gives(keyers, r, Flat(v, r));
    key := RateLimitKey(prefix, keyers, r);
  }

  /** The flat form of the key. */
  function Key(prefix: string, v: VaryBy, r: Request): string {
    Join([prefix] + Flat(v, r), ':')
  }

  /** Two limiters with the same prefix charge the same key for two requests exactly when the
      values they vary over, cut at the colons inside them, are the same list. */
  lemma SameKeyIff(prefix: string, v: VaryBy, r: Request, v': VaryBy, r': Request)
    ensures Key(prefix, v, r) == Key(prefix, v', r') <==> Pieces(Flat(v, r), ':') == Pieces(Flat(v', r'), ':')
  {
    var xs, ys := [prefix] + Flat(v, r), [prefix] + Flat(v', r');
    SplitOfJoin(xs, ':');
    SplitOfJoin(ys, ':');
    assert xs[1..] == Flat(v, r) && ys[1..] == Flat(v', r');
    var p := Split(prefix, ':');
    assert Pieces(xs, ':') == p + Pieces(Flat(v, r), ':') && Pieces(ys, ':') == p + Pieces(Flat(v', r'), ':');
    JoinOfSplit(Key(prefix, v, r), ':');
    JoinOfSplit(Key(prefix, v', r'), ':');
    if p + Pieces(Flat(v, r), ':') == p + Pieces(Flat(v', r'), ':') {
      assert (p + Pieces(Flat(v, r), ':'))[|p|..] == Pieces(Flat(v, r), ':');
      assert (p + Pieces(Flat(v', r'), ':'))[|p|..] == Pieces(Flat(v', r'), ':');
    }
  }

  /** Without colons in the values, keys are equal exactly when the values are, so limiters
      varying over different numbers of values never share a key. */
  lemma ColonFreeKeysAreInjective(prefix: string, v: VaryBy, r: Request, v': VaryBy, r': Request)
    requires forall x <- Flat(v, r) + Flat(v', r') :: ':' !in x
    ensures Key(prefix, v, r) == Key(prefix, v', r') <==> Flat(v, r) == Flat(v', r')
  {
    forall x <- Flat(v, r) ensures ':' !in x {
      assert x in Flat(v, r) + Flat(v', r');
    }
    SameKeyIff(prefix, v, r, v', r');
    PiecesWithoutSeparator(Flat(v, r), ':');
    PiecesWithoutSeparator(Flat(v', r'), ':');
  }

  ghost function NameOf(r: Request): string {
    match r.session
    case Some(s) => s.username
    case None => "guest"
  }

  /** None of the values that the limiter varies over has a colon in it. */
  ghost predicate ColonFree(v: VaryBy, r: Request) {
    && (v.meth ==> ':' !in r.meth) && (v.user ==> ':' !in NameOf(r))
    && (forall h <- v.headers :: ':' !in Get(r.header, h))
    && (forall p <- v.params :: ':' !in QueryGet(r, p))
  }

  lemma LowerKeepsColons(s: string)
    ensures ':' in ToLower(s) <==> ':' in s
  {
    if ':' in s {
      var i :| 0 <= i < |s| && s[i] == ':';
      assert ToLower(s)[i] == ':';
    }
  }

  lemma ColonFreeValues(v: VaryBy, r: Request)
    requires ColonFree(v, r)
    ensures forall x <- Flat(v, r) :: ':' !in x
  {
    LowerKeepsColons(NameOf(r));
    forall x | x in HeaderValues(v.headers, r) ensures ':' !in x {
      var i :| 0 <= i < |v.headers| && HeaderValues(v.headers, r)[i] == x;
      LowerKeepsColons(Get(r.header, v.headers[i]));
    }
    forall x | x in ParamValues(v.params, r) ensures ':' !in x {
      var i :| 0 <= i < |v.params| && ParamValues(v.params, r)[i] == x;
      LowerKeepsColons(QueryGet(r, v.params[i]));
    }
  }

  /** Two requests agree in everything the limiter varies over, letter case aside. */
  ghost predicate SameValues(v: VaryBy, r: Request, r': Request) {
    && (v.meth ==> r.meth == r'.meth)
    && (v.user ==> EqualFold(NameOf(r), NameOf(r')))
    && (forall h <- v.headers :: EqualFold(Get(r.header, h), Get(r'.header, h)))
    && (forall p <- v.params :: EqualFold(QueryGet(r, p), QueryGet(r', p)))
  }

  lemma SameFlatIff(v: VaryBy, r: Request, r': Request)
    ensures Flat(v, r) == Flat(v, r') <==> SameValues(v, r, r')
  {
    var c, c' := ContextValues(v, r), ContextValues(v, r');
    var h, h' := HeaderValues(v.headers, r), HeaderValues(v.headers, r');
    var p, p' := ParamValues(v.params, r), ParamValues(v.params, r');
    assert |c| == |c'|;
    if Flat(v, r) == Flat(v, r') {
      assert c == Flat(v, r)[..|c|] && c' == Flat(v, r')[..|c|];
      assert h == Flat(v, r)[|c|..|c| + |h|] && h' == Flat(v, r')[|c|..|c| + |h|];
      assert p == Flat(v, r)[|c| + |h|..] && p' == Flat(v, r')[|c| + |h|..];
      SamePartsMean(v, r, r');
    }
    if SameValues(v, r, r') {
      assert h == h' by {
        forall i | 0 <= i < |h| ensures h[i] == h'[i] {
          assert v.headers[i] in v.headers;
        }
      }
      assert p == p' by {
        forall i | 0 <= i < |p| ensures p[i] == p'[i] {
          assert v.params[i] in v.params;
        }
      }
    }
  }

  lemma SamePartsMean(v: VaryBy, r: Request, r': Request)
    requires ContextValues(v, r) == ContextValues(v, r')
    requires HeaderValues(v.headers, r) == HeaderValues(v.headers, r') && ParamValues(v.params, r) == ParamValues(v.params, r')
    ensures SameValues(v, r, r')
  {
    var c, c' := ContextValues(v, r), ContextValues(v, r');
    if v.meth {
      assert c[0] == r.meth && c'[0] == r'.meth;
    }
    if v.user {
      var last := |c| - 1;
      assert c[last] == ToLower(NameOf(r)) && c'[last] == ToLower(NameOf(r'));
    }
    forall h | h in v.headers ensures EqualFold(Get(r.header, h), Get(r'.header, h)) {
      var i :| 0 <= i < |v.headers| && v.headers[i] == h;
      assert HeaderValues(v.headers, r)[i] == HeaderValues(v.headers, r')[i];
    }
    forall p | p in v.params ensures EqualFold(QueryGet(r, p), QueryGet(r', p)) {
      var i :| 0 <= i < |v.params| && v.params[i] == p;
      assert ParamValues(v.params, r)[i] == ParamValues(v.params, r')[i];
    }
  }

  /** One limiter charges the same key for two requests exactly if they agree in the method, the user,
      the headers and the query parameters it varies over, letter case aside. */
  lemma SameBucketIff(prefix: string, v: VaryBy, r: Request, r': Request)
    requires ColonFree(v, r) && ColonFree(v, r')
    ensures Key(prefix, v, r) == Key(prefix, v, r') <==> SameValues(v, r, r')
  {
    ColonFreeValues(v, r);
    ColonFreeValues(v, r');
    ColonFreeKeysAreInjective(prefix, v, r, v, r');
    SameFlatIff(v, r, r');
  }

  /** The text of a key, as an override has to spell it. */
  lemma FullKey(prefix: string, h: HeaderKey, p: string, r: Request)
    ensures Key(prefix, VaryBy(true, true, [h], [p]), r) ==
            prefix + ":" + r.meth + ":" + ToLower(NameOf(r)) + ":" + ToLower(Get(r.header, h)) + ":" + ToLower(QueryGet(r, p))
  {
    var v := VaryBy(true, true, [h], [p]);
    var m, u, x, y := r.meth, ToLower(NameOf(r)), ToLower(Get(r.header, h)), ToLower(QueryGet(r, p));
    assert Flat(v, r) == [m, u, x, y];
    var xs := [prefix, m, u, x, y];
    assert [prefix] + Flat(v, r) == xs;
    JoinConcat([prefix, m, u, x], [y], ':');
    JoinConcat([prefix, m, u], [x], ':');
    JoinConcat([prefix, m], [u], ':');
    JoinConcat([prefix], [m], ':');
    assert [prefix, m, u, x] + [y] == xs && [prefix, m, u] + [x] == [prefix, m, u, x];
    assert [prefix, m] + [u] == [prefix, m, u] && [prefix] + [m] == [prefix, m];
  }

  /** A limiter that varies over exactly one value never confuses two requests, colons or not. */
  lemma OneValueIsInjective(prefix: string, v: VaryBy, r: Request, r': Request)
    requires |Flat(v, r)| == |Flat(v, r')| == 1
    ensures Key(prefix, v, r) == Key(prefix, v, r') <==> Flat(v, r) == Flat(v, r')
  {
    var xs, ys := Flat(v, r), Flat(v, r');
    JoinConcat([prefix], xs, ':');
    JoinConcat([prefix], ys, ':');
    assert Key(prefix, v, r) == (prefix + [':']) + xs[0] && Key(prefix, v, r') == (prefix + [':']) + ys[0];
    assert Key(prefix, v, r)[|prefix| + 1..] == xs[0] && Key(prefix, v, r')[|prefix| + 1..] == ys[0];
    assert xs == [xs[0]] && ys == [ys[0]];
  }

  /** With two values one limiter can confuse two requests: "a:b" and "c" are charged like "a" and
      "b:c". */
  lemma OneLimiterCollides(prefix: string, r: Request, r': Request, h: HeaderKey, g: HeaderKey)
    requires Get(r.header, h) == "a:b" && Get(r.header, g) == "c"
    requires Get(r'.header, h) == "a" && Get(r'.header, g) == "b:c"
    ensures var v := VaryBy(false, false, [h, g], []);
            Key(prefix, v, r) == Key(prefix, v, r') && Flat(v, r) != Flat(v, r')
  {
    var v := VaryBy(false, false, [h, g], []);
    LowerCaseStays();
    assert Flat(v, r) == ["a:b", "c"] && Flat(v, r') == ["a", "b:c"];
    JoinConcat(["a:b"], ["c"], ':');
    JoinConcat(["a"], ["b:c"], ':');
    assert ["a:b", "c"] == ["a:b"] + ["c"] && ["a", "b:c"] == ["a"] + ["b:c"];
    assert "a:b" + [':'] + "c" == "a" + [':'] + "b:c";
    SplitOfJoin(["a:b", "c"], ':');
    SplitOfJoin(["a", "b:c"], ':');
    SameKeyIff(prefix, v, r, v, r');
  }

  lemma LowerCaseStays()
    ensures ToLower("a:b") == "a:b" && ToLower("a") == "a" && ToLower("b:c") == "b:c" && ToLower("c") == "c"
  {
  }

  /** With a colon in a header value they can collide: one header holding "a:b" is charged
      like two headers holding "a" and "b". */
  lemma ColonsCollide(prefix: string, r: Request, r': Request, h: HeaderKey, g: HeaderKey)
    requires Get(r.header, h) == "a:b" && Get(r'.header, h) == "a" && Get(r'.header, g) == "b"
    ensures Key(prefix, VaryBy(false, false, [h], []), r) == Key(prefix, VaryBy(false, false, [h, g], []), r')
    ensures Flat(VaryBy(false, false, [h], []), r) != Flat(VaryBy(false, false, [h, g], []), r')
  {
    var v, v' := VaryBy(false, false, [h], []), VaryBy(false, false, [h, g], []);
    assert ToLower("a:b") == "a:b" && ToLower("a") == "a" && ToLower("b") == "b";
    assert Flat(v, r) == ["a:b"] && Flat(v', r') == ["a", "b"];
    JoinConcat(["a"], ["b"], ':');
    assert Join(["a", "b"], ':') == "a:b" by { assert ["a", "b"] == ["a"] + ["b"]; }
    SplitOfJoin(["a", "b"], ':');
    SplitOfJoin(["a:b"], ':');
    SameKeyIff(prefix, v, r, v', r');
  }
}
