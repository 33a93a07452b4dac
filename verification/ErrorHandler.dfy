/** The error handler: it buffers what the inner handler answers and gives every empty answer a body. */
module ErrorHandler {
  import opened Wrappers
  import opened Http

  const JSON_CONTENT_TYPE := "application/json; charset=utf-8"

  // ----- Bodies -----

  function JsonText(code: string, message: string, time: string): string {
    "{\"code\":\"" + code + "\",\"message\":\"" + message + "\",\"serverTime\":" + time + "}\n"
  }

  /** The JSON error body for a status. `time` is the server time in seconds, in decimal. */
  function JsonBody(status: int, time: string): string {
    if status == 400 then JsonText("BAD_REQUEST", "Bad request", time)
    else if status == 401 then JsonText("UNAUTHORIZED", "Unauthorized", time)
    else if status == 504 then JsonText("GATEWAY_TIMEOUT", "Service timeout", time)
    else if status == 503 then JsonText("SERVICE_UNAVAILABLE", "Service is currently unavailable", time)
    else if status == 502 then JsonText("BAD_GATEWAY", "Bad gateway", time)
    else if status == 429 then JsonText("TOO_MANY_REQUEST", "Too many request", time)
    else JsonText("SYSTEM_ERROR", "Internal system error", time)
  }

  function PlainBody(status: int): string {
    (if status == 400 then "bad request"
     else if status == 401 then "unauthorized"
     else if status == 504 then "gateway timeout"
     else if status == 503 then "service unavailable"
     else if status == 502 then "bad gateway"
     else if status == 429 then "too many request"
     else "internal server error") + "\n"
  }

  function ClientNotFoundBody(time: string): string {
    JsonText("CLIENT_NOT_FOUND", "Client not found", time)
  }

  lemma BodiesNotEmpty(status: int, time: string)
    ensures JsonBody(status, time) != "" && PlainBody(status) != "" && ClientNotFoundBody(time) != ""
  {
  }

  /** What is fixed while a request is handled: the clock, and the parser that strips a content
      type of its parameters, giving the empty string if there is none. */
  datatype Env = Env(time: string, mediaType: string -> string)

  function BodyFor(status: int, contentType: string, env: Env): string {
    var parsed := env.mediaType(contentType);
    var media := if parsed == "" then JSON_CONTENT_TYPE else parsed;
    if media == JSON_CONTENT_TYPE then JsonBody(status, env.time) else PlainBody(status)
  }

  // ----- The handler -----

  function Values<K, V>(h: map<K, seq<V>>, k: K): seq<V> {
    if k in h then h[k] else []
  }

  /** The values of both headers, those of w first; a header without values is not created. */
  function AddAll<K, V>(w: map<K, seq<V>>, h: map<K, seq<V>>): map<K, seq<V>> {
    map k | k in w.Keys + h.Keys && (k in w || h[k] != []) :: Values(w, k) + Values(h, k)
  }

  function AddTo<K, V>(w: map<K, seq<V>>, k: K, vs: seq<V>): map<K, seq<V>> {
    if vs == [] then w else w[k := Values(w, k) + vs]
  }

  /** h, restricted to some names. */
  function Only<K, V>(h: map<K, seq<V>>, ks: set<K>): map<K, seq<V>> {
    map k | k in h && k in ks :: h[k]
  }

  lemma AddToTwice<K, V>(w: map<K, seq<V>>, k: K, vs: seq<V>, v: V)
    ensures AddTo(AddTo(w, k, vs), k, [v]) == AddTo(w, k, vs + [v])
  {
    if vs == [] {
      assert vs + [v] == [v];
    } else {
      assert (Values(w, k) + vs) + [v] == Values(w, k) + (vs + [v]);
    }
  }

  lemma AddNothing<K, V>(w: map<K, seq<V>>, h: map<K, seq<V>>)
    ensures AddAll(w, Only(h, {})) == w
  {
    forall k | k in w ensures Values(w, k) + [] == w[k] {}
  }

  lemma AddAllAt<K, V>(w: map<K, seq<V>>, h: map<K, seq<V>>, j: K)
    ensures j in AddAll(w, h) <==> j in w || Values(h, j) != []
    ensures Values(AddAll(w, h), j) == Values(w, j) + Values(h, j)
  {
    assert [] + Values(h, j) == Values(h, j);
  }

  lemma AddOneMore<K, V>(w: map<K, seq<V>>, h: map<K, seq<V>>, done: set<K>, k: K)
    requires k in h && k !in done
    ensures AddAll(w, Only(h, done + {k})) == AddTo(AddAll(w, Only(h, done)), k, h[k])
  {
    var g, g' := Only(h, done), Only(h, done + {k});
    assert Values(g, k) == [] && Values(g', k) == h[k];
    assert forall j :: j != k ==> Values(g, j) == Values(g', j);
    AddOneValue(w, g, g', k);
  }

  lemma AddOneValue<K, V>(w: map<K, seq<V>>, g: map<K, seq<V>>, g': map<K, seq<V>>, k: K)
    requires Values(g, k) == [] && forall j :: j != k ==> Values(g, j) == Values(g', j)
    ensures AddAll(w, g') == AddTo(AddAll(w, g), k, Values(g', k))
  {
    forall j ensures j in AddAll(w, g') <==> j in AddTo(AddAll(w, g), k, Values(g', k))
      ensures Values(AddAll(w, g'), j) == Values(AddTo(AddAll(w, g), k, Values(g', k)), j)
    {
      AddAllAt(w, g, j);
      AddAllAt(w, g', j);
      AddToAt(AddAll(w, g), k, Values(g', k), j);
    }
    SameValues(AddAll(w, g'), AddTo(AddAll(w, g), k, Values(g', k)));
  }

  lemma AddToAt<K, V>(w: map<K, seq<V>>, k: K, vs: seq<V>, j: K)
    ensures j in AddTo(w, k, vs) <==> j in w || (j == k && vs != [])
    ensures Values(AddTo(w, k, vs), j) == if j == k then Values(w, j) + vs else Values(w, j)
  {
    if vs == [] && j == k {
      assert Values(w, j) + vs == Values(w, j);
    }
  }

  lemma SameValues<K, V>(a: map<K, seq<V>>, b: map<K, seq<V>>)
    requires forall j :: (j in a <==> j in b) && Values(a, j) == Values(b, j)
    ensures a == b
  {
    forall j | j in a ensures a[j] == b[j] {
      assert Values(a, j) == Values(b, j);
    }
  }

  class ResponseWriter {
    var header: Header
    var status: Option<int>
    var body: string

    constructor (h: Header)
      ensures header == h && status == None && body == ""
    {
      header, status, body := h, None, "";
    }

    method Add(k: HeaderKey, v: string)
      modifies this`header
      ensures header == AddTo(old(header), k, [v])
    {
      header := header[k := Values(header, k) + [v]];
    }

    method Del(k: HeaderKey)
      modifies this`header
      ensures header == old(header) - {k}
    {
      header := header - {k};
    }

    /** Only the first status counts. */
    method WriteHeader(code: int)
      modifies this`status
      ensures status == if old(status).None? then Some(code) else old(status)
    {
      if status.None? {
        status := Some(code);
      }
    }

    method Write(text: string)
      modifies this`status, this`body
      ensures body == old(body) + text && status == if old(status).None? then Some(200) else old(status)
    {
      WriteHeader(200);
      body := body + text;
    }

    method AddValues(k: HeaderKey, vs: seq<string>)
      modifies this`header
      ensures header == AddTo(old(header), k, vs)
    {
      for i := 0 to |vs|
        invariant header == AddTo(old(header), k, vs[..i])
      {
        Add(k, vs[i]);
        AddToTwice(old(header), k, vs[..i], vs[i]);
        assert vs[..i + 1] == vs[..i] + [vs[i]];
      }
      assert vs[..|vs|] == vs;
    }

    /** Copies the buffered headers, in any order of the names. */
    method AddHeaders(h: Header)
      modifies this`header
      ensures header == AddAll(old(header), h)
    {
      var keys := h.Keys;
      ghost var done: set<HeaderKey> := {};
      AddNothing(header, h);
      while keys != {}
        invariant keys + done == h.Keys && keys !! done
        invariant header == AddAll(old(header), Only(h, done))
        decreases |keys|
      {
        var k :| k in keys;
        AddValues(k, h[k]);
        AddOneMore(old(header), h, done, k);
        done := done + {k};
        keys := keys - {k};
      }
      assert Only(h, done) == h;
    }
  }

  datatype Config = Config(downstreamNotFound: bool)

  /** The answer of the handler around an inner answer, given the headers already on the writer. */
  function Handled(cfg: Config, inner: Response, w: Header, env: Env): Response {
    var header := AddAll(w, inner.header);
    if inner.status == 404 && cfg.downstreamNotFound then
      Response(404, header - {ContentLength}, ClientNotFoundBody(env.time))
    else if inner.body != "" then Response(inner.status, header, inner.body)
    else Response(inner.status, header, BodyFor(inner.status, Get(inner.header, ContentType), env))
  }

  method Serve(cfg: Config, inner: Response, writer: ResponseWriter, env: Env)
    requires writer.status.None? && writer.body == ""
    modifies writer
    ensures writer.status.Some?
    ensures Response(writer.status.value, writer.header, writer.body) == Handled(cfg, inner, old(writer.header), env)
  {
    writer.AddHeaders(inner.header);
    if inner.status == 404 && cfg.downstreamNotFound {
      writer.Del(ContentLength);
      writer.WriteHeader(inner.status);
      writer.Write(ClientNotFoundBody(env.time));
      return;
    }
    if |inner.body| > 0 {
      writer.WriteHeader(inner.status);
      writer.Write(inner.body);
      return;
    }
    writer.WriteHeader(inner.status);
    writer.Write(BodyFor(inner.status, Get(inner.header, ContentType), env));
  }

  // ----- Laws -----

  /** For every inner answer the status is preserved and the body is not empty. */
  lemma KeepsStatusAndFillsBody(cfg: Config, inner: Response, w: Header, env: Env)
    ensures Handled(cfg, inner, w, env).status == inner.status
    ensures Handled(cfg, inner, w, env).body != ""
    ensures inner.body != "" && !(inner.status == 404 && cfg.downstreamNotFound) ==> Handled(cfg, inner, w, env).body == inner.body
  {
    BodiesNotEmpty(inner.status, env.time);
  }

  lemma AddTwice<K, V>(w: map<K, seq<V>>, h: map<K, seq<V>>, k: K)
    ensures AddAll(w, AddAll(map[], h)) == AddAll(w, h)
    ensures AddAll(w, AddAll(map[], h) - {k}) - {k} == AddAll(w, h) - {k}
  {
    var once := AddAll(map[], h);
    forall j
      ensures Values(once, j) == Values(h, j)
      ensures j != k ==> Values(once - {k}, j) == Values(h, j)
    {
      AddAllAt(map[], h, j);
      assert Values(map[], j) + Values(h, j) == Values(h, j);
    }
    SameSums(w, once, h);
    SameSumsBut(w, once - {k}, h, k);
  }

  lemma SameSums<K, V>(w: map<K, seq<V>>, g: map<K, seq<V>>, h: map<K, seq<V>>)
    requires forall j :: Values(g, j) == Values(h, j)
    ensures AddAll(w, g) == AddAll(w, h)
  {
    forall j ensures (j in AddAll(w, g) <==> j in AddAll(w, h)) && Values(AddAll(w, g), j) == Values(AddAll(w, h), j) {
      AddAllAt(w, g, j);
      AddAllAt(w, h, j);
    }
    SameValues(AddAll(w, g), AddAll(w, h));
  }

  lemma SameSumsBut<K, V>(w: map<K, seq<V>>, g: map<K, seq<V>>, h: map<K, seq<V>>, k: K)
    requires forall j :: j != k ==> Values(g, j) == Values(h, j)
    ensures AddAll(w, g) - {k} == AddAll(w, h) - {k}
  {
    var a, b := AddAll(w, g) - {k}, AddAll(w, h) - {k};
    forall j ensures (j in a <==> j in b) && Values(a, j) == Values(b, j) {
      AddAllAt(w, g, j);
      AddAllAt(w, h, j);
    }
    SameValues(a, b);
  }

  /** At one server time wrapping twice is wrapping once, whatever headers are on the outer writer;
      the inner handler always starts with none. */
  lemma WrappingTwice(cfg: Config, inner: Response, w: Header, env: Env)
    ensures Handled(cfg, Handled(cfg, inner, map[], env), w, env) == Handled(cfg, inner, w, env)
  {
    KeepsStatusAndFillsBody(cfg, inner, map[], env);
    AddTwice(w, inner.header, ContentLength);
  }

  lemma JsonIsNotPlain(status: int, time: string)
    ensures JsonBody(status, time)[0] == '{' && PlainBody(status)[0] != '{'
  {
  }

  /** A media type never holds parameters, so an empty answer gets the JSON body exactly when it
      has no usable content type, and plain text otherwise. */
  lemma JsonOnlyWithoutContentType(cfg: Config, inner: Response, w: Header, env: Env)
    requires forall s :: ';' !in env.mediaType(s)
    requires inner.body == "" && !(inner.status == 404 && cfg.downstreamNotFound)
    ensures var body := Handled(cfg, inner, w, env).body;
            && (body == JsonBody(inner.status, env.time) <==> env.mediaType(Get(inner.header, ContentType)) == "")
            && (body == PlainBody(inner.status) <==> env.mediaType(Get(inner.header, ContentType)) != "")
  {
    assert JSON_CONTENT_TYPE[16] == ';';
    JsonIsNotPlain(inner.status, env.time);
  }

  /** An empty answer that says it is JSON gets plain text. */
  lemma EmptyJsonGetsPlainText(cfg: Config, status: int, w: Header, env: Env)
    requires env.mediaType(JSON_CONTENT_TYPE) == "application/json" && status != 404
    ensures Handled(cfg, Response(status, map[ContentType := [JSON_CONTENT_TYPE]], ""), w, env).body == PlainBody(status)
  {
    assert |JSON_CONTENT_TYPE| != |"application/json"|;
    assert Get(map[ContentType := [JSON_CONTENT_TYPE]], ContentType) == JSON_CONTENT_TYPE;
  }

  /** The answer in full: the inner headers come after those on the writer, and only a 404 that is to
      be replaced loses its length and its body. */
  lemma AnswerIs(cfg: Config, inner: Response, w: Header, env: Env, k: HeaderKey)
    ensures var answer := Handled(cfg, inner, w, env);
            var replaced := inner.status == 404 && cfg.downstreamNotFound;
            && (!replaced || k != ContentLength ==> Values(answer.header, k) == Values(w, k) + Values(inner.header, k))
            && (replaced ==> ContentLength !in answer.header && answer.body == JsonText("CLIENT_NOT_FOUND", "Client not found", env.time))
            && (!replaced && inner.body != "" ==> answer.body == inner.body)
  {
    AddAllAt(w, inner.header, k);
  }

  /** The messages of the statuses that have one, in JSON and in plain text. */
  lemma JsonMessages(time: string)
    ensures JsonBody(400, time) == JsonText("BAD_REQUEST", "Bad request", time)
    ensures JsonBody(401, time) == JsonText("UNAUTHORIZED", "Unauthorized", time)
    ensures JsonBody(429, time) == JsonText("TOO_MANY_REQUEST", "Too many request", time)
    ensures JsonBody(502, time) == JsonText("BAD_GATEWAY", "Bad gateway", time)
    ensures JsonBody(503, time) == JsonText("SERVICE_UNAVAILABLE", "Service is currently unavailable", time)
    ensures JsonBody(504, time) == JsonText("GATEWAY_TIMEOUT", "Service timeout", time)
  {
  }

  lemma PlainMessages()
    ensures PlainBody(400) == "bad request\n" && PlainBody(401) == "unauthorized\n" && PlainBody(429) == "too many request\n"
    ensures PlainBody(502) == "bad gateway\n" && PlainBody(503) == "service unavailable\n" && PlainBody(504) == "gateway timeout\n"
  {
  }

  // ----- Statuses without a message of their own -----

  const LISTED: set<int> := {400, 401, 429, 502, 503, 504}

  /** The body of an internal error, in either form. */
  predicate SaysInternalError(body: string, time: string) {
    body == JsonText("SYSTEM_ERROR", "Internal system error", time) || body == "internal server error\n"
  }

  lemma JsonCodeAt(code: string, message: string, time: string, i: nat)
    requires i < |code|
    ensures |JsonText(code, message, time)| > 9 + i && JsonText(code, message, time)[9 + i] == code[i]
  {
    var front := "{\"code\":\"";
    assert |front| == 9;
    assert (front + code)[9 + i] == code[i];
  }

  lemma JsonSaysInternalErrorIff(status: int, time: string)
    ensures JsonBody(status, time) == JsonText("SYSTEM_ERROR", "Internal system error", time) <==> status !in LISTED
  {
    if status in LISTED {
      var code, message := Listed(status);
      CodesDiffer(code, message, "SYSTEM_ERROR", "Internal system error", time);
    }
  }

  lemma Listed(status: int) returns (code: string, message: string)
    requires status in LISTED
    ensures |code| > 1 && (code[0] != 'S' || code[1] != 'Y')
    ensures forall time :: JsonBody(status, time) == JsonText(code, message, time)
  {
    if status == 400 {
      code, message := "BAD_REQUEST", "Bad request";
    } else if status == 401 {
      code, message := "UNAUTHORIZED", "Unauthorized";
    } else if status == 504 {
      code, message := "GATEWAY_TIMEOUT", "Service timeout";
    } else if status == 503 {
      code, message := "SERVICE_UNAVAILABLE", "Service is currently unavailable";
    } else if status == 502 {
      code, message := "BAD_GATEWAY", "Bad gateway";
    } else {
      code, message := "TOO_MANY_REQUEST", "Too many request";
    }
  }

  lemma CodesDiffer(code: string, message: string, code': string, message': string, time: string)
    requires |code| > 1 && |code'| > 1 && (code[0] != code'[0] || code[1] != code'[1])
    ensures JsonText(code, message, time) != JsonText(code', message', time)
  {
    JsonCodeAt(code, message, time, 0);
    JsonCodeAt(code, message, time, 1);
    JsonCodeAt(code', message', time, 0);
    JsonCodeAt(code', message', time, 1);
  }

  lemma PlainSaysInternalErrorIff(status: int)
    ensures PlainBody(status) == "internal server error\n" <==> status !in LISTED
  {
  }

  /** An empty answer is turned into an internal error exactly when its status is none of the six
      that have a message, success or not. */
  lemma InternalErrorIffNotListed(cfg: Config, inner: Response, w: Header, env: Env)
    requires inner.body == "" && !(inner.status == 404 && cfg.downstreamNotFound)
    ensures SaysInternalError(Handled(cfg, inner, w, env).body, env.time) <==> inner.status !in LISTED
  {
    JsonSaysInternalErrorIff(inner.status, env.time);
    PlainSaysInternalErrorIff(inner.status);
    JsonIsNotPlain(inner.status, env.time);
    JsonIsNotPlain(500, env.time);
  }

  /** An empty answer that succeeded, for one. */
  lemma EmptyOkSaysInternalError(cfg: Config, w: Header, header: Header, env: Env)
    ensures var answer := Handled(cfg, Response(200, header, ""), w, env);
            answer.status == 200 && SaysInternalError(answer.body, env.time)
  {
    InternalErrorIffNotListed(cfg, Response(200, header, ""), w, env);
  }
}
