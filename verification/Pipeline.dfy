/** What happens when a request runs through a client pipeline: in which order the layers are
    entered, where the run is cut off, and with which session each layer and the backend see it. */
module Pipeline {
  import opened Wrappers
  import opened Http
  import opened PipelineBuild
  import CompositeLimiter
  import ErrorHandler
  import MandatoryHeaders
  import MemberAuth
  import BackendHeaders
  import HeaderContents
  import RateKey
  import Text

  datatype Layer = ErrorLayer(cfg: ErrorHandler.Config) | AuthLayer | RateLayer

  datatype Handler = Backend | Wrap(layer: Layer, next: Handler)

  datatype BackendReply = TimedOut | Unavailable | Broken | Got(response: Response)

  /** Everything outside: what member-auth and the limiters decide at each position of the
      pipeline, the rate limit headers, the backend, the clock, and the inputs of the headers. */
  datatype Env = Env(
    auth: (nat, Request) -> MemberAuth.Decision,
    rate: (nat, Request) -> CompositeLimiter.Verdict,
    rateHeaders: (Header, CompositeLimiter.Verdict) -> Header,
    backend: Request -> BackendReply,
    errors: ErrorHandler.Env,
    headers: MandatoryHeaders.Env)

  datatype Event =
    | Entered(position: nat, request: Request)
    | Called(request: Request)

  datatype Outcome = Outcome(trace: seq<Event>, response: Response)

  /** The request with its mandatory headers, as the backend gets it. */
  function Sent(r: Request, env: Env): Request {
    r.(header := BackendHeaders.Mandatory(r, env.headers))
  }

  function CallBackend(r: Request, w: Header, env: Env): Response {
    match env.backend(r)
    case TimedOut => Response(504, w, "")
    case Unavailable => Response(503, w, "")
    case Broken => Response(502, w, "")
    case Got(response) => Response(response.status, ErrorHandler.AddAll(w, response.header), response.body)
  }

  function JsonError(status: int, w: Header, env: Env): Response {
    Response(status, w[ContentType := [ErrorHandler.JSON_CONTENT_TYPE]], ErrorHandler.JsonBody(status, env.errors.time))
  }

  /** Serves a request, with the headers w already on the writer. `i` is the position of h. */
  function Serve(h: Handler, i: nat, r: Request, w: Header, env: Env): Outcome
    decreases h, 0
  {
    match h
    case Backend => Outcome([Called(Sent(r, env))], CallBackend(Sent(r, env), w, env))
    case Wrap(layer, next) =>
      var o := ServeLayer(layer, next, i, r, w, env);
      Outcome([Entered(i, r)] + o.trace, o.response)
  }

  function ServeLayer(layer: Layer, next: Handler, i: nat, r: Request, w: Header, env: Env): Outcome
    decreases next, 1
  {
    match layer
    case ErrorLayer(cfg) =>
      var o := Serve(next, i + 1, r, map[], env);
      Outcome(o.trace, ErrorHandler.Handled(cfg, o.response, w, env.errors))
    case AuthLayer => (
      match env.auth(i, r)
      case Refuse(status) => Outcome([], JsonError(status, w, env))
      case Forward(session) => Serve(next, i + 1, r.(session := Some(session)), w, env))
    case RateLayer =>
      var v := env.rate(i, r);
      if v.err.Some? then Outcome([], Response(500, w, ""))
      else if v.limited then Outcome([], Response(429, env.rateHeaders(w, v), ""))
      else Serve(next, i + 1, r, env.rateHeaders(w, v), env)
  }

  /** The layers around the backend, the first one outermost. */
  function Nest(layers: seq<Layer>): Handler {
    if layers == [] then Backend else Wrap(layers[0], Nest(layers[1..]))
  }

  /** What a right-to-left build gives if every entry adds its layer. */
  lemma {:induction false} BuildGivesNest<N>(step: (N, Handler) -> Built<Handler>, layer: N -> Layer, names: seq<N>, h: Handler)
    requires forall n, g :: step(n, g).Ok? ==> step(n, g).handler == Wrap(layer(n), g)
    requires FoldR(step, names, Backend) == Ok(h)
    ensures h == Nest(seq(|names|, i requires 0 <= i < |names| => layer(names[i])))
  {
    if names != [] {
      var rest := names[1..];
      var inner := FoldR(step, rest, Backend).handler;
      BuildGivesNest(step, layer, rest, inner);
      assert seq(|names|, i requires 0 <= i < |names| => layer(names[i]))[1..] ==
             seq(|rest|, i requires 0 <= i < |rest| => layer(rest[i]));
    }
  }

  // ----- The run, position by position -----

  /** What one layer makes of a request: it passes one on, or answers with a status. */
  datatype Ruling = Pass(request: Request) | Stop(status: int)

  function Rule(layer: Layer, i: nat, r: Request, env: Env): Ruling {
    match layer
    case ErrorLayer(_) => Pass(r)
    case AuthLayer => (
      match env.auth(i, r)
      case Refuse(status) => Stop(status)
      case Forward(session) => Pass(r.(session := Some(session))))
    case RateLayer =>
      var v := env.rate(i, r);
      if v.err.Some? then Stop(500) else if v.limited then Stop(429) else Pass(r)
  }

  /** The request as it reaches position i, provided nothing before refuses it. */
  function RequestAt(layers: seq<Layer>, r: Request, env: Env, i: nat): Request
    requires i <= |layers|
  {
    if i == 0 then r
    else
      var before := RequestAt(layers, r, env, i - 1);
      match Rule(layers[i - 1], i - 1, before, env)
      case Pass(request) => request
      case Stop(_) => before
  }

  function RulingAt(layers: seq<Layer>, r: Request, env: Env, i: nat): Ruling
    requires i < |layers|
  {
    Rule(layers[i], i, RequestAt(layers, r, env, i), env)
  }

  /** Everything before n passes, and n is the first layer that refuses, or the backend. */
  ghost predicate EndsAt(layers: seq<Layer>, r: Request, env: Env, n: nat) {
    && n <= |layers|
    && (forall i :: 0 <= i < n ==> RulingAt(layers, r, env, i).Pass?)
    && (n < |layers| ==> RulingAt(layers, r, env, n).Stop?)
  }

  lemma EndsSomewhere(layers: seq<Layer>, r: Request, env: Env) returns (n: nat)
    ensures EndsAt(layers, r, env, n)
    ensures forall m: nat :: EndsAt(layers, r, env, m) ==> m == n
  {
    n := 0;
    while n < |layers| && RulingAt(layers, r, env, n).Pass?
      invariant n <= |layers| && forall i :: 0 <= i < n ==> RulingAt(layers, r, env, i).Pass?
    {
      n := n + 1;
    }
  }

  /** The layers from i up to the end of the run, in order, then the backend if none refuses. */
  ghost function TraceFrom(layers: seq<Layer>, r: Request, env: Env, n: nat, i: nat): seq<Event>
    requires i <= n <= |layers|
  {
    if n == |layers| then
      seq(n - i, k requires 0 <= k < n - i => Entered(i + k, RequestAt(layers, r, env, i + k)))
      + [Called(Sent(RequestAt(layers, r, env, n), env))]
    else
      seq(n + 1 - i, k requires 0 <= k < n + 1 - i => Entered(i + k, RequestAt(layers, r, env, i + k)))
  }

  function BackendStatus(r: Request, env: Env): int {
    CallBackend(Sent(r, env), map[], env).status
  }

  ghost function FinalStatus(layers: seq<Layer>, r: Request, env: Env, n: nat): int
    requires n <= |layers| && (n < |layers| ==> RulingAt(layers, r, env, n).Stop?)
  {
    if n == |layers| then BackendStatus(RequestAt(layers, r, env, n), env) else RulingAt(layers, r, env, n).status
  }

  /** The part of the run from position i on. */
  function ServeFrom(layers: seq<Layer>, r: Request, w: Header, env: Env, i: nat): Outcome
    requires i <= |layers|
  {
    Serve(Nest(layers[i..]), i, RequestAt(layers, r, env, i), w, env)
  }

  lemma NestFrom(layers: seq<Layer>, i: nat)
    requires i < |layers|
    ensures Nest(layers[i..]) == Wrap(layers[i], Nest(layers[i + 1..]))
  {
    assert layers[i..][1..] == layers[i + 1..];
  }

  lemma TraceStep(layers: seq<Layer>, r: Request, env: Env, n: nat, i: nat)
    requires i < n <= |layers|
    ensures TraceFrom(layers, r, env, n, i) == [Entered(i, RequestAt(layers, r, env, i))] + TraceFrom(layers, r, env, n, i + 1)
  {
  }

  /** The headers on the writer of the layer after i. */
  function NextHeader(layers: seq<Layer>, r: Request, w: Header, env: Env, i: nat): Header
    requires i < |layers|
  {
    match layers[i]
    case ErrorLayer(_) => map[]
    case AuthLayer => w
    case RateLayer => env.rateHeaders(w, env.rate(i, RequestAt(layers, r, env, i)))
  }

  /** What a layer that passes a request on makes of the answer. */
  function Outward(layer: Layer, inner: Response, w: Header, env: Env): Response {
    match layer
    case ErrorLayer(cfg) => ErrorHandler.Handled(cfg, inner, w, env.errors)
    case _ => inner
  }

  lemma PassingLayer(layer: Layer, next: Handler, i: nat, r: Request, w: Header, env: Env, w': Header)
    requires Rule(layer, i, r, env).Pass?
    requires w' == match layer case ErrorLayer(_) => map[] case AuthLayer => w case RateLayer => env.rateHeaders(w, env.rate(i, r))
    ensures var o := Serve(next, i + 1, Rule(layer, i, r, env).request, w', env);
            Serve(Wrap(layer, next), i, r, w, env) == Outcome([Entered(i, r)] + o.trace, Outward(layer, o.response, w, env))
  {
  }

  lemma RefusingLayer(layer: Layer, next: Handler, i: nat, r: Request, w: Header, env: Env)
    requires Rule(layer, i, r, env).Stop?
    ensures Serve(Wrap(layer, next), i, r, w, env).trace == [Entered(i, r)]
    ensures Serve(Wrap(layer, next), i, r, w, env).response.status == Rule(layer, i, r, env).status
  {
  }

  lemma PassingAt(layers: seq<Layer>, r: Request, w: Header, env: Env, i: nat)
    requires i < |layers| && RulingAt(layers, r, env, i).Pass?
    ensures var o := ServeFrom(layers, r, NextHeader(layers, r, w, env, i), env, i + 1);
            ServeFrom(layers, r, w, env, i) ==
            Outcome([Entered(i, RequestAt(layers, r, env, i))] + o.trace, Outward(layers[i], o.response, w, env))
  {
    NestFrom(layers, i);
    PassingLayer(layers[i], Nest(layers[i + 1..]), i, RequestAt(layers, r, env, i), w, env, NextHeader(layers, r, w, env, i));
  }

  lemma {:induction false} RunFrom(layers: seq<Layer>, r: Request, w: Header, env: Env, n: nat, i: nat)
    requires EndsAt(layers, r, env, n) && i <= n
    ensures ServeFrom(layers, r, w, env, i).trace == TraceFrom(layers, r, env, n, i)
    ensures ServeFrom(layers, r, w, env, i).response.status == FinalStatus(layers, r, env, n)
    decreases n - i
  {
    if i < n {
      var inner := ServeFrom(layers, r, NextHeader(layers, r, w, env, i), env, i + 1).response;
      PassingAt(layers, r, w, env, i);
      OutwardKeepsStatus(layers[i], inner, w, env);
      TraceStep(layers, r, env, n, i);
      RunFrom(layers, r, NextHeader(layers, r, w, env, i), env, n, i + 1);
    } else {
      EndOfRun(layers, r, w, env, n);
    }
  }

  lemma EndOfRun(layers: seq<Layer>, r: Request, w: Header, env: Env, n: nat)
    requires EndsAt(layers, r, env, n)
    ensures ServeFrom(layers, r, w, env, n).trace == TraceFrom(layers, r, env, n, n)
    ensures ServeFrom(layers, r, w, env, n).response.status == FinalStatus(layers, r, env, n)
  {
    if n == |layers| {
      assert layers[n..] == [];
    } else {
      NestFrom(layers, n);
      RefusingLayer(layers[n], Nest(layers[n + 1..]), n, RequestAt(layers, r, env, n), w, env);
    }
  }

  lemma OutwardKeepsStatus(layer: Layer, inner: Response, w: Header, env: Env)
    ensures Outward(layer, inner, w, env).status == inner.status
    ensures layer.ErrorLayer? || inner.body != "" ==> Outward(layer, inner, w, env).body != ""
  {
    if layer.ErrorLayer? {
      ErrorHandler.KeepsStatusAndFillsBody(layer.cfg, inner, w, env.errors);
    }
  }

  /** The main theorem. The layers are entered in the order of the list, up to and including the
      first that refuses the request, and nothing after it runs. The backend is called once if no
      layer refuses, and not at all otherwise. The status of the answer is that of the layer that
      refused, or the backend's. */
  lemma RunsInOrder(layers: seq<Layer>, r: Request, w: Header, env: Env, n: nat)
    requires EndsAt(layers, r, env, n)
    ensures Serve(Nest(layers), 0, r, w, env).trace == TraceFrom(layers, r, env, n, 0)
    ensures Serve(Nest(layers), 0, r, w, env).response.status == FinalStatus(layers, r, env, n)
  {
    assert layers[0..] == layers;
    RunFrom(layers, r, w, env, n, 0);
  }

  // ----- Sessions -----

  /** k is the nearest member-auth before i. */
  ghost predicate NearestAuth(layers: seq<Layer>, i: nat, k: nat) {
    k < i <= |layers| && layers[k].AuthLayer? && forall j :: k < j < i ==> !layers[j].AuthLayer?
  }

  /** The only thing a request picks up on its way is the session of the nearest member-auth. */
  lemma {:induction false} SessionIsFromNearestAuth(layers: seq<Layer>, r: Request, env: Env, n: nat, i: nat)
    requires EndsAt(layers, r, env, n) && i <= n
    ensures RequestAt(layers, r, env, i) == r.(session := RequestAt(layers, r, env, i).session)
    ensures (forall j :: 0 <= j < i ==> !layers[j].AuthLayer?) ==> RequestAt(layers, r, env, i) == r
    ensures forall k: nat :: NearestAuth(layers, i, k) ==>
              && RequestAt(layers, r, env, i).session.Some?
              && env.auth(k, RequestAt(layers, r, env, k)) == MemberAuth.Forward(RequestAt(layers, r, env, i).session.value)
  {
    if i > 0 {
      SessionIsFromNearestAuth(layers, r, env, n, i - 1);
      assert RulingAt(layers, r, env, i - 1).Pass?;
      if !layers[i - 1].AuthLayer? {
        forall k: nat | NearestAuth(layers, i, k) ensures NearestAuth(layers, i - 1, k) {
        }
      }
    }
  }

  /** The key of a limiter that varies over the user, were `user` the user of the request r. */
  function KeyOfUser(prefix: string, v: RateKey.VaryBy, r: Request, user: string): string {
    Text.Join([prefix] + ((if v.meth then [r.meth] else []) + [Text.ToLower(user)]
                          + RateKey.HeaderValues(v.headers, r) + RateKey.ParamValues(v.params, r)), ':')
  }

  lemma KeyWithSession(prefix: string, v: RateKey.VaryBy, r: Request, session: Option<Session>)
    ensures var q := r.(session := session);
            && (!v.user ==> RateKey.Key(prefix, v, q) == RateKey.Key(prefix, v, r))
            && (v.user ==> RateKey.Key(prefix, v, q) == KeyOfUser(prefix, v, r, match session case Some(s) => s.username case None => "guest"))
  {
    var q := r.(session := session);
    assert RateKey.HeaderValues(v.headers, q) == RateKey.HeaderValues(v.headers, r);
    assert RateKey.ParamValues(v.params, q) == RateKey.ParamValues(v.params, r);
  }

  /** Every rate limiter that is entered charges the key of the incoming request with the user of
      the nearest member-auth before it. Without such a layer it is the incoming request's own key,
      with "guest" for the user if it has no session. */
  lemma LimiterKey(layers: seq<Layer>, r: Request, w: Header, env: Env, n: nat, i: nat, q: Request, prefix: string, v: RateKey.VaryBy)
    requires EndsAt(layers, r, env, n) && i < |layers| && layers[i].RateLayer?
    requires Entered(i, q) in Serve(Nest(layers), 0, r, w, env).trace
    ensures forall k: nat :: NearestAuth(layers, i, k) ==>
              exists s: Session ::
                && env.auth(k, RequestAt(layers, r, env, k)) == MemberAuth.Forward(s)
                && RateKey.Key(prefix, v, q) == if v.user then KeyOfUser(prefix, v, r, s.username) else RateKey.Key(prefix, v, r)
    ensures (forall k: nat :: !NearestAuth(layers, i, k)) ==>
              && RateKey.Key(prefix, v, q) == RateKey.Key(prefix, v, r)
              && (v.user && r.session.None? ==> RateKey.Key(prefix, v, q) == KeyOfUser(prefix, v, r, "guest"))
  {
    EnteredOnTheWay(layers, r, w, env, n, i, q);
    SessionIsFromNearestAuth(layers, r, env, n, i);
    KeyWithSession(prefix, v, r, q.session);
    if exists j :: 0 <= j < i && layers[j].AuthLayer? {
      var k := NearestExists(layers, i);
    }
  }

  lemma EnteredOnTheWay(layers: seq<Layer>, r: Request, w: Header, env: Env, n: nat, i: nat, q: Request)
    requires EndsAt(layers, r, env, n) && Entered(i, q) in Serve(Nest(layers), 0, r, w, env).trace
    ensures i <= n && i < |layers| && q == RequestAt(layers, r, env, i)
  {
    RunsInOrder(layers, r, w, env, n);
  }

  lemma NearestExists(layers: seq<Layer>, i: nat) returns (k: nat)
    requires i <= |layers| && exists j :: 0 <= j < i && layers[j].AuthLayer?
    ensures NearestAuth(layers, i, k)
  {
    k := i - 1;
    while !layers[k].AuthLayer?
      invariant k < i && forall j :: k < j < i ==> !layers[j].AuthLayer?
      decreases k
    {
      k := k - 1;
    }
  }

  /** What the session of the last member-auth has to say is what the backend is told, header by
      header, and nothing else of the incoming request but its headers has changed. */
  lemma BackendSession(layers: seq<Layer>, r: Request, w: Header, env: Env, n: nat, q: Request, k: nat)
    requires EndsAt(layers, r, env, n) && Called(q) in Serve(Nest(layers), 0, r, w, env).trace
    requires NearestAuth(layers, |layers|, k)
    ensures n == |layers|
    ensures exists s: Session ::
              && env.auth(k, RequestAt(layers, r, env, k)) == MemberAuth.Forward(s)
              && q == r.(session := Some(s), header := q.header)
              && TellsSession(s, q.header)
  {
    CalledAtTheEnd(layers, r, w, env, n, q);
    SessionIsFromNearestAuth(layers, r, env, n, n);
    var s := RequestAt(layers, r, env, n).session.value;
    SessionTold(r, s, env);
  }

  lemma CalledAtTheEnd(layers: seq<Layer>, r: Request, w: Header, env: Env, n: nat, q: Request)
    requires EndsAt(layers, r, env, n) && Called(q) in Serve(Nest(layers), 0, r, w, env).trace
    ensures n == |layers| && q == Sent(RequestAt(layers, r, env, n), env)
  {
    RunsInOrder(layers, r, w, env, n);
  }

  ghost predicate Told(header: Header, k: HeaderKey, value: string) {
    k in header && header[k] == [value]
  }

  /** The headers that a session has a value for, each with its own field. */
  ghost predicate TellsSession(s: Session, header: Header) {
    && Told(header, Username, if s.username != "" then s.username else "guest")
    && Told(header, OldUsername, if s.username != "" then s.username else "guest")
    && (s.businessId != "" ==> Told(header, BusinessId, s.businessId))
    && (s.role != "" ==> Told(header, RoleId, s.role))
    && (s.deviceId != "" ==> Told(header, DeviceId, s.deviceId))
    && (s.loginMedia != "" ==> Told(header, LoginMedia, s.loginMedia))
    && (s.loyaltyKey != "" ==> Told(header, LoyaltyLevel, s.loyaltyKey))
    && Told(header, AccountId, if s.accountId == 0 then "0" else BackendHeaders.Decimal(s.accountId))
    && Told(header, IsVerifiedPhoneNumber, if s.verifiedPhoneNumber then "true" else "false")
    && Told(header, Authorization, s.token) && Told(header, TixToken, s.token)
  }

  lemma SessionTold(r: Request, s: Session, env: Env)
    ensures TellsSession(s, Sent(r.(session := Some(s)), env).header)
  {
    var q := r.(session := Some(s));
    HeaderContents.UserSeen(q, env.headers);
    HeaderContents.SessionIdentifiers(q, s, env.headers);
    HeaderContents.SessionDetails(q, s, env.headers);
    HeaderContents.SessionFlags(q, s, env.headers);
    HeaderContents.SessionTokens(q, s, env.headers);
  }

  // ----- Bodies -----

  /** p is an error handler that the run enters from i on and that does not come last. */
  ghost predicate ErrorHandlerIn(layers: seq<Layer>, i: nat, n: nat) {
    exists p :: i <= p < n <= |layers| && layers[p].ErrorLayer?
  }

  /** Behind an error handler the client always gets a body. */
  lemma {:induction false} BodyBehindErrorHandler(layers: seq<Layer>, r: Request, w: Header, env: Env, n: nat, i: nat)
    requires EndsAt(layers, r, env, n) && ErrorHandlerIn(layers, i, n)
    ensures ServeFrom(layers, r, w, env, i).response.body != ""
    decreases n - i
  {
    var inner := ServeFrom(layers, r, NextHeader(layers, r, w, env, i), env, i + 1).response;
    PassingAt(layers, r, w, env, i);
    OutwardKeepsStatus(layers[i], inner, w, env);
    if !layers[i].ErrorLayer? {
      BodyBehindErrorHandler(layers, r, NextHeader(layers, r, w, env, i), env, n, i + 1);
    }
  }

  /** If a limiter ends the run, it writes no body; the first error handler outside it fills in
      the JSON error of the status, and no other layer changes that. */
  lemma {:induction false} LimiterBody(layers: seq<Layer>, r: Request, w: Header, env: Env, n: nat, i: nat)
    requires EndsAt(layers, r, env, n) && i <= n < |layers| && layers[n].RateLayer?
    requires env.errors.mediaType("") == ""
    requires forall h, v :: Get(env.rateHeaders(h, v), ContentType) == Get(h, ContentType)
    requires Get(w, ContentType) == "" || ErrorHandlerIn(layers, i, n)
    ensures var answer := ServeFrom(layers, r, w, env, i).response;
            && (ErrorHandlerIn(layers, i, n) ==> answer.body == ErrorHandler.JsonBody(answer.status, env.errors.time))
            && (!ErrorHandlerIn(layers, i, n) ==> answer.body == "" && Get(answer.header, ContentType) == "")
    decreases n - i
  {
    RunFrom(layers, r, w, env, n, i);
    if i == n {
      NestFrom(layers, n);
      LimiterRefuses(Nest(layers[n + 1..]), n, RequestAt(layers, r, env, n), w, env);
    } else {
      var w' := NextHeader(layers, r, w, env, i);
      var inner := ServeFrom(layers, r, w', env, i + 1).response;
      PassingAt(layers, r, w, env, i);
      LimiterBody(layers, r, w', env, n, i + 1);
      RunFrom(layers, r, w', env, n, i + 1);
      LimiterAnswerOutward(layers[i], inner, w, env);
      assert ErrorHandlerIn(layers, i, n) <==> layers[i].ErrorLayer? || ErrorHandlerIn(layers, i + 1, n);
    }
  }

  /** What a gate that refuses writes: member-auth a JSON error, a limiter a bare status. */
  lemma RefusalIs(layer: Layer, next: Handler, i: nat, r: Request, w: Header, env: Env)
    requires Rule(layer, i, r, env).Stop?
    ensures var answer := Serve(Wrap(layer, next), i, r, w, env).response;
            && (layer.AuthLayer? ==>
                  answer == Response(env.auth(i, r).status, w[ContentType := ["application/json; charset=utf-8"]],
                                     ErrorHandler.JsonBody(env.auth(i, r).status, env.errors.time)))
            && (layer.RateLayer? && env.rate(i, r).err.Some? ==> answer == Response(500, w, ""))
            && (layer.RateLayer? && env.rate(i, r).err.None? ==> answer == Response(429, env.rateHeaders(w, env.rate(i, r)), ""))
  {
  }

  /** What the client handler makes of the outcome of the call. */
  lemma BackendAnswers(r: Request, w: Header, env: Env, k: HeaderKey)
    ensures var reply, answer := env.backend(Sent(r, env)), Serve(Backend, 0, r, w, env).response;
            && (reply.TimedOut? ==> answer == Response(504, w, ""))
            && (reply.Unavailable? ==> answer == Response(503, w, ""))
            && (reply.Broken? ==> answer == Response(502, w, ""))
            && (reply.Got? ==>
                  && answer.status == reply.response.status && answer.body == reply.response.body
                  && ErrorHandler.Values(answer.header, k) == ErrorHandler.Values(w, k) + ErrorHandler.Values(reply.response.header, k))
  {
    if env.backend(Sent(r, env)).Got? {
      ErrorHandler.AddAllAt(w, env.backend(Sent(r, env)).response.header, k);
    }
  }

  /** The answer has this status and body, and its values for k end with these. */
  ghost predicate Gives(answer: Response, status: int, body: string, values: seq<string>, k: HeaderKey) {
    answer.status == status && answer.body == body && EndsWith(ErrorHandler.Values(answer.header, k), values)
  }

  /** An answer of the backend comes through every pipeline unchanged, but for headers in front, if it
      has a body and is no 404. */
  lemma BackendAnswerPasses(layers: seq<Layer>, r: Request, w: Header, env: Env, answer: Response, k: HeaderKey)
    requires EndsAt(layers, r, env, |layers|)
    requires env.backend(Sent(RequestAt(layers, r, env, |layers|), env)) == Got(answer)
    requires answer.body != "" && answer.status != 404
    ensures Gives(Serve(Nest(layers), 0, r, w, env).response, answer.status, answer.body, ErrorHandler.Values(answer.header, k), k)
  {
    assert layers[0..] == layers;
    forall w' ensures Gives(ServeFrom(layers, r, w', env, |layers|).response, answer.status, answer.body, ErrorHandler.Values(answer.header, k), k) {
      AnswerAtTheEnd(layers, r, w', env, answer, k);
    }
    PassesThrough(layers, r, w, env, |layers|, 0, answer.status, answer.body, ErrorHandler.Values(answer.header, k), k);
  }

  /** The end of a run gives that answer, whatever is on the writer. */
  ghost predicate EndGives(layers: seq<Layer>, r: Request, env: Env, n: nat, status: int, body: string, values: seq<string>, k: HeaderKey)
    requires n <= |layers|
  {
    forall w :: Gives(ServeFrom(layers, r, w, env, n).response, status, body, values, k)
  }

  /** What the end of a run answers, with a body and no 404, passes all layers before. */
  lemma {:induction false} PassesThrough(layers: seq<Layer>, r: Request, w: Header, env: Env, n: nat, i: nat,
                                         status: int, body: string, values: seq<string>, k: HeaderKey)
    requires i <= n && EndsAt(layers, r, env, n) == true && body != "" && status != 404
    requires EndGives(layers, r, env, n, status, body, values, k) == true
    ensures Gives(ServeFrom(layers, r, w, env, i).response, status, body, values, k) == true
    decreases n - i
  {
    if i == n {
      assert Gives(ServeFrom(layers, r, w, env, n).response, status, body, values, k);
    } else {
      var w' := NextHeader(layers, r, w, env, i);
      PassesThrough(layers, r, w', env, n, i + 1, status, body, values, k);
      PassingFrom(layers, r, w, env, n, i);
      GivesOutward(layers[i], ServeFrom(layers, r, w', env, i + 1).response, w, env, status, body, values, k);
    }
  }

  lemma GivesOutward(layer: Layer, inner: Response, w: Header, env: Env, status: int, body: string, values: seq<string>, k: HeaderKey)
    requires body != "" && status != 404 && Gives(inner, status, body, values, k)
    ensures Gives(Outward(layer, inner, w, env), status, body, values, k) == true
  {
    OutwardKeeps(layer, inner, w, env, values, k);
  }

  lemma AnswerAtTheEnd(layers: seq<Layer>, r: Request, w: Header, env: Env, answer: Response, k: HeaderKey)
    requires env.backend(Sent(RequestAt(layers, r, env, |layers|), env)) == Got(answer)
    ensures Gives(ServeFrom(layers, r, w, env, |layers|).response, answer.status, answer.body, ErrorHandler.Values(answer.header, k), k)
  {
    assert layers[|layers|..] == [];
    ErrorHandler.AddAllAt(w, answer.header, k);
    Added(ErrorHandler.Values(w, k), ErrorHandler.Values(answer.header, k), ErrorHandler.Values(answer.header, k));
  }

  /** A position before the end hands on what comes from behind it. */
  lemma PassingFrom(layers: seq<Layer>, r: Request, w: Header, env: Env, n: nat, i: nat)
    requires EndsAt(layers, r, env, n) && i < n
    ensures ServeFrom(layers, r, w, env, i).response ==
            Outward(layers[i], ServeFrom(layers, r, NextHeader(layers, r, w, env, i), env, i + 1).response, w, env)
  {
    assert RulingAt(layers, r, env, i).Pass?;
    PassingAt(layers, r, w, env, i);
  }

  ghost predicate EndsWith<T>(s: seq<T>, end: seq<T>) {
    |end| <= |s| && s[|s| - |end|..] == end
  }

  lemma Added<T>(front: seq<T>, s: seq<T>, end: seq<T>)
    requires EndsWith(s, end)
    ensures EndsWith(front + s, end)
  {
  }

  lemma OutwardKeeps(layer: Layer, inner: Response, w: Header, env: Env, values: seq<string>, k: HeaderKey)
    requires inner.body != "" && inner.status != 404 && EndsWith(ErrorHandler.Values(inner.header, k), values)
    ensures var answer := Outward(layer, inner, w, env);
            answer.status == inner.status && answer.body == inner.body && EndsWith(ErrorHandler.Values(answer.header, k), values)
  {
    if layer.ErrorLayer? {
      ErrorHandler.AnswerIs(layer.cfg, inner, w, env.errors, k);
      Added(ErrorHandler.Values(w, k), ErrorHandler.Values(inner.header, k), values);
    }
  }

  /** If a member-auth ends the run, the client gets the JSON error of its status, with or without
      error handlers around it. */
  lemma AuthBody(layers: seq<Layer>, r: Request, w: Header, env: Env, n: nat)
    requires EndsAt(layers, r, env, n) && n < |layers| && layers[n].AuthLayer?
    requires env.auth(n, RequestAt(layers, r, env, n)).status != 404
    ensures var status := env.auth(n, RequestAt(layers, r, env, n)).status;
            var answer := Serve(Nest(layers), 0, r, w, env).response;
            answer.status == status && answer.body == ErrorHandler.JsonBody(status, env.errors.time)
  {
    var status := env.auth(n, RequestAt(layers, r, env, n)).status;
    var body := ErrorHandler.JsonBody(status, env.errors.time);
    ErrorHandler.BodiesNotEmpty(status, env.errors.time);
    assert layers[0..] == layers;
    NestFrom(layers, n);
    forall w' ensures Gives(ServeFrom(layers, r, w', env, n).response, status, body, [], ContentType) {
      RefusalIs(layers[n], Nest(layers[n + 1..]), n, RequestAt(layers, r, env, n), w', env);
    }
    PassesThrough(layers, r, w, env, n, 0, status, body, [], ContentType);
  }

  lemma LimiterRefuses(next: Handler, i: nat, r: Request, w: Header, env: Env)
    requires Rule(RateLayer, i, r, env).Stop?
    requires forall h, v :: Get(env.rateHeaders(h, v), ContentType) == Get(h, ContentType)
    ensures var answer := Serve(Wrap(RateLayer, next), i, r, w, env).response;
            answer.body == "" && Get(answer.header, ContentType) == Get(w, ContentType)
  {
  }

  lemma LimiterAnswerOutward(layer: Layer, inner: Response, w: Header, env: Env)
    requires env.errors.mediaType("") == "" && inner.status != 404
    requires inner.body == ErrorHandler.JsonBody(inner.status, env.errors.time)
             || (inner.body == "" && Get(inner.header, ContentType) == "")
    ensures layer.ErrorLayer? ==> Outward(layer, inner, w, env).body == ErrorHandler.JsonBody(inner.status, env.errors.time)
    ensures !layer.ErrorLayer? ==> Outward(layer, inner, w, env) == inner
  {
    ErrorHandler.BodiesNotEmpty(inner.status, env.errors.time);
  }
}
