/** Whole pipelines with real gates: every limiter decides by a run of the composite machine over
    the limiters of its configuration, and every member-auth as its handler does. */
module PipelineGrants {
  import opened Wrappers
  import opened Http
  import opened Pipeline
  import opened CompositeLimiter
  import opened CompositeLimiterLaws
  import opened RateLimitConfig
  import Base64Url
  import MemberAuth
  import RateKey

  datatype LimiterSetup = LimiterSetup(endpoint: string, configs: seq<LimiterConfig>)

  /** The member service as one member-auth meets it. */
  datatype AuthSetup = AuthSetup(
    cfg: MemberAuth.AuthConfig,
    parseStt: seq<Base64Url.Byte> -> Option<int>,
    ask: (string, MemberAuth.CookieType) -> MemberAuth.Exchange,
    parse: string -> Option<(string, Session)>)

  /** One request through a pipeline, with the configuration of the gate at each position and the
      run of the composite limiter there. */
  datatype Passage = Passage(
    layers: seq<Layer>, request: Request, w: Header, env: Env,
    auths: nat -> AuthSetup, limiters: nat -> LimiterSetup, served: nat -> Served)

  function Trace(p: Passage): seq<Event> {
    Serve(Nest(p.layers), 0, p.request, p.w, p.env).trace
  }

  /** v is what the program answers after the run s: its result, or for a single limiter that
      limiter's verdict. */
  ghost predicate Answers(s: Served, v: Verdict) {
    && Valid(s)
    && if |s.ls| == 1 then exists c :: c in Ledger(s) && v == Result(s.ls[0], c.reply)
       else s.run[|s.run| - 1].returned == Some(v)
  }

  ghost predicate RunsFor(setup: LimiterSetup, q: Request, s: Served) {
    && |s.ls| == |setup.configs|
    && forall j :: 0 <= j < |s.ls| ==> s.ls[j] == LimiterFor(setup.endpoint, setup.configs[j], q)
  }

  /** The gate at position i answers the request q as the program would. */
  ghost predicate Real(p: Passage, i: nat, q: Request)
    requires i < |p.layers|
  {
    match p.layers[i]
    case ErrorLayer(_) => true
    case AuthLayer =>
      var a := p.auths(i);
      MemberAuth.Decides(a.cfg, q, a.parseStt, a.ask, a.parse, p.env.auth(i, q))
    case RateLayer => RunsFor(p.limiters(i), q, p.served(i)) && Answers(p.served(i), p.env.rate(i, q))
  }

  ghost predicate AllReal(p: Passage) {
    forall i: nat, q :: i < |p.layers| && Entered(i, q) in Trace(p) ==> Real(p, i, q)
  }

  ghost predicate BackendCalled(p: Passage) {
    exists q :: Called(q) in Trace(p)
  }

  // ----- One passage -----

  /** The gate lets the request pass exactly when the run of its limiters forwards it. */
  lemma PassesIffForwarded(s: Served, v: Verdict)
    requires Answers(s, v)
    ensures Failing(v) <==> !Forwarded(s)
  {
    if |s.ls| == 1 {
      FastPathAgrees(s.ls, s.run, s.run[|s.run| - 1].returned.value);
    }
  }

  /** A limiter lets the request pass exactly if the store granted all its charges, on both paths. */
  lemma PassesIffGranted(p: Passage, i: nat, q: Request)
    requires i < |p.layers| && p.layers[i].RateLayer? && Real(p, i, q)
    ensures Rule(p.layers[i], i, q, p.env).Pass? <==>
            forall c <- Ledger(p.served(i)) :: c.reply.Answer? && c.reply.allowed > 0
  {
    var s := p.served(i);
    PassesIffForwarded(s, p.env.rate(i, q));
    ForwardedIffGranted(s.ls, s.run, s.run[|s.run| - 1].returned.value);
  }

  ghost predicate IsCharge(p: Passage, e: Event) {
    e.Entered? && e.position < |p.layers| && p.layers[e.position].RateLayer?
  }

  /** The charges and grants on k by the limiters that the events enter. */
  ghost function ChargesIn(p: Passage, trace: seq<Event>, k: string): nat {
    if trace == [] then 0
    else (if IsCharge(p, trace[0]) then Multiplicity(p.served(trace[0].position).ls, k) else 0) + ChargesIn(p, trace[1..], k)
  }

  ghost function GrantsIn(p: Passage, trace: seq<Event>, k: string): nat
    requires forall e <- trace :: IsCharge(p, e) ==> Valid(p.served(e.position))
  {
    if trace == [] then 0
    else (if IsCharge(p, trace[0]) then Grants(Ledger(p.served(trace[0].position)), k) else 0) + GrantsIn(p, trace[1..], k)
  }

  lemma EnteredIsValid(p: Passage, e: Event)
    requires AllReal(p) && e in Trace(p) && IsCharge(p, e)
    ensures Valid(p.served(e.position))
  {
    assert Real(p, e.position, e.request);
  }

  lemma TraceIsValid(p: Passage)
    requires AllReal(p)
    ensures forall e <- Trace(p) :: IsCharge(p, e) ==> Valid(p.served(e.position))
  {
    forall e | e in Trace(p) && IsCharge(p, e) ensures Valid(p.served(e.position)) {
      EnteredIsValid(p, e);
    }
  }

  /** If the backend is called, every limiter that was entered has forwarded the request. */
  lemma CalledMeansForwarded(p: Passage, e: Event)
    requires AllReal(p) && BackendCalled(p) && e in Trace(p) && IsCharge(p, e)
    ensures Valid(p.served(e.position)) && Forwarded(p.served(e.position))
  {
    var i, q := e.position, e.request;
    PassedBy(p, i, q);
    assert Real(p, i, q);
    PassesIffForwarded(p.served(i), p.env.rate(i, q));
  }

  /** If the backend is called, every gate that was entered has passed the request it was given. */
  lemma PassedBy(p: Passage, i: nat, q: Request)
    requires BackendCalled(p) && i < |p.layers| && Entered(i, q) in Trace(p)
    ensures Rule(p.layers[i], i, q, p.env).Pass?
  {
    var called :| Called(called) in Trace(p);
    var n := EndsSomewhere(p.layers, p.request, p.env);
    CalledAtTheEnd(p.layers, p.request, p.w, p.env, n, called);
    EnteredOnTheWay(p.layers, p.request, p.w, p.env, n, i, q);
    assert RulingAt(p.layers, p.request, p.env, i).Pass?;
  }

  lemma {:induction false} GrantsAreCharges(p: Passage, trace: seq<Event>, k: string)
    requires forall e <- trace :: IsCharge(p, e) ==> Valid(p.served(e.position)) && Forwarded(p.served(e.position))
    ensures GrantsIn(p, trace, k) == ChargesIn(p, trace, k)
  {
    if trace != [] {
      GrantsAreCharges(p, trace[1..], k);
      if IsCharge(p, trace[0]) {
        assert trace[0] in trace;
        ForwardedUsesGrants(p.served(trace[0].position), k);
      }
    }
  }

  /** A request that reaches the backend was granted every charge on its way. */
  lemma CalledIsGranted(p: Passage, k: string)
    requires AllReal(p) && BackendCalled(p)
    ensures (forall e <- Trace(p) :: IsCharge(p, e) ==> Valid(p.served(e.position)))
    ensures GrantsIn(p, Trace(p), k) == ChargesIn(p, Trace(p), k)
  {
    forall e | e in Trace(p) && IsCharge(p, e) ensures Valid(p.served(e.position)) && Forwarded(p.served(e.position)) {
      CalledMeansForwarded(p, e);
    }
    GrantsAreCharges(p, Trace(p), k);
  }

  // ----- Many passages -----

  ghost predicate EachReal(ps: seq<Passage>) {
    forall i :: 0 <= i < |ps| ==> AllReal(ps[i])
  }

  ghost function PassageGrants(p: Passage, k: string): nat
    requires AllReal(p)
  {
    TraceIsValid(p);
    GrantsIn(p, Trace(p), k)
  }

  /** The backend is called, on a way that charges k at least m times. */
  ghost predicate CalledBehind(p: Passage, k: string, m: nat) {
    BackendCalled(p) && ChargesIn(p, Trace(p), k) >= m
  }

  lemma CalledNeedsGrants(p: Passage, k: string, m: nat)
    requires AllReal(p)
    ensures CalledBehind(p, k, m) ==> m <= PassageGrants(p, k)
  {
    if BackendCalled(p) {
      CalledIsGranted(p, k);
    }
  }

  ghost function AllGrants(ps: seq<Passage>, k: string): nat
    requires EachReal(ps)
  {
    if ps == [] then 0 else PassageGrants(ps[0], k) + AllGrants(ps[1..], k)
  }

  ghost function CalledCount(ps: seq<Passage>, k: string, m: nat): nat {
    if ps == [] then 0
    else (if CalledBehind(ps[0], k, m) then 1 else 0) + CalledCount(ps[1..], k, m)
  }

  /** From the store to the backend, over any requests through any pipelines: m times the number of
      backend calls behind m or more charges on k is at most the number of grants on k. A bound the
      store keeps on the grants of a key is a bound on backend calls. */
  lemma {:induction false} BackendCallsWithinGrants(ps: seq<Passage>, k: string, m: nat)
    requires EachReal(ps)
    ensures m * CalledCount(ps, k, m) <= AllGrants(ps, k)
  {
    if ps != [] {
      BackendCallsWithinGrants(ps[1..], k, m);
      CalledNeedsGrants(ps[0], k, m);
      OneMore(m, CalledCount(ps[1..], k, m));
    }
  }

  lemma OneMore(m: nat, n: nat)
    ensures m * (1 + n) == m + m * n
  {
  }

  /** The key that limiter j at position i charges is that of the incoming request with the user of
      the nearest member-auth before it. */
  lemma ChargedKey(p: Passage, n: nat, i: nat, q: Request, j: nat, k: nat)
    requires AllReal(p) && EndsAt(p.layers, p.request, p.env, n)
    requires i < |p.layers| && p.layers[i].RateLayer? && Entered(i, q) in Trace(p)
    requires j < |p.limiters(i).configs| && NearestAuth(p.layers, i, k)
    ensures |p.served(i).ls| == |p.limiters(i).configs|
    ensures var v := p.limiters(i).configs[j].varyBy;
            var prefix := Prefix(p.limiters(i).endpoint);
            exists s: Session ::
              && p.env.auth(k, RequestAt(p.layers, p.request, p.env, k)) == MemberAuth.Forward(s)
              && p.served(i).ls[j].key == if v.user then KeyOfUser(prefix, v, p.request, s.username) else RateKey.Key(prefix, v, p.request)
  {
    assert Real(p, i, q);
    LimiterKey(p.layers, p.request, p.w, p.env, n, i, q, Prefix(p.limiters(i).endpoint), p.limiters(i).configs[j].varyBy);
  }

  /** The backend is called only if every member-auth found a token for the request it was given, the
      member service replied with status 200 and the code SUCCESS, and the session in the reply,
      overridden, has a configured privilege. What goes on is that session with the token. */
  lemma CalledMeansAuthorized(p: Passage, i: nat, q: Request)
    requires AllReal(p) && BackendCalled(p)
    requires i < |p.layers| && p.layers[i].AuthLayer? && Entered(i, q) in Trace(p)
    ensures var a := p.auths(i);
            var t := MemberAuth.TokenOf(a.cfg, q, a.parseStt);
            && t.Some?
            && exists body, s, s' ::
                 && body != "" && a.ask(t.value.0, t.value.1) == MemberAuth.Reply(200, body)
                 && a.parse(body) == Some(("SUCCESS", s))
                 && MemberAuth.Adjusted(q, s, s') && MemberAuth.HasPrivilege(a.cfg, s')
                 && p.env.auth(i, q) == MemberAuth.Forward(s'.(token := t.value.0))
  {
    PassedBy(p, i, q);
    assert Real(p, i, q);
    var a := p.auths(i);
    AuthorizedBy(a.cfg, q, a.parseStt, a.ask, a.parse, p.env.auth(i, q).session);
  }

  lemma AuthorizedBy(cfg: MemberAuth.AuthConfig, q: Request, parseStt: seq<Base64Url.Byte> -> Option<int>,
                     ask: (string, MemberAuth.CookieType) -> MemberAuth.Exchange, parse: string -> Option<(string, Session)>, f: Session)
    requires MemberAuth.Decides(cfg, q, parseStt, ask, parse, MemberAuth.Forward(f))
    ensures var t := MemberAuth.TokenOf(cfg, q, parseStt);
            && t.Some?
            && exists body, s, s' ::
                 && body != "" && ask(t.value.0, t.value.1) == MemberAuth.Reply(200, body)
                 && parse(body) == Some(("SUCCESS", s))
                 && MemberAuth.Adjusted(q, s, s') && MemberAuth.HasPrivilege(cfg, s')
                 && f == s'.(token := t.value.0)
  {
    var t := MemberAuth.TokenOf(cfg, q, parseStt);
    assert MemberAuth.Forward(f) == MemberAuth.Forward(f);
    var s :| MemberAuth.Gives(ask(t.value.0, t.value.1), parse, s) && MemberAuth.Forwards(cfg, q, s, t.value.0, f);
    var s' :| MemberAuth.Adjusted(q, s, s') && MemberAuth.HasPrivilege(cfg, s') && f == s'.(token := t.value.0);
    var body :| body != "" && ask(t.value.0, t.value.1) == MemberAuth.Reply(200, body) && parse(body) == Some(("SUCCESS", s));
  }
}
