/** From a configuration and a request to the limiters of the composite. */
module RateLimitConfig {
  import opened Http
  import opened RateKey
  import opened CompositeLimiter
  import opened CompositeLimiterLaws

  datatype LimiterConfig = LimiterConfig(limit: Limit, varyBy: VaryBy, overrides: map<string, Limit>)

  predicate ValidLimit(l: Limit) {
    l.rate > 0 && l.burst > 0
  }

  ghost predicate ValidLimiter(c: LimiterConfig) {
    ValidLimit(c.limit) && forall k <- c.overrides :: ValidLimit(c.overrides[k])
  }

  method LimitIsValid(l: Limit) returns (valid: bool)
    ensures valid == ValidLimit(l)
  {
    if l.burst <= 0 || l.rate <= 0 {
      return false;
    }
    return true;
  }

  method LimiterIsValid(c: LimiterConfig) returns (valid: bool)
    ensures valid <==> ValidLimiter(c)
  {
    valid := LimitIsValid(c.limit);
    if !valid {
      return;
    }
    var keys := c.overrides.Keys;
    while keys != {}
      invariant keys <= c.overrides.Keys
      invariant forall k <- c.overrides.Keys - keys :: ValidLimit(c.overrides[k])
      decreases |keys|
    {
      var k :| k in keys;
      valid := LimitIsValid(c.overrides[k]);
      if !valid {
        return;
      }
      keys := keys - {k};
    }
    return true;
  }

  /** Whether the configuration is accepted; otherwise the program panics. */
  method ConfigIsValid(limiters: seq<LimiterConfig>) returns (valid: bool)
    ensures valid <==> limiters != [] && forall c <- limiters :: ValidLimiter(c)
  {
    if |limiters| == 0 {
      return false;
    }
    for i := 0 to |limiters|
      invariant forall c <- limiters[..i] :: ValidLimiter(c)
    {
      valid := LimiterIsValid(limiters[i]);
      if !valid {
        assert limiters[i] in limiters;
        return;
      }
    }
    return true;
  }

  /** The override for exactly this key, or else the limiter's own limit. */
  function LimitFor(c: LimiterConfig, key: string): Limit {
    if key in c.overrides then c.overrides[key] else c.limit
  }

  function Prefix(endpoint: string): string {
    "TTD_GATEWAY:" + endpoint
  }

  function LimiterFor(endpoint: string, c: LimiterConfig, r: Request): Limiter {
    var key := Key(Prefix(endpoint), c.varyBy, r);
    Limiter(key, LimitFor(c, key))
  }

  method Limiters(endpoint: string, configs: seq<LimiterConfig>, r: Request) returns (ls: seq<Limiter>)
    ensures |ls| == |configs|
    ensures forall i :: 0 <= i < |ls| ==> ls[i] == LimiterFor(endpoint, configs[i], r)
    ensures forall i :: 0 <= i < |ls| ==>
              && ls[i].key == Key("TTD_GATEWAY:" + endpoint, configs[i].varyBy, r)
              && (ls[i].key in configs[i].overrides ==> ls[i].limit == configs[i].overrides[ls[i].key])
              && (ls[i].key !in configs[i].overrides ==> ls[i].limit == configs[i].limit)
  {
    ls := [];
    for i := 0 to |configs|
      invariant |ls| == i
      invariant forall j :: 0 <= j < i ==> ls[j] == LimiterFor(endpoint, configs[j], r)
    {
      var key := KeyFor(Prefix(endpoint), configs[i].varyBy, r);
      ls := ls + [Limiter(key, LimitFor(configs[i], key))];
    }
  }

  /** Under an accepted configuration no request is ever charged against a limit that is not
      positive, and a refusal reports the positive burst of the limiter that refused. */
  lemma AcceptedConfigGivesPositiveLimits(endpoint: string, configs: seq<LimiterConfig>, r: Request, ls: seq<Limiter>, run: seq<State>)
    requires forall c <- configs :: ValidLimiter(c)
    requires |ls| == |configs| && forall i :: 0 <= i < |ls| ==> ls[i] == LimiterFor(endpoint, configs[i], r)
    requires Run(ls, run) && run[|run| - 1].returned.Some?
    ensures forall i :: 0 <= i < |ls| ==> ValidLimit(ls[i].limit)
    ensures var v := run[|run| - 1].returned.value;
            Failing(v) ==> exists i :: 0 <= i < |ls| && v.result.limit == ls[i].limit.burst > 0
  {
    forall i | 0 <= i < |ls| ensures ValidLimit(ls[i].limit) {
      assert configs[i] in configs;
    }
    var s := run[|run| - 1];
    var v := s.returned.value;
    if Failing(v) {
      ReturnsOneWholeVerdict(ls, run, v);
      var i :| 0 <= i < |ls| && s.verdicts[i] == v;
      RunInv(ls, run, |run| - 1);
      EachChargedOnce(ls, run, i);
      var c := ChargeOf(s.ledger, i);
      assert v == Result(ls[i], c.reply);
    }
  }
}
