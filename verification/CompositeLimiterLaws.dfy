/** What every schedule of the composite limiter guarantees, and what follows for the grants
    of the store over any run of requests. */
module CompositeLimiterLaws {
  import opened Wrappers
  import opened CompositeLimiter

  lemma AllFinished(ls: seq<Limiter>, s: State)
    requires Inv(ls, s) && s.returned.Some?
    ensures forall i :: 0 <= i < |ls| ==> s.phases[i] == Finished
  {
    NoneActive(s.phases);
  }

  /** Whatever the schedule: the answer is the whole verdict of one limiter that failed, never a
      mixture of several, and it is the zero verdict exactly when none failed. */
  lemma ReturnsOneWholeVerdict(ls: seq<Limiter>, run: seq<State>, v: Verdict)
    requires Run(ls, run) && run[|run| - 1].returned == Some(v)
    ensures var verdicts := run[|run| - 1].verdicts;
            && |verdicts| == |ls|
            && (v == ZERO_VERDICT <==> forall i :: 0 <= i < |ls| ==> !Failing(verdicts[i]))
            && (v != ZERO_VERDICT ==> Failing(v) && v in verdicts)
  {
    var s := run[|run| - 1];
    RunInv(ls, run, |run| - 1);
    AllFinished(ls, s);
    if s.once.Complete? {
      assert s.verdicts[s.once.winner] == v;
    }
  }

  /** Every limiter is charged exactly once, under its own key, and its verdict is that of this
      charge, whatever the others say. */
  lemma EachChargedOnce(ls: seq<Limiter>, run: seq<State>, i: nat)
    requires Run(ls, run) && run[|run| - 1].returned.Some? && i < |ls|
    ensures var s := run[|run| - 1];
            && ChargesOf(s.ledger, i) == 1
            && |s.verdicts| == |ls|
            && forall c <- s.ledger :: c.limiter == i ==> c.key == ls[i].key && s.verdicts[i] == Result(ls[i], c.reply)
  {
    RunInv(ls, run, |run| - 1);
    AllFinished(ls, run[|run| - 1]);
  }

  lemma {:induction false} ChargeOf(ledger: seq<Charge>, i: nat) returns (c: Charge)
    requires ChargesOf(ledger, i) > 0
    ensures c in ledger && c.limiter == i
  {
    var last := ledger[|ledger| - 1];
    if last.limiter == i {
      c := last;
    } else {
      c := ChargeOf(ledger[..|ledger| - 1], i);
    }
  }

  /** v is what this answer of the store makes of one charge under the limiter l: an error is
      passed on, and the request is limited exactly if the store allowed nothing. */
  ghost predicate Reports(l: Limiter, reply: Reply, v: Verdict) {
    && v.result.limit == l.limit.burst
    && (reply.Failure? ==> v.err == Some(reply.error) && !v.limited && v.result.retryAfter == -1 && v.result.remaining == v.result.resetAfter == 0)
    && (reply.Answer? ==>
          && v.err == None && (v.limited <==> reply.allowed <= 0)
          && v.result.remaining == reply.remaining && v.result.resetAfter == reply.resetAfter
          && v.result.retryAfter == if reply.allowed <= 0 then reply.retryAfter else -1)
  }

  lemma ResultReports(l: Limiter, reply: Reply)
    ensures Reports(l, reply, Result(l, reply))
  {
  }

  /** A failing answer of the program is the answer of the store to one of its charges: an error,
      or a refusal with its remaining budget and its times. */
  lemma FailureIsAnAnswer(ls: seq<Limiter>, run: seq<State>, v: Verdict)
    requires Run(ls, run) && run[|run| - 1].returned == Some(v) && Failing(v)
    ensures exists c :: c in run[|run| - 1].ledger && c.limiter < |ls| && Reports(ls[c.limiter], c.reply, v)
                        && (c.reply.Failure? || c.reply.allowed <= 0)
  {
    var s := run[|run| - 1];
    ReturnsOneWholeVerdict(ls, run, v);
    var i :| 0 <= i < |ls| && s.verdicts[i] == v;
    EachChargedOnce(ls, run, i);
    var c := ChargeOf(s.ledger, i);
    ResultReports(ls[i], c.reply);
  }

  /** The request is forwarded exactly if the store granted every charge. */
  lemma ForwardedIffGranted(ls: seq<Limiter>, run: seq<State>, v: Verdict)
    requires Run(ls, run) && run[|run| - 1].returned == Some(v)
    ensures !v.limited && v.err == None <==> forall c <- run[|run| - 1].ledger :: c.reply.Answer? && c.reply.allowed > 0
  {
    var s := run[|run| - 1];
    RunInv(ls, run, |run| - 1);
    ReturnsOneWholeVerdict(ls, run, v);
    if Failing(v) {
      FailureIsAnAnswer(ls, run, v);
    } else {
      forall c | c in s.ledger ensures c.reply.Answer? && c.reply.allowed > 0 {
        assert s.verdicts[c.limiter] == Result(ls[c.limiter], c.reply);
        assert !Failing(s.verdicts[c.limiter]);
        ResultReports(ls[c.limiter], c.reply);
      }
    }
  }

  // ----- Every schedule ends -----

  ghost function Weight(p: Phase): nat {
    match p
    case Unborn => 8
    case Started => 7
    case Decided => 6
    case Writing(k) => if k <= 3 then 5 - k else 2
    case Leaving => 1
    case Finished => 0
  }

  ghost function TotalWeight(ps: seq<Phase>): nat {
    if ps == [] then 0 else Weight(ps[0]) + TotalWeight(ps[1..])
  }

  lemma {:induction false} TotalWeightUpdate(ps: seq<Phase>, i: nat, p: Phase)
    requires i < |ps|
    ensures TotalWeight(ps[i := p]) == TotalWeight(ps) - Weight(ps[i]) + Weight(p)
  {
    if i == 0 {
      assert ps[i := p][1..] == ps[1..];
    } else {
      TotalWeightUpdate(ps[1..], i - 1, p);
      assert ps[i := p][1..] == ps[1..][i - 1 := p];
    }
  }

  ghost function Remaining(s: State): nat {
    TotalWeight(s.phases) + if s.returned.None? then 1 else 0
  }

  lemma StepLightens(ls: seq<Limiter>, s: State, step: Step)
    requires Inv(ls, s) && Enabled(ls, s, step) && step != Return
    ensures Mover(s, step) < |ls| && Apply(ls, s, step).returned == s.returned
    ensures Weight(Apply(ls, s, step).phases[Mover(s, step)]) < Weight(s.phases[Mover(s, step)])
  {
  }

  lemma NextDecreases(ls: seq<Limiter>, s: State, s': State)
    requires Inv(ls, s) && Next(ls, s, s')
    ensures Remaining(s') < Remaining(s)
  {
    var step :| Enabled(ls, s, step) && s' == Apply(ls, s, step);
    if step != Return {
      var i := Mover(s, step);
      StepLightens(ls, s, step);
      OneMoves(ls, s, step);
      TotalWeightUpdate(s.phases, i, s'.phases[i]);
    }
  }

  lemma {:induction false} InitialWeight(ps: seq<Phase>)
    requires forall i :: 0 <= i < |ps| ==> ps[i] == Unborn
    ensures TotalWeight(ps) == 8 * |ps|
  {
    if ps != [] {
      InitialWeight(ps[1..]);
    }
  }

  lemma {:induction false} RemainingAlongRun(ls: seq<Limiter>, run: seq<State>, j: nat)
    requires Run(ls, run) && j < |run|
    ensures Remaining(run[j]) + j <= 8 * |ls| + 1
  {
    if j == 0 {
      InitialWeight(run[0].phases);
    } else {
      RemainingAlongRun(ls, run, j - 1);
      RunInv(ls, run, j - 1);
      NextDecreases(ls, run[j - 1], run[j - 1 + 1]);
    }
  }

  /** No schedule goes on for more than 8n + 1 steps. */
  lemma RunsAreBounded(ls: seq<Limiter>, run: seq<State>)
    requires Run(ls, run)
    ensures |run| <= 8 * |ls| + 2
  {
    RemainingAlongRun(ls, run, |run| - 1);
  }

  /** No schedule gets stuck before the call returns: waiting on the wait group or on the once
      always means that some goroutine can move. Together with `RunsAreBounded`: every call returns. */
  lemma NeverStuck(ls: seq<Limiter>, run: seq<State>)
    requires Run(ls, run) && run[|run| - 1].returned.None?
    ensures var s := run[|run| - 1];
            |s.phases| == |ls| == |s.verdicts| && exists step :: Enabled(ls, s, step)
  {
    RunInv(ls, run, |run| - 1);
    var step := EnabledStep(ls, run[|run| - 1]);
  }

  lemma EnabledStep(ls: seq<Limiter>, s: State) returns (step: Step)
    requires Inv(ls, s) && s.returned.None?
    ensures Enabled(ls, s, step)
  {
    if s.spawned < |ls| {
      step := Spawn;
    } else if s.wait == 0 {
      step := Return;
    } else {
      var i := ActiveExists(s.phases);
      if s.once.Held? {
        var w := s.once.winner;
        step := if s.phases[w].written < 3 then Write(w) else Leave(w);
      } else if s.phases[i] == Started {
        step := Ask(i, Failure(""));
      } else if s.phases[i] == Leaving {
        step := Exit(i);
      } else if !Failing(s.verdicts[i]) {
        step := Pass(i);
      } else {
        step := if s.once == Fresh then Enter(i) else Skip(i);
      }
    }
  }

  // ----- The path for a single limiter -----

  /** With one limiter the program answers with its verdict directly. Against the concurrent path
      given the same reply: the same decision and error always, the same result when it fails. */
  lemma FastPathAgrees(ls: seq<Limiter>, run: seq<State>, v: Verdict)
    requires |ls| == 1 && Run(ls, run) && run[|run| - 1].returned == Some(v)
    ensures run[|run| - 1].ledger != []
    ensures forall c <- run[|run| - 1].ledger ::
              var fast := Result(ls[0], c.reply);
              && fast.limited == v.limited && fast.err == v.err && (Failing(fast) ==> fast == v)
              && Reports(ls[0], c.reply, fast)
  {
    var s := run[|run| - 1];
    EachChargedOnce(ls, run, 0);
    ReturnsOneWholeVerdict(ls, run, v);
    RunInv(ls, run, |run| - 1);
    forall c <- s.ledger ensures c.limiter == 0 {}
  }

  // ----- Runs of requests -----

  /** A request that has been through the composite limiter: any complete run of the machine. */
  datatype Served = Served(ls: seq<Limiter>, run: seq<State>)

  ghost predicate Valid(r: Served) {
    Run(r.ls, r.run) && r.run[|r.run| - 1].returned.Some?
  }

  ghost function Ledger(r: Served): seq<Charge>
    requires Valid(r)
  {
    r.run[|r.run| - 1].ledger
  }

  /** The request goes on to the next handler iff the verdict is neither a limit nor an error. */
  ghost predicate Forwarded(r: Served)
    requires Valid(r)
  {
    !Failing(r.run[|r.run| - 1].returned.value)
  }

  ghost function Grants(ledger: seq<Charge>, k: string): nat {
    if ledger == [] then 0
    else (if ledger[|ledger| - 1].key == k && Granted(ledger[|ledger| - 1].reply) then 1 else 0) + Grants(ledger[..|ledger| - 1], k)
  }

  /** How many limiters of the list charge the key k. */
  ghost function Multiplicity(ls: seq<Limiter>, k: string): nat {
    if ls == [] then 0 else (if ls[0].key == k then 1 else 0) + Multiplicity(ls[1..], k)
  }

  lemma {:induction false} AllAsked(ls: seq<Limiter>, ps: seq<Phase>, k: string)
    requires |ls| == |ps| && forall i :: 0 <= i < |ps| ==> Asked(ps[i])
    ensures AskedCount(ls, ps, k) == Multiplicity(ls, k)
  {
    if ls != [] {
      AllAsked(ls[1..], ps[1..], k);
    }
  }

  lemma {:induction false} AllGranted(ledger: seq<Charge>, k: string)
    requires forall c <- ledger :: Granted(c.reply)
    ensures Grants(ledger, k) == Charges(ledger, k)
  {
    if ledger != [] {
      assert ledger[|ledger| - 1] in ledger;
      AllGranted(ledger[..|ledger| - 1], k);
    }
  }

  /** A forwarded request has used one grant per limiter of its list, key by key; any request,
      forwarded or not, has charged each key once per limiter. */
  lemma ForwardedUsesGrants(r: Served, k: string)
    requires Valid(r)
    ensures Charges(Ledger(r), k) == Multiplicity(r.ls, k)
    ensures Forwarded(r) ==> Grants(Ledger(r), k) == Multiplicity(r.ls, k)
  {
    var s := r.run[|r.run| - 1];
    RunInv(r.ls, r.run, |r.run| - 1);
    AllFinished(r.ls, s);
    AllAsked(r.ls, s.phases, k);
    ReturnsOneWholeVerdict(r.ls, r.run, s.returned.value);
    if Forwarded(r) {
      forall c <- s.ledger ensures Granted(c.reply) {
        assert !Failing(s.verdicts[c.limiter]);
      }
      AllGranted(s.ledger, k);
    }
  }

  ghost predicate AllValid(rs: seq<Served>) {
    forall i :: 0 <= i < |rs| ==> Valid(rs[i])
  }

  /** The grants on k over all requests; the order of charges of different requests does not matter. */
  ghost function TotalGrants(rs: seq<Served>, k: string): nat
    requires AllValid(rs)
  {
    if rs == [] then 0 else Grants(Ledger(rs[0]), k) + TotalGrants(rs[1..], k)
  }

  /** How many requests were forwarded whose list charges k at least m times. */
  ghost function ForwardedCount(rs: seq<Served>, k: string, m: nat): nat
    requires AllValid(rs)
  {
    if rs == [] then 0
    else (if Forwarded(rs[0]) && Multiplicity(rs[0].ls, k) >= m then 1 else 0) + ForwardedCount(rs[1..], k, m)
  }

  /** Over any run of requests: m times the number of forwarded requests that charge k with m
      limiters or more is at most the number of grants on k. Any bound the store keeps for the
      grants of a key therefore bounds the forwarded requests. */
  lemma {:induction false} ForwardedWithinGrants(rs: seq<Served>, k: string, m: nat)
    requires AllValid(rs)
    ensures m * ForwardedCount(rs, k, m) <= TotalGrants(rs, k)
  {
    if rs != [] {
      ForwardedWithinGrants(rs[1..], k, m);
      ForwardedUsesGrants(rs[0], k);
      var rest := ForwardedCount(rs[1..], k, m);
      assert m * (1 + rest) == m + m * rest;
    }
  }
}
