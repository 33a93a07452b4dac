/** The composite rate limiter as a state machine: one goroutine per limiter, a wait group, and
    a once that the first failing goroutine wins. Any schedule is a run of the machine, and the
    answers of the store are arbitrary. */
module CompositeLimiter {
  import opened Wrappers

  datatype Limit = Limit(rate: int, burst: int)

  /** A limiter as seen by one request: the key it charges and the limit it applies. */
  datatype Limiter = Limiter(key: string, limit: Limit)

  /** The store's answer to one charge. */
  datatype Reply =
    | Failure(error: string)
    | Answer(allowed: int, remaining: int, retryAfter: int, resetAfter: int)

  datatype RateResult = RateResult(limit: int, remaining: int, retryAfter: int, resetAfter: int)

  datatype Verdict = Verdict(limited: bool, result: RateResult, err: Option<string>)

  const ZERO_RESULT := RateResult(0, 0, 0, 0)
  const ZERO_VERDICT := Verdict(false, ZERO_RESULT, None)

  /** The verdict of a single limiter. */
  function Result(l: Limiter, reply: Reply): Verdict {
    match reply
    case Failure(e) => Verdict(false, RateResult(l.limit.burst, 0, -1, 0), Some(e))
    case Answer(allowed, remaining, retryAfter, resetAfter) =>
      Verdict(allowed <= 0, RateResult(l.limit.burst, remaining, if allowed <= 0 then retryAfter else -1, resetAfter), None)
  }

  predicate Failing(v: Verdict) {
    v.limited || v.err.Some?
  }

  predicate Granted(reply: Reply) {
    reply.Answer? && reply.allowed > 0
  }

  datatype Charge = Charge(limiter: nat, key: string, reply: Reply)

  /** Where a goroutine is. `Writing(k)`: inside the once, k of the three variables written. */
  datatype Phase = Unborn | Started | Decided | Writing(written: nat) | Leaving | Finished

  datatype Once = Fresh | Held(winner: nat) | Complete(winner: nat)

  datatype State = State(
    spawned: nat, wait: int, phases: seq<Phase>, verdicts: seq<Verdict>,
    once: Once, limited: bool, result: RateResult, err: Option<string>,
    ledger: seq<Charge>, returned: Option<Verdict>)

  datatype Step =
    | Spawn
    | Ask(i: nat, reply: Reply)
    | Pass(i: nat)
    | Enter(i: nat)
    | Skip(i: nat)
    | Write(i: nat)
    | Leave(i: nat)
    | Exit(i: nat)
    | Return

  predicate Init(ls: seq<Limiter>, s: State) {
    && s.spawned == 0 && s.wait == 0
    && |s.phases| == |ls| == |s.verdicts|
    && (forall i :: 0 <= i < |ls| ==> s.phases[i] == Unborn)
    && s.once == Fresh && s.limited == false && s.result == ZERO_RESULT && s.err == None
    && s.ledger == [] && s.returned == None
  }

  predicate Enabled(ls: seq<Limiter>, s: State, step: Step)
    requires |s.phases| == |ls| == |s.verdicts|
  {
    match step
    case Spawn => s.spawned < |ls|
    case Ask(i, _) => i < |ls| && s.phases[i] == Started
    case Pass(i) => i < |ls| && s.phases[i] == Decided && !Failing(s.verdicts[i])
    case Enter(i) => i < |ls| && s.phases[i] == Decided && Failing(s.verdicts[i]) && s.once == Fresh
    case Skip(i) => i < |ls| && s.phases[i] == Decided && Failing(s.verdicts[i]) && s.once.Complete?
    case Write(i) => i < |ls| && s.phases[i].Writing? && s.phases[i].written < 3
    case Leave(i) => i < |ls| && s.phases[i] == Writing(3)
    case Exit(i) => i < |ls| && s.phases[i] == Leaving
    case Return => s.returned == None && s.spawned == |ls| && s.wait == 0
  }

  function Apply(ls: seq<Limiter>, s: State, step: Step): State
    requires |s.phases| == |ls| == |s.verdicts| && Enabled(ls, s, step)
  {
    match step
    case Spawn => s.(spawned := s.spawned + 1, wait := s.wait + 1, phases := s.phases[s.spawned := Started])
    case Ask(i, reply) =>
      s.(phases := s.phases[i := Decided], verdicts := s.verdicts[i := Result(ls[i], reply)],
         ledger := s.ledger + [Charge(i, ls[i].key, reply)])
    case Pass(i) => s.(phases := s.phases[i := Leaving])
    case Enter(i) => s.(phases := s.phases[i := Writing(0)], once := Held(i))
    case Skip(i) => s.(phases := s.phases[i := Leaving])
    case Write(i) =>
      var s' := s.(phases := s.phases[i := Writing(s.phases[i].written + 1)]);
      if s.phases[i].written == 0 then s'.(limited := s.verdicts[i].limited)
      else if s.phases[i].written == 1 then s'.(result := s.verdicts[i].result)
      else s'.(err := s.verdicts[i].err)
    case Leave(i) => s.(phases := s.phases[i := Leaving], once := Complete(i))
    case Exit(i) => s.(phases := s.phases[i := Finished], wait := s.wait - 1)
    case Return => s.(returned := Some(Verdict(s.limited, s.result, s.err)))
  }

  ghost predicate Next(ls: seq<Limiter>, s: State, s': State) {
    |s.phases| == |ls| == |s.verdicts| && exists step :: Enabled(ls, s, step) && s' == Apply(ls, s, step)
  }

  ghost predicate Run(ls: seq<Limiter>, run: seq<State>) {
    && run != [] && Init(ls, run[0])
    && forall j :: 0 <= j < |run| - 1 ==> Next(ls, run[j], run[j + 1])
  }

  // ----- Counting -----

  predicate Active(p: Phase) {
    p != Unborn && p != Finished
  }

  predicate Asked(p: Phase) {
    p != Unborn && p != Started
  }

  /** Past the decision whether to enter the once. */
  predicate Past(p: Phase) {
    p == Leaving || p == Finished
  }

  ghost function ActiveCount(ps: seq<Phase>): nat {
    if ps == [] then 0 else (if Active(ps[0]) then 1 else 0) + ActiveCount(ps[1..])
  }

  /** How many of the limiters with key k have been asked. */
  ghost function AskedCount(ls: seq<Limiter>, ps: seq<Phase>, k: string): nat
    requires |ls| == |ps|
  {
    if ls == [] then 0 else (if ls[0].key == k && Asked(ps[0]) then 1 else 0) + AskedCount(ls[1..], ps[1..], k)
  }

  ghost function Charges(ledger: seq<Charge>, k: string): nat {
    if ledger == [] then 0 else (if ledger[|ledger| - 1].key == k then 1 else 0) + Charges(ledger[..|ledger| - 1], k)
  }

  ghost function ChargesOf(ledger: seq<Charge>, i: nat): nat {
    if ledger == [] then 0 else (if ledger[|ledger| - 1].limiter == i then 1 else 0) + ChargesOf(ledger[..|ledger| - 1], i)
  }

  lemma {:induction false} ActiveCountUpdate(ps: seq<Phase>, i: nat, p: Phase)
    requires i < |ps|
    ensures ActiveCount(ps[i := p]) == ActiveCount(ps) - (if Active(ps[i]) then 1 else 0) + (if Active(p) then 1 else 0)
  {
    if i == 0 {
      assert ps[i := p][1..] == ps[1..];
    } else {
      ActiveCountUpdate(ps[1..], i - 1, p);
      assert ps[i := p][1..] == ps[1..][i - 1 := p];
    }
  }

  lemma {:induction false} AskedCountUpdate(ls: seq<Limiter>, ps: seq<Phase>, i: nat, p: Phase, k: string)
    requires |ls| == |ps| && i < |ps|
    ensures AskedCount(ls, ps[i := p], k) ==
            AskedCount(ls, ps, k) - (if ls[i].key == k && Asked(ps[i]) then 1 else 0) + (if ls[i].key == k && Asked(p) then 1 else 0)
  {
    if i == 0 {
      assert ps[i := p][1..] == ps[1..];
    } else {
      AskedCountUpdate(ls[1..], ps[1..], i - 1, p, k);
      assert ps[i := p][1..] == ps[1..][i - 1 := p];
    }
  }

  lemma {:induction false} ActiveExists(ps: seq<Phase>) returns (i: nat)
    requires ActiveCount(ps) > 0
    ensures i < |ps| && Active(ps[i])
  {
    if Active(ps[0]) {
      i := 0;
    } else {
      i := ActiveExists(ps[1..]);
      i := i + 1;
    }
  }

  lemma {:induction false} NoneActive(ps: seq<Phase>)
    requires ActiveCount(ps) == 0
    ensures forall i :: 0 <= i < |ps| ==> !Active(ps[i])
  {
    if ps != [] {
      NoneActive(ps[1..]);
    }
  }

  // ----- Invariant -----

  /** The shared variables: what has been written of the winner's verdict, and by whom. */
  ghost predicate OnceInv(s: State)
    requires |s.phases| == |s.verdicts|
  {
    match s.once
    case Fresh =>
      && s.limited == false && s.result == ZERO_RESULT && s.err == None
      && forall i :: 0 <= i < |s.phases| ==> !s.phases[i].Writing? && (Past(s.phases[i]) ==> !Failing(s.verdicts[i]))
    case Held(w) =>
      && w < |s.phases| && s.phases[w].Writing? && s.phases[w].written <= 3 && Failing(s.verdicts[w])
      && (var k, v := s.phases[w].written, s.verdicts[w];
          && s.limited == (k >= 1 && v.limited)
          && s.result == (if k >= 2 then v.result else ZERO_RESULT)
          && s.err == (if k >= 3 then v.err else None))
      && forall i :: 0 <= i < |s.phases| ==> (s.phases[i].Writing? ==> i == w) && (Past(s.phases[i]) ==> !Failing(s.verdicts[i]))
    case Complete(w) =>
      && w < |s.phases| && Past(s.phases[w]) && Failing(s.verdicts[w])
      && Verdict(s.limited, s.result, s.err) == s.verdicts[w]
      && forall i :: 0 <= i < |s.phases| ==> !s.phases[i].Writing?
  }

  /** Every charge was made by a limiter that has been asked, and is what its verdict rests on. */
  ghost predicate LedgerInv(ls: seq<Limiter>, s: State)
    requires |s.phases| == |ls| == |s.verdicts|
  {
    && (forall c <- s.ledger :: c.limiter < |ls| && Asked(s.phases[c.limiter]) && c.key == ls[c.limiter].key
          && s.verdicts[c.limiter] == Result(ls[c.limiter], c.reply))
    && (forall k :: Charges(s.ledger, k) == AskedCount(ls, s.phases, k))
    && (forall i :: 0 <= i < |ls| ==> ChargesOf(s.ledger, i) == if Asked(s.phases[i]) then 1 else 0)
  }

  ghost predicate Inv(ls: seq<Limiter>, s: State) {
    && |s.phases| == |ls| == |s.verdicts|
    && s.spawned <= |ls|
    && (forall i :: 0 <= i < |ls| ==> (s.phases[i] == Unborn <==> s.spawned <= i))
    && s.wait == ActiveCount(s.phases)
    && OnceInv(s)
    && LedgerInv(ls, s)
    && (s.returned.Some? ==>
          && s.spawned == |ls| && s.wait == 0
          && s.returned.value == Verdict(s.limited, s.result, s.err))
  }

  lemma {:induction false} NothingUnborn(ls: seq<Limiter>, ps: seq<Phase>, k: string)
    requires |ls| == |ps| && forall i :: 0 <= i < |ps| ==> ps[i] == Unborn
    ensures ActiveCount(ps) == 0 && AskedCount(ls, ps, k) == 0
  {
    if ps != [] {
      NothingUnborn(ls[1..], ps[1..], k);
    }
  }

  lemma InitInv(ls: seq<Limiter>, s: State)
    requires Init(ls, s)
    ensures Inv(ls, s)
  {
    forall k ensures ActiveCount(s.phases) == 0 && AskedCount(ls, s.phases, k) == 0 {
      NothingUnborn(ls, s.phases, k);
    }
    assert ActiveCount(s.phases) == 0 by { NothingUnborn(ls, s.phases, ""); }
  }

  /** The goroutine a step moves. */
  function Mover(s: State, step: Step): nat
    requires step != Return
  {
    if step.Spawn? then s.spawned else step.i
  }

  lemma OneMoves(ls: seq<Limiter>, s: State, step: Step)
    requires Inv(ls, s) && Enabled(ls, s, step) && step != Return
    ensures var s', i := Apply(ls, s, step), Mover(s, step);
            i < |ls| && s'.phases == s.phases[i := s'.phases[i]]
  {
  }

  lemma CountsKept(ls: seq<Limiter>, s: State, step: Step)
    requires Inv(ls, s) && Enabled(ls, s, step)
    ensures Apply(ls, s, step).wait == ActiveCount(Apply(ls, s, step).phases)
  {
    if step != Return {
      var s', i := Apply(ls, s, step), Mover(s, step);
      OneMoves(ls, s, step);
      ActiveCountUpdate(s.phases, i, s'.phases[i]);
    }
  }

  lemma AskKeepsLedger(ls: seq<Limiter>, s: State, i: nat, reply: Reply)
    requires |s.phases| == |ls| == |s.verdicts| && LedgerInv(ls, s) && Enabled(ls, s, Ask(i, reply))
    ensures LedgerInv(ls, Apply(ls, s, Ask(i, reply)))
  {
    var s' := Apply(ls, s, Ask(i, reply));
    assert s'.ledger[..|s.ledger|] == s.ledger;
    forall c | c in s'.ledger
      ensures c.limiter < |ls| && Asked(s'.phases[c.limiter]) && c.key == ls[c.limiter].key
      ensures s'.verdicts[c.limiter] == Result(ls[c.limiter], c.reply)
    {
      if c in s.ledger {
        assert c.limiter != i;
      }
    }
    forall k ensures Charges(s'.ledger, k) == AskedCount(ls, s'.phases, k) {
      AskedCountUpdate(ls, s.phases, i, Decided, k);
    }
  }

  lemma LedgerOfOthersKept(ls: seq<Limiter>, s: State, step: Step)
    requires Inv(ls, s) && Enabled(ls, s, step) && step != Return && !step.Ask?
    ensures LedgerInv(ls, Apply(ls, s, step))
  {
    var s', i := Apply(ls, s, step), Mover(s, step);
    OneMoves(ls, s, step);
    assert Asked(s.phases[i]) == Asked(s'.phases[i]);
    assert s'.ledger == s.ledger && s'.verdicts == s.verdicts;
    SameAskedCounts(ls, s.phases, i, s'.phases[i]);
  }

  lemma SameAskedCounts(ls: seq<Limiter>, ps: seq<Phase>, i: nat, p: Phase)
    requires |ls| == |ps| && i < |ps| && Asked(p) == Asked(ps[i])
    ensures forall k :: AskedCount(ls, ps[i := p], k) == AskedCount(ls, ps, k)
  {
    forall k ensures AskedCount(ls, ps[i := p], k) == AskedCount(ls, ps, k) {
      AskedCountUpdate(ls, ps, i, p, k);
    }
  }

  lemma LedgerKept(ls: seq<Limiter>, s: State, step: Step)
    requires Inv(ls, s) && Enabled(ls, s, step)
    ensures LedgerInv(ls, Apply(ls, s, step))
  {
    if step.Ask? {
      AskKeepsLedger(ls, s, step.i, step.reply);
    } else if step != Return {
      LedgerOfOthersKept(ls, s, step);
    }
  }

  lemma WriteKeepsOnce(s: State, i: nat, ls: seq<Limiter>)
    requires |s.phases| == |ls| == |s.verdicts| && OnceInv(s) && Enabled(ls, s, Write(i))
    ensures OnceInv(Apply(ls, s, Write(i)))
  {
    assert s.once == Held(i);
  }

  lemma OnceKept(ls: seq<Limiter>, s: State, step: Step)
    requires |s.phases| == |ls| == |s.verdicts| && OnceInv(s) && Enabled(ls, s, step)
    requires step == Spawn ==> s.phases[s.spawned] == Unborn
    ensures OnceInv(Apply(ls, s, step))
  {
    if step.Write? {
      WriteKeepsOnce(s, step.i, ls);
    } else if step.Leave? {
      assert s.once == Held(step.i);
    }
  }

  lemma UnbornKept(ls: seq<Limiter>, s: State, step: Step)
    requires Inv(ls, s) && Enabled(ls, s, step)
    ensures var s' := Apply(ls, s, step);
            && |s'.phases| == |ls| == |s'.verdicts| && s'.spawned <= |ls|
            && forall i :: 0 <= i < |ls| ==> (s'.phases[i] == Unborn <==> s'.spawned <= i)
  {
    if step != Return {
      OneMoves(ls, s, step);
    }
  }

  lemma ReturnedKept(ls: seq<Limiter>, s: State, step: Step)
    requires Inv(ls, s) && Enabled(ls, s, step)
    ensures var s' := Apply(ls, s, step);
            s'.returned.Some? ==> s'.spawned == |ls| && s'.wait == 0 && s'.returned.value == Verdict(s'.limited, s'.result, s'.err)
  {
    if s.returned.Some? {
      NoneActive(s.phases);
    }
  }

  lemma StepKeepsInv(ls: seq<Limiter>, s: State, step: Step)
    requires Inv(ls, s) && Enabled(ls, s, step)
    ensures Inv(ls, Apply(ls, s, step))
  {
    CountsKept(ls, s, step);
    LedgerKept(ls, s, step);
    OnceKept(ls, s, step);
    UnbornKept(ls, s, step);
    ReturnedKept(ls, s, step);
  }

  lemma NextKeepsInv(ls: seq<Limiter>, s: State, s': State)
    requires Inv(ls, s) && Next(ls, s, s')
    ensures Inv(ls, s')
  {
    var step :| Enabled(ls, s, step) && s' == Apply(ls, s, step);
    StepKeepsInv(ls, s, step);
  }

  lemma {:induction false} RunInv(ls: seq<Limiter>, run: seq<State>, j: nat)
    requires Run(ls, run) && j < |run|
    ensures Inv(ls, run[j])
  {
    if j == 0 {
      InitInv(ls, run[0]);
    } else {
      RunInv(ls, run, j - 1);
      NextKeepsInv(ls, run[j - 1], run[j - 1 + 1]);
    }
  }
}
