/** The shared retry token budget: a bucket emptied by retries and refilled by successes. */
module RetryBudget {
  import opened Wrappers

  datatype BudgetConfig = BudgetConfig(capacity: U32, replenishPerSuccess: U32)
  {
    predicate Valid() {
      capacity > 0 && replenishPerSuccess > 0
    }
  }

  datatype BudgetDecision = Admitted(remaining: U32) | Suppressed

  function Refill(c: BudgetConfig, available: U32): U32 {
    Min(SaturatingAdd32(available, c.replenishPerSuccess), c.capacity)
  }

  datatype BudgetOp = Request | Success

  /** One operation of the bucket, with its answer if it was a request. */
  function Step(c: BudgetConfig, available: U32, op: BudgetOp): (U32, Option<BudgetDecision>) {
    match op
    case Request => if available == 0 then (0, Some(Suppressed)) else (available - 1, Some(Admitted(available - 1)))
    case Success => (Refill(c, available), None)
  }

  class SharedRetryBudget {
    const config: BudgetConfig
    var available: U32

    constructor (config: BudgetConfig)
      ensures this.config == config && available == config.capacity
    {
      this.config := config;
      available := config.capacity;
    }

    method TryAcquireRetry() returns (r: BudgetDecision)
      modifies this
      ensures (available, Some(r)) == Step(config, old(available), Request)
      ensures r == if old(available) > 0 then Admitted(available) else Suppressed
      ensures available == if old(available) > 0 then old(available) - 1 else 0
    {
      if available == 0 {
        return Suppressed;
      }
      available := available - 1;
      r := Admitted(available);
    }

    method RecordSuccess() returns (now: U32)
      modifies this
      ensures (available, None) == Step(config, old(available), Success)
      ensures now == available
      ensures available
           == if old(available) + config.replenishPerSuccess <= config.capacity
              then old(available) + config.replenishPerSuccess else config.capacity
    {
      available := Min(SaturatingAdd32(available, config.replenishPerSuccess), config.capacity);
      now := available;
    }
  }

  // ----- Answers -----

  /**
    A request is admitted exactly if a token is left; it takes that token and is told what remains. A request
    that is suppressed leaves the bucket as it was.
   */
  lemma RequestMeaning(c: BudgetConfig, available: U32)
    ensures var (left, answer) := Step(c, available, Request);
            && answer.Some?
            && (answer.value.Admitted? <==> available > 0)
            && (answer.value.Suppressed? <==> available == 0)
            && (answer.value.Admitted? ==> answer.value.remaining == left && left + 1 == available)
            && (answer.value.Suppressed? ==> left == available)
  {
  }

  /** A success is not answered. It adds its tokens, and those past the capacity are lost. */
  lemma SuccessMeaning(c: BudgetConfig, available: U32)
    ensures var (left, answer) := Step(c, available, Success);
            && answer.None?
            && left <= c.capacity
            && left <= available + c.replenishPerSuccess
            && (left == c.capacity || left == available + c.replenishPerSuccess)
  {
  }

  // ----- Runs -----

  predicate IsAdmitted(answer: Option<BudgetDecision>) {
    answer.Some? && answer.value.Admitted?
  }

  /** Tokens left after a run. */
  function Left(c: BudgetConfig, available: U32, ops: seq<BudgetOp>): U32
    decreases |ops|
  {
    if ops == [] then available else Left(c, Step(c, available, ops[0]).0, ops[1..])
  }

  /** The answers given during a run. */
  function Answers(c: BudgetConfig, available: U32, ops: seq<BudgetOp>): seq<Option<BudgetDecision>>
    decreases |ops|
  {
    if ops == [] then []
    else
      var (left, answer) := Step(c, available, ops[0]);
      [answer] + Answers(c, left, ops[1..])
  }

  function Admissions(answers: seq<Option<BudgetDecision>>): nat {
    if answers == [] then 0 else (if IsAdmitted(answers[0]) then 1 else 0) + Admissions(answers[1..])
  }

  /** Retries admitted during a run, by the answers given. */
  function AdmittedIn(c: BudgetConfig, available: U32, ops: seq<BudgetOp>): nat {
    Admissions(Answers(c, available, ops))
  }

  lemma AdmittedInUnfolds(c: BudgetConfig, available: U32, ops: seq<BudgetOp>)
    ensures ops == [] ==> AdmittedIn(c, available, ops) == 0
    ensures ops != [] ==>
              AdmittedIn(c, available, ops)
              == (if ops[0] == Request && available > 0 then 1 else 0)
                 + AdmittedIn(c, Step(c, available, ops[0]).0, ops[1..])
  {
    if ops != [] {
      var (left, answer) := Step(c, available, ops[0]);
      assert Answers(c, available, ops)[1..] == Answers(c, left, ops[1..]);
      RequestMeaning(c, available);
      SuccessMeaning(c, available);
    }
  }

  function Successes(ops: seq<BudgetOp>): nat {
    if ops == [] then 0 else (if ops[0] == Success then 1 else 0) + Successes(ops[1..])
  }

  lemma LeftAfter(c: BudgetConfig, available: U32, before: seq<BudgetOp>, op: BudgetOp)
    ensures Left(c, available, before + [op]) == Step(c, Left(c, available, before), op).0
    ensures Answers(c, available, before + [op])
         == Answers(c, available, before) + [Step(c, Left(c, available, before), op).1]
    decreases |before|
  {
    hide Step;
    if before == [] {
      var one := [op];
      assert before + [op] == one;
      assert Left(c, available, one) == Left(c, Step(c, available, op).0, one[1..]);
      assert Answers(c, available, one) == [Step(c, available, op).1] + Answers(c, Step(c, available, op).0, one[1..]);
    } else {
      assert (before + [op])[1..] == before[1..] + [op];
      LeftAfter(c, Step(c, available, before[0]).0, before[1..], op);
    }
  }

  lemma {:induction false} AnswersAreAsMany(c: BudgetConfig, available: U32, ops: seq<BudgetOp>)
    ensures |Answers(c, available, ops)| == |ops|
    decreases |ops|
  {
    if ops == [] {
    } else {
      AnswersAreAsMany(c, Step(c, available, ops[0]).0, ops[1..]);
    }
  }

  /** In every run, each request is admitted exactly if a token is left at that point, and told how many remain. */
  lemma RunAnswers(c: BudgetConfig, before: seq<BudgetOp>)
    ensures var available := Left(c, c.capacity, before);
            var answers := Answers(c, c.capacity, before + [Request]);
            && |answers| == |before| + 1
            && answers[|before|]
               == Some(if available > 0 then Admitted(Left(c, c.capacity, before + [Request])) else Suppressed)
  {
    LeftAfter(c, c.capacity, before, Request);
    AnswersAreAsMany(c, c.capacity, before);
    RequestMeaning(c, Left(c, c.capacity, before));
  }

  /** What the successes of a run add, were nothing lost at the capacity. */
  function Refills(c: BudgetConfig, ops: seq<BudgetOp>): nat {
    if ops == [] then 0 else (if ops[0] == Success then c.replenishPerSuccess else 0) + Refills(c, ops[1..])
  }

  lemma {:induction false} RefillsAreProduct(c: BudgetConfig, ops: seq<BudgetOp>)
    ensures Refills(c, ops) == c.replenishPerSuccess * Successes(ops)
    decreases |ops|
  {
    if ops == [] {
    } else {
      RefillsAreProduct(c, ops[1..]);
      var rest := Successes(ops[1..]);
      assert c.replenishPerSuccess * (rest + 1) == c.replenishPerSuccess * rest + c.replenishPerSuccess;
    }
  }

  lemma {:induction false} TokensAddUp(c: BudgetConfig, available: U32, ops: seq<BudgetOp>)
    ensures AdmittedIn(c, available, ops) + Left(c, available, ops) <= available + Refills(c, ops)
    ensures available <= c.capacity ==> Left(c, available, ops) <= c.capacity
    ensures available + Refills(c, ops) <= c.capacity ==>
              AdmittedIn(c, available, ops) + Left(c, available, ops) == available + Refills(c, ops)
    decreases |ops|
  {
    hide Step, AdmittedIn;
    AdmittedInUnfolds(c, available, ops);
    if ops == [] {
    } else {
      RequestMeaning(c, available);
      SuccessMeaning(c, available);
      TokensAddUp(c, Step(c, available, ops[0]).0, ops[1..]);
    }
  }

  /** Tokens are neither invented nor, below the capacity, lost. */
  lemma TokensAreConserved(c: BudgetConfig, available: U32, ops: seq<BudgetOp>)
    ensures AdmittedIn(c, available, ops) + Left(c, available, ops)
         <= available + c.replenishPerSuccess * Successes(ops)
    ensures available <= c.capacity ==> Left(c, available, ops) <= c.capacity
    ensures available + c.replenishPerSuccess * Successes(ops) <= c.capacity ==>
              (AdmittedIn(c, available, ops) + Left(c, available, ops)
               == available + c.replenishPerSuccess * Successes(ops))
  {
    hide AdmittedIn, Left;
    TokensAddUp(c, available, ops);
    RefillsAreProduct(c, ops);
  }

  /**
    In every contiguous window of every run the admitted retries are at most the tokens at its start plus
    replenishment times successes, hence at most capacity plus that.
   */
  lemma WindowsAreBounded(c: BudgetConfig, before: seq<BudgetOp>, window: seq<BudgetOp>)
    ensures var atStart := Left(c, c.capacity, before);
            && AdmittedIn(c, atStart, window) <= atStart + c.replenishPerSuccess * Successes(window)
            && atStart <= c.capacity
  {
    TokensAreConserved(c, c.capacity, before);
    TokensAreConserved(c, Left(c, c.capacity, before), window);
  }

  // ----- Greedy admission is optimal -----

  /** What a caller that passes over some requests would have admitted: `wants[i]` says whether it asks at step `i`. */
  function AdmittedBy(c: BudgetConfig, available: U32, ops: seq<BudgetOp>, wants: seq<bool>): nat
    requires |wants| == |ops|
    decreases |ops|
  {
    if ops == [] then 0
    else if ops[0] == Request && !wants[0] then AdmittedBy(c, available, ops[1..], wants[1..])
    else
      var (left, answer) := Step(c, available, ops[0]);
      (if IsAdmitted(answer) then 1 else 0) + AdmittedBy(c, left, ops[1..], wants[1..])
  }

  /** Being behind by `lead` admissions is worth at most `lead` tokens. */
  lemma {:induction false} GreedyStaysAhead(c: BudgetConfig, greedy: U32, other: U32, lead: nat,
                                            ops: seq<BudgetOp>, wants: seq<bool>)
    requires |wants| == |ops| && other <= greedy + lead && greedy <= c.capacity && other <= c.capacity
    ensures AdmittedBy(c, other, ops, wants) <= AdmittedIn(c, greedy, ops) + lead
    decreases |ops|
  {
    AdmittedInUnfolds(c, greedy, ops);
    if ops == [] {
    } else {
      var g := Step(c, greedy, ops[0]).0;
      if ops[0] == Success {
        GreedyStaysAhead(c, g, Step(c, other, ops[0]).0, lead, ops[1..], wants[1..]);
      } else {
        var took := if greedy > 0 then 1 else 0;
        var o := if wants[0] && other > 0 then other - 1 else other;
        var gained := if wants[0] && other > 0 then 1 else 0;
        GreedyStaysAhead(c, g, o, lead + took - gained, ops[1..], wants[1..]);
      }
    }
  }

  /** No other choice of which requests to admit under the same bucket admits more, in any prefix of any run. */
  lemma GreedyIsOptimal(c: BudgetConfig, ops: seq<BudgetOp>, wants: seq<bool>, n: nat)
    requires |wants| == |ops| && n <= |ops|
    ensures AdmittedBy(c, c.capacity, ops[..n], wants[..n]) <= AdmittedIn(c, c.capacity, ops[..n])
  {
    GreedyStaysAhead(c, c.capacity, c.capacity, 0, ops[..n], wants[..n]);
  }
}
