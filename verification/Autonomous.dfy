/** The plan-execute-review loop (src/chain/autonomous.rs) around the chain executor. */
module Autonomous {
  import opened Prelude
  import opened Strings
  import opened ChainDsl
  import opened CircuitBreaker
  import opened ChainExecutor
  import ChainRuns
  import Template

  datatype Config = Config(maxIterations: nat, maxCostCents: nat)

  datatype AutonomousResult = AutonomousResult(
    success: bool,
    iterations: nat,
    finalOutput: map<string, string>,
    stepsExecuted: nat,
    costEstimateCents: nat)

  type RunOutcome = Result<ExecutionResult, RunError>

  /** One pass through the loop: the setting it ran in, its moves, its ability calls and its outcome. */
  datatype Attempt = Attempt(cfg: Setting, moves: seq<Move>, calls: seq<Call>, outcome: RunOutcome)

  function PlanChain(goal: string, abilities: seq<string>, nowMs: nat): ChainDef {
    var context := "Autonomous execution. Available abilities: [" + Join(abilities, ", ") + "]. Achieve the goal in a single step.";
    ChainDef("auto_" + Decimal(nowMs), [],
      [ChainStep("plan_and_execute", "deep.delegate", map["task" := goal, "context" := context, "backend" := "auto"],
                 Some("result"), None, None)])
  }

  predicate ReviewResult(result: ExecutionResult) {
    result.success && exists k :: k in result.outputs && result.outputs[k] != "" && result.outputs[k] != "stopped" && result.outputs[k] != "{}"
  }

  predicate GoalMet(a: Attempt) { a.outcome.Ok? && ReviewResult(a.outcome.value) }

  // ---------------------------------------------------------------------------------------
  // Chains without conditions and failure targets
  // ---------------------------------------------------------------------------------------

  ghost predicate Straight(chain: ChainDef) {
    forall i :: 0 <= i < |chain.steps| ==> chain.steps[i].condition.None? && chain.steps[i].onFailure.None?
  }

  lemma {:induction false} StraightRunsOnlySucceed(cfg: Setting, moves: seq<Move>)
    requires Straight(cfg.chain) && Path(cfg, moves)
    ensures ChainRuns.JumpCount(moves) == 0 && After(cfg, moves).skipped == []
    decreases |moves|
  {
    if moves != [] {
      StraightRunsOnlySucceed(cfg, moves[..|moves| - 1]);
    }
  }

  /** Such a chain either fails or succeeds with exactly one receipt for each step. */
  lemma {:induction false} StraightChainCompletes(cfg: Setting, moves: seq<Move>, result: ExecutionResult)
    requires Straight(cfg.chain) && Executes(cfg, moves, Ok(result))
    ensures result.success && |result.receipts| == |cfg.chain.steps| && result.skippedSteps == []
  {
    StraightRunsOnlySucceed(cfg, moves);
    ChainRuns.Accounting(cfg, moves);
    ChainRuns.RunLength(cfg, moves);
  }

  /** Without parameters and outputs nothing is replaced, whatever braces the text holds. */
  lemma {:induction false} NothingToResolve(args: map<string, string>, resolved: map<string, string>)
    requires Template.ArgsResolveTo(args, map[], map[], resolved)
    ensures resolved == args
  {
    forall k | k in args
      ensures resolved[k] == args[k]
    {
      var none: map<string, string> := map[];
      var po, oo :| Enumerates(po, none.Keys) && Enumerates(oo, none.Keys)
                    && resolved[k] == Template.ResolveInOrder(args[k], none, none, po, oo);
      EmptyEnumeration(po);
      EmptyEnumeration(oo);
    }
  }

  predicate CountsAsAnswer(text: string) { text != "" && text != "stopped" && text != "{}" }

  const PLANNED_ABILITY := "deep.delegate"

  /** A run of the chain that was planned for a goal. */
  ghost predicate RunsPlan(cfg: Setting, goal: string, abilities: seq<string>, nowMs: nat) {
    cfg.chain == PlanChain(goal, abilities, nowMs) && cfg.params == map[]
  }

  ghost function PlannedCall(cfg: Setting): Call
    requires |cfg.chain.steps| == 1
  {
    Call(0, PLANNED_ABILITY, cfg.chain.steps[0].args)
  }

  /** The gates permit the planned call. */
  ghost predicate PlanPermitted(cfg: Setting)
    requires |cfg.chain.steps| == 1
  {
    ChainRuns.SafeCall(cfg, 0, cfg.chain.steps[0], map[])
  }

  ghost function PlannedAnswer(cfg: Setting): Result<AbilityResult, string>
    requires |cfg.chain.steps| == 1
  {
    cfg.world.invoke(0, PLANNED_ABILITY, cfg.chain.steps[0].args)
  }

  /** One unconditional call of the planned ability whose answer is stored as the result, without parameters. */
  ghost predicate IsDelegation(cfg: Setting) {
    && |cfg.chain.steps| == 1 && cfg.params == map[]
    && var step := cfg.chain.steps[0];
       step.ability == PLANNED_ABILITY && step.outputKey == Some("result") && step.condition.None? && step.onFailure.None?
  }

  lemma {:induction false} PlanIsDelegation(cfg: Setting, goal: string, abilities: seq<string>, nowMs: nat)
    requires RunsPlan(cfg, goal, abilities, nowMs)
    ensures IsDelegation(cfg) && "task" in cfg.chain.steps[0].args && cfg.chain.steps[0].args["task"] == goal
  {
  }

  lemma {:induction false} PlannedFirstCall(cfg: Setting, args: map<string, string>, answer: Result<AbilityResult, string>)
    requires IsDelegation(cfg) && Invokes(cfg, 0, cfg.chain.steps[0], map[], args, answer)
    ensures PlanPermitted(cfg) && args == cfg.chain.steps[0].args && answer == PlannedAnswer(cfg)
  {
    ChainRuns.GateIsSafety(cfg, 0, cfg.chain.steps[0], map[]);
    NothingToResolve(cfg.chain.steps[0].args, args);
  }

  /** At most one move, and that one only if the call is permitted and succeeds. */
  lemma {:induction false} PlannedMoves(cfg: Setting, moves: seq<Move>)
    requires IsDelegation(cfg) && Path(cfg, moves)
    ensures moves == [] || (PlanPermitted(cfg) && PlannedAnswer(cfg).Ok?
                            && moves == [Succeed(cfg.chain.steps[0].args, PlannedAnswer(cfg).value)]
                            && After(cfg, moves).idx == 1 && !After(cfg, moves).hadFailure && CallsOf(cfg, moves) == [PlannedCall(cfg)]
                            && After(cfg, moves).outputs == map["result" := StoredOutput(cfg.world, PlannedAnswer(cfg).value.output)])
  {
    if moves != [] {
      ChainRuns.MoveIsLegal(cfg, moves, 0);
      assert moves[..0] == [];
      PlannedFirstCall(cfg, moves[0].args, Ok(moves[0].result));
      if |moves| > 1 {
        ChainRuns.MoveIsLegal(cfg, moves, 1);
        assert false;
      }
      assert moves[..1] == moves;
    }
  }

  lemma {:induction false} PlannedSuccess(cfg: Setting, moves: seq<Move>, r: RunOutcome, calls: seq<Call>, text: string)
    requires |cfg.chain.steps| == 1 && Executes(cfg, moves, r) && CallsMade(cfg, moves, r, calls)
    requires After(cfg, moves).idx == 1 && After(cfg, moves).outputs == map["result" := text] && !After(cfg, moves).hadFailure
    ensures r.Ok? && calls == CallsOf(cfg, moves) && (ReviewResult(r.value) <==> CountsAsAnswer(text))
  {
    assert "result" in After(cfg, moves).outputs;
  }

  lemma {:induction false} PlannedFailure(cfg: Setting, r: RunOutcome, calls: seq<Call>)
    requires IsDelegation(cfg) && Executes(cfg, [], r) && CallsMade(cfg, [], r, calls)
    ensures r.Err? && calls == if PlanPermitted(cfg) then [PlannedCall(cfg)] else []
    ensures PlanPermitted(cfg) ==> PlannedAnswer(cfg).Err?
  {
    ChainRuns.GateIsSafety(cfg, 0, cfg.chain.steps[0], map[]);
    if PlanPermitted(cfg) {
      var c :| FailingCall(cfg, 0, Start, c, r.error) && calls == CallsOf(cfg, []) + [c];
      var message :| Invokes(cfg, 0, cfg.chain.steps[0], map[], c.args, Err(message)) && FailureError(cfg, Start, message) == Some(r.error);
      PlannedFirstCall(cfg, c.args, Err(message));
    }
  }

  lemma {:induction false} DelegatedRun(cfg: Setting, moves: seq<Move>, r: RunOutcome, calls: seq<Call>)
    requires IsDelegation(cfg) && Executes(cfg, moves, r) && CallsMade(cfg, moves, r, calls)
    ensures calls == if PlanPermitted(cfg) then [PlannedCall(cfg)] else []
    ensures r.Ok? <==> PlanPermitted(cfg) && PlannedAnswer(cfg).Ok?
    ensures r.Ok? ==> (ReviewResult(r.value) <==> CountsAsAnswer(StoredOutput(cfg.world, PlannedAnswer(cfg).value.output)))
  {
    PlannedMoves(cfg, moves);
    if moves == [] {
      PlannedFailure(cfg, r, calls);
    } else {
      PlannedSuccess(cfg, moves, r, calls, StoredOutput(cfg.world, PlannedAnswer(cfg).value.output));
    }
  }

  /**
   * A run of the planned chain calls the planned ability exactly if the gates permit it, with the goal
   * word for word, and never calls anything else. It completes exactly if the permitted call succeeds,
   * and the review accepts it exactly if, besides, the text stored for the answer counts.
   */
  lemma {:induction false} PlannedRun(cfg: Setting, goal: string, abilities: seq<string>, nowMs: nat, moves: seq<Move>, r: RunOutcome, calls: seq<Call>)
    requires RunsPlan(cfg, goal, abilities, nowMs) && Executes(cfg, moves, r) && CallsMade(cfg, moves, r, calls)
    ensures cfg.chain.steps[0].args["task"] == goal
    ensures calls == if PlanPermitted(cfg) then [PlannedCall(cfg)] else []
    ensures r.Ok? <==> PlanPermitted(cfg) && PlannedAnswer(cfg).Ok?
    ensures r.Ok? ==> (ReviewResult(r.value) <==> CountsAsAnswer(StoredOutput(cfg.world, PlannedAnswer(cfg).value.output)))
  {
    PlanIsDelegation(cfg, goal, abilities, nowMs);
    DelegatedRun(cfg, moves, r, calls);
  }

  lemma {:induction false} JoinHolds(parts: seq<string>, sep: string, k: nat) returns (i: nat)
    requires k < |parts|
    ensures OccursAt(Join(parts, sep), parts[k], i)
  {
    i := 0;
    if |parts| > 1 {
      var rest := Join(parts[1..], sep);
      if k == 0 {
        assert Join(parts, sep)[0..|parts[0]|] == parts[0];
      } else {
        var j := JoinHolds(parts[1..], sep, k - 1);
        i := |parts[0]| + |sep| + j;
        assert Join(parts, sep)[i..i + |parts[k]|] == rest[j..j + |parts[k]|];
      }
    }
  }

  lemma {:induction false} OccursInside(head: string, s: string, tail: string, p: string, i: nat)
    requires OccursAt(s, p, i)
    ensures OccursAt(head + s + tail, p, |head| + i)
  {
    assert (head + s + tail)[|head| + i..|head| + i + |p|] == s[i..i + |p|];
  }

  /** What a plan asks for: the goal word for word, a context that names every ability, and any backend. */
  lemma {:induction false} PlanNamesAbilities(goal: string, abilities: seq<string>, nowMs: nat, k: nat)
    requires k < |abilities|
    ensures var args := PlanChain(goal, abilities, nowMs).steps[0].args;
            && args.Keys == {"task", "context", "backend"} && args["task"] == goal && args["backend"] == "auto"
            && exists i: nat :: OccursAt(args["context"], abilities[k], i)
  {
    var i := JoinHolds(abilities, ", ", k);
    var head, tail := "Autonomous execution. Available abilities: [", "]. Achieve the goal in a single step.";
    OccursInside(head, Join(abilities, ", "), tail, abilities[k], i);
    assert PlanChain(goal, abilities, nowMs).steps[0].args["context"] == head + Join(abilities, ", ") + tail;
  }

  /** Plans made at different times have different chain ids. */
  lemma {:induction false} PlanIdsDiffer(goal: string, abilities: seq<string>, a: nat, b: nat)
    ensures PlanChain(goal, abilities, a).id == PlanChain(goal, abilities, b).id <==> a == b
  {
    var x, y := "auto_" + Decimal(a), "auto_" + Decimal(b);
    assert x[5..] == Decimal(a) && y[5..] == Decimal(b);
    if x == y {
      DecimalInjective(a, b);
    }
  }

  /** Every plan passes the static check. */
  lemma {:induction false} PlanIsWellFormed(goal: string, abilities: seq<string>, nowMs: nat)
    ensures WellFormed(PlanChain(goal, abilities, nowMs))
  {
    assert PlanChain(goal, abilities, nowMs).id[0] == 'a';
  }

  // ---------------------------------------------------------------------------------------
  // What a sequence of attempts costs
  // ---------------------------------------------------------------------------------------

  ghost function StepsOf(attempts: seq<Attempt>): nat {
    if attempts == [] then 0
    else
      var n := |attempts| - 1;
      StepsOf(attempts[..n]) + if attempts[n].outcome.Ok? then |attempts[n].outcome.value.receipts| else 0
  }

  /** One cent for a failed attempt, five for every step of a completed one. */
  ghost function CostOf(attempts: seq<Attempt>): nat {
    if attempts == [] then 0
    else
      var n := |attempts| - 1;
      CostOf(attempts[..n]) + if attempts[n].outcome.Ok? then 5 * |attempts[n].outcome.value.receipts| else 1
  }

  ghost function LastOutputs(attempts: seq<Attempt>): map<string, string> {
    if attempts == [] then map[]
    else
      var n := |attempts| - 1;
      if attempts[n].outcome.Ok? then attempts[n].outcome.value.outputs else LastOutputs(attempts[..n])
  }

  ghost predicate OneStepEach(attempts: seq<Attempt>) {
    forall i :: 0 <= i < |attempts| && attempts[i].outcome.Ok? ==> |attempts[i].outcome.value.receipts| == 1
  }

  lemma {:induction false} CostLaw(attempts: seq<Attempt>)
    requires OneStepEach(attempts)
    ensures CostOf(attempts) == |attempts| + 4 * StepsOf(attempts) && StepsOf(attempts) <= |attempts|
  {
    if attempts != [] {
      CostLaw(attempts[..|attempts| - 1]);
    }
  }

  /** The loop goes on only while the goal is not met and money is left. */
  ghost predicate KeptGoing(config: Config, attempts: seq<Attempt>) {
    && |attempts| <= config.maxIterations
    && forall i :: 0 <= i < |attempts| ==> MadeWithReason(config, attempts, i)
  }

  /** Attempt `i` was made with money left, and the goal was not met before the last attempt. */
  ghost predicate MadeWithReason(config: Config, attempts: seq<Attempt>, i: nat)
    requires i < |attempts|
  {
    CostOf(attempts[..i]) < config.maxCostCents && (i < |attempts| - 1 ==> !GoalMet(attempts[i]))
  }

  /** The caps bound what any such sequence of attempts can cost. */
  lemma {:induction false} CostIsCapped(config: Config, attempts: seq<Attempt>)
    requires OneStepEach(attempts) && KeptGoing(config, attempts)
    ensures |attempts| <= config.maxCostCents && |attempts| <= config.maxIterations
    ensures config.maxCostCents > 0 ==> CostOf(attempts) <= config.maxCostCents + 4
    ensures config.maxCostCents == 0 ==> attempts == [] && CostOf(attempts) == 0
  {
    if attempts != [] {
      var n := |attempts| - 1;
      assert MadeWithReason(config, attempts, n);
      assert OneStepEach(attempts[..n]);
      CostLaw(attempts[..n]);
      CostLaw(attempts);
    }
  }

  /** Another attempt, made while the goal was not met and money was left. */
  lemma {:induction false} KeepGoing(config: Config, attempts: seq<Attempt>, a: Attempt)
    requires KeptGoing(config, attempts) && (attempts != [] ==> !GoalMet(attempts[|attempts| - 1]))
    requires |attempts| < config.maxIterations && CostOf(attempts) < config.maxCostCents
    ensures KeptGoing(config, attempts + [a])
  {
    var all := attempts + [a];
    forall i | 0 <= i < |all|
      ensures MadeWithReason(config, all, i)
    {
      assert all[..i] == attempts[..i];
      if i == |attempts| {
        assert attempts[..i] == attempts;
      } else {
        assert all[i] == attempts[i];
        assert MadeWithReason(config, attempts, i);
      }
    }
  }

  lemma {:induction false} ExtendTotals(attempts: seq<Attempt>, a: Attempt)
    requires OneStepEach(attempts) && (a.outcome.Ok? ==> |a.outcome.value.receipts| == 1)
    ensures var all := attempts + [a];
            && OneStepEach(all)
            && StepsOf(all) == StepsOf(attempts) + (if a.outcome.Ok? then |a.outcome.value.receipts| else 0)
            && CostOf(all) == CostOf(attempts) + (if a.outcome.Ok? then 5 * |a.outcome.value.receipts| else 1)
            && LastOutputs(all) == (if a.outcome.Ok? then a.outcome.value.outputs else LastOutputs(attempts))
  {
    assert (attempts + [a])[..|attempts|] == attempts;
  }

  /** The loop's variables sum up the attempts made so far. */
  ghost predicate SumUp(config: Config, attempts: seq<Attempt>, r: AutonomousResult) {
    && OneStepEach(attempts) && KeptGoing(config, attempts)
    && r == AutonomousResult(attempts != [] && GoalMet(attempts[|attempts| - 1]), |attempts|, LastOutputs(attempts),
                             StepsOf(attempts), CostOf(attempts))
  }

  /** The counters after one more attempt: a cent for a failed one, five for every step of a completed one. */
  function WithAttempt(r: AutonomousResult, outcome: RunOutcome): AutonomousResult {
    match outcome
    case Err(_) => r.(success := false, iterations := r.iterations + 1, costEstimateCents := r.costEstimateCents + 1)
    case Ok(done) =>
      AutonomousResult(ReviewResult(done), r.iterations + 1, done.outputs, r.stepsExecuted + |done.receipts|,
                       r.costEstimateCents + 5 * |done.receipts|)
  }

  lemma {:induction false} AnotherAttempt(config: Config, attempts: seq<Attempt>, r: AutonomousResult, a: Attempt)
    requires SumUp(config, attempts, r) && !r.success && (a.outcome.Ok? ==> |a.outcome.value.receipts| == 1)
    requires r.iterations < config.maxIterations && r.costEstimateCents < config.maxCostCents
    ensures SumUp(config, attempts + [a], WithAttempt(r, a.outcome))
  {
    KeepGoing(config, attempts, a);
    ExtendTotals(attempts, a);
  }

  /** The cost law of the finished loop. */
  lemma {:induction false} CostOfResult(config: Config, attempts: seq<Attempt>, r: AutonomousResult)
    requires SumUp(config, attempts, r)
    ensures r.costEstimateCents == r.iterations + 4 * r.stepsExecuted
    ensures r.costEstimateCents <= config.maxCostCents + 4 && (config.maxCostCents == 0 ==> r.costEstimateCents == 0)
    ensures r.iterations <= config.maxIterations
  {
    CostLaw(attempts);
    CostIsCapped(config, attempts);
  }

  // ---------------------------------------------------------------------------------------
  // Attempts are runs of planned chains
  // ---------------------------------------------------------------------------------------

  /**
   * What a call of the loop is given. `worlds(i)` and `nowMs(i)` are what iteration `i` meets; without
   * a breaker registry there are no rules. `log` is the registry's log of executions at the start.
   */
  datatype Inputs = Inputs(goal: string, abilities: seq<string>, agent: string, rules: Option<seq<Breaker>>, log: History,
                           worlds: nat -> World, nowMs: nat -> nat)

  /** The log of executions after the attempts: each of them was recorded once. */
  ghost function LogAfter(log: History, attempts: seq<Attempt>): History {
    if attempts == [] then log
    else
      var n := |attempts| - 1;
      WithExecution(LogAfter(log, attempts[..n]), attempts[n].cfg.chain.id, attempts[n].cfg.world.clock(0))
  }

  ghost function CallsOfAll(attempts: seq<Attempt>): seq<Call> {
    if attempts == [] then [] else CallsOfAll(attempts[..|attempts| - 1]) + attempts[|attempts| - 1].calls
  }

  /**
   * The setting of attempt `i`: the chain planned for the goal, the world of the iteration without a
   * confirmation channel, the registered rules, and the capped history with the attempt itself recorded.
   */
  ghost predicate SetUp(inputs: Inputs, log: History, i: nat, cfg: Setting) {
    && RunsPlan(cfg, inputs.goal, inputs.abilities, inputs.nowMs(i))
    && cfg.world == inputs.worlds(i).(confirm := None) && cfg.agent == inputs.agent
    && (cfg.rules.Some? <==> inputs.rules.Some?)
    && (cfg.rules.Some? ==> cfg.rules.value.breakers == inputs.rules.value && Capped(cfg.rules.value.history, log))
  }

  /** Attempt `i` is an execution in that setting, with all its ability calls. */
  ghost predicate Made(inputs: Inputs, attempts: seq<Attempt>, i: nat)
    requires i < |attempts|
  {
    var a := attempts[i];
    && SetUp(inputs, LogAfter(inputs.log, attempts[..i + 1]), i, a.cfg)
    && Executes(a.cfg, a.moves, a.outcome) && CallsMade(a.cfg, a.moves, a.outcome, a.calls)
  }

  ghost predicate AllMade(inputs: Inputs, attempts: seq<Attempt>) {
    forall i :: 0 <= i < |attempts| ==> Made(inputs, attempts, i)
  }

  lemma {:induction false} OneMoreMade(inputs: Inputs, attempts: seq<Attempt>, a: Attempt)
    requires AllMade(inputs, attempts)
    requires Executes(a.cfg, a.moves, a.outcome) && CallsMade(a.cfg, a.moves, a.outcome, a.calls)
    requires SetUp(inputs, WithExecution(LogAfter(inputs.log, attempts), a.cfg.chain.id, a.cfg.world.clock(0)), |attempts|, a.cfg)
    ensures AllMade(inputs, attempts + [a])
    ensures LogAfter(inputs.log, attempts + [a]) == WithExecution(LogAfter(inputs.log, attempts), a.cfg.chain.id, a.cfg.world.clock(0))
    ensures CallsOfAll(attempts + [a]) == CallsOfAll(attempts) + a.calls
  {
    var all := attempts + [a];
    assert all[..|attempts|] == attempts;
    assert all[..|attempts| + 1] == all;
    forall i | 0 <= i < |attempts|
      ensures Made(inputs, all, i)
    {
      MadeInLonger(inputs, attempts, a, i);
    }
    assert Made(inputs, all, |attempts|);
  }

  lemma {:induction false} MadeInLonger(inputs: Inputs, attempts: seq<Attempt>, a: Attempt, i: nat)
    requires i < |attempts| && Made(inputs, attempts, i)
    ensures Made(inputs, attempts + [a], i)
  {
    assert (attempts + [a])[..i + 1] == attempts[..i + 1];
  }

  /** How far the loop has come: what the attempts did to the log and to the trace of calls, and what they sum up to. */
  ghost predicate Progress(config: Config, inputs: Inputs, before: seq<Call>, attempts: seq<Attempt>,
                           log: History, calls: seq<Call>, r: AutonomousResult) {
    && AllMade(inputs, attempts) && SumUp(config, attempts, r)
    && (inputs.rules.Some? ==> log == LogAfter(inputs.log, attempts))
    && calls == before + CallsOfAll(attempts)
  }

  lemma {:induction false} NextAttempt(config: Config, inputs: Inputs, before: seq<Call>, attempts: seq<Attempt>,
                                       log: History, calls: seq<Call>, r: AutonomousResult, a: Attempt)
    requires Progress(config, inputs, before, attempts, log, calls, r)
    requires !r.success && r.iterations < config.maxIterations && r.costEstimateCents < config.maxCostCents
    requires Executes(a.cfg, a.moves, a.outcome) && CallsMade(a.cfg, a.moves, a.outcome, a.calls)
    requires SetUp(inputs, WithExecution(log, a.cfg.chain.id, a.cfg.world.clock(0)), |attempts|, a.cfg)
    requires a.outcome.Ok? ==> |a.outcome.value.receipts| == 1
    ensures Progress(config, inputs, before, attempts + [a], WithExecution(log, a.cfg.chain.id, a.cfg.world.clock(0)),
                     calls + a.calls, WithAttempt(r, a.outcome))
  {
    AnotherAttempt(config, attempts, r, a);
    assert SetUp(inputs, WithExecution(LogAfter(inputs.log, attempts), a.cfg.chain.id, a.cfg.world.clock(0)), |attempts|, a.cfg);
    OneMoreMade(inputs, attempts, a);
    Regroup(before, CallsOfAll(attempts), a.calls);
  }

  /** What attempt `i` does, told by its setting alone. */
  lemma {:induction false} AttemptIs(inputs: Inputs, attempts: seq<Attempt>, i: nat)
    requires AllMade(inputs, attempts) && i < |attempts|
    ensures var a := attempts[i];
            && RunsPlan(a.cfg, inputs.goal, inputs.abilities, inputs.nowMs(i))
            && a.cfg.chain.steps[0].args["task"] == inputs.goal
            && a.calls == (if PlanPermitted(a.cfg) then [PlannedCall(a.cfg)] else [])
            && (a.outcome.Ok? <==> PlanPermitted(a.cfg) && PlannedAnswer(a.cfg).Ok?)
            && (GoalMet(a) <==> PlanPermitted(a.cfg) && PlannedAnswer(a.cfg).Ok?
                                && CountsAsAnswer(StoredOutput(a.cfg.world, PlannedAnswer(a.cfg).value.output)))
  {
    assert Made(inputs, attempts, i);
    var a := attempts[i];
    PlannedRun(a.cfg, inputs.goal, inputs.abilities, inputs.nowMs(i), a.moves, a.outcome, a.calls);
  }

  /**
   * End to end: the loop succeeds exactly if its last attempt was one call of the planned ability that
   * the safety rules permitted, that received the goal word for word, and whose stored answer counts.
   * No earlier attempt was of this kind.
   */
  lemma {:induction false} SuccessIff(config: Config, inputs: Inputs, attempts: seq<Attempt>, r: AutonomousResult)
    requires SumUp(config, attempts, r) && AllMade(inputs, attempts)
    ensures forall i :: 0 <= i < |attempts| ==> |attempts[i].cfg.chain.steps| == 1
    ensures r.success <==> attempts != [] && AnswersGoal(inputs.goal, attempts[|attempts| - 1])
    ensures forall i :: 0 <= i < |attempts| - 1 ==> !AnswersGoal(inputs.goal, attempts[i])
  {
    forall i | 0 <= i < |attempts|
      ensures |attempts[i].cfg.chain.steps| == 1 && (GoalMet(attempts[i]) <==> AnswersGoal(inputs.goal, attempts[i]))
    {
      AttemptIs(inputs, attempts, i);
    }
    forall i | 0 <= i < |attempts| - 1
      ensures !GoalMet(attempts[i])
    {
      assert MadeWithReason(config, attempts, i);
    }
  }

  /** One permitted call of the planned ability with this goal, answered by a text that counts. */
  ghost predicate AnswersGoal(goal: string, a: Attempt) {
    && |a.cfg.chain.steps| == 1
    && a.calls == [PlannedCall(a.cfg)] && "task" in a.calls[0].args && a.calls[0].args["task"] == goal
    && PlanPermitted(a.cfg)
    && PlannedAnswer(a.cfg).Ok? && CountsAsAnswer(StoredOutput(a.cfg.world, PlannedAnswer(a.cfg).value.output))
  }

  lemma {:induction false} CallsOfAllAre(inputs: Inputs, attempts: seq<Attempt>, n: nat)
    requires AllMade(inputs, attempts) && n <= |attempts|
    ensures forall c :: c in CallsOfAll(attempts[..n]) ==> c.iteration == 0 && c.ability == PLANNED_ABILITY
                                                           && "task" in c.args && c.args["task"] == inputs.goal
    ensures |CallsOfAll(attempts[..n])| <= n
  {
    if n > 0 {
      CallsOfAllAre(inputs, attempts, n - 1);
      AttemptIs(inputs, attempts, n - 1);
      assert attempts[..n][..n - 1] == attempts[..n - 1];
    }
  }

  class AutonomousExecutor {
    const config: Config

    constructor (config: Config)
      ensures this.config == config
    {
      this.config := config;
    }

    ghost function RulesOf(breakers: BreakerRegistry?): Option<seq<Breaker>>
      reads if breakers == null then {} else {breakers}
    {
      if breakers == null then None else Some(breakers.breakers)
    }

    ghost function LogOf(breakers: BreakerRegistry?): History
      reads if breakers == null then {} else {breakers}
    {
      if breakers == null then map[] else breakers.log
    }

    /** Plans the chain and runs it once; this is attempt `i`. */
    method PlanAndRun(ghost inputs: Inputs, ghost i: nat, goal: string, abilities: seq<string>, agent: string,
                      registry: AbilityRegistry, breakers: BreakerRegistry?, world: World, nowMs: nat)
      returns (result: RunOutcome, ghost a: Attempt)
      requires breakers != null ==> breakers.Valid()
      requires inputs.goal == goal && inputs.abilities == abilities && inputs.agent == agent
      requires inputs.worlds(i) == world && inputs.nowMs(i) == nowMs && inputs.rules == RulesOf(breakers)
      modifies if breakers == null then {} else {breakers}, registry`calls
      ensures breakers != null ==> breakers.Valid() && breakers.breakers == old(breakers.breakers)
      ensures a.outcome == result && (result.Ok? ==> |result.value.receipts| == 1)
      ensures Executes(a.cfg, a.moves, a.outcome) && CallsMade(a.cfg, a.moves, a.outcome, a.calls)
      ensures SetUp(inputs, WithExecution(old(LogOf(breakers)), a.cfg.chain.id, a.cfg.world.clock(0)), i, a.cfg)
      ensures breakers != null ==> breakers.log == WithExecution(old(breakers.log), a.cfg.chain.id, a.cfg.world.clock(0))
      ensures registry.calls == old(registry.calls) + a.calls
    {
      var chain := PlanChain(goal, abilities, nowMs);
      var executor := new ChainExecutor(agent, world.(confirm := None), registry, breakers);
      var r, moves, calls := executor.Run(chain, map[]);
      ghost var cfg := executor.SettingFor(chain, map[]);
      if r.Ok? {
        StraightChainCompletes(cfg, moves, r.value);
      }
      result, a := r, Attempt(cfg, moves, calls, r);
    }

    /**
     * `worlds(i)`, `timedOut(i)` and `nowMs(i)` are what iteration `i` meets. The executor gets no
     * confirmation channel here, whatever the environment could offer.
     */
    method Execute(goal: string, abilities: seq<string>, agent: string, registry: AbilityRegistry, breakers: BreakerRegistry?,
                   worlds: nat -> World, timedOut: nat -> bool, nowMs: nat -> nat)
      returns (r: AutonomousResult, ghost attempts: seq<Attempt>)
      requires breakers != null ==> breakers.Valid()
      modifies if breakers == null then {} else {breakers}, registry`calls
      ensures breakers != null ==> breakers.Valid() && breakers.breakers == old(breakers.breakers)
      ensures Progress(config, Inputs(goal, abilities, agent, old(RulesOf(breakers)), old(LogOf(breakers)), worlds, nowMs),
                       old(registry.calls), attempts, LogOf(breakers), registry.calls, r)
      ensures r.costEstimateCents == r.iterations + 4 * r.stepsExecuted
      ensures r.costEstimateCents <= config.maxCostCents + 4 && (config.maxCostCents == 0 ==> r.costEstimateCents == 0)
      ensures forall i: nat :: i < |attempts| ==> !timedOut(i)
      ensures !r.success ==>
        r.iterations == config.maxIterations || timedOut(r.iterations) || r.costEstimateCents >= config.maxCostCents
    {
      ghost var inputs := Inputs(goal, abilities, agent, RulesOf(breakers), LogOf(breakers), worlds, nowMs);
      ghost var before := registry.calls;
      attempts := [];
      r := AutonomousResult(false, 0, map[], 0, 0);
      while r.iterations < config.maxIterations && !r.success
        invariant breakers != null ==> breakers.Valid()
        invariant inputs.rules == RulesOf(breakers) && r.iterations == |attempts|
        invariant forall i: nat :: i < |attempts| ==> !timedOut(i)
        invariant Progress(config, inputs, before, attempts, LogOf(breakers), registry.calls, r)
        decreases config.maxIterations - r.iterations
      {
        if timedOut(r.iterations) || r.costEstimateCents >= config.maxCostCents {
          break;
        }
        ghost var a;
        r, a := Iterate(inputs, before, attempts, r, registry, breakers, goal, abilities, agent, worlds(r.iterations), nowMs(r.iterations));
        attempts := attempts + [a];
      }
      CostOfResult(config, attempts, r);
    }

    /** One iteration of the loop of `Execute`: the new counters after another attempt. */
    method Iterate(ghost inputs: Inputs, ghost before: seq<Call>, ghost attempts: seq<Attempt>, r: AutonomousResult,
                   registry: AbilityRegistry, breakers: BreakerRegistry?,
                   goal: string, abilities: seq<string>, agent: string, world: World, nowMs: nat)
      returns (next: AutonomousResult, ghost a: Attempt)
      requires breakers != null ==> breakers.Valid()
      requires inputs.goal == goal && inputs.abilities == abilities && inputs.agent == agent
      requires inputs.worlds(r.iterations) == world && inputs.nowMs(r.iterations) == nowMs && inputs.rules == RulesOf(breakers)
      requires Progress(config, inputs, before, attempts, LogOf(breakers), registry.calls, r)
      requires !r.success && r.iterations < config.maxIterations && r.costEstimateCents < config.maxCostCents
      modifies if breakers == null then {} else {breakers}, registry`calls
      ensures breakers != null ==> breakers.Valid()
      ensures inputs.rules == RulesOf(breakers)
      ensures Progress(config, inputs, before, attempts + [a], LogOf(breakers), registry.calls, next)
      ensures next.iterations == r.iterations + 1
    {
      ghost var log, calls := LogOf(breakers), registry.calls;
      var result;
      result, a := PlanAndRun(inputs, r.iterations, goal, abilities, agent, registry, breakers, world, nowMs);
      NextAttempt(config, inputs, before, attempts, log, calls, r, a);
      next := WithAttempt(r, result);
    }
  }
}
