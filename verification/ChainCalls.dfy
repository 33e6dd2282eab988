/** The ability calls that an execution leaves in the trace of the abilities, and why each of them was permitted. */
module ChainCalls {
  import opened Prelude
  import opened Strings
  import opened Template
  import opened ChainDsl
  import opened CircuitBreaker
  import opened ChainExecutor
  import opened ChainRuns

  type RunOutcome = Result<ExecutionResult, RunError>

  /** Each traced call is that of a move, and they are in iteration order. */
  lemma {:induction false} CallsAreOfMoves(cfg: Setting, moves: seq<Move>, j: nat)
    requires Path(cfg, moves) && j < |CallsOf(cfg, moves)|
    ensures var calls := CallsOf(cfg, moves);
            && calls[j].iteration < |moves| && !moves[calls[j].iteration].Skip?
            && calls[j].ability == StepAt(cfg, moves, calls[j].iteration).ability
            && calls[j].args == moves[calls[j].iteration].args
            && (j > 0 ==> calls[j - 1].iteration < calls[j].iteration)
    decreases |moves|
  {
    var n := |moves| - 1;
    var before := CallsOf(cfg, moves[..n]);
    if j < |before| {
      CallsAreOfMoves(cfg, moves[..n], j);
      SameStepInPrefix(cfg, moves, n, before[j].iteration);
    } else if j > 0 {
      CallsAreOfMoves(cfg, moves[..n], j - 1);
    }
  }

  /** No call is missing from the trace. */
  lemma {:induction false} MovesAreTraced(cfg: Setting, moves: seq<Move>, i: nat)
    requires Path(cfg, moves) && i < |moves| && !moves[i].Skip?
    ensures Call(i, StepAt(cfg, moves, i).ability, moves[i].args) in CallsOf(cfg, moves)
    decreases |moves|
  {
    var n := |moves| - 1;
    if i < n {
      MovesAreTraced(cfg, moves[..n], i);
      SameStepInPrefix(cfg, moves, n, i);
    }
  }

  /** The call belongs to the step of its iteration, with arguments resolved from the outputs of that moment, and every safety rule permits it. */
  ghost predicate SafelyMade(cfg: Setting, moves: seq<Move>, c: Call) {
    && c.iteration <= |moves| && Path(cfg, moves[..c.iteration])
    && var s := After(cfg, moves[..c.iteration]);
       && s.idx < |cfg.chain.steps|
       && var step := cfg.chain.steps[s.idx];
          && c.ability == step.ability
          && Holds(cfg, step, s.outputs)
          && ArgsResolveTo(step.args, cfg.params, s.outputs, c.args)
          && SafeCall(cfg, c.iteration, step, s.outputs)
  }

  lemma {:induction false} MoveCallIsSafelyMade(cfg: Setting, moves: seq<Move>, j: nat)
    requires Path(cfg, moves) && j < |CallsOf(cfg, moves)|
    ensures SafelyMade(cfg, moves, CallsOf(cfg, moves)[j])
  {
    CallsAreOfMoves(cfg, moves, j);
    var k := CallsOf(cfg, moves)[j].iteration;
    MoveIsLegal(cfg, moves, k);
    MoveCallIsSafe(cfg, moves, k);
  }

  lemma {:induction false} LastCallIsSafelyMade(cfg: Setting, moves: seq<Move>, c: Call, e: RunError)
    requires Executes(cfg, moves, Err(e)) && FailingCall(cfg, |moves|, After(cfg, moves), c, e)
    ensures SafelyMade(cfg, moves, c)
  {
    assert moves[..|moves|] == moves;
    var s := After(cfg, moves);
    GateIsSafety(cfg, |moves|, cfg.chain.steps[s.idx], s.outputs);
  }

  /** Every ability call that an execution made, also after backward jumps and also the last, failing one, was permitted. */
  lemma {:induction false} EveryCallIsSafe(cfg: Setting, moves: seq<Move>, r: RunOutcome, calls: seq<Call>, j: nat)
    requires Executes(cfg, moves, r) && CallsMade(cfg, moves, r, calls) && j < |calls|
    ensures SafelyMade(cfg, moves, calls[j])
    ensures j > 0 ==> calls[j - 1].iteration < calls[j].iteration
  {
    var ofMoves := CallsOf(cfg, moves);
    if j < |ofMoves| {
      CallsAreOfMoves(cfg, moves, j);
      MoveCallIsSafelyMade(cfg, moves, j);
    } else {
      var c :| FailingCall(cfg, |moves|, After(cfg, moves), c, r.error) && calls == ofMoves + [c];
      LastCallIsSafelyMade(cfg, moves, c, r.error);
      if j > 0 {
        CallsAreOfMoves(cfg, moves, j - 1);
      }
    }
  }

  /** Under an abort threshold rule that covers the chain, an execution makes no ability call at all. */
  lemma {:induction false} AbortThresholdPreventsCalls(cfg: Setting, i: nat, moves: seq<Move>, r: RunOutcome, calls: seq<Call>)
    requires HasAbortThreshold(cfg, i) && Executes(cfg, moves, r) && CallsMade(cfg, moves, r, calls)
    ensures calls == []
  {
    if calls != [] {
      EveryCallIsSafe(cfg, moves, r, calls, 0);
      var k := calls[0].iteration;
      AbortThresholdBlocksEverything(cfg, i, moves[..k]);
      GateIsSafety(cfg, k, cfg.chain.steps[After(cfg, moves[..k]).idx], map[]);
      GateClosed(cfg, i, k, cfg.chain.steps[After(cfg, moves[..k]).idx]);
    }
  }

  /**
   * An abort rule on the frequency keeps its promise at every ability call: counted on the full log
   * of executions (to which the run itself has been added), fewer than `maxCount` of them are at most
   * `windowSecs` old, provided that the cap dropped no later entry than it kept.
   */
  lemma {:induction false} CallsRespectTheRate(cfg: Setting, log: History, i: nat, moves: seq<Move>, r: RunOutcome, calls: seq<Call>, j: nat)
    requires Executes(cfg, moves, r) && CallsMade(cfg, moves, r, calls) && j < |calls|
    requires cfg.rules.Some? && Capped(cfg.rules.value.history, log) && cfg.chain.id in log && ChainKeptIsLater(log, cfg.chain.id)
    requires i < |cfg.rules.value.breakers|
    requires var b := cfg.rules.value.breakers[i];
             b.action == Abort && Applies(b, cfg.chain.id) && b.condition.FrequencyExceeded? && b.condition.maxCount <= HISTORY_CAP
    ensures var c := cfg.rules.value.breakers[i].condition;
            |InWindow(log[cfg.chain.id], cfg.world.clock(calls[j].iteration), c.windowSecs)| < c.maxCount
  {
    var rules, k := cfg.rules.value, calls[j].iteration;
    var c := rules.breakers[i].condition;
    EveryCallIsSafe(cfg, moves, r, calls, j);
    var s := After(cfg, moves[..k]);
    assert !RuleFiresAt(rules, ProbeAt(cfg, k, cfg.chain.steps[s.idx], s.outputs), i, Abort);
    CappedVerdictsAgreeIff(rules.history, log, cfg.chain.id);
    assert FrequencyAgrees(rules.history, log, cfg.chain.id, cfg.world.clock(k), c.maxCount, c.windowSecs);
    CountIsCardinality(log[cfg.chain.id], cfg.world.clock(k), c.windowSecs);
  }

  /** An abort rule that covers the chain. */
  ghost predicate HasAbortRule(cfg: Setting, i: nat, condition: BreakerCondition) {
    && cfg.rules.Some? && i < |cfg.rules.value.breakers|
    && var b := cfg.rules.value.breakers[i];
       b.action == Abort && b.condition == condition && b.chainId in {"*", cfg.chain.id}
  }

  /** No call is made while an abort rule is triggered. */
  lemma {:induction false} CallsFindRulesQuiet(cfg: Setting, i: nat, condition: BreakerCondition, moves: seq<Move>, r: RunOutcome, calls: seq<Call>, j: nat)
    requires HasAbortRule(cfg, i, condition) && Executes(cfg, moves, r) && CallsMade(cfg, moves, r, calls) && j < |calls|
    ensures SafelyMade(cfg, moves, calls[j])
    ensures var k := calls[j].iteration;
            !Triggered(condition, cfg.rules.value.history,
                       Probe(cfg.chain.id, After(cfg, moves[..k]).outputs, calls[j].ability, cfg.world.clock(k), cfg.world.parse))
  {
    EveryCallIsSafe(cfg, moves, r, calls, j);
    var k := calls[j].iteration;
    var s := After(cfg, moves[..k]);
    AppliesIff(cfg.rules.value.breakers[i], cfg.chain.id);
    assert !RuleFiresAt(cfg.rules.value, ProbeAt(cfg, k, cfg.chain.steps[s.idx], s.outputs), i, Abort);
  }

  /**
   * Under an abort rule `key > t`, every ability call finds an output under the key that parses and does
   * not exceed the threshold: a number of at most `t`, minus infinity, or NaN, which compares with nothing.
   */
  lemma {:induction false} CallsRespectTheThreshold(cfg: Setting, i: nat, key: string, t: real, moves: seq<Move>, r: RunOutcome, calls: seq<Call>, j: nat)
    requires HasAbortRule(cfg, i, ThresholdExceeded(key, Finite(t))) && Executes(cfg, moves, r) && CallsMade(cfg, moves, r, calls)
    requires j < |calls|
    ensures calls[j].iteration <= |moves| && Path(cfg, moves[..calls[j].iteration])
    ensures var outputs := After(cfg, moves[..calls[j].iteration]).outputs;
            && key in outputs && cfg.world.parse(outputs[key]).Some?
            && var v := cfg.world.parse(outputs[key]).value;
               (v.Finite? && v.r <= t) || v.NegInf? || v.NaN?
  {
    CallsFindRulesQuiet(cfg, i, ThresholdExceeded(key, Finite(t)), moves, r, calls, j);
    var k := calls[j].iteration;
    var outputs := After(cfg, moves[..k]).outputs;
    var p := Probe(cfg.chain.id, outputs, calls[j].ability, cfg.world.clock(k), cfg.world.parse);
    ThresholdTriggersIff(key, Finite(t), cfg.rules.value.history, p);
    var v := cfg.world.parse(outputs[key]).value;
    assert v.Finite? && v.r > t ==> Separates(t, v, Finite(t));
    assert v.PosInf? ==> Separates(t, v, Finite(t));
  }

  /** Under an abort rule on an ability, no execution calls it. */
  lemma {:induction false} ForbiddenAbilityIsNotCalled(cfg: Setting, i: nat, ability: string, moves: seq<Move>, r: RunOutcome, calls: seq<Call>)
    requires HasAbortRule(cfg, i, AbilityUsed(ability)) && Executes(cfg, moves, r) && CallsMade(cfg, moves, r, calls)
    ensures forall c :: c in calls ==> c.ability != ability
  {
    forall c | c in calls
      ensures c.ability != ability
    {
      var j :| 0 <= j < |calls| && calls[j] == c;
      CallsFindRulesQuiet(cfg, i, AbilityUsed(ability), moves, r, calls, j);
    }
  }

  /** Under an abort rule on a pattern, no ability is called while the output contains it. */
  lemma {:induction false} CallsAvoidThePattern(cfg: Setting, i: nat, key: string, pattern: string, moves: seq<Move>, r: RunOutcome, calls: seq<Call>, j: nat)
    requires HasAbortRule(cfg, i, OutputContains(key, pattern)) && Executes(cfg, moves, r) && CallsMade(cfg, moves, r, calls)
    requires j < |calls|
    ensures calls[j].iteration <= |moves| && Path(cfg, moves[..calls[j].iteration])
    ensures var outputs := After(cfg, moves[..calls[j].iteration]).outputs;
            key in outputs ==> forall i: nat :: !OccursAt(outputs[key], pattern, i)
  {
    CallsFindRulesQuiet(cfg, i, OutputContains(key, pattern), moves, r, calls, j);
    var k := calls[j].iteration;
    PatternIff(key, pattern, cfg.rules.value.history,
               Probe(cfg.chain.id, After(cfg, moves[..k]).outputs, calls[j].ability, cfg.world.clock(k), cfg.world.parse));
  }
}
