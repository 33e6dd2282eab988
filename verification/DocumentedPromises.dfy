/**
 * Three places where the book (docs/book/src) promises something else than the code does. For each:
 * an input on which they differ, and exactly when they do.
 */
module DocumentedPromises {
  import opened Prelude
  import opened Template
  import opened ChainDsl
  import opened CircuitBreaker
  import opened ChainExecutor
  import opened ChainRuns
  import Autonomous
  import Trust

  // ---------------------------------------------------------------------------------------
  // "Confirm is treated as abort when there is no confirmation channel"
  // ---------------------------------------------------------------------------------------

  /** A firing confirmation rule lets the call through only after the user approved it. */
  ghost predicate ConfirmFailsClosed(cfg: Setting, k: nat, step: ChainStep, outputs: map<string, string>) {
    SomeRule(cfg, k, step, outputs, Confirm) && Gate(cfg, k, step, outputs).None? ==>
      cfg.world.confirm.Some? && UserApproved(cfg, k, step, cfg.rules.value, ProbeAt(cfg, k, step, outputs))
  }

  const EMAIL_RULE := Breaker("email", "*", AbilityUsed("email.send"), Confirm, "Confirm before sending email")

  /** The book's own example, `ability:email.send|confirm`, without a channel: the rule fires and the call goes through. */
  lemma {:induction false} ConfirmCanFailOpen(cfg: Setting, k: nat, step: ChainStep, outputs: map<string, string>)
    requires cfg.rules == Some(RuleSet([EMAIL_RULE], map[])) && cfg.world.confirm.None? && cfg.world.constitution.None?
    requires step.ability == "email.send"
    ensures SomeRule(cfg, k, step, outputs, Confirm) && Gate(cfg, k, step, outputs).None?
    ensures !ConfirmFailsClosed(cfg, k, step, outputs)
  {
    assert RuleFiresAt(cfg.rules.value, ProbeAt(cfg, k, step, outputs), 0, Confirm);
    GateIsSafety(cfg, k, step, outputs);
  }

  /** The promise is kept exactly if there is a channel, no confirmation rule fires, or the call is stopped anyway. */
  lemma {:induction false} ConfirmFailsClosedIff(cfg: Setting, k: nat, step: ChainStep, outputs: map<string, string>)
    ensures ConfirmFailsClosed(cfg, k, step, outputs)
       <==> cfg.world.confirm.Some? || !SomeRule(cfg, k, step, outputs, Confirm)
            || SomeRule(cfg, k, step, outputs, Abort) || !AllowedByConstitution(cfg, step)
  {
    GateIsSafety(cfg, k, step, outputs);
    GateErrorIs(cfg, k, step, outputs);
  }

  function NotConfirming(breakers: seq<Breaker>): seq<Breaker> {
    if breakers == [] then []
    else
      var n := |breakers| - 1;
      var before := NotConfirming(breakers[..n]);
      if breakers[n].action == Confirm then before else before + [breakers[n]]
  }

  /** The same setting with all confirmation rules removed. */
  ghost function WithoutConfirmRules(cfg: Setting): Setting {
    if cfg.rules.None? then cfg
    else cfg.(rules := Some(RuleSet(NotConfirming(cfg.rules.value.breakers), cfg.rules.value.history)))
  }

  lemma {:induction false} AbortsRemain(breakers: seq<Breaker>, history: History, p: Probe)
    ensures var few, all := FiredAmong(NotConfirming(breakers), history, p), FiredAmong(breakers, history, p);
            AbortReasons(few) == AbortReasons(all) && (SomeFired(few, Abort) <==> SomeFired(all, Abort))
  {
    if breakers != [] {
      var n := |breakers| - 1;
      var last := breakers[n];
      AbortsRemain(breakers[..n], history, p);
      assert breakers == breakers[..n] + [last];
      AbortsOfAppend(breakers[..n], last, history, p);
      AbortsOfAppend(NotConfirming(breakers[..n]), last, history, p);
    }
  }

  ghost predicate AbortFires(b: Breaker, history: History, p: Probe) { b.action == Abort && Fires(b, history, p) }

  lemma {:induction false} AbortsOfAppend(breakers: seq<Breaker>, b: Breaker, history: History, p: Probe)
    ensures var few, all := FiredAmong(breakers, history, p), FiredAmong(breakers + [b], history, p);
            && AbortReasons(all) == (if AbortFires(b, history, p) then AbortReasons(few) + [b.reason] else AbortReasons(few))
            && (SomeFired(all, Abort) <==> SomeFired(few, Abort) || AbortFires(b, history, p))
  {
    var few := FiredAmong(breakers, history, p);
    assert (breakers + [b])[..|breakers|] == breakers;
    assert few + [] == few;
    OneMoreFired(few, FiredBreaker(b.id, b.action, b.reason));
  }

  lemma {:induction false} OneMoreFired(fired: seq<FiredBreaker>, f: FiredBreaker)
    ensures AbortReasons(fired + [f]) == if f.action == Abort then AbortReasons(fired) + [f.reason] else AbortReasons(fired)
    ensures SomeFired(fired + [f], Abort) <==> SomeFired(fired, Abort) || f.action == Abort
  {
    ReasonsOfConcat(fired, f);
    SomeFiredAppend(fired, f, Abort);
  }

  /** Without a channel a confirmation rule has no influence on any gate. */
  lemma {:induction false} SameGateWithoutConfirmRules(cfg: Setting, k: nat, step: ChainStep, outputs: map<string, string>)
    requires cfg.world.confirm.None?
    ensures Gate(WithoutConfirmRules(cfg), k, step, outputs) == Gate(cfg, k, step, outputs)
  {
    if cfg.rules.Some? {
      AbortsRemain(cfg.rules.value.breakers, cfg.rules.value.history, ProbeAt(cfg, k, step, outputs));
    }
  }

  lemma {:induction false} SamePathWithoutConfirmRules(cfg: Setting, moves: seq<Move>)
    requires cfg.world.confirm.None?
    ensures Path(WithoutConfirmRules(cfg), moves) <==> Path(cfg, moves)
    ensures Path(cfg, moves) ==> After(WithoutConfirmRules(cfg), moves) == After(cfg, moves)
    decreases |moves|
  {
    if moves != [] {
      var n := |moves| - 1;
      SamePathWithoutConfirmRules(cfg, moves[..n]);
      if Path(cfg, moves[..n]) && After(cfg, moves[..n]).idx < |cfg.chain.steps| {
        var s := After(cfg, moves[..n]);
        SameLegalMoves(cfg, n, s, moves[n]);
      }
    }
  }

  lemma {:induction false} SameLegalMoves(cfg: Setting, k: nat, s: State, m: Move)
    requires cfg.world.confirm.None? && s.idx < |cfg.chain.steps|
    ensures Legal(WithoutConfirmRules(cfg), k, s, m) <==> Legal(cfg, k, s, m)
    ensures Apply(WithoutConfirmRules(cfg), s, m) == Apply(cfg, s, m)
  {
    SameGateWithoutConfirmRules(cfg, k, cfg.chain.steps[s.idx], s.outputs);
  }

  /** So without a channel the confirmation rules might as well not be registered: the same executions are possible. */
  lemma {:induction false} ConfirmRulesDoNothingWithoutChannel(cfg: Setting, moves: seq<Move>, r: Result<ExecutionResult, RunError>)
    requires cfg.world.confirm.None?
    ensures Executes(WithoutConfirmRules(cfg), moves, r) <==> Executes(cfg, moves, r)
  {
    SamePathWithoutConfirmRules(cfg, moves);
    if Path(cfg, moves) && After(cfg, moves).idx < |cfg.chain.steps| {
      var s := After(cfg, moves);
      SameGateWithoutConfirmRules(cfg, |moves|, cfg.chain.steps[s.idx], s.outputs);
      if r.Err? {
        SameFailure(cfg, |moves|, s, r.error);
      }
    }
  }

  lemma {:induction false} SameCall(cfg: Setting, k: nat, step: ChainStep, outputs: map<string, string>,
                                    args: map<string, string>, answer: Result<AbilityResult, string>)
    requires Gate(WithoutConfirmRules(cfg), k, step, outputs) == Gate(cfg, k, step, outputs)
    ensures Invokes(WithoutConfirmRules(cfg), k, step, outputs, args, answer) <==> Invokes(cfg, k, step, outputs, args, answer)
  {
    assert WithoutConfirmRules(cfg).world == cfg.world && WithoutConfirmRules(cfg).params == cfg.params;
  }

  lemma {:induction false} SameFailure(cfg: Setting, k: nat, s: State, e: RunError)
    requires s.idx < |cfg.chain.steps|
    requires Gate(WithoutConfirmRules(cfg), k, cfg.chain.steps[s.idx], s.outputs) == Gate(cfg, k, cfg.chain.steps[s.idx], s.outputs)
    ensures Fails(WithoutConfirmRules(cfg), k, s, e) <==> Fails(cfg, k, s, e)
  {
    var few, step := WithoutConfirmRules(cfg), cfg.chain.steps[s.idx];
    forall args, message
      ensures Invokes(few, k, step, s.outputs, args, Err(message)) <==> Invokes(cfg, k, step, s.outputs, args, Err(message))
      ensures FailureError(few, s, message) == FailureError(cfg, s, message)
    {
      SameCall(cfg, k, step, s.outputs, args, Err(message));
    }
  }

  /** The autonomous loop never has a channel: no confirmation rule ever stops one of its calls. */
  lemma {:induction false} ConfirmRulesNeverStopTheLoop(inputs: Autonomous.Inputs, attempts: seq<Autonomous.Attempt>, i: nat)
    requires Autonomous.AllMade(inputs, attempts) && i < |attempts|
    ensures var a := attempts[i];
            && |a.cfg.chain.steps| == 1
            && (a.outcome.Err? ==> !a.outcome.error.UserDenied?)
            && a.calls == if Autonomous.PlanPermitted(WithoutConfirmRules(a.cfg)) then [Autonomous.PlannedCall(a.cfg)] else []
  {
    var a := attempts[i];
    assert Autonomous.Made(inputs, attempts, i);
    Autonomous.AttemptIs(inputs, attempts, i);
    SameGateWithoutConfirmRules(a.cfg, 0, a.cfg.chain.steps[0], map[]);
    GateIsSafety(a.cfg, 0, a.cfg.chain.steps[0], map[]);
    GateIsSafety(WithoutConfirmRules(a.cfg), 0, a.cfg.chain.steps[0], map[]);
    NeverDeniedWithoutChannel(a.cfg, a.moves, a.outcome);
  }

  lemma {:induction false} NeverDeniedWithoutChannel(cfg: Setting, moves: seq<Move>, r: Result<ExecutionResult, RunError>)
    requires cfg.world.confirm.None? && Executes(cfg, moves, r)
    ensures r.Err? ==> !r.error.UserDenied?
  {
    var s := After(cfg, moves);
    if s.idx < |cfg.chain.steps| {
      GateErrorIs(cfg, |moves|, cfg.chain.steps[s.idx], s.outputs);
    }
  }

  // ---------------------------------------------------------------------------------------
  // "More than count executions within the window"
  // ---------------------------------------------------------------------------------------

  predicate DocumentedFrequency(history: History, chainId: string, now: nat, maxCount: nat, windowSecs: nat) {
    chainId in history && CountFrom(history[chainId], SaturatingSub(now, windowSecs)) > maxCount
  }

  /** Code and book differ exactly when the count is reached and not exceeded; then the code fires. */
  lemma {:induction false} FrequencyDiffersIff(history: History, chainId: string, now: nat, maxCount: nat, windowSecs: nat)
    ensures DocumentedFrequency(history, chainId, now, maxCount, windowSecs) ==> FrequencyFires(history, chainId, now, maxCount, windowSecs)
    ensures (FrequencyFires(history, chainId, now, maxCount, windowSecs) && !DocumentedFrequency(history, chainId, now, maxCount, windowSecs))
       <==> chainId in history && CountFrom(history[chainId], SaturatingSub(now, windowSecs)) == maxCount
  {
  }

  /** `frequency>N` stops the N-th run of a window, which the book allows: the run itself was recorded before. */
  lemma {:induction false} LastAllowedRunIsStopped(log: History, chainId: string, maxCount: nat, now: nat, windowSecs: nat)
    requires 0 < maxCount && (if chainId in log then CountFrom(log[chainId], SaturatingSub(now, windowSecs)) else 0) == maxCount - 1
    ensures var recorded := WithExecution(log, chainId, now);
            FrequencyFires(recorded, chainId, now, maxCount, windowSecs) && !DocumentedFrequency(recorded, chainId, now, maxCount, windowSecs)
  {
    var earlier := if chainId in log then log[chainId] else [];
    CountSplits(earlier, [now], SaturatingSub(now, windowSecs));
  }

  // ---------------------------------------------------------------------------------------
  // "More than 50 runs, with a success rate above 95%"
  // ---------------------------------------------------------------------------------------

  predicate DocumentedEligible(stats: Trust.StepStats) {
    stats.totalRuns > Trust.GRADUATION_MIN_RUNS && stats.SuccessRate() > Trust.GRADUATION_MIN_SUCCESS_RATE
  }

  /** Code and book differ exactly for eligible steps on one of the two limits. */
  lemma {:induction false} EligibilityDiffersIff(s: nat, f: nat)
    ensures var stats := Trust.StepStats(s + f, s, f);
            && (DocumentedEligible(stats) ==> stats.EligibleForGraduation())
            && ((stats.EligibleForGraduation() && !DocumentedEligible(stats))
                <==> (s + f >= 50 && s >= 19 * f && (s + f == 50 || s == 19 * f)))
  {
    Trust.EligibleIff(s, f);
    if s + f > 0 {
      Trust.QuotientAtMost(s as real, (s + f) as real, Trust.GRADUATION_MIN_SUCCESS_RATE);
    }
  }

  /** Fifty flawless runs graduate a step; the book asks for one more. */
  lemma {:induction false} FiftyRunsGraduate()
    ensures Trust.StepStats(50, 50, 0).EligibleForGraduation() && !DocumentedEligible(Trust.StepStats(50, 50, 0))
  {
    EligibilityDiffersIff(50, 0);
  }
}
