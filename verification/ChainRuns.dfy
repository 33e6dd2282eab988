/** What holds of every run of the chain executor, whatever the environment answers. */
module ChainRuns {
  import opened Prelude
  import opened Template
  import opened ChainDsl
  import opened CircuitBreaker
  import opened ChainExecutor

  lemma {:induction false} PrefixIsPath(cfg: Setting, moves: seq<Move>, i: nat)
    requires Path(cfg, moves) && i <= |moves|
    ensures Path(cfg, moves[..i])
  {
    if i == |moves| {
      assert moves[..i] == moves;
    } else {
      var n := |moves| - 1;
      PrefixIsPath(cfg, moves[..n], i);
      assert moves[..n][..i] == moves[..i];
    }
  }

  lemma {:induction false} MoveIsLegal(cfg: Setting, moves: seq<Move>, i: nat)
    requires Path(cfg, moves) && i < |moves|
    ensures Path(cfg, moves[..i]) && Legal(cfg, i, After(cfg, moves[..i]), moves[i])
    ensures Path(cfg, moves[..i + 1]) && After(cfg, moves[..i + 1]) == Apply(cfg, After(cfg, moves[..i]), moves[i])
  {
    PrefixIsPath(cfg, moves, i + 1);
    assert moves[..i + 1][..i] == moves[..i];
  }

  // ---------------------------------------------------------------------------------------
  // How long a run can be
  // ---------------------------------------------------------------------------------------

  /** Number of elements of `s` below `n`. */
  ghost function Count(s: set<nat>, n: nat): nat {
    if n == 0 then 0 else Count(s, n - 1) + if n - 1 in s then 1 else 0
  }

  /** Sum of the elements of `s` below `n`. */
  ghost function Sum(s: set<nat>, n: nat): nat {
    if n == 0 then 0 else Sum(s, n - 1) + if n - 1 in s then n - 1 else 0
  }

  lemma {:induction false} AddElement(s: set<nat>, x: nat, n: nat)
    requires x !in s
    ensures Count(s + {x}, n) == Count(s, n) + if x < n then 1 else 0
    ensures Sum(s + {x}, n) == Sum(s, n) + if x < n then x else 0
  {
    if n > 0 {
      AddElement(s, x, n - 1);
    }
  }

  /** `m` distinct numbers below `n` sum to at least 0 + .. + (m-1) and at most (n-m) + .. + (n-1). */
  ghost predicate SumInRange(m: int, n: int, sum: int) {
    0 <= m <= n && m * (m - 1) <= 2 * sum <= m * (2 * n - m - 1)
  }

  lemma {:induction false} SumInLargerRange(m: int, n: int, sum: int)
    requires SumInRange(m, n, sum)
    ensures SumInRange(m, n + 1, sum) && SumInRange(m + 1, n + 1, sum + n)
  {
    assert (m + 1) * m == m * (m - 1) + 2 * m;
    assert m * (2 * (n + 1) - m - 1) == m * (2 * n - m - 1) + 2 * m;
    assert (m + 1) * (2 * (n + 1) - (m + 1) - 1) == m * (2 * n - m - 1) + m + (2 * n - m);
  }

  lemma {:induction false} SumBounds(s: set<nat>, n: nat)
    ensures SumInRange(Count(s, n), n, Sum(s, n))
  {
    if n > 0 {
      SumBounds(s, n - 1);
      SumInLargerRange(Count(s, n - 1), n - 1, Sum(s, n - 1));
    }
  }

  /** The steps at which a failure made the run jump. */
  ghost function JumpSources(cfg: Setting, moves: seq<Move>): set<nat>
    requires Path(cfg, moves)
    decreases |moves|
  {
    if moves == [] then {}
    else
      var n := |moves| - 1;
      JumpSources(cfg, moves[..n]) + if moves[n].Jump? then {After(cfg, moves[..n]).idx} else {}
  }

  ghost predicate JumpsFrom(cfg: Setting, source: nat, visited: set<nat>) {
    && source < |cfg.chain.steps|
    && var step := cfg.chain.steps[source];
       step.onFailure.Some? && FindStep(cfg.chain.steps, step.onFailure.value).Some?
       && FindStep(cfg.chain.steps, step.onFailure.value).value in visited
  }

  /** The exact length of a run so far; no step makes the run jump twice. */
  lemma {:induction false} RunLength(cfg: Setting, moves: seq<Move>)
    requires Path(cfg, moves)
    ensures var n, s, sources := |cfg.chain.steps|, After(cfg, moves), JumpSources(cfg, moves);
            && s.idx <= n
            && (forall i :: i in s.visited ==> i < n)
            && (forall i :: i in sources ==> JumpsFrom(cfg, i, s.visited))
            && Count(sources, n) == Count(s.visited, n)
            && |moves| == s.idx + Sum(sources, n) + Count(sources, n) - Sum(s.visited, n)
    decreases |moves|
  {
    var n := |cfg.chain.steps|;
    if moves == [] {
      EmptyCounts(n);
    } else {
      var k := |moves| - 1;
      RunLength(cfg, moves[..k]);
      var s, m := After(cfg, moves[..k]), moves[k];
      if m.Jump? {
        AddElement(JumpSources(cfg, moves[..k]), s.idx, n);
        AddElement(s.visited, m.target, n);
      } else {
        assert JumpSources(cfg, moves) == JumpSources(cfg, moves[..k]);
      }
    }
  }

  lemma {:induction false} EmptyCounts(n: nat)
    ensures Count({}, n) == 0 && Sum({}, n) == 0
  {
    if n > 0 {
      EmptyCounts(n - 1);
    }
  }

  /** The best an adversary can do with `m` jumps from distinct sources to distinct targets. */
  lemma {:induction false} LengthBound(n: int, m: int, idx: int, sources: int, targets: int)
    requires SumInRange(m, n, sources) && SumInRange(m, n, targets) && idx <= n
    ensures idx + sources + m - targets <= n + (n + 1) * (n + 1) / 4
  {
    assert m * (2 * n - m - 1) - m * (m - 1) + 2 * m == 2 * (m * (n - m + 1));
    var d := n + 1 - 2 * m;
    assert (n + 1) * (n + 1) - 4 * (m * (n - m + 1)) == d * d;
    assert d * d >= 0;
  }

  ghost function Iterations(moves: seq<Move>, r: Result<ExecutionResult, RunError>): nat {
    |moves| + if r.Err? then 1 else 0
  }

  /** A chain of n steps ends after at most n + (n+1)^2/4 loop iterations. */
  lemma {:induction false} IterationBound(cfg: Setting, moves: seq<Move>, r: Result<ExecutionResult, RunError>)
    requires Executes(cfg, moves, r)
    ensures var n := |cfg.chain.steps|; Iterations(moves, r) <= n + (n + 1) * (n + 1) / 4
  {
    var n, s, sources := |cfg.chain.steps|, After(cfg, moves), JumpSources(cfg, moves);
    RunLength(cfg, moves);
    SumBounds(sources, n);
    SumBounds(s.visited, n);
    var last := if r.Err? then 1 else 0;
    LengthBound(n, Count(sources, n), s.idx + last, Sum(sources, n), Sum(s.visited, n));
  }

  // ---------------------------------------------------------------------------------------
  // Accounting
  // ---------------------------------------------------------------------------------------

  ghost function JumpCount(moves: seq<Move>): nat {
    if moves == [] then 0 else JumpCount(moves[..|moves| - 1]) + if moves[|moves| - 1].Jump? then 1 else 0
  }

  /** Every iteration leaves exactly one receipt, one skipped step or one failure. */
  lemma {:induction false} Accounting(cfg: Setting, moves: seq<Move>)
    requires Path(cfg, moves)
    ensures var s := After(cfg, moves);
            && |s.receipts| + |s.skipped| + JumpCount(moves) == |moves|
            && (s.hadFailure <==> JumpCount(moves) > 0)
            && (JumpCount(moves) == 0 ==> s.idx == |moves|)
    decreases |moves|
  {
    if moves != [] {
      Accounting(cfg, moves[..|moves| - 1]);
    }
  }

  lemma {:induction false} NoJumpBefore(moves: seq<Move>, i: nat)
    requires JumpCount(moves) == 0 && i <= |moves|
    ensures JumpCount(moves[..i]) == 0
  {
    if i == |moves| {
      assert moves[..i] == moves;
    } else {
      NoJumpBefore(moves[..|moves| - 1], i);
      assert moves[..|moves| - 1][..i] == moves[..i];
    }
  }

  /** A successful run visits every step exactly once, in order, and leaves one record for each. */
  lemma {:induction false} SuccessVisitsEveryStepOnce(cfg: Setting, moves: seq<Move>, result: ExecutionResult)
    requires Executes(cfg, moves, Ok(result))
    ensures result.success <==> forall i :: 0 <= i < |moves| ==> !moves[i].Jump?
    ensures result.success ==>
      && |moves| == |cfg.chain.steps| == |result.receipts| + |result.skippedSteps|
      && forall i :: 0 <= i <= |moves| ==> Path(cfg, moves[..i]) && After(cfg, moves[..i]).idx == i
  {
    Accounting(cfg, moves);
    RunLength(cfg, moves);
    JumpCountZero(moves);
    if result.success {
      forall i | 0 <= i <= |moves|
        ensures Path(cfg, moves[..i]) && After(cfg, moves[..i]).idx == i
      {
        PrefixIsPath(cfg, moves, i);
        NoJumpBefore(moves, i);
        Accounting(cfg, moves[..i]);
      }
    }
  }

  lemma {:induction false} JumpCountZero(moves: seq<Move>)
    ensures JumpCount(moves) == 0 <==> forall i :: 0 <= i < |moves| ==> !moves[i].Jump?
  {
    if moves != [] {
      var n := |moves| - 1;
      JumpCountZero(moves[..n]);
      assert forall i :: 0 <= i < n ==> moves[..n][i] == moves[i];
    }
  }

  /** The step that move `i` handles. */
  ghost function StepAt(cfg: Setting, moves: seq<Move>, i: nat): ChainStep
    requires Path(cfg, moves) && i < |moves|
  {
    MoveIsLegal(cfg, moves, i);
    cfg.chain.steps[After(cfg, moves[..i]).idx]
  }

  lemma {:induction false} SameStepInPrefix(cfg: Setting, moves: seq<Move>, n: nat, i: nat)
    requires Path(cfg, moves) && i < n <= |moves|
    ensures Path(cfg, moves[..n]) && StepAt(cfg, moves[..n], i) == StepAt(cfg, moves, i)
  {
    PrefixIsPath(cfg, moves, n);
    assert moves[..n][..i] == moves[..i];
  }

  /** A step is skipped exactly if it has a condition whose relation fails on the outputs of that moment. */
  lemma {:induction false} SkippedIff(cfg: Setting, moves: seq<Move>, i: nat)
    requires Path(cfg, moves) && i < |moves|
    ensures Path(cfg, moves[..i])
    ensures var c, outputs := StepAt(cfg, moves, i).condition, After(cfg, moves[..i]).outputs;
            moves[i].Skip? <==> c.Some? && !Related(c.value.op, OutputAt(outputs, c.value.refKey), c.value.value, cfg.world.parse)
  {
    MoveIsLegal(cfg, moves, i);
    var c := StepAt(cfg, moves, i).condition;
    if c.Some? {
      ConditionIsRelation(c.value, After(cfg, moves[..i]).outputs, cfg.world.parse);
    }
  }

  /** In particular a numeric condition runs its step exactly if the numbers compare so. */
  lemma {:induction false} NumericStepRunsIff(cfg: Setting, moves: seq<Move>, i: nat, a: real, b: real)
    requires Path(cfg, moves) && i < |moves| && Path(cfg, moves[..i]) && StepAt(cfg, moves, i).condition.Some?
    requires var c, outputs := StepAt(cfg, moves, i).condition.value, After(cfg, moves[..i]).outputs;
             c.refKey in outputs && cfg.world.parse(outputs[c.refKey]) == Some(Finite(a)) && cfg.world.parse(c.value) == Some(Finite(b))
    ensures var op := StepAt(cfg, moves, i).condition.value.op;
            (op.GreaterThan? ==> (!moves[i].Skip? <==> a > b)) && (op.LessThan? ==> (!moves[i].Skip? <==> a < b))
  {
    MoveIsLegal(cfg, moves, i);
    NumericConditions(StepAt(cfg, moves, i).condition.value, After(cfg, moves[..i]).outputs, cfg.world.parse, a, b);
  }

  /** How many of the moves are skips (or else successes). */
  ghost function CountOf(moves: seq<Move>, skips: bool): nat {
    if moves == [] then 0
    else
      var last := moves[|moves| - 1];
      CountOf(moves[..|moves| - 1], skips) + if (skips && last.Skip?) || (!skips && last.Succeed?) then 1 else 0
  }

  lemma {:induction false} RecordCounts(cfg: Setting, moves: seq<Move>)
    requires Path(cfg, moves)
    ensures var s := After(cfg, moves); |s.receipts| == CountOf(moves, false) && |s.skipped| == CountOf(moves, true)
    decreases |moves|
  {
    if moves != [] {
      RecordCounts(cfg, moves[..|moves| - 1]);
    }
  }

  /** The k-th receipt is that of the k-th successful call, the k-th skipped id that of the k-th skipped step. */
  lemma {:induction false} RecordsAreInOrder(cfg: Setting, moves: seq<Move>, i: nat)
    requires Path(cfg, moves) && i < |moves|
    ensures var s, k := After(cfg, moves), CountOf(moves[..i], false);
            moves[i].Succeed? ==> k < |s.receipts| && s.receipts[k] == moves[i].result.receipt
    ensures var s, k := After(cfg, moves), CountOf(moves[..i], true);
            moves[i].Skip? ==> k < |s.skipped| && s.skipped[k] == StepAt(cfg, moves, i).id
    decreases |moves|
  {
    var n := |moves| - 1;
    if i < n {
      RecordsAreInOrder(cfg, moves[..n], i);
      SameStepInPrefix(cfg, moves, n, i);
      assert moves[..n][..i] == moves[..i];
    } else {
      RecordCounts(cfg, moves[..n]);
    }
  }

  /** The key and the value that a move stores. */
  ghost function Written(world: World, step: ChainStep, m: Move): Option<(string, string)> {
    match m
    case Skip => None
    case Succeed(_, result) =>
      if step.outputKey.Some? then Some((step.outputKey.value, StoredOutput(world, result.output))) else None
    case Jump(_, message, _) => Some((step.id + "_error", ErrorText(message)))
  }

  /** What each move of a run stores. */
  ghost function WritesOf(cfg: Setting, moves: seq<Move>): seq<Option<(string, string)>>
    requires Path(cfg, moves)
    decreases |moves|
  {
    if moves == [] then []
    else
      var n := |moves| - 1;
      WritesOf(cfg, moves[..n]) + [Written(cfg.world, cfg.chain.steps[After(cfg, moves[..n]).idx], moves[n])]
  }

  ghost predicate WritesKey(writes: seq<Option<(string, string)>>, i: nat, key: string) {
    i < |writes| && writes[i].Some? && writes[i].value.0 == key
  }

  /** The map holds exactly the keys written, each with the value of its last write. */
  ghost predicate HoldsLastWrites(outputs: map<string, string>, writes: seq<Option<(string, string)>>, key: string) {
    && (key in outputs <==> exists i: nat :: WritesKey(writes, i, key))
    && forall i: nat :: WritesKey(writes, i, key) && (forall j: nat :: i < j ==> !WritesKey(writes, j, key)) ==>
         key in outputs && outputs[key] == writes[i].value.1
  }

  lemma {:induction false} OneMoreWrite(outputs: map<string, string>, writes: seq<Option<(string, string)>>, w: Option<(string, string)>, key: string)
    requires HoldsLastWrites(outputs, writes, key)
    ensures HoldsLastWrites(if w.Some? then outputs[w.value.0 := w.value.1] else outputs, writes + [w], key)
  {
    var all := writes + [w];
    assert forall i: nat :: i < |writes| ==> WritesKey(all, i, key) == WritesKey(writes, i, key);
    assert WritesKey(all, |writes|, key) <==> w.Some? && w.value.0 == key;
  }

  lemma {:induction false} MoveWrites(cfg: Setting, s: State, m: Move)
    requires s.idx < |cfg.chain.steps|
    ensures var w := Written(cfg.world, cfg.chain.steps[s.idx], m);
            Apply(cfg, s, m).outputs == if w.Some? then s.outputs[w.value.0 := w.value.1] else s.outputs
  {
  }

  /** An output is there iff a call stored it or a failure left its error, and the last writer's value stands. */
  lemma {:induction false} OutputsAreLastWrites(cfg: Setting, moves: seq<Move>, key: string)
    requires Path(cfg, moves)
    ensures HoldsLastWrites(After(cfg, moves).outputs, WritesOf(cfg, moves), key)
    decreases |moves|
  {
    if moves != [] {
      var n := |moves| - 1;
      var s := After(cfg, moves[..n]);
      OutputsAreLastWrites(cfg, moves[..n], key);
      MoveWrites(cfg, s, moves[n]);
      OneMoreWrite(s.outputs, WritesOf(cfg, moves[..n]), Written(cfg.world, cfg.chain.steps[s.idx], moves[n]), key);
    }
  }

  // ---------------------------------------------------------------------------------------
  // The cycle guard
  // ---------------------------------------------------------------------------------------

  ghost predicate JumpsTo(moves: seq<Move>, i: nat, target: nat) {
    i < |moves| && moves[i].Jump? && moves[i].target == target
  }

  ghost predicate JumpedBefore(moves: seq<Move>, target: Option<nat>) {
    target.Some? && exists i: nat :: JumpsTo(moves, i, target.value)
  }

  lemma {:induction false} VisitedAreTargets(cfg: Setting, moves: seq<Move>, x: nat)
    requires Path(cfg, moves)
    ensures x in After(cfg, moves).visited <==> exists i: nat :: JumpsTo(moves, i, x)
    decreases |moves|
  {
    if moves != [] {
      var n := |moves| - 1;
      VisitedAreTargets(cfg, moves[..n], x);
      assert forall i: nat :: i < n ==> JumpsTo(moves[..n], i, x) == JumpsTo(moves, i, x);
      assert JumpsTo(moves, n, x) <==> moves[n].Jump? && moves[n].target == x;
    }
  }

  /** No run jumps to the same step twice: it ends with the cycle error exactly when it would. */
  lemma {:induction false} CycleErrorIffSecondJump(cfg: Setting, moves: seq<Move>, message: string, args: map<string, string>)
    requires Path(cfg, moves) && After(cfg, moves).idx < |cfg.chain.steps|
    requires var s := After(cfg, moves); Invokes(cfg, |moves|, cfg.chain.steps[s.idx], s.outputs, args, Err(message))
    ensures forall i: nat, j: nat, x :: i < j && JumpsTo(moves, i, x) ==> !JumpsTo(moves, j, x)
    ensures var step := cfg.chain.steps[After(cfg, moves).idx];
            ((exists target :: Executes(cfg, moves, Err(FailureCycle(step.id, target))))
             <==> (step.onFailure.Some? && JumpedBefore(moves, FindStep(cfg.chain.steps, step.onFailure.value))))
  {
    forall i: nat, j: nat, x | i < j && JumpsTo(moves, i, x)
      ensures !JumpsTo(moves, j, x)
    {
      if JumpsTo(moves, j, x) {
        MoveIsLegal(cfg, moves, j);
        VisitedAreTargets(cfg, moves[..j], x);
        assert JumpsTo(moves[..j], i, x);
        assert false;
      }
    }
    var s := After(cfg, moves);
    var step := cfg.chain.steps[s.idx];
    if step.onFailure.Some? && FindStep(cfg.chain.steps, step.onFailure.value).Some? {
      var x := FindStep(cfg.chain.steps, step.onFailure.value).value;
      VisitedAreTargets(cfg, moves, x);
      if x in s.visited {
        assert Executes(cfg, moves, Err(FailureCycle(step.id, step.onFailure.value)));
      }
    }
  }

  /** In a chain that passes `check`, a failed step ends the run only if it names no failure target or a cycle closes. */
  lemma {:induction false} CheckedChainFindsTargets(cfg: Setting, moves: seq<Move>, step: string, message: string)
    requires WellFormed(cfg.chain) && Executes(cfg, moves, Err(StepFailed(step, message)))
    ensures var s := After(cfg, moves);
            s.idx < |cfg.chain.steps| && cfg.chain.steps[s.idx].id == step && cfg.chain.steps[s.idx].onFailure.None?
  {
    var s := After(cfg, moves);
    assert TargetExists(cfg.chain.steps, cfg.chain.steps[s.idx]);
  }

  // ---------------------------------------------------------------------------------------
  // Gates
  // ---------------------------------------------------------------------------------------

  ghost predicate AllowedByConstitution(cfg: Setting, step: ChainStep) {
    cfg.world.constitution.Some? ==> cfg.world.constitution.value(step.ability).allowed
  }

  ghost predicate RuleFiresAt(rules: RuleSet, p: Probe, i: nat, action: BreakerAction) {
    i < |rules.breakers| && rules.breakers[i].action == action && Fires(rules.breakers[i], rules.history, p)
  }

  /** The user approves the request of the first confirmation rule that fires. */
  ghost predicate UserApproved(cfg: Setting, k: nat, step: ChainStep, rules: RuleSet, p: Probe)
    requires cfg.world.confirm.Some?
  {
    exists i: nat ::
      && RuleFiresAt(rules, p, i, Confirm)
      && (forall j: nat :: j < i ==> !RuleFiresAt(rules, p, j, Confirm))
      && Approved(cfg.world.confirm.value(k, ConfirmationRequest(cfg.agent, step.ability, rules.breakers[i].reason, rules.breakers[i].id)))
  }

  /** An ability call that every safety rule permits. */
  ghost predicate SafeCall(cfg: Setting, k: nat, step: ChainStep, outputs: map<string, string>) {
    && AllowedByConstitution(cfg, step)
    && (cfg.rules.Some? ==>
          var rules, p := cfg.rules.value, ProbeAt(cfg, k, step, outputs);
          && (forall i: nat :: !RuleFiresAt(rules, p, i, Abort))
          && (cfg.world.confirm.Some? && (exists i: nat :: RuleFiresAt(rules, p, i, Confirm)) ==> UserApproved(cfg, k, step, rules, p)))
  }

  lemma {:induction false} FirstConfirmOfConcat(a: seq<FiredBreaker>, b: seq<FiredBreaker>)
    ensures FirstConfirm(a + b) == if FirstConfirm(a).Some? then FirstConfirm(a) else FirstConfirm(b)
  {
    if a == [] {
      assert a + b == b;
    } else {
      FirstConfirmOfConcat(a[1..], b);
      assert (a + b)[1..] == a[1..] + b;
    }
  }

  /** The first fired confirmation comes from the first confirmation rule that fires. */
  lemma {:induction false} FirstConfirmRule(breakers: seq<Breaker>, history: History, p: Probe) returns (i: nat)
    requires FirstConfirm(FiredAmong(breakers, history, p)).Some?
    ensures var rules := RuleSet(breakers, history);
            && RuleFiresAt(rules, p, i, Confirm) && (forall j: nat :: j < i ==> !RuleFiresAt(rules, p, j, Confirm))
            && FirstConfirm(FiredAmong(breakers, history, p)) == Some(FiredBreaker(breakers[i].id, Confirm, breakers[i].reason))
  {
    var n := |breakers| - 1;
    var init := breakers[..n];
    FirstConfirmOfConcat(FiredAmong(init, history, p),
      if Fires(breakers[n], history, p) then [FiredBreaker(breakers[n].id, breakers[n].action, breakers[n].reason)] else []);
    var rules, prefix := RuleSet(breakers, history), RuleSet(init, history);
    assert forall j: nat :: j < n ==> RuleFiresAt(rules, p, j, Confirm) == RuleFiresAt(prefix, p, j, Confirm);
    if FirstConfirm(FiredAmong(init, history, p)).Some? {
      i := FirstConfirmRule(init, history, p);
    } else {
      i := n;
      FiredIffRuleFires(init, history, p, Confirm);
    }
  }

  /** The gates let a step through exactly when every safety rule permits the call. */
  lemma {:induction false} GateIsSafety(cfg: Setting, k: nat, step: ChainStep, outputs: map<string, string>)
    ensures Gate(cfg, k, step, outputs).None? <==> SafeCall(cfg, k, step, outputs)
  {
    if cfg.rules.Some? {
      var rules, p := cfg.rules.value, ProbeAt(cfg, k, step, outputs);
      RuleFiringsAre(rules, p, Abort);
      RuleFiringsAre(rules, p, Confirm);
      var fired := FiredAmong(rules.breakers, rules.history, p);
      if SomeFired(fired, Confirm) && cfg.world.confirm.Some? {
        var i := FirstConfirmRule(rules.breakers, rules.history, p);
        if UserApproved(cfg, k, step, rules, p) {
          var j: nat :| RuleFiresAt(rules, p, j, Confirm) && (forall l: nat :: l < j ==> !RuleFiresAt(rules, p, l, Confirm))
            && Approved(cfg.world.confirm.value(k, ConfirmationRequest(cfg.agent, step.ability, rules.breakers[j].reason, rules.breakers[j].id)));
          assert i == j;
        }
      }
    }
  }

  lemma {:induction false} RuleFiringsAre(rules: RuleSet, p: Probe, action: BreakerAction)
    ensures SomeFired(FiredAmong(rules.breakers, rules.history, p), action) <==> exists i: nat :: RuleFiresAt(rules, p, i, action)
  {
    FiredIffRuleFires(rules.breakers, rules.history, p, action);
    if SomeRuleFires(rules.breakers, rules.history, p, action) {
      var i :| 0 <= i < |rules.breakers| && rules.breakers[i].action == action && Fires(rules.breakers[i], rules.history, p);
      assert RuleFiresAt(rules, p, i, action);
    }
  }

  /** A confirmation that was refused or not given blocks the call, whatever else the rules say. */
  lemma {:induction false} OnlyApprovalOpens(cfg: Setting, k: nat, step: ChainStep, outputs: map<string, string>, i: nat)
    requires cfg.rules.Some? && cfg.world.confirm.Some? && Gate(cfg, k, step, outputs).None?
    requires var rules, p := cfg.rules.value, ProbeAt(cfg, k, step, outputs);
             RuleFiresAt(rules, p, i, Confirm) && forall j: nat :: j < i ==> !RuleFiresAt(rules, p, j, Confirm)
    ensures var b := cfg.rules.value.breakers[i];
            cfg.world.confirm.value(k, ConfirmationRequest(cfg.agent, step.ability, b.reason, b.id))
              in {Some(AllowOnce), Some(AllowSession), Some(AllowAlwaysAgent)}
  {
    GateIsSafety(cfg, k, step, outputs);
    var rules, p := cfg.rules.value, ProbeAt(cfg, k, step, outputs);
    var j: nat :| RuleFiresAt(rules, p, j, Confirm) && (forall l: nat :: l < j ==> !RuleFiresAt(rules, p, l, Confirm))
      && Approved(cfg.world.confirm.value(k, ConfirmationRequest(cfg.agent, step.ability, rules.breakers[j].reason, rules.breakers[j].id)));
    assert i == j;
  }

  ghost predicate SomeRule(cfg: Setting, k: nat, step: ChainStep, outputs: map<string, string>, action: BreakerAction) {
    cfg.rules.Some? && exists i: nat :: RuleFiresAt(cfg.rules.value, ProbeAt(cfg, k, step, outputs), i, action)
  }

  /** Which gate closes: the constitution first, then abort rules, then a confirmation that was asked for and not given. */
  lemma {:induction false} GateErrorIs(cfg: Setting, k: nat, step: ChainStep, outputs: map<string, string>)
    ensures var g, allowed, abort := Gate(cfg, k, step, outputs), AllowedByConstitution(cfg, step), SomeRule(cfg, k, step, outputs, Abort);
            && ((g.Some? && g.value.ConstitutionBlocked?) <==> !allowed)
            && ((g.Some? && g.value.BreakerHalted?) <==> (allowed && abort))
            && ((g.Some? && g.value.UserDenied?) <==>
                (allowed && !abort && cfg.world.confirm.Some? && SomeRule(cfg, k, step, outputs, Confirm)
                 && !UserApproved(cfg, k, step, cfg.rules.value, ProbeAt(cfg, k, step, outputs))))
            && (g.Some? ==> (g.value.ConstitutionBlocked? || g.value.BreakerHalted? || g.value.UserDenied?) && g.value.step == step.id)
  {
    GateIsSafety(cfg, k, step, outputs);
    if cfg.rules.Some? {
      RuleFiringsAre(cfg.rules.value, ProbeAt(cfg, k, step, outputs), Abort);
      RuleFiringsAre(cfg.rules.value, ProbeAt(cfg, k, step, outputs), Confirm);
    }
  }

  lemma {:induction false} ReasonsOfConcat(a: seq<FiredBreaker>, f: FiredBreaker)
    ensures AbortReasons(a + [f]) == if f.action == Abort then AbortReasons(a) + [f.reason] else AbortReasons(a)
  {
    if a == [] {
      assert a + [f] == [f];
    } else {
      ReasonsOfConcat(a[1..], f);
      assert (a + [f])[1..] == a[1..] + [f];
      if f.action == Abort {
        Regroup(if a[0].action == Abort then [a[0].reason] else [], AbortReasons(a[1..]), [f.reason]);
      }
    }
  }

  /** The indices of the abort rules that fire, in registration order. */
  ghost predicate AreFiringAborts(indices: seq<nat>, rules: RuleSet, p: Probe) {
    && (forall a, b :: 0 <= a < b < |indices| ==> indices[a] < indices[b])
    && (forall i: nat :: i in indices <==> RuleFiresAt(rules, p, i, Abort))
  }

  ghost predicate AreReasonsOf(reasons: seq<string>, indices: seq<nat>, breakers: seq<Breaker>) {
    && |reasons| == |indices|
    && forall k :: 0 <= k < |indices| ==> indices[k] < |breakers| && reasons[k] == breakers[indices[k]].reason
  }

  lemma {:induction false} OneMoreReason(reasons: seq<string>, indices: seq<nat>, breakers: seq<Breaker>)
    requires breakers != [] && AreReasonsOf(reasons, indices, breakers[..|breakers| - 1])
    ensures AreReasonsOf(reasons, indices, breakers)
    ensures AreReasonsOf(reasons + [breakers[|breakers| - 1].reason], indices + [|breakers| - 1], breakers)
  {
  }

  /** The reasons reported with a halt are those of the firing abort rules, in registration order, with repeats. */
  lemma {:induction false} HaltReasonsAre(breakers: seq<Breaker>, history: History, p: Probe) returns (indices: seq<nat>)
    ensures AreFiringAborts(indices, RuleSet(breakers, history), p)
    ensures AreReasonsOf(AbortReasons(FiredAmong(breakers, history, p)), indices, breakers)
  {
    indices := [];
    if breakers != [] {
      var n := |breakers| - 1;
      var init, last := breakers[..n], breakers[n];
      var few := HaltReasonsAre(init, history, p);
      indices := if last.action == Abort && Fires(last, history, p) then few + [n] else few;
      ReasonsOfConcat(FiredAmong(init, history, p), FiredBreaker(last.id, last.action, last.reason));
      assert FiredAmong(init, history, p) + [] == FiredAmong(init, history, p);
      OneMoreRule(breakers, history, p, few);
      OneMoreReason(AbortReasons(FiredAmong(init, history, p)), few, breakers);
    }
  }

  lemma {:induction false} OneMoreRule(breakers: seq<Breaker>, history: History, p: Probe, few: seq<nat>)
    requires breakers != [] && AreFiringAborts(few, RuleSet(breakers[..|breakers| - 1], history), p)
    ensures var n := |breakers| - 1;
            AreFiringAborts(if breakers[n].action == Abort && Fires(breakers[n], history, p) then few + [n] else few, RuleSet(breakers, history), p)
  {
    var n := |breakers| - 1;
    var all, init := RuleSet(breakers, history), RuleSet(breakers[..n], history);
    assert forall i: nat :: i < n ==> RuleFiresAt(all, p, i, Abort) == RuleFiresAt(init, p, i, Abort);
    assert RuleFiresAt(all, p, n, Abort) <==> breakers[n].action == Abort && Fires(breakers[n], history, p);
    forall a | 0 <= a < |few|
      ensures few[a] < n
    {
      assert few[a] in few && RuleFiresAt(init, p, few[a], Abort);
    }
  }

  /** Every move that calls an ability is permitted by every safety rule on the outputs of that moment. */
  lemma {:induction false} MoveCallIsSafe(cfg: Setting, moves: seq<Move>, i: nat)
    requires Path(cfg, moves) && i < |moves| && !moves[i].Skip?
    ensures Path(cfg, moves[..i])
    ensures var s := After(cfg, moves[..i]);
            s.idx < |cfg.chain.steps| && SafeCall(cfg, i, cfg.chain.steps[s.idx], s.outputs)
  {
    MoveIsLegal(cfg, moves, i);
    var s := After(cfg, moves[..i]);
    GateIsSafety(cfg, i, cfg.chain.steps[s.idx], s.outputs);
  }

  /** A run that ends because a step failed made its last call safely too. */
  lemma {:induction false} FailingCallIsSafe(cfg: Setting, moves: seq<Move>, e: RunError)
    requires Executes(cfg, moves, Err(e)) && (e.StepFailed? || e.FailureCycle?)
    ensures var s := After(cfg, moves);
            s.idx < |cfg.chain.steps| && SafeCall(cfg, |moves|, cfg.chain.steps[s.idx], s.outputs)
  {
    var s := After(cfg, moves);
    GateIsSafety(cfg, |moves|, cfg.chain.steps[s.idx], s.outputs);
  }

  ghost function WithMoreRules(cfg: Setting, extra: seq<Breaker>): Setting
    requires cfg.rules.Some?
  {
    cfg.(rules := Some(RuleSet(cfg.rules.value.breakers + extra, cfg.rules.value.history)))
  }

  lemma {:induction false} MoreRulesStopMore(cfg: Setting, extra: seq<Breaker>, k: nat, step: ChainStep, outputs: map<string, string>)
    requires cfg.rules.Some? && Gate(WithMoreRules(cfg, extra), k, step, outputs).None?
    ensures Gate(cfg, k, step, outputs).None?
  {
    var more := WithMoreRules(cfg, extra);
    var p := ProbeAt(cfg, k, step, outputs);
    var breakers, history := cfg.rules.value.breakers, cfg.rules.value.history;
    FiredGrows(breakers, extra, history, p);
    var few, many := FiredAmong(breakers, history, p), FiredAmong(breakers + extra, history, p);
    assert many == few + many[|few|..];
    FirstConfirmOfConcat(few, many[|few|..]);
    assert forall i :: 0 <= i < |few| ==> many[i] == few[i];
  }

  /** Registering more breakers only removes runs: what happens under more rules could happen under fewer. */
  lemma {:induction false} MoreRulesOnlyRestrict(cfg: Setting, extra: seq<Breaker>, moves: seq<Move>)
    requires cfg.rules.Some? && Path(WithMoreRules(cfg, extra), moves)
    ensures Path(cfg, moves) && After(cfg, moves) == After(WithMoreRules(cfg, extra), moves)
    decreases |moves|
  {
    if moves != [] {
      var n := |moves| - 1;
      MoreRulesOnlyRestrict(cfg, extra, moves[..n]);
      var s := After(cfg, moves[..n]);
      if !moves[n].Skip? {
        MoreRulesStopMore(cfg, extra, n, cfg.chain.steps[s.idx], s.outputs);
      }
    }
  }

  lemma {:induction false} CompletedRunsSurviveFewerRules(cfg: Setting, extra: seq<Breaker>, moves: seq<Move>, result: ExecutionResult)
    requires cfg.rules.Some? && Executes(WithMoreRules(cfg, extra), moves, Ok(result))
    ensures Executes(cfg, moves, Ok(result))
  {
    MoreRulesOnlyRestrict(cfg, extra, moves);
  }

  /** An abort threshold rule that covers the chain; outputs start empty, and a missing key fires. */
  ghost predicate HasAbortThreshold(cfg: Setting, i: nat) {
    && cfg.rules.Some? && i < |cfg.rules.value.breakers|
    && var b := cfg.rules.value.breakers[i];
       b.action == Abort && b.condition.ThresholdExceeded? && Applies(b, cfg.chain.id)
  }

  /** Under such a rule no ability is ever called: every run only skips steps, and does not fail in a step. */
  lemma {:induction false} AbortThresholdBlocksEverything(cfg: Setting, i: nat, moves: seq<Move>)
    requires HasAbortThreshold(cfg, i) && Path(cfg, moves)
    ensures After(cfg, moves).outputs == map[] && After(cfg, moves).receipts == []
    ensures forall j :: 0 <= j < |moves| ==> moves[j].Skip?
    ensures forall e :: Executes(cfg, moves, Err(e)) ==> e.ConstitutionBlocked? || e.BreakerHalted?
    decreases |moves|
  {
    if moves != [] {
      var n := |moves| - 1;
      AbortThresholdBlocksEverything(cfg, i, moves[..n]);
      assert forall j :: 0 <= j < n ==> moves[j] == moves[..n][j];
      if After(cfg, moves[..n]).idx < |cfg.chain.steps| {
        GateClosed(cfg, i, n, cfg.chain.steps[After(cfg, moves[..n]).idx]);
      }
    }
    var s := After(cfg, moves);
    if s.idx < |cfg.chain.steps| {
      GateClosed(cfg, i, |moves|, cfg.chain.steps[s.idx]);
    }
  }

  lemma {:induction false} GateClosed(cfg: Setting, i: nat, k: nat, step: ChainStep)
    requires HasAbortThreshold(cfg, i)
    ensures var g := Gate(cfg, k, step, map[]);
            g.Some? && (g.value.ConstitutionBlocked? || g.value.BreakerHalted?)
  {
    var rules, p := cfg.rules.value, ProbeAt(cfg, k, step, map[]);
    assert RuleFiresAt(rules, p, i, Abort);
    RuleFiringsAre(rules, p, Abort);
  }

  // ---------------------------------------------------------------------------------------
  // Determinism
  // ---------------------------------------------------------------------------------------

  /** No template of the chain can depend on the iteration order of a hash map. */
  ghost predicate FlatChain(cfg: Setting) {
    && BraceFreeKeys(cfg.params)
    && forall i :: 0 <= i < |cfg.chain.steps| ==>
         var step := cfg.chain.steps[i];
         && BraceFree(step.id)
         && (step.outputKey.Some? ==> BraceFree(step.outputKey.value))
         && forall k :: k in step.args ==> Flat(step.args[k])
  }

  lemma {:induction false} OutputKeysStayBraceFree(cfg: Setting, moves: seq<Move>)
    requires FlatChain(cfg) && Path(cfg, moves)
    ensures BraceFreeKeys(After(cfg, moves).outputs)
    decreases |moves|
  {
    if moves != [] {
      OutputKeysStayBraceFree(cfg, moves[..|moves| - 1]);
    }
  }

  lemma {:induction false} SameArguments(cfg: Setting, s: State, a: map<string, string>, b: map<string, string>)
    requires FlatChain(cfg) && s.idx < |cfg.chain.steps| && BraceFreeKeys(s.outputs)
    requires ArgsResolveTo(cfg.chain.steps[s.idx].args, cfg.params, s.outputs, a)
    requires ArgsResolveTo(cfg.chain.steps[s.idx].args, cfg.params, s.outputs, b)
    ensures a == b
  {
    FlatArgsResolveUniquely(cfg.chain.steps[s.idx].args, cfg.params, s.outputs, a);
    FlatArgsResolveUniquely(cfg.chain.steps[s.idx].args, cfg.params, s.outputs, b);
  }

  lemma {:induction false} OneLegalMove(cfg: Setting, k: nat, s: State, m: Move, m': Move)
    requires FlatChain(cfg) && BraceFreeKeys(s.outputs)
    requires Legal(cfg, k, s, m) && Legal(cfg, k, s, m')
    ensures m == m'
  {
    if !m.Skip? && !m'.Skip? {
      SameArguments(cfg, s, m.args, m'.args);
    }
  }

  lemma {:induction false} MoveOrFail(cfg: Setting, k: nat, s: State, m: Move, e: RunError)
    requires FlatChain(cfg) && BraceFreeKeys(s.outputs)
    ensures !(Legal(cfg, k, s, m) && Fails(cfg, k, s, e))
  {
    if Legal(cfg, k, s, m) && Fails(cfg, k, s, e) {
      var step := cfg.chain.steps[s.idx];
      var args, message :| Invokes(cfg, k, step, s.outputs, args, Err(message)) && FailureError(cfg, s, message) == Some(e);
      SameArguments(cfg, s, args, m.args);
      assert false;
    }
  }

  lemma {:induction false} OneFailure(cfg: Setting, k: nat, s: State, e: RunError, e': RunError)
    requires FlatChain(cfg) && BraceFreeKeys(s.outputs)
    requires Fails(cfg, k, s, e) && Fails(cfg, k, s, e')
    ensures e == e'
  {
    var step := cfg.chain.steps[s.idx];
    if Gate(cfg, k, step, s.outputs).None? {
      var a, msg :| Invokes(cfg, k, step, s.outputs, a, Err(msg)) && FailureError(cfg, s, msg) == Some(e);
      var a', msg' :| Invokes(cfg, k, step, s.outputs, a', Err(msg')) && FailureError(cfg, s, msg') == Some(e');
      SameArguments(cfg, s, a, a');
    }
  }

  lemma {:induction false} SameNextMove(cfg: Setting, a: seq<Move>, b: seq<Move>, i: nat)
    requires FlatChain(cfg) && Path(cfg, a) && Path(cfg, b) && i < |a| && i < |b| && a[..i] == b[..i]
    ensures a[i] == b[i]
  {
    MoveIsLegal(cfg, a, i);
    MoveIsLegal(cfg, b, i);
    OutputKeysStayBraceFree(cfg, a[..i]);
    OneLegalMove(cfg, i, After(cfg, a[..i]), a[i], b[i]);
  }

  lemma {:induction false} CommonPrefix(cfg: Setting, a: seq<Move>, b: seq<Move>, i: nat)
    requires FlatChain(cfg) && Path(cfg, a) && Path(cfg, b) && i <= |a| && i <= |b|
    ensures a[..i] == b[..i]
  {
    if i > 0 {
      CommonPrefix(cfg, a, b, i - 1);
      SameNextMove(cfg, a, b, i - 1);
      LongerPrefix(a, b, i - 1);
    }
  }

  lemma {:induction false} CannotOutrun(cfg: Setting, a: seq<Move>, r: Result<ExecutionResult, RunError>, b: seq<Move>)
    requires FlatChain(cfg) && Executes(cfg, a, r) && Path(cfg, b)
    ensures |b| <= |a|
  {
    if |b| > |a| {
      CommonPrefix(cfg, a, b, |a|);
      assert a[..|a|] == a;
      MoveIsLegal(cfg, b, |a|);
      OutputKeysStayBraceFree(cfg, a);
      if r.Err? {
        MoveOrFail(cfg, |a|, After(cfg, a), b[|a|], r.error);
      }
      assert false;
    }
  }

  /** For a flat chain the whole run is determined by the environment: hash map order has no influence. */
  lemma {:induction false} FlatChainRunsDeterministically(cfg: Setting, a: seq<Move>, r: Result<ExecutionResult, RunError>,
                                       b: seq<Move>, r': Result<ExecutionResult, RunError>)
    requires FlatChain(cfg) && Executes(cfg, a, r) && Executes(cfg, b, r')
    ensures a == b && r == r'
  {
    CannotOutrun(cfg, a, r, b);
    CannotOutrun(cfg, b, r', a);
    CommonPrefix(cfg, a, b, |a|);
    assert a[..|a|] == a && b[..|b|] == b;
    OutputKeysStayBraceFree(cfg, a);
    if r.Err? && r'.Err? {
      OneFailure(cfg, |a|, After(cfg, a), r.error, r'.error);
    }
  }

  /** An output is stored as it is unless it begins with a brace and is a JSON object with a text. */
  lemma {:induction false} StoredTextIs(world: World, output: string)
    ensures StoredOutput(world, output) == output
         || (output != "" && output[0] == '{' && world.jsonText(output) == Some(StoredOutput(world, output)))
    ensures output != "" && output[0] == '{' && world.jsonText(output).Some? ==> world.jsonText(output) == Some(StoredOutput(world, output))
  {
  }
}
