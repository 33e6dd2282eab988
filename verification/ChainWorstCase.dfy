/** The bound on loop iterations is exact: for every chain length some chain and environment reach it. */
module ChainWorstCase {
  import opened Prelude
  import opened Template
  import opened ChainDsl
  import opened ChainExecutor
  import opened ChainRuns

  function StepId(i: nat): string { seq(i + 1, _ => 's') }

  /** Number of failing steps: the last half of the chain, jumping to the first half in order. */
  function Jumps(n: nat): nat { (n + 1) / 2 }

  function Period(n: nat): nat { n - Jumps(n) + 2 }

  function WorstStep(n: nat, i: nat): ChainStep {
    ChainStep(StepId(i), "flow.step", map[], None, None,
              if i < n - Jumps(n) then None else Some(StepId(i - (n - Jumps(n)))))
  }

  /** The ability fails once per period, as long as there are jumps left. */
  predicate FailsAt(n: nat, k: nat) {
    Clock(n, k).1 == Period(n) - 1 && Clock(n, k).0 < Jumps(n)
  }

  /** Jumps made before iteration `k`, and iterations since the last one. */
  function Clock(n: nat, k: nat): (c: (nat, nat))
    ensures c.1 < Period(n)
    ensures k + 1 == c.0 * Period(n) + c.1
  {
    if k == 0 then (0, 1)
    else
      var (q, r) := Clock(n, k - 1);
      if r + 1 < Period(n) then (q, r + 1)
      else
        assert (q + 1) * Period(n) == q * Period(n) + Period(n);
        (q + 1, 0)
  }

  function WorstWorld(n: nat): World {
    World(
      (k: nat, ability, args) => if FailsAt(n, k) then Err("failed") else Ok(AbilityResult("", Receipt(""))),
      k => 0, s => None, s => None, None, None)
  }

  function WorstSetting(n: nat): Setting {
    Setting(ChainDef("worst", [], seq(n, (i: nat) => WorstStep(n, i))), map[], WorstWorld(n), "", None)
  }

  lemma {:induction false} WorstTargets(n: nat, i: nat)
    requires i < n
    ensures FindStep(WorstSetting(n).chain.steps, StepId(i)) == Some(i)
  {
    var steps := WorstSetting(n).chain.steps;
    assert steps[i].id == StepId(i);
    var r := FindStep(steps, StepId(i));
    assert r.Some? && |steps[r.value].id| == |StepId(i)|;
  }

  lemma {:induction false} WorstIsWellFormed(n: nat)
    requires n > 0
    ensures WellFormed(WorstSetting(n).chain)
  {
    var steps := WorstSetting(n).chain.steps;
    assert forall i :: 0 <= i < n ==> steps[i] == WorstStep(n, i) && |steps[i].id| == i + 1;
    forall i | 0 <= i < n
      ensures TargetExists(steps, steps[i])
    {
      if steps[i].onFailure.Some? {
        WorstTargets(n, i - (n - Jumps(n)));
      }
    }
  }

  lemma {:induction false} ClockTicks(n: nat, k: nat)
    ensures var c := Clock(n, k);
            Clock(n, k + 1) == if c.1 + 1 < Period(n) then (c.0, c.1 + 1) else (c.0 + 1, 0)
  {
  }

  lemma {:induction false} WorstArgs(n: nat, step: ChainStep, outputs: map<string, string>)
    requires step.args == map[]
    ensures ArgsResolveTo(step.args, WorstSetting(n).params, outputs, map[])
  {
  }

  lemma {:induction false} WorstInvokes(n: nat, k: nat, i: nat, outputs: map<string, string>, answer: Result<AbilityResult, string>)
    requires i < n && answer == if FailsAt(n, k) then Err("failed") else Ok(AbilityResult("", Receipt("")))
    ensures WorstSetting(n).chain.steps[i] == WorstStep(n, i)
    ensures Invokes(WorstSetting(n), k, WorstStep(n, i), outputs, map[], answer)
  {
    WorstArgs(n, WorstStep(n, i), outputs);
  }

  ghost predicate OnSchedule(n: nat, k: nat, s: State) {
    var c := Clock(n, k);
    c.0 <= Jumps(n) && s.idx == c.0 + c.1 - 1 && s.visited == Indices(c.0)
  }

  /** One iteration of the schedule. */
  lemma {:induction false} WorstMove(n: nat, k: nat, s: State) returns (m: Move)
    requires OnSchedule(n, k, s) && s.idx < n
    ensures Legal(WorstSetting(n), k, s, m)
    ensures OnSchedule(n, k + 1, Apply(WorstSetting(n), s, m))
  {
    var c := Clock(n, k);
    ClockTicks(n, k);
    if FailsAt(n, k) {
      WorstTargets(n, c.0);
      WorstInvokes(n, k, s.idx, s.outputs, Err("failed"));
      m := Jump(map[], "failed", c.0);
    } else {
      m := Succeed(map[], AbilityResult("", Receipt("")));
      WorstInvokes(n, k, s.idx, s.outputs, Ok(m.result));
    }
  }

  lemma {:induction false} WorstRun(n: nat, k: nat) returns (moves: seq<Move>)
    requires n > 0 && Clock(n, k).0 <= Jumps(n) && (k > 0 ==> Clock(n, k - 1).0 + Clock(n, k - 1).1 <= n)
    ensures |moves| == k && Path(WorstSetting(n), moves) && OnSchedule(n, k, After(WorstSetting(n), moves))
  {
    moves := [];
    if k > 0 {
      if k > 1 {
        ClockTicks(n, k - 2);
      }
      moves := WorstRun(n, k - 1);
      var s, calls := After(WorstSetting(n), moves), CallsOf(WorstSetting(n), moves);
      var m := WorstMove(n, k - 1, s);
      ExtendPath(WorstSetting(n), moves, s, calls, m);
      moves := moves + [m];
    }
  }

  lemma {:induction false} AtLeastOnce(x: int, d: int)
    requires x >= 1 && d >= 0
    ensures x * d >= d
  {
    assert x * d == (x - 1) * d + d;
  }

  lemma {:induction false} UniqueQuotient(a: nat, b: nat, q: nat, r: nat, d: nat)
    requires a * d + b == q * d + r && b < d && r < d
    ensures a == q && b == r
  {
    assert (a - q) * d == r - b && (q - a) * d == b - r;
    if a > q {
      AtLeastOnce(a - q, d);
    } else if q > a {
      AtLeastOnce(q - a, d);
    }
  }

  lemma {:induction false} ClockAt(n: nat, q: nat, r: nat, k: nat)
    requires r < Period(n) && k + 1 == q * Period(n) + r
    ensures Clock(n, k) == (q, r)
  {
    UniqueQuotient(Clock(n, k).0, Clock(n, k).1, q, r, Period(n));
  }

  lemma {:induction false} WorstLength(n: nat)
    ensures Jumps(n) * Period(n) + Period(n) - 2 == n + (n + 1) * (n + 1) / 4
  {
    var m := Jumps(n);
    assert m * (n - m + 2) + (n - m) == n + m * (n - m + 1);
    if n % 2 == 0 {
      assert n == 2 * m && (n + 1) * (n + 1) == 4 * (m * (m + 1)) + 1;
    } else {
      assert n == 2 * m - 1 && (n + 1) * (n + 1) == 4 * (m * m);
    }
  }

  /** Every chain length has a checked chain and an environment that need the full number of iterations. */
  lemma {:induction false} IterationBoundIsReached(n: nat) returns (cfg: Setting, moves: seq<Move>, result: ExecutionResult)
    requires n > 0
    ensures WellFormed(cfg.chain) && |cfg.chain.steps| == n
    ensures Executes(cfg, moves, Ok(result)) && Iterations(moves, Ok(result)) == n + (n + 1) * (n + 1) / 4
  {
    cfg := WorstSetting(n);
    WorstIsWellFormed(n);
    WorstLength(n);
    var k := n + (n + 1) * (n + 1) / 4;
    ClockAt(n, Jumps(n), Period(n) - 1, k);
    ClockAt(n, Jumps(n), Period(n) - 2, k - 1);
    moves := WorstRun(n, k);
    var s := After(cfg, moves);
    result := ExecutionResult(!s.hadFailure, s.receipts, s.outputs, s.skipped);
  }
}
