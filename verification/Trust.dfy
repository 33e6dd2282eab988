/** Progressive trust (src/chain/trust.rs): step statistics and the assessment of a chain. */
module Trust {
  import opened Prelude
  import opened Strings

  const GRADUATION_MIN_RUNS: nat := 50
  const GRADUATION_MIN_SUCCESS_RATE: real := 0.95

  const PINNED_ABILITIES: seq<string> :=
    ["trading.execute", "trading.sell", "trading.buy", "payment.send", "payment.transfer", "email.send"]

  datatype TrustLevel = Supervised | Graduated | Autonomous

  datatype TrustAssessment = TrustAssessment(level: TrustLevel, requiresVerification: bool, stepsRequiringVerification: seq<string>)

  datatype StepStats = StepStats(totalRuns: nat, successCount: nat, failureCount: nat)
  {
    function SuccessRate(): real {
      if totalRuns == 0 then 0.0 else successCount as real / totalRuns as real
    }

    predicate EligibleForGraduation() {
      totalRuns >= GRADUATION_MIN_RUNS && SuccessRate() >= GRADUATION_MIN_SUCCESS_RATE
    }
  }

  /** A chain id and a step id. */
  type Key = (string, string)

  datatype Outcome = Outcome(key: Key, success: bool)

  type StatsTable = map<Key, StepStats>

  /** The upsert. */
  function Upserted(stats: StatsTable, o: Outcome): StatsTable {
    var successInc, failureInc := if o.success then 1 else 0, if o.success then 0 else 1;
    if o.key in stats then
      var s := stats[o.key];
      stats[o.key := StepStats(s.totalRuns + 1, s.successCount + successInc, s.failureCount + failureInc)]
    else stats[o.key := StepStats(1, successInc, failureInc)]
  }

  function Replay(log: seq<Outcome>): StatsTable {
    if log == [] then map[] else Upserted(Replay(log[..|log| - 1]), log[|log| - 1])
  }

  predicate Graduates(stats: StatsTable, key: Key) { key in stats && stats[key].EligibleForGraduation() }

  function Unproven(stats: StatsTable, chainId: string, stepIds: seq<string>): seq<string> {
    if stepIds == [] then []
    else
      var n := |stepIds| - 1;
      var before := Unproven(stats, chainId, stepIds[..n]);
      if Graduates(stats, (chainId, stepIds[n])) then before else before + [stepIds[n]]
  }

  predicate IsPinned(ability: string) {
    exists i :: 0 <= i < |PINNED_ABILITIES| && Strings.Contains(ability, PINNED_ABILITIES[i])
  }

  class TrustManager {
    var stats: StatsTable
    /** Every outcome ever recorded. */
    ghost var log: seq<Outcome>

    ghost predicate Valid()
      reads this
    {
      stats == Replay(log)
    }

    constructor ()
      ensures Valid() && log == []
    {
      stats, log := map[], [];
    }

    method RecordStep(chainId: string, stepId: string, success: bool)
      requires Valid()
      modifies this
      ensures Valid() && log == old(log) + [Outcome((chainId, stepId), success)]
    {
      var o := Outcome((chainId, stepId), success);
      stats := Upserted(stats, o);
      assert (log + [o])[..|log|] == log;
      log := log + [o];
    }

    /**
     * Without a pinned ability, exactly the steps that have not graduated need verification, in
     * order; with one, all of them do.
     */
    method Assess(chainId: string, stepIds: seq<string>, abilities: seq<string>) returns (a: TrustAssessment)
      ensures var pinned := exists i :: 0 <= i < |abilities| && IsPinned(abilities[i]);
              && a.stepsRequiringVerification == (if pinned then stepIds else Unproven(stats, chainId, stepIds))
              && (a.level == Autonomous <==> !pinned && forall i :: 0 <= i < |stepIds| ==> Graduates(stats, (chainId, stepIds[i])))
              && (a.level == Graduated <==>
                  (!pinned
                   && (exists i :: 0 <= i < |stepIds| && Graduates(stats, (chainId, stepIds[i])))
                   && (exists i :: 0 <= i < |stepIds| && !Graduates(stats, (chainId, stepIds[i])))))
              && (a.requiresVerification <==> a.level != Autonomous)
    {
      if exists i :: 0 <= i < |abilities| && IsPinned(abilities[i]) {
        return TrustAssessment(Supervised, true, stepIds);
      }
      var unproven, allGraduated := [], true;
      for i := 0 to |stepIds|
        invariant unproven == Unproven(stats, chainId, stepIds[..i])
        invariant allGraduated <==> forall j :: 0 <= j < i ==> Graduates(stats, (chainId, stepIds[j]))
        invariant |unproven| <= i
        invariant |unproven| < i <==> exists j :: 0 <= j < i && Graduates(stats, (chainId, stepIds[j]))
      {
        assert stepIds[..i + 1][..i] == stepIds[..i];
        if !Graduates(stats, (chainId, stepIds[i])) {
          allGraduated := false;
          unproven := unproven + [stepIds[i]];
        }
      }
      assert stepIds[..|stepIds|] == stepIds;
      if allGraduated {
        UnprovenNone(stats, chainId, stepIds);
        a := TrustAssessment(Autonomous, false, []);
      } else {
        a := TrustAssessment(if |unproven| < |stepIds| then Graduated else Supervised, true, unproven);
      }
    }
  }

  lemma {:induction false} UnprovenNone(stats: StatsTable, chainId: string, stepIds: seq<string>)
    requires forall i :: 0 <= i < |stepIds| ==> Graduates(stats, (chainId, stepIds[i]))
    ensures Unproven(stats, chainId, stepIds) == []
  {
    if stepIds != [] {
      var n := |stepIds| - 1;
      assert forall i :: 0 <= i < n ==> stepIds[..n][i] == stepIds[i];
      UnprovenNone(stats, chainId, stepIds[..n]);
    }
  }

  // ---------------------------------------------------------------------------------------
  // Statistics are counts over the log
  // ---------------------------------------------------------------------------------------

  ghost function CountOf(log: seq<Outcome>, o: Outcome): nat {
    if log == [] then 0 else CountOf(log[..|log| - 1], o) + if log[|log| - 1] == o then 1 else 0
  }

  /** A step has a row iff it was recorded, and the row holds the numbers of its successes and failures. */
  lemma {:induction false} StatsAreCounts(log: seq<Outcome>, key: Key)
    ensures var s, f := CountOf(log, Outcome(key, true)), CountOf(log, Outcome(key, false));
            && (key in Replay(log) <==> s + f > 0)
            && (key in Replay(log) ==> Replay(log)[key] == StepStats(s + f, s, f))
  {
    if log != [] {
      StatsAreCounts(log[..|log| - 1], key);
    }
  }

  lemma {:induction false} QuotientAtLeast(a: real, b: real, c: real)
    requires b > 0.0
    ensures a / b >= c <==> a >= c * b
  {
    var q := a / b;
    assert q * b == a;
    assert (q - c) * b == a - c * b;
  }

  lemma {:induction false} QuotientAtMost(a: real, b: real, c: real)
    requires b > 0.0
    ensures a / b <= c <==> a <= c * b
  {
    var q := a / b;
    assert q * b == a;
    assert (q - c) * b == a - c * b;
  }

  /** Eligibility without division: fifty runs, and nineteen successes for every failure. */
  lemma {:induction false} EligibleIff(s: nat, f: nat)
    ensures StepStats(s + f, s, f).EligibleForGraduation() <==> s + f >= 50 && s >= 19 * f
  {
    if s + f > 0 {
      QuotientAtLeast(s as real, (s + f) as real, GRADUATION_MIN_SUCCESS_RATE);
    }
  }

  function Successes(key: Key, k: nat): seq<Outcome> { seq(k, _ => Outcome(key, true)) }

  lemma {:induction false} CountAfterSuccesses(log: seq<Outcome>, key: Key, k: nat)
    ensures CountOf(log + Successes(key, k), Outcome(key, true)) == CountOf(log, Outcome(key, true)) + k
    ensures CountOf(log + Successes(key, k), Outcome(key, false)) == CountOf(log, Outcome(key, false))
  {
    if k == 0 {
      assert log + Successes(key, 0) == log;
    } else {
      CountAfterSuccesses(log, key, k - 1);
      var all := log + Successes(key, k);
      assert all[..|all| - 1] == log + Successes(key, k - 1);
    }
  }

  function Max(a: int, b: int): int { if a >= b then a else b }

  /** The number of consecutive successes that a step needs from any history, exactly. */
  function SuccessesNeeded(s: nat, f: nat): nat { Max(0, Max(50 - s - f, 19 * f - s)) }

  /** After `k` further successes a step graduates if and only if `k` reaches that number. */
  lemma {:induction false} GraduatesAfterExactly(log: seq<Outcome>, key: Key, k: nat)
    ensures var s, f := CountOf(log, Outcome(key, true)), CountOf(log, Outcome(key, false));
            Graduates(Replay(log + Successes(key, k)), key) <==> k >= SuccessesNeeded(s, f)
  {
    var s, f := CountOf(log, Outcome(key, true)), CountOf(log, Outcome(key, false));
    CountAfterSuccesses(log, key, k);
    StatsAreCounts(log + Successes(key, k), key);
    EligibleIff(s + k, f);
  }

  /** Unproven steps are exactly those asked about that have not graduated. */
  lemma {:induction false} UnprovenAre(stats: StatsTable, chainId: string, stepIds: seq<string>, stepId: string)
    ensures stepId in Unproven(stats, chainId, stepIds) <==> stepId in stepIds && !Graduates(stats, (chainId, stepId))
  {
    if stepIds != [] {
      var n := |stepIds| - 1;
      UnprovenAre(stats, chainId, stepIds[..n], stepId);
      assert stepIds == stepIds[..n] + [stepIds[n]];
    }
  }

  /** Outcomes of other steps have no influence. */
  lemma {:induction false} OtherStepsDoNotCount(log: seq<Outcome>, o: Outcome, key: Key)
    requires o.key != key
    ensures Graduates(Replay(log + [o]), key) <==> Graduates(Replay(log), key)
  {
    assert (log + [o])[..|log|] == log;
  }

  /** The abilities that keep a chain supervised: those whose name holds one of the six pinned names. */
  lemma {:induction false} PinnedIff(ability: string)
    ensures IsPinned(ability) <==>
      exists i: nat, p :: p in {"trading.execute", "trading.sell", "trading.buy", "payment.send", "payment.transfer", "email.send"}
                          && OccursAt(ability, p, i)
  {
    forall k | 0 <= k < |PINNED_ABILITIES|
      ensures Strings.Contains(ability, PINNED_ABILITIES[k]) <==> exists i: nat :: OccursAt(ability, PINNED_ABILITIES[k], i)
    {
      ContainsIff(ability, PINNED_ABILITIES[k]);
    }
    var names := {"trading.execute", "trading.sell", "trading.buy", "payment.send", "payment.transfer", "email.send"};
    assert PINNED_ABILITIES[0] in names && PINNED_ABILITIES[1] in names && PINNED_ABILITIES[2] in names;
    assert PINNED_ABILITIES[3] in names && PINNED_ABILITIES[4] in names && PINNED_ABILITIES[5] in names;
    forall p | p in names
      ensures exists k :: 0 <= k < |PINNED_ABILITIES| && PINNED_ABILITIES[k] == p
    {
      assert p == PINNED_ABILITIES[0] || p == PINNED_ABILITIES[1] || p == PINNED_ABILITIES[2]
          || p == PINNED_ABILITIES[3] || p == PINNED_ABILITIES[4] || p == PINNED_ABILITIES[5];
    }
  }
}
