/** The circuit breaker registry and its evaluation (src/chain/circuit_breaker.rs). */
module CircuitBreaker {
  import opened Prelude
  import opened Strings
  import opened ChainDsl

  datatype BreakerCondition =
    | ThresholdExceeded(key: string, threshold: F64)
    | FrequencyExceeded(maxCount: nat, windowSecs: nat)
    | AbilityUsed(ability: string)
    | OutputContains(key: string, pattern: string)

  datatype BreakerAction = Abort | Confirm | Throttle

  datatype Breaker = Breaker(id: string, chainId: string, condition: BreakerCondition, action: BreakerAction, reason: string)

  datatype FiredBreaker = FiredBreaker(breakerId: string, action: BreakerAction, reason: string)

  datatype BreakerCheck = BreakerCheck(proceed: bool, needsConfirm: bool, fired: seq<FiredBreaker>)

  const HISTORY_CAP: nat := 10000

  /** Execution timestamps, in seconds, per chain. */
  type History = map<string, seq<nat>>

  /** The log after one more execution of a chain. */
  function WithExecution(log: History, chainId: string, now: nat): History {
    log[chainId := (if chainId in log then log[chainId] else []) + [now]]
  }

  predicate Applies(b: Breaker, chainId: string) { b.chainId == "*" || b.chainId == chainId }

  function CountFrom(timestamps: seq<nat>, start: nat): (n: nat)
    ensures n <= |timestamps|
  {
    if timestamps == [] then 0
    else (if timestamps[0] >= start then 1 else 0) + CountFrom(timestamps[1..], start)
  }

  /** `u64::saturating_sub`. */
  function SaturatingSub(a: nat, b: nat): nat { if a >= b then a - b else 0 }

  /** What a step is about to do, and what the rules can see of the world. */
  datatype Probe = Probe(chainId: string, outputs: map<string, string>, ability: string, now: nat, parse: F64Parser)

  predicate FrequencyFires(history: History, chainId: string, now: nat, maxCount: nat, windowSecs: nat) {
    chainId in history && CountFrom(history[chainId], SaturatingSub(now, windowSecs)) >= maxCount
  }

  predicate Triggered(c: BreakerCondition, history: History, p: Probe) {
    match c
    case ThresholdExceeded(key, threshold) =>
      key in p.outputs && p.parse(p.outputs[key]).Some? ==> p.parse(p.outputs[key]).value.GreaterThan(threshold)
    case AbilityUsed(ability) => p.ability == ability
    case OutputContains(key, pattern) => key in p.outputs && Strings.Contains(p.outputs[key], pattern)
    case FrequencyExceeded(maxCount, windowSecs) => FrequencyFires(history, p.chainId, p.now, maxCount, windowSecs)
  }

  predicate Fires(b: Breaker, history: History, p: Probe) {
    Applies(b, p.chainId) && Triggered(b.condition, history, p)
  }

  /** The breakers that fire, in registration order. */
  function FiredAmong(breakers: seq<Breaker>, history: History, p: Probe): seq<FiredBreaker> {
    if breakers == [] then []
    else
      var last := breakers[|breakers| - 1];
      FiredAmong(breakers[..|breakers| - 1], history, p)
      + if Fires(last, history, p) then [FiredBreaker(last.id, last.action, last.reason)] else []
  }

  predicate SomeFired(fired: seq<FiredBreaker>, action: BreakerAction) {
    exists i :: 0 <= i < |fired| && fired[i].action == action
  }

  function EvaluateRules(breakers: seq<Breaker>, history: History, p: Probe): BreakerCheck {
    var fired := FiredAmong(breakers, history, p);
    BreakerCheck(!SomeFired(fired, Abort), SomeFired(fired, Confirm), fired)
  }

  function LastN<T>(s: seq<T>, n: nat): seq<T> { if |s| <= n then s else s[|s| - n..] }

  /** The history keeps the last entries of the log of each chain. */
  ghost predicate Capped(history: History, log: History) {
    history.Keys == log.Keys && forall c :: c in log ==> history[c] == LastN(log[c], HISTORY_CAP)
  }

  class BreakerRegistry {
    var breakers: seq<Breaker>
    var history: History
    /** Every recorded execution, never forgotten. */
    ghost var log: History

    ghost predicate Valid()
      reads this
    {
      Capped(history, log)
    }

    constructor ()
      ensures Valid() && breakers == [] && log == map[]
    {
      breakers, history, log := [], map[], map[];
    }

    method RecordExecution(chainId: string, now: nat)
      requires Valid()
      modifies this`history, this`log
      ensures Valid()
      ensures log == WithExecution(old(log), chainId, now)
    {
      var timestamps := (if chainId in history then history[chainId] else []) + [now];
      if |timestamps| > HISTORY_CAP {
        timestamps := timestamps[|timestamps| - HISTORY_CAP..];
      }
      history := history[chainId := timestamps];
      log := WithExecution(log, chainId, now);
    }

    method Register(breaker: Breaker)
      modifies this`breakers
      ensures breakers == old(breakers) + [breaker]
    {
      breakers := breakers + [breaker];
    }

    method Evaluate(p: Probe) returns (check: BreakerCheck)
      ensures check == EvaluateRules(breakers, history, p)
    {
      var fired := [];
      for i := 0 to |breakers|
        invariant fired == FiredAmong(breakers[..i], history, p)
      {
        assert breakers[..i + 1][..i] == breakers[..i];
        if breakers[i].chainId != "*" && breakers[i].chainId != p.chainId {
          continue;
        }
        if Triggered(breakers[i].condition, history, p) {
          fired := fired + [FiredBreaker(breakers[i].id, breakers[i].action, breakers[i].reason)];
        }
      }
      assert breakers[..|breakers|] == breakers;
      var hasAbort := SomeFired(fired, Abort);
      var needsConfirm := SomeFired(fired, Confirm);
      check := BreakerCheck(!hasAbort, needsConfirm, fired);
    }
  }

  // ---------------------------------------------------------------------------------------
  // What an evaluation means
  // ---------------------------------------------------------------------------------------

  ghost predicate SomeRuleFires(breakers: seq<Breaker>, history: History, p: Probe, action: BreakerAction) {
    exists i :: 0 <= i < |breakers| && breakers[i].action == action && Fires(breakers[i], history, p)
  }

  lemma {:induction false} FiredIffRuleFires(breakers: seq<Breaker>, history: History, p: Probe, action: BreakerAction)
    ensures SomeFired(FiredAmong(breakers, history, p), action) <==> SomeRuleFires(breakers, history, p, action)
  {
    if breakers != [] {
      var n := |breakers| - 1;
      var init, last := breakers[..n], breakers[n];
      FiredIffRuleFires(init, history, p, action);
      assert SomeRuleFires(breakers, history, p, action)
        <==> SomeRuleFires(init, history, p, action) || (last.action == action && Fires(last, history, p)) by {
        assert forall i :: 0 <= i < n ==> init[i] == breakers[i];
      }
      SomeFiredAppend(FiredAmong(init, history, p), FiredBreaker(last.id, last.action, last.reason), action);
      assert FiredAmong(init, history, p) + [] == FiredAmong(init, history, p);
    }
  }

  lemma {:induction false} SomeFiredAppend(fired: seq<FiredBreaker>, f: FiredBreaker, action: BreakerAction)
    ensures SomeFired(fired + [f], action) <==> SomeFired(fired, action) || f.action == action
  {
    var all := fired + [f];
    assert all[|fired|] == f;
    assert forall i :: 0 <= i < |fired| ==> all[i] == fired[i];
  }

  /** The step may proceed exactly when no applicable abort rule is triggered. */
  lemma {:induction false} ProceedIff(breakers: seq<Breaker>, history: History, p: Probe)
    ensures EvaluateRules(breakers, history, p).proceed
       <==> forall i :: 0 <= i < |breakers| && breakers[i].action == Abort ==> !Fires(breakers[i], history, p)
  {
    FiredIffRuleFires(breakers, history, p, Abort);
  }

  /** Rules registered later only add firings at the end. */
  lemma {:induction false} FiredGrows(breakers: seq<Breaker>, extra: seq<Breaker>, history: History, p: Probe)
    ensures FiredAmong(breakers, history, p) <= FiredAmong(breakers + extra, history, p)
  {
    if extra == [] {
      assert breakers + extra == breakers;
    } else {
      var n := |extra| - 1;
      FiredGrows(breakers, extra[..n], history, p);
      assert (breakers + extra)[..|breakers| + n] == breakers + extra[..n];
    }
  }

  // ---------------------------------------------------------------------------------------
  // The capped history is as good as the full log
  // ---------------------------------------------------------------------------------------

  ghost predicate Nondecreasing(ts: seq<nat>) {
    forall i, j :: 0 <= i <= j < |ts| ==> ts[i] <= ts[j]
  }

  lemma {:induction false} CountSplits(a: seq<nat>, b: seq<nat>, start: nat)
    ensures CountFrom(a + b, start) == CountFrom(a, start) + CountFrom(b, start)
  {
    if a == [] {
      assert a + b == b;
    } else {
      CountSplits(a[1..], b, start);
      assert (a + b)[1..] == a[1..] + b;
    }
  }

  lemma {:induction false} CountAll(ts: seq<nat>, start: nat)
    requires forall i :: 0 <= i < |ts| ==> ts[i] >= start
    ensures CountFrom(ts, start) == |ts|
  {
    if ts != [] {
      CountAll(ts[1..], start);
    }
  }

  lemma {:induction false} CountNone(ts: seq<nat>, start: nat)
    requires forall i :: 0 <= i < |ts| ==> ts[i] < start
    ensures CountFrom(ts, start) == 0
  {
    if ts != [] {
      CountNone(ts[1..], start);
    }
  }

  /** Under a nondecreasing clock the cap loses a count only when `cap` entries are in the window anyway. */
  lemma {:induction false} CappedCount(log: seq<nat>, cap: nat, start: nat)
    requires Nondecreasing(log)
    ensures CountFrom(LastN(log, cap), start) == if CountFrom(log, start) <= cap then CountFrom(log, start) else cap
  {
    if |log| > cap {
      var cut := |log| - cap;
      var dropped, kept := log[..cut], log[cut..];
      assert log == dropped + kept;
      CountSplits(dropped, kept, start);
      if log[cut - 1] >= start {
        CountAll(kept, start);
      } else {
        CountNone(dropped, start);
      }
    }
  }

  /** No entry that the cap drops is later than an entry that it keeps. */
  ghost predicate KeptAreLater(log: seq<nat>, cap: nat) {
    forall i, j :: 0 <= i < |log| - cap <= j < |log| ==> log[i] <= log[j]
  }

  ghost predicate SameVerdict(log: seq<nat>, cap: nat, start: nat, maxCount: nat) {
    CountFrom(LastN(log, cap), start) >= maxCount <==> CountFrom(log, start) >= maxCount
  }

  lemma {:induction false} CountNotAll(ts: seq<nat>, start: nat, j: nat)
    requires j < |ts| && ts[j] < start
    ensures CountFrom(ts, start) < |ts|
  {
    if j > 0 {
      CountNotAll(ts[1..], start, j - 1);
    }
  }

  lemma {:induction false} CountSome(ts: seq<nat>, start: nat, i: nat)
    requires i < |ts| && ts[i] >= start
    ensures CountFrom(ts, start) > 0
  {
    if i > 0 {
      CountSome(ts[1..], start, i - 1);
    }
  }

  lemma {:induction false} KeptAreLaterSuffices(log: seq<nat>, cap: nat, start: nat, maxCount: nat)
    requires KeptAreLater(log, cap) && maxCount <= cap
    ensures SameVerdict(log, cap, start, maxCount)
  {
    if |log| > cap {
      var cut := |log| - cap;
      var dropped, kept := log[..cut], log[cut..];
      assert log == dropped + kept;
      CountSplits(dropped, kept, start);
      if i :| 0 <= i < cut && log[i] >= start {
        forall j | 0 <= j < |kept|
          ensures kept[j] >= start
        {
          assert kept[j] == log[cut + j] && log[i] <= log[cut + j];
        }
        CountAll(kept, start);
      } else {
        CountNone(dropped, start);
      }
    }
  }

  /** A dropped entry later than a kept one: the full log fires on a count that the kept entries miss. */
  lemma {:induction false} EarlierKeptMisleads(log: seq<nat>, cap: nat, i: nat, j: nat) returns (start: nat, maxCount: nat)
    requires i < |log| - cap <= j < |log| && log[i] > log[j]
    ensures maxCount <= cap && !SameVerdict(log, cap, start, maxCount)
  {
    var cut := |log| - cap;
    var dropped, kept := log[..cut], log[cut..];
    assert log == dropped + kept && kept[j - cut] == log[j];
    start := log[i];
    CountSplits(dropped, kept, start);
    CountSome(dropped, start, i);
    CountNotAll(kept, start, j - cut);
    maxCount := CountFrom(kept, start) + 1;
  }

  /**
   * Exactly which logs the cap treats correctly: the capped verdict is the full one for every window
   * and every count up to the cap if and only if no dropped entry is later than a kept one.
   */
  lemma {:induction false} CapIsHarmlessIff(log: seq<nat>, cap: nat)
    ensures (forall start, maxCount: nat :: maxCount <= cap ==> SameVerdict(log, cap, start, maxCount)) <==> KeptAreLater(log, cap)
  {
    if KeptAreLater(log, cap) {
      forall start, maxCount: nat | maxCount <= cap
        ensures SameVerdict(log, cap, start, maxCount)
      {
        KeptAreLaterSuffices(log, cap, start, maxCount);
      }
    } else {
      var i, j :| 0 <= i < |log| - cap <= j < |log| && log[i] > log[j];
      var start, maxCount := EarlierKeptMisleads(log, cap, i, j);
      assert !SameVerdict(log, cap, start, maxCount);
    }
  }

  /** A frequency rule decides alike on the stored history and on the full log. */
  ghost predicate FrequencyAgrees(history: History, log: History, chainId: string, now: nat, maxCount: nat, windowSecs: nat) {
    FrequencyFires(history, chainId, now, maxCount, windowSecs) <==> FrequencyFires(log, chainId, now, maxCount, windowSecs)
  }

  ghost predicate ChainKeptIsLater(log: History, chainId: string) { chainId in log ==> KeptAreLater(log[chainId], HISTORY_CAP) }

  /**
   * All frequency rules with a count of at most the cap agree on the stored history and the full log,
   * at every time and for every window, if and only if no dropped entry is later than a kept one.
   * Rules with a larger count never fire on the stored history.
   */
  lemma {:induction false} CappedVerdictsAgreeIff(history: History, log: History, chainId: string)
    requires Capped(history, log)
    ensures (forall now: nat, maxCount: nat, windowSecs: nat :: maxCount <= HISTORY_CAP ==>
               FrequencyAgrees(history, log, chainId, now, maxCount, windowSecs))
       <==> ChainKeptIsLater(log, chainId)
    ensures forall now: nat, maxCount: nat, windowSecs: nat :: maxCount > HISTORY_CAP ==>
              !FrequencyFires(history, chainId, now, maxCount, windowSecs)
  {
    if chainId in log {
      var ts := log[chainId];
      CapIsHarmlessIff(ts, HISTORY_CAP);
      forall now: nat, maxCount: nat, windowSecs: nat | maxCount <= HISTORY_CAP
        ensures FrequencyAgrees(history, log, chainId, now, maxCount, windowSecs)
           <==> SameVerdict(ts, HISTORY_CAP, SaturatingSub(now, windowSecs), maxCount)
      {
      }
      if !KeptAreLater(ts, HISTORY_CAP) {
        var start, maxCount: nat :| maxCount <= HISTORY_CAP && !SameVerdict(ts, HISTORY_CAP, start, maxCount);
        assert SaturatingSub(start, 0) == start;
        assert !FrequencyAgrees(history, log, chainId, start, maxCount, 0);
      }
    }
  }

  /** In particular a clock that never goes back makes the cap harmless. */
  lemma {:induction false} CappedVerdict(history: History, log: History, chainId: string, now: nat, maxCount: nat, windowSecs: nat)
    requires Capped(history, log) && (chainId in log ==> Nondecreasing(log[chainId]))
    ensures maxCount <= HISTORY_CAP ==> FrequencyAgrees(history, log, chainId, now, maxCount, windowSecs)
    ensures maxCount > HISTORY_CAP ==> !FrequencyFires(history, chainId, now, maxCount, windowSecs)
  {
    CappedVerdictsAgreeIff(history, log, chainId);
  }

  /**
   * The clock matters: for every count up to the cap there is a log, recorded while the clock was
   * set back, that fires on the full log but not on the stored history.
   */
  lemma {:induction false} CapNeedsMonotoneClock(cap: nat, maxCount: nat) returns (log: seq<nat>, start: nat)
    requires 0 < maxCount <= cap
    ensures CountFrom(log, start) >= maxCount && CountFrom(LastN(log, cap), start) < maxCount
  {
    var early, late := seq(maxCount, _ => 1), seq(cap, _ => 0);
    log, start := early + late, 1;
    CountSplits(early, late, start);
    CountAll(early, start);
    CountNone(late, start);
    assert log[|log| - cap..] == late;
  }

  // ---------------------------------------------------------------------------------------
  // When a rule is triggered
  // ---------------------------------------------------------------------------------------

  /** A rule applies to its own chain, and the global one to every chain. */
  lemma {:induction false} AppliesIff(b: Breaker, chainId: string)
    ensures Applies(b, chainId) <==> b.chainId in {"*", chainId}
  {
  }

  /** A number triggers a threshold exactly if it is greater. */
  lemma {:induction false} ThresholdIff(key: string, a: real, t: real, history: History, p: Probe)
    requires key in p.outputs && p.parse(p.outputs[key]) == Some(Finite(a))
    ensures Triggered(ThresholdExceeded(key, Finite(t)), history, p) <==> a > t
  {
  }

  /** Any output triggers a threshold exactly if it is missing, is no number, or exceeds it in the extended reals. */
  lemma {:induction false} ThresholdTriggersIff(key: string, t: F64, history: History, p: Probe)
    ensures Triggered(ThresholdExceeded(key, t), history, p)
       <==> key !in p.outputs || p.parse(p.outputs[key]).None? || Exceeds(p.parse(p.outputs[key]).value, t)
  {
    if key in p.outputs && p.parse(p.outputs[key]).Some? {
      GreaterThanIff(p.parse(p.outputs[key]).value, t);
    }
  }

  /** A pattern triggers exactly if it stands somewhere in the output. */
  lemma {:induction false} PatternIff(key: string, pattern: string, history: History, p: Probe)
    ensures Triggered(OutputContains(key, pattern), history, p)
       <==> key in p.outputs && exists i: nat :: OccursAt(p.outputs[key], pattern, i)
  {
    if key in p.outputs {
      ContainsIff(p.outputs[key], pattern);
    }
  }

  lemma {:induction false} AbilityIff(ability: string, history: History, p: Probe)
    ensures Triggered(AbilityUsed(ability), history, p) <==> ability == p.ability
  {
  }

  /** The positions of the entries that are at most `windowSecs` old. */
  ghost function InWindow(ts: seq<nat>, now: nat, windowSecs: nat): set<nat> {
    set i: nat | i < |ts| && now - ts[i] <= windowSecs
  }

  lemma {:induction false} CountIsCardinality(ts: seq<nat>, now: nat, windowSecs: nat)
    ensures CountFrom(ts, SaturatingSub(now, windowSecs)) == |InWindow(ts, now, windowSecs)|
  {
    var start := SaturatingSub(now, windowSecs);
    if ts == [] {
      assert InWindow(ts, now, windowSecs) == {};
    } else {
      var n := |ts| - 1;
      CountIsCardinality(ts[..n], now, windowSecs);
      assert ts == ts[..n] + [ts[n]];
      CountSplits(ts[..n], [ts[n]], start);
      assert CountFrom([ts[n]], start) == if ts[n] >= start then 1 else 0;
      assert ts[n] >= start <==> now - ts[n] <= windowSecs;
      var before := InWindow(ts[..n], now, windowSecs);
      assert InWindow(ts, now, windowSecs) == if now - ts[n] <= windowSecs then before + {n} else before;
    }
  }

  /** A frequency triggers exactly if at least `maxCount` recorded executions of the chain are at most `windowSecs` old. */
  lemma {:induction false} FrequencyIff(maxCount: nat, windowSecs: nat, history: History, p: Probe)
    ensures Triggered(FrequencyExceeded(maxCount, windowSecs), history, p)
       <==> p.chainId in history && |InWindow(history[p.chainId], p.now, windowSecs)| >= maxCount
  {
    if p.chainId in history {
      CountIsCardinality(history[p.chainId], p.now, windowSecs);
    }
  }
}
