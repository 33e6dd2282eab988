/**
 * The chain executor (src/chain/executor.rs): a step loop with conditions, gates, template
 * resolution, failure jumps and a cycle guard.
 *
 * Everything the executor cannot decide is an arbitrary function of the environment, so what is
 * proved of all executions holds for every sequence of ability outcomes, verdicts and answers.
 */
module ChainExecutor {
  import opened Prelude
  import opened Template
  import opened ChainDsl
  import opened CircuitBreaker

  datatype Receipt = Receipt(id: string)

  datatype AbilityResult = AbilityResult(output: string, receipt: Receipt)

  datatype Verdict = Verdict(allowed: bool, reason: string)

  datatype ConfirmationRequest = ConfirmationRequest(agent: string, ability: string, reason: string, breakerId: string)

  datatype ConfirmationResponse = AllowOnce | AllowSession | AllowAlwaysAgent | Deny

  /** The environment; the first argument of a function that may answer differently each time is the loop iteration. */
  datatype World = World(
    invoke: (nat, string, map<string, string>) -> Result<AbilityResult, string>,
    clock: nat -> nat,
    parse: F64Parser,
    // the "summary" or "text" string of a JSON object, if the output is one
    jsonText: string -> Option<string>,
    constitution: Option<string -> Verdict>,
    confirm: Option<(nat, ConfirmationRequest) -> Option<ConfirmationResponse>>)

  datatype RunError =
    | MissingParameter(name: string)
    | ConstitutionBlocked(ability: string, step: string, reason: string)
    | BreakerHalted(step: string, reasons: seq<string>)
    | UserDenied(step: string, reason: string)
    | FailureCycle(step: string, target: string)
    | StepFailed(step: string, message: string)

  datatype ExecutionResult = ExecutionResult(
    success: bool,
    receipts: seq<Receipt>,
    outputs: map<string, string>,
    skippedSteps: seq<string>)

  // ---------------------------------------------------------------------------------------
  // Small pieces of one iteration
  // ---------------------------------------------------------------------------------------

  predicate Missing(d: ParamDef, params: map<string, string>) {
    d.required && d.name !in params && d.default.None?
  }

  /** JSON outputs are reduced to their text, everything else is stored as it is. */
  function StoredOutput(world: World, output: string): string {
    if "{" <= output && world.jsonText(output).Some? then world.jsonText(output).value else output
  }

  function OutputsAfter(world: World, step: ChainStep, outputs: map<string, string>, output: string): map<string, string> {
    if step.outputKey.Some? then outputs[step.outputKey.value := StoredOutput(world, output)] else outputs
  }

  function ErrorText(message: string): string { "Permission denied: " + message }

  function AbortReasons(fired: seq<FiredBreaker>): seq<string> {
    if fired == [] then []
    else (if fired[0].action == Abort then [fired[0].reason] else []) + AbortReasons(fired[1..])
  }

  /** `fired.iter().find(..)`. */
  function FirstConfirm(fired: seq<FiredBreaker>): (r: Option<FiredBreaker>)
    ensures r.Some? <==> SomeFired(fired, Confirm)
    ensures r.Some? ==> r.value.action == Confirm
  {
    if fired == [] then None
    else if fired[0].action == Confirm then Some(fired[0])
    else
      assert SomeFired(fired, Confirm) ==> SomeFired(fired[1..], Confirm) by {
        assert forall i :: 1 <= i < |fired| ==> fired[1..][i - 1] == fired[i];
      }
      FirstConfirm(fired[1..])
  }

  function RequestFor(agent: string, ability: string, f: FiredBreaker): ConfirmationRequest {
    ConfirmationRequest(agent, ability, f.reason, f.breakerId)
  }

  predicate Approved(r: Option<ConfirmationResponse>) { r.Some? && !r.value.Deny? }

  // ---------------------------------------------------------------------------------------
  // Executions as sequences of moves
  // ---------------------------------------------------------------------------------------

  datatype RuleSet = RuleSet(breakers: seq<Breaker>, history: History)

  /** Everything that stays fixed during one run. */
  datatype Setting = Setting(chain: ChainDef, params: map<string, string>, world: World, agent: string, rules: Option<RuleSet>)

  datatype State = State(
    idx: nat,
    outputs: map<string, string>,
    receipts: seq<Receipt>,
    skipped: seq<string>,
    hadFailure: bool,
    visited: set<nat>)

  ghost function Indices(n: nat): (s: set<nat>)
    ensures forall i: nat :: i in s <==> i < n
  {
    if n == 0 then {} else Indices(n - 1) + {n - 1}
  }

  /** One loop iteration that does not end the run. */
  datatype Move =
    | Skip
    | Succeed(args: map<string, string>, result: AbilityResult)
    | Jump(args: map<string, string>, message: string, target: nat)

  /** An ability call: in which iteration, of what, with which resolved arguments. */
  datatype Call = Call(iteration: nat, ability: string, args: map<string, string>)

  const Start := State(0, map[], [], [], false, {})

  predicate Holds(cfg: Setting, step: ChainStep, outputs: map<string, string>) {
    step.condition.Some? ==> step.condition.value.Test(outputs, cfg.world.parse)
  }

  function ProbeAt(cfg: Setting, k: nat, step: ChainStep, outputs: map<string, string>): Probe {
    Probe(cfg.chain.id, outputs, step.ability, cfg.world.clock(k), cfg.world.parse)
  }

  function ConstitutionGate(cfg: Setting, step: ChainStep): Option<RunError> {
    if cfg.world.constitution.Some? && !cfg.world.constitution.value(step.ability).allowed then
      Some(ConstitutionBlocked(step.ability, step.id, cfg.world.constitution.value(step.ability).reason))
    else None
  }

  function BreakerGate(cfg: Setting, k: nat, step: ChainStep, outputs: map<string, string>): Option<RunError> {
    if cfg.rules.None? then None
    else
      var check := EvaluateRules(cfg.rules.value.breakers, cfg.rules.value.history, ProbeAt(cfg, k, step, outputs));
      if !check.proceed then Some(BreakerHalted(step.id, AbortReasons(check.fired)))
      else if check.needsConfirm && cfg.world.confirm.Some? then
        var first := FirstConfirm(check.fired).value;
        if Approved(cfg.world.confirm.value(k, RequestFor(cfg.agent, step.ability, first))) then None
        else Some(UserDenied(step.id, first.reason))
      else None
  }

  function Gate(cfg: Setting, k: nat, step: ChainStep, outputs: map<string, string>): Option<RunError> {
    if ConstitutionGate(cfg, step).Some? then ConstitutionGate(cfg, step) else BreakerGate(cfg, k, step, outputs)
  }

  /** In iteration `k` the step's ability is called with `args` and answers `answer`. */
  ghost predicate Invokes(cfg: Setting, k: nat, step: ChainStep, outputs: map<string, string>,
                          args: map<string, string>, answer: Result<AbilityResult, string>) {
    && Holds(cfg, step, outputs)
    && Gate(cfg, k, step, outputs).None?
    && ArgsResolveTo(step.args, cfg.params, outputs, args)
    && cfg.world.invoke(k, step.ability, args) == answer
  }

  ghost predicate Legal(cfg: Setting, k: nat, s: State, m: Move) {
    && s.idx < |cfg.chain.steps|
    && var step := cfg.chain.steps[s.idx];
       match m
       case Skip => !Holds(cfg, step, s.outputs)
       case Succeed(args, result) => Invokes(cfg, k, step, s.outputs, args, Ok(result))
       case Jump(args, message, target) =>
         && Invokes(cfg, k, step, s.outputs, args, Err(message))
         && step.onFailure.Some?
         && FindStep(cfg.chain.steps, step.onFailure.value) == Some(target)
         && target !in s.visited
  }

  ghost function Apply(cfg: Setting, s: State, m: Move): State
    requires s.idx < |cfg.chain.steps|
  {
    var step := cfg.chain.steps[s.idx];
    match m
    case Skip => s.(idx := s.idx + 1, skipped := s.skipped + [step.id])
    case Succeed(_, result) =>
      s.(idx := s.idx + 1,
         outputs := OutputsAfter(cfg.world, step, s.outputs, result.output),
         receipts := s.receipts + [result.receipt])
    case Jump(_, message, target) =>
      s.(idx := target,
         outputs := s.outputs[step.id + "_error" := ErrorText(message)],
         hadFailure := true,
         visited := s.visited + {target})
  }

  /** The state after the moves, which must be possible one after the other. */
  ghost predicate Path(cfg: Setting, moves: seq<Move>)
    decreases |moves|, 0
  {
    moves == [] || (var n := |moves| - 1; Path(cfg, moves[..n]) && Legal(cfg, n, After(cfg, moves[..n]), moves[n]))
  }

  ghost function After(cfg: Setting, moves: seq<Move>): State
    requires Path(cfg, moves)
    decreases |moves|, 1
  {
    if moves == [] then Start
    else var n := |moves| - 1; Apply(cfg, After(cfg, moves[..n]), moves[n])
  }

  /** The run ends in iteration `k`, without a further move. */
  ghost predicate Fails(cfg: Setting, k: nat, s: State, e: RunError) {
    && s.idx < |cfg.chain.steps|
    && var step := cfg.chain.steps[s.idx];
       && Holds(cfg, step, s.outputs)
       && (Gate(cfg, k, step, s.outputs) == Some(e)
           || exists args, message ::
                Invokes(cfg, k, step, s.outputs, args, Err(message)) && FailureError(cfg, s, message) == Some(e))
  }

  /** The error with which a failed step ends the run, unless it jumps. */
  function FailureError(cfg: Setting, s: State, message: string): Option<RunError>
    requires s.idx < |cfg.chain.steps|
  {
    var step := cfg.chain.steps[s.idx];
    if step.onFailure.None? then Some(StepFailed(step.id, message))
    else match FindStep(cfg.chain.steps, step.onFailure.value)
      case None => Some(StepFailed(step.id, message))
      case Some(target) =>
        if target in s.visited then Some(FailureCycle(step.id, step.onFailure.value)) else None
  }

  ghost predicate Executes(cfg: Setting, moves: seq<Move>, r: Result<ExecutionResult, RunError>) {
    && Path(cfg, moves)
    && var s := After(cfg, moves);
       match r
       case Ok(result) =>
         s.idx >= |cfg.chain.steps| && result == ExecutionResult(!s.hadFailure, s.receipts, s.outputs, s.skipped)
       case Err(e) => Fails(cfg, |moves|, s, e)
  }

  // ---------------------------------------------------------------------------------------
  // The ability calls of an execution
  // ---------------------------------------------------------------------------------------

  /** The calls of the moves, in order; a skipped step makes none. */
  ghost function CallsOf(cfg: Setting, moves: seq<Move>): seq<Call>
    requires Path(cfg, moves)
    decreases |moves|
  {
    if moves == [] then []
    else
      var n := |moves| - 1;
      var before := CallsOf(cfg, moves[..n]);
      if moves[n].Skip? then before else before + [Call(n, cfg.chain.steps[After(cfg, moves[..n]).idx].ability, moves[n].args)]
  }

  /** A call in iteration `k` that fails and ends the run. */
  ghost predicate FailingCall(cfg: Setting, k: nat, s: State, c: Call, e: RunError)
    requires s.idx < |cfg.chain.steps|
  {
    var step := cfg.chain.steps[s.idx];
    && c.iteration == k && c.ability == step.ability
    && exists message :: Invokes(cfg, k, step, s.outputs, c.args, Err(message)) && FailureError(cfg, s, message) == Some(e)
  }

  /** `calls` are all ability calls of the execution: those of its moves and, if it failed in a call, that one. */
  ghost predicate CallsMade(cfg: Setting, moves: seq<Move>, r: Result<ExecutionResult, RunError>, calls: seq<Call>)
    requires Executes(cfg, moves, r)
  {
    var s := After(cfg, moves);
    if r.Ok? || Gate(cfg, |moves|, cfg.chain.steps[s.idx], s.outputs).Some? then calls == CallsOf(cfg, moves)
    else exists c :: FailingCall(cfg, |moves|, s, c, r.error) && calls == CallsOf(cfg, moves) + [c]
  }

  /** How far a run has come. */
  ghost predicate Reached(cfg: Setting, moves: seq<Move>, s: State, calls: seq<Call>) {
    Path(cfg, moves) && After(cfg, moves) == s && CallsOf(cfg, moves) == calls
  }

  lemma {:induction false} ExtendPath(cfg: Setting, moves: seq<Move>, s: State, calls: seq<Call>, m: Move)
    requires Reached(cfg, moves, s, calls) && Legal(cfg, |moves|, s, m)
    ensures Reached(cfg, moves + [m], Apply(cfg, s, m),
                    if m.Skip? then calls else calls + [Call(|moves|, cfg.chain.steps[s.idx].ability, m.args)])
  {
    assert (moves + [m])[..|moves|] == moves;
  }

  lemma {:induction false} GateEnds(cfg: Setting, moves: seq<Move>, s: State, calls: seq<Call>, e: RunError)
    requires Reached(cfg, moves, s, calls) && s.idx < |cfg.chain.steps|
    requires Holds(cfg, cfg.chain.steps[s.idx], s.outputs)
    requires Gate(cfg, |moves|, cfg.chain.steps[s.idx], s.outputs) == Some(e)
    ensures Executes(cfg, moves, Err(e)) && CallsMade(cfg, moves, Err(e), calls) && !e.MissingParameter?
  {
  }

  lemma {:induction false} CompletionEnds(cfg: Setting, moves: seq<Move>, s: State, calls: seq<Call>)
    requires Reached(cfg, moves, s, calls) && s.idx >= |cfg.chain.steps|
    ensures var r := Ok(ExecutionResult(!s.hadFailure, s.receipts, s.outputs, s.skipped));
            Executes(cfg, moves, r) && CallsMade(cfg, moves, r, calls)
  {
  }

  lemma {:induction false} FailureEnds(cfg: Setting, moves: seq<Move>, s: State, calls: seq<Call>, args: map<string, string>, message: string)
    requires Reached(cfg, moves, s, calls) && s.idx < |cfg.chain.steps|
    requires Invokes(cfg, |moves|, cfg.chain.steps[s.idx], s.outputs, args, Err(message))
    requires FailureError(cfg, s, message).Some?
    ensures var e := FailureError(cfg, s, message).value;
            && Executes(cfg, moves, Err(e)) && !e.MissingParameter?
            && CallsMade(cfg, moves, Err(e), calls + [Call(|moves|, cfg.chain.steps[s.idx].ability, args)])
  {
    var e, c := FailureError(cfg, s, message).value, Call(|moves|, cfg.chain.steps[s.idx].ability, args);
    assert FailingCall(cfg, |moves|, s, c, e);
  }

  // ---------------------------------------------------------------------------------------
  // The executor
  // ---------------------------------------------------------------------------------------

  method ValidateParams(defs: seq<ParamDef>, params: map<string, string>) returns (missing: Option<string>)
    ensures missing.None? <==> forall i :: 0 <= i < |defs| ==> !Missing(defs[i], params)
    ensures missing.Some? ==> exists i :: 0 <= i < |defs| && Missing(defs[i], params) && missing.value == defs[i].name
                                          && forall j :: 0 <= j < i ==> !Missing(defs[j], params)
  {
    for i := 0 to |defs|
      invariant forall j :: 0 <= j < i ==> !Missing(defs[j], params)
    {
      if defs[i].required && defs[i].name !in params && defs[i].default.None? {
        return Some(defs[i].name);
      }
    }
    return None;
  }

  /** The abilities; every call leaves a trace. */
  class AbilityRegistry {
    ghost var calls: seq<Call>

    constructor ()
      ensures calls == []
    {
      calls := [];
    }

    method ExecuteAbility(world: World, iteration: nat, ability: string, args: map<string, string>)
      returns (answer: Result<AbilityResult, string>)
      modifies this`calls
      ensures answer == world.invoke(iteration, ability, args)
      ensures calls == old(calls) + [Call(iteration, ability, args)]
    {
      answer := world.invoke(iteration, ability, args);
      calls := calls + [Call(iteration, ability, args)];
    }
  }

  class ChainExecutor {
    const agent: string
    const world: World
    const abilities: AbilityRegistry
    const registry: BreakerRegistry?

    constructor (agent: string, world: World, abilities: AbilityRegistry, registry: BreakerRegistry?)
      ensures this.agent == agent && this.world == world && this.abilities == abilities && this.registry == registry
    {
      this.agent, this.world, this.abilities, this.registry := agent, world, abilities, registry;
    }

    ghost function Rules(): set<object> { if registry == null then {} else {registry} }

    ghost predicate Valid()
      reads Rules()
    {
      registry != null ==> registry.Valid()
    }

    ghost function SettingFor(chain: ChainDef, params: map<string, string>): Setting
      reads Rules()
    {
      Setting(chain, params, world, agent,
              if registry == null then None else Some(RuleSet(registry.breakers, registry.history)))
    }

    /** The gates of one iteration, in the order of the source. */
    method CheckGates(chain: ChainDef, params: map<string, string>, k: nat, step: ChainStep, outputs: map<string, string>)
      returns (blocked: Option<RunError>)
      ensures blocked == Gate(SettingFor(chain, params), k, step, outputs)
    {
      ghost var cfg := SettingFor(chain, params);
      if world.constitution.Some? {
        var verdict := world.constitution.value(step.ability);
        if !verdict.allowed {
          return Some(ConstitutionBlocked(step.ability, step.id, verdict.reason));
        }
      }
      if registry != null {
        var check := registry.Evaluate(Probe(chain.id, outputs, step.ability, world.clock(k), world.parse));
        if !check.proceed {
          return Some(BreakerHalted(step.id, AbortReasons(check.fired)));
        }
        if check.needsConfirm && world.confirm.Some? {
          var fired := FirstConfirm(check.fired).value;
          match world.confirm.value(k, RequestFor(agent, step.ability, fired)) {
            case Some(AllowOnce) =>
            case Some(AllowSession) =>
            case Some(AllowAlwaysAgent) =>
            case Some(Deny) => return Some(UserDenied(step.id, fired.reason));
            case None => return Some(UserDenied(step.id, fired.reason));
          }
        }
      }
      return None;
    }

    /** Gates, template resolution and the ability call of one iteration; a closed gate prevents the call. */
    method Attempt(ghost cfg: Setting, chain: ChainDef, params: map<string, string>, k: nat, step: ChainStep,
                   outputs: map<string, string>)
      returns (blocked: Option<RunError>, args: map<string, string>, answer: Result<AbilityResult, string>)
      requires cfg == SettingFor(chain, params) && Holds(cfg, step, outputs)
      modifies abilities`calls
      ensures cfg == SettingFor(chain, params)
      ensures blocked == Gate(cfg, k, step, outputs)
      ensures blocked.None? ==> Invokes(cfg, k, step, outputs, args, answer)
      ensures abilities.calls == old(abilities.calls) + if blocked.Some? then [] else [Call(k, step.ability, args)]
    {
      args, answer := map[], Err("");
      blocked := CheckGates(chain, params, k, step, outputs);
      if blocked.None? {
        args := ResolveArgs(step.args, params, outputs);
        answer := abilities.ExecuteAbility(world, k, step.ability, args);
      }
    }

    /** Missing parameters end the run before it is recorded and before any call. */
    method Run(chain: ChainDef, params: map<string, string>)
      returns (r: Result<ExecutionResult, RunError>, ghost moves: seq<Move>, ghost calls: seq<Call>)
      requires Valid()
      modifies Rules(), abilities`calls
      ensures Valid() && (registry != null ==> registry.breakers == old(registry.breakers))
      ensures (r.Err? && r.error.MissingParameter?)
         <==> exists i :: 0 <= i < |chain.params| && Missing(chain.params[i], params)
      ensures r.Err? && r.error.MissingParameter? ==> calls == [] && (registry != null ==> registry.log == old(registry.log))
      ensures !(r.Err? && r.error.MissingParameter?) ==>
        && Executes(SettingFor(chain, params), moves, r) && CallsMade(SettingFor(chain, params), moves, r, calls)
        && (registry != null ==> registry.log == WithExecution(old(registry.log), chain.id, world.clock(0)))
      ensures abilities.calls == old(abilities.calls) + calls
    {
      moves, calls := [], [];
      var missing := ValidateParams(chain.params, params);
      if missing.Some? {
        return Err(MissingParameter(missing.value)), [], [];
      }
      if registry != null {
        registry.RecordExecution(chain.id, world.clock(0));
      }
      r, moves, calls := RunSteps(SettingFor(chain, params), chain, params);
    }

    /** The step loop of `Run`. */
    method RunSteps(ghost cfg: Setting, chain: ChainDef, params: map<string, string>)
      returns (r: Result<ExecutionResult, RunError>, ghost moves: seq<Move>, ghost calls: seq<Call>)
      requires cfg == SettingFor(chain, params)
      modifies abilities`calls
      ensures cfg == SettingFor(chain, params)
      ensures Executes(cfg, moves, r) && CallsMade(cfg, moves, r, calls) && abilities.calls == old(abilities.calls) + calls
      ensures !(r.Err? && r.error.MissingParameter?)
    {
      var receipts, outputs, skipped := [], map[], [];
      var hadFailure, visited: set<nat>, idx: nat, k: nat := false, {}, 0, 0;
      ghost var s, before := Start, abilities.calls;
      moves, calls := [], [];
      while idx < |chain.steps|
        invariant cfg == SettingFor(chain, params)
        invariant s == State(idx, outputs, receipts, skipped, hadFailure, visited)
        invariant Reached(cfg, moves, s, calls) && k == |moves|
        invariant abilities.calls == before + calls
        invariant visited <= Indices(|chain.steps|)
        decreases Indices(|chain.steps|) - visited, |chain.steps| - idx
      {
        var step := chain.steps[idx];
        if step.condition.Some? && !step.condition.value.Test(outputs, world.parse) {
          ExtendPath(cfg, moves, s, calls, Skip);
          moves, s := moves + [Skip], Apply(cfg, s, Skip);
          skipped, idx := skipped + [step.id], idx + 1;
        } else {
          var blocked, args, answer := Attempt(cfg, chain, params, k, step, outputs);
          if blocked.Some? {
            GateEnds(cfg, moves, s, calls, blocked.value);
            return Err(blocked.value), moves, calls;
          }
          ghost var c := Call(k, step.ability, args);
          Regroup(before, calls, [c]);
          match answer {
            case Ok(result) =>
              ghost var m := Succeed(args, result);
              ExtendPath(cfg, moves, s, calls, m);
              moves, s, calls := moves + [m], Apply(cfg, s, m), calls + [c];
              outputs := OutputsAfter(world, step, outputs, result.output);
              receipts, idx := receipts + [result.receipt], idx + 1;
            case Err(message) =>
              var target := if step.onFailure.Some? then FindStep(chain.steps, step.onFailure.value) else None;
              if target.None? || target.value in visited {
                FailureEnds(cfg, moves, s, calls, args, message);
                return Err(if target.None? then StepFailed(step.id, message)
                           else FailureCycle(step.id, step.onFailure.value)), moves, calls + [c];
              }
              ghost var m := Jump(args, message, target.value);
              ExtendPath(cfg, moves, s, calls, m);
              moves, s, calls := moves + [m], Apply(cfg, s, m), calls + [c];
              outputs := outputs[step.id + "_error" := ErrorText(message)];
              hadFailure, visited, idx := true, visited + {target.value}, target.value;
          }
        }
        k := k + 1;
      }
      CompletionEnds(cfg, moves, s, calls);
      return Ok(ExecutionResult(!hadFailure, receipts, outputs, skipped)), moves, calls;
    }
  }
}
