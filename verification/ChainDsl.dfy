/** Chain definitions, their static check, and step conditions (src/chain/dsl.rs). */
module ChainDsl {
  import opened Prelude
  import opened Strings

  /** An `f64` without its rounding: infinities and NaN compare as IEEE 754 says. */
  datatype F64 = NaN | NegInf | PosInf | Finite(r: real)
  {
    predicate GreaterThan(other: F64) {
      match (this, other)
      case (NaN, _) => false
      case (_, NaN) => false
      case (Finite(a), Finite(b)) => a > b
      case (PosInf, b) => b != PosInf
      case (_, NegInf) => this != NegInf
      case _ => false
    }
  }

  /** `str::parse::<f64>`, left uninterpreted. */
  type F64Parser = string -> Option<F64>

  datatype ParamDef = ParamDef(name: string, required: bool, default: Option<string>)

  datatype ConditionOp = Equals | NotEquals | Contains | GreaterThan | LessThan | IsEmpty | IsNotEmpty

  datatype StepCondition = StepCondition(refKey: string, op: ConditionOp, value: string)
  {
    function Test(outputs: map<string, string>, parse: F64Parser): bool {
      var v := if refKey in outputs then Some(outputs[refKey]) else None;
      match op
      case IsEmpty => v.None? || v.value == ""
      case IsNotEmpty => v.Some? && v.value != ""
      case Equals => v == Some(value)
      case NotEquals => v != Some(value)
      case Contains => v.Some? && Strings.Contains(v.value, value)
      case GreaterThan => v.Some? && parse(v.value).Some? && parse(value).Some?
                          && parse(v.value).value.GreaterThan(parse(value).value)
      case LessThan => v.Some? && parse(v.value).Some? && parse(value).Some?
                       && parse(value).value.GreaterThan(parse(v.value).value)
    }
  }

  datatype ChainStep = ChainStep(
    id: string,
    ability: string,
    args: map<string, string>,
    outputKey: Option<string>,
    condition: Option<StepCondition>,
    onFailure: Option<string>)

  datatype ChainDef = ChainDef(id: string, params: seq<ParamDef>, steps: seq<ChainStep>)

  /** `steps.iter().position(|s| s.id == id)`. */
  function FindStep(steps: seq<ChainStep>, id: string): (r: Option<nat>)
    ensures r.Some? ==> r.value < |steps| && steps[r.value].id == id && forall i :: 0 <= i < r.value ==> steps[i].id != id
    ensures r.None? ==> forall i :: 0 <= i < |steps| ==> steps[i].id != id
  {
    if steps == [] then None
    else if steps[0].id == id then Some(0)
    else match FindStep(steps[1..], id)
      case None => None
      case Some(i) => Some(i + 1)
  }

  datatype CheckError =
    | EmptyChainId
    | NoSteps
    | DuplicateStepId(id: string)
    | UnknownFailureTarget(step: string, target: string)

  ghost predicate DistinctIds(steps: seq<ChainStep>) {
    forall i, j :: 0 <= i < j < |steps| ==> steps[i].id != steps[j].id
  }

  predicate TargetExists(steps: seq<ChainStep>, step: ChainStep) {
    step.onFailure.Some? ==> FindStep(steps, step.onFailure.value).Some?
  }

  /** What `check` promises about an accepted chain. */
  ghost predicate WellFormed(chain: ChainDef) {
    && chain.id != ""
    && chain.steps != []
    && DistinctIds(chain.steps)
    && forall i :: 0 <= i < |chain.steps| ==> TargetExists(chain.steps, chain.steps[i])
  }

  /** Accepts exactly the well-formed chains, and reports the first defect of the others. */
  method Check(chain: ChainDef) returns (r: Result<(), CheckError>)
    ensures r.Ok? <==> WellFormed(chain)
    ensures r == Err(EmptyChainId) <==> chain.id == ""
    ensures r == Err(NoSteps) <==> chain.id != "" && chain.steps == []
    ensures r.Err? && r.error.DuplicateStepId? ==>
      exists i, j :: 0 <= i < j < |chain.steps| && chain.steps[i].id == chain.steps[j].id == r.error.id
                     && DistinctIds(chain.steps[..j])
    ensures r.Err? && r.error.UnknownFailureTarget? ==>
      && DistinctIds(chain.steps)
      && (exists i :: 0 <= i < |chain.steps| && !TargetExists(chain.steps, chain.steps[i])
                      && r.error == UnknownFailureTarget(chain.steps[i].id, chain.steps[i].onFailure.value)
                      && forall j :: 0 <= j < i ==> TargetExists(chain.steps, chain.steps[j]))
  {
    if chain.id == "" {
      return Err(EmptyChainId);
    }
    if chain.steps == [] {
      return Err(NoSteps);
    }
    var seen: set<string> := {};
    for j := 0 to |chain.steps|
      invariant forall s :: s in seen <==> exists i :: 0 <= i < j && chain.steps[i].id == s
      invariant DistinctIds(chain.steps[..j])
    {
      var sid := chain.steps[j].id;
      if sid in seen {
        return Err(DuplicateStepId(sid));
      }
      assert forall i :: 0 <= i < j ==> chain.steps[i].id != sid && chain.steps[..j + 1][i] == chain.steps[..j][i];
      seen := seen + {sid};
    }
    assert chain.steps[..|chain.steps|] == chain.steps;
    for i := 0 to |chain.steps|
      invariant forall j :: 0 <= j < i ==> TargetExists(chain.steps, chain.steps[j])
    {
      var step := chain.steps[i];
      if step.onFailure.Some? && FindStep(chain.steps, step.onFailure.value).None? {
        return Err(UnknownFailureTarget(step.id, step.onFailure.value));
      }
    }
    return Ok(());
  }

  // ---------------------------------------------------------------------------------------
  // What the operators say of a value
  // ---------------------------------------------------------------------------------------

  /** `r` lies below `a` and not below `b`. */
  ghost predicate Separates(r: real, a: F64, b: F64) {
    (a.PosInf? || (a.Finite? && a.r > r)) && (b.NegInf? || (b.Finite? && b.r <= r))
  }

  /** The order of the extended reals, in which NaN has no place. */
  ghost predicate Exceeds(a: F64, b: F64) { exists r: real :: Separates(r, a, b) }

  lemma {:induction false} GreaterThanIff(a: F64, b: F64)
    ensures a.GreaterThan(b) <==> Exceeds(a, b)
  {
    if a.GreaterThan(b) {
      var r := if b.Finite? then b.r else if a.Finite? then a.r - 1.0 else 0.0;
      assert Separates(r, a, b);
    }
  }

  /** Two numbers compare as numbers. */
  lemma {:induction false} NumericConditions(c: StepCondition, outputs: map<string, string>, parse: F64Parser, a: real, b: real)
    requires c.refKey in outputs && parse(outputs[c.refKey]) == Some(Finite(a)) && parse(c.value) == Some(Finite(b))
    ensures c.op.GreaterThan? ==> (c.Test(outputs, parse) <==> a > b)
    ensures c.op.LessThan? ==> (c.Test(outputs, parse) <==> a < b)
  {
  }

  /** If one side is no number, neither comparison holds. */
  lemma {:induction false} UnparsedConditions(c: StepCondition, outputs: map<string, string>, parse: F64Parser)
    requires c.refKey in outputs && (parse(outputs[c.refKey]).None? || parse(c.value).None?)
    ensures c.op.GreaterThan? || c.op.LessThan? ==> !c.Test(outputs, parse)
  {
  }

  /** The text operators on a present value. */
  lemma {:induction false} TextConditions(c: StepCondition, outputs: map<string, string>, parse: F64Parser)
    requires c.refKey in outputs
    ensures c.op.Equals? ==> (c.Test(outputs, parse) <==> outputs[c.refKey] == c.value)
    ensures c.op.NotEquals? ==> (c.Test(outputs, parse) <==> outputs[c.refKey] != c.value)
    ensures c.op.Contains? ==> (c.Test(outputs, parse) <==> exists i: nat :: OccursAt(outputs[c.refKey], c.value, i))
    ensures c.op.IsEmpty? ==> (c.Test(outputs, parse) <==> |outputs[c.refKey]| == 0)
    ensures c.op.IsNotEmpty? ==> (c.Test(outputs, parse) <==> |outputs[c.refKey]| > 0)
  {
    ContainsIff(outputs[c.refKey], c.value);
  }

  /** The relation between an output, which may be missing, and the value of the condition. */
  ghost predicate Related(op: ConditionOp, output: Option<string>, value: string, parse: F64Parser) {
    match op
    case Equals => output == Some(value)
    case NotEquals => output != Some(value)
    case IsEmpty => output.Some? ==> |output.value| == 0
    case IsNotEmpty => output.Some? && |output.value| > 0
    case Contains => output.Some? && exists i: nat :: OccursAt(output.value, value, i)
    case GreaterThan => output.Some? && exists a, b :: parse(output.value) == Some(a) && parse(value) == Some(b) && Exceeds(a, b)
    case LessThan => output.Some? && exists a, b :: parse(output.value) == Some(a) && parse(value) == Some(b) && Exceeds(b, a)
  }

  ghost function OutputAt(outputs: map<string, string>, key: string): Option<string> {
    if key in outputs then Some(outputs[key]) else None
  }

  /** A condition holds exactly if its output stands in the relation. */
  lemma {:induction false} ConditionIsRelation(c: StepCondition, outputs: map<string, string>, parse: F64Parser)
    ensures c.Test(outputs, parse) <==> Related(c.op, OutputAt(outputs, c.refKey), c.value, parse)
  {
    if c.refKey in outputs {
      var v := outputs[c.refKey];
      ContainsIff(v, c.value);
      if parse(v).Some? && parse(c.value).Some? {
        GreaterThanIff(parse(v).value, parse(c.value).value);
        GreaterThanIff(parse(c.value).value, parse(v).value);
      }
    }
  }

  /** Before any output exists, exactly the `is_empty` and `not_equals` conditions hold. */
  lemma {:induction false} ConditionWithoutOutputs(c: StepCondition, outputs: map<string, string>, parse: F64Parser)
    requires c.refKey !in outputs
    ensures c.Test(outputs, parse) <==> c.op.IsEmpty? || c.op.NotEquals?
  {
  }
}
