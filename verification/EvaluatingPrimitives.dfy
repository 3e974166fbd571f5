/** Primitives that call the evaluator: eval and apply, as instances of what a primitive may be. */
module EvaluatingPrimitives {
  import opened Options
  import opened Objects
  import opened Arguments
  import opened Evaluation

  /** eval: an expression, in the environment given or that of the call; or a function or a
      primitive and its arguments. */
  ghost function EvalStep(prims: Primitives, x: Obj, args: Args, env: EnvId, answers: seq<Obj>, st: Store): (r: Action)
    requires Valid(st) && env < |st.envs|
    ensures Proper(r, st)
  {
    var given := if "env" in args.named then CallableAt(st, args.named["env"]) else Some(EnvRef(env));
    if args.unnamed == [] || given.None? || !given.value.EnvRef? then Finish(Run(Fault(x), st))
    else if |args.unnamed| == 1 then
      if answers == [] then Evaluate(args.unnamed[0], given.value.env, st) else Finish(Run(Value(answers[0]), st))
    else
      var f := CallableAt(st, args.unnamed[0]);
      if f.Some? && f.value.Function? then CallStep(args.unnamed[0], args.unnamed[1..], answers, st)
      else if f.Some? && f.value.Primitive? then
        prims(f.value.id, x, Args(args.unnamed[1..], map[], NoneObj), given.value.env, answers, st)
      else Finish(Run(Fault(x), st))
  }

  // A function called from a primitive.
  ghost function CallStep(f: Obj, args: seq<Obj>, answers: seq<Obj>, st: Store): (r: Action)
    requires Valid(st) && IsFunction(st, f)
    ensures Proper(r, st)
  {
    var fn := st.heap[f.ref];
    var given := DirectArgs(args, fn.spec);
    if answers != [] then Finish(Run(Value(answers[0]), st))
    else if given.None? then Finish(Run(Fault(f), st))
    else
      var bound := BindArgs(map[], given.value, fn.spec);
      if bound.Good? then EvaluateBody(fn.body, LambdaEnv(fn, bound.value), st)
      else Finish(Run(Rejected(bound, CALL_LAMBDA), st))
  }

  /** apply: a function or a primitive, or the name of one, and the list of its arguments. */
  ghost function ApplyStep(prims: Primitives, x: Obj, args: Args, env: EnvId, answers: seq<Obj>, st: Store): (r: Action)
    requires Valid(st) && env < |st.envs|
    ensures Proper(r, st)
  {
    if |args.unnamed| != 2 || args.named != map[] || !(args.unnamed[0].Sym? || CanBeApplied(CallableAt(st, args.unnamed[0]))) then
      Finish(Run(Fault(x), st))
    else if !args.unnamed[0].Sym? then ApplyTo(prims, args.unnamed[0], ListItems(args.unnamed[1]), x, env, answers, st)
    else if answers == [] then Evaluate(args.unnamed[0], env, st)
    else ApplyTo(prims, answers[0], ListItems(args.unnamed[1]), x, env, answers[1..], st)
  }

  predicate CanBeApplied(c: Option<Callable>) {
    c.Some? && (c.value.Function? || c.value.Primitive? || c.value.SpecialForm?)
  }

  ghost function ApplyTo(prims: Primitives, f: Obj, items: seq<Obj>, x: Obj, env: EnvId, answers: seq<Obj>, st: Store): (r: Action)
    requires Valid(st) && env < |st.envs|
    ensures Proper(r, st)
  {
    var c := CallableAt(st, f);
    var args := Args(items, map[], NoneObj);
    if c.Some? && c.value.Primitive? then prims(c.value.id, x, args, env, answers, st)
    else if c.None? || !c.value.Function? then Finish(Run(Fault(x), st))
    else if answers != [] then Finish(Run(Value(answers[0]), st))
    else
      var bound := BindArgs(map[], args, c.value.spec);
      if bound.Good? then EvaluateBody(c.value.body, ApplyEnv(c.value, bound.value), st) else Finish(Run(Rejected(bound, x), st))
  }

  function ApplyEnv(fn: Callable, vars: map<string, Obj>): Env
    requires fn.Function?
  {
    Env("apply", Some(fn.env), vars, NoneObj, false)
  }

  // The primitive with this number is eval, or apply.
  ghost predicate IsEval(prims: Primitives, id: nat) {
    forall x, args, env: EnvId, answers, st :: Valid(st) && env < |st.envs| ==>
      prims(id, x, args, env, answers, st) == EvalStep(prims, x, args, env, answers, st)
  }

  ghost predicate IsApply(prims: Primitives, id: nat) {
    forall x, args, env: EnvId, answers, st :: Valid(st) && env < |st.envs| ==>
      prims(id, x, args, env, answers, st) == ApplyStep(prims, x, args, env, answers, st)
  }

  // A primitive that makes one call of the evaluator and ends with its value.
  ghost predicate EndsWithAnswer(prims: Primitives, id: nat, x: Obj, args: Args, env: EnvId, answer: Run)
    requires Valid(answer.st) && env < |answer.st.envs|
  {
    answer.out.Value? ==> prims(id, x, args, env, [answer.out.o], answer.st) == Finish(answer)
  }

  lemma ResumesWithAnswer(prims: Primitives, fuel: nat, id: nat, x: Obj, args: Args, env: EnvId, answer: Run)
    requires Valid(answer.st) && env < |answer.st.envs| && fuel > 0 && EndsWithAnswer(prims, id, x, args, env, answer)
    ensures Resume(prims, fuel, id, x, args, env, [], answer) == answer
  {
    if answer.out.Value? {
      assert [] + [answer.out.o] == [answer.out.o];
      assert Interact(prims, fuel - 1, id, x, args, env, [answer.out.o], answer.st) == answer;
    }
  }

  // What eval makes of one argument is what that argument means.
  lemma EvalPrimitiveEvaluates(prims: Primitives, fuel: nat, id: nat, x: Obj, form: Obj, env: EnvId, st: Store)
    requires Valid(st) && env < |st.envs| && fuel > 0 && IsEval(prims, id)
    ensures Interact(prims, fuel, id, x, Args([form], map[], NoneObj), env, [], st) == EvalForm(prims, fuel, form, env, st)
  {
    ResumesWithAnswer(prims, fuel, id, x, Args([form], map[], NoneObj), env, EvalForm(prims, fuel, form, env, st));
  }

  // What eval makes of a function and arguments is a call of that function.
  lemma EvalPrimitiveCalls(prims: Primitives, fuel: nat, id: nat, x: Obj, f: Obj, values: seq<Obj>, env: EnvId, st: Store)
    requires Valid(st) && env < |st.envs| && fuel > 0 && IsEval(prims, id) && IsFunction(st, f) && values != []
    ensures Interact(prims, fuel, id, x, Args([f] + values, map[], NoneObj), env, [], st) == CallFunction(prims, fuel, f, values, st)
  {
    var args := Args([f] + values, map[], NoneObj);
    assert args.unnamed[0] == f && args.unnamed[1..] == values;
    var answer := CallFunction(prims, fuel, f, values, st);
    assert IsFunction(answer.st, f);
    assert prims(id, x, args, env, [], st) == CallStep(f, values, [], st);
    ResumesWithAnswer(prims, fuel, id, x, args, env, answer);
  }

  // What apply makes of a function and a list is its body with the list for positional arguments.
  lemma ApplyPrimitiveCalls(prims: Primitives, fuel: nat, id: nat, x: Obj, f: Obj, list: Obj, env: EnvId, st: Store)
    requires Valid(st) && env < |st.envs| && fuel > 0 && IsApply(prims, id) && IsFunction(st, f)
    ensures var fn := st.heap[f.ref];
            var bound := BindArgs(map[], Args(ListItems(list), map[], NoneObj), fn.spec);
            Interact(prims, fuel, id, x, Args([f, list], map[], NoneObj), env, [], st)
            == if bound.Good? then EvalInside(prims, fuel, fn.body, ApplyEnv(fn, bound.value), st)
               else Run(Rejected(bound, x), st)
  {
    var args := Args([f, list], map[], NoneObj);
    var fn := st.heap[f.ref];
    var bound := BindArgs(map[], Args(ListItems(list), map[], NoneObj), fn.spec);
    assert prims(id, x, args, env, [], st) == ApplyTo(prims, f, ListItems(list), x, env, [], st);
    if bound.Good? {
      var answer := EvalInside(prims, fuel, fn.body, ApplyEnv(fn, bound.value), st);
      assert IsFunction(answer.st, f);
      ResumesWithAnswer(prims, fuel, id, x, args, env, answer);
    }
  }

  // A call binds what apply binds unless there are more arguments than parameters: apply leaves
  // the rest parameter empty all the same.
  lemma ApplyLosesRest(items: seq<Obj>, spec: Spec)
    requires !spec.varargs && spec.named == map[] && TakesCount(spec, |items|)
    ensures var called := BindArgs(map[], GivenArgs(items, spec), spec);
            var applied := BindArgs(map[], Args(items, map[], NoneObj), spec);
            && called.Good? && applied.Good?
            && (called == applied <==> |items| == |spec.unnamed|)
            && (spec.rest != "" ==> applied.value[spec.rest] == Null)
  {
    var n := |spec.unnamed|;
    PositionsComeFirst(map[], spec.unnamed, items, n);
    if n < |items| {
      var called := BindArgs(map[], GivenArgs(items, spec), spec);
      assert called.value[spec.rest] == BuildList(items[n..], Null) && BuildList(items[n..], Null).Pair?;
    } else {
      assert items[..n] == items && BuildList(items[n..], Null) == Null;
    }
  }

  lemma {:induction false} PositionsComeFirst(vars: map<string, Obj>, positions: seq<Positional>, values: seq<Obj>, n: nat)
    requires |positions| <= n <= |values|
    ensures BindPositional(vars, positions, values) == BindPositional(vars, positions, values[..n])
    decreases |positions|
  {
    if positions != [] {
      PositionsComeFirst(vars, positions[..|positions| - 1], values, n);
    }
  }
}
