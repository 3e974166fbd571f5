/** The number of steps allowed does not matter: an evaluation that ends, ends the same way, with
    the same store, however many more steps it is given. */
module FuelIndependence {
  import opened Options
  import opened Objects
  import opened Arguments
  import opened Evaluation

  // If the run with less fuel ends, the run with more fuel is the same.
  ghost predicate Stable(less: Run, more: Run) {
    !less.out.OutOfFuel? ==> more == less
  }

  lemma {:induction false} FormWithMore(prims: Primitives, fuel: nat, x: Obj, env: EnvId, st: Store)
    requires Valid(st) && env < |st.envs|
    ensures Stable(EvalForm(prims, fuel, x, env, st), EvalForm(prims, fuel + 1, x, env, st))
    decreases fuel, 0
  {
    if fuel > 0 {
      ObjectWithMore(prims, fuel - 1, x, env, st);
      AttendWithMore(prims, fuel - 1, x, env, EvalObject(prims, fuel - 1, x, env, st));
    }
  }

  lemma {:induction false} AttendWithMore(prims: Primitives, fuel: nat, x: Obj, env: EnvId, r: Run)
    requires Valid(r.st) && env < |r.st.envs|
    ensures Stable(Attend(prims, fuel, x, env, r), Attend(prims, fuel + 1, x, env, r))
    decreases fuel, 21
  {
    if r.out.Raised? {
      HandleWithMore(prims, fuel, env, WithContext(r.out.e, x, r.st.envs[env].name), r.st);
    }
  }

  lemma {:induction false} BareWithMore(prims: Primitives, fuel: nat, x: Obj, env: EnvId, st: Store)
    requires Valid(st) && env < |st.envs|
    ensures Stable(EvalBare(prims, fuel, x, env, st), EvalBare(prims, fuel + 1, x, env, st))
    decreases fuel, 0
  {
    if fuel > 0 {
      ObjectWithMore(prims, fuel - 1, x, env, st);
    }
  }

  lemma {:induction false} HandleWithMore(prims: Primitives, fuel: nat, env: EnvId, e: Err, st: Store)
    requires Valid(st) && env < |st.envs|
    ensures Stable(Handle(prims, fuel, env, e, st), Handle(prims, fuel + 1, env, e, st))
    decreases fuel, 20
  {
    var handler := st.envs[env].handler;
    if IsFunction(st, handler) {
      CallFunctionWithMore(prims, fuel, handler, [Str(e.message), e.form, TraceList(e.trace)], st);
    }
  }

  lemma {:induction false} CallFunctionWithMore(prims: Primitives, fuel: nat, f: Obj, args: seq<Obj>, st: Store)
    requires Valid(st) && IsFunction(st, f)
    ensures Stable(CallFunction(prims, fuel, f, args, st), CallFunction(prims, fuel + 1, f, args, st))
    decreases fuel, 10
  {
    var fn := st.heap[f.ref];
    var given := DirectArgs(args, fn.spec);
    if given.Some? && BindArgs(map[], given.value, fn.spec).Good? {
      InsideWithMore(prims, fuel, fn.body, LambdaEnv(fn, BindArgs(map[], given.value, fn.spec).value), st);
    }
  }

  lemma {:induction false} InsideWithMore(prims: Primitives, fuel: nat, forms: Obj, inner: Env, st: Store)
    requires Valid(st) && (inner.parent.Some? ==> inner.parent.value < |st.envs|)
    ensures Stable(EvalInside(prims, fuel, forms, inner, st), EvalInside(prims, fuel + 1, forms, inner, st))
    decreases fuel, 1, forms, 1
  {
    BodyWithMore(prims, fuel, forms, |st.envs|, NewEnv(st, inner));
  }

  lemma {:induction false} ObjectWithMore(prims: Primitives, fuel: nat, x: Obj, env: EnvId, st: Store)
    requires Valid(st) && env < |st.envs|
    ensures Stable(EvalObject(prims, fuel, x, env, st), EvalObject(prims, fuel + 1, x, env, st))
    decreases fuel, 20
  {
    if x.Pair? {
      var head := EvalForm(prims, fuel, x.car, env, st);
      FormWithMore(prims, fuel, x.car, env, st);
      if head.out.Value? {
        ApplyWithMore(prims, fuel, head.out.o, x, env, head.st);
      }
    }
  }

  lemma {:induction false} ApplyWithMore(prims: Primitives, fuel: nat, f: Obj, x: Obj, env: EnvId, st: Store)
    requires Valid(st) && env < |st.envs| && x.Pair?
    ensures Stable(Apply(prims, fuel, f, x, env, st), Apply(prims, fuel + 1, f, x, env, st))
    decreases fuel, 18
  {
    match CallableAt(st, f)
    case None =>
    case Some(c) =>
      match c
      case SpecialForm(which) => SpecialWithMore(prims, fuel, which, x, env, st);
      case Primitive(_, _) => PrimitiveWithMore(prims, fuel, c, x, env, st);
      case Macro(_, _) => MacroWithMore(prims, fuel, c, x, env, st);
      case Function(_, _, _) => LambdaCallWithMore(prims, fuel, c, x, env, st);
      case EnvRef(_) =>
  }

  lemma {:induction false} PrimitiveWithMore(prims: Primitives, fuel: nat, c: Callable, x: Obj, env: EnvId, st: Store)
    requires Valid(st) && env < |st.envs| && x.Pair? && c.Primitive?
    ensures Stable(CallPrimitive(prims, fuel, c, x, env, st), CallPrimitive(prims, fuel + 1, c, x, env, st))
    decreases fuel, 10
  {
    var args := PrimitiveArgs(x.cdr, c.spec);
    if args.Good? {
      var all := EvalArgs(prims, fuel, args.value, env, st);
      ArgsWithMore(prims, fuel, args.value, env, st);
      if all.AllArgs? {
        InteractWithMore(prims, fuel, c.id, x, all.args, env, [], all.st);
      }
    }
  }

  lemma {:induction false} InteractWithMore(prims: Primitives, fuel: nat, id: nat, x: Obj, args: Args, env: EnvId, answers: seq<Obj>,
                                            st: Store)
    requires Valid(st) && env < |st.envs|
    ensures Stable(Interact(prims, fuel, id, x, args, env, answers, st), Interact(prims, fuel + 1, id, x, args, env, answers, st))
    decreases fuel, 9
  {
    var action := prims(id, x, args, env, answers, st);
    assert Proper(action, st);
    match action
    case Finish(_) =>
    case Evaluate(form, inner, st') =>
      FormWithMore(prims, fuel, form, inner, st');
      KeepsOn(st, st', EvalForm(prims, fuel, form, inner, st').st);
      ResumeWithMore(prims, fuel, id, x, args, env, answers, EvalForm(prims, fuel, form, inner, st'));
    case EvaluateBody(forms, inner, st') =>
      InsideWithMore(prims, fuel, forms, inner, st');
      KeepsOn(st, st', EvalInside(prims, fuel, forms, inner, st').st);
      ResumeWithMore(prims, fuel, id, x, args, env, answers, EvalInside(prims, fuel, forms, inner, st'));
  }

  lemma {:induction false} ResumeWithMore(prims: Primitives, fuel: nat, id: nat, x: Obj, args: Args, env: EnvId, answers: seq<Obj>,
                                          answer: Run)
    requires Valid(answer.st) && env < |answer.st.envs|
    ensures Stable(Resume(prims, fuel, id, x, args, env, answers, answer), Resume(prims, fuel + 1, id, x, args, env, answers, answer))
    decreases fuel, 0
  {
    if answer.out.Value? && fuel > 0 {
      InteractWithMore(prims, fuel - 1, id, x, args, env, answers + [answer.out.o], answer.st);
    }
  }

  lemma {:induction false} LambdaCallWithMore(prims: Primitives, fuel: nat, c: Callable, x: Obj, env: EnvId, st: Store)
    requires Valid(st) && env < |st.envs| && x.Pair? && c.Function? && c.env < |st.envs|
    ensures Stable(CallLambda(prims, fuel, c, x, env, st), CallLambda(prims, fuel + 1, c, x, env, st))
    decreases fuel, 10
  {
    var args := CollectArgs(x.cdr, c.spec);
    if args.Good? {
      var all := EvalArgs(prims, fuel, args.value, env, st);
      ArgsWithMore(prims, fuel, args.value, env, st);
      if all.AllArgs? && BindArgs(map[], all.args, c.spec).Good? {
        InsideWithMore(prims, fuel, c.body, LambdaEnv(c, BindArgs(map[], all.args, c.spec).value), all.st);
      }
    }
  }

  lemma {:induction false} MacroWithMore(prims: Primitives, fuel: nat, c: Callable, x: Obj, env: EnvId, st: Store)
    requires Valid(st) && env < |st.envs| && x.Pair? && c.Macro?
    ensures Stable(ExpandMacro(prims, fuel, c, x, env, st), ExpandMacro(prims, fuel + 1, c, x, env, st))
    decreases fuel, 10
  {
    var args := CollectArgs(x.cdr, c.spec);
    if args.Good? && BindArgs(map[], args.value, c.spec).Good? {
      var inner := Env("", Some(env), BindArgs(map[], args.value, c.spec).value, NoneObj, false);
      var expansion := EvalInside(prims, fuel, c.body, inner, st);
      InsideWithMore(prims, fuel, c.body, inner, st);
      if expansion.out.Value? {
        FormWithMore(prims, fuel, expansion.out.o, env, expansion.st);
      }
    }
  }

  lemma {:induction false} BodyWithMore(prims: Primitives, fuel: nat, forms: Obj, env: EnvId, st: Store)
    requires Valid(st) && env < |st.envs|
    ensures Stable(EvalBody(prims, fuel, forms, env, st), EvalBody(prims, fuel + 1, forms, env, st))
    decreases fuel, 1, forms, 0
  {
    if forms.Pair? {
      var r := EvalForm(prims, fuel, forms.car, env, st);
      FormWithMore(prims, fuel, forms.car, env, st);
      if r.out.Value? && !forms.cdr.Null? {
        BodyWithMore(prims, fuel, forms.cdr, env, r.st);
      }
    }
  }

  ghost predicate EachEnds(r: RunEach) {
    r.Halted? ==> !r.r.out.OutOfFuel?
  }

  ghost predicate ArgsEnd(r: RunArgs) {
    r.Stopped? ==> !r.r.out.OutOfFuel?
  }

  lemma {:induction false} EachWithMore(prims: Primitives, fuel: nat, forms: seq<Obj>, env: EnvId, st: Store)
    requires Valid(st) && env < |st.envs|
    ensures EachEnds(EvalEach(prims, fuel, forms, env, st)) ==> EvalEach(prims, fuel + 1, forms, env, st) == EvalEach(prims, fuel, forms, env, st)
    decreases fuel, 1, |forms|
  {
    if forms != [] {
      var n := |forms| - 1;
      var before := EvalEach(prims, fuel, forms[..n], env, st);
      EachWithMore(prims, fuel, forms[..n], env, st);
      if before.Each? {
        FormWithMore(prims, fuel, forms[n], env, before.st);
      }
    }
  }

  lemma {:induction false} ArgsWithMore(prims: Primitives, fuel: nat, args: Args, env: EnvId, st: Store)
    requires Valid(st) && env < |st.envs|
    ensures ArgsEnd(EvalArgs(prims, fuel, args, env, st)) ==> EvalArgs(prims, fuel + 1, args, env, st) == EvalArgs(prims, fuel, args, env, st)
    decreases fuel, 2
  {
    var named := ValuesOf(Alphabetical(args.named.Keys), args.named);
    var first := EvalEach(prims, fuel, args.unnamed, env, st);
    EachWithMore(prims, fuel, args.unnamed, env, st);
    if first.Each? {
      var second := EvalEach(prims, fuel, named, env, first.st);
      EachWithMore(prims, fuel, named, env, first.st);
      if second.Each? {
        EachWithMore(prims, fuel, ListItems(args.rest), env, second.st);
      }
    }
  }

  lemma {:induction false} SpecialWithMore(prims: Primitives, fuel: nat, which: Special, x: Obj, env: EnvId, st: Store)
    requires Valid(st) && env < |st.envs| && x.Pair?
    ensures Stable(EvalSpecial(prims, fuel, which, x, env, st), EvalSpecial(prims, fuel + 1, which, x, env, st))
    decreases fuel, 17
  {
    match which
    case Quote =>
    case Define => DefineWithMore(prims, fuel, x, env, st);
    case SetBang => SetWithMore(prims, fuel, x, env, st);
    case Lambda =>
    case MacroForm =>
    case Cond => if x.cdr.Pair? { CondWithMore(prims, fuel, x.cdr, x, env, st); }
    case While => if x.cdr.Pair? && x.cdr.cdr.Pair? { WhileWithMore(prims, fuel, x.cdr.car, x.cdr.cdr, Null, env, st); }
    case Let => LetWithMore(prims, fuel, x, false, env, st);
    case LetStar => LetWithMore(prims, fuel, x, true, env, st);
    case WithErrorHandler => WithErrorHandlerWithMore(prims, fuel, x, env, st);
  }

  lemma {:induction false} DefineWithMore(prims: Primitives, fuel: nat, x: Obj, env: EnvId, st: Store)
    requires Valid(st) && env < |st.envs| && x.Pair?
    ensures Stable(EvalDefine(prims, fuel, x, env, st), EvalDefine(prims, fuel + 1, x, env, st))
    decreases fuel, 10
  {
    var args := PrimitiveArgs(x.cdr, VARARGS_AND_KEYS);
    if args.Good? && SymbolAndForm(args.value, {"env"}) && args.value.unnamed[0].name !in st.constants {
      var name, form := args.value.unnamed[0].name, args.value.unnamed[1];
      if "env" !in args.value.named {
        DefineInWithMore(prims, fuel, name, form, env, env, st);
      } else {
        var target := EvalForm(prims, fuel, args.value.named["env"], env, st);
        FormWithMore(prims, fuel, args.value.named["env"], env, st);
        if target.out.Value? && CallableAt(target.st, target.out.o).Some? && CallableAt(target.st, target.out.o).value.EnvRef? {
          DefineInWithMore(prims, fuel, name, form, CallableAt(target.st, target.out.o).value.env, env, target.st);
        }
      }
    }
  }

  lemma {:induction false} DefineInWithMore(prims: Primitives, fuel: nat, name: string, form: Obj, target: EnvId, env: EnvId, st: Store)
    requires Valid(st) && env < |st.envs| && target < |st.envs| && name !in st.constants
    ensures Stable(DefineIn(prims, fuel, name, form, target, env, st), DefineIn(prims, fuel + 1, name, form, target, env, st))
    decreases fuel, 5
  {
    FormWithMore(prims, fuel, form, env, st);
  }

  lemma {:induction false} SetWithMore(prims: Primitives, fuel: nat, x: Obj, env: EnvId, st: Store)
    requires Valid(st) && env < |st.envs| && x.Pair?
    ensures Stable(EvalSet(prims, fuel, x, env, st), EvalSet(prims, fuel + 1, x, env, st))
    decreases fuel, 10
  {
    var args := PrimitiveArgs(x.cdr, VARARGS);
    if args.Good? && SymbolAndForm(args.value, {}) {
      FormWithMore(prims, fuel, args.value.unnamed[1], env, st);
    }
  }

  lemma {:induction false} CondWithMore(prims: Primitives, fuel: nat, clauses: Obj, x: Obj, env: EnvId, st: Store)
    requires Valid(st) && env < |st.envs|
    ensures Stable(EvalCond(prims, fuel, clauses, x, env, st), EvalCond(prims, fuel + 1, clauses, x, env, st))
    decreases fuel, 3, clauses
  {
    if clauses.Pair? && clauses.car.Pair? {
      var test := EvalForm(prims, fuel, clauses.car.car, env, st);
      FormWithMore(prims, fuel, clauses.car.car, env, st);
      if test.out.Value? && !IsTrue(test.out.o) {
        CondWithMore(prims, fuel, clauses.cdr, x, env, test.st);
      } else if test.out.Value? && !clauses.car.cdr.Null? {
        BodyWithMore(prims, fuel, clauses.car.cdr, env, test.st);
      }
    }
  }

  lemma {:induction false} WhileWithMore(prims: Primitives, fuel: nat, test: Obj, body: Obj, result: Obj, env: EnvId, st: Store)
    requires Valid(st) && env < |st.envs|
    ensures Stable(EvalWhile(prims, fuel, test, body, result, env, st), EvalWhile(prims, fuel + 1, test, body, result, env, st))
    decreases fuel, 4
  {
    FormWithMore(prims, fuel, test, env, st);
    RoundWithMore(prims, fuel, test, body, result, EvalForm(prims, fuel, test, env, st), env);
  }

  lemma {:induction false} RoundWithMore(prims: Primitives, fuel: nat, test: Obj, body: Obj, result: Obj, t: Run, env: EnvId)
    requires Valid(t.st) && env < |t.st.envs|
    ensures Stable(EvalRound(prims, fuel, test, body, result, t, env), EvalRound(prims, fuel + 1, test, body, result, t, env))
    decreases fuel, 3
  {
    if !EvalRound(prims, fuel, test, body, result, t, env).out.OutOfFuel? {
      EndingRoundWithMore(prims, fuel, test, body, result, t, env);
    }
  }

  lemma {:induction false} EndingRoundWithMore(prims: Primitives, fuel: nat, test: Obj, body: Obj, result: Obj, t: Run, env: EnvId)
    requires Valid(t.st) && env < |t.st.envs| && !EvalRound(prims, fuel, test, body, result, t, env).out.OutOfFuel?
    ensures EvalRound(prims, fuel + 1, test, body, result, t, env) == EvalRound(prims, fuel, test, body, result, t, env)
    decreases fuel, 2, body, 1
  {
    if t.out.Value? && IsTrue(t.out.o) {
      var round := EvalLoopBody(prims, fuel, body, result, env, t.st);
      assert EvalRound(prims, fuel, test, body, result, t, env) == EvalAgain(prims, fuel, test, body, round, env);
      LoopBodyWithMore(prims, fuel, body, result, env, t.st);
      AgainWithMore(prims, fuel, test, body, round, env);
      assert EvalRound(prims, fuel + 1, test, body, result, t, env) == EvalAgain(prims, fuel + 1, test, body, round, env);
    }
  }

  lemma {:induction false} AgainWithMore(prims: Primitives, fuel: nat, test: Obj, body: Obj, round: Run, env: EnvId)
    requires Valid(round.st) && env < |round.st.envs|
    ensures Stable(EvalAgain(prims, fuel, test, body, round, env), EvalAgain(prims, fuel + 1, test, body, round, env))
    decreases fuel, 0
  {
    if round.out.Value? && fuel > 0 {
      WhileWithMore(prims, fuel - 1, test, body, round.out.o, env, round.st);
    }
  }

  lemma {:induction false} LoopBodyWithMore(prims: Primitives, fuel: nat, body: Obj, result: Obj, env: EnvId, st: Store)
    requires Valid(st) && env < |st.envs|
    ensures Stable(EvalLoopBody(prims, fuel, body, result, env, st), EvalLoopBody(prims, fuel + 1, body, result, env, st))
    decreases fuel, 2, body, 0
  {
    if body.Pair? {
      var r := EvalForm(prims, fuel, body.car, env, st);
      FormWithMore(prims, fuel, body.car, env, st);
      if r.out.Value? {
        LoopBodyWithMore(prims, fuel, body.cdr, r.out.o, env, r.st);
      }
    }
  }

  lemma {:induction false} LetWithMore(prims: Primitives, fuel: nat, x: Obj, star: bool, env: EnvId, st: Store)
    requires Valid(st) && env < |st.envs| && x.Pair?
    ensures Stable(EvalLet(prims, fuel, x, star, env, st), EvalLet(prims, fuel + 1, x, star, env, st))
    decreases fuel, 10
  {
    var parts := PartsOfLet(x);
    if parts.Some? {
      var inner := |st.envs|;
      var st' := NewEnv(st, Env(parts.value.name, Some(env), map[], NoneObj, false));
      var r := EvalBindings(prims, fuel, parts.value.bindings, x, star, inner, env, st');
      BindingsWithMore(prims, fuel, parts.value.bindings, x, star, inner, env, st');
      if r.out.Value? {
        BodyWithMore(prims, fuel, parts.value.body, inner, r.st);
      }
    }
  }

  lemma {:induction false} BindingsWithMore(prims: Primitives, fuel: nat, bindings: Obj, x: Obj, star: bool, inner: EnvId, env: EnvId, st: Store)
    requires Valid(st) && env < |st.envs| && inner < |st.envs| && !st.envs[inner].global
    ensures Stable(EvalBindings(prims, fuel, bindings, x, star, inner, env, st), EvalBindings(prims, fuel + 1, bindings, x, star, inner, env, st))
    decreases fuel, 3, bindings
  {
    if bindings.Pair? && IsBinding(bindings.car) {
      var value := EvalBare(prims, fuel, bindings.car.cdr.car, if star then inner else env, st);
      BareWithMore(prims, fuel, bindings.car.cdr.car, if star then inner else env, st);
      if value.out.Value? {
        BindingsWithMore(prims, fuel, bindings.cdr, x, star, inner, env, SetVar(value.st, inner, bindings.car.car.name, value.out.o));
      }
    }
  }

  lemma {:induction false} WithErrorHandlerWithMore(prims: Primitives, fuel: nat, x: Obj, env: EnvId, st: Store)
    requires Valid(st) && env < |st.envs| && x.Pair?
    ensures Stable(EvalWithErrorHandler(prims, fuel, x, env, st), EvalWithErrorHandler(prims, fuel + 1, x, env, st))
    decreases fuel, 10
  {
    if x.cdr.Pair? {
      var handler := EvalBare(prims, fuel, x.cdr.car, env, st);
      BareWithMore(prims, fuel, x.cdr.car, env, st);
      if handler.out.Value? && IsFunction(handler.st, handler.out.o) {
        InsideWithMore(prims, fuel, x.cdr.cdr, Env("error-handler-scope", Some(env), map[], handler.out.o, false), handler.st);
      }
    }
  }

  // More fuel gives the same result, hence any two results agree.
  lemma {:induction false} MoreFuel(prims: Primitives, fuel: nat, more: nat, x: Obj, env: EnvId, st: Store)
    requires Valid(st) && env < |st.envs| && fuel <= more
    ensures Stable(EvalForm(prims, fuel, x, env, st), EvalForm(prims, more, x, env, st))
    decreases more - fuel
  {
    if fuel < more {
      FormWithMore(prims, fuel, x, env, st);
      MoreFuel(prims, fuel + 1, more, x, env, st);
    }
  }

  /** The meaning of an expression: what it evaluates to with enough fuel, if it ends at all. */
  ghost predicate Means(prims: Primitives, x: Obj, env: EnvId, st: Store, r: Run)
    requires Valid(st) && env < |st.envs|
  {
    !r.out.OutOfFuel? && exists fuel: nat :: EvalForm(prims, fuel, x, env, st) == r
  }

  lemma MeaningIsUnique(prims: Primitives, x: Obj, env: EnvId, st: Store, r: Run, s: Run)
    requires Valid(st) && env < |st.envs| && Means(prims, x, env, st, r) && Means(prims, x, env, st, s)
    ensures r == s
  {
    var m: nat :| EvalForm(prims, m, x, env, st) == r;
    var n: nat :| EvalForm(prims, n, x, env, st) == s;
    if m <= n {
      MoreFuel(prims, m, n, x, env, st);
    } else {
      MoreFuel(prims, n, m, x, env, st);
    }
  }
}
