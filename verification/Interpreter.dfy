/** The interpreter, with its stack of active environments.

    Every method computes what Evaluation says, whatever is on the stack, and leaves the stack
    as it was unless another exception than an EvalException goes through.
 */
module Interpreters {
  import opened Options
  import opened Objects
  import opened Arguments
  import opened Evaluation

  // The stack comes back when evaluation ends with a value or an EvalException; else it may
  // only have grown.
  predicate Rewound(out: Outcome, before: seq<EnvId>, after: seq<EnvId>) {
    before <= after && (out.Value? || out.Raised? ==> after == before)
  }

  class Interpreter {
    const prims: Primitives
    var store: Store
    var dynamicStack: seq<EnvId>

    constructor (prims: Primitives, store: Store)
      ensures this.prims == prims && this.store == store && dynamicStack == []
    {
      this.prims := prims;
      this.store := store;
      dynamicStack := [];
    }

    // ---- one form ----

    /** Evaluate an expression with a checkpoint on the stack; errors are offered to the handler of env. */
    method EvalWithRewind(fuel: nat, x: Obj, env: EnvId) returns (out: Outcome)
      requires Valid(store) && env < |store.envs|
      modifies this
      ensures Run(out, store) == EvalForm(prims, fuel, x, env, old(store))
      ensures Rewound(out, old(dynamicStack), dynamicStack)
      decreases fuel, 0
    {
      if fuel == 0 {
        return OutOfFuel;
      }
      out := EvalPushed(fuel - 1, x, env);
      if out.Raised? {
        out := Recover(fuel - 1, env, WithContext(out.e, x, store.envs[env].name));
      }
    }

    // With env on the stack, which an exception other than an EvalException leaves there.
    method EvalPushed(fuel: nat, x: Obj, env: EnvId) returns (out: Outcome)
      requires Valid(store) && env < |store.envs|
      modifies this
      ensures Run(out, store) == EvalObject(prims, fuel, x, env, old(store))
      ensures Rewound(out, old(dynamicStack), dynamicStack)
      ensures out.Other? ==> old(dynamicStack) + [env] <= dynamicStack
      decreases fuel, 21
    {
      dynamicStack := dynamicStack + [env];
      out := Eval(fuel, x, env);
      if out.Value? || out.Raised? {
        dynamicStack := dynamicStack[..|dynamicStack| - 1];
      }
    }

    method Recover(fuel: nat, env: EnvId, e: Err) returns (out: Outcome)
      requires Valid(store) && env < |store.envs|
      modifies this
      ensures Run(out, store) == Handle(prims, fuel, env, e, old(store))
      ensures Rewound(out, old(dynamicStack), dynamicStack)
      decreases fuel, 20
    {
      var handler := store.envs[env].handler;
      if !IsFunction(store, handler) {
        return Raised(e);
      }
      out := CallLambdaInternal(fuel, handler, [Str(e.message), e.form, TraceList(e.trace)]);
      if out.Value? {
        out := Respond(out.o, e);
      }
    }

    method CallLambdaInternal(fuel: nat, f: Obj, args: seq<Obj>) returns (out: Outcome)
      requires Valid(store) && IsFunction(store, f)
      modifies this
      ensures Run(out, store) == CallFunction(prims, fuel, f, args, old(store))
      ensures Rewound(out, old(dynamicStack), dynamicStack)
      decreases fuel, 10
    {
      var fn := store.heap[f.ref];
      var given := DirectArgs(args, fn.spec);
      if given.None? {
        return Fault(f);
      }
      var bound := SetArgsInEnv(map[], given.value, fn.spec);
      if !bound.Good? {
        return Rejected(bound, CALL_LAMBDA);
      }
      out := EvalInNewEnv(fuel, fn.body, LambdaEnv(fn, bound.value));
    }

    method EvalInNewEnv(fuel: nat, forms: Obj, inner: Env) returns (out: Outcome)
      requires Valid(store) && (inner.parent.Some? ==> inner.parent.value < |store.envs|)
      modifies this
      ensures Run(out, store) == EvalInside(prims, fuel, forms, inner, old(store))
      ensures Rewound(out, old(dynamicStack), dynamicStack)
      decreases fuel, 2
    {
      var id := |store.envs|;
      store := NewEnv(store, inner);
      out := EvalListReturnLast(fuel, forms, id);
    }

    method Eval(fuel: nat, x: Obj, env: EnvId) returns (out: Outcome)
      requires Valid(store) && env < |store.envs|
      modifies this
      ensures Run(out, store) == EvalObject(prims, fuel, x, env, old(store))
      ensures Rewound(out, old(dynamicStack), dynamicStack)
      decreases fuel, 20
    {
      match x
      case Sym(name) =>
        if IsKeyword(x) {
          return Value(x);
        }
        var found := TrySymbolLookup(env, name);
        out := if found.Some? then Value(found.value) else Fault(x);
      case Pair(_, _) =>
        out := EvalCall(fuel, x, env);
      case NoneObj =>
        out := Fault(x);
      case Heap(_) =>
        out := if IsFunction(store, x) then Value(x) else Fault(x);
      case _ =>
        out := Value(x);
    }

    // Evaluation that leaves errors to the caller; it takes a step of its own.
    method EvalOnce(fuel: nat, x: Obj, env: EnvId) returns (out: Outcome)
      requires Valid(store) && env < |store.envs|
      modifies this
      ensures Run(out, store) == EvalBare(prims, fuel, x, env, old(store))
      ensures Rewound(out, old(dynamicStack), dynamicStack)
      decreases fuel, 0
    {
      if fuel == 0 {
        return OutOfFuel;
      }
      out := Eval(fuel - 1, x, env);
    }

    method TrySymbolLookup(env: EnvId, name: string) returns (r: Option<Obj>)
      requires Valid(store) && env < |store.envs|
      ensures r == SymbolValue(store, env, name)
    {
      if name == TRUE || name == FALSE {
        return Some(Sym(name));
      }
      var search: Option<EnvId> := Some(env);
      while search.Some?
        invariant search.Some? ==> search.value < |store.envs| && Lookup(store, env, name) == Lookup(store, search.value, name)
        invariant search.None? ==>
          Lookup(store, env, name) == if name in store.constants then Some(store.constants[name]) else None
        decreases if search.Some? then search.value + 1 else 0
      {
        var vars := store.envs[search.value].vars;
        if name in vars {
          return Some(vars[name]);
        }
        search := store.envs[search.value].parent;
      }
      r := if name in store.constants then Some(store.constants[name]) else None;
    }

    // ---- calls ----

    method EvalCall(fuel: nat, x: Obj, env: EnvId) returns (out: Outcome)
      requires Valid(store) && env < |store.envs| && x.Pair?
      modifies this
      ensures Run(out, store) == EvalPair(prims, fuel, x, env, old(store))
      ensures Rewound(out, old(dynamicStack), dynamicStack)
      decreases fuel, 19
    {
      out := EvalWithRewind(fuel, x.car, env);
      if out.Value? {
        out := Dispatch(fuel, out.o, x, env);
      }
    }

    method Dispatch(fuel: nat, f: Obj, x: Obj, env: EnvId) returns (out: Outcome)
      requires Valid(store) && env < |store.envs| && x.Pair?
      modifies this
      ensures Run(out, store) == Apply(prims, fuel, f, x, env, old(store))
      ensures Rewound(out, old(dynamicStack), dynamicStack)
      decreases fuel, 18
    {
      var c := CallableAt(store, f);
      if c.None? {
        return Fault(x);
      }
      match c.value
      case SpecialForm(which) => out := EvalSpecialForm(fuel, which, x, env);
      case Primitive(_, _) => out := EvalPrimitive(fuel, c.value, x, env);
      case Macro(_, _) => out := EvalMacroCall(fuel, c.value, x, env);
      case Function(_, _, _) => out := EvalLambdaCall(fuel, c.value, x, env);
      case EnvRef(_) => out := Fault(x);
    }

    method EvalPrimitive(fuel: nat, c: Callable, x: Obj, env: EnvId) returns (out: Outcome)
      requires Valid(store) && env < |store.envs| && x.Pair? && c.Primitive?
      modifies this
      ensures Run(out, store) == CallPrimitive(prims, fuel, c, x, env, old(store))
      ensures Rewound(out, old(dynamicStack), dynamicStack)
      decreases fuel, 10
    {
      var args := GetArgs(x.cdr, c.spec);
      if !args.Good? {
        return Rejected(args, x);
      }
      var values;
      out, values := EvalArguments(fuel, args.value, env);
      if out.Value? {
        out := RunPrimitive(fuel, c.id, x, values, env, []);
      }
    }

    // The code of a primitive, which may call the evaluator any number of times.
    method RunPrimitive(fuel: nat, id: nat, x: Obj, args: Args, env: EnvId, answers: seq<Obj>) returns (out: Outcome)
      requires Valid(store) && env < |store.envs|
      modifies this
      ensures Run(out, store) == Interact(prims, fuel, id, x, args, env, answers, old(store))
      ensures Rewound(out, old(dynamicStack), dynamicStack)
      decreases fuel, 9
    {
      var action := prims(id, x, args, env, answers, store);
      assert Proper(action, store);
      match action
      case Finish(r) =>
        out, store := r.out, r.st;
      case Evaluate(form, inner, st) =>
        store := st;
        out := EvalWithRewind(fuel, form, inner);
        out := GoOn(fuel, id, x, args, env, answers, out);
      case EvaluateBody(forms, inner, st) =>
        store := st;
        out := EvalInNewEnv(fuel, forms, inner);
        out := GoOn(fuel, id, x, args, env, answers, out);
    }

    method GoOn(fuel: nat, id: nat, x: Obj, args: Args, env: EnvId, answers: seq<Obj>, answer: Outcome) returns (out: Outcome)
      requires Valid(store) && env < |store.envs|
      modifies this
      ensures Run(out, store) == Resume(prims, fuel, id, x, args, env, answers, Run(answer, old(store)))
      ensures Rewound(out, old(dynamicStack), dynamicStack)
      decreases fuel, 0
    {
      if !answer.Value? {
        return answer;
      } else if fuel == 0 {
        return OutOfFuel;
      }
      out := RunPrimitive(fuel - 1, id, x, args, env, answers + [answer.o]);
    }

    method EvalLambdaCall(fuel: nat, c: Callable, x: Obj, env: EnvId) returns (out: Outcome)
      requires Valid(store) && env < |store.envs| && x.Pair? && c.Function? && c.env < |store.envs|
      modifies this
      ensures Run(out, store) == CallLambda(prims, fuel, c, x, env, old(store))
      ensures Rewound(out, old(dynamicStack), dynamicStack)
      decreases fuel, 10
    {
      var args := GetArgsWithSpec(x.cdr, c.spec);
      if !args.Good? {
        return Rejected(args, x);
      }
      var values;
      out, values := EvalArguments(fuel, args.value, env);
      if !out.Value? {
        return;
      }
      var bound := SetArgsInEnv(map[], values, c.spec);
      if !bound.Good? {
        return Rejected(bound, x);
      }
      out := EvalInNewEnv(fuel, c.body, LambdaEnv(c, bound.value));
    }

    method EvalMacroCall(fuel: nat, c: Callable, x: Obj, env: EnvId) returns (out: Outcome)
      requires Valid(store) && env < |store.envs| && x.Pair? && c.Macro?
      modifies this
      ensures Run(out, store) == ExpandMacro(prims, fuel, c, x, env, old(store))
      ensures Rewound(out, old(dynamicStack), dynamicStack)
      decreases fuel, 10
    {
      var args := GetArgsWithSpec(x.cdr, c.spec);
      if !args.Good? {
        return Rejected(args, x);
      }
      var bound := SetArgsInEnv(map[], args.value, c.spec);
      if !bound.Good? {
        return Rejected(bound, x);
      }
      out := EvalInNewEnv(fuel, c.body, Env("", Some(env), bound.value, NoneObj, false));
      if out.Value? {
        out := EvalWithRewind(fuel, out.o, env);
      }
    }

    // ---- sequences ----

    method EvalListReturnLast(fuel: nat, forms: Obj, env: EnvId) returns (out: Outcome)
      requires Valid(store) && env < |store.envs|
      modifies this
      ensures Run(out, store) == EvalBody(prims, fuel, forms, env, old(store))
      ensures Rewound(out, old(dynamicStack), dynamicStack)
      decreases fuel, 1
    {
      if forms.Null? {
        return Value(Null);
      }
      var rest := forms;
      while true
        invariant Valid(store) && env < |store.envs| && !rest.Null? && dynamicStack == old(dynamicStack)
        invariant EvalBody(prims, fuel, forms, env, old(store)) == EvalBody(prims, fuel, rest, env, store)
        decreases rest
      {
        if !rest.Pair? {
          return Other;
        }
        out := EvalWithRewind(fuel, rest.car, env);
        if !out.Value? || rest.cdr.Null? {
          return;
        }
        rest := rest.cdr;
      }
    }

    // One argument after the other; the values so far and how it ended.
    method EvalAll(fuel: nat, forms: seq<Obj>, env: EnvId) returns (out: Outcome, values: seq<Obj>)
      requires Valid(store) && env < |store.envs|
      modifies this
      ensures var r := EvalEach(prims, fuel, forms, env, old(store));
              if out.Value? then r == Each(values, store) else r == Halted(Run(out, store))
      ensures Rewound(out, old(dynamicStack), dynamicStack)
      decreases fuel, 1
    {
      out, values := Value(Null), [];
      for i := 0 to |forms|
        invariant Valid(store) && env < |store.envs| && out.Value? && dynamicStack == old(dynamicStack)
        invariant EvalEach(prims, fuel, forms[..i], env, old(store)) == Each(values, store)
      {
        assert forms[..i + 1][..i] == forms[..i] && forms[..i + 1][i] == forms[i];
        out := EvalWithRewind(fuel, forms[i], env);
        if !out.Value? {
          EachHalts(prims, fuel, forms, i + 1, env, old(store));
          return;
        }
        values := values + [out.o];
      }
      assert forms[..|forms|] == forms;
    }

    method EvalArguments(fuel: nat, args: Args, env: EnvId) returns (out: Outcome, values: Args)
      requires Valid(store) && env < |store.envs|
      modifies this
      ensures var r := EvalArgs(prims, fuel, args, env, old(store));
              if out.Value? then r == AllArgs(values, store) else r == Stopped(Run(out, store))
      ensures Rewound(out, old(dynamicStack), dynamicStack)
      decreases fuel, 2
    {
      var unnamed, named, rest;
      values := args;
      out, unnamed := EvalAll(fuel, args.unnamed, env);
      if !out.Value? {
        return;
      }
      var keys := InOrder(args.named.Keys);
      out, named := EvalAll(fuel, ValuesOf(keys, args.named), env);
      if !out.Value? {
        return;
      }
      out, rest := EvalAll(fuel, ListItems(args.rest), env);
      if !out.Value? {
        return;
      }
      values := Args(unnamed, Zip(keys, named), if args.rest.Pair? then BuildList(rest, Null) else args.rest);
    }

    // ---- special forms ----

    method EvalSpecialForm(fuel: nat, which: Special, x: Obj, env: EnvId) returns (out: Outcome)
      requires Valid(store) && env < |store.envs| && x.Pair?
      modifies this
      ensures Run(out, store) == EvalSpecial(prims, fuel, which, x, env, old(store))
      ensures Rewound(out, old(dynamicStack), dynamicStack)
      decreases fuel, 17
    {
      match which
      case Quote => out := QuoteOutcome(x);
      case Define => out := EvalDefineSpecial(fuel, x, env);
      case SetBang => out := EvalSetSpecial(fuel, x, env);
      case Lambda => out := EvalLambdaSpecial(x, env);
      case MacroForm => out := EvalMacroSpecial(x);
      case Cond => out := EvalCondSpecial(fuel, x, env);
      case While => out := EvalWhileSpecial(fuel, x, env);
      case Let => out := EvalLetCommonSpecial(fuel, x, false, env);
      case LetStar => out := EvalLetCommonSpecial(fuel, x, true, env);
      case WithErrorHandler => out := EvalWithErrorHandlerSpecial(fuel, x, env);
    }

    method EvalDefineSpecial(fuel: nat, x: Obj, env: EnvId) returns (out: Outcome)
      requires Valid(store) && env < |store.envs| && x.Pair?
      modifies this
      ensures Run(out, store) == EvalDefine(prims, fuel, x, env, old(store))
      ensures Rewound(out, old(dynamicStack), dynamicStack)
      decreases fuel, 10
    {
      var args := GetArgs(x.cdr, VARARGS_AND_KEYS);
      if !args.Good? {
        return Rejected(args, x);
      } else if !SymbolAndForm(args.value, {"env"}) {
        return Fault(x);
      }
      var name := args.value.unnamed[0].name;
      if name in store.constants {
        return Fault(args.value.unnamed[0]);
      }
      var target := env;
      if "env" in args.value.named {
        out := EvalWithRewind(fuel, args.value.named["env"], env);
        if !out.Value? {
          return;
        }
        var c := CallableAt(store, out.o);
        if c.None? || !c.value.EnvRef? {
          return Fault(x);
        }
        target := c.value.env;
      }
      out := DefineVar(fuel, name, args.value.unnamed[1], target, env);
    }

    method DefineVar(fuel: nat, name: string, form: Obj, target: EnvId, env: EnvId) returns (out: Outcome)
      requires Valid(store) && env < |store.envs| && target < |store.envs| && name !in store.constants
      modifies this
      ensures Run(out, store) == DefineIn(prims, fuel, name, form, target, env, old(store))
      ensures Rewound(out, old(dynamicStack), dynamicStack)
      decreases fuel, 5
    {
      out := EvalWithRewind(fuel, form, env);
      if out.Value? {
        store := SetVar(store, target, name, out.o);
      }
    }

    method EvalSetSpecial(fuel: nat, x: Obj, env: EnvId) returns (out: Outcome)
      requires Valid(store) && env < |store.envs| && x.Pair?
      modifies this
      ensures Run(out, store) == EvalSet(prims, fuel, x, env, old(store))
      ensures Rewound(out, old(dynamicStack), dynamicStack)
      decreases fuel, 10
    {
      var args := GetArgs(x.cdr, VARARGS);
      if !args.Good? {
        return Rejected(args, x);
      } else if !SymbolAndForm(args.value, {}) {
        return Fault(x);
      }
      out := EvalWithRewind(fuel, args.value.unnamed[1], env);
      if !out.Value? {
        return;
      }
      var target := FindEnvToSet(env, args.value.unnamed[0].name);
      if target.None? {
        return Fault(args.value.unnamed[0]);
      }
      store := SetVar(store, target.value, args.value.unnamed[0].name, out.o);
    }

    method FindEnvToSet(env: EnvId, name: string) returns (r: Option<EnvId>)
      requires Valid(store) && env < |store.envs|
      ensures r == EnvToSet(store, env, name)
    {
      var search: EnvId := env;
      while true
        invariant search < |store.envs| && EnvToSet(store, env, name) == EnvToSet(store, search, name)
        decreases search
      {
        var e := store.envs[search];
        if e.global && name in store.constants {
          return None;
        } else if name in e.vars {
          return Some(search);
        } else if e.parent.None? {
          return None;
        }
        search := e.parent.value;
      }
    }

    method EvalLambdaSpecial(x: Obj, env: EnvId) returns (out: Outcome)
      requires Valid(store) && env < |store.envs| && x.Pair?
      modifies this`store
      ensures Run(out, store) == MakeLambda(x, env, old(store))
      // A new heap object, and nothing else, unless there is an error.
      ensures out.Value? ==> out.o == Heap(|old(store.heap)|) && x.cdr.Pair? && ParseSpec(x.cdr.car, Required, EMPTY_SPEC).Good?
      ensures out.Value? ==> store == old(store).(heap := old(store.heap) + [Function(ParseSpec(x.cdr.car, Required, EMPTY_SPEC).value, x.cdr.cdr, env)])
      ensures !out.Value? ==> store == old(store)
    {
      if !x.cdr.Pair? {
        return Other;
      } else if !x.cdr.car.Null? && !x.cdr.car.Pair? {
        return Fault(x);
      }
      var spec := ParseArgSpec(x.cdr.car);
      if !spec.Good? {
        return Rejected(spec, x);
      } else if x.cdr.cdr.Null? {
        return Fault(x);
      }
      ParsedSpecIsNotVariadic(x.cdr.car, Required, EMPTY_SPEC);
      out := Value(Heap(|store.heap|));
      store := NewCallable(store, Function(spec.value, x.cdr.cdr, env));
    }

    method EvalMacroSpecial(x: Obj) returns (out: Outcome)
      requires Valid(store) && x.Pair?
      modifies this`store
      ensures Run(out, store) == MakeMacro(x, old(store))
      // A new heap object, and nothing else, unless there is an error.
      ensures out.Value? ==> out.o == Heap(|old(store.heap)|) && x.cdr.Pair? && ParseSpec(x.cdr.car, Required, EMPTY_SPEC).Good?
      ensures out.Value? ==> store == old(store).(heap := old(store.heap) + [Macro(ParseSpec(x.cdr.car, Required, EMPTY_SPEC).value, x.cdr.cdr)])
      ensures !out.Value? ==> store == old(store)
    {
      if !x.cdr.Pair? || (!x.cdr.car.Null? && !x.cdr.car.Pair?) {
        return Fault(x);
      }
      var spec := ParseArgSpec(x.cdr.car);
      if !spec.Good? {
        return Rejected(spec, x);
      } else if !x.cdr.cdr.Pair? {
        return Fault(x);
      }
      ParsedSpecIsNotVariadic(x.cdr.car, Required, EMPTY_SPEC);
      out := Value(Heap(|store.heap|));
      store := NewCallable(store, Macro(spec.value, x.cdr.cdr));
    }

    method EvalCondSpecial(fuel: nat, x: Obj, env: EnvId) returns (out: Outcome)
      requires Valid(store) && env < |store.envs| && x.Pair?
      modifies this
      ensures Run(out, store) == EvalSpecial(prims, fuel, Cond, x, env, old(store))
      ensures Rewound(out, old(dynamicStack), dynamicStack)
      decreases fuel, 10
    {
      if !x.cdr.Pair? {
        return Fault(x);
      }
      var clauses := x.cdr;
      while clauses.Pair?
        invariant Valid(store) && env < |store.envs| && dynamicStack == old(dynamicStack)
        invariant EvalCond(prims, fuel, x.cdr, x, env, old(store)) == EvalCond(prims, fuel, clauses, x, env, store)
        decreases clauses
      {
        if !clauses.car.Pair? {
          return Fault(clauses);
        }
        out := EvalWithRewind(fuel, clauses.car.car, env);
        if !out.Value? {
          return;
        } else if IsTrue(out.o) {
          if !clauses.car.cdr.Null? {
            out := EvalListReturnLast(fuel, clauses.car.cdr, env);
          }
          return;
        }
        clauses := clauses.cdr;
      }
      out := if clauses.Null? then Value(Sym(FALSE)) else Fault(x);
    }

    method EvalWhileSpecial(fuel: nat, x: Obj, env: EnvId) returns (out: Outcome)
      requires Valid(store) && env < |store.envs| && x.Pair?
      modifies this
      ensures Run(out, store) == EvalSpecial(prims, fuel, While, x, env, old(store))
      ensures Rewound(out, old(dynamicStack), dynamicStack)
      decreases fuel, 10
    {
      if !x.cdr.Pair? || !x.cdr.cdr.Pair? {
        return Fault(x);
      }
      out := RunLoop(fuel, x.cdr.car, x.cdr.cdr, env);
    }

    method RunLoop(fuel: nat, test: Obj, body: Obj, env: EnvId) returns (out: Outcome)
      requires Valid(store) && env < |store.envs|
      modifies this
      ensures Run(out, store) == EvalWhile(prims, fuel, test, body, Null, env, old(store))
      ensures Rewound(out, old(dynamicStack), dynamicStack)
      decreases fuel, 5
    {
      var left: nat := fuel;
      var result := Null;
      while true
        invariant left <= fuel && Valid(store) && env < |store.envs| && dynamicStack == old(dynamicStack)
        invariant EvalWhile(prims, fuel, test, body, Null, env, old(store)) == EvalWhile(prims, left, test, body, result, env, store)
        decreases left
      {
        var again;
        out, again := TestAndRound(left, test, body, result, env);
        if !again {
          return;
        }
        left, result := left - 1, out.o;
      }
    }

    // The test of a loop and, if it holds, a round of its body.
    method TestAndRound(fuel: nat, test: Obj, body: Obj, result: Obj, env: EnvId) returns (out: Outcome, again: bool)
      requires Valid(store) && env < |store.envs|
      modifies this
      ensures again ==> fuel > 0 && out.Value? && Valid(store) && env < |store.envs|
      ensures EvalWhile(prims, fuel, test, body, result, env, old(store))
           == if again then EvalWhile(prims, fuel - 1, test, body, out.o, env, store) else Run(out, store)
      ensures Rewound(out, old(dynamicStack), dynamicStack)
      decreases fuel, 4
    {
      out := EvalWithRewind(fuel, test, env);
      out, again := RoundAfterTest(fuel, test, body, result, out, env);
    }

    // What is left of a round when the test has ended this way.
    method RoundAfterTest(fuel: nat, test: Obj, body: Obj, result: Obj, t: Outcome, env: EnvId) returns (out: Outcome, again: bool)
      requires Valid(store) && env < |store.envs|
      modifies this
      ensures again ==> fuel > 0 && out.Value? && Valid(store) && env < |store.envs|
      ensures EvalRound(prims, fuel, test, body, result, Run(t, old(store)), env)
           == if again then EvalWhile(prims, fuel - 1, test, body, out.o, env, store) else Run(out, store)
      ensures Rewound(out, old(dynamicStack), dynamicStack)
      ensures !t.Value? ==> out == t && !again
      decreases fuel, 3
    {
      if !t.Value? {
        return t, false;
      } else if !IsTrue(t.o) {
        return Value(result), false;
      }
      ghost var before := Run(t, store);
      out := EvalOneRound(fuel, body, result, env);
      TrueTestRound(prims, fuel, test, body, result, before, Run(out, store), env);
      again := out.Value? && fuel > 0;
      if out.Value? && fuel == 0 {
        out := OutOfFuel;
      }
    }

    // The forms of a loop body, once.
    method EvalOneRound(fuel: nat, body: Obj, result: Obj, env: EnvId) returns (out: Outcome)
      requires Valid(store) && env < |store.envs|
      modifies this
      ensures Run(out, store) == EvalLoopBody(prims, fuel, body, result, env, old(store))
      ensures Rewound(out, old(dynamicStack), dynamicStack)
      decreases fuel, 2
    {
      var current := body;
      out := Value(result);
      while current.Pair?
        invariant Valid(store) && env < |store.envs| && dynamicStack == old(dynamicStack) && out.Value?
        invariant EvalLoopBody(prims, fuel, body, result, env, old(store)) == EvalLoopBody(prims, fuel, current, out.o, env, store)
        decreases current
      {
        out := EvalWithRewind(fuel, current.car, env);
        if !out.Value? {
          return;
        }
        current := current.cdr;
      }
    }

    method EvalLetCommonSpecial(fuel: nat, x: Obj, star: bool, env: EnvId) returns (out: Outcome)
      requires Valid(store) && env < |store.envs| && x.Pair?
      modifies this
      ensures Run(out, store) == EvalLet(prims, fuel, x, star, env, old(store))
      ensures Rewound(out, old(dynamicStack), dynamicStack)
      decreases fuel, 10
    {
      var parts := PartsOfLet(x);
      if parts.None? {
        return Fault(x);
      }
      var inner := |store.envs|;
      store := NewEnv(store, Env(parts.value.name, Some(env), map[], NoneObj, false));
      dynamicStack := dynamicStack + [inner];
      out := BindAll(fuel, parts.value.bindings, x, star, inner, env);
      if out.Value? {
        out := EvalListReturnLast(fuel, parts.value.body, inner);
      }
      if out.Value? || out.Raised? {
        dynamicStack := dynamicStack[..|dynamicStack| - 1];
      }
    }

    method BindAll(fuel: nat, bindings: Obj, x: Obj, star: bool, inner: EnvId, env: EnvId) returns (out: Outcome)
      requires Valid(store) && env < |store.envs| && inner < |store.envs| && !store.envs[inner].global
      modifies this
      ensures Run(out, store) == EvalBindings(prims, fuel, bindings, x, star, inner, env, old(store))
      ensures Rewound(out, old(dynamicStack), dynamicStack)
      decreases fuel, 3
    {
      var current := bindings;
      while current.Pair?
        invariant Valid(store) && env < |store.envs| && inner < |store.envs| && !store.envs[inner].global
        invariant dynamicStack == old(dynamicStack)
        invariant EvalBindings(prims, fuel, bindings, x, star, inner, env, old(store))
               == EvalBindings(prims, fuel, current, x, star, inner, env, store)
        decreases current
      {
        var binding := current.car;
        if !IsBinding(binding) {
          return Fault(x);
        }
        out := EvalOnce(fuel, binding.cdr.car, if star then inner else env);
        if !out.Value? {
          return;
        }
        store := SetVar(store, inner, binding.car.name, out.o);
        current := current.cdr;
      }
      out := if current.Null? then Value(Null) else Fault(x);
    }

    method EvalWithErrorHandlerSpecial(fuel: nat, x: Obj, env: EnvId) returns (out: Outcome)
      requires Valid(store) && env < |store.envs| && x.Pair?
      modifies this
      ensures Run(out, store) == EvalWithErrorHandler(prims, fuel, x, env, old(store))
      ensures Rewound(out, old(dynamicStack), dynamicStack)
      decreases fuel, 10
    {
      if !x.cdr.Pair? {
        return Fault(x);
      }
      out := EvalOnce(fuel, x.cdr.car, env);
      if !out.Value? {
        return;
      } else if !IsFunction(store, out.o) {
        return Fault(x.cdr.car);
      }
      out := EvalInNewEnv(fuel, x.cdr.cdr, Env("error-handler-scope", Some(env), map[], out.o, false));
    }
  }

  // Once one form has failed, the forms after it are not evaluated.
  lemma {:induction false} EachHalts(prims: Primitives, fuel: nat, forms: seq<Obj>, n: nat, env: EnvId, st: Store)
    requires Valid(st) && env < |st.envs| && n <= |forms| && EvalEach(prims, fuel, forms[..n], env, st).Halted?
    ensures EvalEach(prims, fuel, forms, env, st) == EvalEach(prims, fuel, forms[..n], env, st)
    decreases |forms|
  {
    if n < |forms| {
      assert forms[..|forms| - 1][..n] == forms[..n];
      EachHalts(prims, fuel, forms[..|forms| - 1], n, env, st);
    } else {
      assert forms[..n] == forms;
    }
  }

  // The keys of a std::map in the order in which it is traversed.
  method InOrder(names: set<string>) returns (r: seq<string>)
    ensures r == Alphabetical(names)
  {
    r := [];
    var left := names;
    Prepend(r, left);
    while left != {}
      invariant Prepended(r, left) == Alphabetical(names)
      decreases left
    {
      FirstExists(left);
      var first :| first in left && IsFirst(first, left);
      AlphabeticalStep(first, left);
      PrependStep(r, first, left);
      r, left := r + [first], left - {first};
    }
    Prepend(r, left);
  }

  ghost function Prepended(before: seq<string>, left: set<string>): seq<string> {
    before + Alphabetical(left)
  }

  lemma Prepend(before: seq<string>, left: set<string>)
    ensures Prepended([], left) == Alphabetical(left) && Prepended(before, {}) == before
  {
    assert [] + Alphabetical(left) == Alphabetical(left);
  }

  // A round whose test is true, and whose body ends this way.
  lemma TrueTestRound(prims: Primitives, fuel: nat, test: Obj, body: Obj, result: Obj, t: Run, round: Run, env: EnvId)
    requires Valid(t.st) && env < |t.st.envs| && t.out.Value? && IsTrue(t.out.o)
    requires round == EvalLoopBody(prims, fuel, body, result, env, t.st)
    ensures EvalRound(prims, fuel, test, body, result, t, env)
         == if !round.out.Value? then round
            else if fuel == 0 then Run(OutOfFuel, round.st)
            else EvalWhile(prims, fuel - 1, test, body, round.out.o, env, round.st)
  {
    assert EvalRound(prims, fuel, test, body, result, t, env) == EvalAgain(prims, fuel, test, body, round, env);
  }

  lemma PrependStep(before: seq<string>, first: string, left: set<string>)
    requires Alphabetical(left) == [first] + Alphabetical(left - {first})
    ensures Prepended(before, left) == Prepended(before + [first], left - {first})
  {
    assert before + ([first] + Alphabetical(left - {first})) == before + [first] + Alphabetical(left - {first});
  }

  lemma AlphabeticalStep(first: string, names: set<string>)
    requires IsFirst(first, names)
    ensures Alphabetical(names) == [first] + Alphabetical(names - {first})
  {
    var one := Alphabetical(names)[0];
    forall other | IsFirst(other, names)
      ensures other == first
    {
      FirstIsUnique(other, first, names);
    }
  }
}
