/** What evaluating an expression means: a value or an error, and a changed store.

    This is the meaning alone.  There is no stack of active environments in it; the interpreter
    proper, which keeps one, is proved to compute the same.  Evaluation that needs more steps
    than it is given has no result.
 */
module Evaluation {
  import opened Options
  import opened Objects
  import opened Arguments

  type EnvId = nat

  datatype Env = Env(name: string, parent: Option<EnvId>, vars: map<string, Obj>, handler: Obj, global: bool)

  datatype Special = Quote | Define | SetBang | Lambda | MacroForm | Cond | While | Let | LetStar | WithErrorHandler

  datatype Frame = Frame(form: Obj, note: string)

  datatype Err = Err(form: Obj, message: string, trace: seq<Frame>, counter: nat)

  /** How evaluation ends: with a value, an EvalException, another exception, or not in time. */
  datatype Outcome = Value(o: Obj) | Raised(e: Err) | Other | OutOfFuel

  /** Objects that can stand at the head of a call, and environments as objects. */
  datatype Callable =
    | Function(spec: Spec, body: Obj, env: EnvId)
    | Macro(spec: Spec, body: Obj)
    | SpecialForm(which: Special)
    | Primitive(spec: Spec, id: nat)
    | EnvRef(env: EnvId)

  datatype Store = Store(envs: seq<Env>, heap: seq<Callable>, constants: map<string, Obj>)

  datatype Run = Run(out: Outcome, st: Store)

  // Environments are older than the ones nested in them, functions refer to environments that
  // exist, and only primitives take arguments that have no name.
  ghost predicate Valid(st: Store) {
    && (forall i :: 0 <= i < |st.envs| && st.envs[i].parent.Some? ==> st.envs[i].parent.value < i)
    && (forall i :: 0 <= i < |st.heap| && (st.heap[i].Function? || st.heap[i].EnvRef?) ==> st.heap[i].env < |st.envs|)
    && (forall i :: 0 <= i < |st.heap| && (st.heap[i].Function? || st.heap[i].Macro?) ==> !st.heap[i].spec.varargs)
  }

  // ---- the store ----

  // The same environment later on: variables may have been set or added, but no constant of a
  // global environment.
  ghost predicate SameEnv(a: Env, b: Env, constants: set<string>) {
    && b.parent == a.parent && b.handler == a.handler && b.global == a.global
    && a.vars.Keys <= b.vars.Keys
    && (a.global ==> forall c :: c in constants ==> (c in a.vars <==> c in b.vars) && (c in a.vars ==> b.vars[c] == a.vars[c]))
  }

  // What no evaluation changes: constants, heap objects, and environments but for their names and
  // variables.
  ghost predicate Keeps(st: Store, st': Store) {
    && |st.envs| <= |st'.envs| && st'.constants == st.constants && st.heap <= st'.heap
    && forall i :: 0 <= i < |st.envs| ==> SameEnv(st.envs[i], st'.envs[i], st.constants.Keys)
  }

  lemma KeepsOn(a: Store, b: Store, c: Store)
    requires Keeps(a, b) && Keeps(b, c)
    ensures Keeps(a, c)
  {
    forall i | 0 <= i < |a.envs|
      ensures SameEnv(a.envs[i], c.envs[i], a.constants.Keys)
    {
      assert SameEnv(a.envs[i], b.envs[i], a.constants.Keys) && SameEnv(b.envs[i], c.envs[i], a.constants.Keys);
    }
  }

  function CallableAt(st: Store, o: Obj): Option<Callable> {
    if o.Heap? && o.ref < |st.heap| then Some(st.heap[o.ref]) else None
  }

  predicate IsFunction(st: Store, o: Obj) {
    o.Heap? && o.ref < |st.heap| && st.heap[o.ref].Function?
  }

  /** What a primitive does next: it ends, or it calls the evaluator, on an expression or on a body
      in a new environment, and goes on with the value. */
  datatype Action =
    | Finish(r: Run)
    | Evaluate(x: Obj, env: EnvId, st: Store)
    | EvaluateBody(forms: Obj, inner: Env, st: Store)

  /** What the primitives do, by their number: they get the form of the call, the arguments, the
      environment, the values of their own calls of the evaluator so far, and the store, and may do
      anything that keeps what evaluation keeps. */
  type Primitives = p: (nat, Obj, Args, EnvId, seq<Obj>, Store) -> Action | KeepsStore(p)
    witness (id, form, args, env, answers, st) => Finish(Run(Other, st))

  ghost predicate KeepsStore(p: (nat, Obj, Args, EnvId, seq<Obj>, Store) -> Action) {
    forall id: nat, form: Obj, args: Args, env: EnvId, answers: seq<Obj>, st: Store :: Valid(st) && env < |st.envs| ==>
      Proper(p(id, form, args, env, answers, st), st)
  }

  ghost predicate Proper(action: Action, st: Store) {
    match action
    case Finish(r) => Valid(r.st) && Keeps(st, r.st)
    case Evaluate(_, env, st') => Valid(st') && Keeps(st, st') && env < |st'.envs|
    case EvaluateBody(_, inner, st') =>
      Valid(st') && Keeps(st, st') && (inner.parent.Some? ==> inner.parent.value < |st'.envs|)
  }

  function NewEnv(st: Store, env: Env): (r: Store)
    requires Valid(st) && (env.parent.Some? ==> env.parent.value < |st.envs|)
    ensures Valid(r) && Keeps(st, r) && |r.envs| == |st.envs| + 1 && r.envs[|st.envs|] == env
  {
    st.(envs := st.envs + [env])
  }

  function NewCallable(st: Store, c: Callable): (r: Store)
    requires Valid(st) && (c.Function? || c.EnvRef? ==> c.env < |st.envs|)
    requires c.Function? || c.Macro? ==> !c.spec.varargs
    ensures Valid(r) && Keeps(st, r)
  {
    st.(heap := st.heap + [c])
  }

  function SetVar(st: Store, env: EnvId, name: string, o: Obj): (r: Store)
    requires Valid(st) && env < |st.envs| && !(st.envs[env].global && name in st.constants)
    ensures Valid(r) && Keeps(st, r)
  {
    st.(envs := st.envs[env := st.envs[env].(vars := st.envs[env].vars[name := o])])
  }

  const TRUE := "#t"
  const FALSE := "#f"

  // Everything but the symbol #f is true.
  predicate IsTrue(o: Obj) {
    o != Sym(FALSE)
  }

  ghost function Lookup(st: Store, env: EnvId, name: string): Option<Obj>
    requires Valid(st) && env < |st.envs|
    decreases env
  {
    if name in st.envs[env].vars then Some(st.envs[env].vars[name])
    else if st.envs[env].parent.Some? then Lookup(st, st.envs[env].parent.value, name)
    else if name in st.constants then Some(st.constants[name])
    else None
  }

  ghost function SymbolValue(st: Store, env: EnvId, name: string): Option<Obj>
    requires Valid(st) && env < |st.envs|
  {
    if name == TRUE || name == FALSE then Some(Sym(name)) else Lookup(st, env, name)
  }

  // The environment in which set! changes a variable, unless it is constant or unknown.
  ghost function EnvToSet(st: Store, env: EnvId, name: string): (r: Option<EnvId>)
    requires Valid(st) && env < |st.envs|
    ensures r.Some? ==> r.value < |st.envs| && name in st.envs[r.value].vars
    ensures r.Some? ==> !(st.envs[r.value].global && name in st.constants)
    decreases env
  {
    if st.envs[env].global && name in st.constants then None
    else if name in st.envs[env].vars then Some(env)
    else if st.envs[env].parent.Some? then EnvToSet(st, st.envs[env].parent.value, name)
    else None
  }

  // ---- errors ----

  // The wording of the interpreter's own messages is left open here.
  const MESSAGE := "error"

  function Fault(form: Obj): Outcome {
    Raised(Err(form, MESSAGE, [], 0))
  }

  // What a failed match of arguments amounts to.
  function Rejected<T>(p: Parsed<T>, form: Obj): Outcome
    requires !p.Good?
  {
    if p.EvalError? then Fault(form) else Other
  }

  function WithContext(e: Err, form: Obj, name: string): Err {
    Err(e.form, e.message, if e.counter > 0 then e.trace + [Frame(form, name)] else e.trace, e.counter + 1)
  }

  function TraceList(trace: seq<Frame>): Obj {
    if trace == [] then Null else Pair(Pair(trace[0].form, Str(trace[0].note)), TraceList(trace[1..]))
  }

  function NextNote(next: Obj): string {
    if next.Pair? && next.car.Str? then next.car.data else "Additional context"
  }

  // What the response of an error handler does with the error.
  function Respond(response: Obj, e: Err): Outcome {
    if response.Null? then Value(response)
    else if response.Pair? then Raised(e.(trace := e.trace + [Frame(response.car, NextNote(response.cdr))]))
    else if IsTrue(response) then Raised(e)
    else Value(response)
  }

  // ---- evaluation ----

  ghost function EvalForm(prims: Primitives, fuel: nat, x: Obj, env: EnvId, st: Store): (r: Run)
    requires Valid(st) && env < |st.envs|
    ensures Valid(r.st) && Keeps(st, r.st)
    decreases fuel, 0
  {
    if fuel == 0 then Run(OutOfFuel, st)
    else
      var r := EvalObject(prims, fuel - 1, x, env, st);
      var attended := Attend(prims, fuel - 1, x, env, r);
      KeepsOn(st, r.st, attended.st);
      attended
  }

  // An error is offered to the handler of the environment.
  ghost function Attend(prims: Primitives, fuel: nat, x: Obj, env: EnvId, r: Run): (attended: Run)
    requires Valid(r.st) && env < |r.st.envs|
    ensures Valid(attended.st) && Keeps(r.st, attended.st)
    decreases fuel, 21
  {
    if r.out.Raised? then Handle(prims, fuel, env, WithContext(r.out.e, x, r.st.envs[env].name), r.st) else r
  }

  // An expression whose errors are handled further out.
  ghost function EvalBare(prims: Primitives, fuel: nat, x: Obj, env: EnvId, st: Store): (r: Run)
    requires Valid(st) && env < |st.envs|
    ensures Valid(r.st) && Keeps(st, r.st)
    decreases fuel, 0
  {
    if fuel == 0 then Run(OutOfFuel, st) else EvalObject(prims, fuel - 1, x, env, st)
  }

  ghost function Handle(prims: Primitives, fuel: nat, env: EnvId, e: Err, st: Store): (r: Run)
    requires Valid(st) && env < |st.envs|
    ensures Valid(r.st) && Keeps(st, r.st)
    decreases fuel, 20
  {
    var handler := st.envs[env].handler;
    if !IsFunction(st, handler) then Run(Raised(e), st)
    else
      var r := CallFunction(prims, fuel, handler, [Str(e.message), e.form, TraceList(e.trace)], st);
      if r.out.Value? then Run(Respond(r.out.o, e), r.st) else r
  }

  const CALL_LAMBDA := Sym("call-lambda")

  // A function applied to arguments that are evaluated already.
  ghost function CallFunction(prims: Primitives, fuel: nat, f: Obj, args: seq<Obj>, st: Store): (r: Run)
    requires Valid(st) && IsFunction(st, f)
    ensures Valid(r.st) && Keeps(st, r.st)
    decreases fuel, 10
  {
    var fn := st.heap[f.ref];
    var given := DirectArgs(args, fn.spec);
    if given.None? then Run(Fault(f), st)
    else
      var bound := BindArgs(map[], given.value, fn.spec);
      if bound.Good? then EvalInside(prims, fuel, fn.body, LambdaEnv(fn, bound.value), st) else Run(Rejected(bound, CALL_LAMBDA), st)
  }

  function DirectArgs(args: seq<Obj>, spec: Spec): Option<Args> {
    var n := |spec.unnamed|;
    if |args| < n || (!TakesRest(spec) && |args| > n) then None
    else Some(Args(args[..n], map[], if TakesRest(spec) then BuildList(args[n..], Null) else NoneObj))
  }

  // The environment of a function call lies inside the one where the function was made.
  function LambdaEnv(fn: Callable, vars: map<string, Obj>): Env
    requires fn.Function?
  {
    Env("lambda-call", Some(fn.env), vars, NoneObj, false)
  }

  // A body in a new environment.
  ghost function EvalInside(prims: Primitives, fuel: nat, forms: Obj, inner: Env, st: Store): (r: Run)
    requires Valid(st) && (inner.parent.Some? ==> inner.parent.value < |st.envs|)
    ensures Valid(r.st) && Keeps(st, r.st)
    decreases fuel, 1, forms, 1
  {
    var st' := NewEnv(st, inner);
    var r := EvalBody(prims, fuel, forms, |st.envs|, st');
    KeepsOn(st, st', r.st);
    r
  }

  ghost function EvalObject(prims: Primitives, fuel: nat, x: Obj, env: EnvId, st: Store): (r: Run)
    requires Valid(st) && env < |st.envs|
    ensures Valid(r.st) && Keeps(st, r.st)
    decreases fuel, 20
  {
    match x
    case Sym(name) =>
      if IsKeyword(x) then Run(Value(x), st)
      else
        var found := SymbolValue(st, env, name);
        Run(if found.Some? then Value(found.value) else Fault(x), st)
    case Pair(_, _) => EvalPair(prims, fuel, x, env, st)
    case NoneObj => Run(Fault(x), st)
    case Heap(_) => Run(if IsFunction(st, x) then Value(x) else Fault(x), st)
    case _ => Run(Value(x), st)
  }

  ghost function EvalPair(prims: Primitives, fuel: nat, x: Obj, env: EnvId, st: Store): (r: Run)
    requires Valid(st) && env < |st.envs| && x.Pair?
    ensures Valid(r.st) && Keeps(st, r.st)
    decreases fuel, 19
  {
    var head := EvalForm(prims, fuel, x.car, env, st);
    if !head.out.Value? then head
    else
      var r := Apply(prims, fuel, head.out.o, x, env, head.st);
      KeepsOn(st, head.st, r.st);
      r
  }

  ghost function Apply(prims: Primitives, fuel: nat, f: Obj, x: Obj, env: EnvId, st: Store): (r: Run)
    requires Valid(st) && env < |st.envs| && x.Pair?
    ensures Valid(r.st) && Keeps(st, r.st)
    decreases fuel, 18
  {
    match CallableAt(st, f)
    case None => Run(Fault(x), st)
    case Some(c) =>
      match c
      case SpecialForm(which) => EvalSpecial(prims, fuel, which, x, env, st)
      case Primitive(_, _) => CallPrimitive(prims, fuel, c, x, env, st)
      case Macro(_, _) => ExpandMacro(prims, fuel, c, x, env, st)
      case Function(_, _, _) => CallLambda(prims, fuel, c, x, env, st)
      case EnvRef(_) => Run(Fault(x), st)
  }

  ghost function CallPrimitive(prims: Primitives, fuel: nat, c: Callable, x: Obj, env: EnvId, st: Store): (r: Run)
    requires Valid(st) && env < |st.envs| && x.Pair? && c.Primitive?
    ensures Valid(r.st) && Keeps(st, r.st)
    decreases fuel, 10
  {
    var args := PrimitiveArgs(x.cdr, c.spec);
    if !args.Good? then Run(Rejected(args, x), st)
    else
      var all := EvalArgs(prims, fuel, args.value, env, st);
      if all.Stopped? then all.r
      else
        var r := Interact(prims, fuel, c.id, x, all.args, env, [], all.st);
        KeepsOn(st, all.st, r.st);
        r
  }

  // A primitive at work, after its own calls of the evaluator gave these answers.
  ghost function Interact(prims: Primitives, fuel: nat, id: nat, x: Obj, args: Args, env: EnvId, answers: seq<Obj>, st: Store): (r: Run)
    requires Valid(st) && env < |st.envs|
    ensures Valid(r.st) && Keeps(st, r.st)
    decreases fuel, 9
  {
    var action := prims(id, x, args, env, answers, st);
    assert Proper(action, st);
    match action
    case Finish(r) => r
    case Evaluate(form, inner, st') =>
      var answer := EvalForm(prims, fuel, form, inner, st');
      KeepsOn(st, st', answer.st);
      var r := Resume(prims, fuel, id, x, args, env, answers, answer);
      KeepsOn(st, answer.st, r.st);
      r
    case EvaluateBody(forms, inner, st') =>
      var answer := EvalInside(prims, fuel, forms, inner, st');
      KeepsOn(st, st', answer.st);
      var r := Resume(prims, fuel, id, x, args, env, answers, answer);
      KeepsOn(st, answer.st, r.st);
      r
  }

  // The primitive goes on with a value; errors go through it.
  ghost function Resume(prims: Primitives, fuel: nat, id: nat, x: Obj, args: Args, env: EnvId, answers: seq<Obj>, answer: Run): (r: Run)
    requires Valid(answer.st) && env < |answer.st.envs|
    ensures Valid(r.st) && Keeps(answer.st, r.st)
    decreases fuel, 0
  {
    if !answer.out.Value? then answer
    else if fuel == 0 then Run(OutOfFuel, answer.st)
    else Interact(prims, fuel - 1, id, x, args, env, answers + [answer.out.o], answer.st)
  }

  ghost function CallLambda(prims: Primitives, fuel: nat, c: Callable, x: Obj, env: EnvId, st: Store): (r: Run)
    requires Valid(st) && env < |st.envs| && x.Pair? && c.Function? && c.env < |st.envs|
    ensures Valid(r.st) && Keeps(st, r.st)
    decreases fuel, 10
  {
    var args := CollectArgs(x.cdr, c.spec);
    if !args.Good? then Run(Rejected(args, x), st)
    else
      var all := EvalArgs(prims, fuel, args.value, env, st);
      if all.Stopped? then all.r
      else
        var bound := BindArgs(map[], all.args, c.spec);
        if !bound.Good? then Run(Rejected(bound, x), all.st)
        else
          var r := EvalInside(prims, fuel, c.body, LambdaEnv(c, bound.value), all.st);
          KeepsOn(st, all.st, r.st);
          r
  }

  // A macro gets its arguments unevaluated; what it returns is evaluated in its place.
  ghost function ExpandMacro(prims: Primitives, fuel: nat, c: Callable, x: Obj, env: EnvId, st: Store): (r: Run)
    requires Valid(st) && env < |st.envs| && x.Pair? && c.Macro?
    ensures Valid(r.st) && Keeps(st, r.st)
    decreases fuel, 10
  {
    var args := CollectArgs(x.cdr, c.spec);
    if !args.Good? then Run(Rejected(args, x), st)
    else
      var bound := BindArgs(map[], args.value, c.spec);
      if !bound.Good? then Run(Rejected(bound, x), st)
      else
        var expansion := EvalInside(prims, fuel, c.body, Env("", Some(env), bound.value, NoneObj, false), st);
        if !expansion.out.Value? then expansion
        else
          var r := EvalForm(prims, fuel, expansion.out.o, env, expansion.st);
          KeepsOn(st, expansion.st, r.st);
          r
  }

  // ---- sequences ----

  ghost function EvalBody(prims: Primitives, fuel: nat, forms: Obj, env: EnvId, st: Store): (r: Run)
    requires Valid(st) && env < |st.envs|
    ensures Valid(r.st) && Keeps(st, r.st)
    decreases fuel, 1, forms, 0
  {
    if forms.Null? then Run(Value(Null), st)
    else if !forms.Pair? then Run(Other, st)
    else
      var first := EvalForm(prims, fuel, forms.car, env, st);
      if !first.out.Value? || forms.cdr.Null? then first
      else
        var r := EvalBody(prims, fuel, forms.cdr, env, first.st);
        KeepsOn(st, first.st, r.st);
        r
  }

  datatype RunEach = Each(values: seq<Obj>, st: Store) | Halted(r: Run)

  ghost function StoreOf(r: RunEach): Store {
    if r.Each? then r.st else r.r.st
  }

  ghost function EvalEach(prims: Primitives, fuel: nat, forms: seq<Obj>, env: EnvId, st: Store): (r: RunEach)
    requires Valid(st) && env < |st.envs|
    ensures Valid(StoreOf(r)) && Keeps(st, StoreOf(r)) && (r.Each? ==> |r.values| == |forms|)
    ensures r.Halted? ==> !r.r.out.Value?
    decreases fuel, 1, |forms|
  {
    if forms == [] then Each([], st)
    else
      var before := EvalEach(prims, fuel, forms[..|forms| - 1], env, st);
      if before.Halted? then before
      else
        var r := EvalForm(prims, fuel, forms[|forms| - 1], env, before.st);
        KeepsOn(st, before.st, r.st);
        if r.out.Value? then Each(before.values + [r.out.o], r.st) else Halted(r)
  }

  function ListItems(list: Obj): seq<Obj> {
    if list.Pair? then [list.car] + ListItems(list.cdr) else []
  }

  datatype RunArgs = AllArgs(args: Args, st: Store) | Stopped(r: Run)

  // Positional arguments in order, keywords in alphabetical order, then the rest in order.
  ghost function EvalArgs(prims: Primitives, fuel: nat, args: Args, env: EnvId, st: Store): (r: RunArgs)
    requires Valid(st) && env < |st.envs|
    ensures r.AllArgs? ==> Valid(r.st) && Keeps(st, r.st) && SameShape(args, r.args)
    ensures r.Stopped? ==> Valid(r.r.st) && Keeps(st, r.r.st) && !r.r.out.Value?
    decreases fuel, 2
  {
    var keys := Alphabetical(args.named.Keys);
    var unnamed := EvalEach(prims, fuel, args.unnamed, env, st);
    if unnamed.Halted? then Stopped(unnamed.r)
    else
      var named := EvalEach(prims, fuel, ValuesOf(keys, args.named), env, unnamed.st);
      KeepsOn(st, unnamed.st, StoreOf(named));
      if named.Halted? then Stopped(named.r)
      else
        var rest := EvalEach(prims, fuel, ListItems(args.rest), env, named.st);
        KeepsOn(st, named.st, StoreOf(rest));
        if rest.Halted? then Stopped(rest.r)
        else AllArgs(Args(unnamed.values, Zip(keys, named.values),
                          if args.rest.Pair? then BuildList(rest.values, Null) else args.rest), rest.st)
  }

  // ---- alphabetical order ----

  predicate Before(a: string, b: string) {
    b != "" && (a == "" || a[0] < b[0] || (a[0] == b[0] && Before(a[1..], b[1..])))
  }

  lemma {:induction false} BeforeIsTotal(a: string, b: string)
    ensures a == b || Before(a, b) || Before(b, a)
  {
    if a != "" && b != "" && a[0] == b[0] {
      BeforeIsTotal(a[1..], b[1..]);
      assert a == [a[0]] + a[1..] && b == [b[0]] + b[1..];
    }
  }

  lemma {:induction false} BeforeIsTransitive(a: string, b: string, c: string)
    requires Before(a, b) && Before(b, c)
    ensures Before(a, c) && !Before(b, a)
  {
    if a != "" && a[0] == b[0] {
      if b[0] == c[0] {
        BeforeIsTransitive(a[1..], b[1..], c[1..]);
      } else {
        BeforeIsStrict(a[1..], b[1..]);
      }
    }
  }

  lemma {:induction false} BeforeIsStrict(a: string, b: string)
    requires Before(a, b)
    ensures !Before(b, a)
  {
    if a != "" && a[0] == b[0] {
      BeforeIsStrict(a[1..], b[1..]);
    }
  }

  predicate IsFirst(name: string, names: set<string>) {
    name in names && forall other :: other in names ==> other == name || Before(name, other)
  }

  lemma {:induction false} FirstExists(names: set<string>)
    requires names != {}
    ensures exists name :: IsFirst(name, names)
  {
    var one :| one in names;
    var others := names - {one};
    if others == {} {
      assert forall other :: other in names ==> other == one || other in others;
      assert IsFirst(one, names);
    } else {
      FirstExists(others);
      var first :| IsFirst(first, others);
      BeforeIsTotal(one, first);
      if Before(one, first) {
        forall other | other in names
          ensures other == one || Before(one, other)
        {
          if other != one && other != first {
            BeforeIsTransitive(one, first, other);
          }
        }
        assert IsFirst(one, names);
      } else {
        assert IsFirst(first, names);
      }
    }
  }

  lemma FirstIsUnique(a: string, b: string, names: set<string>)
    requires IsFirst(a, names) && IsFirst(b, names)
    ensures a == b
  {
    if a != b {
      BeforeIsStrict(a, b);
    }
  }

  ghost function Alphabetical(names: set<string>): (r: seq<string>)
    ensures |r| == |names| && forall k :: k in r <==> k in names
    decreases |names|
  {
    if names == {} then []
    else
      FirstExists(names);
      var first :| IsFirst(first, names);
      [first] + Alphabetical(names - {first})
  }

  function ValuesOf(keys: seq<string>, named: map<string, Obj>): (r: seq<Obj>)
    requires forall k :: k in keys ==> k in named
    ensures |r| == |keys|
  {
    seq(|keys|, i requires 0 <= i < |keys| => named[keys[i]])
  }

  function Zip(keys: seq<string>, values: seq<Obj>): (r: map<string, Obj>)
    requires |keys| == |values|
    ensures forall k :: k in r <==> k in keys
  {
    if keys == [] then map[]
    else Zip(keys[..|keys| - 1], values[..|keys| - 1])[keys[|keys| - 1] := values[|keys| - 1]]
  }

  // ---- special forms ----

  ghost function EvalSpecial(prims: Primitives, fuel: nat, which: Special, x: Obj, env: EnvId, st: Store): (r: Run)
    requires Valid(st) && env < |st.envs| && x.Pair?
    ensures Valid(r.st) && Keeps(st, r.st)
    decreases fuel, 17
  {
    match which
    case Quote => Run(QuoteOutcome(x), st)
    case Define => EvalDefine(prims, fuel, x, env, st)
    case SetBang => EvalSet(prims, fuel, x, env, st)
    case Lambda => MakeLambda(x, env, st)
    case MacroForm => MakeMacro(x, st)
    case Cond => if x.cdr.Pair? then EvalCond(prims, fuel, x.cdr, x, env, st) else Run(Fault(x), st)
    case While =>
      if x.cdr.Pair? && x.cdr.cdr.Pair? then EvalWhile(prims, fuel, x.cdr.car, x.cdr.cdr, Null, env, st) else Run(Fault(x), st)
    case Let => EvalLet(prims, fuel, x, false, env, st)
    case LetStar => EvalLet(prims, fuel, x, true, env, st)
    case WithErrorHandler => EvalWithErrorHandler(prims, fuel, x, env, st)
  }

  predicate IsProper(list: Obj) {
    list.Null? || (list.Pair? && IsProper(list.cdr))
  }

  function QuoteOutcome(x: Obj): Outcome
    requires x.Pair?
  {
    if !IsProper(x.cdr) then Other else if x.cdr.Null? then Fault(x) else Value(x.cdr.car)
  }

  const VARARGS := Spec([], map[], "", false, true)
  const VARARGS_AND_KEYS := Spec([], map[], "", true, true)

  // A symbol and one more argument, and no other keys than these.
  predicate SymbolAndForm(args: Args, keys: set<string>) {
    |args.unnamed| == 2 && args.unnamed[0].Sym? && args.named.Keys <= keys
  }

  ghost function EvalDefine(prims: Primitives, fuel: nat, x: Obj, env: EnvId, st: Store): (r: Run)
    requires Valid(st) && env < |st.envs| && x.Pair?
    ensures Valid(r.st) && Keeps(st, r.st)
    decreases fuel, 10
  {
    var args := PrimitiveArgs(x.cdr, VARARGS_AND_KEYS);
    if !args.Good? then Run(Rejected(args, x), st)
    else if !SymbolAndForm(args.value, {"env"}) then Run(Fault(x), st)
    else
      var name := args.value.unnamed[0].name;
      if name in st.constants then Run(Fault(args.value.unnamed[0]), st)
      else if "env" !in args.value.named then DefineIn(prims, fuel, name, args.value.unnamed[1], env, env, st)
      else
        var target := EvalForm(prims, fuel, args.value.named["env"], env, st);
        if !target.out.Value? then target
        else
          var c := CallableAt(target.st, target.out.o);
          if c.None? || !c.value.EnvRef? then Run(Fault(x), target.st)
          else
            var r := DefineIn(prims, fuel, name, args.value.unnamed[1], c.value.env, env, target.st);
            KeepsOn(st, target.st, r.st);
            r
  }

  ghost function DefineIn(prims: Primitives, fuel: nat, name: string, form: Obj, target: EnvId, env: EnvId, st: Store): (r: Run)
    requires Valid(st) && env < |st.envs| && target < |st.envs| && name !in st.constants
    ensures Valid(r.st) && Keeps(st, r.st)
    decreases fuel, 5
  {
    var value := EvalForm(prims, fuel, form, env, st);
    if !value.out.Value? then value
    else
      var st' := SetVar(value.st, target, name, value.out.o);
      KeepsOn(st, value.st, st');
      Run(value.out, st')
  }

  ghost function EvalSet(prims: Primitives, fuel: nat, x: Obj, env: EnvId, st: Store): (r: Run)
    requires Valid(st) && env < |st.envs| && x.Pair?
    ensures Valid(r.st) && Keeps(st, r.st)
    decreases fuel, 10
  {
    var args := PrimitiveArgs(x.cdr, VARARGS);
    if !args.Good? then Run(Rejected(args, x), st)
    else if !SymbolAndForm(args.value, {}) then Run(Fault(x), st)
    else
      var value := EvalForm(prims, fuel, args.value.unnamed[1], env, st);
      if !value.out.Value? then value
      else
        var target := EnvToSet(value.st, env, args.value.unnamed[0].name);
        if target.None? then Run(Fault(args.value.unnamed[0]), value.st)
        else
          var st' := SetVar(value.st, target.value, args.value.unnamed[0].name, value.out.o);
          KeepsOn(st, value.st, st');
          Run(value.out, st')
  }

  ghost function MakeLambda(x: Obj, env: EnvId, st: Store): (r: Run)
    requires Valid(st) && env < |st.envs| && x.Pair?
    ensures Valid(r.st) && Keeps(st, r.st)
  {
    if !x.cdr.Pair? then Run(Other, st)
    else if !x.cdr.car.Null? && !x.cdr.car.Pair? then Run(Fault(x), st)
    else
      var spec := ParseSpec(x.cdr.car, Required, EMPTY_SPEC);
      if !spec.Good? then Run(Rejected(spec, x), st)
      else if x.cdr.cdr.Null? then Run(Fault(x), st)
      else
        ParsedSpecIsNotVariadic(x.cdr.car, Required, EMPTY_SPEC);
        Run(Value(Heap(|st.heap|)), NewCallable(st, Function(spec.value, x.cdr.cdr, env)))
  }

  ghost function MakeMacro(x: Obj, st: Store): (r: Run)
    requires Valid(st) && x.Pair?
    ensures Valid(r.st) && Keeps(st, r.st)
  {
    if !x.cdr.Pair? || (!x.cdr.car.Null? && !x.cdr.car.Pair?) then Run(Fault(x), st)
    else
      var spec := ParseSpec(x.cdr.car, Required, EMPTY_SPEC);
      if !spec.Good? then Run(Rejected(spec, x), st)
      else if !x.cdr.cdr.Pair? then Run(Fault(x), st)
      else
        ParsedSpecIsNotVariadic(x.cdr.car, Required, EMPTY_SPEC);
        Run(Value(Heap(|st.heap|)), NewCallable(st, Macro(spec.value, x.cdr.cdr)))
  }

  ghost function EvalCond(prims: Primitives, fuel: nat, clauses: Obj, x: Obj, env: EnvId, st: Store): (r: Run)
    requires Valid(st) && env < |st.envs|
    ensures Valid(r.st) && Keeps(st, r.st)
    decreases fuel, 3, clauses
  {
    if clauses.Null? then Run(Value(Sym(FALSE)), st)
    else if !clauses.Pair? then Run(Fault(x), st)
    else if !clauses.car.Pair? then Run(Fault(clauses), st)
    else
      var test := EvalForm(prims, fuel, clauses.car.car, env, st);
      if !test.out.Value? then test
      else if IsTrue(test.out.o) && clauses.car.cdr.Null? then test
      else
        var r := if IsTrue(test.out.o) then EvalBody(prims, fuel, clauses.car.cdr, env, test.st)
                 else EvalCond(prims, fuel, clauses.cdr, x, env, test.st);
        KeepsOn(st, test.st, r.st);
        r
  }

  ghost function EvalWhile(prims: Primitives, fuel: nat, test: Obj, body: Obj, result: Obj, env: EnvId, st: Store): (r: Run)
    requires Valid(st) && env < |st.envs|
    ensures Valid(r.st) && Keeps(st, r.st)
    decreases fuel, 4
  {
    var t := EvalForm(prims, fuel, test, env, st);
    var r := EvalRound(prims, fuel, test, body, result, t, env);
    KeepsOn(st, t.st, r.st);
    r
  }

  // The loop after its test.
  ghost function EvalRound(prims: Primitives, fuel: nat, test: Obj, body: Obj, result: Obj, t: Run, env: EnvId): (r: Run)
    requires Valid(t.st) && env < |t.st.envs|
    ensures Valid(r.st) && Keeps(t.st, r.st)
    decreases fuel, 3
  {
    if !t.out.Value? then t
    else if !IsTrue(t.out.o) then Run(Value(result), t.st)
    else
      var round := EvalLoopBody(prims, fuel, body, result, env, t.st);
      var r := EvalAgain(prims, fuel, test, body, round, env);
      KeepsOn(t.st, round.st, r.st);
      r
  }

  // The loop after a round of its body.
  ghost function EvalAgain(prims: Primitives, fuel: nat, test: Obj, body: Obj, round: Run, env: EnvId): (r: Run)
    requires Valid(round.st) && env < |round.st.envs|
    ensures Valid(r.st) && Keeps(round.st, r.st)
    decreases fuel, 0
  {
    if !round.out.Value? then round
    else if fuel == 0 then Run(OutOfFuel, round.st)
    else EvalWhile(prims, fuel - 1, test, body, round.out.o, env, round.st)
  }

  ghost function EvalLoopBody(prims: Primitives, fuel: nat, body: Obj, result: Obj, env: EnvId, st: Store): (r: Run)
    requires Valid(st) && env < |st.envs|
    ensures Valid(r.st) && Keeps(st, r.st)
    decreases fuel, 2, body
  {
    if !body.Pair? then Run(Value(result), st)
    else
      var first := EvalForm(prims, fuel, body.car, env, st);
      if !first.out.Value? then first
      else
        var r := EvalLoopBody(prims, fuel, body.cdr, first.out.o, env, first.st);
        KeepsOn(st, first.st, r.st);
        r
  }

  /** The parts of a let: its name, its bindings and its body. */
  datatype LetParts = LetParts(name: string, bindings: Obj, body: Obj)

  // The name of a let block may be quoted.
  function BlockName(first: Obj): Obj {
    if first.Pair? && first.car == Sym("quote") && first.cdr.Pair? then first.cdr.car else first
  }

  function PartsOfLet(x: Obj): Option<LetParts>
    requires x.Pair?
  {
    if !x.cdr.Pair? then None
    else
      var name := BlockName(x.cdr.car);
      var named := name.Sym? || name.Str?;
      var rest := if named then x.cdr.cdr else x.cdr;
      if !rest.Pair? || (!rest.car.Pair? && !rest.car.Null?) then None
      else Some(LetParts(if name.Sym? then name.name else if name.Str? then name.data else "", rest.car, rest.cdr))
  }

  ghost function EvalLet(prims: Primitives, fuel: nat, x: Obj, star: bool, env: EnvId, st: Store): (r: Run)
    requires Valid(st) && env < |st.envs| && x.Pair?
    ensures Valid(r.st) && Keeps(st, r.st)
    decreases fuel, 10
  {
    var parts := PartsOfLet(x);
    if parts.None? then Run(Fault(x), st)
    else
      var inner := |st.envs|;
      var st' := NewEnv(st, Env(parts.value.name, Some(env), map[], NoneObj, false));
      var bound := EvalBindings(prims, fuel, parts.value.bindings, x, star, inner, env, st');
      KeepsOn(st, st', bound.st);
      if !bound.out.Value? then bound
      else
        var r := EvalBody(prims, fuel, parts.value.body, inner, bound.st);
        KeepsOn(st, bound.st, r.st);
        r
  }

  // A binding is a symbol and one form.
  predicate IsBinding(binding: Obj) {
    binding.Pair? && binding.car.Sym? && binding.cdr.Pair? && binding.cdr.cdr.Null?
  }

  ghost function EvalBindings(prims: Primitives, fuel: nat, bindings: Obj, x: Obj, star: bool, inner: EnvId, env: EnvId, st: Store): (r: Run)
    requires Valid(st) && env < |st.envs| && inner < |st.envs| && !st.envs[inner].global
    ensures Valid(r.st) && Keeps(st, r.st)
    decreases fuel, 3, bindings
  {
    if bindings.Null? then Run(Value(Null), st)
    else if !bindings.Pair? || !IsBinding(bindings.car) then Run(Fault(x), st)
    else
      var value := EvalBare(prims, fuel, bindings.car.cdr.car, if star then inner else env, st);
      if !value.out.Value? then value
      else
        assert SameEnv(st.envs[inner], value.st.envs[inner], st.constants.Keys);
        var st' := SetVar(value.st, inner, bindings.car.car.name, value.out.o);
        KeepsOn(st, value.st, st');
        var r := EvalBindings(prims, fuel, bindings.cdr, x, star, inner, env, st');
        KeepsOn(st, st', r.st);
        r
  }

  ghost function EvalWithErrorHandler(prims: Primitives, fuel: nat, x: Obj, env: EnvId, st: Store): (r: Run)
    requires Valid(st) && env < |st.envs| && x.Pair?
    ensures Valid(r.st) && Keeps(st, r.st)
    decreases fuel, 10
  {
    if !x.cdr.Pair? then Run(Fault(x), st)
    else
      var handler := EvalBare(prims, fuel, x.cdr.car, env, st);
      if !handler.out.Value? then handler
      else if !IsFunction(handler.st, handler.out.o) then Run(Fault(x.cdr.car), handler.st)
      else
        var r := EvalInside(prims, fuel, x.cdr.cdr, Env("error-handler-scope", Some(env), map[], handler.out.o, false), handler.st);
        KeepsOn(st, handler.st, r.st);
        r
  }

  // ---- calls bind ----

  /** A function call whose arguments match and evaluate always binds its parameters. */
  lemma FunctionCallBinds(prims: Primitives, fuel: nat, i: nat, call: Obj, env: EnvId, st: Store)
    requires Valid(st) && env < |st.envs| && i < |st.heap| && st.heap[i].Function?
    requires CollectArgs(call, st.heap[i].spec).Good?
    ensures var r := EvalArgs(prims, fuel, CollectArgs(call, st.heap[i].spec).value, env, st);
            r.AllArgs? ==> forall vars: map<string, Obj> :: BindArgs(vars, r.args, st.heap[i].spec).Good?
  {
    var spec := st.heap[i].spec;
    var r := EvalArgs(prims, fuel, CollectArgs(call, spec).value, env, st);
    if r.AllArgs? {
      forall vars: map<string, Obj>
        ensures BindArgs(vars, r.args, spec).Good?
      {
        BindingSucceeds(call, spec, r.args, vars);
      }
    }
  }

  // And so does a macro call whose arguments match.
  lemma MacroCallBinds(i: nat, call: Obj, st: Store, vars: map<string, Obj>)
    requires Valid(st) && i < |st.heap| && st.heap[i].Macro?
    requires CollectArgs(call, st.heap[i].spec).Good?
    ensures BindArgs(vars, CollectArgs(call, st.heap[i].spec).value, st.heap[i].spec).Good?
  {
    BindingSucceeds(call, st.heap[i].spec, CollectArgs(call, st.heap[i].spec).value, vars);
  }

  // ---- making and calling ----

  lemma WrittenParamsAreList(p: Params)
    ensures WriteParams(p).Null? || WriteParams(p).Pair?
  {
  }

  // Whether a function takes this many values when it is called from the interpreter.
  predicate TakesCount(spec: Spec, count: nat) {
    if spec.rest != "" then count >= |spec.unnamed| else count == |spec.unnamed|
  }

  // The first values are for the parameters, the others make the list of the rest.
  function GivenArgs(args: seq<Obj>, spec: Spec): Args
    requires |spec.unnamed| <= |args|
  {
    Args(args[..|spec.unnamed|], map[], if spec.rest != "" then BuildList(args[|spec.unnamed|..], Null) else NoneObj)
  }

  // Such a call gives no keywords, so it binds exactly when the function declares none.
  lemma DirectCallBinds(p: Params, args: seq<Obj>)
    requires TakesCount(SpecOf(p), |args|)
    ensures DirectArgs(args, SpecOf(p)).Some?
    ensures var bound := BindArgs(map[], DirectArgs(args, SpecOf(p)).value, SpecOf(p));
            && (bound.Good? <==> SpecOf(p).named == map[]) && !bound.EvalError?
            && (bound.Good? ==> forall name :: BoundTo(bound.value, map[], GivenArgs(args, SpecOf(p)), SpecOf(p), name))
  {
    var spec := SpecOf(p);
    var given := DirectArgs(args, spec).value;
    RestIsNotNone(args[|spec.unnamed|..]);
    if spec.named == map[] {
      forall name
        ensures BoundTo(BindArgs(map[], given, spec).value, map[], given, spec, name)
      {
        ParametersAreBound(map[], given, spec, name);
      }
    } else {
      var key :| key in spec.named;
      assert !(spec.named.Keys <= given.named.Keys);
    }
  }

  /** A lambda expression makes a new function and changes nothing else.  A call of that function
      from the interpreter runs its body inside the environment of the lambda expression, with the
      parameters standing for the values, if there are as many values as it takes and it declares no
      keywords; with keywords, no such call ever succeeds. */
  lemma MadeFunctionApplies(prims: Primitives, fuel: nat, head: Obj, p: Params, body: Obj, env: EnvId, st: Store, args: seq<Obj>)
    returns (vars: map<string, Obj>)
    requires Valid(st) && env < |st.envs| && ProperParams(p) && !body.Null?
    ensures var r := MakeLambda(Pair(head, Pair(WriteParams(p), body)), env, st);
            && r.out == Value(Heap(|st.heap|)) && r.st == st.(heap := st.heap + [Function(SpecOf(p), body, env)])
            && CallFunction(prims, fuel, r.out.o, args, r.st)
            == if !TakesCount(SpecOf(p), |args|) then Run(Fault(r.out.o), r.st)
               else if SpecOf(p).named != map[] then Run(Other, r.st)
               else EvalInside(prims, fuel, body, Env("lambda-call", Some(env), vars, NoneObj, false), r.st)
    ensures TakesCount(SpecOf(p), |args|) && SpecOf(p).named == map[] ==>
      forall name :: BoundTo(vars, map[], GivenArgs(args, SpecOf(p)), SpecOf(p), name)
  {
    MadeFunction(head, p, body, env, st);
    vars := map[];
    if TakesCount(SpecOf(p), |args|) {
      DirectCallBinds(p, args);
      if SpecOf(p).named == map[] {
        vars := BindArgs(map[], DirectArgs(args, SpecOf(p)).value, SpecOf(p)).value;
      }
    }
  }

  lemma MadeFunction(head: Obj, p: Params, body: Obj, env: EnvId, st: Store)
    requires Valid(st) && env < |st.envs| && ProperParams(p) && !body.Null?
    ensures MakeLambda(Pair(head, Pair(WriteParams(p), body)), env, st)
         == Run(Value(Heap(|st.heap|)), st.(heap := st.heap + [Function(SpecOf(p), body, env)]))
  {
    ParseUndoesWrite(p);
    WrittenParamsAreList(p);
  }

  lemma RestIsNotNone(items: seq<Obj>)
    ensures !BuildList(items, Null).NoneObj?
  {
  }

  /** A macro expression makes a new macro and changes nothing else.  A call that matches its
      parameters runs its body inside the environment of the call, with the parameters standing for
      the unevaluated arguments, and evaluates the result. */
  lemma MadeMacroExpands(prims: Primitives, fuel: nat, head: Obj, p: Params, body: Obj, st: Store, x: Obj, env: EnvId)
    returns (vars: map<string, Obj>)
    requires Valid(st) && env < |st.envs| && ProperParams(p) && body.Pair? && x.Pair?
    requires CollectArgs(x.cdr, SpecOf(p)).Good?
    ensures var r := MakeMacro(Pair(head, Pair(WriteParams(p), body)), st);
            var macro := Macro(SpecOf(p), body);
            && r.out == Value(Heap(|st.heap|)) && r.st == st.(heap := st.heap + [macro])
            && var expansion := EvalInside(prims, fuel, body, Env("", Some(env), vars, NoneObj, false), r.st);
            ExpandMacro(prims, fuel, macro, x, env, r.st)
            == if expansion.out.Value? then EvalForm(prims, fuel, expansion.out.o, env, expansion.st) else expansion
    ensures |SpecOf(p).unnamed| == |CollectArgs(x.cdr, SpecOf(p)).value.unnamed|
            && SpecOf(p).named.Keys <= CollectArgs(x.cdr, SpecOf(p)).value.named.Keys
    ensures forall name :: BoundTo(vars, map[], CollectArgs(x.cdr, SpecOf(p)).value, SpecOf(p), name)
  {
    MadeMacro(head, p, body, st);
    vars := MatchedCallBinds(x.cdr, p);
  }

  lemma MadeMacro(head: Obj, p: Params, body: Obj, st: Store)
    requires Valid(st) && ProperParams(p) && body.Pair?
    ensures MakeMacro(Pair(head, Pair(WriteParams(p), body)), st)
         == Run(Value(Heap(|st.heap|)), st.(heap := st.heap + [Macro(SpecOf(p), body)]))
  {
    ParseUndoesWrite(p);
    WrittenParamsAreList(p);
  }

  lemma MatchedCallBinds(call: Obj, p: Params) returns (vars: map<string, Obj>)
    requires CollectArgs(call, SpecOf(p)).Good?
    ensures BindArgs(map[], CollectArgs(call, SpecOf(p)).value, SpecOf(p)) == Good(vars)
    ensures |SpecOf(p).unnamed| == |CollectArgs(call, SpecOf(p)).value.unnamed|
    ensures forall name :: BoundTo(vars, map[], CollectArgs(call, SpecOf(p)).value, SpecOf(p), name)
  {
    var args := CollectArgs(call, SpecOf(p)).value;
    var n, pairs := CallIsPartitioned(call, SpecOf(p));
    BindingSucceeds(call, SpecOf(p), args, map[]);
    vars := BindArgs(map[], args, SpecOf(p)).value;
    forall name
      ensures BoundTo(vars, map[], args, SpecOf(p), name)
    {
      ParametersAreBound(map[], args, SpecOf(p), name);
    }
  }

  // The error ends exactly when the handler answers with the empty list or with #f, and that answer is
  // the value; otherwise the error goes on, with a frame more exactly when the answer is a pair.
  lemma ResponseDecides(response: Obj, e: Err)
    ensures Respond(response, e).Value? <==> response.Null? || response == Sym(FALSE)
    ensures Respond(response, e).Value? ==> Respond(response, e).o == response
    ensures !Respond(response, e).Value? ==>
      Respond(response, e).Raised? && Respond(response, e).e == e.(trace := Respond(response, e).e.trace)
      && e.trace <= Respond(response, e).e.trace
      && |Respond(response, e).e.trace| == |e.trace| + if response.Pair? then 1 else 0
  {
  }
}
