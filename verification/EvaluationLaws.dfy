/** What programs mean: the laws of the evaluator, form by form.

    Each law names the values and stores of the parts of a form and says what the form then comes
    to.  A part or a form ends within n steps when it ends the same way with n steps or more.
 */
module EvaluationLaws {
  import opened Options
  import opened Objects
  import opened Arguments
  import opened Evaluation
  import opened FuelIndependence

  // ---- how expressions end ----

  // With n steps or more, x ends with r, after its errors were offered to the handler of env.
  ghost predicate Ends(prims: Primitives, n: nat, x: Obj, env: EnvId, st: Store, r: Run) {
    Valid(st) && env < |st.envs| && forall fuel: nat :: fuel >= n ==> EvalForm(prims, fuel, x, env, st) == r
  }

  // The same before they are offered.
  ghost predicate Computes(prims: Primitives, n: nat, x: Obj, env: EnvId, st: Store, r: Run) {
    Valid(st) && env < |st.envs| && forall fuel: nat :: fuel >= n ==> EvalObject(prims, fuel, x, env, st) == r
  }

  ghost predicate Yields(prims: Primitives, n: nat, x: Obj, env: EnvId, st: Store, o: Obj, st': Store) {
    Ends(prims, n, x, env, st, Run(Value(o), st'))
  }

  // Nothing is lost by counting steps: every result of an evaluation is one of these.
  lemma {:induction false} ResultsEnd(prims: Primitives, n: nat, x: Obj, env: EnvId, st: Store)
    requires Valid(st) && env < |st.envs| && !EvalForm(prims, n, x, env, st).out.OutOfFuel?
    ensures Ends(prims, n, x, env, st, EvalForm(prims, n, x, env, st))
  {
    forall fuel: nat | fuel >= n
      ensures EvalForm(prims, fuel, x, env, st) == EvalForm(prims, n, x, env, st)
    {
      MoreFuel(prims, n, fuel, x, env, st);
    }
  }

  lemma EndsKeeps(prims: Primitives, n: nat, x: Obj, env: EnvId, st: Store, r: Run)
    requires Ends(prims, n, x, env, st, r)
    ensures Valid(r.st) && Keeps(st, r.st) && env < |r.st.envs|
  {
    assert EvalForm(prims, n, x, env, st) == r;
  }

  // The forms yield these values one after the other, each from the store the one before left.
  ghost predicate YieldAll(prims: Primitives, n: nat, forms: seq<Obj>, env: EnvId, stores: seq<Store>, values: seq<Obj>) {
    && |values| == |forms| && |stores| == |forms| + 1
    && Valid(stores[0]) && env < |stores[0].envs|
    && forall i :: 0 <= i < |forms| ==> Yields(prims, n, forms[i], env, stores[i], values[i], stores[i + 1])
  }

  // What the object at the head of a call is, and the store after it was evaluated.
  ghost predicate Calls(prims: Primitives, n: nat, x: Obj, env: EnvId, st: Store, c: Callable, st': Store) {
    x.Pair? && exists ref: nat :: Yields(prims, n, x.car, env, st, Heap(ref), st') && ref < |st'.heap| && st'.heap[ref] == c
  }

  // ---- expressions that are no calls ----

  // A name has the value of the nearest environment that has it.
  ghost predicate IsChain(st: Store, path: seq<EnvId>) {
    path != [] && path[0] < |st.envs| && forall i :: 0 <= i < |path| - 1 ==> path[i] < |st.envs| && st.envs[path[i]].parent == Some(path[i + 1])
  }

  lemma {:induction false} LookupAlong(st: Store, path: seq<EnvId>, name: string)
    requires Valid(st) && IsChain(st, path) && forall i :: 0 <= i < |path| - 1 ==> name !in st.envs[path[i]].vars
    ensures path[|path| - 1] < |st.envs| && Lookup(st, path[0], name) == Lookup(st, path[|path| - 1], name)
    decreases |path|
  {
    if |path| > 1 {
      assert st.envs[path[0]].parent == Some(path[1]);
      LookupAlong(st, path[1..], name);
    }
  }

  /** A variable has the value it has in the nearest environment that has it, from the environment of
      the expression outwards. */
  lemma VariableLaw(prims: Primitives, name: string, path: seq<EnvId>, st: Store)
    requires Valid(st) && IsChain(st, path) && !IsKeyword(Sym(name)) && name != "#t" && name != "#f"
    requires forall i :: 0 <= i < |path| - 1 ==> name !in st.envs[path[i]].vars
    ensures path[|path| - 1] < |st.envs|
    ensures name in st.envs[path[|path| - 1]].vars ==>
      Computes(prims, 0, Sym(name), path[0], st, Run(Value(st.envs[path[|path| - 1]].vars[name]), st))
    // A name that no environment has may be a constant, or it is an error.
    ensures name !in st.envs[path[|path| - 1]].vars && st.envs[path[|path| - 1]].parent.None? ==>
      if name in st.constants then Computes(prims, 0, Sym(name), path[0], st, Run(Value(st.constants[name]), st))
      else Computes(prims, 0, Sym(name), path[0], st, Run(Fault(Sym(name)), st))
  {
    LookupAlong(st, path, name);
  }

  /** Everything but names, calls, the none object and what stands at the head of calls is its own value;
      so are keywords, #t and #f, and functions. */
  lemma SelfLaw(prims: Primitives, x: Obj, env: EnvId, st: Store)
    requires Valid(st) && env < |st.envs|
    requires x.Null? || x.Int? || x.Float? || x.Char? || x.Str? || IsKeyword(x) || x == Sym("#t") || x == Sym("#f") || IsFunction(st, x)
    ensures Computes(prims, 0, x, env, st, Run(Value(x), st))
  {
  }

  // ---- errors ----

  // Values and exceptions of other kinds are not offered to a handler.
  lemma UncaughtLaw(prims: Primitives, n: nat, x: Obj, env: EnvId, st: Store, r: Run)
    requires Computes(prims, n, x, env, st, r) && (r.out.Value? || r.out.Other?)
    ensures Ends(prims, n + 1, x, env, st, r)
  {
    forall fuel: nat | fuel >= n + 1
      ensures EvalForm(prims, fuel, x, env, st) == r
    {
      assert EvalObject(prims, fuel - 1, x, env, st) == r;
    }
  }

  // The error after x and the name of its environment were added to its trace: the innermost
  // expression is not.
  function Passed(e: Err, x: Obj, name: string): Err {
    Err(e.form, e.message, if e.counter == 0 then e.trace else e.trace + [Frame(x, name)], e.counter + 1)
  }

  // An error goes on where no function is installed as handler.
  lemma UnhandledLaw(prims: Primitives, n: nat, x: Obj, env: EnvId, st: Store, e: Err, st': Store)
    requires Computes(prims, n, x, env, st, Run(Raised(e), st')) && env < |st'.envs| && !IsFunction(st', st'.envs[env].handler)
    ensures Ends(prims, n + 1, x, env, st, Run(Raised(Passed(e, x, st'.envs[env].name)), st'))
  {
    forall fuel: nat | fuel >= n + 1
      ensures EvalForm(prims, fuel, x, env, st) == Run(Raised(Passed(e, x, st'.envs[env].name)), st')
    {
      var less: nat := fuel - 1;
      assert EvalObject(prims, less, x, env, st) == Run(Raised(e), st');
      Attended(prims, fuel, less, x, env, st, e, st');
    }
  }

  lemma Attended(prims: Primitives, fuel: nat, less: nat, x: Obj, env: EnvId, st: Store, e: Err, st': Store)
    requires Valid(st) && env < |st.envs| && fuel == less + 1 && EvalObject(prims, less, x, env, st) == Run(Raised(e), st')
    ensures Valid(st') && env < |st'.envs|
    ensures EvalForm(prims, fuel, x, env, st) == Handle(prims, less, env, Passed(e, x, st'.envs[env].name), st')
  {
    var r := EvalObject(prims, less, x, env, st);
    PassedOn(e, x, st'.envs[env].name);
    AttendedRun(prims, less, x, env, r, e, st');
    AttendedForm(prims, fuel, less, x, env, st);
  }

  lemma AttendedForm(prims: Primitives, fuel: nat, less: nat, x: Obj, env: EnvId, st: Store)
    requires Valid(st) && env < |st.envs| && fuel == less + 1
    ensures EvalForm(prims, fuel, x, env, st) == Attend(prims, less, x, env, EvalObject(prims, less, x, env, st))
  {
  }

  lemma PassedOn(e: Err, x: Obj, name: string)
    ensures WithContext(e, x, name) == Passed(e, x, name)
  {
  }

  lemma AttendedRun(prims: Primitives, fuel: nat, x: Obj, env: EnvId, r: Run, e: Err, st: Store)
    requires Valid(st) && env < |st.envs| && r == Run(Raised(e), st)
    ensures Attend(prims, fuel, x, env, r) == Handle(prims, fuel, env, WithContext(e, x, st.envs[env].name), st)
  {
  }

  // The forms, evaluated in order up to the first that does not yield a value, come to r.
  ghost predicate Runs(prims: Primitives, n: nat, forms: seq<Obj>, env: EnvId, st: Store, r: Run) {
    forms != [] && exists first: Run ::
      Ends(prims, n, forms[0], env, st, first)
      && (if first.out.Value? && |forms| > 1 then Runs(prims, n, forms[1..], env, first.st, r) else r == first)
  }

  lemma {:induction false} BodyLaw(prims: Primitives, n: nat, fuel: nat, forms: seq<Obj>, env: EnvId, st: Store, r: Run)
    requires Runs(prims, n, forms, env, st, r) && fuel >= n
    ensures Valid(st) && env < |st.envs| && EvalBody(prims, fuel, BuildList(forms, Null), env, st) == r
    decreases |forms|
  {
    var first: Run :| Ends(prims, n, forms[0], env, st, first)
      && (if first.out.Value? && |forms| > 1 then Runs(prims, n, forms[1..], env, first.st, r) else r == first);
    assert EvalForm(prims, fuel, forms[0], env, st) == first;
    if first.out.Value? && |forms| > 1 {
      BodyLaw(prims, n, fuel, forms[1..], env, first.st, r);
    }
  }

  ghost function WithEnv(st: Store, inner: Env): Store {
    st.(envs := st.envs + [inner])
  }

  // The same in a new environment.
  ghost predicate RunsInside(prims: Primitives, n: nat, forms: seq<Obj>, inner: Env, st: Store, r: Run) {
    Valid(st) && (inner.parent.Some? ==> inner.parent.value < |st.envs|)
    && Runs(prims, n, forms, |st.envs|, WithEnv(st, inner), r)
  }

  lemma InsideLaw(prims: Primitives, n: nat, fuel: nat, forms: seq<Obj>, inner: Env, st: Store, r: Run)
    requires RunsInside(prims, n, forms, inner, st, r) && fuel >= n
    ensures EvalInside(prims, fuel, BuildList(forms, Null), inner, st) == r
  {
    BodyLaw(prims, n, fuel, forms, |st.envs|, WithEnv(st, inner), r);
  }

  // These variables are what the parameters of spec are bound to by these arguments, and no more.
  ghost predicate Binds(vars: map<string, Obj>, args: Args, spec: Spec) {
    && |spec.unnamed| <= |args.unnamed| && spec.named.Keys <= args.named.Keys
    && forall name :: BoundTo(vars, map[], args, spec, name)
  }

  lemma BindsIsBinding(vars: map<string, Obj>, args: Args, spec: Spec)
    requires Binds(vars, args, spec) && BindArgs(map[], args, spec).Good?
    ensures BindArgs(map[], args, spec) == Good(vars)
  {
    var bound := BindArgs(map[], args, spec).value;
    forall name
      ensures name in bound <==> name in vars
      ensures name in bound ==> bound[name] == vars[name]
    {
      SameBinding(vars, args, spec, name);
    }
    assert bound == vars;
  }

  lemma SameBinding(vars: map<string, Obj>, args: Args, spec: Spec, name: string)
    requires Binds(vars, args, spec) && BindArgs(map[], args, spec).Good?
    ensures var bound := BindArgs(map[], args, spec).value;
            (name in bound <==> name in vars) && (name in bound ==> bound[name] == vars[name])
  {
    ParametersAreBound(map[], args, spec, name);
    assert BoundTo(vars, map[], args, spec, name);
  }

  // ---- handlers ----

  // What the answer of a handler makes of an error.
  ghost predicate Answers(answer: Obj, e: Err, out: Outcome) {
    if answer == Null || answer == Sym("#f") then out == Value(answer)
    else if answer.Pair? then
      out == Raised(Err(e.form, e.message, e.trace + [Frame(answer.car, AddedNote(answer.cdr))], e.counter))
    else out == Raised(e)
  }

  function AddedNote(rest: Obj): string {
    if rest.Pair? && rest.car.Str? then rest.car.data else "Additional context"
  }

  // The list of the frames of a trace, outermost last, each a pair of its form and its note.
  ghost predicate ListsTrace(list: Obj, trace: seq<Frame>) {
    exists frames: seq<Obj> :: list == BuildList(frames, Null) && |frames| == |trace|
      && forall i :: 0 <= i < |trace| ==> frames[i] == Pair(trace[i].form, Str(trace[i].note))
  }

  lemma {:induction false} TraceLaw(list: Obj, trace: seq<Frame>, frames: seq<Obj>)
    requires list == BuildList(frames, Null) && |frames| == |trace|
    requires forall i :: 0 <= i < |trace| ==> frames[i] == Pair(trace[i].form, Str(trace[i].note))
    ensures list == TraceList(trace)
    decreases |trace|
  {
    if trace != [] {
      TraceLaw(BuildList(frames[1..], Null), trace[1..], frames[1..]);
    }
  }

  lemma HandlerCall(prims: Primitives, fuel: nat, env: EnvId, e: Err, st: Store, args: seq<Obj>, vars: map<string, Obj>, r: Run,
                    out: Outcome)
    requires Valid(st) && env < |st.envs| && IsFunction(st, st.envs[env].handler)
    requires args == [Str(e.message), e.form, TraceList(e.trace)]
    requires var fn := st.heap[st.envs[env].handler.ref];
             && |fn.spec.unnamed| == 3 && fn.spec.named == map[] && fn.spec.rest == ""
             && BindArgs(map[], Args(args, map[], NoneObj), fn.spec) == Good(vars)
             && EvalInside(prims, fuel, fn.body, Env("lambda-call", Some(fn.env), vars, NoneObj, false), st) == r
    requires if r.out.Value? then Answers(r.out.o, e, out) else out == r.out
    ensures Handle(prims, fuel, env, e, st) == Run(out, r.st)
  {
    assert args[..3] == args;
    assert CallFunction(prims, fuel, st.envs[env].handler, args, st) == r;
  }

  /** An error in an environment with a handler: the handler runs inside the environment where it was
      made, with the message, the form and the trace for its three parameters; its answer decides.  If
      the handler does not answer, what it came to takes the place of the error. */
  lemma HandlerLaw(prims: Primitives, n: nat, x: Obj, env: EnvId, st: Store, e: Err, st': Store, ref: nat, fn: Callable,
                   trace: Obj, vars: map<string, Obj>, forms: seq<Obj>, r: Run, out: Outcome)
    requires Computes(prims, n, x, env, st, Run(Raised(e), st')) && Valid(st') && env < |st'.envs|
    requires st'.envs[env].handler == Heap(ref) && ref < |st'.heap| && st'.heap[ref] == fn && fn.Function?
    requires |fn.spec.unnamed| == 3 && fn.spec.named == map[] && fn.spec.rest == ""
    requires ListsTrace(trace, Passed(e, x, st'.envs[env].name).trace)
    requires Binds(vars, Args([Str(e.message), e.form, trace], map[], NoneObj), fn.spec)
    requires fn.body == BuildList(forms, Null)
    requires RunsInside(prims, n, forms, Env("lambda-call", Some(fn.env), vars, NoneObj, false), st', r)
    requires if r.out.Value? then Answers(r.out.o, Passed(e, x, st'.envs[env].name), out) else out == r.out
    ensures Ends(prims, n + 1, x, env, st, Run(out, r.st))
  {
    HandlerBinds(fn.spec, Passed(e, x, st'.envs[env].name), trace, vars);
    var inner := Env("lambda-call", Some(fn.env), vars, NoneObj, false);
    forall fuel: nat | fuel >= n + 1
      ensures EvalForm(prims, fuel, x, env, st) == Run(out, r.st)
    {
      var less: nat := fuel - 1;
      assert EvalObject(prims, less, x, env, st) == Run(Raised(e), st');
      InsideLaw(prims, n, less, forms, inner, st', r);
      HandlerAt(prims, fuel, less, x, env, st, e, st', fn, trace, vars, r, out, Passed(e, x, st'.envs[env].name));
    }
  }

  lemma HandlerAt(prims: Primitives, fuel: nat, less: nat, x: Obj, env: EnvId, st: Store, e: Err, st': Store, fn: Callable,
                  trace: Obj, vars: map<string, Obj>, r: Run, out: Outcome, passed: Err)
    requires Valid(st) && env < |st.envs| && fuel == less + 1 && EvalObject(prims, less, x, env, st) == Run(Raised(e), st')
    requires Valid(st') && env < |st'.envs| && IsFunction(st', st'.envs[env].handler) && fn == st'.heap[st'.envs[env].handler.ref]
    requires |fn.spec.unnamed| == 3 && fn.spec.named == map[] && fn.spec.rest == ""
    requires passed == Passed(e, x, st'.envs[env].name) && trace == TraceList(passed.trace)
    requires BindArgs(map[], Args([Str(passed.message), passed.form, trace], map[], NoneObj), fn.spec) == Good(vars)
    requires EvalInside(prims, less, fn.body, Env("lambda-call", Some(fn.env), vars, NoneObj, false), st') == r
    requires if r.out.Value? then Answers(r.out.o, passed, out) else out == r.out
    ensures EvalForm(prims, fuel, x, env, st) == Run(out, r.st)
  {
    Attended(prims, fuel, less, x, env, st, e, st');
    CallOfHandler(prims, less, env, passed, st', trace, fn, vars, r, out);
  }

  lemma CallOfHandler(prims: Primitives, fuel: nat, env: EnvId, e: Err, st: Store, trace: Obj, fn: Callable, vars: map<string, Obj>,
                      r: Run, out: Outcome)
    requires Valid(st) && env < |st.envs| && IsFunction(st, st.envs[env].handler) && fn == st.heap[st.envs[env].handler.ref]
    requires |fn.spec.unnamed| == 3 && fn.spec.named == map[] && fn.spec.rest == "" && trace == TraceList(e.trace)
    requires BindArgs(map[], Args([Str(e.message), e.form, trace], map[], NoneObj), fn.spec) == Good(vars)
    requires EvalInside(prims, fuel, fn.body, Env("lambda-call", Some(fn.env), vars, NoneObj, false), st) == r
    requires if r.out.Value? then Answers(r.out.o, e, out) else out == r.out
    ensures Handle(prims, fuel, env, e, st) == Run(out, r.st)
  {
    HandlerCall(prims, fuel, env, e, st, [Str(e.message), e.form, trace], vars, r, out);
  }

  lemma HandlerBinds(spec: Spec, e: Err, trace: Obj, vars: map<string, Obj>)
    requires |spec.unnamed| == 3 && spec.named == map[] && spec.rest == "" && ListsTrace(trace, e.trace)
    requires Binds(vars, Args([Str(e.message), e.form, trace], map[], NoneObj), spec)
    ensures trace == TraceList(e.trace)
    ensures BindArgs(map[], Args([Str(e.message), e.form, trace], map[], NoneObj), spec) == Good(vars)
  {
    var frames: seq<Obj> :| trace == BuildList(frames, Null) && |frames| == |e.trace|
      && forall i :: 0 <= i < |e.trace| ==> frames[i] == Pair(e.trace[i].form, Str(e.trace[i].note));
    TraceLaw(trace, e.trace, frames);
    BindsIsBinding(vars, Args([Str(e.message), e.form, trace], map[], NoneObj), spec);
  }

  // ---- arguments ----

  lemma {:induction false} EachLaw(prims: Primitives, n: nat, fuel: nat, forms: seq<Obj>, env: EnvId, stores: seq<Store>, values: seq<Obj>)
    requires YieldAll(prims, n, forms, env, stores, values) && fuel >= n
    ensures EvalEach(prims, fuel, forms, env, stores[0]) == Each(values, stores[|forms|])
    decreases |forms|
  {
    if forms != [] {
      var k := |forms| - 1;
      assert Yields(prims, n, forms[k], env, stores[k], values[k], stores[k + 1]);
      assert YieldAll(prims, n, forms[..k], env, stores[..k + 1], values[..k]);
      EachLaw(prims, n, fuel, forms[..k], env, stores[..k + 1], values[..k]);
      assert values[..k] + [values[k]] == values;
    }
  }

  // The forms yield these values one after the other, and st becomes st'.
  ghost predicate YieldFrom(prims: Primitives, n: nat, forms: seq<Obj>, env: EnvId, st: Store, values: seq<Obj>, st': Store) {
    exists stores: seq<Store> ::
      YieldAll(prims, n, forms, env, stores, values) && stores[0] == st && stores[|forms|] == st'
  }

  lemma YieldFromLaw(prims: Primitives, n: nat, fuel: nat, forms: seq<Obj>, env: EnvId, st: Store, values: seq<Obj>, st': Store)
    requires YieldFrom(prims, n, forms, env, st, values, st') && fuel >= n
    ensures Valid(st) && env < |st.envs| && EvalEach(prims, fuel, forms, env, st) == Each(values, st')
  {
    var stores: seq<Store> :| YieldAll(prims, n, forms, env, stores, values) && stores[0] == st && stores[|forms|] == st';
    EachLaw(prims, n, fuel, forms, env, stores, values);
  }

  // The keys in alphabetical order, each once.
  ghost predicate InAlphabet(keys: seq<string>, names: set<string>) {
    (forall k :: k in keys <==> k in names) && forall i, j :: 0 <= i < j < |keys| ==> Before(keys[i], keys[j])
  }

  lemma {:induction false} AlphabetIsUnique(keys: seq<string>, names: set<string>)
    requires InAlphabet(keys, names)
    ensures keys == Alphabetical(names)
    decreases |keys|
  {
    if keys != [] {
      FirstKey(keys, names);
      OtherKeys(keys, names);
      AlphabetIsUnique(keys[1..], names - {keys[0]});
      AlphabeticalFrom(names, keys[0]);
    } else {
      assert names == {};
    }
  }

  lemma AlphabeticalFrom(names: set<string>, first: string)
    requires IsFirst(first, names)
    ensures Alphabetical(names) == [first] + Alphabetical(names - {first})
  {
    var chosen :| IsFirst(chosen, names) && Alphabetical(names) == [chosen] + Alphabetical(names - {chosen});
    FirstIsUnique(chosen, first, names);
  }

  lemma FirstKey(keys: seq<string>, names: set<string>)
    requires InAlphabet(keys, names) && keys != []
    ensures IsFirst(keys[0], names)
  {
    forall other | other in names
      ensures other == keys[0] || Before(keys[0], other)
    {
      assert other in keys;
      var i :| 0 <= i < |keys| && keys[i] == other;
    }
  }

  lemma OtherKeys(keys: seq<string>, names: set<string>)
    requires InAlphabet(keys, names) && keys != []
    ensures InAlphabet(keys[1..], names - {keys[0]})
  {
    forall k | k in keys[1..]
      ensures k in names - {keys[0]}
    {
      var i :| 0 <= i < |keys[1..]| && keys[1..][i] == k;
      assert Before(keys[0], keys[i + 1]);
      BeforeIsStrict(keys[0], keys[i + 1]);
    }
    forall k | k in names - {keys[0]}
      ensures k in keys[1..]
    {
      assert k in keys;
    }
  }

  // The forms of the keyword arguments, in the order of these keys, and the values they get.
  ghost predicate NamedInOrder(named: map<string, Obj>, keys: seq<string>, forms: seq<Obj>) {
    && InAlphabet(keys, named.Keys) && |forms| == |keys|
    && forall i :: 0 <= i < |keys| ==> keys[i] in named && named[keys[i]] == forms[i]
  }

  // The list of the rest, or none.
  ghost predicate RestIs(rest: Obj, items: seq<Obj>) {
    if items == [] then rest.NoneObj? || rest.Null? else rest == BuildList(items, Null)
  }

  /** How the arguments args come to all: in three stages, by position, by key and the rest. */
  datatype Stages = Stages(keys: seq<string>, forms: seq<Obj>, named: seq<Obj>, items: seq<Obj>, rest: seq<Obj>, first: Store, second: Store)

  ghost predicate ArgsYieldBy(prims: Primitives, n: nat, args: Args, env: EnvId, st: Store, all: Args, st': Store, s: Stages) {
    && YieldFrom(prims, n, args.unnamed, env, st, all.unnamed, s.first)
    && NamedInOrder(args.named, s.keys, s.forms) && NamedInOrder(all.named, s.keys, s.named)
    && YieldFrom(prims, n, s.forms, env, s.first, s.named, s.second)
    && RestIs(args.rest, s.items) && YieldFrom(prims, n, s.items, env, s.second, s.rest, st')
    && all.rest == if s.items == [] then args.rest else BuildList(s.rest, Null)
  }

  ghost predicate ArgsYield(prims: Primitives, n: nat, args: Args, env: EnvId, st: Store, all: Args, st': Store) {
    exists s: Stages :: ArgsYieldBy(prims, n, args, env, st, all, st', s)
  }

  lemma ZipIsMap(named: map<string, Obj>, keys: seq<string>, forms: seq<Obj>)
    requires NamedInOrder(named, keys, forms)
    ensures Zip(keys, forms) == named
    ensures keys == Alphabetical(named.Keys) && forms == ValuesOf(keys, named)
  {
    AlphabetIsUnique(keys, named.Keys);
    ZipHas(keys, forms);
    assert Zip(keys, forms).Keys == named.Keys;
    forall k | k in named
      ensures Zip(keys, forms)[k] == named[k]
    {
      assert k in keys;
      var i :| 0 <= i < |keys| && keys[i] == k;
    }
  }

  lemma {:induction false} ZipHas(keys: seq<string>, values: seq<Obj>)
    requires |keys| == |values| && forall i, j :: 0 <= i < j < |keys| ==> Before(keys[i], keys[j])
    ensures forall i :: 0 <= i < |keys| ==> keys[i] in Zip(keys, values) && Zip(keys, values)[keys[i]] == values[i]
    decreases |keys|
  {
    if keys != [] {
      var k := |keys| - 1;
      ZipHas(keys[..k], values[..k]);
      forall i | 0 <= i < k
        ensures Zip(keys, values)[keys[i]] == values[i]
      {
        assert keys[..k][i] == keys[i] && values[..k][i] == values[i];
        BeforeIsStrict(keys[i], keys[k]);
        assert keys[i] != keys[k];
      }
    }
  }

  lemma {:induction false} ItemsOfBuilt(items: seq<Obj>)
    ensures ListItems(BuildList(items, Null)) == items
  {
    if items != [] {
      ItemsOfBuilt(items[1..]);
      assert items == [items[0]] + items[1..];
    }
  }

  /** Arguments are evaluated by position, then by key in alphabetical order, then the rest; each
      stands for its value, and the list of the rest is a new one. */
  lemma ArgumentsLaw(prims: Primitives, n: nat, fuel: nat, args: Args, env: EnvId, st: Store, all: Args, st': Store)
    requires ArgsYield(prims, n, args, env, st, all, st') && fuel >= n
    ensures Valid(st) && env < |st.envs| && EvalArgs(prims, fuel, args, env, st) == AllArgs(all, st')
  {
    var s: Stages :| ArgsYieldBy(prims, n, args, env, st, all, st', s);
    YieldFromLaw(prims, n, fuel, args.unnamed, env, st, all.unnamed, s.first);
    YieldFromLaw(prims, n, fuel, s.forms, env, s.first, s.named, s.second);
    YieldFromLaw(prims, n, fuel, s.items, env, s.second, s.rest, st');
    ZipIsMap(args.named, s.keys, s.forms);
    ZipIsMap(all.named, s.keys, s.named);
    ItemsOfBuilt(s.items);
  }

  // ---- calls ----

  // After its head, a call is what the object at the head makes of it.
  lemma HeadLaw(prims: Primitives, n: nat, fuel: nat, x: Obj, env: EnvId, st: Store, c: Callable, st': Store) returns (f: Obj)
    requires Calls(prims, n, x, env, st, c, st') && fuel >= n
    ensures Valid(st') && env < |st'.envs| && CallableAt(st', f) == Some(c) && f.Heap?
    ensures EvalObject(prims, fuel, x, env, st) == Apply(prims, fuel, f, x, env, st')
  {
    var ref: nat :| Yields(prims, n, x.car, env, st, Heap(ref), st') && ref < |st'.heap| && st'.heap[ref] == c;
    f := Heap(ref);
    EndsKeeps(prims, n, x.car, env, st, Run(Value(f), st'));
    assert EvalForm(prims, fuel, x.car, env, st) == Run(Value(f), st');
    PairLaw(prims, fuel, x, env, st, f, st');
  }

  lemma PairLaw(prims: Primitives, fuel: nat, x: Obj, env: EnvId, st: Store, f: Obj, st': Store)
    requires x.Pair? && Valid(st) && env < |st.envs| && EvalForm(prims, fuel, x.car, env, st) == Run(Value(f), st')
    ensures Valid(st') && env < |st'.envs| && EvalObject(prims, fuel, x, env, st) == Apply(prims, fuel, f, x, env, st')
  {
  }

  // A head that does not yield a value stands for the whole call.
  lemma FailedHeadLaw(prims: Primitives, n: nat, x: Obj, env: EnvId, st: Store, r: Run)
    requires x.Pair? && Ends(prims, n, x.car, env, st, r) && !r.out.Value?
    ensures Computes(prims, n, x, env, st, r)
  {
    forall fuel: nat | fuel >= n
      ensures EvalObject(prims, fuel, x, env, st) == r
    {
      assert EvalForm(prims, fuel, x.car, env, st) == r;
    }
  }

  // Only special forms, primitives, macros and functions can be called.
  lemma NotCallableLaw(prims: Primitives, n: nat, x: Obj, env: EnvId, st: Store, f: Obj, st': Store)
    requires x.Pair? && Yields(prims, n, x.car, env, st, f, st')
    requires !f.Heap? || f.ref >= |st'.heap| || st'.heap[f.ref].EnvRef?
    ensures Computes(prims, n, x, env, st, Run(Fault(x), st'))
  {
    forall fuel: nat | fuel >= n
      ensures EvalObject(prims, fuel, x, env, st) == Run(Fault(x), st')
    {
      assert EvalForm(prims, fuel, x.car, env, st) == Run(Value(f), st');
      PairLaw(prims, fuel, x, env, st, f, st');
    }
  }

  /** A call of a function: its arguments are evaluated in the environment of the call, and its body
      inside the environment where the function was made, whatever environment calls it. */
  lemma FunctionCallLaw(prims: Primitives, n: nat, x: Obj, env: EnvId, st: Store, spec: Spec, e: EnvId, body: seq<Obj>,
                        st1: Store, all: Args, st2: Store, vars: map<string, Obj>, r: Run)
    requires Calls(prims, n, x, env, st, Function(spec, BuildList(body, Null), e), st1)
    requires CollectArgs(x.cdr, spec).Good? && ArgsYield(prims, n, CollectArgs(x.cdr, spec).value, env, st1, all, st2)
    requires Binds(vars, all, spec)
    requires RunsInside(prims, n, body, Env("lambda-call", Some(e), vars, NoneObj, false), st2, r)
    ensures Computes(prims, n, x, env, st, r)
  {
    forall fuel: nat | fuel >= n
      ensures EvalObject(prims, fuel, x, env, st) == r
    {
      var c := Function(spec, BuildList(body, Null), e);
      var f := HeadLaw(prims, n, fuel, x, env, st, c, st1);
      ArgumentsLaw(prims, n, fuel, CollectArgs(x.cdr, spec).value, env, st1, all, st2);
      InsideLaw(prims, n, fuel, body, Env("lambda-call", Some(e), vars, NoneObj, false), st2, r);
      FunctionBinds(prims, fuel, f.ref, x.cdr, env, st1, all, st2, vars);
      AppliedFunction(prims, fuel, f, x, env, st1, all, st2, vars, r);
    }
  }

  lemma FunctionBinds(prims: Primitives, fuel: nat, ref: nat, call: Obj, env: EnvId, st: Store, all: Args, st': Store, vars: map<string, Obj>)
    requires Valid(st) && env < |st.envs| && ref < |st.heap| && st.heap[ref].Function? && CollectArgs(call, st.heap[ref].spec).Good?
    requires EvalArgs(prims, fuel, CollectArgs(call, st.heap[ref].spec).value, env, st) == AllArgs(all, st')
    requires Binds(vars, all, st.heap[ref].spec)
    ensures BindArgs(map[], all, st.heap[ref].spec) == Good(vars)
  {
    FunctionCallBinds(prims, fuel, ref, call, env, st);
    BindsIsBinding(vars, all, st.heap[ref].spec);
  }

  lemma AppliedFunction(prims: Primitives, fuel: nat, f: Obj, x: Obj, env: EnvId, st: Store, all: Args, st': Store,
                        vars: map<string, Obj>, r: Run)
    requires Valid(st) && env < |st.envs| && x.Pair? && IsFunction(st, f)
    requires var fn := st.heap[f.ref];
             && CollectArgs(x.cdr, fn.spec).Good? && EvalArgs(prims, fuel, CollectArgs(x.cdr, fn.spec).value, env, st) == AllArgs(all, st')
             && BindArgs(map[], all, fn.spec) == Good(vars)
             && Valid(st') && fn.env < |st'.envs|
             && EvalInside(prims, fuel, fn.body, Env("lambda-call", Some(fn.env), vars, NoneObj, false), st') == r
    ensures Apply(prims, fuel, f, x, env, st) == r
  {
  }

  // A name that the inner environment does not have means what it means outside.
  lemma FreeVariableLaw(prims: Primitives, name: string, inner: EnvId, e: EnvId, st: Store)
    requires Valid(st) && inner < |st.envs| && st.envs[inner].parent == Some(e) && name !in st.envs[inner].vars
    ensures e < |st.envs| && forall fuel: nat :: EvalObject(prims, fuel, Sym(name), inner, st) == EvalObject(prims, fuel, Sym(name), e, st)
  {
    LookupAlong(st, [inner, e], name);
    assert [inner, e][|[inner, e]| - 1] == e;
  }

  /** So a function without parameters whose body is a name gives the value that name has where the
      function was made, whatever it means where the function is called. */
  lemma ClosureLaw(prims: Primitives, n: nat, x: Obj, env: EnvId, st: Store, e: EnvId, name: string, st1: Store)
    requires Calls(prims, n, x, env, st, Function(EMPTY_SPEC, Pair(Sym(name), Null), e), st1) && x.cdr.Null? && Valid(st1)
    requires !IsKeyword(Sym(name)) && name != "#t" && name != "#f" && e < |st1.envs| && name in st1.envs[e].vars
    ensures Computes(prims, n + 1, x, env, st, Run(Value(st1.envs[e].vars[name]), WithEnv(st1, Env("lambda-call", Some(e), map[], NoneObj, false))))
  {
    var inner := Env("lambda-call", Some(e), map[], NoneObj, false);
    var st2 := WithEnv(st1, inner);
    var o := st1.envs[e].vars[name];
    forall fuel: nat | fuel >= n + 1
      ensures EvalObject(prims, fuel, x, env, st) == Run(Value(o), st2)
    {
      var f := HeadLaw(prims, n, fuel, x, env, st, Function(EMPTY_SPEC, Pair(Sym(name), Null), e), st1);
      NoArguments(prims, fuel, env, st1);
      NameInside(prims, fuel, name, e, st1);
      assert BindArgs(map[], Args([], map[], NoneObj), EMPTY_SPEC) == Good(map[]);
      AppliedFunction(prims, fuel, f, x, env, st1, Args([], map[], NoneObj), st1, map[], Run(Value(o), st2));
    }
  }

  lemma NameInside(prims: Primitives, fuel: nat, name: string, e: EnvId, st: Store)
    requires Valid(st) && e < |st.envs| && name in st.envs[e].vars && fuel > 0
    requires !IsKeyword(Sym(name)) && name != "#t" && name != "#f"
    ensures var inner := Env("lambda-call", Some(e), map[], NoneObj, false);
            EvalInside(prims, fuel, Pair(Sym(name), Null), inner, st) == Run(Value(st.envs[e].vars[name]), WithEnv(st, inner))
  {
    var inner := Env("lambda-call", Some(e), map[], NoneObj, false);
    var st' := WithEnv(st, inner);
    var o := st.envs[e].vars[name];
    VariableLaw(prims, name, [|st.envs|, e], st');
    UncaughtLaw(prims, 0, Sym(name), |st.envs|, st', Run(Value(o), st'));
    assert EvalForm(prims, fuel, Sym(name), |st.envs|, st') == Run(Value(o), st');
  }

  lemma NoArguments(prims: Primitives, fuel: nat, env: EnvId, st: Store)
    requires Valid(st) && env < |st.envs|
    ensures CollectArgs(Null, EMPTY_SPEC) == Good(Args([], map[], NoneObj))
    ensures EvalArgs(prims, fuel, Args([], map[], NoneObj), env, st) == AllArgs(Args([], map[], NoneObj), st)
  {
    assert WithDefaults(EMPTY_SPEC, map[]) == map[];
    assert Alphabetical({}) == [];
  }

  /** A call of a macro: its body runs inside the environment of the call, with the arguments as they
      are written, and what it comes to is evaluated in the place of the call. */
  lemma MacroCallLaw(prims: Primitives, n: nat, x: Obj, env: EnvId, st: Store, spec: Spec, body: seq<Obj>, st1: Store,
                     vars: map<string, Obj>, expansion: Run, r: Run)
    requires Calls(prims, n, x, env, st, Macro(spec, BuildList(body, Null)), st1) && CollectArgs(x.cdr, spec).Good?
    requires Binds(vars, CollectArgs(x.cdr, spec).value, spec) && env < |st1.envs|
    requires RunsInside(prims, n, body, Env("", Some(env), vars, NoneObj, false), st1, expansion)
    requires if expansion.out.Value? then Ends(prims, n, expansion.out.o, env, expansion.st, r) else r == expansion
    ensures Computes(prims, n, x, env, st, r)
  {
    forall fuel: nat | fuel >= n
      ensures EvalObject(prims, fuel, x, env, st) == r
    {
      var f := HeadLaw(prims, n, fuel, x, env, st, Macro(spec, BuildList(body, Null)), st1);
      MacroCallBinds(f.ref, x.cdr, st1, map[]);
      BindsIsBinding(vars, CollectArgs(x.cdr, spec).value, spec);
      InsideLaw(prims, n, fuel, body, Env("", Some(env), vars, NoneObj, false), st1, expansion);
      if expansion.out.Value? {
        assert EvalForm(prims, fuel, expansion.out.o, env, expansion.st) == r;
      }
      AppliedMacro(prims, fuel, f, x, env, st1, vars, expansion, r);
    }
  }

  lemma AppliedMacro(prims: Primitives, fuel: nat, f: Obj, x: Obj, env: EnvId, st: Store, vars: map<string, Obj>, expansion: Run, r: Run)
    requires Valid(st) && env < |st.envs| && x.Pair? && CallableAt(st, f).Some? && CallableAt(st, f).value.Macro?
    requires var macro := CallableAt(st, f).value;
             && CollectArgs(x.cdr, macro.spec).Good? && BindArgs(map[], CollectArgs(x.cdr, macro.spec).value, macro.spec) == Good(vars)
             && EvalInside(prims, fuel, macro.body, Env("", Some(env), vars, NoneObj, false), st) == expansion
    requires if expansion.out.Value?
             then Valid(expansion.st) && env < |expansion.st.envs| && r == EvalForm(prims, fuel, expansion.out.o, env, expansion.st)
             else r == expansion
    ensures Apply(prims, fuel, f, x, env, st) == r
  {
  }

  // What a primitive comes to once its own calls of the evaluator gave these answers.
  ghost predicate Works(prims: Primitives, n: nat, id: nat, x: Obj, args: Args, env: EnvId, answers: seq<Obj>, st: Store, r: Run) {
    Valid(st) && env < |st.envs| && forall fuel: nat :: fuel >= n ==> Interact(prims, fuel, id, x, args, env, answers, st) == r
  }

  /** A call of a primitive: it gets its evaluated arguments, the call, the environment and the store. */
  lemma PrimitiveCallLaw(prims: Primitives, n: nat, x: Obj, env: EnvId, st: Store, spec: Spec, id: nat, st1: Store, all: Args, st2: Store,
                         r: Run)
    requires Calls(prims, n, x, env, st, Primitive(spec, id), st1)
    requires PrimitiveArgs(x.cdr, spec).Good? && ArgsYield(prims, n, PrimitiveArgs(x.cdr, spec).value, env, st1, all, st2)
    requires Works(prims, n, id, x, all, env, [], st2, r)
    ensures Computes(prims, n, x, env, st, r)
  {
    forall fuel: nat | fuel >= n
      ensures EvalObject(prims, fuel, x, env, st) == r
    {
      var f := HeadLaw(prims, n, fuel, x, env, st, Primitive(spec, id), st1);
      ArgumentsLaw(prims, n, fuel, PrimitiveArgs(x.cdr, spec).value, env, st1, all, st2);
      assert Interact(prims, fuel, id, x, all, env, [], st2) == r;
      AppliedPrimitive(prims, fuel, f, x, env, st1, all, st2, r);
    }
  }

  lemma AppliedPrimitive(prims: Primitives, fuel: nat, f: Obj, x: Obj, env: EnvId, st: Store, all: Args, st': Store, r: Run)
    requires Valid(st) && env < |st.envs| && x.Pair? && CallableAt(st, f).Some? && CallableAt(st, f).value.Primitive?
    requires Valid(st') && env < |st'.envs|
    requires var c := CallableAt(st, f).value;
             && PrimitiveArgs(x.cdr, c.spec).Good?
             && EvalArgs(prims, fuel, PrimitiveArgs(x.cdr, c.spec).value, env, st) == AllArgs(all, st')
             && Interact(prims, fuel, c.id, x, all, env, [], st') == r
    ensures Apply(prims, fuel, f, x, env, st) == r
  {
  }

  /** A primitive ends, or it makes a call of the evaluator and goes on with its value; what does not
      yield a value stands for the whole. */
  lemma PrimitiveLaw(prims: Primitives, n: nat, id: nat, x: Obj, args: Args, env: EnvId, answers: seq<Obj>, st: Store, answer: Run, r: Run)
    requires Valid(st) && env < |st.envs|
    requires match prims(id, x, args, env, answers, st)
             case Finish(end) => r == end
             case Evaluate(form, e, st') =>
               Ends(prims, n, form, e, st', answer)
               && if answer.out.Value? then Works(prims, n, id, x, args, env, answers + [answer.out.o], answer.st, r) else r == answer
             case EvaluateBody(forms, inner, st') =>
               (exists items :: forms == BuildList(items, Null) && RunsInside(prims, n, items, inner, st', answer))
               && if answer.out.Value? then Works(prims, n, id, x, args, env, answers + [answer.out.o], answer.st, r) else r == answer
    ensures Works(prims, n + 1, id, x, args, env, answers, st, r)
  {
    var action := prims(id, x, args, env, answers, st);
    assert Proper(action, st);
    forall fuel: nat | fuel >= n + 1
      ensures Interact(prims, fuel, id, x, args, env, answers, st) == r
    {
      match action
      case Finish(_) =>
      case Evaluate(form, e, st') =>
        assert EvalForm(prims, fuel, form, e, st') == answer;
        Resumed(prims, n, fuel, id, x, args, env, answers, answer, r);
      case EvaluateBody(forms, inner, st') =>
        var items :| forms == BuildList(items, Null) && RunsInside(prims, n, items, inner, st', answer);
        InsideLaw(prims, n, fuel, items, inner, st', answer);
        Resumed(prims, n, fuel, id, x, args, env, answers, answer, r);
    }
  }

  lemma Resumed(prims: Primitives, n: nat, fuel: nat, id: nat, x: Obj, args: Args, env: EnvId, answers: seq<Obj>, answer: Run, r: Run)
    requires Valid(answer.st) && env < |answer.st.envs| && fuel >= n + 1
    requires if answer.out.Value? then Works(prims, n, id, x, args, env, answers + [answer.out.o], answer.st, r) else r == answer
    ensures Resume(prims, fuel, id, x, args, env, answers, answer) == r
  {
    if answer.out.Value? {
      assert Interact(prims, fuel - 1, id, x, args, env, answers + [answer.out.o], answer.st) == r;
    }
  }
}
