/** The laws of the special forms: what each of them does with the parts of its call. */
module SpecialFormLaws {
  import opened Options
  import opened Objects
  import opened Arguments
  import opened Evaluation
  import opened EvaluationLaws

  // A call of a special form is what that form makes of it.
  lemma FormLaw(prims: Primitives, n: nat, fuel: nat, x: Obj, env: EnvId, st: Store, which: Special, st': Store)
    requires Calls(prims, n, x, env, st, SpecialForm(which), st') && fuel >= n
    ensures Valid(st) && env < |st.envs| && Valid(st') && env < |st'.envs|
    ensures EvalObject(prims, fuel, x, env, st) == EvalSpecial(prims, fuel, which, x, env, st')
  {
    var f := HeadLaw(prims, n, fuel, x, env, st, SpecialForm(which), st');
  }

  // quote gives its argument as it is written.
  lemma QuoteLaw(prims: Primitives, n: nat, x: Obj, env: EnvId, st: Store, o: Obj, st': Store)
    requires Calls(prims, n, x, env, st, SpecialForm(Quote), st') && x.cdr == Pair(o, Null)
    ensures Computes(prims, n, x, env, st, Run(Value(o), st'))
  {
    forall fuel: nat | fuel >= n
      ensures EvalObject(prims, fuel, x, env, st) == Run(Value(o), st')
    {
      FormLaw(prims, n, fuel, x, env, st, Quote, st');
      assert IsProper(Null) && IsProper(x.cdr);
    }
  }

  // ---- cond ----

  // The tests of these clauses yield #f one after the other.
  ghost predicate TestsFail(prims: Primitives, n: nat, clauses: seq<Obj>, env: EnvId, stores: seq<Store>) {
    && |stores| == |clauses| + 1 && Valid(stores[0]) && env < |stores[0].envs|
    && forall i :: 0 <= i < |clauses| ==>
      clauses[i].Pair? && Yields(prims, n, clauses[i].car, env, stores[i], Sym("#f"), stores[i + 1])
  }

  lemma {:induction false} SkipsFailing(prims: Primitives, n: nat, fuel: nat, clauses: seq<Obj>, tail: Obj, x: Obj, env: EnvId,
                                        stores: seq<Store>)
    requires TestsFail(prims, n, clauses, env, stores) && fuel >= n
    ensures Valid(stores[|clauses|]) && env < |stores[|clauses|].envs|
    ensures EvalCond(prims, fuel, BuildList(clauses, tail), x, env, stores[0]) == EvalCond(prims, fuel, tail, x, env, stores[|clauses|])
    decreases |clauses|
  {
    if clauses != [] {
      assert Yields(prims, n, clauses[0].car, env, stores[0], Sym("#f"), stores[1]);
      EndsKeeps(prims, n, clauses[0].car, env, stores[0], Run(Value(Sym("#f")), stores[1]));
      LaterTestsFail(prims, n, clauses, env, stores);
      SkipsFailing(prims, n, fuel, clauses[1..], tail, x, env, stores[1..]);
      SkipsOne(prims, fuel, BuildList(clauses, tail), x, env, stores[0], stores[1]);
    }
  }

  lemma LaterTestsFail(prims: Primitives, n: nat, clauses: seq<Obj>, env: EnvId, stores: seq<Store>)
    requires TestsFail(prims, n, clauses, env, stores) && clauses != [] && Valid(stores[1]) && env < |stores[1].envs|
    ensures TestsFail(prims, n, clauses[1..], env, stores[1..])
  {
    forall i | 0 <= i < |clauses[1..]|
      ensures clauses[1..][i].Pair? && Yields(prims, n, clauses[1..][i].car, env, stores[1..][i], Sym("#f"), stores[1..][i + 1])
    {
      assert Yields(prims, n, clauses[i + 1].car, env, stores[i + 1], Sym("#f"), stores[i + 2]);
    }
  }

  lemma SkipsOne(prims: Primitives, fuel: nat, clauses: Obj, x: Obj, env: EnvId, st: Store, st': Store)
    requires Valid(st) && env < |st.envs| && clauses.Pair? && clauses.car.Pair?
    requires EvalForm(prims, fuel, clauses.car.car, env, st) == Run(Value(Sym("#f")), st')
    ensures Valid(st') && env < |st'.envs|
    ensures EvalCond(prims, fuel, clauses, x, env, st) == EvalCond(prims, fuel, clauses.cdr, x, env, st')
  {
  }

  // What a clause comes to whose test ends this way and is not #f.
  ghost predicate ClauseComesTo(prims: Primitives, n: nat, clause: Obj, env: EnvId, test: Run, r: Run) {
    && clause.Pair? && test.out != Value(Sym("#f"))
    && if !test.out.Value? || clause.cdr.Null? then r == test
       else exists body: seq<Obj> :: clause.cdr == BuildList(body, Null) && Runs(prims, n, body, env, test.st, r)
  }

  lemma ClauseLaw(prims: Primitives, n: nat, fuel: nat, clauses: Obj, x: Obj, env: EnvId, st: Store, test: Run, r: Run)
    requires clauses.Pair? && ClauseComesTo(prims, n, clauses.car, env, test, r) && fuel >= n
    requires Ends(prims, n, clauses.car.car, env, st, test)
    ensures EvalCond(prims, fuel, clauses, x, env, st) == r
  {
    assert EvalForm(prims, fuel, clauses.car.car, env, st) == test;
    if test.out.Value? && !clauses.car.cdr.Null? {
      var body: seq<Obj> :| clauses.car.cdr == BuildList(body, Null) && Runs(prims, n, body, env, test.st, r);
      BodyLaw(prims, n, fuel, body, env, test.st, r);
    }
  }

  /** cond takes the first clause whose test is not #f: its value is that of the last form of the
      clause, or that of the test if there is none. */
  lemma CondLaw(prims: Primitives, n: nat, x: Obj, env: EnvId, st: Store, clauses: seq<Obj>, clause: Obj, tail: Obj,
                stores: seq<Store>, test: Run, r: Run)
    requires TestsFail(prims, n, clauses, env, stores) && Calls(prims, n, x, env, st, SpecialForm(Cond), stores[0])
    requires x.cdr == BuildList(clauses, Pair(clause, tail))
    requires ClauseComesTo(prims, n, clause, env, test, r) && Ends(prims, n, clause.car, env, stores[|clauses|], test)
    ensures Computes(prims, n, x, env, st, r)
  {
    forall fuel: nat | fuel >= n
      ensures EvalObject(prims, fuel, x, env, st) == r
    {
      SkipsFailing(prims, n, fuel, clauses, Pair(clause, tail), x, env, stores);
      ClauseLaw(prims, n, fuel, Pair(clause, tail), x, env, stores[|clauses|], test, r);
      BuiltPair(clauses, Pair(clause, tail));
      CondForm(prims, n, fuel, x, env, st, stores[0]);
    }
  }

  lemma CondForm(prims: Primitives, n: nat, fuel: nat, x: Obj, env: EnvId, st: Store, st': Store)
    requires Calls(prims, n, x, env, st, SpecialForm(Cond), st') && fuel >= n && x.cdr.Pair?
    ensures Valid(st) && env < |st.envs| && Valid(st') && env < |st'.envs|
    ensures EvalObject(prims, fuel, x, env, st) == EvalCond(prims, fuel, x.cdr, x, env, st')
  {
    FormLaw(prims, n, fuel, x, env, st, Cond, st');
  }

  lemma BuiltPair(items: seq<Obj>, tail: Obj)
    requires items != [] || tail.Pair?
    ensures BuildList(items, tail).Pair?
  {
  }

  // If there is none, the value is #f.
  lemma NoClauseLaw(prims: Primitives, n: nat, x: Obj, env: EnvId, st: Store, clauses: seq<Obj>, stores: seq<Store>)
    requires TestsFail(prims, n, clauses, env, stores) && Calls(prims, n, x, env, st, SpecialForm(Cond), stores[0])
    requires clauses != [] && x.cdr == BuildList(clauses, Null)
    ensures Computes(prims, n, x, env, st, Run(Value(Sym("#f")), stores[|clauses|]))
  {
    forall fuel: nat | fuel >= n
      ensures EvalObject(prims, fuel, x, env, st) == Run(Value(Sym("#f")), stores[|clauses|])
    {
      SkipsFailing(prims, n, fuel, clauses, Null, x, env, stores);
      BuiltPair(clauses, Null);
      CondForm(prims, n, fuel, x, env, st, stores[0]);
    }
  }

  // ---- while ----

  // One round: the test yields a value other than #f, and the body comes to o.
  ghost predicate Round(prims: Primitives, n: nat, test: Obj, body: seq<Obj>, env: EnvId, st: Store, o: Obj, st': Store) {
    exists t: Run :: Ends(prims, n, test, env, st, t) && t.out.Value? && t.out.o != Sym("#f")
      && Runs(prims, n, body, env, t.st, Run(Value(o), st'))
  }

  // The last round: the test yields #f, and the loop has the value of the round before; or something
  // does not yield a value.
  ghost predicate LastRound(prims: Primitives, n: nat, test: Obj, body: seq<Obj>, env: EnvId, st: Store, before: Obj, r: Run) {
    exists t: Run :: Ends(prims, n, test, env, st, t)
      && if !t.out.Value? then r == t
         else if t.out.o == Sym("#f") then r == Run(Value(before), t.st)
         else !r.out.Value? && Runs(prims, n, body, env, t.st, r)
  }

  lemma {:induction false} LoopBodyLaw(prims: Primitives, n: nat, fuel: nat, body: seq<Obj>, tail: Obj, result: Obj, env: EnvId, st: Store,
                                       r: Run)
    requires Runs(prims, n, body, env, st, r) && fuel >= n && !tail.Pair?
    ensures Valid(st) && env < |st.envs| && EvalLoopBody(prims, fuel, BuildList(body, tail), result, env, st) == r
    decreases |body|
  {
    var first: Run :| Ends(prims, n, body[0], env, st, first)
      && (if first.out.Value? && |body| > 1 then Runs(prims, n, body[1..], env, first.st, r) else r == first);
    assert EvalForm(prims, fuel, body[0], env, st) == first;
    if first.out.Value? {
      EndsKeeps(prims, n, body[0], env, st, first);
      if |body| > 1 {
        LoopBodyLaw(prims, n, fuel, body[1..], tail, first.out.o, env, first.st, r);
      } else {
        assert BuildList(body, tail).cdr == tail;
        assert EvalLoopBody(prims, fuel, tail, first.out.o, env, first.st) == first;
      }
    }
  }

  // A loop whose value so far is result.
  ghost function LoopFrom(prims: Primitives, fuel: nat, test: Obj, body: Obj, result: Obj, env: EnvId, st: Store): Run
    requires Valid(st) && env < |st.envs|
  {
    EvalWhile(prims, fuel, test, body, result, env, st)
  }

  lemma RoundLaw(prims: Primitives, n: nat, fuel: nat, less: nat, test: Obj, body: seq<Obj>, tail: Obj, result: Obj, env: EnvId, st: Store, o: Obj,
                 st': Store)
    requires Round(prims, n, test, body, env, st, o, st') && !tail.Pair? && fuel > n && less == fuel - 1
    ensures Valid(st) && env < |st.envs| && Valid(st') && env < |st'.envs|
    ensures LoopFrom(prims, fuel, test, BuildList(body, tail), result, env, st)
         == LoopFrom(prims, less, test, BuildList(body, tail), o, env, st')
  {
    var t: Run :| Ends(prims, n, test, env, st, t) && t.out.Value? && t.out.o != Sym("#f")
      && Runs(prims, n, body, env, t.st, Run(Value(o), st'));
    var list := BuildList(body, tail);
    EndsKeeps(prims, n, test, env, st, t);
    LoopBodyLaw(prims, n, fuel, body, tail, result, env, t.st, Run(Value(o), st'));
    assert EvalForm(prims, fuel, test, env, st) == t;
    TrueRound(prims, fuel, less, test, list, result, env, st, t, Run(Value(o), st'));
  }

  lemma TrueRound(prims: Primitives, fuel: nat, less: nat, test: Obj, body: Obj, result: Obj, env: EnvId, st: Store, t: Run, round: Run)
    requires Valid(st) && env < |st.envs| && t == EvalForm(prims, fuel, test, env, st) && t.out.Value? && IsTrue(t.out.o)
    requires round == EvalLoopBody(prims, fuel, body, result, env, t.st) && fuel > 0 && less == fuel - 1
    ensures Valid(round.st) && env < |round.st.envs|
    ensures LoopFrom(prims, fuel, test, body, result, env, st)
         == if round.out.Value? then LoopFrom(prims, less, test, body, round.out.o, env, round.st) else round
  {
    assert EvalWhile(prims, fuel, test, body, result, env, st) == EvalRound(prims, fuel, test, body, result, t, env);
    assert EvalRound(prims, fuel, test, body, result, t, env) == EvalAgain(prims, fuel, test, body, round, env);
  }

  lemma FalseRound(prims: Primitives, fuel: nat, test: Obj, body: Obj, result: Obj, env: EnvId, st: Store, t: Run)
    requires Valid(st) && env < |st.envs| && t == EvalForm(prims, fuel, test, env, st) && !(t.out.Value? && IsTrue(t.out.o))
    ensures LoopFrom(prims, fuel, test, body, result, env, st) == if t.out.Value? then Run(Value(result), t.st) else t
  {
    assert EvalWhile(prims, fuel, test, body, result, env, st) == EvalRound(prims, fuel, test, body, result, t, env);
  }

  lemma LastRoundLaw(prims: Primitives, n: nat, fuel: nat, test: Obj, body: seq<Obj>, tail: Obj, result: Obj, env: EnvId, st: Store, r: Run)
    requires LastRound(prims, n, test, body, env, st, result, r) && !tail.Pair? && fuel > n
    ensures Valid(st) && env < |st.envs| && LoopFrom(prims, fuel, test, BuildList(body, tail), result, env, st) == r
  {
    var t: Run :| Ends(prims, n, test, env, st, t)
      && if !t.out.Value? then r == t
         else if t.out.o == Sym("#f") then r == Run(Value(result), t.st)
         else !r.out.Value? && Runs(prims, n, body, env, t.st, r);
    assert EvalForm(prims, fuel, test, env, st) == t;
    if t.out.Value? && t.out.o != Sym("#f") {
      LoopBodyLaw(prims, n, fuel, body, tail, result, env, t.st, r);
      TrueRound(prims, fuel, fuel - 1, test, BuildList(body, tail), result, env, st, t, r);
    } else {
      FalseRound(prims, fuel, test, BuildList(body, tail), result, env, st, t);
    }
  }

  // Rounds with these values and the last one, from a loop whose value so far is before, come to r.
  ghost predicate Loops(prims: Primitives, n: nat, test: Obj, body: seq<Obj>, env: EnvId, st: Store, before: Obj, values: seq<Obj>, r: Run)
    decreases |values|
  {
    if values == [] then LastRound(prims, n, test, body, env, st, before, r)
    else exists st': Store ::
      Round(prims, n, test, body, env, st, values[0], st') && Loops(prims, n, test, body, env, st', values[0], values[1..], r)
  }

  lemma FirstRound(prims: Primitives, n: nat, test: Obj, body: seq<Obj>, before: Obj, env: EnvId, st: Store, values: seq<Obj>, r: Run)
    returns (st': Store)
    requires values != [] && Loops(prims, n, test, body, env, st, before, values, r)
    ensures Round(prims, n, test, body, env, st, values[0], st') && Loops(prims, n, test, body, env, st', values[0], values[1..], r)
  {
    st' :| Round(prims, n, test, body, env, st, values[0], st') && Loops(prims, n, test, body, env, st', values[0], values[1..], r);
  }

  lemma {:induction false} LoopLaw(prims: Primitives, n: nat, fuel: nat, test: Obj, body: seq<Obj>, tail: Obj, before: Obj, env: EnvId,
                                   st: Store, values: seq<Obj>, r: Run)
    requires Loops(prims, n, test, body, env, st, before, values, r) && fuel > n + |values| && !tail.Pair?
    ensures Valid(st) && env < |st.envs| && LoopFrom(prims, fuel, test, BuildList(body, tail), before, env, st) == r
    decreases |values|
  {
    if values == [] {
      LastRoundLaw(prims, n, fuel, test, body, tail, before, env, st, r);
    } else {
      var less: nat := fuel - 1;
      var st' := FirstRound(prims, n, test, body, before, env, st, values, r);
      RoundLaw(prims, n, fuel, less, test, body, tail, before, env, st, values[0], st');
      LoopLaw(prims, n, less, test, body, tail, values[0], env, st', values[1..], r);
    }
  }

  /** while goes on as long as its test does not yield #f; its value is that of the last form of the
      last round, or the empty list if there was none. */
  lemma WhileLaw(prims: Primitives, n: nat, x: Obj, env: EnvId, st: Store, test: Obj, body: seq<Obj>, tail: Obj, st': Store,
                 values: seq<Obj>, r: Run)
    requires Calls(prims, n, x, env, st, SpecialForm(While), st') && x.cdr == Pair(test, BuildList(body, tail)) && body != []
    requires !tail.Pair? && Loops(prims, n, test, body, env, st', Null, values, r)
    ensures Computes(prims, n + |values| + 1, x, env, st, r)
  {
    forall fuel: nat | fuel >= n + |values| + 1
      ensures EvalObject(prims, fuel, x, env, st) == r
    {
      LoopLaw(prims, n, fuel, test, body, tail, Null, env, st', values, r);
      WhileForm(prims, n, fuel, x, env, st, test, BuildList(body, tail), st');
    }
  }

  lemma WhileForm(prims: Primitives, n: nat, fuel: nat, x: Obj, env: EnvId, st: Store, test: Obj, body: Obj, st': Store)
    requires Calls(prims, n, x, env, st, SpecialForm(While), st') && fuel >= n && x.cdr == Pair(test, body) && body.Pair?
    ensures Valid(st) && env < |st.envs| && Valid(st') && env < |st'.envs|
    ensures EvalObject(prims, fuel, x, env, st) == LoopFrom(prims, fuel, test, body, Null, env, st')
  {
    FormLaw(prims, n, fuel, x, env, st, While, st');
  }

  // ---- variables ----

  ghost function SetIn(st: Store, env: EnvId, name: string, o: Obj): Store
    requires env < |st.envs|
  {
    st.(envs := st.envs[env := st.envs[env].(vars := st.envs[env].vars[name := o])])
  }

  lemma TwoArguments(a: Obj, b: Obj)
    ensures PrimitiveArgs(Pair(a, Pair(b, Null)), VARARGS) == Good(Args([a, b], map[], NoneObj))
    ensures !IsKeyword(a) && !IsKeyword(b) ==> PrimitiveArgs(Pair(a, Pair(b, Null)), VARARGS_AND_KEYS) == Good(Args([a, b], map[], NoneObj))
  {
    assert [] + [a] == [a] && [a] + [b] == [a, b];
    assert WithDefaults(VARARGS, map[]) == map[] && WithDefaults(VARARGS_AND_KEYS, map[]) == map[];
    assert TakeMixed(Null, VARARGS, [a, b], map[]) == Good(Args([a, b], map[], NoneObj));
    assert TakeMixed(Pair(b, Null), VARARGS, [a], map[]) == Good(Args([a, b], map[], NoneObj));
    if !IsKeyword(a) && !IsKeyword(b) {
      assert TakeMixed(Null, VARARGS_AND_KEYS, [a, b], map[]) == Good(Args([a, b], map[], NoneObj));
      assert TakeMixed(Pair(b, Null), VARARGS_AND_KEYS, [a], map[]) == Good(Args([a, b], map[], NoneObj));
    }
  }

  /** define sets the variable in the environment of the call; a constant cannot be defined. */
  lemma DefineLaw(prims: Primitives, n: nat, x: Obj, env: EnvId, st: Store, name: string, form: Obj, st1: Store, value: Run, r: Run)
    requires Calls(prims, n, x, env, st, SpecialForm(Define), st1) && x.cdr == Pair(Sym(name), Pair(form, Null))
    requires !IsKeyword(Sym(name)) && !IsKeyword(form)
    requires if name in st1.constants then r == Run(Fault(Sym(name)), st1)
             else Ends(prims, n, form, env, st1, value) && env < |value.st.envs|
                  && r == if value.out.Value? then Run(value.out, SetIn(value.st, env, name, value.out.o)) else value
    ensures Computes(prims, n, x, env, st, r)
  {
    forall fuel: nat | fuel >= n
      ensures EvalObject(prims, fuel, x, env, st) == r
    {
      FormLaw(prims, n, fuel, x, env, st, Define, st1);
      TwoArguments(Sym(name), form);
      DefinedAt(prims, fuel, x, env, st1, name, form);
      if name !in st1.constants {
        assert EvalForm(prims, fuel, form, env, st1) == value;
      }
    }
  }

  lemma DefinedAt(prims: Primitives, fuel: nat, x: Obj, env: EnvId, st: Store, name: string, form: Obj)
    requires Valid(st) && env < |st.envs| && x.Pair?
    requires PrimitiveArgs(x.cdr, VARARGS_AND_KEYS) == Good(Args([Sym(name), form], map[], NoneObj))
    ensures EvalSpecial(prims, fuel, Define, x, env, st)
         == if name in st.constants then Run(Fault(Sym(name)), st) else DefineIn(prims, fuel, name, form, env, env, st)
  {
  }

  lemma EnvArgument(a: Obj, b: Obj, e: Obj)
    requires !IsKeyword(a) && !IsKeyword(b)
    ensures PrimitiveArgs(Pair(a, Pair(b, Pair(Sym(":env"), Pair(e, Null)))), VARARGS_AND_KEYS)
         == Good(Args([a, b], map["env" := e], NoneObj))
  {
    assert [] + [a] == [a] && [a] + [b] == [a, b] && ":env"[1..] == "env";
    assert WithDefaults(VARARGS_AND_KEYS, map["env" := e]) == map["env" := e];
    assert TakeMixed(Null, VARARGS_AND_KEYS, [a, b], map["env" := e]) == Good(Args([a, b], map["env" := e], NoneObj));
    assert TakeMixed(Pair(Sym(":env"), Pair(e, Null)), VARARGS_AND_KEYS, [a, b], map[]) == Good(Args([a, b], map["env" := e], NoneObj));
    assert TakeMixed(Pair(b, Pair(Sym(":env"), Pair(e, Null))), VARARGS_AND_KEYS, [a], map[]) == Good(Args([a, b], map["env" := e], NoneObj));
  }

  /** define with :env evaluates the environment first, then the value, in the environment of the call,
      and sets the variable in the environment given. */
  lemma DefineInLaw(prims: Primitives, n: nat, x: Obj, env: EnvId, st: Store, name: string, form: Obj, e: Obj, st1: Store,
                    ref: nat, st2: Store, o: Obj, st3: Store)
    requires Calls(prims, n, x, env, st, SpecialForm(Define), st1)
    requires x.cdr == Pair(Sym(name), Pair(form, Pair(Sym(":env"), Pair(e, Null)))) && !IsKeyword(Sym(name)) && !IsKeyword(form)
    requires name !in st1.constants && Yields(prims, n, e, env, st1, Heap(ref), st2)
    requires ref < |st2.heap| && st2.heap[ref].EnvRef? && Yields(prims, n, form, env, st2, o, st3) && st2.heap[ref].env < |st3.envs|
    ensures Computes(prims, n, x, env, st, Run(Value(o), SetIn(st3, st2.heap[ref].env, name, o)))
  {
    var target := st2.heap[ref].env;
    forall fuel: nat | fuel >= n
      ensures EvalObject(prims, fuel, x, env, st) == Run(Value(o), SetIn(st3, target, name, o))
    {
      FormLaw(prims, n, fuel, x, env, st, Define, st1);
      EnvArgument(Sym(name), form, e);
      assert EvalForm(prims, fuel, e, env, st1) == Run(Value(Heap(ref)), st2);
      assert EvalForm(prims, fuel, form, env, st2) == Run(Value(o), st3);
      DefinedThere(prims, fuel, x, env, st1, name, form, e, ref, st2);
    }
  }

  lemma DefinedThere(prims: Primitives, fuel: nat, x: Obj, env: EnvId, st: Store, name: string, form: Obj, e: Obj, ref: nat, st': Store)
    requires Valid(st) && env < |st.envs| && x.Pair? && name !in st.constants
    requires PrimitiveArgs(x.cdr, VARARGS_AND_KEYS) == Good(Args([Sym(name), form], map["env" := e], NoneObj))
    requires EvalForm(prims, fuel, e, env, st) == Run(Value(Heap(ref)), st') && ref < |st'.heap| && st'.heap[ref].EnvRef?
    ensures Valid(st') && env < |st'.envs| && st'.heap[ref].env < |st'.envs| && name !in st'.constants
    ensures EvalSpecial(prims, fuel, Define, x, env, st) == DefineIn(prims, fuel, name, form, st'.heap[ref].env, env, st')
  {
  }

  // What set! does once its value is there: along the environments outwards, a constant stops it at a
  // global environment, and else the first that has the name is changed.
  ghost predicate SetsAlong(st: Store, path: seq<EnvId>, name: string, o: Obj, r: Run) {
    && IsChain(st, path) && path[|path| - 1] < |st.envs|
    && (forall i :: 0 <= i < |path| - 1 ==> name !in st.envs[path[i]].vars && !(st.envs[path[i]].global && name in st.constants))
    && var last := st.envs[path[|path| - 1]];
    if last.global && name in st.constants then r == Run(Fault(Sym(name)), st)
    else if name in last.vars then r == Run(Value(o), SetIn(st, path[|path| - 1], name, o))
    else last.parent.None? && r == Run(Fault(Sym(name)), st)
  }

  lemma {:induction false} EnvToSetAlong(st: Store, path: seq<EnvId>, name: string)
    requires Valid(st) && IsChain(st, path) && path[|path| - 1] < |st.envs|
    requires forall i :: 0 <= i < |path| - 1 ==> name !in st.envs[path[i]].vars && !(st.envs[path[i]].global && name in st.constants)
    ensures EnvToSet(st, path[0], name) == EnvToSet(st, path[|path| - 1], name)
    decreases |path|
  {
    if |path| > 1 {
      assert st.envs[path[0]].parent == Some(path[1]);
      EnvToSetAlong(st, path[1..], name);
    }
  }

  /** set! changes the variable in the nearest environment that has it. */
  lemma SetLaw(prims: Primitives, n: nat, x: Obj, env: EnvId, st: Store, name: string, form: Obj, st1: Store, value: Run,
               path: seq<EnvId>, r: Run)
    requires Calls(prims, n, x, env, st, SpecialForm(SetBang), st1) && x.cdr == Pair(Sym(name), Pair(form, Null))
    requires Ends(prims, n, form, env, st1, value)
    requires if value.out.Value? then path != [] && path[0] == env && SetsAlong(value.st, path, name, value.out.o, r) else r == value
    ensures Computes(prims, n, x, env, st, r)
  {
    if value.out.Value? {
      EndsKeeps(prims, n, form, env, st1, value);
      EnvToSetAlong(value.st, path, name);
    }
    forall fuel: nat | fuel >= n
      ensures EvalObject(prims, fuel, x, env, st) == r
    {
      FormLaw(prims, n, fuel, x, env, st, SetBang, st1);
      TwoArguments(Sym(name), form);
      assert EvalForm(prims, fuel, form, env, st1) == value;
      SetAt(prims, fuel, x, env, st1, name, form, value);
    }
  }

  lemma SetAt(prims: Primitives, fuel: nat, x: Obj, env: EnvId, st: Store, name: string, form: Obj, value: Run)
    requires Valid(st) && env < |st.envs| && x.Pair? && value == EvalForm(prims, fuel, form, env, st)
    requires PrimitiveArgs(x.cdr, VARARGS) == Good(Args([Sym(name), form], map[], NoneObj))
    ensures EvalSpecial(prims, fuel, SetBang, x, env, st)
         == if !value.out.Value? then value
            else if EnvToSet(value.st, env, name).None? then Run(Fault(Sym(name)), value.st)
            else Run(value.out, SetIn(value.st, EnvToSet(value.st, env, name).value, name, value.out.o))
  {
  }

  // ---- functions and macros ----

  /** lambda makes a new function of its parameters and its body that closes over the environment of
      the call, and changes nothing else. */
  lemma LambdaLaw(prims: Primitives, n: nat, x: Obj, env: EnvId, st: Store, p: Params, body: Obj, st': Store)
    requires Calls(prims, n, x, env, st, SpecialForm(Lambda), st') && x.cdr == Pair(WriteParams(p), body)
    requires ProperParams(p) && !body.Null?
    ensures Computes(prims, n, x, env, st, Run(Value(Heap(|st'.heap|)), st'.(heap := st'.heap + [Function(SpecOf(p), body, env)])))
  {
    forall fuel: nat | fuel >= n
      ensures EvalObject(prims, fuel, x, env, st)
           == Run(Value(Heap(|st'.heap|)), st'.(heap := st'.heap + [Function(SpecOf(p), body, env)]))
    {
      FormLaw(prims, n, fuel, x, env, st, Lambda, st');
      MadeFunction(x.car, p, body, env, st');
    }
  }

  lemma MacroLaw(prims: Primitives, n: nat, x: Obj, env: EnvId, st: Store, p: Params, body: Obj, st': Store)
    requires Calls(prims, n, x, env, st, SpecialForm(MacroForm), st') && x.cdr == Pair(WriteParams(p), body)
    requires ProperParams(p) && body.Pair?
    ensures Computes(prims, n, x, env, st, Run(Value(Heap(|st'.heap|)), st'.(heap := st'.heap + [Macro(SpecOf(p), body)])))
  {
    forall fuel: nat | fuel >= n
      ensures EvalObject(prims, fuel, x, env, st)
           == Run(Value(Heap(|st'.heap|)), st'.(heap := st'.heap + [Macro(SpecOf(p), body)]))
    {
      FormLaw(prims, n, fuel, x, env, st, MacroForm, st');
      MadeMacro(x.car, p, body, st');
    }
  }

  // ---- let ----

  // One binding: the form is evaluated in the environment of the let, for let*, or in the one
  // around it, and its value is set in the environment of the let.
  ghost predicate BindingStep(prims: Primitives, n: nat, star: bool, inner: EnvId, env: EnvId, name: string, form: Obj, st: Store, st': Store) {
    exists value: Run :: Computes(prims, n, form, if star then inner else env, st, value) && value.out.Value?
      && inner < |value.st.envs| && st' == SetIn(value.st, inner, name, value.out.o)
  }

  // All bindings one after the other, or up to the first that does not yield a value.
  ghost predicate BindingsCome(prims: Primitives, n: nat, star: bool, inner: EnvId, env: EnvId, names: seq<string>, forms: seq<Obj>,
                               st: Store, r: Run)
    requires |names| == |forms|
  {
    if names == [] then Valid(st) && env < |st.envs| && r == Run(Value(Null), st)
    else
      || (exists st': Store ::
           BindingStep(prims, n, star, inner, env, names[0], forms[0], st, st')
           && BindingsCome(prims, n, star, inner, env, names[1..], forms[1..], st', r))
      || (!r.out.Value? && Valid(st) && env < |st.envs| && Computes(prims, n, forms[0], if star then inner else env, st, r))
  }

  function BindingList(names: seq<string>, forms: seq<Obj>): Obj
    requires |names| == |forms|
  {
    if names == [] then Null
    else Pair(Pair(Sym(names[0]), Pair(forms[0], Null)), BindingList(names[1..], forms[1..]))
  }

  lemma {:induction false} BindingsLaw(prims: Primitives, n: nat, fuel: nat, names: seq<string>, forms: seq<Obj>, x: Obj, star: bool,
                                       inner: EnvId, env: EnvId, st: Store, r: Run)
    requires |names| == |forms| && BindingsCome(prims, n, star, inner, env, names, forms, st, r) && fuel > n
    requires Valid(st) && env < |st.envs| && inner < |st.envs| && !st.envs[inner].global
    ensures EvalBindings(prims, fuel, BindingList(names, forms), x, star, inner, env, st) == r
    decreases |names|
  {
    if names != [] {
      var at := if star then inner else env;
      if st': Store :| (BindingStep(prims, n, star, inner, env, names[0], forms[0], st, st')
                        && BindingsCome(prims, n, star, inner, env, names[1..], forms[1..], st', r)) {
        OneBinding(prims, n, fuel, BindingList(names, forms), x, star, inner, env, st, st');
        BindingsLaw(prims, n, fuel, names[1..], forms[1..], x, star, inner, env, st', r);
      } else {
        assert EvalObject(prims, fuel - 1, forms[0], at, st) == r;
        assert EvalBare(prims, fuel, forms[0], at, st) == r;
      }
    }
  }

  lemma OneBinding(prims: Primitives, n: nat, fuel: nat, bindings: Obj, x: Obj, star: bool, inner: EnvId, env: EnvId, st: Store, st': Store)
    requires bindings.Pair? && IsBinding(bindings.car) && fuel > n
    requires Valid(st) && env < |st.envs| && inner < |st.envs| && !st.envs[inner].global
    requires BindingStep(prims, n, star, inner, env, bindings.car.car.name, bindings.car.cdr.car, st, st')
    ensures Valid(st') && env < |st'.envs| && inner < |st'.envs| && !st'.envs[inner].global
    ensures EvalBindings(prims, fuel, bindings, x, star, inner, env, st) == EvalBindings(prims, fuel, bindings.cdr, x, star, inner, env, st')
  {
    var at := if star then inner else env;
    var value: Run :| Computes(prims, n, bindings.car.cdr.car, at, st, value) && value.out.Value?
      && inner < |value.st.envs| && st' == SetIn(value.st, inner, bindings.car.car.name, value.out.o);
    assert EvalObject(prims, fuel - 1, bindings.car.cdr.car, at, st) == value;
    assert EvalBare(prims, fuel, bindings.car.cdr.car, at, st) == value;
    assert SameEnv(st.envs[inner], value.st.envs[inner], st.constants.Keys);
  }

  // How a let is written: with a name, which may be quoted, or without.
  ghost predicate WritesLet(rest: Obj, name: string, bindings: Obj, body: Obj) {
    || (name == "" && rest == Pair(bindings, body))
    || rest == Pair(Sym(name), Pair(bindings, body)) || rest == Pair(Str(name), Pair(bindings, body))
    || rest == Pair(Pair(Sym("quote"), Pair(Sym(name), Null)), Pair(bindings, body))
  }

  lemma LetParsed(x: Obj, name: string, names: seq<string>, forms: seq<Obj>, body: Obj)
    requires x.Pair? && |names| == |forms| && WritesLet(x.cdr, name, BindingList(names, forms), body)
    ensures PartsOfLet(x) == Some(LetParts(name, BindingList(names, forms), body))
  {
  }

  /** let and let* bind their variables in a new environment inside that of the call, let* seeing the
      earlier ones, and evaluate their body there. */
  lemma LetLaw(prims: Primitives, n: nat, x: Obj, star: bool, env: EnvId, st: Store, name: string, names: seq<string>, forms: seq<Obj>,
               body: seq<Obj>, st1: Store, bound: Run, r: Run)
    requires Calls(prims, n, x, env, st, SpecialForm(if star then LetStar else Let), st1) && |names| == |forms|
    requires WritesLet(x.cdr, name, BindingList(names, forms), BuildList(body, Null))
    requires BindingsCome(prims, n, star, |st1.envs|, env, names, forms, WithEnv(st1, Env(name, Some(env), map[], NoneObj, false)), bound)
    requires if bound.out.Value? then Runs(prims, n, body, |st1.envs|, bound.st, r) else r == bound
    ensures Computes(prims, n + 1, x, env, st, r)
  {
    forall fuel: nat | fuel >= n + 1
      ensures EvalObject(prims, fuel, x, env, st) == r
    {
      FormLaw(prims, n, fuel, x, env, st, if star then LetStar else Let, st1);
      LetParsed(x, name, names, forms, BuildList(body, Null));
      BindingsLaw(prims, n, fuel, names, forms, x, star, |st1.envs|, env, WithEnv(st1, Env(name, Some(env), map[], NoneObj, false)), bound);
      if bound.out.Value? {
        BodyLaw(prims, n, fuel, body, |st1.envs|, bound.st, r);
      }
      LetForm(prims, fuel, x, star, env, st1, name, BindingList(names, forms), BuildList(body, Null), bound, r);
    }
  }

  lemma LetForm(prims: Primitives, fuel: nat, x: Obj, star: bool, env: EnvId, st: Store, name: string, bindings: Obj, body: Obj,
                bound: Run, r: Run)
    requires Valid(st) && env < |st.envs| && x.Pair? && PartsOfLet(x) == Some(LetParts(name, bindings, body))
    requires var st' := WithEnv(st, Env(name, Some(env), map[], NoneObj, false));
             Valid(st') && bound == EvalBindings(prims, fuel, bindings, x, star, |st.envs|, env, st')
    requires Valid(bound.st) && |st.envs| < |bound.st.envs|
    requires r == if bound.out.Value? then EvalBody(prims, fuel, body, |st.envs|, bound.st) else bound
    ensures EvalSpecial(prims, fuel, if star then LetStar else Let, x, env, st) == r
  {
  }

  // ---- with-error-handler ----

  /** with-error-handler evaluates the handler, which must be a function, and then the body in a new
      environment where it is installed. */
  lemma WithErrorHandlerLaw(prims: Primitives, n: nat, x: Obj, env: EnvId, st: Store, form: Obj, body: seq<Obj>, st1: Store,
                            handler: Run, r: Run)
    requires Calls(prims, n, x, env, st, SpecialForm(WithErrorHandler), st1) && x.cdr == Pair(form, BuildList(body, Null))
    requires Computes(prims, n, form, env, st1, handler)
    requires if !handler.out.Value? then r == handler
             else if !IsFunction(handler.st, handler.out.o) then r == Run(Fault(form), handler.st)
             else RunsInside(prims, n, body, Env("error-handler-scope", Some(env), map[], handler.out.o, false), handler.st, r)
    ensures Computes(prims, n + 1, x, env, st, r)
  {
    var inner := Env("error-handler-scope", Some(env), map[], if handler.out.Value? then handler.out.o else NoneObj, false);
    forall fuel: nat | fuel >= n + 1
      ensures EvalObject(prims, fuel, x, env, st) == r
    {
      FormLaw(prims, n, fuel, x, env, st, WithErrorHandler, st1);
      assert EvalObject(prims, fuel - 1, form, env, st1) == handler;
      assert EvalBare(prims, fuel, form, env, st1) == handler;
      if handler.out.Value? && IsFunction(handler.st, handler.out.o) {
        InsideLaw(prims, n, fuel, body, inner, handler.st, r);
      }
    }
  }
}
