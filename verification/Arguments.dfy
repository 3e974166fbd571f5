/** Parameter lists, and how the arguments of a call are matched with them and bound. */
module Arguments {
  import opened Options
  import opened Objects

  /** What the interpreter's C++ code may do: return, throw an EvalException, or throw another exception. */
  datatype Parsed<+T> = Good(value: T) | EvalError | RuntimeError

  datatype Positional = Positional(name: string, optional: bool, default: Obj)

  datatype Named = Named(hasDefault: bool, default: Obj)

  datatype Spec = Spec(unnamed: seq<Positional>, named: map<string, Named>, rest: string, varkeys: bool, varargs: bool)

  /** No rest arguments are the none object, as in a default-constructed Arguments. */
  datatype Args = Args(unnamed: seq<Obj>, named: map<string, Obj>, rest: Obj)

  const EMPTY_SPEC := Spec([], map[], "", false, false)

  // ---- parameter lists ----

  datatype Mode = Required | Optional | Keys

  const REST := Sym("&rest")
  const KEY := Sym("&key")
  const OPTIONAL := Sym("&optional")

  predicate IsMarker(o: Obj) {
    o == REST || o == KEY || o == OPTIONAL
  }

  function AddParameter(arg: Obj, mode: Mode, spec: Spec): Parsed<Spec> {
    if mode == Required then
      if arg.Sym? then Good(spec.(unnamed := spec.unnamed + [Positional(arg.name, false, NoneObj)])) else EvalError
    else
      var name := if arg.Pair? then arg.car else arg;
      var given := arg.Pair? && arg.cdr.Pair?;
      if !name.Sym? then EvalError
      else if mode == Optional then
        var default := if given then arg.cdr.car else if arg.Pair? then NoneObj else Null;
        Good(spec.(unnamed := spec.unnamed + [Positional(name.name, true, default)]))
      else if name.name in spec.named then EvalError
      else Good(spec.(named := spec.named[name.name := Named(given, if given then arg.cdr.car else NoneObj)]))
  }

  function ParseSpec(params: Obj, mode: Mode, spec: Spec): Parsed<Spec> {
    if params.Null? then Good(spec)
    else if !params.Pair? then EvalError
    else if params.car == REST then
      var rest := params.cdr;
      if rest.Pair? && rest.car.Sym? && rest.cdr.Null? then Good(spec.(rest := rest.car.name)) else EvalError
    else if params.car == KEY then ParseSpec(params.cdr, Keys, spec.(varkeys := true))
    else if params.car == OPTIONAL then ParseSpec(params.cdr, Optional, spec.(varkeys := false))
    else
      match AddParameter(params.car, mode, spec)
      case Good(more) => ParseSpec(params.cdr, mode, more)
      case EvalError => EvalError
      case RuntimeError => RuntimeError
  }

  method ParseArgSpec(params: Obj) returns (r: Parsed<Spec>)
    ensures r == ParseSpec(params, Required, EMPTY_SPEC)
  {
    var spec := EMPTY_SPEC;
    var mode := Required;
    var current := params;
    while !current.Null?
      invariant ParseSpec(current, mode, spec) == ParseSpec(params, Required, EMPTY_SPEC)
      decreases current
    {
      if !current.Pair? {
        return EvalError;
      }
      var arg := current.car;
      if arg == REST {
        current := current.cdr;
        if !current.Pair? || !current.car.Sym? {
          return EvalError;
        }
        spec := spec.(rest := current.car.name);
        if !current.cdr.Null? {
          return EvalError;
        }
        return Good(spec);
      }
      if arg == KEY {
        mode, spec := Keys, spec.(varkeys := true);
      } else if arg == OPTIONAL {
        mode, spec := Optional, spec.(varkeys := false);
      } else {
        var added := AddParameter(arg, mode, spec);
        if !added.Good? {
          return added;
        }
        spec := added.value;
      }
      current := current.cdr;
    }
    r := Good(spec);
  }

  // A parameter list in the conventional order: required, optional, keyword, rest; the parts
  // that are absent have no marker either.
  datatype Params = Params(required: seq<string>, optional: seq<(string, Obj)>,
                           keys: Option<seq<(string, Option<Obj>)>>, rest: Option<string>)

  predicate DistinctKeys(keys: seq<(string, Option<Obj>)>) {
    forall i, j :: 0 <= i < j < |keys| ==> keys[i].0 != keys[j].0
  }

  predicate ProperParams(p: Params) {
    && (forall i :: 0 <= i < |p.required| ==> !IsMarker(Sym(p.required[i])))
    && (p.keys.Some? ==> DistinctKeys(p.keys.value))
  }

  function WriteRequired(names: seq<string>, tail: Obj): Obj {
    if names == [] then tail else Pair(Sym(names[0]), WriteRequired(names[1..], tail))
  }

  function WriteOptional(optional: seq<(string, Obj)>, tail: Obj): Obj {
    if optional == [] then tail
    else Pair(Pair(Sym(optional[0].0), Pair(optional[0].1, Null)), WriteOptional(optional[1..], tail))
  }

  function WriteKeys(keys: seq<(string, Option<Obj>)>, tail: Obj): Obj {
    if keys == [] then tail
    else Pair(KeyParam(keys[0]), WriteKeys(keys[1..], tail))
  }

  function WriteRest(rest: Option<string>): Obj {
    if rest.None? then Null else Pair(REST, Pair(Sym(rest.value), Null))
  }

  function WriteKeyPart(p: Params): Obj {
    if p.keys.None? then WriteRest(p.rest) else Pair(KEY, WriteKeys(p.keys.value, WriteRest(p.rest)))
  }

  function WriteOptionalPart(p: Params): Obj {
    if p.optional == [] then WriteKeyPart(p) else Pair(OPTIONAL, WriteOptional(p.optional, WriteKeyPart(p)))
  }

  function WriteParams(p: Params): Obj {
    WriteRequired(p.required, WriteOptionalPart(p))
  }

  function NamedOf(keys: seq<(string, Option<Obj>)>): map<string, Named> {
    if keys == [] then map[]
    else NamedOf(keys[..|keys| - 1])[keys[|keys| - 1].0 := NamedFor(keys[|keys| - 1].1)]
  }

  function NamedFor(default: Option<Obj>): Named {
    if default.Some? then Named(true, default.value) else Named(false, NoneObj)
  }

  function RequiredSpecs(names: seq<string>): seq<Positional> {
    if names == [] then [] else [Positional(names[0], false, NoneObj)] + RequiredSpecs(names[1..])
  }

  function OptionalSpecs(optional: seq<(string, Obj)>): seq<Positional> {
    if optional == [] then [] else [Positional(optional[0].0, true, optional[0].1)] + OptionalSpecs(optional[1..])
  }

  function SpecOf(p: Params): Spec {
    Spec(RequiredSpecs(p.required) + OptionalSpecs(p.optional),
         if p.keys.Some? then NamedOf(p.keys.value) else map[],
         if p.rest.Some? then p.rest.value else "", p.keys.Some?, false)
  }

  lemma {:induction false} ParsesRequired(names: seq<string>, tail: Obj, spec: Spec)
    requires forall i :: 0 <= i < |names| ==> !IsMarker(Sym(names[i]))
    ensures ParseSpec(WriteRequired(names, tail), Required, spec)
         == ParseSpec(tail, Required, spec.(unnamed := spec.unnamed + RequiredSpecs(names)))
    decreases names
  {
    if names == [] {
      assert spec.unnamed + [] == spec.unnamed;
    } else {
      var first := Positional(names[0], false, NoneObj);
      ParsesRequired(names[1..], tail, spec.(unnamed := spec.unnamed + [first]));
      assert spec.unnamed + ([first] + RequiredSpecs(names[1..])) == spec.unnamed + [first] + RequiredSpecs(names[1..]);
    }
  }

  lemma {:induction false} ParsesOptional(optional: seq<(string, Obj)>, tail: Obj, spec: Spec)
    ensures ParseSpec(WriteOptional(optional, tail), Optional, spec)
         == ParseSpec(tail, Optional, spec.(unnamed := spec.unnamed + OptionalSpecs(optional)))
    decreases optional
  {
    if optional == [] {
      assert spec.unnamed + [] == spec.unnamed;
    } else {
      var first := Positional(optional[0].0, true, optional[0].1);
      ParsesOptional(optional[1..], tail, spec.(unnamed := spec.unnamed + [first]));
      assert spec.unnamed + ([first] + OptionalSpecs(optional[1..])) == spec.unnamed + [first] + OptionalSpecs(optional[1..]);
    }
  }

  lemma {:induction false} NamedOfKeys(keys: seq<(string, Option<Obj>)>, name: string)
    ensures name in NamedOf(keys) <==> exists i :: 0 <= i < |keys| && keys[i].0 == name
  {
    if keys != [] {
      var n := |keys| - 1;
      NamedOfKeys(keys[..n], name);
      assert forall i :: 0 <= i < n ==> keys[..n][i] == keys[i];
    }
  }

  function KeyParam(key: (string, Option<Obj>)): Obj {
    Pair(Sym(key.0), if key.1.Some? then Pair(key.1.value, Null) else Null)
  }

  lemma AddsKey(keys: seq<(string, Option<Obj>)>, n: nat, spec: Spec)
    requires n < |keys| && DistinctKeys(keys)
    requires spec.named == NamedOf(keys[..n])
    ensures AddParameter(KeyParam(keys[n]), Keys, spec) == Good(spec.(named := NamedOf(keys[..n + 1])))
  {
    NamedOfKeys(keys[..n], keys[n].0);
    assert keys[..n + 1][..n] == keys[..n];
  }

  lemma {:induction false} ParsesKeys(keys: seq<(string, Option<Obj>)>, n: nat, tail: Obj, spec: Spec)
    requires n <= |keys| && DistinctKeys(keys)
    requires spec.named == NamedOf(keys[..n])
    ensures ParseSpec(WriteKeys(keys[n..], tail), Keys, spec) == ParseSpec(tail, Keys, spec.(named := NamedOf(keys)))
    decreases |keys| - n
  {
    if n == |keys| {
      assert keys[..n] == keys;
    } else {
      var rest := keys[n..];
      assert rest[0] == keys[n] && rest[1..] == keys[n + 1..];
      AddsKey(keys, n, spec);
      ParsesKeys(keys, n + 1, tail, spec.(named := NamedOf(keys[..n + 1])));
    }
  }

  lemma ParsesKeyPart(p: Params, mode: Mode, spec: Spec)
    requires ProperParams(p) && spec.named == map[] && !spec.varkeys && spec.rest == ""
    ensures ParseSpec(WriteKeyPart(p), mode, spec)
         == Good(SpecOf(p).(unnamed := spec.unnamed, varargs := spec.varargs))
  {
    if p.keys.Some? {
      var keys := p.keys.value;
      assert keys[0..] == keys && keys[..0] == [];
      ParsesKeys(keys, 0, WriteRest(p.rest), spec.(varkeys := true));
    }
  }

  // Parsing a written parameter list gives the specification it stands for.
  lemma ParseUndoesWrite(p: Params)
    requires ProperParams(p)
    ensures ParseSpec(WriteParams(p), Required, EMPTY_SPEC) == Good(SpecOf(p))
  {
    ParsesRequired(p.required, WriteOptionalPart(p), EMPTY_SPEC);
    var required := RequiredSpecs(p.required);
    assert [] + required == required;
    if p.optional == [] {
      assert required + [] == required;
      ParsesKeyPart(p, Required, EMPTY_SPEC.(unnamed := required));
    } else {
      ParsesOptional(p.optional, WriteKeyPart(p), EMPTY_SPEC.(unnamed := required));
      ParsesKeyPart(p, Optional, EMPTY_SPEC.(unnamed := SpecOf(p).unnamed));
    }
  }

  // An optional parameter may be a name, whose default is the empty list, or a list of a name alone,
  // whose default is the none object; a key without a value has no default, and a repeated key or
  // anything but a name is an error.
  lemma OtherParameters(name: string, tail: Obj, spec: Spec, o: Obj)
    requires !IsMarker(Sym(name)) && !o.Sym? && !o.Pair?
    ensures ParseSpec(Pair(Sym(name), tail), Optional, spec)
         == ParseSpec(tail, Optional, spec.(unnamed := spec.unnamed + [Positional(name, true, Null)]))
    ensures ParseSpec(Pair(Pair(Sym(name), Null), tail), Optional, spec)
         == ParseSpec(tail, Optional, spec.(unnamed := spec.unnamed + [Positional(name, true, NoneObj)]))
    ensures name !in spec.named ==>
      ParseSpec(Pair(Sym(name), tail), Keys, spec) == ParseSpec(tail, Keys, spec.(named := spec.named[name := Named(false, NoneObj)]))
    ensures name in spec.named ==> ParseSpec(Pair(Sym(name), tail), Keys, spec) == EvalError
    ensures forall mode :: ParseSpec(Pair(o, tail), mode, spec) == EvalError
    // Nothing but a name can stand for a required parameter.
    ensures ParseSpec(Pair(Pair(Sym(name), Null), tail), Required, spec) == EvalError
  {
  }

  lemma {:induction false} ParsedSpecIsNotVariadic(params: Obj, mode: Mode, spec: Spec)
    requires ParseSpec(params, mode, spec).Good? && !spec.varargs
    ensures !ParseSpec(params, mode, spec).value.varargs
    decreases params
  {
    if params.Pair? && params.car != REST {
      if params.car == KEY {
        ParsedSpecIsNotVariadic(params.cdr, Keys, spec.(varkeys := true));
      } else if params.car == OPTIONAL {
        ParsedSpecIsNotVariadic(params.cdr, Optional, spec.(varkeys := false));
      } else {
        ParsedSpecIsNotVariadic(params.cdr, mode, AddParameter(params.car, mode, spec).value);
      }
    }
  }

  // ---- matching a call ----

  function TakePositional(call: Obj, positions: seq<Positional>): Parsed<(seq<Obj>, Obj)>
    decreases |positions|
  {
    if positions == [] then Good(([], call))
    else if call.Null? && !positions[0].optional then EvalError
    else if !call.Null? && !call.Pair? then RuntimeError
    else
      match TakePositional(if call.Null? then call else call.cdr, positions[1..])
      case Good(more) => Good(([if call.Null? then positions[0].default else call.car] + more.0, more.1))
      case EvalError => EvalError
      case RuntimeError => RuntimeError
  }

  predicate TakesKeys(spec: Spec) {
    spec.varkeys || spec.named != map[]
  }

  predicate TakesRest(spec: Spec) {
    spec.rest != "" || spec.varargs
  }

  // Keyword arguments, and where the rest arguments begin.
  function TakeKeys(call: Obj, spec: Spec, named: map<string, Obj>): Parsed<(map<string, Obj>, Obj)>
    decreases call
  {
    if call.Null? then Good((named, NoneObj))
    else if !call.Pair? then RuntimeError
    else if IsKeyword(call.car) && TakesKeys(spec) then
      var key := call.car.name[1..];
      if !spec.varkeys && (key !in spec.named || key in named) then EvalError
      else if call.cdr.Null? then EvalError
      else if !call.cdr.Pair? then RuntimeError
      else TakeKeys(call.cdr.cdr, spec, named[key := call.cdr.car])
    else if TakesRest(spec) then Good((named, call))
    else EvalError
  }

  predicate DefaultsKnown(spec: Spec, named: map<string, Obj>) {
    forall k :: k in spec.named && k !in named ==> spec.named[k].hasDefault
  }

  function WithDefaults(spec: Spec, named: map<string, Obj>): map<string, Obj> {
    map k | k in spec.named.Keys + named.Keys :: if k in named then named[k] else spec.named[k].default
  }

  function CollectArgs(call: Obj, spec: Spec): Parsed<Args> {
    match TakePositional(call, spec.unnamed)
    case EvalError => EvalError
    case RuntimeError => RuntimeError
    case Good((unnamed, after)) =>
      match TakeKeys(after, spec, map[])
      case EvalError => EvalError
      case RuntimeError => RuntimeError
      case Good((named, rest)) =>
        if DefaultsKnown(spec, named) then Good(Args(unnamed, WithDefaults(spec, named), rest)) else EvalError
  }

  method GetArgsWithSpec(call: Obj, spec: Spec) returns (r: Parsed<Args>)
    ensures r == CollectArgs(call, spec)
  {
    var unnamed: seq<Obj> := [];
    var current := call;
    assert spec.unnamed[0..] == spec.unnamed;
    AfterNothing(TakePositional(call, spec.unnamed));
    for i := 0 to |spec.unnamed|
      invariant |unnamed| == i
      invariant TakePositional(call, spec.unnamed) == After(unnamed, TakePositional(current, spec.unnamed[i..]))
    {
      var p := spec.unnamed[i];
      assert spec.unnamed[i..][0] == p && spec.unnamed[i..][1..] == spec.unnamed[i + 1..];
      ghost var before := unnamed;
      if !current.Null? {
        if !current.Pair? {
          return RuntimeError;
        }
        unnamed := unnamed + [current.car];
        current := current.cdr;
      } else if p.optional {
        unnamed := unnamed + [p.default];
      } else {
        return EvalError;
      }
      AfterOneMore(before, unnamed[i], TakePositional(current, spec.unnamed[i + 1..]));
    }
    assert spec.unnamed[|spec.unnamed|..] == [] && unnamed + [] == unnamed;
    assert TakePositional(call, spec.unnamed) == Good((unnamed, current));
    r := GetNamedArgs(current, spec, unnamed);
  }

  // Arguments taken earlier stand before the ones taken later.
  ghost function After(unnamed: seq<Obj>, r: Parsed<(seq<Obj>, Obj)>): Parsed<(seq<Obj>, Obj)> {
    if r.Good? then Good((unnamed + r.value.0, r.value.1)) else r
  }

  lemma AfterNothing(r: Parsed<(seq<Obj>, Obj)>)
    ensures After([], r) == r
  {
    if r.Good? {
      assert [] + r.value.0 == r.value.0;
    }
  }

  lemma AfterOneMore(unnamed: seq<Obj>, o: Obj, r: Parsed<(seq<Obj>, Obj)>)
    ensures After(unnamed + [o], r) == if r.Good? then After(unnamed, Good(([o] + r.value.0, r.value.1))) else r
  {
    if r.Good? {
      assert unnamed + [o] + r.value.0 == unnamed + ([o] + r.value.0);
    }
  }

  method GetNamedArgs(call: Obj, spec: Spec, unnamed: seq<Obj>) returns (r: Parsed<Args>)
    ensures r == match TakeKeys(call, spec, map[])
                 case EvalError => EvalError
                 case RuntimeError => RuntimeError
                 case Good((named, rest)) =>
                   if DefaultsKnown(spec, named) then Good(Args(unnamed, WithDefaults(spec, named), rest)) else EvalError
  {
    var named: map<string, Obj> := map[];
    var rest := NoneObj;
    var current := call;
    while !current.Null?
      invariant TakeKeys(call, spec, map[]) == TakeKeys(current, spec, named) && rest == NoneObj
      decreases current
    {
      if !current.Pair? {
        return RuntimeError;
      }
      var arg := current.car;
      if IsKeyword(arg) && TakesKeys(spec) {
        var key := arg.name[1..];
        if !spec.varkeys && (key !in spec.named || key in named) {
          return EvalError;
        }
        current := current.cdr;
        if current.Null? {
          return EvalError;
        } else if !current.Pair? {
          return RuntimeError;
        }
        named := named[key := current.car];
      } else if TakesRest(spec) {
        rest := current;
        break;
      } else {
        return EvalError;
      }
      current := current.cdr;
    }
    assert TakeKeys(call, spec, map[]) == Good((named, rest));
    r := FillDefaults(spec, unnamed, named, rest);
  }

  method FillDefaults(spec: Spec, unnamed: seq<Obj>, named: map<string, Obj>, rest: Obj) returns (r: Parsed<Args>)
    ensures r == if DefaultsKnown(spec, named) then Good(Args(unnamed, WithDefaults(spec, named), rest)) else EvalError
  {
    var all := named;
    var names := spec.named.Keys;
    while names != {}
      invariant names <= spec.named.Keys && named.Keys <= all.Keys <= named.Keys + spec.named.Keys
      invariant forall k :: k in all ==> all[k] == if k in named then named[k] else spec.named[k].default
      invariant forall k :: k in names && k in all ==> k in named
      invariant forall k :: k in spec.named && k !in names ==> k in all && (k in named || spec.named[k].hasDefault)
      decreases names
    {
      var name :| name in names;
      if name !in all {
        if !spec.named[name].hasDefault {
          return EvalError;
        }
        all := all[name := spec.named[name].default];
      }
      names := names - {name};
    }
    assert all == WithDefaults(spec, named);
    r := Good(Args(unnamed, all, rest));
  }

  // ---- matching the call of a primitive ----

  // Keywords may stand anywhere; positional arguments go on until there are enough of them.
  function TakeMixed(call: Obj, spec: Spec, unnamed: seq<Obj>, named: map<string, Obj>): Parsed<Args>
    decreases call
  {
    if call.Null? then Good(Args(unnamed, named, NoneObj))
    else if !call.Pair? then RuntimeError
    else if spec.varkeys && IsKeyword(call.car) then
      var key := call.car.name[1..];
      if (!spec.varargs && key !in spec.named) || key in named then EvalError
      else if call.cdr.Null? then EvalError
      else if !call.cdr.Pair? then RuntimeError
      else TakeMixed(call.cdr.cdr, spec, unnamed, named[key := call.cdr.car])
    else if spec.varargs || |unnamed| < |spec.unnamed| then TakeMixed(call.cdr, spec, unnamed + [call.car], named)
    else Good(Args(unnamed, named, call))
  }

  // Unless the primitive is variadic, it gets as many arguments as it wants.
  predicate CountAllowed(args: Args, spec: Spec) {
    spec.varargs || (|args.unnamed| >= |spec.unnamed| && (HasRest(args) ==> spec.rest != ""))
  }

  function PrimitiveArgs(call: Obj, spec: Spec): Parsed<Args> {
    match TakeMixed(call, spec, [], map[])
    case EvalError => EvalError
    case RuntimeError => RuntimeError
    case Good(args) =>
      if !DefaultsKnown(spec, args.named) || !CountAllowed(args, spec) then EvalError
      else Good(args.(named := WithDefaults(spec, args.named)))
  }

  method GetArgs(call: Obj, spec: Spec) returns (r: Parsed<Args>)
    ensures r == PrimitiveArgs(call, spec)
  {
    var args := Args([], map[], NoneObj);
    var current := call;
    while !current.Null?
      invariant TakeMixed(call, spec, [], map[]) == TakeMixed(current, spec, args.unnamed, args.named) && args.rest.NoneObj?
      decreases current
    {
      if !current.Pair? {
        return RuntimeError;
      }
      var arg := current.car;
      if spec.varkeys && IsKeyword(arg) {
        var key := arg.name[1..];
        if (!spec.varargs && key !in spec.named) || key in args.named {
          return EvalError;
        }
        current := current.cdr;
        if current.Null? {
          return EvalError;
        } else if !current.Pair? {
          return RuntimeError;
        }
        args := args.(named := args.named[key := current.car]);
      } else if spec.varargs || |args.unnamed| < |spec.unnamed| {
        args := args.(unnamed := args.unnamed + [arg]);
      } else {
        args := args.(rest := current);
        break;
      }
      current := current.cdr;
    }
    assert TakeMixed(call, spec, [], map[]) == Good(args);
    r := FillDefaults(spec, args.unnamed, args.named, args.rest);
    if r.Good? && !CountAllowed(args, spec) {
      r := EvalError;
    }
  }

  // ---- what a call is made of ----

  function KeyedList(pairs: seq<(string, Obj)>, tail: Obj): Obj {
    if pairs == [] then tail
    else Pair(Sym(":" + pairs[0].0), Pair(pairs[0].1, KeyedList(pairs[1..], tail)))
  }

  function Assigned(named: map<string, Obj>, pairs: seq<(string, Obj)>): map<string, Obj>
    decreases pairs
  {
    if pairs == [] then named else Assigned(named[pairs[0].0 := pairs[0].1], pairs[1..])
  }

  // Unless any keys are allowed, keys are declared ones and given once.
  predicate KeysAllowed(pairs: seq<(string, Obj)>, spec: Spec, named: map<string, Obj>) {
    spec.varkeys ||
    forall i :: 0 <= i < |pairs| ==>
      pairs[i].0 in spec.named && pairs[i].0 !in named && forall j :: 0 <= j < i ==> pairs[j].0 != pairs[i].0
  }

  // What may follow the keyword arguments.
  predicate RestAllowed(tail: Obj, spec: Spec) {
    tail.Null? || (tail.Pair? && TakesRest(spec) && !(IsKeyword(tail.car) && TakesKeys(spec)))
  }

  function RestOf(tail: Obj): Obj {
    if tail.Null? then NoneObj else tail
  }

  function RestList(args: Args): Obj {
    if args.rest.NoneObj? then Null else args.rest
  }

  lemma {:induction false} PositionalPart(call: Obj, positions: seq<Positional>) returns (n: nat)
    requires TakePositional(call, positions).Good?
    ensures var (unnamed, after) := TakePositional(call, positions).value;
            && n <= |positions| == |unnamed| && call == BuildList(unnamed[..n], after)
            && (n < |positions| ==> after.Null?)
            && forall i :: n <= i < |positions| ==> positions[i].optional && unnamed[i] == positions[i].default
    decreases |positions|
  {
    if positions == [] {
      n := 0;
    } else if call.Null? {
      n := PositionalPart(call, positions[1..]);
      var unnamed := TakePositional(call, positions).value.0;
      n := 0;
      assert unnamed[..0] == [];
    } else {
      n := PositionalPart(call.cdr, positions[1..]);
      var unnamed := TakePositional(call, positions).value.0;
      assert unnamed[..n + 1][1..] == unnamed[1..][..n];
      n := n + 1;
    }
  }

  lemma {:induction false} KeyPart(call: Obj, spec: Spec, named: map<string, Obj>) returns (pairs: seq<(string, Obj)>)
    requires TakeKeys(call, spec, named).Good?
    ensures var (all, rest) := TakeKeys(call, spec, named).value;
            var tail := if rest.NoneObj? then Null else rest;
            && call == KeyedList(pairs, tail) && all == Assigned(named, pairs)
            && KeysAllowed(pairs, spec, named) && RestAllowed(tail, spec) && rest == RestOf(tail)
            && (pairs != [] ==> TakesKeys(spec))
    decreases call
  {
    if call.Pair? && IsKeyword(call.car) && TakesKeys(spec) {
      var key := call.car.name[1..];
      var value := call.cdr.car;
      var more := KeyPart(call.cdr.cdr, spec, named[key := value]);
      pairs := [(key, value)] + more;
      assert pairs[1..] == more && ":" + key == call.car.name;
    } else {
      pairs := [];
    }
  }

  /** A call is made of its positional arguments, its keys and values, and its rest, in that order. */
  lemma CallIsPartitioned(call: Obj, spec: Spec) returns (n: nat, pairs: seq<(string, Obj)>)
    requires CollectArgs(call, spec).Good?
    ensures var args := CollectArgs(call, spec).value;
            && n <= |spec.unnamed| == |args.unnamed|
            && call == BuildList(args.unnamed[..n], KeyedList(pairs, RestList(args)))
            && (n < |spec.unnamed| ==> pairs == [] && args.rest.NoneObj?)
            && (forall i :: n <= i < |spec.unnamed| ==>
                 spec.unnamed[i].optional && args.unnamed[i] == spec.unnamed[i].default)
            && (pairs != [] ==> TakesKeys(spec)) && KeysAllowed(pairs, spec, map[])
            && DefaultsKnown(spec, Assigned(map[], pairs))
            && args.named == WithDefaults(spec, Assigned(map[], pairs)) && spec.named.Keys <= args.named.Keys
            && RestAllowed(RestList(args), spec) && args.rest == RestOf(RestList(args))
  {
    n := PositionalPart(call, spec.unnamed);
    pairs := KeyPart(TakePositional(call, spec.unnamed).value.1, spec, map[]);
  }

  function Defaults(positions: seq<Positional>): seq<Obj> {
    if positions == [] then [] else [positions[0].default] + Defaults(positions[1..])
  }

  lemma {:induction false} TakesDefaults(positions: seq<Positional>)
    requires forall i :: 0 <= i < |positions| ==> positions[i].optional
    ensures TakePositional(Null, positions) == Good((Defaults(positions), Null))
    decreases |positions|
  {
    if positions != [] {
      TakesDefaults(positions[1..]);
    }
  }

  lemma {:induction false} TakesPositional(actuals: seq<Obj>, after: Obj, positions: seq<Positional>)
    requires |actuals| <= |positions| && (|actuals| < |positions| ==> after.Null?)
    requires forall i :: |actuals| <= i < |positions| ==> positions[i].optional
    ensures TakePositional(BuildList(actuals, after), positions)
         == Good((actuals + Defaults(positions[|actuals|..]), after))
    decreases |positions|
  {
    if actuals == [] {
      assert positions[0..] == positions && [] + Defaults(positions) == Defaults(positions);
      if positions != [] {
        TakesDefaults(positions);
      }
    } else {
      TakesPositional(actuals[1..], after, positions[1..]);
      assert positions[1..][|actuals| - 1..] == positions[|actuals|..];
      var defaults := Defaults(positions[|actuals|..]);
      assert [actuals[0]] + (actuals[1..] + defaults) == actuals + defaults;
    }
  }

  lemma {:induction false} TakesPairs(pairs: seq<(string, Obj)>, tail: Obj, spec: Spec, named: map<string, Obj>)
    requires pairs != [] ==> TakesKeys(spec)
    requires KeysAllowed(pairs, spec, named) && RestAllowed(tail, spec)
    ensures TakeKeys(KeyedList(pairs, tail), spec, named) == Good((Assigned(named, pairs), RestOf(tail)))
    decreases pairs
  {
    if pairs != [] {
      var (key, value) := pairs[0];
      assert (":" + key)[1..] == key;
      assert forall i :: 0 <= i < |pairs[1..]| ==> pairs[1..][i] == pairs[i + 1];
      TakesPairs(pairs[1..], tail, spec, named[key := value]);
    }
  }

  /** And every list made that way is a call that is accepted, with exactly these arguments. */
  lemma PartitionedCallIsAccepted(actuals: seq<Obj>, pairs: seq<(string, Obj)>, tail: Obj, spec: Spec)
    requires |actuals| <= |spec.unnamed| && (|actuals| < |spec.unnamed| ==> pairs == [] && tail.Null?)
    requires forall i :: |actuals| <= i < |spec.unnamed| ==> spec.unnamed[i].optional
    requires pairs != [] ==> TakesKeys(spec)
    requires KeysAllowed(pairs, spec, map[]) && RestAllowed(tail, spec)
    requires DefaultsKnown(spec, Assigned(map[], pairs))
    ensures CollectArgs(BuildList(actuals, KeyedList(pairs, tail)), spec)
         == Good(Args(actuals + Defaults(spec.unnamed[|actuals|..]), WithDefaults(spec, Assigned(map[], pairs)), RestOf(tail)))
  {
    TakesPositional(actuals, KeyedList(pairs, tail), spec.unnamed);
    TakesPairs(pairs, tail, spec, map[]);
  }

  // ---- undeclared keys ----

  // Where any key is allowed, keys given before change nothing about what is accepted later.
  lemma {:induction false} EarlierKeysDoNotMatter(call: Obj, spec: Spec, a: map<string, Obj>, b: map<string, Obj>, key: string)
    requires spec.varkeys && b.Keys == a.Keys + {key}
    ensures TakeKeys(call, spec, a).Good? <==> TakeKeys(call, spec, b).Good?
    ensures TakeKeys(call, spec, a).Good? ==>
      TakeKeys(call, spec, b).value.0.Keys == TakeKeys(call, spec, a).value.0.Keys + {key}
    decreases call
  {
    if call.Pair? && IsKeyword(call.car) && call.cdr.Pair? {
      var next := call.car.name[1..];
      EarlierKeysDoNotMatter(call.cdr.cdr, spec, a[next := call.cdr.car], b[next := call.cdr.car], key);
    }
  }

  // A key that is not declared is accepted exactly when the specification allows any key, in front
  // of arguments that are accepted without it; and then it is one of the arguments.
  lemma UndeclaredKey(actuals: seq<Obj>, key: string, o: Obj, after: Obj, spec: Spec)
    requires |actuals| == |spec.unnamed| && key !in spec.named && TakesKeys(spec)
    ensures var without := CollectArgs(BuildList(actuals, after), spec);
            var with := CollectArgs(BuildList(actuals, KeyedList([(key, o)], after)), spec);
            && (with.Good? <==> spec.varkeys && without.Good?)
            && (with.Good? ==> key in with.value.named)
  {
    var pairs := [(key, o)];
    assert pairs[1..] == [] && (":" + key)[1..] == key;
    TakesPositional(actuals, after, spec.unnamed);
    TakesPositional(actuals, KeyedList(pairs, after), spec.unnamed);
    if spec.varkeys {
      EarlierKeysDoNotMatter(after, spec, map[], map[key := o], key);
    }
  }

  // With the parameters (&key (a one)), the call (:b two) binds b.
  lemma UndeclaredKeyIsBound(one: Obj, two: Obj, params: Obj, spec: Spec)
    requires params == Pair(KEY, Pair(KeyParam(("a", Some(one))), Null))
    requires spec == Spec([], map["a" := Named(true, one)], "", true, false)
    ensures ParseSpec(params, Required, EMPTY_SPEC) == Good(spec)
    ensures CollectArgs(KeyedList([("b", two)], Null), spec) == Good(Args([], map["a" := one, "b" := two], NoneObj))
  {
    assert ParseSpec(params.cdr, Keys, EMPTY_SPEC.(varkeys := true)) == Good(spec);
    var pairs := [("b", two)];
    assert pairs[1..] == [] && Assigned(map[], pairs) == map["b" := two];
    PartitionedCallIsAccepted([], pairs, Null, spec);
    assert WithDefaults(spec, map["b" := two]) == map["a" := one, "b" := two];
  }

  // ---- what the call of a primitive is made of ----

  datatype Part = Plain(o: Obj) | Keyed(key: string, o: Obj)

  function PartsList(parts: seq<Part>, tail: Obj): Obj {
    if parts == [] then tail
    else match parts[0]
         case Plain(o) => Pair(o, PartsList(parts[1..], tail))
         case Keyed(key, o) => Pair(Sym(":" + key), Pair(o, PartsList(parts[1..], tail)))
  }

  function Plains(parts: seq<Part>): seq<Obj> {
    if parts == [] then [] else (if parts[0].Plain? then [parts[0].o] else []) + Plains(parts[1..])
  }

  function KeyedParts(parts: seq<Part>): seq<(string, Obj)> {
    if parts == [] then [] else (if parts[0].Keyed? then [(parts[0].key, parts[0].o)] else []) + KeyedParts(parts[1..])
  }

  // Keywords only where they are not taken for keys, declared keys unless any are allowed, each key
  // once and none of those given before.
  predicate PartsAllowed(parts: seq<Part>, spec: Spec, named: map<string, Obj>) {
    forall i :: 0 <= i < |parts| ==>
      match parts[i]
      case Plain(o) => !(spec.varkeys && IsKeyword(o))
      case Keyed(key, _) =>
        && spec.varkeys && (spec.varargs || key in spec.named) && key !in named
        && forall j :: 0 <= j < i && parts[j].Keyed? ==> parts[j].key != key
  }

  // What may be left once there are enough positional arguments.
  predicate LeftOver(tail: Obj, spec: Spec, count: nat) {
    tail.Null? || (tail.Pair? && !spec.varargs && count >= |spec.unnamed| && !(spec.varkeys && IsKeyword(tail.car)))
  }

  predicate EnoughRoom(spec: Spec, count: nat) {
    spec.varargs || count <= |spec.unnamed|
  }

  lemma {:induction false} MixedParts(call: Obj, spec: Spec, unnamed: seq<Obj>, named: map<string, Obj>)
    returns (parts: seq<Part>)
    requires TakeMixed(call, spec, unnamed, named).Good? && EnoughRoom(spec, |unnamed|)
    ensures var args := TakeMixed(call, spec, unnamed, named).value;
            && args.unnamed == unnamed + Plains(parts) && args.named == Assigned(named, KeyedParts(parts))
            && call == PartsList(parts, RestList(args)) && args.rest == RestOf(RestList(args))
            && PartsAllowed(parts, spec, named) && EnoughRoom(spec, |args.unnamed|)
            && LeftOver(RestList(args), spec, |args.unnamed|)
    decreases call
  {
    parts := [];
    assert unnamed + [] == unnamed;
    if call.Pair? {
      if spec.varkeys && IsKeyword(call.car) {
        var key, o := call.car.name[1..], call.cdr.car;
        var more := MixedParts(call.cdr.cdr, spec, unnamed, named[key := o]);
        parts := [Keyed(key, o)] + more;
        assert parts[1..] == more && ":" + key == call.car.name;
        assert KeyedParts(parts) == [(key, o)] + KeyedParts(more);
        assert Plains(parts) == Plains(more);
      } else if spec.varargs || |unnamed| < |spec.unnamed| {
        var more := MixedParts(call.cdr, spec, unnamed + [call.car], named);
        parts := [Plain(call.car)] + more;
        assert parts[1..] == more;
        assert unnamed + [call.car] + Plains(more) == unnamed + Plains(parts);
        assert KeyedParts(parts) == KeyedParts(more);
      }
    }
  }

  lemma {:induction false} TakesParts(parts: seq<Part>, tail: Obj, spec: Spec, unnamed: seq<Obj>, named: map<string, Obj>)
    requires PartsAllowed(parts, spec, named) && EnoughRoom(spec, |unnamed| + |Plains(parts)|)
    requires LeftOver(tail, spec, |unnamed| + |Plains(parts)|)
    ensures TakeMixed(PartsList(parts, tail), spec, unnamed, named)
         == Good(Args(unnamed + Plains(parts), Assigned(named, KeyedParts(parts)), RestOf(tail)))
    decreases |parts|
  {
    if parts == [] {
      assert unnamed + [] == unnamed;
    } else {
      var rest := parts[1..];
      assert forall i :: 0 <= i < |rest| ==> rest[i] == parts[i + 1];
      match parts[0]
      case Plain(o) =>
        TakesParts(rest, tail, spec, unnamed + [o], named);
        assert unnamed + [o] + Plains(rest) == unnamed + Plains(parts);
        assert KeyedParts(parts) == KeyedParts(rest);
      case Keyed(key, o) =>
        assert (":" + key)[1..] == key;
        TakesParts(rest, tail, spec, unnamed, named[key := o]);
        assert KeyedParts(parts)[1..] == KeyedParts(rest) && Plains(parts) == Plains(rest);
    }
  }

  /** An accepted call of a primitive is a mixture of positional arguments and of keys with their
      values, and then the rest; its arguments are these. */
  lemma PrimitiveCallIsPartitioned(call: Obj, spec: Spec) returns (parts: seq<Part>)
    requires PrimitiveArgs(call, spec).Good?
    ensures var args := PrimitiveArgs(call, spec).value;
            && call == PartsList(parts, RestList(args)) && args.unnamed == Plains(parts)
            && args.named == WithDefaults(spec, Assigned(map[], KeyedParts(parts)))
            && PartsAllowed(parts, spec, map[]) && EnoughRoom(spec, |args.unnamed|)
            && LeftOver(RestList(args), spec, |args.unnamed|) && args.rest == RestOf(RestList(args))
            && DefaultsKnown(spec, Assigned(map[], KeyedParts(parts))) && CountAllowed(args, spec)
  {
    parts := MixedParts(call, spec, [], map[]);
    assert [] + Plains(parts) == Plains(parts);
  }

  /** And every such mixture is accepted, if it has enough arguments and no more than can be bound. */
  lemma PartitionedPrimitiveCallIsAccepted(parts: seq<Part>, tail: Obj, spec: Spec)
    requires PartsAllowed(parts, spec, map[]) && EnoughRoom(spec, |Plains(parts)|) && LeftOver(tail, spec, |Plains(parts)|)
    requires DefaultsKnown(spec, Assigned(map[], KeyedParts(parts)))
    requires CountAllowed(Args(Plains(parts), map[], RestOf(tail)), spec)
    ensures PrimitiveArgs(PartsList(parts, tail), spec)
         == Good(Args(Plains(parts), WithDefaults(spec, Assigned(map[], KeyedParts(parts))), RestOf(tail)))
  {
    TakesParts(parts, tail, spec, [], map[]);
    assert [] + Plains(parts) == Plains(parts);
  }

  // ---- binding ----

  predicate HasRest(args: Args) {
    !args.rest.NoneObj? && !args.rest.Null?
  }

  function BindPositional(vars: map<string, Obj>, positions: seq<Positional>, values: seq<Obj>): map<string, Obj>
    requires |positions| <= |values|
  {
    if positions == [] then vars
    else
      var n := |positions| - 1;
      BindPositional(vars, positions[..n], values)[positions[n].name := values[n]]
  }

  function BindNamed(vars: map<string, Obj>, spec: Spec, named: map<string, Obj>): map<string, Obj>
    requires spec.named.Keys <= named.Keys
  {
    vars + map k | k in spec.named :: named[k]
  }

  // Whether there are as many positional arguments as the specification asks for.
  predicate EnoughArgs(args: Args, spec: Spec) {
    if spec.rest == "" then |args.unnamed| == |spec.unnamed| else |args.unnamed| >= |spec.unnamed|
  }

  function BindArgs(vars: map<string, Obj>, args: Args, spec: Spec): Parsed<map<string, Obj>> {
    if !EnoughArgs(args, spec) then EvalError
    else if !(spec.named.Keys <= args.named.Keys) then RuntimeError
    else
      var bound := BindNamed(BindPositional(vars, spec.unnamed, args.unnamed), spec, args.named);
      if spec.rest != "" then Good(bound[spec.rest := RestList(args)])
      else if HasRest(args) then EvalError
      else Good(bound)
  }

  method SetArgsInEnv(vars: map<string, Obj>, args: Args, spec: Spec) returns (r: Parsed<map<string, Obj>>)
    ensures r == BindArgs(vars, args, spec)
  {
    if spec.rest == "" && |args.unnamed| != |spec.unnamed| {
      return EvalError;
    } else if spec.rest != "" && |args.unnamed| < |spec.unnamed| {
      return EvalError;
    }
    var positional := BindUnnamed(vars, spec.unnamed, args.unnamed);
    var bound := BindKeys(positional, spec, args.named);
    if bound.RuntimeError? {
      return RuntimeError;
    }
    if spec.rest != "" {
      return Good(bound.value[spec.rest := if args.rest.NoneObj? then Null else args.rest]);
    } else if HasRest(args) {
      return EvalError;
    }
    r := bound;
  }

  method BindUnnamed(vars: map<string, Obj>, positions: seq<Positional>, values: seq<Obj>) returns (bound: map<string, Obj>)
    requires |positions| <= |values|
    ensures bound == BindPositional(vars, positions, values)
  {
    bound := vars;
    for i := 0 to |positions|
      invariant bound == BindPositional(vars, positions[..i], values)
    {
      assert positions[..i + 1][..i] == positions[..i];
      bound := bound[positions[i].name := values[i]];
    }
    assert positions[..|positions|] == positions;
  }

  method BindKeys(vars: map<string, Obj>, spec: Spec, named: map<string, Obj>) returns (r: Parsed<map<string, Obj>>)
    ensures r == if spec.named.Keys <= named.Keys then Good(BindNamed(vars, spec, named)) else RuntimeError
  {
    var bound := vars;
    var names := spec.named.Keys;
    while names != {}
      invariant names <= spec.named.Keys && spec.named.Keys - names <= named.Keys
      invariant bound.Keys == vars.Keys + (spec.named.Keys - names)
      invariant forall k :: k in bound ==> bound[k] == if k in spec.named && k !in names then named[k] else vars[k]
      decreases names
    {
      var name :| name in names;
      if name !in named {
        return RuntimeError;
      }
      bound := bound[name := named[name]];
      names := names - {name};
    }
    assert bound == BindNamed(vars, spec, named);
    r := Good(bound);
  }

  // Evaluating arguments keeps their number, their keys, and whether there is a rest.
  predicate SameShape(a: Args, b: Args) {
    |a.unnamed| == |b.unnamed| && a.named.Keys == b.named.Keys && (HasRest(a) <==> HasRest(b))
  }

  /** Once a call has been matched with a specification, binding its arguments cannot fail, except
      for the rest of a variadic primitive, which has no name to be bound to. */
  lemma BindingSucceeds(call: Obj, spec: Spec, args: Args, vars: map<string, Obj>)
    requires CollectArgs(call, spec).Good? && SameShape(CollectArgs(call, spec).value, args)
    ensures BindArgs(vars, args, spec).Good? <==> !(spec.varargs && spec.rest == "" && HasRest(args))
  {
    var n, pairs := CallIsPartitioned(call, spec);
  }

  // For parameter lists written in a program it never fails.
  lemma ParsedSpecAlwaysBinds(params: Obj, call: Obj, args: Args, vars: map<string, Obj>)
    requires ParseSpec(params, Required, EMPTY_SPEC).Good?
    requires var spec := ParseSpec(params, Required, EMPTY_SPEC).value;
             CollectArgs(call, spec).Good? && SameShape(CollectArgs(call, spec).value, args)
    ensures BindArgs(vars, args, ParseSpec(params, Required, EMPTY_SPEC).value).Good?
  {
    ParsedSpecIsNotVariadic(params, Required, EMPTY_SPEC);
    BindingSucceeds(call, ParseSpec(params, Required, EMPTY_SPEC).value, args, vars);
  }

  // The last parameter of this name is position i.
  predicate LastNamed(positions: seq<Positional>, i: nat, name: string) {
    i < |positions| && positions[i].name == name && forall j :: i < j < |positions| ==> positions[j].name != name
  }

  predicate IsNamed(positions: seq<Positional>, name: string) {
    exists i :: 0 <= i < |positions| && positions[i].name == name
  }

  lemma {:induction false} PositionalBound(vars: map<string, Obj>, positions: seq<Positional>, values: seq<Obj>, name: string)
    requires |positions| <= |values|
    ensures var bound := BindPositional(vars, positions, values);
            if IsNamed(positions, name)
            then name in bound && exists i: nat :: LastNamed(positions, i, name) && bound[name] == values[i]
            else (name in bound <==> name in vars) && (name in vars ==> bound[name] == vars[name])
  {
    if positions != [] {
      var n := |positions| - 1;
      PositionalBound(vars, positions[..n], values, name);
      assert forall i :: 0 <= i < n ==> positions[..n][i] == positions[i];
      if positions[n].name == name {
        assert LastNamed(positions, n, name);
      } else if IsNamed(positions, name) {
        var i: nat :| LastNamed(positions[..n], i, name) && BindPositional(vars, positions[..n], values)[name] == values[i];
        assert LastNamed(positions, i, name);
      }
    }
  }

  // What a name is bound to: a later declaration hides an earlier one of the same name, and the
  // names of no parameter are what they were.
  ghost predicate BoundTo(bound: map<string, Obj>, vars: map<string, Obj>, args: Args, spec: Spec, name: string)
    requires |spec.unnamed| <= |args.unnamed| && spec.named.Keys <= args.named.Keys
  {
    if spec.rest != "" && name == spec.rest then name in bound && bound[name] == RestList(args)
    else if name in spec.named then name in bound && bound[name] == args.named[name]
    else if IsNamed(spec.unnamed, name)
    then name in bound && exists i: nat :: LastNamed(spec.unnamed, i, name) && bound[name] == args.unnamed[i]
    else (name in bound <==> name in vars) && (name in vars ==> bound[name] == vars[name])
  }

  /** What the parameters are bound to. */
  lemma ParametersAreBound(vars: map<string, Obj>, args: Args, spec: Spec, name: string)
    requires BindArgs(vars, args, spec).Good?
    ensures BoundTo(BindArgs(vars, args, spec).value, vars, args, spec, name)
  {
    PositionalBound(vars, spec.unnamed, args.unnamed, name);
  }
}
