/** Type specifications: printing them, and parsing them from what the reader makes of the text. */
module TypeSpecs {
  import opened Options
  import opened Objects
  import opened Reading
  import opened Forms
  import opened PrintRoundTrip

  datatype Tag = Tag(name: string, value: string)

  /** An absent argument vector is not the same as an empty one. */
  datatype Args = NoArgs | Args(list: seq<TypeSpec>)

  datatype TypeSpec = TypeSpec(base: string, args: Args, tags: seq<Tag>) {

    function AddArg(arg: TypeSpec): TypeSpec {
      this.(args := Args((if args.NoArgs? then [] else args.list) + [arg]))
    }

    // None for a tag name that is already present.
    function AddNewTag(name: string, value: string): Option<TypeSpec> {
      if exists i :: 0 <= i < |tags| && tags[i].name == name then None
      else Some(this.(tags := tags + [Tag(name, value)]))
    }
  }

  /** The types that exist, and the ones that may be named in a behavior tag. */
  datatype TypeSystem = TypeSystem(known: set<string>, behaviors: set<string>)

  function ArgList(args: Args): seq<TypeSpec> {
    if args.NoArgs? then [] else args.list
  }

  // ---- printing ----

  function PrintSpec(ts: TypeSpec): string
    decreases ts
  {
    if ArgList(ts.args) == [] && ts.tags == [] then ts.base
    else "(" + ts.base + PrintArgs(ts.args) + PrintTags(ts.tags) + ")"
  }

  function PrintArgs(args: Args): string
    decreases args
  {
    if args.NoArgs? then "" else PrintList(args.list)
  }

  function PrintList(list: seq<TypeSpec>): string
    decreases list
  {
    if list == [] then "" else " " + PrintSpec(list[0]) + PrintList(list[1..])
  }

  function PrintTags(tags: seq<Tag>): string {
    if tags == [] then "" else " :" + tags[0].name + " " + tags[0].value + PrintTags(tags[1..])
  }

  // ---- parsing ----

  function Parse(env: TypeSystem, o: Obj): Option<TypeSpec>
    decreases o, 1
  {
    match o
    case Sym(name) => if name in env.known then Some(TypeSpec(name, NoArgs, [])) else None
    case Pair(head, rest) =>
      if head.Sym? && head.name in env.known then ParseRest(env, TypeSpec(head.name, NoArgs, []), rest) else None
    case _ => None
  }

  // Arguments and tags from the elements of a list, added to what is there already.
  function ParseRest(env: TypeSystem, ts: TypeSpec, rest: Obj): Option<TypeSpec>
    decreases rest, 0
  {
    if !rest.Pair? then Some(ts)
    else if rest.car.Null? then ParseRest(env, ts, rest.cdr)
    else if IsKeyword(rest.car) then
      if !rest.cdr.Pair? then None
      else match ParseTag(env, ts, rest.car.name[1..], rest.cdr.car)
        case None => None
        case Some(ts') => ParseRest(env, ts', rest.cdr.cdr)
    else match Parse(env, rest.car)
      case None => None
      case Some(arg) => ParseRest(env, ts.AddArg(arg), rest.cdr)
  }

  function ParseTag(env: TypeSystem, ts: TypeSpec, name: string, value: Obj): Option<TypeSpec> {
    if name == "behavior" && value.Sym? && value.name in env.behaviors then ts.AddNewTag(name, value.name) else None
  }

  // The list is walked with a cursor that grows a local specification.
  method ParseTypeSpec(env: TypeSystem, o: Obj) returns (r: Option<TypeSpec>)
    ensures r == Parse(env, o)
    decreases o
  {
    if o.Sym? {
      return if o.name in env.known then Some(TypeSpec(o.name, NoArgs, [])) else None;
    }
    if !o.Pair? || !o.car.Sym? || o.car.name !in env.known {
      return None;
    }
    var ts := TypeSpec(o.car.name, NoArgs, []);
    var rest := o.cdr;
    while rest.Pair?
      invariant rest == o.cdr || rest < o.cdr
      invariant ParseRest(env, ts, rest) == Parse(env, o)
      decreases rest
    {
      var it := rest.car;
      if it.Null? {
        rest := rest.cdr;
        continue;
      }
      if IsKeyword(it) {
        if !rest.cdr.Pair? {
          return None;
        }
        var tagged := ParseTag(env, ts, it.name[1..], rest.cdr.car);
        if tagged.None? {
          return None;
        }
        ts, rest := tagged.value, rest.cdr.cdr;
      } else {
        var arg := ParseTypeSpec(env, it);
        if arg.None? {
          return None;
        }
        ts, rest := ts.AddArg(arg.value), rest.cdr;
      }
    }
    return Some(ts);
  }

  // ---- the form a specification prints as ----

  function SpecForm(ts: TypeSpec): Form
    decreases ts
  {
    if ArgList(ts.args) == [] && ts.tags == [] then Leaf(Sym(ts.base))
    else List(Item("", Leaf(Sym(ts.base)), ArgsTail(ts.args, TagsTail(ts.tags))))
  }

  function ArgsTail(args: Args, end: Tail): Tail
    decreases args
  {
    if args.NoArgs? then end else ListTail(args.list, end)
  }

  function ListTail(list: seq<TypeSpec>, end: Tail): Tail
    decreases list
  {
    if list == [] then end else Item(" ", SpecForm(list[0]), ListTail(list[1..], end))
  }

  function TagsTail(tags: seq<Tag>): Tail {
    if tags == [] then Close("")
    else Item(" ", Leaf(Sym(":" + tags[0].name)), Item(" ", Leaf(Sym(tags[0].value)), TagsTail(tags[1..])))
  }

  // Every name is a token of its own, and no type name looks like a tag.
  predicate Spellable(ts: TypeSpec)
    decreases ts
  {
    && ReadableSymbol(ts.base) && ts.base[0] != ':'
    && (forall i :: 0 <= i < |ts.tags| ==> ReadableSymbol(":" + ts.tags[i].name) && ReadableSymbol(ts.tags[i].value))
    && (ts.args.Args? ==> SpellableList(ts.args.list))
  }

  predicate SpellableList(list: seq<TypeSpec>)
    decreases list
  {
    list == [] || (Spellable(list[0]) && SpellableList(list[1..]))
  }

  lemma {:induction false} SpecFormIsPrint(ts: TypeSpec)
    ensures Text(SpecForm(ts)) == PrintSpec(ts)
    decreases ts
  {
    if !(ArgList(ts.args) == [] && ts.tags == []) {
      var args, tags := PrintArgs(ts.args), PrintTags(ts.tags);
      var end := TagsTail(ts.tags);
      TagsTailIsPrint(ts.tags);
      if ts.args.Args? {
        ListTailIsPrint(ts.args.list, end);
      } else {
        assert args + TailText(end) == TailText(end);
      }
      var rest := ArgsTail(ts.args, end);
      assert TailText(rest) == args + (tags + ")");
      assert TailText(Item("", Leaf(Sym(ts.base)), rest)) == "" + (ts.base + TailText(rest));
      Regroup(ts.base, args, tags);
    }
  }

  lemma Regroup(a: string, b: string, c: string)
    ensures "(" + ("" + (a + (b + (c + ")")))) == "(" + a + b + c + ")"
  {
  }

  lemma {:induction false} ListTailIsPrint(list: seq<TypeSpec>, end: Tail)
    ensures TailText(ListTail(list, end)) == PrintList(list) + TailText(end)
    decreases list
  {
    if list == [] {
      assert "" + TailText(end) == TailText(end);
    } else {
      SpecFormIsPrint(list[0]);
      ListTailIsPrint(list[1..], end);
    }
  }

  lemma {:induction false} TagsTailIsPrint(tags: seq<Tag>)
    ensures TailText(TagsTail(tags)) == PrintTags(tags) + ")"
  {
    if tags == [] {
      assert "" + ")" == ")";
    } else {
      TagsTailIsPrint(tags[1..]);
      var value := Item(" ", Leaf(Sym(tags[0].value)), TagsTail(tags[1..]));
      assert TailText(value) == " " + (tags[0].value + TailText(TagsTail(tags[1..])));
      assert TailText(Item(" ", Leaf(Sym(":" + tags[0].name)), value)) == " " + ((":" + tags[0].name) + TailText(value));
      RegroupTag(tags[0].name, tags[0].value, PrintTags(tags[1..]));
    }
  }

  lemma RegroupTag(n: string, v: string, c: string)
    ensures " " + ((":" + n) + (" " + (v + (c + ")")))) == " :" + n + " " + v + c + ")"
  {
  }

  lemma {:induction false} SpecFormIsWellFormed(ts: TypeSpec)
    requires Spellable(ts)
    ensures WellFormed(SpecForm(ts))
    decreases ts
  {
    TagsTailIsWellFormed(ts.tags);
    if ts.args.Args? {
      ListTailIsWellFormed(ts.args.list, TagsTail(ts.tags));
    }
  }

  lemma {:induction false} ListTailIsWellFormed(list: seq<TypeSpec>, end: Tail)
    requires SpellableList(list) && WellFormedTail(end, false)
    ensures WellFormedTail(ListTail(list, end), false)
    decreases list
  {
    if list != [] {
      SpecFormIsWellFormed(list[0]);
      ListTailIsWellFormed(list[1..], end);
    }
  }

  lemma {:induction false} TagsTailIsWellFormed(tags: seq<Tag>)
    requires forall i :: 0 <= i < |tags| ==> ReadableSymbol(":" + tags[i].name) && ReadableSymbol(tags[i].value)
    ensures WellFormedTail(TagsTail(tags), false)
  {
    if tags != [] {
      forall i | 0 <= i < |tags[1..]|
        ensures ReadableSymbol(":" + tags[1..][i].name) && ReadableSymbol(tags[1..][i].value)
      {
        assert tags[1..][i] == tags[i + 1];
      }
      TagsTailIsWellFormed(tags[1..]);
    }
  }

  // ---- what parsing makes of it ----

  predicate GoodTags(env: TypeSystem, tags: seq<Tag>) {
    tags == [] || (|tags| == 1 && tags[0].name == "behavior" && tags[0].value in env.behaviors)
  }

  // Known types throughout, and at most a behavior tag on each node.
  predicate Parsable(env: TypeSystem, ts: TypeSpec)
    decreases ts
  {
    ts.base in env.known && GoodTags(env, ts.tags) && (ts.args.Args? ==> ParsableList(env, ts.args.list))
  }

  predicate ParsableList(env: TypeSystem, list: seq<TypeSpec>)
    decreases list
  {
    list == [] || (Parsable(env, list[0]) && ParsableList(env, list[1..]))
  }

  // The same specification with every empty argument vector absent.
  function Normalize(ts: TypeSpec): TypeSpec
    decreases ts
  {
    ts.(args := if ArgList(ts.args) == [] then NoArgs else NormalizeArgs(ts.args))
  }

  function NormalizeArgs(args: Args): Args
    decreases args
  {
    if args.NoArgs? then NoArgs else Args(NormalizeList(args.list))
  }

  function NormalizeList(list: seq<TypeSpec>): (r: seq<TypeSpec>)
    ensures |r| == |list|
    decreases list
  {
    if list == [] then [] else [Normalize(list[0])] + NormalizeList(list[1..])
  }

  predicate NoEmptyArgs(ts: TypeSpec)
    decreases ts
  {
    ts.args.Args? ==> ts.args.list != [] && NoEmptyArgsList(ts.args.list)
  }

  predicate NoEmptyArgsList(list: seq<TypeSpec>)
    decreases list
  {
    list == [] || (NoEmptyArgs(list[0]) && NoEmptyArgsList(list[1..]))
  }

  lemma {:induction false} NormalizeIsSame(ts: TypeSpec)
    ensures Normalize(ts) == ts <==> NoEmptyArgs(ts)
    decreases ts
  {
    if ts.args.Args? {
      NormalizeListIsSame(ts.args.list);
    }
  }

  lemma {:induction false} NormalizeListIsSame(list: seq<TypeSpec>)
    ensures NormalizeList(list) == list <==> NoEmptyArgsList(list)
    decreases list
  {
    if list != [] {
      NormalizeIsSame(list[0]);
      NormalizeListIsSame(list[1..]);
      assert list == [list[0]] + list[1..];
      assert NormalizeList(list)[0] == Normalize(list[0]) && NormalizeList(list)[1..] == NormalizeList(list[1..]);
    }
  }

  function WithArgs(ts: TypeSpec, more: seq<TypeSpec>): TypeSpec {
    if more == [] then ts else ts.(args := Args(ArgList(ts.args) + more))
  }

  lemma {:induction false} ParsesTags(env: TypeSystem, ts: TypeSpec, tags: seq<Tag>)
    requires ts.tags == []
    ensures ParseRest(env, ts, TailValue(TagsTail(tags)))
         == if GoodTags(env, tags) then Some(ts.(tags := tags)) else None
  {
    if tags != [] {
      TagsValue(tags);
      var rest := tags[1..];
      if tags[0].name == "behavior" && tags[0].value in env.behaviors {
        var ts' := ts.(tags := [tags[0]]);
        assert ts.AddNewTag("behavior", tags[0].value) == Some(ts') by {
          assert [] + [tags[0]] == [tags[0]];
        }
        if rest == [] {
          assert tags == [tags[0]];
        } else {
          TagsValue(rest);
          assert ts'.tags[0].name == "behavior";
          assert ParseRest(env, ts', TailValue(TagsTail(rest))) == None;
        }
      }
    }
  }

  lemma TagsValue(tags: seq<Tag>)
    requires tags != []
    ensures TailValue(TagsTail(tags))
         == Pair(Sym(":" + tags[0].name), Pair(Sym(tags[0].value), TailValue(TagsTail(tags[1..]))))
    ensures IsKeyword(Sym(":" + tags[0].name)) && (":" + tags[0].name)[1..] == tags[0].name
  {
    var value := Item(" ", Leaf(Sym(tags[0].value)), TagsTail(tags[1..]));
    assert TailValue(value) == Pair(Sym(tags[0].value), TailValue(TagsTail(tags[1..])));
  }

  lemma {:induction false} ParsesList(env: TypeSystem, ts: TypeSpec, list: seq<TypeSpec>, tags: seq<Tag>)
    requires SpellableList(list) && ts.tags == []
    ensures ParseRest(env, ts, TailValue(ListTail(list, TagsTail(tags))))
         == if ParsableList(env, list) && GoodTags(env, tags) then Some(WithArgs(ts, NormalizeList(list)).(tags := tags)) else None
    decreases list
  {
    if list == [] {
      ParsesTags(env, ts, tags);
    } else {
      var first := Value(SpecForm(list[0]));
      ParsesSpec(env, list[0]);
      if Parsable(env, list[0]) {
        var ts' := ts.AddArg(Normalize(list[0]));
        ParsesList(env, ts', list[1..], tags);
        AddArgThenRest(ts, Normalize(list[0]), NormalizeList(list[1..]));
      }
    }
  }

  lemma AddArgThenRest(ts: TypeSpec, arg: TypeSpec, more: seq<TypeSpec>)
    ensures WithArgs(ts.AddArg(arg), more) == WithArgs(ts, [arg] + more)
  {
    assert ArgList(ts.args) + [arg] + more == ArgList(ts.args) + ([arg] + more);
    assert more == [] ==> [arg] + more == [arg];
  }

  lemma {:induction false} ParsesSpec(env: TypeSystem, ts: TypeSpec)
    requires Spellable(ts)
    ensures Parse(env, Value(SpecForm(ts))) == if Parsable(env, ts) then Some(Normalize(ts)) else None
    decreases ts
  {
    var start := TypeSpec(ts.base, NoArgs, []);
    if ArgList(ts.args) == [] && ts.tags == [] {
      assert Normalize(ts) == start;
    } else {
      var rest := ArgsTail(ts.args, TagsTail(ts.tags));
      var tail := Item("", Leaf(Sym(ts.base)), rest);
      assert SpecForm(ts) == List(tail) && Value(Leaf(Sym(ts.base))) == Sym(ts.base);
      assert TailValue(tail) == Pair(Sym(ts.base), TailValue(rest));
      if ts.args.NoArgs? {
        ParsesTags(env, start, ts.tags);
      } else {
        ParsesList(env, start, ts.args.list, ts.tags);
        assert [] + NormalizeList(ts.args.list) == NormalizeList(ts.args.list);
      }
    }
  }

  // Printing a specification, reading the text and parsing the object gives the specification
  // back exactly when its types and tags are acceptable and no argument vector is empty.
  lemma PrintedSpecParsesBack(env: TypeSystem, ts: TypeSpec)
    requires Spellable(ts)
    ensures var r := ReadSingleForm(PrintSpec(ts), 0);
            && r.Ok? && r.end == |PrintSpec(ts)|
            && (Parse(env, r.obj) == Some(ts) <==> Parsable(env, ts) && NoEmptyArgs(ts))
  {
    var f := SpecForm(ts);
    SpecFormIsPrint(ts);
    SpecFormIsWellFormed(ts);
    WholeFormReads(f, PrintSpec(ts));
    ParsesSpec(env, ts);
    NormalizeIsSame(ts);
  }
}
