/** What the flat form of a tree spells, and which trees can be read back. */
module NodeValues {
  import opened Objects
  import opened Forms
  import opened PrintRoundTrip
  import opened PrettyNodes

  // ---- chains of prefixes ----

  function Wrap(quotes: seq<Quote>, o: Obj): Obj {
    if quotes == [] then o else QuotedObj(quotes[0], Wrap(quotes[1..], o))
  }

  function Reversed(quotes: seq<Quote>): (r: seq<Quote>)
    ensures |r| == |quotes|
  {
    if quotes == [] then [] else Reversed(quotes[1..]) + [quotes[0]]
  }

  lemma {:induction false} ChainValue(quotes: seq<Quote>, f: Form)
    ensures Value(Chain(quotes, f)) == Wrap(quotes, Value(f))
  {
    if quotes != [] {
      ChainValue(quotes[1..], f);
    }
  }

  lemma QuoteOfHasName(name: string)
    requires QuoteOf(name).Some?
    ensures QuoteName(QuoteOf(name).value) == name
  {
  }

  lemma {:induction false} WrapIsInjective(q: seq<Quote>, r: seq<Quote>, o: Obj, p: Obj)
    requires |q| == |r|
    ensures Wrap(q, o) == Wrap(r, p) <==> q == r && o == p
  {
    if q != [] {
      WrapIsInjective(q[1..], r[1..], o, p);
      assert q == [q[0]] + q[1..] && r == [r[0]] + r[1..];
    }
  }

  // The object a node was made from: the quote added last is the outermost one.
  function Original(n: Node): Obj
    decreases n
  {
    match n
    case Atom(o, quotes) => Wrap(Reversed(quotes), o)
    case Branch(children, proper, quotes) => Wrap(Reversed(quotes), OriginalList(children, proper))
  }

  function OriginalList(children: seq<Node>, proper: bool): Obj
    decreases children
  {
    if children == [] then Null
    else if |children| == 1 && !proper then Original(children[0])
    else Pair(Original(children[0]), OriginalList(children[1..], proper))
  }

  lemma {:induction false} ReversedSnoc(quotes: seq<Quote>, q: Quote)
    ensures Reversed(quotes + [q]) == [q] + Reversed(quotes)
  {
    if quotes == [] {
      assert [q][1..] == [];
    } else {
      assert (quotes + [q])[1..] == quotes[1..] + [q];
      ReversedSnoc(quotes[1..], q);
    }
  }

  lemma {:induction false} ToNodeKeepsObject(o: Obj)
    ensures Original(ToNode(o)) == o
    decreases o, 1
  {
    if IsQuoteForm(o) {
      var inner := ToNode(o.cdr.car);
      ToNodeKeepsObject(o.cdr.car);
      ReversedSnoc(inner.quotes, QuoteOf(o.car.name).value);
      QuoteOfHasName(o.car.name);
      assert ([QuoteOf(o.car.name).value] + Reversed(inner.quotes))[1..] == Reversed(inner.quotes);
    } else if o.Pair? {
      ToNodesKeepObject(o);
    }
  }

  lemma {:induction false} ToNodesKeepObject(o: Obj)
    requires o.Pair?
    ensures OriginalList(ToNodes(o), EndsInNull(o)) == o
    decreases o, 0
  {
    ToNodeKeepsObject(o.car);
    var nodes := ToNodes(o);
    if o.cdr.Pair? {
      assert nodes[1..] == ToNodes(o.cdr);
      ToNodesKeepObject(o.cdr);
    } else if o.cdr.Null? {
      assert nodes[1..] == [];
    } else {
      assert nodes[1..] == [Atom(o.cdr, [])];
      assert OriginalList([Atom(o.cdr, [])], false) == o.cdr;
    }
  }

  // Quote prefixes read the same in both directions, and no atom prints as another object's name.
  predicate Symmetric(n: Node)
    decreases n
  {
    && n.quotes == Reversed(n.quotes)
    && match n
       case Atom(o, _) => !o.Null? && !o.NoneObj?
       case Branch(children, _, _) => forall i :: 0 <= i < |children| ==> Symmetric(children[i])
  }

  lemma {:induction false} ValueIsOriginal(n: Node)
    requires Shaped(n)
    ensures Value(FlatNode(n)) == Original(n) <==> Symmetric(n)
    decreases n, 1
  {
    match n
    case Atom(o, quotes) =>
      ChainValue(quotes, Leaf(AtomReread(o)));
      WrapIsInjective(quotes, Reversed(quotes), AtomReread(o), o);
    case Branch(children, proper, quotes) =>
      var body := List(FlatList(children, proper, ""));
      ChainValue(quotes, body);
      ValuesAreOriginal(children, proper, "");
      WrapIsInjective(quotes, Reversed(quotes), Value(body), OriginalList(children, proper));
  }

  lemma {:induction false} ValuesAreOriginal(children: seq<Node>, proper: bool, ws: string)
    requires forall i :: 0 <= i < |children| ==> Shaped(children[i])
    ensures TailValue(FlatList(children, proper, ws)) == OriginalList(children, proper)
       <==> forall i :: 0 <= i < |children| ==> Symmetric(children[i])
    decreases children, 0
  {
    if children != [] {
      ValueIsOriginal(children[0]);
      if |children| > 1 || proper {
        ValuesAreOriginal(children[1..], proper, " ");
        assert forall i :: 1 <= i < |children| ==> children[i] == children[1..][i - 1];
      }
    }
  }

  // ---- which trees can be read ----

  // A comma directly before an at sign would read as the two-character prefix.
  predicate CommaSafe(quotes: seq<Quote>, text: string) {
    quotes != [] && quotes[|quotes| - 1] == Unquote ==> text != "" && text[0] != '@'
  }

  predicate Renderable(n: Node)
    decreases n
  {
    match n
    case Atom(o, quotes) => !o.Pair? && (o.Null? || o.NoneObj? || ReadableAtom(o)) && CommaSafe(quotes, PrintAtom(o))
    case Branch(children, proper, quotes) => forall i :: 0 <= i < |children| ==> Renderable(children[i])
  }

  lemma {:induction false} ChainIsWellFormed(quotes: seq<Quote>, f: Form)
    ensures WellFormed(Chain(quotes, f)) <==> WellFormed(f) && CommaSafe(quotes, Text(f))
  {
    if quotes != [] {
      assert quotes[1..] != [] ==> quotes[1..][|quotes[1..]| - 1] == quotes[|quotes| - 1];
      ChainIsWellFormed(quotes[1..], f);
      if |quotes| > 1 {
        var next := quotes[1..];
        assert Chain(next, f) == Quoted(next[0], Chain(next[1..], f));
        QuoteTextStart(next[0], Text(Chain(next[1..], f)));
      }
    }
  }

  lemma {:induction false} RenderableIsWellFormed(n: Node)
    requires Shaped(n)
    ensures Renderable(n) <==> WellFormed(FlatNode(n))
    decreases n, 1
  {
    match n
    case Atom(o, quotes) =>
      NamesAreReadable();
      ChainIsWellFormed(quotes, Leaf(AtomReread(o)));
    case Branch(children, proper, quotes) =>
      RenderablesAreWellFormed(children, proper, "", true);
      ChainIsWellFormed(quotes, List(FlatList(children, proper, "")));
  }

  lemma {:induction false} RenderablesAreWellFormed(children: seq<Node>, proper: bool, ws: string, first: bool)
    requires forall i :: 0 <= i < |children| ==> Shaped(children[i])
    requires ws == (if first then "" else " ") && (first && !proper ==> |children| >= 2)
    ensures WellFormedTail(FlatList(children, proper, ws), first)
       <==> forall i :: 0 <= i < |children| ==> Renderable(children[i])
    decreases children, 0
  {
    if children != [] {
      RenderableIsWellFormed(children[0]);
      if |children| > 1 || proper {
        RenderablesAreWellFormed(children[1..], proper, " ", false);
        assert forall i :: 1 <= i < |children| ==> children[i] == children[1..][i - 1];
      }
    }
  }
}
