/** The trees the pretty printer lays out, and the forms their layouts spell. */
module PrettyNodes {
  import opened Options
  import opened Objects
  import opened Forms
  import opened PrintRoundTrip

  /** An atom keeps its object; the text of the node is how that object prints. */
  datatype Node =
    | Atom(o: Obj, quotes: seq<Quote>)
    | Branch(children: seq<Node>, proper: bool, quotes: seq<Quote>)

  function AtomText(n: Node): string
    requires n.Atom?
  {
    if n.o.Pair? then "" else PrintAtom(n.o)
  }

  // ---- from objects to nodes ----

  function QuoteOf(name: string): Option<Quote> {
    if name == "quote" then Some(Quote)
    else if name == "unquote" then Some(Unquote)
    else if name == "quasiquote" then Some(Quasiquote)
    else if name == "unquote-splicing" then Some(UnquoteSplicing)
    else None
  }

  // A two-element list that starts with the name of a quote.
  predicate IsQuoteForm(o: Obj) {
    && o.Pair? && o.car.Sym? && QuoteOf(o.car.name).Some?
    && o.cdr.Pair? && o.cdr.cdr.Null?
  }

  function ToNode(o: Obj): Node
    decreases o, 1
  {
    if !o.Pair? then Atom(o, [])
    else if IsQuoteForm(o) then
      var inner := ToNode(o.cdr.car);
      inner.(quotes := inner.quotes + [QuoteOf(o.car.name).value])
    else Branch(ToNodes(o), EndsInNull(o), [])
  }

  // The elements of a list, and its final cdr if that is not the empty list.
  function ToNodes(o: Obj): seq<Node>
    requires o.Pair?
    decreases o, 0
  {
    [ToNode(o.car)] +
    if o.cdr.Null? then [] else if o.cdr.Pair? then ToNodes(o.cdr) else [Atom(o.cdr, [])]
  }

  predicate EndsInNull(o: Obj)
    requires o.Pair?
  {
    o.cdr.Null? || (o.cdr.Pair? && EndsInNull(o.cdr))
  }

  // ---- forms of nodes ----

  function Chain(quotes: seq<Quote>, f: Form): Form {
    if quotes == [] then f else Quoted(quotes[0], Chain(quotes[1..], f))
  }

  function QuoteTexts(quotes: seq<Quote>): string {
    if quotes == [] then "" else QuoteText(quotes[0]) + QuoteTexts(quotes[1..])
  }

  lemma {:induction false} ChainText(quotes: seq<Quote>, f: Form)
    ensures Text(Chain(quotes, f)) == QuoteTexts(quotes) + Text(f)
  {
    if quotes == [] {
      assert "" + Text(f) == Text(f);
    } else {
      ChainText(quotes[1..], f);
      Assoc(QuoteText(quotes[0]), QuoteTexts(quotes[1..]), Text(f));
    }
  }

  lemma Assoc(a: string, b: string, c: string)
    ensures a + (b + c) == a + b + c
  {
  }

  // ---- texts that differ in blanks only ----

  // The same form with other blanks; elements stay apart.
  ghost predicate Spaced(f: Form, g: Form) {
    match f
    case Leaf(_) => f == g
    case List(tail) => g.List? && SpacedTail(tail, g.tail, true)
    case Quoted(q, inner) => g.Quoted? && g.q == q && Spaced(inner, g.f)
  }

  ghost predicate SpacedTail(t: Tail, u: Tail, first: bool) {
    match t
    case Close(ws) => u.Close? && Blanks(ws)
    case Item(ws, f, rest) =>
      u.Item? && Blanks(ws) && (first || ws != "") && Spaced(f, u.f) && SpacedTail(rest, u.rest, false)
    case DotItem(ws, after, f, last) =>
      u.DotItem? && !first && Blanks(ws) && ws != "" && Blanks(after) && after != "" && Spaced(f, u.f) && Blanks(last)
  }

  // Such forms spell the same object.
  lemma {:induction false} SpacedValue(f: Form, g: Form)
    requires Spaced(f, g)
    ensures Value(f) == Value(g)
  {
    match f
    case Leaf(_) =>
    case List(tail) => SpacedTailValue(tail, g.tail, true);
    case Quoted(_, inner) => SpacedValue(inner, g.f);
  }

  lemma {:induction false} SpacedTailValue(t: Tail, u: Tail, first: bool)
    requires SpacedTail(t, u, first)
    ensures TailValue(t) == TailValue(u)
  {
    match t
    case Close(_) =>
    case Item(_, f, rest) =>
      SpacedValue(f, u.f);
      SpacedTailValue(rest, u.rest, false);
    case DotItem(_, _, f, _) => SpacedValue(f, u.f);
  }

  // And if one can be read, so can the other.
  lemma {:induction false} SpacedIsWellFormed(f: Form, g: Form)
    requires Spaced(f, g) && WellFormed(g)
    ensures WellFormed(f)
  {
    match f
    case Leaf(_) =>
    case List(tail) => SpacedTailIsWellFormed(tail, g.tail, true);
    case Quoted(_, inner) =>
      SpacedIsWellFormed(inner, g.f);
  }

  lemma {:induction false} SpacedTailIsWellFormed(t: Tail, u: Tail, first: bool)
    requires SpacedTail(t, u, first) && WellFormedTail(u, first)
    ensures WellFormedTail(t, first)
  {
    match t
    case Close(_) =>
    case Item(_, f, rest) =>
      SpacedIsWellFormed(f, u.f);
      SpacedTailIsWellFormed(rest, u.rest, false);
    case DotItem(_, _, f, _) => SpacedIsWellFormed(f, u.f);
  }

  lemma QuoteTextStart(q: Quote, s: string)
    ensures QuoteText(q) + s != "" && (QuoteText(q) + s)[0] == QuoteText(q)[0] != '@'
  {
  }

  lemma {:induction false} SpacedChain(quotes: seq<Quote>, f: Form, g: Form)
    requires Spaced(f, g)
    ensures Spaced(Chain(quotes, f), Chain(quotes, g))
  {
    if quotes != [] {
      SpacedChain(quotes[1..], f, g);
    }
  }

  /** The elements of a list as they are laid out: each with the blanks before it. */
  datatype Row = Start | Then(before: Row, ws: string, f: Form)

  function RowText(row: Row): string {
    match row
    case Start => ""
    case Then(before, ws, f) => RowText(before) + ws + Text(f)
  }

  function TailOf(row: Row, end: Tail): Tail {
    match row
    case Start => end
    case Then(before, ws, f) => TailOf(before, Item(ws, f, end))
  }

  lemma {:induction false} TailOfText(row: Row, end: Tail)
    ensures TailText(TailOf(row, end)) == RowText(row) + TailText(end)
  {
    match row
    case Start =>
      assert "" + TailText(end) == TailText(end);
    case Then(before, ws, f) =>
      var item := Item(ws, f, end);
      TailOfText(before, item);
      assert TailText(item) == ws + (Text(f) + TailText(end));
      Assoc(RowText(before), ws, Text(f) + TailText(end));
      Assoc(RowText(before) + ws, Text(f), TailText(end));
  }

  // ---- the flat layout ----

  function FlatNode(n: Node): Form
    decreases n
  {
    match n
    case Atom(o, quotes) => Chain(quotes, Leaf(if o.Pair? then o else AtomReread(o)))
    case Branch(children, proper, quotes) => Chain(quotes, List(FlatList(children, proper, "")))
  }

  function FlatList(children: seq<Node>, proper: bool, ws: string): Tail
    decreases children
  {
    if children == [] then Close("")
    else if |children| == 1 && !proper then DotItem(ws, " ", FlatNode(children[0]), "")
    else Item(ws, FlatNode(children[0]), FlatList(children[1..], proper, " "))
  }

  function FlatRow(children: seq<Node>, n: nat): Row
    requires n <= |children|
    decreases children, n
  {
    if n == 0 then Start
    else Then(FlatRow(children, n - 1), if n == 1 then "" else " ", FlatNode(children[n - 1]))
  }

  lemma {:induction false} FlatRowTail(children: seq<Node>, n: nat, proper: bool)
    requires n <= |children| && (!proper ==> n < |children|)
    ensures TailOf(FlatRow(children, n), FlatList(children[n..], proper, if n == 0 then "" else " "))
         == FlatList(children, proper, "")
    decreases n
  {
    if n == 0 {
      assert children[0..] == children;
    } else {
      var rest := children[n - 1..];
      assert rest[0] == children[n - 1] && rest[1..] == children[n..];
      FlatRowTail(children, n - 1, proper);
    }
  }

  // ---- other layouts ----

  // The row spells the first n children in order, and blanks keep them apart.
  ghost predicate Spells(row: Row, children: seq<Node>, n: nat) {
    match row
    case Start => n == 0
    case Then(before, ws, f) =>
      && 0 < n <= |children| && Spells(before, children, n - 1)
      && Spaced(f, FlatNode(children[n - 1])) && Blanks(ws) && (n > 1 ==> ws != "")
  }

  lemma {:induction false} SpacedRow(row: Row, children: seq<Node>, n: nat, end: Tail, flatEnd: Tail)
    requires n <= |children| && Spells(row, children, n) && SpacedTail(end, flatEnd, n == 0)
    ensures SpacedTail(TailOf(row, end), TailOf(FlatRow(children, n), flatEnd), true)
    decreases n
  {
    match row
    case Start =>
    case Then(before, ws, f) =>
      var flatWs := if n == 1 then "" else " ";
      SpacedRow(before, children, n - 1, Item(ws, f, end), Item(flatWs, FlatNode(children[n - 1]), flatEnd));
  }

  // ---- which nodes there are ----

  // Atoms are not pairs, no list is empty, an improper list has at least two parts.
  predicate Shaped(n: Node)
    decreases n
  {
    match n
    case Atom(o, quotes) => !o.Pair?
    case Branch(children, proper, quotes) =>
      children != [] && (!proper ==> |children| >= 2) && forall i :: 0 <= i < |children| ==> Shaped(children[i])
  }

  lemma {:induction false} ToNodeIsShaped(o: Obj)
    ensures Shaped(ToNode(o))
    decreases o, 1
  {
    if o.Pair? {
      if IsQuoteForm(o) {
        ToNodeIsShaped(o.cdr.car);
      } else {
        ToNodesAreShaped(o);
      }
    }
  }

  lemma {:induction false} ToNodesAreShaped(o: Obj)
    requires o.Pair?
    ensures forall i :: 0 <= i < |ToNodes(o)| ==> Shaped(ToNodes(o)[i])
    ensures !EndsInNull(o) ==> |ToNodes(o)| >= 2
    decreases o, 0
  {
    ToNodeIsShaped(o.car);
    if o.cdr.Pair? {
      ToNodesAreShaped(o.cdr);
    }
  }
}
