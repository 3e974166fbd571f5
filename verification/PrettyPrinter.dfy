/** The pretty printer as a whole: what its text reads back as, and when it is one line. */
module PrettyPrinter {
  import opened Objects
  import opened Reading
  import opened Forms
  import opened PrintRoundTrip
  import opened PrettyNodes
  import opened NodeValues
  import opened Misreading
  import opened PrettyLayout
  import opened PrettyBreaks
  import opened PrettyText
  import opened PrettyRender

  // ---- measured lengths are exact ----

  // Dots of improper lists: the measured length leaves out the dot and one blank for each.
  function Dots(n: Node): nat
    decreases n, 0
  {
    if n.Atom? then 0 else (if n.proper then 0 else 1) + DotsIn(n.children, |n.children|)
  }

  function DotsIn(children: seq<Node>, k: nat): nat
    requires k <= |children|
    decreases children, k
  {
    if k == 0 then 0 else DotsIn(children, k - 1) + Dots(children[k - 1])
  }

  // Lengths of flat texts: of a node, of the first k elements of a list, of a list after its parenthesis.
  function FlatTextLength(n: Node): nat {
    |Text(FlatNode(n))|
  }

  function RowLength(children: seq<Node>, k: nat): nat
    requires k <= |children|
  {
    |RowText(FlatRow(children, k))|
  }

  function ListLength(n: Node): nat
    requires n.Branch?
  {
    |TailText(FlatList(n.children, n.proper, ""))|
  }

  lemma {:induction false} RowHasLength(children: seq<Node>, lens: seq<int>, k: nat)
    requires k <= |children| == |lens|
    requires forall i :: 0 <= i < k ==> FlatTextLength(children[i]) == lens[i] + 2 * Dots(children[i])
    ensures RowLength(children, k) == SumPlusOne(lens, k) + 2 * DotsIn(children, k) - (if k > 0 then 1 else 0)
    decreases k
  {
    if k > 0 {
      RowHasLength(children, lens, k - 1);
    }
  }

  lemma FlatListLength(n: Node, lens: seq<int>)
    requires n.Branch? && Shaped(n) && |lens| == |n.children|
    requires forall i :: 0 <= i < |lens| ==> FlatTextLength(n.children[i]) == lens[i] + 2 * Dots(n.children[i])
    ensures ListLength(n) == SumPlusOne(lens, |lens|) + 2 * Dots(n)
  {
    FlatListText(n);
    RowHasLength(n.children, lens, Elements(n));
  }

  lemma FlatListText(n: Node)
    requires n.Branch? && Shaped(n)
    ensures ListLength(n)
         == RowLength(n.children, Elements(n)) + if n.proper then 1 else FlatTextLength(n.children[Elements(n)]) + 4
  {
    var k := Elements(n);
    FlatRowTail(n.children, k, n.proper);
    TailOfText(FlatRow(n.children, k), FlatList(n.children[k..], n.proper, " "));
    FlatEndLength(n);
  }

  lemma FlatEndLength(n: Node)
    requires n.Branch? && Shaped(n)
    ensures |TailText(FlatList(n.children[Elements(n)..], n.proper, " "))|
         == if n.proper then 1 else FlatTextLength(n.children[Elements(n)]) + 4
  {
    var k := Elements(n);
    if n.proper {
      assert n.children[k..] == [];
      assert FlatList([], true, " ") == Close("");
    } else {
      var last := n.children[k];
      assert n.children[k..] == [last];
      assert FlatList([last], false, " ") == DotItem(" ", " ", FlatNode(last), "");
      DotEndLength(DotItem(" ", " ", FlatNode(last), ""), FlatNode(last));
    }
  }

  lemma DotEndLength(end: Tail, f: Form)
    requires end == DotItem(" ", " ", f, "")
    ensures |TailText(end)| == |Text(f)| + 4
  {
  }

  /** The measured length of an unbroken tree is the length of its text, but for the dots. */
  lemma {:induction false} FlatLength(n: Node, path: Path, style: map<Path, Style>)
    requires Shaped(n) && IsFlat(n, path, style)
    ensures FlatTextLength(n) == Length(n, path, style) + 2 * Dots(n)
    decreases n
  {
    match n
    case Atom(o, quotes) =>
      ChainText(quotes, Leaf(AtomReread(o)));
    case Branch(children, proper, quotes) =>
      var lens := Lengths(children, path, style);
      forall i | 0 <= i < |children|
        ensures FlatTextLength(children[i]) == lens[i] + 2 * Dots(children[i])
      {
        FlatLength(children[i], path + [i], style);
      }
      FlatListLength(n, lens);
      ChainText(quotes, List(FlatList(children, proper, "")));
  }

  lemma {:induction false} NothingBroken(n: Node, path: Path)
    ensures IsFlat(n, path, map[])
    decreases n
  {
    if n.Branch? {
      forall k | 0 <= k < |n.children|
        ensures IsFlat(n.children[k], path + [k], map[])
      {
        NothingBroken(n.children[k], path + [k]);
      }
    }
  }

  lemma {:induction false} FlatLengthIsPositive(n: Node, path: Path)
    ensures Length(n, path, map[]) >= 0
    decreases n
  {
    if n.Branch? {
      var lens := Lengths(n.children, path, map[]);
      forall i | 0 <= i < |lens|
        ensures lens[i] >= 0
      {
        FlatLengthIsPositive(n.children[i], path + [i]);
      }
      SumIsPositive(lens, |lens|);
    }
  }

  lemma {:induction false} SumIsPositive(lens: seq<int>, n: nat)
    requires n <= |lens| && forall i :: 0 <= i < |lens| ==> lens[i] >= 0
    ensures SumPlusOne(lens, n) >= 0
    ensures forall i :: 0 <= i < n ==> lens[i] <= SumPlusOne(lens, n)
    decreases n
  {
    if n > 0 {
      SumIsPositive(lens, n - 1);
    }
  }

  lemma {:induction false} PartsAreShorter(root: Node, path: Path)
    requires ValidPath(root, path)
    ensures Length(NodeAt(root, path), path, map[]) <= Length(root, [], map[])
    decreases |path|
  {
    if path != [] {
      var n := |path| - 1;
      ParentPath(root, path);
      PartsAreShorter(root, path[..n]);
      ChildPath(root, path[..n], path[n]);
      assert path[..n] + [path[n]] == path;
      ChildIsShorter(NodeAt(root, path[..n]), path[..n], path[n]);
    }
  }

  lemma ChildIsShorter(n: Node, path: Path, k: nat)
    requires n.Branch? && k < |n.children|
    ensures Length(n.children[k], path + [k], map[]) <= Length(n, path, map[])
  {
    var lens := Lengths(n.children, path, map[]);
    forall i | 0 <= i < |lens|
      ensures lens[i] >= 0
    {
      FlatLengthIsPositive(n.children[i], path + [i]);
    }
    SumIsPositive(lens, |lens|);
    assert lens[k] == Length(n.children[k], path + [k], map[]);
  }

  // A tree with no forced break that fits the line needs no break at all.
  lemma FitsOnOneLine(root: Node, lineLength: int)
    requires Shaped(root) && FlatTextLength(root) - 2 * Dots(root) <= lineLength
    requires forall p :: ValidPath(root, p) ==> !MustBreak(NodeAt(root, p))
    ensures NeedsNoBreak(root, lineLength)
  {
    NothingBroken(root, []);
    FlatLength(root, [], map[]);
    forall p | IsList(root, p)
      ensures Length(NodeAt(root, p), p, map[]) <= lineLength
    {
      PartsAreShorter(root, p);
    }
  }

  // ---- the flat text is the printed text ----

  // No element is written with a quote prefix.
  predicate NoQuoteForms(o: Obj)
    decreases o, 1
  {
    !IsQuoteForm(o) && (o.Pair? ==> NoQuotedElements(o))
  }

  predicate NoQuotedElements(o: Obj)
    requires o.Pair?
    decreases o, 0
  {
    NoQuoteForms(o.car) && (o.cdr.Pair? ==> NoQuotedElements(o.cdr))
  }

  lemma {:induction false} UnquotedIsPlain(o: Obj)
    requires NoQuoteForms(o)
    ensures ToNode(o) == PlainNode(o)
    decreases o, 1
  {
    if o.Pair? {
      UnquotedElementsArePlain(o);
    }
  }

  lemma {:induction false} UnquotedElementsArePlain(o: Obj)
    requires o.Pair? && NoQuotedElements(o)
    ensures ToNodes(o) == PlainNodes(o)
    decreases o, 0
  {
    UnquotedIsPlain(o.car);
    if o.cdr.Pair? {
      UnquotedElementsArePlain(o.cdr);
    }
  }

  lemma FlatIsPrinted(o: Obj)
    requires NoQuoteForms(o)
    ensures FlatNode(ToNode(o)) == FlatForm(o)
  {
    UnquotedIsPlain(o);
    PlainNodeIsPrinted(o);
  }

  // ---- the printer ----

  // The text is the flat text of the object, but for the blanks between its tokens.
  ghost predicate LaysOut(out: string, o: Obj) {
    exists f :: Spaced(f, FlatNode(ToNode(o))) && out == Text(f)
  }

  ghost predicate NoForcedBreak(o: Obj) {
    forall p :: ValidPath(ToNode(o), p) ==> !MustBreak(NodeAt(ToNode(o), p))
  }

  // These lists may be the broken ones: with each of them whatever must break with it, all that must
  // break, all that would not fit, and none if that is possible.
  ghost predicate Breaks(root: Node, style: map<Path, Style>, lineLength: int) {
    && (forall p :: p in style ==> Settled(root, style, p))
    && (forall p :: ValidPath(root, p) && MustBreak(NodeAt(root, p)) ==> p in style)
    && (forall p :: IsList(root, p) && p !in style ==> Length(NodeAt(root, p), p, style) <= lineLength)
    && (NeedsNoBreak(root, lineLength) ==> style == map[])
  }

  // The text is the object laid out with such lists broken, from the first column.
  ghost predicate LaidOutFor(out: string, o: Obj, lineLength: int) {
    exists style, f :: Breaks(ToNode(o), style, lineLength) && Laid(ToNode(o), [], style, 0, f) && out == Text(f)
  }

  // Some list must break, or the whole object is a list that does not fit on a line.
  ghost predicate NeedsLines(o: Obj, lineLength: int) {
    !NoForcedBreak(o) || (ToNode(o).Branch? && Length(ToNode(o), [], map[]) > lineLength)
  }

  lemma BrokenTextHasNewline(o: Obj, lineLength: int, style: map<Path, Style>, f: Form)
    requires Breaks(ToNode(o), style, lineLength) && Laid(ToNode(o), [], style, 0, f) && NeedsLines(o, lineLength)
    ensures HasNewline(Text(f))
  {
    var root := ToNode(o);
    var path: Path := [];
    if !NoForcedBreak(o) {
      path :| ValidPath(root, path) && MustBreak(NodeAt(root, path));
    } else {
      assert style != map[];
      path :| path in style;
    }
    assert Settled(root, style, path);
    assert [] + path == path;
    PathBreaks(root, path, style, []);
    BrokenHasNewline(root, [], style, 0, f);
  }

  /** Pretty-print an object for lines of the given length. */
  method ToString(o: Obj, lineLength: int) returns (out: string)
    ensures LaysOut(out, o)
    // The lists that the layout breaks are broken in the text, and where it says.
    ensures LaidOutFor(out, o, lineLength)
    ensures NeedsLines(o, lineLength) ==> HasNewline(out)
    // Whatever the width, the text reads back as what it spells exactly when the object can be
    // rendered, and as the object itself exactly when its quote prefixes are symmetric as well.
    ensures AtomsAreTokens(o) ==>
      (Gives(ReadSingleForm(out, 0), Value(FlatNode(ToNode(o))), |out|) <==> Renderable(ToNode(o)))
    ensures AtomsAreTokens(o) ==>
      (Gives(ReadSingleForm(out, 0), o, |out|) <==> Renderable(ToNode(o)) && Symmetric(ToNode(o)))
    // What fits is left on one line, and then printed as the plain printer does if nothing is quoted.
    ensures NoForcedBreak(o) && FlatTextLength(ToNode(o)) - 2 * Dots(ToNode(o)) <= lineLength ==>
      out == Text(FlatNode(ToNode(o)))
    ensures NoForcedBreak(o) && NoQuoteForms(o) && |Print(o)| <= lineLength ==> out == Print(o)
  {
    var root := ToNode(o);
    ToNodeIsShaped(o);
    var layout := new Layout(root);
    layout.LayOut(lineLength);
    ghost var f;
    out, f := AppendNode(root, [], layout.style, "", 0, 0);
    assert out == Text(f);
    assert Breaks(root, layout.style, lineLength);
    if NeedsLines(o, lineLength) {
      BrokenTextHasNewline(o, lineLength, layout.style, f);
    }
    if AtomsAreTokens(o) {
      LaidOutTextReadsBack(f, o);
    }
    if NoQuoteForms(o) {
      FlatIsPrinted(o);
      FlatFormIsPrint(o);
    }
    if NoForcedBreak(o) && FlatTextLength(root) - 2 * Dots(root) <= lineLength {
      FitsOnOneLine(root, lineLength);
      NothingBroken(root, []);
    }
  }

  // Two different prefixes on one object change places.
  lemma MixedQuotesAreSwapped(x: Obj)
    requires !x.Pair? && !x.Null? && !x.NoneObj?
    ensures var o := QuotedObj(Quote, QuotedObj(Quasiquote, x));
            Value(FlatNode(ToNode(o))) == QuotedObj(Quasiquote, QuotedObj(Quote, x)) && !Symmetric(ToNode(o))
  {
    var inner := QuotedObj(Quasiquote, x);
    var o := QuotedObj(Quote, inner);
    assert ToNode(x) == Atom(x, []);
    assert ToNode(inner) == Atom(x, [Quasiquote]);
    assert ToNode(o) == Atom(x, [Quasiquote, Quote]);
    ChainValue([Quasiquote, Quote], Leaf(x));
    assert [Quasiquote, Quote][1..] == [Quote] && [Quote][1..] == [];
    assert Wrap([Quote], x) == QuotedObj(Quote, x);
    assert Wrap([Quasiquote, Quote], x) == QuotedObj(Quasiquote, Wrap([Quote], x));
    assert Reversed([Quasiquote, Quote]) == [Quote, Quasiquote];
  }

  lemma CommaAtText(atom: Obj)
    requires atom.Sym? && atom.name != "" && atom.name[0] == '@'
    ensures var o := QuotedObj(Unquote, atom);
            !Renderable(ToNode(o)) && Text(FlatNode(ToNode(o))) == "," + atom.name
  {
    var o := QuotedObj(Unquote, atom);
    assert ToNode(atom) == Atom(atom, []) && ToNode(o) == Atom(atom, [Unquote]);
    ChainText([Unquote], Leaf(atom));
    assert QuoteTexts([Unquote]) == "," + QuoteTexts([]);
  }

  // A comma before an at sign does change the meaning: (unquote @x) is printed as ,@x and read as
  // (unquote-splicing x).
  lemma CommaTakesAtSign(name: string, text: string)
    requires ReadableSymbol(name) && text == Text(FlatNode(ToNode(QuotedObj(Unquote, Sym("@" + name)))))
    ensures !Renderable(ToNode(QuotedObj(Unquote, Sym("@" + name))))
    ensures Gives(OneForm(text, 0), QuotedObj(UnquoteSplicing, Sym(name)), |text|)
  {
    CommaAtText(Sym("@" + name));
    assert "," + ("@" + name) == ",@" + name;
    var f := Quoted(UnquoteSplicing, Leaf(Sym(name)));
    assert Value(f.f) == Sym(name) && Value(f) == QuotedObj(UnquoteSplicing, Value(f.f));
    WholeFormReads(f, text);
  }
}
