/** Reading what was printed. */
module PrintRoundTrip {
  import opened Objects
  import opened Tokens
  import opened Reading
  import opened Forms

  // The empty list and the none object print as names, and names read back as symbols.
  function AtomReread(o: Obj): Obj
    requires !o.Pair?
  {
    match o
    case Null => Sym("null")
    case NoneObj => Sym("none")
    case _ => o
  }

  // What reading the printed text of o gives.
  function Reread(o: Obj): Obj {
    if o.Pair? then Pair(Reread(o.car), RereadTail(o.cdr)) else AtomReread(o)
  }

  function RereadTail(o: Obj): Obj {
    if o.Null? then Null
    else if o.Pair? then Pair(Reread(o.car), RereadTail(o.cdr))
    else AtomReread(o)
  }

  // No empty list other than as the end of a list, and no none object.
  predicate Faithful(o: Obj) {
    if o.Pair? then Faithful(o.car) && FaithfulTail(o.cdr) else !o.Null? && !o.NoneObj?
  }

  predicate FaithfulTail(o: Obj) {
    if o.Null? then true
    else if o.Pair? then Faithful(o.car) && FaithfulTail(o.cdr)
    else !o.NoneObj?
  }

  lemma {:induction false} RereadIsSame(o: Obj)
    ensures Reread(o) == o <==> Faithful(o)
    ensures RereadTail(o) == o <==> FaithfulTail(o)
  {
    if o.Pair? {
      RereadIsSame(o.car);
      RereadIsSame(o.cdr);
    }
  }

  // Every atom other than the two that print as names is one the reader understands.
  predicate AtomsReadable(o: Obj) {
    if o.Pair? then AtomsReadable(o.car) && AtomsReadable(o.cdr)
    else o.Null? || o.NoneObj? || ReadableAtom(o)
  }

  function FlatForm(o: Obj): Form {
    if o.Pair? then List(Item("", FlatForm(o.car), FlatTail(o.cdr))) else Leaf(AtomReread(o))
  }

  function FlatTail(o: Obj): Tail {
    if o.Null? then Close("")
    else if o.Pair? then Item(" ", FlatForm(o.car), FlatTail(o.cdr))
    else DotItem(" ", " ", Leaf(AtomReread(o)), "")
  }

  lemma NamesAreReadable()
    ensures ReadableSymbol("null") && ReadableSymbol("none")
  {
    LettersAreReadable("null");
    LettersAreReadable("none");
  }

  lemma LettersAreReadable(name: string)
    requires |name| >= 2 && forall i :: 0 <= i < |name| ==> 'a' <= name[i] <= 'z'
    ensures ReadableSymbol(name)
  {
    assert name[0] in name;
    assert !LooksLikeInteger(name) && !LooksLikeFloat(name);
  }

  lemma {:induction false} FlatFormIsPrint(o: Obj)
    ensures Text(FlatForm(o)) == Print(o)
    ensures TailText(FlatTail(o)) == PrintTail(o)
  {
    if o.Pair? {
      FlatFormIsPrint(o.car);
      FlatFormIsPrint(o.cdr);
      Regrouped(Print(o.car), PrintTail(o.cdr));
    } else if o.Null? {
      assert "" + ")" == ")";
    } else {
      DotRegrouped(PrintAtom(o));
    }
  }

  lemma Regrouped(a: string, b: string)
    ensures "(" + ("" + (a + b)) == "(" + a + b
    ensures " " + (a + b) == " " + a + b
  {
  }

  lemma DotRegrouped(s: string)
    ensures " " + ("." + (" " + (s + ("" + ")")))) == " . " + s + ")"
  {
  }

  lemma {:induction false} FlatFormIsWellFormed(o: Obj)
    ensures WellFormed(FlatForm(o)) <==> AtomsReadable(o)
    ensures WellFormedTail(FlatTail(o), false) <==> AtomsReadable(o)
  {
    if o.Pair? {
      FlatFormIsWellFormed(o.car);
      FlatFormIsWellFormed(o.cdr);
    } else {
      NamesAreReadable();
    }
  }

  lemma {:induction false} FlatFormValue(o: Obj)
    ensures Value(FlatForm(o)) == Reread(o)
    ensures TailValue(FlatTail(o)) == RereadTail(o)
  {
    if o.Pair? {
      FlatFormValue(o.car);
      FlatFormValue(o.cdr);
    }
  }

  // Reading a text that is a form gives its object and uses up the text.
  lemma WholeFormReads(f: Form, text: string)
    requires WellFormed(f) && text == Text(f)
    ensures Gives(OneForm(text, 0), Value(f), |text|)
  {
    ReadsForm(f, text, 0);
  }

  // Reading printed text: every character is consumed, and the object comes back unchanged
  // exactly when nothing in it printed as a name.
  lemma PrintedTextReadsBack(o: Obj)
    requires AtomsReadable(o)
    ensures Gives(ReadSingleForm(Print(o), 0), Reread(o), |Print(o)|)
    ensures Gives(ReadSingleForm(Print(o), 0), o, |Print(o)|) <==> Faithful(o)
  {
    var f := FlatForm(o);
    FlatFormIsPrint(o);
    FlatFormIsWellFormed(o);
    FlatFormValue(o);
    WholeFormReads(f, Print(o));
    RereadIsSame(o);
  }
}
