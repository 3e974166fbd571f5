/** Text that does not read back: what becomes of atoms that are written as something else, of a
    comma directly before an at sign, and of every list that holds one of them. */
module Misreading {
  import opened Objects
  import opened Tokens
  import opened Reading
  import opened Forms
  import opened PrintRoundTrip
  import opened PrettyNodes
  import opened NodeValues

  /** The reader did not get o. */
  ghost predicate Misses(r: Read, o: Obj) {
    r.Failed? || r.obj != o
  }

  // ---- atoms ----

  /** Atoms whose text is one token or one string literal, whatever it reads as. */
  predicate IsToken(o: Obj) {
    match o
    case Int(i) => INT64_MIN <= i <= INT64_MAX
    case Sym(name) => ReadableSymbol(name)
    case Float(_) => false
    case Pair(_, _) => false
    case _ => true
  }

  predicate NeedsEscape(c: char) {
    c == '"' || c == '\\'
  }

  // The rest of a literal, read from its i-th character on when only j < i characters of the data
  // have been matched so far, is not the rest of the data.
  lemma {:induction false} StringFallsBehind(text: string, base: nat, data: string, i: nat, j: nat)
    requires At(text, base, data) && base + |data| < |text| && text[base + |data|] == '"'
    requires j < i <= |data| && forall k :: 0 <= k < i ==> data[k] != '"'
    ensures match ReadString(text, base + i)
            case None => true
            case Some((s, _)) => s != data[j..]
    decreases |data| - i
  {
    if i < |data| {
      assert text[base + i] == data[i];
    }
    if i < |data| && data[i] != '"' {
      if data[i] != '\\' {
        StringFallsBehind(text, base, data, i + 1, j + 1);
        var rest := ReadString(text, base + i + 1);
        assert rest.Some? ==> ([data[i]] + rest.value.0)[1..] == rest.value.0;
        assert data[j..][1..] == data[j + 1..];
      } else {
        EscapeFallsBehind(text, base, data, i, j);
      }
    }
  }

  lemma {:induction false} EscapeFallsBehind(text: string, base: nat, data: string, i: nat, j: nat)
    requires At(text, base, data) && base + |data| < |text| && text[base + |data|] == '"'
    requires j <= i < |data| && data[i] == '\\' && forall k :: 0 <= k < i ==> data[k] != '"'
    ensures match ReadString(text, base + i)
            case None => true
            case Some((s, _)) => s != data[j..]
    decreases |data| - i, 0
  {
    assert text[base + i] == data[i];
    match Escape(text, base + i + 1)
    case None =>
    case Some((c, next)) =>
      assert data[j..][0] == data[j] != '"' && data[j..][1..] == data[j + 1..];
      if c != '"' {
        forall k | i < k < next - base
          ensures k < |data| && data[k] != '"'
        {
          assert text[base + k] != '"';
          assert k < |data| ==> text[base + k] == data[k];
        }
        StringFallsBehind(text, base, data, next - base, j + 1);
        var rest := ReadString(text, next);
        assert rest.Some? ==> ([c] + rest.value.0)[1..] == rest.value.0;
      }
  }

  lemma {:induction false} StringMissesFrom(text: string, base: nat, data: string, i: nat)
    requires At(text, base, data) && base + |data| < |text| && text[base + |data|] == '"'
    requires i <= |data| && forall k :: 0 <= k < i ==> !NeedsEscape(data[k])
    requires exists k :: 0 <= k < |data| && NeedsEscape(data[k])
    ensures match ReadString(text, base + i)
            case None => true
            case Some((s, _)) => s != data[i..]
    decreases |data| - i
  {
    assert i < |data| && text[base + i] == data[i];
    if data[i] == '\\' {
      EscapeFallsBehind(text, base, data, i, i);
    } else if data[i] != '"' {
      StringMissesFrom(text, base, data, i + 1);
      var rest := ReadString(text, base + i + 1);
      assert rest.Some? ==> ([data[i]] + rest.value.0)[1..] == rest.value.0;
      assert data[i..][1..] == data[i + 1..];
    }
  }

  lemma StringMisses(text: string, pos: nat, data: string)
    requires At(text, pos, "\"" + data + "\"") && exists k :: 0 <= k < |data| && NeedsEscape(data[k])
    ensures StartsElement(text, pos) && Misses(OneForm(text, pos), Str(data))
  {
    AtSplit(text, pos, "\"" + data, "\"");
    AtSplit(text, pos, "\"", data);
    AtFirst(text, pos, "\"");
    AtFirst(text, pos + 1 + |data|, "\"");
    StringMissesFrom(text, pos + 1, data, 0);
    assert text[pos..pos + 1] == "\"" && data[0..] == data;
  }

  lemma PlainTokenMisses(text: string, pos: nat, s: string, o: Obj)
    requires At(text, pos, s) && Stops(text, pos + |s|)
    requires s != "" && s != "." && s != "#\\" && forall i :: 0 <= i < |s| ==> IsPlain(s[i])
    requires TokenObject(s) != Got(o) && !o.Null?
    ensures StartsElement(text, pos) && Misses(OneForm(text, pos), o)
  {
    PlainToken(text, pos, s);
    assert IsPlain(s[0]);
    ReadsAtomToken(text, pos, s);
  }

  // Every character but the printable ones is written with a name or a number, and these names
  // are no character tokens.
  lemma NamedCharacter(c: char)
    requires !IsPrintable(c) || c == ' '
    ensures var s := PrintChar(c);
            && |s| >= 5 && s[0] == '#' && s[1] == '\\' && forall i :: 0 <= i < |s| ==> IsPlain(s[i])
  {
  }

  lemma CharacterMisses(text: string, pos: nat, c: char)
    requires !IsPrintable(c) || c == ' '
    requires At(text, pos, PrintChar(c)) && Stops(text, pos + |PrintChar(c)|)
    ensures StartsElement(text, pos) && Misses(OneForm(text, pos), Char(c))
  {
    var s := PrintChar(c);
    NamedCharacter(c);
    assert !LooksLikeFloat(s) by {
      assert s[0] in s && s[0] != '-';
    }
    PlainTokenMisses(text, pos, s, Char(c));
  }

  lemma ReferenceMisses(text: string, pos: nat, ref: nat)
    requires At(text, pos, PrintAtom(Heap(ref))) && Stops(text, pos + |PrintAtom(Heap(ref))|)
    ensures StartsElement(text, pos) && Misses(OneForm(text, pos), Heap(ref))
  {
    var digits := Decimal(ref);
    var s := "#<" + digits + ">";
    forall i | 0 <= i < |s|
      ensures IsPlain(s[i])
    {
      assert 2 <= i < |s| - 1 ==> s[i] == digits[i - 2] && digits[i - 2] in digits;
    }
    PlainTokenMisses(text, pos, s, Heap(ref));
  }

  // An atom that is not readable is read as something else.
  lemma LeafMisses(text: string, pos: nat, o: Obj)
    requires IsToken(o) && !o.Null? && !o.NoneObj? && !ReadableAtom(o)
    requires At(text, pos, PrintAtom(o)) && Stops(text, pos + |PrintAtom(o)|)
    ensures StartsElement(text, pos) && Misses(OneForm(text, pos), o)
  {
    match o
    case Char(c) => CharacterMisses(text, pos, c);
    case Str(data) => StringMisses(text, pos, data);
    case Heap(ref) => ReferenceMisses(text, pos, ref);
  }

  // ---- lists ----

  // The list begins with these items.
  ghost predicate StartsWith(o: Obj, items: seq<Obj>) {
    items == [] || (o.Pair? && o.car == items[0] && StartsWith(o.cdr, items[1..]))
  }

  lemma {:induction false} BuiltStartsWith(items: seq<Obj>, x: Obj, tail: Obj)
    ensures StartsWith(BuildList(items, tail), items)
    ensures StartsWith(BuildList(items, tail), items + [x]) <==> tail.Pair? && tail.car == x
  {
    if items == [] {
      assert [x][1..] == [];
    } else {
      assert (items + [x])[1..] == items[1..] + [x];
      BuiltStartsWith(items[1..], x, tail);
    }
  }

  lemma {:induction false} StartsWithFewer(o: Obj, items: seq<Obj>, x: Obj)
    requires StartsWith(o, items + [x])
    ensures StartsWith(o, items)
  {
    if items != [] {
      assert (items + [x])[1..] == items[1..] + [x];
      StartsWithFewer(o.cdr, items[1..], x);
    }
  }

  lemma {:induction false} BuildListIsInjective(items: seq<Obj>, t: Obj, u: Obj)
    ensures BuildList(items, t) == BuildList(items, u) <==> t == u
  {
    if items != [] {
      BuildListIsInjective(items[1..], t, u);
    }
  }

  // Whatever else is read, a list keeps the items it has.
  lemma {:induction false} ItemsStay(text: string, pos: nat, items: seq<Obj>, dotted: Dotted)
    requires pos <= |text|
    ensures var r := ListLoop(text, pos, Going(items, dotted));
            r.Failed? || StartsWith(r.obj, items)
    decreases |text| - pos
  {
    OneRound(text, pos, ")", items, dotted);
    var p := SkipBlank(text, pos);
    if p < |text| && ListElement(text, p, ")").Ok? {
      var end := ListElement(text, p, ")").end;
      match ListRound(text, p, ")", items, dotted)
      case Broken =>
      case Closed(list) =>
        BuiltStartsWith(items, Null, if dotted.DotThen? then dotted.o else Null);
      case Going(items', dotted') =>
        ItemsStay(text, end, items', dotted');
        var r := ListLoop(text, end, Going(items', dotted'));
        if r.Ok? && items' != items {
          StartsWithFewer(r.obj, items, ListElement(text, p, ")").obj);
        }
    }
  }

  // Once the object after the dot is read, the list can only be closed.
  lemma DottedEndStays(text: string, pos: nat, items: seq<Obj>, o: Obj)
    requires pos <= |text|
    ensures var r := ListLoop(text, pos, Going(items, DotThen(o)));
            r.Failed? || r.obj == BuildList(items, o)
  {
    OneRound(text, pos, ")", items, DotThen(o));
  }

  // ---- prefixes ----

  ghost function Wrapped(quotes: seq<Quote>, r: Read): Read {
    match r
    case Failed => Failed
    case Ok(o, end) => Ok(Wrap(quotes, o), end)
  }

  lemma PrefixIsNoAtSign(quotes: seq<Quote>, text: string, pos: nat)
    requires quotes != [] && At(text, pos, QuoteTexts(quotes))
    ensures pos < |text| && text[pos] != '@'
  {
    QuoteTextStart(quotes[0], QuoteTexts(quotes[1..]));
    AtFirst(text, pos, QuoteTexts(quotes));
  }

  lemma PrefixAndOthers(quotes: seq<Quote>, text: string, pos: nat)
    requires quotes != [] && At(text, pos, QuoteTexts(quotes))
    ensures var next := pos + |QuoteText(quotes[0])|;
            && At(text, pos, QuoteText(quotes[0])) && At(text, next, QuoteTexts(quotes[1..]))
            && (quotes[1..] != [] ==> next < |text| && text[next] != '@')
  {
    AtSplit(text, pos, QuoteText(quotes[0]), QuoteTexts(quotes[1..]));
    if quotes[1..] != [] {
      PrefixIsNoAtSign(quotes[1..], text, pos + |QuoteText(quotes[0])|);
    }
  }

  // From pos to end stand these prefixes, each of them a token of its own.
  ghost predicate Prefixes(quotes: seq<Quote>, text: string, pos: nat, end: nat) {
    if quotes == [] then pos == end <= |text|
    else
      var next := pos + |QuoteText(quotes[0])|;
      PrefixAt(quotes[0], text, pos) && Prefixes(quotes[1..], text, next, end)
  }

  lemma PrefixThenOthers(quotes: seq<Quote>, r: Read, text: string, pos: nat, next: nat)
    requires quotes != [] && PrefixAt(quotes[0], text, pos) && next == pos + |QuoteText(quotes[0])|
    requires next <= |text| && OneForm(text, next) == Wrapped(quotes[1..], r)
    ensures StartsElement(text, pos) && OneForm(text, pos) == Wrapped(quotes, r)
  {
    ReadsPrefix(text, pos, quotes[0], next);
    PrefixedIsWrapped(quotes, r);
  }

  lemma PrefixedIsWrapped(quotes: seq<Quote>, r: Read)
    requires quotes != []
    ensures Prefixed(quotes[0], Wrapped(quotes[1..], r)) == Wrapped(quotes, r)
  {
  }

  // The last one must not be a comma before an at sign.
  lemma {:induction false} PrefixesStand(quotes: seq<Quote>, text: string, pos: nat, end: nat)
    requires At(text, pos, QuoteTexts(quotes)) && end == pos + |QuoteTexts(quotes)|
    requires quotes != [] && quotes[|quotes| - 1] == Unquote ==> end < |text| && text[end] != '@'
    ensures Prefixes(quotes, text, pos, end)
  {
    if quotes != [] {
      PrefixAndOthers(quotes, text, pos);
      PrefixesStand(quotes[1..], text, pos + |QuoteText(quotes[0])|, end);
    }
  }

  lemma {:induction false} PrefixesRead(quotes: seq<Quote>, text: string, pos: nat, end: nat)
    requires Prefixes(quotes, text, pos, end)
    ensures pos <= |text| && end <= |text| && OneForm(text, pos) == Wrapped(quotes, OneForm(text, end))
    ensures quotes != [] ==> StartsElement(text, pos)
  {
    if quotes != [] {
      var next := pos + |QuoteText(quotes[0])|;
      PrefixesRead(quotes[1..], text, next, end);
      PrefixThenOthers(quotes, OneForm(text, end), text, pos, next);
    }
  }

  // ---- trees ----

  predicate TokenAtoms(n: Node)
    decreases n
  {
    match n
    case Atom(o, _) => IsToken(o)
    case Branch(children, _, _) => forall i :: 0 <= i < |children| ==> TokenAtoms(children[i])
  }

  // What the text of a tree may be expected to read as: what it spells, or the object it was made from.
  ghost predicate Expected(n: Node, t: Obj) {
    t == Value(FlatNode(n)) || t == Original(n)
  }

  ghost predicate ExpectedList(children: seq<Node>, proper: bool, ws: string, t: Obj) {
    t == TailValue(FlatList(children, proper, ws)) || t == OriginalList(children, proper)
  }

  // It is a chain of the node's prefixes, in one direction or the other, around what is expected
  // without them.
  lemma ExpectedParts(n: Node, t: Obj) returns (order: seq<Quote>, body: Obj)
    requires Shaped(n) && Expected(n, t)
    ensures t == Wrap(order, body) && (order == n.quotes || order == Reversed(n.quotes))
    ensures match n
            case Atom(o, _) => body == o || body == AtomReread(o)
            case Branch(children, proper, _) => ExpectedList(children, proper, "", body)
  {
    if t == Original(n) {
      order, body := Reversed(n.quotes), if n.Atom? then n.o else OriginalList(n.children, n.proper);
    } else {
      var f := if n.Atom? then Leaf(AtomReread(n.o)) else List(FlatList(n.children, n.proper, ""));
      ChainValue(n.quotes, f);
      order, body := n.quotes, Value(f);
    }
  }

  lemma {:induction false} SpacedParts(quotes: seq<Quote>, f: Form, g: Form) returns (core: Form)
    requires Spaced(f, Chain(quotes, g))
    ensures f == Chain(quotes, core) && Spaced(core, g)
  {
    core := f;
    if quotes != [] {
      core := SpacedParts(quotes[1..], f.f, g);
    }
  }

  lemma WrappedMisses(quotes: seq<Quote>, order: seq<Quote>, r: Read, t: Obj)
    requires |quotes| == |order| && (Misses(r, t) || quotes != order)
    ensures Misses(Wrapped(quotes, r), Wrap(order, t))
  {
    if r.Ok? {
      WrapIsInjective(quotes, order, r.obj, t);
    }
  }

  // Prefixes that end in a comma, once that comma has taken an at sign, are not the expected ones.
  lemma {:induction false} TakenIsNotExpected(others: seq<Quote>)
    ensures others + [UnquoteSplicing] != others + [Unquote]
    ensures others + [UnquoteSplicing] != Reversed(others + [Unquote])
  {
    var taken := others + [UnquoteSplicing];
    ReversedSnoc(others, Unquote);
    assert taken[|others|] == UnquoteSplicing && (others + [Unquote])[|others|] == Unquote;
    if others != [] {
      assert taken[0] == others[0];
      assert Reversed(others)[|others| - 1] == others[0];
    }
  }

  lemma {:induction false} QuoteTextsSnoc(others: seq<Quote>, q: Quote)
    ensures QuoteTexts(others + [q]) == QuoteTexts(others) + QuoteText(q)
  {
    if others == [] {
      assert [q][1..] == [] && QuoteText(q) + "" == "" + QuoteText(q);
    } else {
      assert (others + [q])[1..] == others[1..] + [q];
      QuoteTextsSnoc(others[1..], q);
      Assoc(QuoteText(others[0]), QuoteTexts(others[1..]), QuoteText(q));
    }
  }

  // The last prefix is a comma and an at sign follows: together they are another prefix.
  lemma CommaMisses(others: seq<Quote>, order: seq<Quote>, t: Obj, s: string, text: string, pos: nat)
    requires order == others + [Unquote] || order == Reversed(others + [Unquote])
    requires At(text, pos, QuoteTexts(others + [Unquote]) + s) && s != "" && s[0] == '@'
    ensures StartsElement(text, pos) && Misses(OneForm(text, pos), Wrap(order, t))
  {
    var taken := others + [UnquoteSplicing];
    var end := pos + |QuoteTexts(taken)|;
    TakenText(others, s, text, pos);
    PrefixesStand(taken, text, pos, end);
    PrefixesRead(taken, text, pos, end);
    TakenIsNotExpected(others);
    WrappedMisses(taken, order, OneForm(text, end), t);
  }

  lemma TakenText(others: seq<Quote>, s: string, text: string, pos: nat)
    requires At(text, pos, QuoteTexts(others + [Unquote]) + s) && s != "" && s[0] == '@'
    ensures At(text, pos, QuoteTexts(others + [UnquoteSplicing]))
  {
    QuoteTextsSnoc(others, Unquote);
    QuoteTextsSnoc(others, UnquoteSplicing);
    var before := QuoteTexts(others);
    AtSplit(text, pos, before + ",", s);
    AtFirst(text, pos + |before| + 1, s);
    forall i | 0 <= i < |before| + 2
      ensures text[pos + i] == (before + ",@")[i]
    {
      if i <= |before| {
        assert (before + ",")[i] == (before + ",@")[i];
      }
    }
  }

  lemma ListIsLoop(text: string, pos: nat)
    requires pos < |text| && text[pos] == '('
    ensures SkipBlank(text, pos) == pos && IsElement(")", text[pos..TokenEnd(text, pos)])
    ensures OneForm(text, pos) == ListLoop(text, pos + 1, Going([], NoDot)) == ListElement(text, pos, ")")
  {
    assert TokenEnd(text, pos) == pos + 1 && text[pos..pos + 1] == "(";
  }

  // ---- what cannot be rendered is misread ----

  // The text of such a tree, as a list element or on its own, is read as something else or not at all.
  ghost predicate ElementMisses(text: string, pos: nat, t: Obj) {
    && pos < |text| && SkipBlank(text, pos) == pos && IsElement(")", text[pos..TokenEnd(text, pos)])
    && Misses(ListElement(text, pos, ")"), t) && Misses(OneForm(text, pos), t)
  }

  lemma FormElementMisses(text: string, pos: nat, t: Obj)
    requires StartsElement(text, pos) && Misses(OneForm(text, pos), t)
    ensures ElementMisses(text, pos, t)
  {
  }

  // A chain of prefixes before something misread.
  lemma ChainIsMisread(quotes: seq<Quote>, order: seq<Quote>, body: Obj, s: string, text: string, pos: nat)
    requires At(text, pos, QuoteTexts(quotes) + s) && s != "" && CommaSafe(quotes, s) && |order| == |quotes|
    requires ElementMisses(text, pos + |QuoteTexts(quotes)|, body)
    ensures ElementMisses(text, pos, Wrap(order, body))
  {
    if quotes == [] {
      assert order == [];
    } else {
      AtSplit(text, pos, QuoteTexts(quotes), s);
      AtFirst(text, pos + |QuoteTexts(quotes)|, s);
      PrefixesAreMisread(quotes, order, body, text, pos, pos + |QuoteTexts(quotes)|);
    }
  }

  lemma PrefixesAreMisread(quotes: seq<Quote>, order: seq<Quote>, body: Obj, text: string, pos: nat, next: nat)
    requires quotes != [] && |order| == |quotes| && At(text, pos, QuoteTexts(quotes))
    requires next == pos + |QuoteTexts(quotes)| < |text| && Misses(OneForm(text, next), body)
    requires quotes[|quotes| - 1] == Unquote ==> text[next] != '@'
    ensures ElementMisses(text, pos, Wrap(order, body))
  {
    PrefixesStand(quotes, text, pos, next);
    PrefixesRead(quotes, text, pos, next);
    WrappedMisses(quotes, order, OneForm(text, next), body);
    FormElementMisses(text, pos, Wrap(order, body));
  }

  lemma CommaIsMisread(quotes: seq<Quote>, order: seq<Quote>, body: Obj, s: string, text: string, pos: nat)
    requires At(text, pos, QuoteTexts(quotes) + s) && s != "" && !CommaSafe(quotes, s)
    requires order == quotes || order == Reversed(quotes)
    ensures ElementMisses(text, pos, Wrap(order, body))
  {
    var k := |quotes| - 1;
    assert quotes == quotes[..k] + [Unquote];
    CommaMisses(quotes[..k], order, body, s, text, pos);
    FormElementMisses(text, pos, Wrap(order, body));
  }

  lemma AtomText(o: Obj, quotes: seq<Quote>)
    requires IsToken(o)
    ensures PrintAtom(o) != "" && Text(FlatNode(Atom(o, quotes))) == QuoteTexts(quotes) + PrintAtom(o)
  {
    ChainText(quotes, Leaf(AtomReread(o)));
  }

  lemma AtomIsMisread(n: Node, text: string, pos: nat, t: Obj)
    requires n.Atom? && Shaped(n) && TokenAtoms(n) && !Renderable(n) && Expected(n, t)
    requires At(text, pos, Text(FlatNode(n))) && Stops(text, pos + |Text(FlatNode(n))|)
    ensures ElementMisses(text, pos, t)
  {
    var order, body := ExpectedParts(n, t);
    AtomText(n.o, n.quotes);
    PrefixedAtomIsMisread(n.o, n.quotes, order, body, text, pos);
  }

  lemma PrefixedAtomIsMisread(o: Obj, quotes: seq<Quote>, order: seq<Quote>, body: Obj, text: string, pos: nat)
    requires IsToken(o) && !Renderable(Atom(o, quotes)) && (order == quotes || order == Reversed(quotes))
    requires body == o || body == AtomReread(o)
    requires PrintAtom(o) != "" && At(text, pos, QuoteTexts(quotes) + PrintAtom(o))
    requires Stops(text, pos + |QuoteTexts(quotes)| + |PrintAtom(o)|)
    ensures ElementMisses(text, pos, Wrap(order, body))
  {
    if CommaSafe(quotes, PrintAtom(o)) {
      UnreadableAtom(o, PrintAtom(o), quotes, order, text, pos);
    } else {
      CommaIsMisread(quotes, order, body, PrintAtom(o), text, pos);
    }
  }

  lemma UnreadableAtom(o: Obj, s: string, quotes: seq<Quote>, order: seq<Quote>, text: string, pos: nat)
    requires IsToken(o) && !o.Null? && !o.NoneObj? && !ReadableAtom(o) && s == PrintAtom(o) && s != ""
    requires |order| == |quotes| && CommaSafe(quotes, s)
    requires At(text, pos, QuoteTexts(quotes) + s) && Stops(text, pos + |QuoteTexts(quotes)| + |s|)
    ensures ElementMisses(text, pos, Wrap(order, o))
  {
    var next := pos + |QuoteTexts(quotes)|;
    AtSplit(text, pos, QuoteTexts(quotes), s);
    LeafIsMisread(o, s, text, next);
    ChainIsMisread(quotes, order, o, s, text, pos);
  }

  lemma LeafIsMisread(o: Obj, s: string, text: string, pos: nat)
    requires IsToken(o) && !o.Null? && !o.NoneObj? && !ReadableAtom(o) && s == PrintAtom(o)
    requires At(text, pos, s) && Stops(text, pos + |s|)
    ensures ElementMisses(text, pos, o)
  {
    LeafMisses(text, pos, o);
    FormElementMisses(text, pos, o);
  }

  lemma {:induction false} TreeIsMisread(n: Node, f: Form, text: string, pos: nat, t: Obj)
    requires Shaped(n) && TokenAtoms(n) && !Renderable(n) && Expected(n, t) && Spaced(f, FlatNode(n))
    requires At(text, pos, Text(f)) && Stops(text, pos + |Text(f)|)
    ensures ElementMisses(text, pos, t)
    decreases n, 1
  {
    match n
    case Atom(o, quotes) =>
      var core := SpacedParts(quotes, f, Leaf(AtomReread(o)));
      AtomIsMisread(n, text, pos, t);
    case Branch(children, proper, quotes) =>
      var order, body := ExpectedParts(n, t);
      var core := SpacedParts(quotes, f, List(FlatList(children, proper, "")));
      ChainText(quotes, core);
      PrefixedListIsMisread(children, proper, core, quotes, order, text, pos, body);
  }

  lemma {:induction false} PrefixedListIsMisread(children: seq<Node>, proper: bool, core: Form, quotes: seq<Quote>,
                                                 order: seq<Quote>, text: string, pos: nat, body: Obj)
    requires !proper ==> |children| >= 2
    requires forall i :: 0 <= i < |children| ==> Shaped(children[i]) && TokenAtoms(children[i])
    requires exists i :: 0 <= i < |children| && !Renderable(children[i])
    requires ExpectedList(children, proper, "", body) && Spaced(core, List(FlatList(children, proper, "")))
    requires |order| == |quotes| && At(text, pos, QuoteTexts(quotes) + Text(core))
    ensures ElementMisses(text, pos, Wrap(order, body))
    decreases children, 5
  {
    AtSplit(text, pos, QuoteTexts(quotes), Text(core));
    ListIsMisread(children, proper, core, text, pos + |QuoteTexts(quotes)|, body);
    ChainIsMisread(quotes, order, body, Text(core), text, pos);
  }

  lemma {:induction false} ListIsMisread(children: seq<Node>, proper: bool, core: Form, text: string, pos: nat, body: Obj)
    requires !proper ==> |children| >= 2
    requires forall i :: 0 <= i < |children| ==> Shaped(children[i]) && TokenAtoms(children[i])
    requires exists i :: 0 <= i < |children| && !Renderable(children[i])
    requires ExpectedList(children, proper, "", body) && Spaced(core, List(FlatList(children, proper, "")))
    requires At(text, pos, Text(core))
    ensures ElementMisses(text, pos, body) && Text(core) != "" && Text(core)[0] == '('
    decreases children, 4
  {
    AtSplit(text, pos, "(", TailText(core.tail));
    AtFirst(text, pos, "(");
    ListIsLoop(text, pos);
    TailIsMisread(children, proper, core.tail, "", text, pos + 1, [], body);
  }

  // The loop over the rest of a list does not come to items + t.
  ghost predicate LoopMisses(r: Read, items: seq<Obj>, t: Obj) {
    Misses(r, BuildList(items, t))
  }

  // An element other than the expected one, read after blanks, stays where it is.
  lemma ElementStays(text: string, pos: nat, ws: string, items: seq<Obj>, t: Obj, x: Obj, end: nat)
    requires Blanks(ws) && At(text, pos, ws)
    requires pos + |ws| < |text| && SkipBlank(text, pos + |ws|) == pos + |ws|
    requires Gives(ListElement(text, pos + |ws|, ")"), x, end)
    requires IsElement(")", text[pos + |ws|..TokenEnd(text, pos + |ws|)])
    requires !t.Pair? || t.car != x
    ensures LoopMisses(ListLoop(text, pos, Going(items, NoDot)), items, t)
  {
    ItemRound(text, pos, ws, items, NoDot, x, end);
    ItemsStay(text, end, items + [x], NoDot);
    BuiltStartsWith(items, x, t);
  }

  lemma FailedElement(text: string, pos: nat, ws: string, items: seq<Obj>, dotted: Dotted)
    requires Blanks(ws) && At(text, pos, ws)
    requires pos + |ws| < |text| && SkipBlank(text, pos + |ws|) == pos + |ws|
    requires ListElement(text, pos + |ws|, ")").Failed?
    ensures ListLoop(text, pos, Going(items, dotted)).Failed?
  {
    SkipsBlanks(text, pos, ws);
    OneRound(text, pos, ")", items, dotted);
  }

  // The first element is misread.
  lemma {:induction false} HeadIsMisread(n: Node, f: Form, ws: string, text: string, pos: nat, items: seq<Obj>, t: Obj)
    requires Shaped(n) && TokenAtoms(n) && !Renderable(n) && t.Pair? && Expected(n, t.car) && Spaced(f, FlatNode(n))
    requires Blanks(ws) && At(text, pos, ws) && At(text, pos + |ws|, Text(f)) && Stops(text, pos + |ws| + |Text(f)|)
    ensures LoopMisses(ListLoop(text, pos, Going(items, NoDot)), items, t)
    decreases n, 2
  {
    var p := pos + |ws|;
    TreeIsMisread(n, f, text, p, t.car);
    var element := ListElement(text, p, ")");
    if element.Failed? {
      FailedElement(text, pos, ws, items, NoDot);
    } else {
      ElementStays(text, pos, ws, items, t, element.obj, element.end);
    }
  }

  // The first element is read for what it is, and what follows is misread.
  lemma LaterIsMisread(f: Form, ws: string, text: string, pos: nat, items: seq<Obj>, t: Obj)
    requires WellFormed(f) && t.Pair?
    requires Blanks(ws) && At(text, pos, ws) && At(text, pos + |ws|, Text(f)) && Stops(text, pos + |ws| + |Text(f)|)
    requires LoopMisses(ListLoop(text, pos + |ws| + |Text(f)|, Going(items + [Value(f)], NoDot)), items + [Value(f)], t.cdr)
    ensures LoopMisses(ListLoop(text, pos, Going(items, NoDot)), items, t)
  {
    var p := pos + |ws|;
    var end := p + |Text(f)|;
    ReadsElement(f, text, p);
    if t.car == Value(f) {
      ItemRound(text, pos, ws, items, NoDot, Value(f), end);
      BuildListSnoc(items, Value(f), t.cdr);
    } else {
      ElementStays(text, pos, ws, items, t, Value(f), end);
    }
  }

  lemma RenderableReads(n: Node, f: Form)
    requires Shaped(n) && Renderable(n) && Spaced(f, FlatNode(n))
    ensures WellFormed(f)
  {
    RenderableIsWellFormed(n);
    SpacedIsWellFormed(f, FlatNode(n));
  }

  lemma LaterUnrenderable(children: seq<Node>)
    requires exists i :: 0 <= i < |children| && !Renderable(children[i])
    requires children != [] && Renderable(children[0])
    ensures exists i :: 0 <= i < |children| - 1 && !Renderable(children[1..][i])
  {
    var k :| 0 <= k < |children| && !Renderable(children[k]);
    assert children[1..][k - 1] == children[k];
  }

  lemma {:induction false} ItemIsMisread(children: seq<Node>, proper: bool, u: Tail, ws: string, text: string, pos: nat,
                                         items: seq<Obj>, t: Obj)
    requires children != [] && (|children| > 1 || proper)
    requires forall i :: 0 <= i < |children| ==> Shaped(children[i]) && TokenAtoms(children[i])
    requires exists i :: 0 <= i < |children| && !Renderable(children[i])
    requires ExpectedList(children, proper, ws, t)
    requires SpacedTail(u, FlatList(children, proper, ws), items == []) && At(text, pos, TailText(u))
    ensures LoopMisses(ListLoop(text, pos, Going(items, NoDot)), items, t)
    decreases children, 1
  {
    assert Apart(u.rest, false);
    ItemParts(u, text, pos);
    if Renderable(children[0]) {
      OthersAreMisread(children, proper, u.f, u.rest, u.ws, text, pos, items, t);
    } else {
      HeadIsMisread(children[0], u.f, u.ws, text, pos, items, t);
    }
  }

  lemma {:induction false} OthersAreMisread(children: seq<Node>, proper: bool, f: Form, rest: Tail, ws: string, text: string,
                                            pos: nat, items: seq<Obj>, t: Obj)
    requires children != [] && (|children| > 1 || proper) && Renderable(children[0])
    requires forall i :: 0 <= i < |children| ==> Shaped(children[i]) && TokenAtoms(children[i])
    requires exists i :: 0 <= i < |children| && !Renderable(children[i])
    requires t.Pair? && ExpectedList(children[1..], proper, " ", t.cdr)
    requires Spaced(f, FlatNode(children[0])) && SpacedTail(rest, FlatList(children[1..], proper, " "), false)
    requires Blanks(ws) && At(text, pos, ws) && At(text, pos + |ws|, Text(f)) && Stops(text, pos + |ws| + |Text(f)|)
    requires At(text, pos + |ws| + |Text(f)|, TailText(rest))
    ensures LoopMisses(ListLoop(text, pos, Going(items, NoDot)), items, t)
    decreases children, 0
  {
    RenderableReads(children[0], f);
    LaterUnrenderable(children);
    TailIsMisread(children[1..], proper, rest, " ", text, pos + |ws| + |Text(f)|, items + [Value(f)], t.cdr);
    LaterIsMisread(f, ws, text, pos, items, t);
  }

  // The object after a dot is misread.
  lemma {:induction false} EndIsMisread(last: Node, u: Tail, ws: string, text: string, pos: nat, items: seq<Obj>, t: Obj)
    requires Shaped(last) && TokenAtoms(last) && !Renderable(last) && Expected(last, t)
    requires SpacedTail(u, DotItem(ws, " ", FlatNode(last), ""), items == []) && At(text, pos, TailText(u))
    ensures LoopMisses(ListLoop(text, pos, Going(items, NoDot)), items, t)
    decreases last, 3
  {
    var after := pos + |u.ws| + 1;
    ReadsDot(u, text, pos, items);
    DottedParts(u, text, after);
    AfterDotIsMisread(last, u.f, u.wsAfterDot, text, after, items, t);
  }

  lemma {:induction false} AfterDotIsMisread(last: Node, f: Form, ws: string, text: string, pos: nat, items: seq<Obj>, t: Obj)
    requires Shaped(last) && TokenAtoms(last) && !Renderable(last) && Expected(last, t) && Spaced(f, FlatNode(last))
    requires Blanks(ws) && At(text, pos, ws) && At(text, pos + |ws|, Text(f)) && Stops(text, pos + |ws| + |Text(f)|)
    ensures LoopMisses(ListLoop(text, pos, Going(items, Dot)), items, t)
    decreases last, 2
  {
    TreeIsMisread(last, f, text, pos + |ws|, t);
    DottedEndIsMisread(ws, text, pos, items, t);
  }

  lemma DottedEndIsMisread(ws: string, text: string, pos: nat, items: seq<Obj>, t: Obj)
    requires Blanks(ws) && At(text, pos, ws) && ElementMisses(text, pos + |ws|, t)
    ensures LoopMisses(ListLoop(text, pos, Going(items, Dot)), items, t)
  {
    var element := ListElement(text, pos + |ws|, ")");
    if element.Failed? {
      FailedElement(text, pos, ws, items, Dot);
    } else {
      ItemRound(text, pos, ws, items, Dot, element.obj, element.end);
      DottedEndStays(text, element.end, items, element.obj);
      BuildListIsInjective(items, element.obj, t);
    }
  }

  lemma {:induction false} TailIsMisread(children: seq<Node>, proper: bool, u: Tail, ws: string, text: string, pos: nat,
                                         items: seq<Obj>, t: Obj)
    requires forall i :: 0 <= i < |children| ==> Shaped(children[i]) && TokenAtoms(children[i])
    requires exists i :: 0 <= i < |children| && !Renderable(children[i])
    requires !proper && items == [] ==> |children| >= 2
    requires ExpectedList(children, proper, ws, t)
    requires SpacedTail(u, FlatList(children, proper, ws), items == []) && At(text, pos, TailText(u))
    ensures LoopMisses(ListLoop(text, pos, Going(items, NoDot)), items, t)
    decreases children, 3
  {
    if |children| == 1 && !proper {
      EndIsMisread(children[0], u, ws, text, pos, items, t);
    } else {
      ItemIsMisread(children, proper, u, ws, text, pos, items, t);
    }
  }

  // ---- whole texts ----

  // Every atom of the object is written as one token or string literal.
  predicate AtomsAreTokens(o: Obj) {
    if o.Pair? then AtomsAreTokens(o.car) && AtomsAreTokens(o.cdr) else IsToken(o)
  }

  lemma {:induction false} RenderableHasTokens(n: Node)
    requires Renderable(n)
    ensures TokenAtoms(n)
    decreases n
  {
    if n.Branch? {
      forall i | 0 <= i < |n.children|
        ensures TokenAtoms(n.children[i])
      {
        RenderableHasTokens(n.children[i]);
      }
    }
  }

  // A layout of a tree reads as what it spells exactly when the tree can be rendered, and as the
  // object the tree was made from exactly when, besides, its prefixes are symmetric.
  lemma LayoutReadsBack(n: Node, f: Form)
    requires Shaped(n) && TokenAtoms(n) && Spaced(f, FlatNode(n))
    ensures Gives(OneForm(Text(f), 0), Value(FlatNode(n)), |Text(f)|) <==> Renderable(n)
    ensures Gives(OneForm(Text(f), 0), Original(n), |Text(f)|) <==> Renderable(n) && Symmetric(n)
  {
    if Renderable(n) {
      RenderableReads(n, f);
      SpacedValue(f, FlatNode(n));
      WholeFormReads(f, Text(f));
      ValueIsOriginal(n);
    } else {
      TreeIsMisread(n, f, Text(f), 0, Value(FlatNode(n)));
      TreeIsMisread(n, f, Text(f), 0, Original(n));
    }
  }

  // ---- printed objects ----

  /** The tree of an object without quote prefixes: what the plain printer writes. */
  function PlainNode(o: Obj): Node
    decreases o, 1
  {
    if o.Pair? then Branch(PlainNodes(o), EndsInNull(o), []) else Atom(o, [])
  }

  function PlainNodes(o: Obj): seq<Node>
    requires o.Pair?
    decreases o, 0
  {
    [PlainNode(o.car)] +
    if o.cdr.Null? then [] else if o.cdr.Pair? then PlainNodes(o.cdr) else [Atom(o.cdr, [])]
  }

  lemma {:induction false} PlainNodeIsPrinted(o: Obj)
    ensures FlatNode(PlainNode(o)) == FlatForm(o) && Original(PlainNode(o)) == o
    ensures Shaped(PlainNode(o)) && (AtomsAreTokens(o) ==> TokenAtoms(PlainNode(o)))
    decreases o, 1
  {
    if o.Pair? {
      PlainNodesArePrinted(o, "");
      PlainNodesAreShaped(o);
    } else {
      assert Wrap([], o) == o;
    }
  }

  lemma {:induction false} PlainNodesArePrinted(o: Obj, ws: string)
    requires o.Pair?
    ensures FlatList(PlainNodes(o), EndsInNull(o), ws) == Item(ws, FlatForm(o.car), FlatTail(o.cdr))
    ensures OriginalList(PlainNodes(o), EndsInNull(o)) == o
    decreases o, 0
  {
    PlainNodeIsPrinted(o.car);
    var nodes := PlainNodes(o);
    if o.cdr.Pair? {
      assert nodes[1..] == PlainNodes(o.cdr);
      PlainNodesArePrinted(o.cdr, " ");
    } else if o.cdr.Null? {
      assert nodes[1..] == [];
    } else {
      PlainNodeIsPrinted(o.cdr);
      assert nodes[1..] == [PlainNode(o.cdr)];
      assert FlatList([PlainNode(o.cdr)], false, " ") == FlatTail(o.cdr);
      assert OriginalList([PlainNode(o.cdr)], false) == o.cdr;
    }
  }

  lemma {:induction false} PlainNodesAreShaped(o: Obj)
    requires o.Pair?
    ensures |PlainNodes(o)| >= (if EndsInNull(o) then 1 else 2)
    ensures forall n :: n in PlainNodes(o) ==> Shaped(n) && (AtomsAreTokens(o) ==> TokenAtoms(n))
    decreases o, 0
  {
    PlainNodeIsPrinted(o.car);
    if o.cdr.Pair? {
      PlainNodesAreShaped(o.cdr);
    } else if !o.cdr.Null? {
      PlainNodeIsPrinted(o.cdr);
    }
  }

  // Reading printed text, whatever its atoms: what the text spells comes back exactly when every
  // atom is readable, and the object itself exactly when, besides, nothing in it printed as a name.
  lemma PrintedTextReadsBackExactly(o: Obj)
    requires AtomsAreTokens(o)
    ensures Gives(ReadSingleForm(Print(o), 0), Reread(o), |Print(o)|) <==> AtomsReadable(o)
    ensures Gives(ReadSingleForm(Print(o), 0), o, |Print(o)|) <==> AtomsReadable(o) && Faithful(o)
  {
    var n := PlainNode(o);
    PlainNodeIsPrinted(o);
    FlatFormIsPrint(o);
    FlatFormIsSpaced(o);
    LayoutReadsBack(n, FlatForm(o));
    PlainConditions(o);
    FlatFormValue(o);
  }

  lemma PlainConditions(o: Obj)
    ensures Renderable(PlainNode(o)) <==> AtomsReadable(o)
    ensures Symmetric(PlainNode(o)) <==> Faithful(o)
  {
    PlainNodeIsPrinted(o);
    RenderableIsWellFormed(PlainNode(o));
    FlatFormIsWellFormed(o);
    ValueIsOriginal(PlainNode(o));
    FlatFormValue(o);
    RereadIsSame(o);
  }

  lemma {:induction false} FlatFormIsSpaced(o: Obj)
    ensures Spaced(FlatForm(o), FlatForm(o)) && SpacedTail(FlatTail(o), FlatTail(o), false)
  {
    if o.Pair? {
      FlatFormIsSpaced(o.car);
      FlatFormIsSpaced(o.cdr);
    }
  }

  // ---- pretty-printed objects ----

  lemma QuoteNamesAreReadable(name: string)
    requires QuoteOf(name).Some?
    ensures ReadableSymbol(name)
  {
    QuoteNameLetters(name);
    LettersAndHyphens(name);
  }

  lemma LettersAndHyphens(name: string)
    requires |name| >= 5 && 'a' <= name[0] <= 'z'
    requires forall i :: 0 <= i < |name| ==> 'a' <= name[i] <= 'z' || name[i] == '-'
    ensures ReadableSymbol(name)
  {
    assert name[0] in name;
    assert !LooksLikeInteger(name) && !LooksLikeFloat(name);
  }

  lemma QuoteNameLetters(name: string)
    requires QuoteOf(name).Some?
    ensures |name| >= 5 && 'a' <= name[0] <= 'z'
    ensures forall i :: 0 <= i < |name| ==> 'a' <= name[i] <= 'z' || name[i] == '-'
  {
  }

  lemma {:induction false} ToNodeHasTokens(o: Obj)
    ensures AtomsAreTokens(o) <==> TokenAtoms(ToNode(o))
    decreases o, 1
  {
    if IsQuoteForm(o) {
      QuoteNamesAreReadable(o.car.name);
      ToNodeHasTokens(o.cdr.car);
      QuotesHoldNoAtoms(ToNode(o.cdr.car), ToNode(o).quotes);
      assert AtomsAreTokens(o.cdr) == AtomsAreTokens(o.cdr.car);
    } else if o.Pair? {
      ToNodesHaveTokens(o);
      assert forall i :: 0 <= i < |ToNodes(o)| ==> ToNodes(o)[i] in ToNodes(o);
    }
  }

  lemma QuotesHoldNoAtoms(n: Node, quotes: seq<Quote>)
    ensures TokenAtoms(n.(quotes := quotes)) <==> TokenAtoms(n)
  {
  }

  lemma {:induction false} ToNodesHaveTokens(o: Obj)
    requires o.Pair?
    ensures AtomsAreTokens(o) <==> forall n :: n in ToNodes(o) ==> TokenAtoms(n)
    decreases o, 0
  {
    ToNodeHasTokens(o.car);
    var rest := ToNodes(o)[1..];
    assert ToNodes(o) == [ToNode(o.car)] + rest;
    if o.cdr.Pair? {
      assert rest == ToNodes(o.cdr);
      ToNodesHaveTokens(o.cdr);
    } else if o.cdr.Null? {
      assert rest == [] && AtomsAreTokens(o.cdr);
    } else {
      assert rest == [Atom(o.cdr, [])] && Atom(o.cdr, []) in rest;
    }
    assert ToNode(o.car) in ToNodes(o) && forall n :: n in rest ==> n in ToNodes(o);
  }

  // The same for any layout of an object by the pretty printer.
  lemma LaidOutTextReadsBack(f: Form, o: Obj)
    requires AtomsAreTokens(o) && Spaced(f, FlatNode(ToNode(o)))
    ensures Gives(ReadSingleForm(Text(f), 0), Value(FlatNode(ToNode(o))), |Text(f)|) <==> Renderable(ToNode(o))
    ensures Gives(ReadSingleForm(Text(f), 0), o, |Text(f)|) <==> Renderable(ToNode(o)) && Symmetric(ToNode(o))
  {
    ToNodeIsShaped(o);
    ToNodeHasTokens(o);
    ToNodeKeepsObject(o);
    LayoutReadsBack(ToNode(o), f);
  }

  // Objects that can be rendered are among those the statement is about.
  lemma RenderableAtomsAreTokens(o: Obj)
    requires Renderable(ToNode(o))
    ensures AtomsAreTokens(o)
  {
    RenderableHasTokens(ToNode(o));
    ToNodeHasTokens(o);
  }
}
