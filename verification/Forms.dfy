/** Concrete syntax: what a program text looks like, whitespace included, and which object it spells.

    A form fixes every character of a text.  Reading the text of a form gives the object of the
    form, wherever the whitespace is; whatever prints objects only has to print some form of them.
 */
module Forms {
  import opened Options
  import opened Objects
  import opened Tokens
  import opened Reading

  datatype Quote = Quote | Quasiquote | Unquote | UnquoteSplicing

  datatype Form =
    | Leaf(o: Obj)
    | List(tail: Tail)
    | Quoted(q: Quote, f: Form)

  /** What follows the opening parenthesis, or an element, of a list. */
  datatype Tail =
    | Close(ws: string)
    | Item(ws: string, f: Form, rest: Tail)
    | DotItem(ws: string, wsAfterDot: string, f: Form, wsBeforeClose: string)

  function QuoteText(q: Quote): string {
    match q
    case Quote => "'"
    case Quasiquote => "`"
    case Unquote => ","
    case UnquoteSplicing => ",@"
  }

  function QuoteName(q: Quote): string {
    match q
    case Quote => "quote"
    case Quasiquote => "quasiquote"
    case Unquote => "unquote"
    case UnquoteSplicing => "unquote-splicing"
  }

  function Text(f: Form): string {
    match f
    case Leaf(o) => if o.Pair? then "" else PrintAtom(o)
    case List(tail) => "(" + TailText(tail)
    case Quoted(q, f) => QuoteText(q) + Text(f)
  }

  function TailText(t: Tail): string {
    match t
    case Close(ws) => ws + ")"
    case Item(ws, f, rest) => ws + (Text(f) + TailText(rest))
    case DotItem(ws, wsAfterDot, f, wsBeforeClose) => ws + ("." + (wsAfterDot + (Text(f) + (wsBeforeClose + ")"))))
  }

  function QuotedObj(q: Quote, o: Obj): Obj {
    Pair(Sym(QuoteName(q)), Pair(o, Null))
  }

  function Value(f: Form): Obj {
    match f
    case Leaf(o) => o
    case List(tail) => TailValue(tail)
    case Quoted(q, f) => QuotedObj(q, Value(f))
  }

  function TailValue(t: Tail): Obj {
    match t
    case Close(_) => Null
    case Item(_, f, rest) => Pair(Value(f), TailValue(rest))
    case DotItem(_, _, f, _) => Value(f)
  }

  predicate Blanks(ws: string) {
    forall i :: 0 <= i < |ws| ==> IsBlank(ws[i])
  }

  // A character that neither ends a token nor begins one of another kind.
  predicate IsPlain(c: char) {
    IsSymbolChar(c) && c != ',' && c != ';'
  }

  // The name, followed by a blank or a parenthesis, is one token and denotes the symbol itself.
  predicate ReadableSymbol(name: string) {
    && name != "" && name != "." && name != "#\\"
    && (forall i :: 0 <= i < |name| ==> IsPlain(name[i]))
    && TokenObject(name) == Got(Sym(name))
  }

  predicate ReadableAtom(o: Obj) {
    match o
    case Int(i) => INT64_MIN <= i <= INT64_MAX
    case Char(c) => IsPrintable(c) && c != ' '
    case Str(data) => forall i :: 0 <= i < |data| ==> data[i] != '"' && data[i] != '\\'
    case Sym(name) => ReadableSymbol(name)
    case _ => false
  }

  predicate WellFormed(f: Form) {
    match f
    case Leaf(o) => ReadableAtom(o)
    case List(tail) => WellFormedTail(tail, true)
    case Quoted(q, f) => WellFormed(f) && (q == Unquote ==> Text(f) != "" && Text(f)[0] != '@')
  }

  // Elements are kept apart by at least one blank.
  predicate WellFormedTail(t: Tail, first: bool) {
    match t
    case Close(ws) => Blanks(ws)
    case Item(ws, f, rest) => Blanks(ws) && (first || ws != "") && WellFormed(f) && WellFormedTail(rest, false)
    case DotItem(ws, wsAfterDot, f, wsBeforeClose) =>
      !first && Blanks(ws) && ws != "" && Blanks(wsAfterDot) && wsAfterDot != "" && WellFormed(f) && Blanks(wsBeforeClose)
  }

  // What stands next in a list is kept apart from what comes before it.
  predicate Apart(t: Tail, first: bool) {
    match t
    case Close(ws) => Blanks(ws)
    case Item(ws, _, _) => Blanks(ws) && (first || ws != "")
    case DotItem(ws, wsAfterDot, _, wsBeforeClose) =>
      !first && Blanks(ws) && ws != "" && Blanks(wsAfterDot) && wsAfterDot != "" && Blanks(wsBeforeClose)
  }

  // ---- texts that contain a form ----

  // The characters of s stand in text from pos on.
  ghost predicate At(text: string, pos: nat, s: string) {
    pos + |s| <= |text| && forall i :: 0 <= i < |s| ==> text[pos + i] == s[i]
  }

  // A token cannot go on at pos.
  ghost predicate Stops(text: string, pos: nat) {
    pos <= |text| && (pos < |text| ==> text[pos] == ')' || IsBlank(text[pos]))
  }

  lemma AtSplit(text: string, pos: nat, a: string, b: string)
    requires At(text, pos, a + b)
    ensures At(text, pos, a) && At(text, pos + |a|, b)
  {
    forall i | 0 <= i < |a|
      ensures text[pos + i] == a[i]
    {
      assert (a + b)[i] == a[i];
    }
    forall i | 0 <= i < |b|
      ensures text[pos + |a| + i] == b[i]
    {
      assert (a + b)[|a| + i] == b[i];
    }
  }

  lemma AtFirst(text: string, pos: nat, s: string)
    requires At(text, pos, s) && s != ""
    ensures pos < |text| && text[pos] == s[0]
  {
    assert text[pos + 0] == s[0];
  }

  lemma AtIsSlice(text: string, pos: nat, s: string)
    requires At(text, pos, s)
    ensures text[pos..pos + |s|] == s
  {
  }

  lemma {:induction false} SkipsBlanks(text: string, pos: nat, ws: string)
    requires At(text, pos, ws) && Blanks(ws)
    ensures SkipBlank(text, pos) == SkipBlank(text, pos + |ws|)
    decreases ws
  {
    if ws != "" {
      assert text[pos + 0] == ws[0];
      forall i | 0 <= i < |ws[1..]|
        ensures text[pos + 1 + i] == ws[1..][i]
      {
        assert text[pos + (i + 1)] == ws[i + 1];
      }
      SkipsBlanks(text, pos + 1, ws[1..]);
    }
  }

  lemma {:induction false} ScansPlain(text: string, pos: nat, end: nat)
    requires pos <= end && Stops(text, end)
    requires forall i :: pos <= i < end ==> IsPlain(text[i])
    ensures ScanToken(text, pos) == end && ScanCharToken(text, pos) == end
    decreases end - pos
  {
    if pos < end {
      ScansPlain(text, pos + 1, end);
    }
  }

  // ---- atoms ----

  lemma PlainToken(text: string, pos: nat, s: string)
    requires At(text, pos, s) && Stops(text, pos + |s|)
    requires s != "" && s != "#\\" && forall i :: 0 <= i < |s| ==> IsPlain(s[i])
    ensures TokenEnd(text, pos) == pos + |s| && text[pos..pos + |s|] == s && SkipBlank(text, pos) == pos
  {
    AtIsSlice(text, pos, s);
    var end := pos + |s|;
    forall i | pos <= i < end
      ensures IsPlain(text[i])
    {
      assert text[pos + (i - pos)] == s[i - pos];
    }
    ScansPlain(text, pos + 1, end);
    if |s| >= 3 {
      ScansPlain(text, pos + 3, end);
    } else if |s| == 2 {
      assert s == [text[pos], text[pos + 1]];
    }
  }

  lemma DigitsArePlain(i: int)
    ensures var s := PrintInt(i); s != "" && s != "#\\" && s != "." && forall k :: 0 <= k < |s| ==> IsPlain(s[k])
  {
    var s := PrintInt(i);
    var digits := Decimal(if i < 0 then -i else i);
    forall k | 0 <= k < |s|
      ensures IsPlain(s[k]) && s[k] != '.' && s[k] != '#'
    {
      assert s[k] == '-' || s[k] in digits;
    }
    assert s[0] != '.' && s[0] != '#';
  }

  lemma IntToken(i: int)
    requires INT64_MIN <= i <= INT64_MAX
    ensures TokenObject(PrintInt(i)) == Got(Int(i))
  {
    var s := PrintInt(i);
    var digits := Decimal(if i < 0 then -i else i);
    ParseUndoesDecimal(if i < 0 then -i else i);
    forall k | 1 <= k < |s|
      ensures IsDigit(s[k])
    {
      assert s[k] in digits;
    }
    if i < 0 {
      assert s[1..] == digits;
    } else {
      assert s[0] in digits;
    }
    assert LooksLikeInteger(s);
    assert IntegerValue(s) == i;
  }

  lemma {:induction false} ReadsStringBody(text: string, pos: nat, data: string)
    requires At(text, pos, data) && pos + |data| < |text| && text[pos + |data|] == '"'
    requires forall i :: 0 <= i < |data| ==> data[i] != '"' && data[i] != '\\'
    ensures ReadString(text, pos) == Some((data, pos + |data| + 1))
    decreases data
  {
    if data != "" {
      assert text[pos + 0] == data[0];
      forall i | 0 <= i < |data[1..]|
        ensures text[pos + 1 + i] == data[1..][i]
      {
        assert text[pos + (i + 1)] == data[i + 1];
      }
      ReadsStringBody(text, pos + 1, data[1..]);
      assert [data[0]] + data[1..] == data;
    }
  }

  /** The reader got o and stopped at end. */
  ghost predicate Gives(r: Read, o: Obj, end: nat) {
    r.Ok? && r.obj == o && r.end == end
  }

  // Reading one form at pos.
  ghost function OneForm(text: string, pos: nat): Read
    requires pos <= |text|
  {
    ReadSingleForm(text, pos)
  }

  // The token at pos starts a list element that is not a list.
  ghost predicate StartsElement(text: string, pos: nat) {
    && pos < |text| && SkipBlank(text, pos) == pos
    && var tok := text[pos..TokenEnd(text, pos)];
    tok != ")" && tok != "." && tok != "(" && tok != "["
  }

  lemma ReadsAtomToken(text: string, pos: nat, s: string)
    requires pos < |text| && SkipBlank(text, pos) == pos && text[pos..TokenEnd(text, pos)] == s
    requires s != "" && IsPlain(s[0]) && s != "."
    ensures StartsElement(text, pos) && OneForm(text, pos) == ReadAtom(text, s, TokenEnd(text, pos))
  {
    assert !IsPrefixMacro(s);
  }

  lemma ReadsPlainAtom(text: string, pos: nat, s: string, o: Obj)
    requires At(text, pos, s) && Stops(text, pos + |s|)
    requires s != "" && s != "." && s != "#\\" && forall i :: 0 <= i < |s| ==> IsPlain(s[i])
    requires TokenObject(s) == Got(o)
    ensures StartsElement(text, pos) && Gives(OneForm(text, pos), o, pos + |s|)
  {
    PlainToken(text, pos, s);
    assert IsPlain(s[0]);
    ReadsAtomToken(text, pos, s);
  }

  lemma ReadsChar(text: string, pos: nat, c: char)
    requires IsPrintable(c) && c != ' ' && At(text, pos, "#\\" + [c]) && Stops(text, pos + 3)
    ensures StartsElement(text, pos) && Gives(OneForm(text, pos), Char(c), pos + 3)
  {
    var s := "#\\" + [c];
    AtIsSlice(text, pos, s);
    assert s[0] == '#' && s[1] == '\\' && s[2] == c;
    assert text[pos + 0] == s[0] && text[pos + 1] == s[1] && text[pos + 2] == s[2];
    assert ScanCharToken(text, pos + 3) == pos + 3;
    CharToken(s);
  }

  lemma CharToken(s: string)
    requires |s| == 3 && s[0] == '#' && s[1] == '\\' && IsPrintable(s[2]) && s[2] != ' '
    ensures TokenObject(s) == Got(Char(s[2]))
  {
    assert s[0] in s && !IsDigit(s[0]) && s[0] != '.' && s[0] != '-';
    assert CharObject(s) == Some(Char(s[2]));
  }

  lemma ReadsStr(text: string, pos: nat, data: string)
    requires At(text, pos, "\"" + data + "\"")
    requires forall i :: 0 <= i < |data| ==> data[i] != '"' && data[i] != '\\'
    ensures StartsElement(text, pos) && Gives(OneForm(text, pos), Str(data), pos + |data| + 2)
  {
    AtSplit(text, pos, "\"" + data, "\"");
    AtSplit(text, pos, "\"", data);
    AtFirst(text, pos, "\"");
    AtFirst(text, pos + 1 + |data|, "\"");
    ReadsStringBody(text, pos + 1, data);
    assert text[pos..pos + 1] == "\"";
  }

  lemma ReadsLeaf(text: string, pos: nat, o: Obj)
    requires ReadableAtom(o) && At(text, pos, PrintAtom(o)) && Stops(text, pos + |PrintAtom(o)|)
    ensures StartsElement(text, pos) && Gives(OneForm(text, pos), o, pos + |PrintAtom(o)|)
  {
    match o
    case Int(i) =>
      DigitsArePlain(i);
      IntToken(i);
      ReadsPlainAtom(text, pos, PrintInt(i), o);
    case Char(c) =>
      ReadsChar(text, pos, c);
    case Str(data) =>
      ReadsStr(text, pos, data);
    case Sym(name) =>
      ReadsPlainAtom(text, pos, name, o);
  }

  // ---- forms ----

  // The loop over the elements of a list in round parentheses.
  ghost function ListLoop(text: string, pos: nat, round: Round): Read
    requires pos <= |text|
  {
    ReadList(text, pos, ")", round)
  }

  lemma LoopRound(text: string, pos: nat, p: nat, items: seq<Obj>, dotted: Dotted)
    requires pos <= |text| && p == SkipBlank(text, pos) < |text| && SkipBlank(text, p) == p
    requires ListElement(text, p, ")").Ok?
    ensures ListLoop(text, pos, Going(items, dotted))
         == ListLoop(text, ListElement(text, p, ")").end, ListRound(text, p, ")", items, dotted))
  {
    OneRound(text, pos, ")", items, dotted);
  }

  // The prefix stands at pos, and is not the beginning of another one.
  ghost predicate PrefixAt(q: Quote, text: string, pos: nat) {
    var next := pos + |QuoteText(q)|;
    At(text, pos, QuoteText(q)) && (q == Unquote ==> next < |text| && text[next] != '@')
  }

  // Where the token of a quote prefix ends, and what it is.
  lemma QuoteToken(text: string, pos: nat, q: Quote)
    requires PrefixAt(q, text, pos)
    ensures StartsElement(text, pos) && TokenEnd(text, pos) == pos + |QuoteText(q)|
    ensures text[pos..pos + |QuoteText(q)|] == QuoteText(q)
    ensures IsPrefixMacro(QuoteText(q)) && MacroName(QuoteText(q)) == QuoteName(q)
  {
    AtIsSlice(text, pos, QuoteText(q));
    AtFirst(text, pos, QuoteText(q));
    if q == UnquoteSplicing {
      assert text[pos + 1] == '@';
    }
  }

  lemma TailStops(t: Tail, text: string, pos: nat)
    requires Apart(t, false) && At(text, pos, TailText(t))
    ensures Stops(text, pos)
  {
    AtFirst(text, pos, TailText(t));
  }

  /** The object read, with the prefix before it. */
  function Prefixed(q: Quote, r: Read): Read {
    match r
    case Failed => Failed
    case Ok(o, end) => Ok(QuotedObj(q, o), end)
  }

  lemma ReadsPrefix(text: string, pos: nat, q: Quote, next: nat)
    requires PrefixAt(q, text, pos) && next == pos + |QuoteText(q)|
    ensures StartsElement(text, pos) && OneForm(text, pos) == Prefixed(q, OneForm(text, next))
  {
    QuoteToken(text, pos, q);
  }

  lemma ReadsQuoted(text: string, pos: nat, q: Quote, next: nat, o: Obj, end: nat)
    requires PrefixAt(q, text, pos) && next == pos + |QuoteText(q)| && Gives(OneForm(text, next), o, end)
    ensures StartsElement(text, pos) && Gives(OneForm(text, pos), QuotedObj(q, o), end)
  {
    ReadsPrefix(text, pos, q, next);
  }

  // Reading the text of a well-formed form gives its object and stops right after it.
  lemma {:induction false} ReadsForm(f: Form, text: string, pos: nat)
    requires WellFormed(f) && At(text, pos, Text(f)) && Stops(text, pos + |Text(f)|)
    ensures Gives(OneForm(text, pos), Value(f), pos + |Text(f)|)
    ensures pos < |text| && SkipBlank(text, pos) == pos
    ensures f.List? || StartsElement(text, pos)
    decreases f, 1
  {
    match f
    case Leaf(o) =>
      ReadsLeaf(text, pos, o);
    case List(tail) =>
      ReadsListForm(f, text, pos);
    case Quoted(q, inner) =>
      var next := pos + |QuoteText(q)|;
      QuotedParts(f, text, pos);
      ReadsForm(inner, text, next);
      ReadsQuoted(text, pos, q, next, Value(inner), next + |Text(inner)|);
  }

  lemma QuotedParts(f: Form, text: string, pos: nat)
    requires f.Quoted? && WellFormed(f) && At(text, pos, Text(f)) && Stops(text, pos + |Text(f)|)
    ensures var next := pos + |QuoteText(f.q)|;
            && PrefixAt(f.q, text, pos) && At(text, next, Text(f.f)) && Stops(text, next + |Text(f.f)|)
            && next + |Text(f.f)| == pos + |Text(f)|
  {
    AtSplit(text, pos, QuoteText(f.q), Text(f.f));
    if f.q == Unquote {
      AtFirst(text, pos + |QuoteText(f.q)|, Text(f.f));
    }
  }

  lemma {:induction false} ReadsListForm(f: Form, text: string, pos: nat)
    requires f.List? && WellFormed(f) && At(text, pos, Text(f))
    ensures pos < |text| && SkipBlank(text, pos) == pos
    ensures Gives(OneForm(text, pos), Value(f), pos + |Text(f)|)
    ensures Gives(ListElement(text, pos, ")"), Value(f), pos + |Text(f)|)
    ensures IsElement(")", text[pos..TokenEnd(text, pos)])
    decreases f, 0
  {
    AtSplit(text, pos, "(", TailText(f.tail));
    AtFirst(text, pos, "(");
    ReadsTail(f.tail, text, pos + 1, []);
  }

  // The same for a form as a list element.
  lemma {:induction false} ReadsElement(f: Form, text: string, pos: nat)
    requires WellFormed(f) && At(text, pos, Text(f)) && Stops(text, pos + |Text(f)|)
    ensures pos < |text| && SkipBlank(text, pos) == pos
    ensures Gives(ListElement(text, pos, ")"), Value(f), pos + |Text(f)|)
    ensures IsElement(")", text[pos..TokenEnd(text, pos)])
    decreases f, 2
  {
    if f.List? {
      ReadsListForm(f, text, pos);
    } else {
      ReadsForm(f, text, pos);
    }
  }

  lemma {:induction false} ReadsTail(t: Tail, text: string, pos: nat, items: seq<Obj>)
    requires WellFormedTail(t, items == []) && At(text, pos, TailText(t))
    ensures Gives(ListLoop(text, pos, Going(items, NoDot)), BuildList(items, TailValue(t)), pos + |TailText(t)|)
    decreases t, 2
  {
    match t
    case Close(ws) =>
      ReadsClose(ws, text, pos, items, NoDot);
    case Item(_, _, _) =>
      ReadsItemAndRest(t, text, pos, items);
    case DotItem(ws, _, _, _) =>
      ReadsDot(t, text, pos, items);
      ReadsDotted(t, text, pos + |ws| + 1, items);
  }

  lemma {:induction false} ReadsItemAndRest(t: Tail, text: string, pos: nat, items: seq<Obj>)
    requires t.Item? && WellFormedTail(t, items == []) && At(text, pos, TailText(t))
    ensures Gives(ListLoop(text, pos, Going(items, NoDot)), BuildList(items, TailValue(t)), pos + |TailText(t)|)
    decreases t, 1
  {
    ItemParts(t, text, pos);
    ReadsItemThenRest(t.ws, t.f, t.rest, text, pos, items, t);
  }

  lemma {:induction false} ReadsItemThenRest(ws: string, f: Form, rest: Tail, text: string, pos: nat, items: seq<Obj>, whole: Tail)
    requires whole.Item? && whole.f == f && whole.rest == rest
    requires WellFormed(f) && WellFormedTail(rest, false) && Blanks(ws) && At(text, pos, ws)
    requires At(text, pos + |ws|, Text(f)) && Stops(text, pos + |ws| + |Text(f)|)
    requires At(text, pos + |ws| + |Text(f)|, TailText(rest))
    ensures Gives(ListLoop(text, pos, Going(items, NoDot)), BuildList(items, Pair(Value(f), TailValue(rest))),
                  pos + |ws| + |Text(f)| + |TailText(rest)|)
    decreases whole, 0
  {
    var end := pos + |ws| + |Text(f)|;
    ReadsTail(rest, text, end, items + [Value(f)]);
    ReadsItemBefore(f, ws, text, pos, items, TailValue(rest), end + |TailText(rest)|);
  }

  // An element before the rest of a list, which is read already.
  lemma {:induction false} ReadsItemBefore(f: Form, ws: string, text: string, pos: nat, items: seq<Obj>, rest: Obj, end: nat)
    requires WellFormed(f) && Blanks(ws) && At(text, pos, ws) && At(text, pos + |ws|, Text(f)) && Stops(text, pos + |ws| + |Text(f)|)
    requires Gives(ListLoop(text, pos + |ws| + |Text(f)|, Going(items + [Value(f)], NoDot)), BuildList(items + [Value(f)], rest), end)
    ensures Gives(ListLoop(text, pos, Going(items, NoDot)), BuildList(items, Pair(Value(f), rest)), end)
    decreases f, 3
  {
    ReadsElement(f, text, pos + |ws|);
    ItemRound(text, pos, ws, items, NoDot, Value(f), pos + |ws| + |Text(f)|);
    BuildListSnoc(items, Value(f), rest);
  }

  lemma ItemParts(t: Tail, text: string, pos: nat)
    requires t.Item? && Apart(t.rest, false) && At(text, pos, TailText(t))
    ensures At(text, pos, t.ws) && At(text, pos + |t.ws|, Text(t.f)) && Stops(text, pos + |t.ws| + |Text(t.f)|)
    ensures At(text, pos + |t.ws| + |Text(t.f)|, TailText(t.rest))
  {
    AtSplit(text, pos, t.ws, Text(t.f) + TailText(t.rest));
    AtSplit(text, pos + |t.ws|, Text(t.f), TailText(t.rest));
    TailStops(t.rest, text, pos + |t.ws| + |Text(t.f)|);
  }

  // An element after blanks takes the list loop one round further.
  lemma ItemRound(text: string, pos: nat, ws: string, items: seq<Obj>, dotted: Dotted, o: Obj, end: nat)
    requires Blanks(ws) && At(text, pos, ws) && !dotted.DotThen?
    requires pos + |ws| < |text| && SkipBlank(text, pos + |ws|) == pos + |ws|
    requires Gives(ListElement(text, pos + |ws|, ")"), o, end)
    requires IsElement(")", text[pos + |ws|..TokenEnd(text, pos + |ws|)])
    ensures ListLoop(text, pos, Going(items, dotted))
         == ListLoop(text, end, if dotted.Dot? then Going(items, DotThen(o)) else Going(items + [o], NoDot))
  {
    SkipsBlanks(text, pos, ws);
    LoopRound(text, pos, pos + |ws|, items, dotted);
  }

  lemma ReadsClose(ws: string, text: string, pos: nat, items: seq<Obj>, dotted: Dotted)
    requires Blanks(ws) && At(text, pos, ws + ")")
    ensures Gives(ListLoop(text, pos, Going(items, dotted)),
                  BuildList(items, if dotted.DotThen? then dotted.o else Null), pos + |ws| + 1)
  {
    AtSplit(text, pos, ws, ")");
    var p := pos + |ws|;
    AtFirst(text, p, ")");
    SkipsBlanks(text, pos, ws);
    LoopRound(text, pos, p, items, dotted);
  }

  // The dot of a dotted list is read as such.
  lemma ReadsDot(t: Tail, text: string, pos: nat, items: seq<Obj>)
    requires t.DotItem? && Apart(t, items == []) && At(text, pos, TailText(t))
    ensures ListLoop(text, pos, Going(items, NoDot))
         == ListLoop(text, pos + |t.ws| + 1, Going(items, Dot))
  {
    var rest := t.wsAfterDot + (Text(t.f) + (t.wsBeforeClose + ")"));
    AtSplit(text, pos, t.ws, "." + rest);
    var p := pos + |t.ws|;
    AtSplit(text, p, ".", rest);
    AtFirst(text, p, ".");
    AtFirst(text, p + 1, rest);
    DotRound(text, pos, t.ws, items);
  }

  lemma DotRound(text: string, pos: nat, ws: string, items: seq<Obj>)
    requires Blanks(ws) && At(text, pos, ws) && items != []
    requires pos + |ws| + 1 < |text| && text[pos + |ws|] == '.' && IsBlank(text[pos + |ws| + 1])
    ensures ListLoop(text, pos, Going(items, NoDot))
         == ListLoop(text, pos + |ws| + 1, Going(items, Dot))
  {
    var p := pos + |ws|;
    assert ScanToken(text, p + 1) == p + 1;
    assert text[p..p + 1] == ".";
    SkipsBlanks(text, pos, ws);
    LoopRound(text, pos, p, items, NoDot);
    assert ListElement(text, p, ")") == Ok(Null, p + 1);
    assert ListRound(text, p, ")", items, NoDot) == Going(items, Dot);
  }

  // What follows the dot becomes the final cdr.
  lemma {:induction false} ReadsDotted(t: Tail, text: string, pos: nat, items: seq<Obj>)
    requires t.DotItem? && WellFormedTail(t, false)
    requires pos >= |t.ws| + 1 && At(text, pos - |t.ws| - 1, TailText(t))
    ensures Gives(ListLoop(text, pos, Going(items, Dot)), BuildList(items, Value(t.f)),
                  pos - |t.ws| - 1 + |TailText(t)|)
    decreases t, 0
  {
    DottedParts(t, text, pos);
    ReadsAfterDot(t.f, t.wsAfterDot, t.wsBeforeClose, text, pos, items);
  }

  lemma {:induction false} ReadsAfterDot(f: Form, ws: string, last: string, text: string, pos: nat, items: seq<Obj>)
    requires WellFormed(f) && Blanks(ws) && Blanks(last) && At(text, pos, ws)
    requires At(text, pos + |ws|, Text(f)) && Stops(text, pos + |ws| + |Text(f)|)
    requires At(text, pos + |ws| + |Text(f)|, last + ")")
    ensures Gives(ListLoop(text, pos, Going(items, Dot)), BuildList(items, Value(f)), pos + |ws| + |Text(f)| + |last| + 1)
    decreases f, 3
  {
    var end := pos + |ws| + |Text(f)|;
    ReadsElement(f, text, pos + |ws|);
    ItemRound(text, pos, ws, items, Dot, Value(f), end);
    ReadsClose(last, text, end, items, DotThen(Value(f)));
  }

  lemma DottedParts(t: Tail, text: string, pos: nat)
    requires t.DotItem? && Apart(t, false)
    requires pos >= |t.ws| + 1 && At(text, pos - |t.ws| - 1, TailText(t))
    ensures var p := pos + |t.wsAfterDot|;
            && At(text, pos, t.wsAfterDot) && At(text, p, Text(t.f)) && Stops(text, p + |Text(t.f)|)
            && At(text, p + |Text(t.f)|, t.wsBeforeClose + ")")
  {
    var closing := t.wsBeforeClose + ")";
    var rest := t.wsAfterDot + (Text(t.f) + closing);
    AtSplit(text, pos - |t.ws| - 1, t.ws, "." + rest);
    AtSplit(text, pos - 1, ".", rest);
    AtSplit(text, pos, t.wsAfterDot, Text(t.f) + closing);
    var p := pos + |t.wsAfterDot|;
    AtSplit(text, p, Text(t.f), closing);
    AtFirst(text, p + |Text(t.f)|, closing);
  }

  // ---- lists that cannot be read ----

  // A dot with nothing before it, a second dot, an element after the one that follows the dot, and a
  // list that is not closed are errors.
  lemma MalformedLists(text: string, pos: nat, items: seq<Obj>, o: Obj)
    requires pos <= |text|
    ensures var p := SkipBlank(text, pos);
            if p == |text| then ListLoop(text, pos, Going(items, NoDot)).Failed? && ListLoop(text, pos, Going(items, DotThen(o))).Failed?
            else
              var tok := text[p..TokenEnd(text, p)];
              && (tok == "." ==> ListLoop(text, pos, Going([], NoDot)).Failed? && ListLoop(text, pos, Going(items, Dot)).Failed?
                                 && ListLoop(text, pos, Going(items, DotThen(o))).Failed?)
              && (tok != "." && tok != ")" ==> ListLoop(text, pos, Going(items, DotThen(o))).Failed?)
  {
    OneRound(text, pos, ")", [], NoDot);
    OneRound(text, pos, ")", items, NoDot);
    OneRound(text, pos, ")", items, Dot);
    OneRound(text, pos, ")", items, DotThen(o));
  }
}
