/** Where the line breaks and the blanks of a laid-out text are: a description of the text that says,
    for every list, what stands before each of its elements and before its closing parenthesis. */
module PrettyText {
  import opened Forms
  import opened PrintRoundTrip
  import opened PrettyNodes
  import opened PrettyLayout

  function Spaces(n: int): (s: string)
    ensures Blanks(s)
    ensures |s| == if n > 0 then n else 0
  {
    if n <= 0 then "" else Spaces(n - 1) + " "
  }

  // A list ends on a line of its own if it, or whatever ends it, is broken.
  predicate NeedsEndParenNewline(n: Node, path: Path, style: map<Path, Style>)
    decreases n
  {
    path in style ||
    (n.Branch? && n.children != [] && NeedsEndParenNewline(n.children[|n.children| - 1], path + [|n.children| - 1], style))
  }

  predicate IsKeywordArg(n: Node) {
    n.Atom? && AtomText(n) != "" && AtomText(n)[0] == ':' && ' ' !in AtomText(n)
  }

  // Nothing in this subtree is broken.
  predicate IsFlat(n: Node, path: Path, style: map<Path, Style>)
    decreases n
  {
    path !in style && (n.Branch? ==> forall k :: 0 <= k < |n.children| ==> IsFlat(n.children[k], path + [k], style))
  }

  function Elements(n: Node): nat
    requires n.Branch? && n.children != []
  {
    if n.proper then |n.children| else |n.children| - 1
  }

  /** How a list ends before its closing blanks: properly, or with a dot and one more element. */
  datatype Ending = NoDotEnd | DotEnd(ws: string, after: string, f: Form)

  function CloseWith(e: Ending, ws: string): Tail {
    match e
    case NoDotEnd => Close(ws)
    case DotEnd(ws1, after, f) => DotItem(ws1, after, f, ws)
  }

  function EndingText(e: Ending): string {
    match e
    case NoDotEnd => ""
    case DotEnd(ws, after, f) => ws + ("." + (after + Text(f)))
  }

  lemma EndText(e: Ending, ws: string)
    ensures TailText(CloseWith(e, ws)) == EndingText(e) + (ws + ")")
  {
    if e.NoDotEnd? {
      assert "" + (ws + ")") == ws + ")";
    }
  }

  // ---- how far the line has moved on ----

  // The part of a text after its last newline, newline included, if there is one after its first character.
  function LastLine(t: string): string
    decreases |t|
  {
    if |t| <= 1 then "" else if t[|t| - 1] == '\n' then ['\n'] else
      var before := LastLine(t[..|t| - 1]);
      if before == "" then "" else before + [t[|t| - 1]]
  }

  // How far from where the elements of a list begin the next one stands: on the same line, the
  // lengths add up; after a newline, they are counted from it.
  function Advance(extra: int, t: string): int {
    if LastLine(t) == "" then extra + |t| else |LastLine(t)|
  }

  // ---- the blanks of one list ----

  // How many elements of a list stand on its first line.
  function Top(n: Node, path: Path, style: map<Path, Style>): nat
    requires n.Branch?
  {
    if path in style && style[path].top < |n.children| then style[path].top else |n.children|
  }

  // The column of the elements on lines of their own.
  function Listing(path: Path, style: map<Path, Style>, column: int): int {
    if path in style then column + style[path].indent else column
  }

  function NewLine(column: int): string {
    "\n" + Spaces(column)
  }

  // A value stands beside its keyword, unless the keyword is the last one on the first line.
  predicate BesideKeyword(n: Node, path: Path, style: map<Path, Style>, i: nat)
    requires n.Branch? && i < |n.children|
  {
    i > Top(n, path, style) && IsKeywordArg(n.children[i - 1])
  }

  // What stands before element i.
  function BlankBefore(n: Node, path: Path, style: map<Path, Style>, column: int, i: nat): string
    requires n.Branch? && i < |n.children|
  {
    if i < Top(n, path, style) then (if i == 0 then "" else " ")
    else if BesideKeyword(n, path, style, i) then " "
    else NewLine(Listing(path, style, column))
  }

  // A keyword in last place on a line of its own leaves a blank behind.
  function LastBlank(n: Node, path: Path, style: map<Path, Style>): string
    requires n.Branch? && n.children != []
  {
    if Top(n, path, style) < |n.children| && IsKeywordArg(n.children[|n.children| - 1]) then " " else ""
  }

  // What stands before the closing parenthesis of a list whose opening one is in this column.
  function BlankAtEnd(n: Node, path: Path, style: map<Path, Style>, column: int): string
    requires n.Branch? && n.children != []
  {
    if path in style then LastBlank(n, path, style) + NewLine(column)
    else if NeedsEndParenNewline(n, path, style) then NewLine(column)
    else ""
  }

  // The offset of the next element after the elements of row on the first line of a list.
  function RowExtra(n: Node, path: Path, style: map<Path, Style>, row: Row, i: nat): int
    requires n.Branch?
    decreases row
  {
    match row
    case Start => if path in style then 0 else 1
    case Then(before, _, f) =>
      var extra := RowExtra(n, path, style, before, if i > 0 then i - 1 else 0);
      Advance(extra, Text(f) + if path !in style && i < |n.children| then " " else "")
  }

  // The column from which offsets on the first line count.
  function FirstColumn(n: Node, path: Path, style: map<Path, Style>, column: int): int
    requires n.Branch? && n.children != []
  {
    if path !in style then column
    else column + if n.children[0].Branch? && n.children[0].proper then 1 else 2
  }

  // The column that the layout of element i starts from, after the elements of row.
  function ElementColumn(n: Node, path: Path, style: map<Path, Style>, column: int, row: Row, i: nat): int
    requires n.Branch? && n.children != []
  {
    if i < Top(n, path, style) then FirstColumn(n, path, style, column) + RowExtra(n, path, style, row, i)
    else Listing(path, style, column)
  }

  // ---- laid-out texts ----

  function Unquoted(f: Form, k: nat): Form {
    if k > 0 && f.Quoted? then Unquoted(f.f, k - 1) else f
  }

  lemma {:induction false} UnquotedChain(quotes: seq<Quote>, f: Form)
    ensures Unquoted(Chain(quotes, f), |quotes|) == f
  {
    if quotes != [] {
      UnquotedChain(quotes[1..], f);
    }
  }

  /** The elements of a tail, how it ends, and what stands before its closing parenthesis. */
  datatype Parts = Parts(row: Row, end: Ending, last: string)

  function PartsOf(t: Tail, row: Row): Parts {
    match t
    case Close(ws) => Parts(row, NoDotEnd, ws)
    case Item(ws, f, rest) => PartsOf(rest, Then(row, ws, f))
    case DotItem(ws, after, f, last) => Parts(row, DotEnd(ws, after, f), last)
  }

  lemma {:induction false} PartsOfTail(row: Row, end: Tail)
    ensures PartsOf(TailOf(row, end), Start) == PartsOf(end, row)
    decreases row
  {
    match row
    case Start =>
    case Then(before, ws, f) => PartsOfTail(before, Item(ws, f, end));
  }

  lemma PartsOfList(row: Row, e: Ending, ws: string)
    ensures PartsOf(TailOf(row, CloseWith(e, ws)), Start) == Parts(row, e, ws)
  {
    PartsOfTail(row, CloseWith(e, ws));
  }

  predicate HasEmpty(row: Row) {
    row.Then? && (Text(row.f) == "" || HasEmpty(row.before))
  }

  // f is the node as it is laid out from column at.
  ghost predicate Laid(n: Node, path: Path, style: map<Path, Style>, at: int, f: Form)
    decreases n, 3
  {
    var body := Unquoted(f, |n.quotes|);
    f == Chain(n.quotes, body) && LaidBody(n, path, style, at + |QuoteTexts(n.quotes)|, body)
  }

  // The same after its quotes, the opening parenthesis of a list being in this column.
  ghost predicate LaidBody(n: Node, path: Path, style: map<Path, Style>, column: int, body: Form)
    decreases n, 2
  {
    match n
    case Atom(o, _) => !o.Pair? && body == Leaf(AtomReread(o))
    case Branch(children, proper, _) =>
      && body.List? && children != []
      && var parts := PartsOf(body.tail, Start);
      && LaidRow(n, path, style, column, parts.row, Elements(n))
      && LaidEnd(n, path, style, column, parts.row, parts.end)
      && parts.last == BlankAtEnd(n, path, style, column)
  }

  // The first i elements: each with what stands before it, and laid out from its column.
  ghost predicate LaidRow(n: Node, path: Path, style: map<Path, Style>, column: int, row: Row, i: nat)
    requires n.Branch?
    decreases n, 1, row
  {
    match row
    case Start => i == 0
    case Then(before, ws, f) =>
      && 0 < i <= |n.children| && LaidRow(n, path, style, column, before, i - 1)
      && ws == BlankBefore(n, path, style, column, i - 1)
      && LaidFrom(n, path, style, column, before, i - 1, f)
  }

  // Element i is laid out from its column.  Where an element of the first line has no text, the
  // columns of those after it on that line are left open.
  ghost predicate LaidFrom(n: Node, path: Path, style: map<Path, Style>, column: int, row: Row, i: nat, f: Form)
    requires n.Branch? && i < |n.children|
    decreases n, 0
  {
    if i < Top(n, path, style) && HasEmpty(row) then exists at: int :: Laid(n.children[i], path + [i], style, at, f)
    else Laid(n.children[i], path + [i], style, ElementColumn(n, path, style, column, row, i), f)
  }

  // The dot of an improper list stands on the first line, or on a line of its own with what comes
  // after it on the next.
  ghost predicate LaidEnd(n: Node, path: Path, style: map<Path, Style>, column: int, row: Row, e: Ending)
    requires n.Branch? && n.children != []
    decreases n, 1
  {
    match e
    case NoDotEnd => n.proper
    case DotEnd(ws, after, f) =>
      var k := |n.children| - 1;
      var listing := Listing(path, style, column);
      && !n.proper
      && (if k < Top(n, path, style) then ws == " " && after == " "
          else if BesideKeyword(n, path, style, k) then ws == " " + Spaces(listing) && after == "\n"
          else ws == NewLine(listing) && after == NewLine(listing))
      && LaidFrom(n, path, style, column, row, k, f)
  }

  // The same as seen from outside.
  ghost predicate IsLaid(n: Node, path: Path, style: map<Path, Style>, at: int, f: Form) {
    Laid(n, path, style, at, f)
  }

  ghost predicate IsLaidRow(n: Node, path: Path, style: map<Path, Style>, column: int, row: Row, i: nat)
    requires n.Branch?
  {
    LaidRow(n, path, style, column, row, i)
  }

  ghost predicate IsLaidEnd(n: Node, path: Path, style: map<Path, Style>, column: int, row: Row, e: Ending)
    requires n.Branch? && n.children != []
  {
    LaidEnd(n, path, style, column, row, e)
  }

  ghost predicate IsLaidBody(n: Node, path: Path, style: map<Path, Style>, column: int, body: Form) {
    LaidBody(n, path, style, column, body)
  }

  // ---- broken lists take several lines ----

  // This list, or one in it, is broken.
  predicate BreaksList(n: Node, path: Path, style: map<Path, Style>)
    decreases n
  {
    n.Branch? && (path in style || exists k :: 0 <= k < |n.children| && BreaksList(n.children[k], path + [k], style))
  }

  predicate HasNewline(s: string) {
    exists i :: 0 <= i < |s| && s[i] == '\n'
  }

  // The text of a list: its elements, its ending, and what stands before the closing parenthesis.
  lemma ListText(row: Row, e: Ending, ws: string)
    ensures Text(List(TailOf(row, CloseWith(e, ws)))) == "(" + RowText(row) + EndingText(e) + ws + ")"
  {
    TailOfText(row, CloseWith(e, ws));
    EndText(e, ws);
  }

  lemma NewlineInRow(row: Row, e: Ending, ws: string)
    requires HasNewline(RowText(row)) || HasNewline(EndingText(e)) || HasNewline(ws)
    ensures HasNewline(Text(List(TailOf(row, CloseWith(e, ws)))))
  {
    ListText(row, e, ws);
    var a, b := RowText(row), EndingText(e);
    if HasNewline(a) {
      NewlineRight("(", a);
      NewlineLeft("(" + a, b);
    } else if HasNewline(b) {
      NewlineRight("(" + a, b);
    }
    NewlineInListText("(" + a + b, ws);
  }

  lemma NewlineLeft(a: string, b: string)
    requires HasNewline(a)
    ensures HasNewline(a + b)
  {
    var i :| 0 <= i < |a| && a[i] == '\n';
    assert (a + b)[i] == a[i];
  }

  lemma NewlineRight(a: string, b: string)
    requires HasNewline(b)
    ensures HasNewline(a + b)
  {
    var i :| 0 <= i < |b| && b[i] == '\n';
    assert (a + b)[|a| + i] == b[i];
  }

  lemma NewlineInListText(a: string, ws: string)
    requires HasNewline(a) || HasNewline(ws)
    ensures HasNewline(a + ws + ")")
  {
    if HasNewline(a) {
      NewlineLeft(a, ws);
    } else {
      NewlineRight(a, ws);
    }
    NewlineLeft(a + ws, ")");
  }

  /** The parts of a list determine it. */
  lemma {:induction false} ListOfParts(t: Tail, row: Row)
    ensures var parts := PartsOf(t, row);
            TailOf(parts.row, CloseWith(parts.end, parts.last)) == TailOf(row, t)
    decreases t
  {
    match t
    case Close(_) =>
    case Item(ws, f, rest) => ListOfParts(rest, Then(row, ws, f));
    case DotItem(_, _, _, _) =>
  }

  // The text of a node in which a list is broken takes more than one line.
  lemma {:induction false} BrokenHasNewline(n: Node, path: Path, style: map<Path, Style>, at: int, f: Form)
    requires Laid(n, path, style, at, f) && BreaksList(n, path, style)
    ensures HasNewline(Text(f))
    decreases n, 3
  {
    var body := Unquoted(f, |n.quotes|);
    BrokenBodyHasNewline(n, path, style, at + |QuoteTexts(n.quotes)|, body);
    ChainText(n.quotes, body);
    NewlineRight(QuoteTexts(n.quotes), Text(body));
  }

  lemma {:induction false} BrokenBodyHasNewline(n: Node, path: Path, style: map<Path, Style>, column: int, body: Form)
    requires LaidBody(n, path, style, column, body) && BreaksList(n, path, style)
    ensures HasNewline(Text(body))
    decreases n, 2
  {
    var parts := PartsOf(body.tail, Start);
    ListOfParts(body.tail, Start);
    if path in style {
      NewlineAtEnd(n, path, style, column);
    } else {
      var k :| 0 <= k < |n.children| && BreaksList(n.children[k], path + [k], style);
      if k < Elements(n) {
        RowHasNewline(n, path, style, column, parts.row, Elements(n), k);
      } else {
        EndHasNewline(n, path, style, column, parts.row, parts.end);
      }
    }
    NewlineInRow(parts.row, parts.end, parts.last);
  }

  lemma NewlineAtEnd(n: Node, path: Path, style: map<Path, Style>, column: int)
    requires n.Branch? && n.children != [] && path in style
    ensures HasNewline(BlankAtEnd(n, path, style, column))
  {
    assert NewLine(column)[0] == '\n';
    NewlineRight(LastBlank(n, path, style), NewLine(column));
  }

  lemma {:induction false} ElementHasNewline(n: Node, path: Path, style: map<Path, Style>, column: int, row: Row, k: nat, f: Form)
    requires n.Branch? && k < |n.children| && LaidFrom(n, path, style, column, row, k, f)
    requires BreaksList(n.children[k], path + [k], style)
    ensures HasNewline(Text(f))
    decreases n, 0
  {
    if k < Top(n, path, style) && HasEmpty(row) {
      var at: int :| Laid(n.children[k], path + [k], style, at, f);
      BrokenHasNewline(n.children[k], path + [k], style, at, f);
    } else {
      BrokenHasNewline(n.children[k], path + [k], style, ElementColumn(n, path, style, column, row, k), f);
    }
  }

  lemma {:induction false} RowHasNewline(n: Node, path: Path, style: map<Path, Style>, column: int, row: Row, i: nat, k: nat)
    requires n.Branch? && k < i && LaidRow(n, path, style, column, row, i)
    requires k < |n.children| && BreaksList(n.children[k], path + [k], style)
    ensures HasNewline(RowText(row))
    decreases n, 1, row
  {
    if k == i - 1 {
      ElementHasNewline(n, path, style, column, row.before, k, row.f);
    } else {
      RowHasNewline(n, path, style, column, row.before, i - 1, k);
    }
    NewlineInLonger(row);
  }

  lemma NewlineInLonger(row: Row)
    requires row.Then? && (HasNewline(RowText(row.before)) || HasNewline(Text(row.f)))
    ensures HasNewline(RowText(row))
  {
    NewlineInEither(RowText(row.before), row.ws, Text(row.f));
  }

  lemma NewlineInEither(a: string, b: string, c: string)
    requires HasNewline(a) || HasNewline(c)
    ensures HasNewline(a + b + c)
  {
    if HasNewline(a) {
      NewlineLeft(a, b);
      NewlineLeft(a + b, c);
    } else {
      NewlineRight(a + b, c);
    }
  }

  lemma {:induction false} EndHasNewline(n: Node, path: Path, style: map<Path, Style>, column: int, row: Row, e: Ending)
    requires n.Branch? && n.children != [] && !n.proper && LaidEnd(n, path, style, column, row, e)
    requires BreaksList(n.children[|n.children| - 1], path + [|n.children| - 1], style)
    ensures HasNewline(EndingText(e))
    decreases n, 1
  {
    ElementHasNewline(n, path, style, column, row, |n.children| - 1, e.f);
    NewlineRight(e.after, Text(e.f));
    NewlineRight(".", e.after + Text(e.f));
    NewlineRight(e.ws, "." + (e.after + Text(e.f)));
  }

  // A broken list somewhere below the root.
  lemma {:induction false} PathBreaks(root: Node, path: Path, style: map<Path, Style>, prefix: Path)
    requires IsList(root, path) && prefix + path in style
    ensures BreaksList(root, prefix, style)
    decreases path
  {
    if path == [] {
      assert prefix + [] == prefix;
    } else {
      assert (prefix + [path[0]]) + path[1..] == prefix + path;
      PathBreaks(root.children[path[0]], path[1..], style, prefix + [path[0]]);
    }
  }
}
