/** Rendering a laid-out tree: whatever the layout, the text spells the tree. */
module PrettyRender {
  import opened Forms
  import opened PrintRoundTrip
  import opened PrettyNodes
  import opened PrettyLayout
  import opened PrettyText

  // The column an element added so far has moved the line to; i counts down to its start.
  function ExtraOffset(str: string, start: int, extra: int, i: nat): int
    requires i <= |str|
  {
    if i == 0 then extra + |str| - start
    else if i - 1 == start then extra + |str| - start
    else if str[i - 1] == '\n' then |str| - (i - 1)
    else ExtraOffset(str, start, extra, i - 1)
  }

  // The elements and the ending spell the children of a list.
  ghost predicate Spelled(n: Node, row: Row, e: Ending)
    requires n.Branch? && n.children != []
  {
    Spells(row, n.children, Elements(n)) && Ends(n, e)
  }

  ghost predicate Ends(n: Node, e: Ending)
    requires n.Branch? && n.children != []
  {
    if n.proper then e.NoDotEnd?
    else
      && e.DotEnd? && Blanks(e.ws) && e.ws != "" && Blanks(e.after) && e.after != ""
      && Spaced(e.f, FlatNode(n.children[|n.children| - 1]))
  }

  lemma ListForm(n: Node, row: Row, e: Ending, ws: string)
    requires n.Branch? && Shaped(n) && Spelled(n, row, e) && Blanks(ws)
    ensures var f := List(TailOf(row, CloseWith(e, ws)));
            && Spaced(f, List(FlatList(n.children, n.proper, "")))
            && Text(f) == "(" + (RowText(row) + (EndingText(e) + (ws + ")")))
  {
    var k := Elements(n);
    FlatRowTail(n.children, k, n.proper);
    EndSpaced(n, e, ws);
    SpacedRow(row, n.children, k, CloseWith(e, ws), FlatList(n.children[k..], n.proper, " "));
    TailOfText(row, CloseWith(e, ws));
    EndText(e, ws);
  }

  lemma EndSpaced(n: Node, e: Ending, ws: string)
    requires n.Branch? && Shaped(n) && Ends(n, e) && Blanks(ws)
    ensures SpacedTail(CloseWith(e, ws), FlatList(n.children[Elements(n)..], n.proper, " "), false)
  {
    var rest := n.children[Elements(n)..];
    if !n.proper {
      assert |rest| == 1 && rest[0] == n.children[|n.children| - 1];
    }
  }

  /** Append the text of a node to str.  The form is what the appended text spells. */
  method AppendNode(n: Node, path: Path, style: map<Path, Style>, str: string, init: int, next: int)
    returns (out: string, ghost f: Form)
    requires Shaped(n)
    ensures out == str + Spaces(init) + Text(f)
    ensures Spaced(f, FlatNode(n))
    ensures IsFlat(n, path, style) ==> f == FlatNode(n)
    ensures IsLaid(n, path, style, next, f)
    decreases n, 7
  {
    var s := str + Spaces(init) + QuoteTexts(n.quotes);
    ghost var body: Form;
    if n.Atom? {
      out := s + AtomText(n);
      body := Leaf(AtomReread(n.o));
    } else if path in style {
      out, body := AppendBroken(n, path, style, s, next);
    } else {
      out, body := AppendFlat(n, path, style, s, next);
    }
    FinishNode(n, body, if n.Atom? then body else List(FlatList(n.children, n.proper, "")), str + Spaces(init));
    f := Chain(n.quotes, body);
    UnquotedChain(n.quotes, body);
  }

  // Putting the quotes of a node in front of the form of its body.
  lemma FinishNode(n: Node, body: Form, flat: Form, s: string)
    requires Spaced(body, flat)
    ensures var f := Chain(n.quotes, body);
            Spaced(f, Chain(n.quotes, flat)) && s + QuoteTexts(n.quotes) + Text(body) == s + Text(f)
  {
    ChainText(n.quotes, body);
    SpacedChain(n.quotes, body, flat);
    Assoc(s, QuoteTexts(n.quotes), Text(body));
  }

  lemma NoSpaces(s: string)
    ensures s + Spaces(0) == s && "" + s == s && s + "" == s
  {
  }

  lemma PushText(row: Row, ws: string, f: Form, head: string)
    ensures head + RowText(Then(row, ws, f)) == head + RowText(row) + ws + Text(f)
  {
    Assoc(head, RowText(row) + ws, Text(f));
    Assoc(head, RowText(row), ws);
  }

  predicate FlatSoFar(n: Node, i: nat, row: Row, blank: string)
    requires n.Branch? && i <= |n.children|
  {
    row == FlatRow(n.children, i) && blank == if i == 0 then "" else " "
  }

  /** Append element i, after the blanks that are there already and init more. */
  method AppendElement(n: Node, i: nat, path: Path, style: map<Path, Style>, str: string, init: int, next: int,
                       ghost head: string, ghost row: Row, ghost blank: string)
    returns (out: string, ghost row': Row)
    requires n.Branch? && Shaped(n) && i < Elements(n) && Spells(row, n.children, i)
    requires str == head + RowText(row) + blank && Blanks(blank) && (i > 0 ==> blank != "")
    ensures out == head + RowText(row') && Spells(row', n.children, i + 1)
    ensures IsFlat(n, path, style) && FlatSoFar(n, i, row, blank + Spaces(init)) ==> row' == FlatRow(n.children, i + 1)
    ensures row'.Then? && row'.before == row && row'.ws == blank + Spaces(init) && IsLaid(n.children[i], path + [i], style, next, row'.f)
    decreases n, 0
  {
    ghost var f;
    out, f := AppendNode(n.children[i], path + [i], style, str, init, next);
    PushText(row, blank + Spaces(init), f, head);
    row' := Then(row, blank + Spaces(init), f);
    Assoc(head + RowText(row), blank, Spaces(init));
  }

  /** Append the dot of an improper list and what comes after it. */
  method AppendDotted(n: Node, path: Path, style: map<Path, Style>, str: string, after: string, init: int, next: int,
                      ghost base: string, ghost ws: string)
    returns (out: string, ghost e: Ending)
    requires n.Branch? && Shaped(n) && !n.proper
    requires str == base + ws && Blanks(ws) && ws != "" && Blanks(after) && after != ""
    ensures e.DotEnd? && out == base + EndingText(e)
    ensures Ends(n, e)
    ensures IsFlat(n, path, style) && init == 0 && ws == " " && after == " " ==>
      e == DotEnd(" ", " ", FlatNode(n.children[|n.children| - 1]))
    ensures e.ws == ws && e.after == (if init == 0 then after else after + Spaces(init))
    ensures IsLaid(n.children[|n.children| - 1], path + [|n.children| - 1], style, next, e.f)
    decreases n, 0
  {
    var last := |n.children| - 1;
    ghost var f;
    out, f := AppendNode(n.children[last], path + [last], style, str + "." + after, init, next);
    e := DotEnd(ws, after + Spaces(init), f);
    DotText(base, ws, after, Spaces(init), Text(f));
    if init == 0 {
      NoSpaces(after);
    }
  }

  lemma DotText(base: string, ws: string, after: string, spaces: string, s: string)
    ensures base + ws + "." + after + spaces + s == base + (ws + ("." + ((after + spaces) + s)))
  {
  }

  lemma CloseRegroup(str: string, a: string, b: string, c: string)
    ensures str + "(" + a + b + c + ")" == str + ("(" + (a + (b + (c + ")"))))
  {
  }

  lemma FlatEndsOnLine(n: Node, path: Path, style: map<Path, Style>)
    requires IsFlat(n, path, style)
    ensures !NeedsEndParenNewline(n, path, style)
    decreases n
  {
    if n.Branch? && n.children != [] {
      FlatEndsOnLine(n.children[|n.children| - 1], path + [|n.children| - 1], style);
    }
  }

  lemma FlatListIsTail(n: Node, e: Ending)
    requires n.Branch? && n.children != []
    requires e == if n.proper then NoDotEnd else DotEnd(" ", " ", FlatNode(n.children[|n.children| - 1]))
    requires !n.proper ==> |n.children| >= 2
    ensures TailOf(FlatRow(n.children, Elements(n)), CloseWith(e, "")) == FlatList(n.children, n.proper, "")
  {
    FlatRowTail(n.children, Elements(n), n.proper);
  }

  /** Close a list whose elements and ending have been appended, after the blanks that are there already. */
  method CloseList(n: Node, s: string, newline: bool, indent: int,
                   ghost str: string, ghost row: Row, ghost e: Ending, ghost blank: string)
    returns (out: string, ghost body: Form)
    requires n.Branch? && Shaped(n) && Spelled(n, row, e) && Blanks(blank)
    requires s == str + "(" + RowText(row) + EndingText(e) + blank
    ensures out == str + Text(body) && Spaced(body, List(FlatList(n.children, n.proper, "")))
    ensures body == List(TailOf(row, CloseWith(e, blank + if newline then "\n" + Spaces(indent) else "")))
  {
    ghost var ws := blank + if newline then "\n" + Spaces(indent) else "";
    out := s;
    if newline {
      out := out + "\n" + Spaces(indent);
    }
    out := out + ")";
    assert out == str + "(" + RowText(row) + EndingText(e) + ws + ")";
    ListForm(n, row, e, ws);
    body := List(TailOf(row, CloseWith(e, ws)));
    CloseRegroup(str, RowText(row), EndingText(e), ws);
  }

  /** An unbroken list: its elements in one row, however many lines they take themselves. */
  method AppendFlat(n: Node, path: Path, style: map<Path, Style>, str: string, next: int)
    returns (out: string, ghost body: Form)
    requires n.Branch? && Shaped(n) && path !in style
    ensures out == str + Text(body) && Spaced(body, List(FlatList(n.children, n.proper, "")))
    ensures IsFlat(n, path, style) ==> body == List(FlatList(n.children, n.proper, ""))
    ensures IsLaidBody(n, path, style, next + |QuoteTexts(n.quotes)|, body)
    decreases n, 3
  {
    var listing := next + |QuoteTexts(n.quotes)|;
    ghost var row;
    ghost var e := NoDotEnd;
    var s, extra: int;
    s, extra, row := AppendRow(n, path, style, str + "(", listing);
    if !n.proper {
      s, e := AppendFirstLineEnd(n, path, style, s, listing, listing, extra, str + "(" + RowText(row), row);
    }
    NoSpaces(s);
    out, body := CloseList(n, s, NeedsEndParenNewline(n, path, style), listing, str, row, e, "");
    NoSpaces(if NeedsEndParenNewline(n, path, style) then NewLine(listing) else "");
    LaidListBody(n, path, style, listing, row, e, body);
    if IsFlat(n, path, style) {
      FlatEndsOnLine(n, path, style);
      FlatListIsTail(n, e);
    }
  }

  lemma EndsOnFirstLine(n: Node, path: Path, style: map<Path, Style>, column: int, row: Row, extra: int, e: Ending)
    requires n.Branch? && n.children != [] && !n.proper && |n.children| - 1 < Top(n, path, style)
    requires Counts(n, path, style, row, |n.children| - 1, extra) && e.DotEnd? && e.ws == " " && e.after == " "
    requires IsLaid(n.children[|n.children| - 1], path + [|n.children| - 1], style, FirstColumn(n, path, style, column) + extra, e.f)
    ensures IsLaidEnd(n, path, style, column, row, e)
  {
    OnFirstLine(n, path, style, column, row, extra, |n.children| - 1, e.f);
  }

  lemma LaidListBody(n: Node, path: Path, style: map<Path, Style>, column: int, row: Row, e: Ending, body: Form)
    requires n.Branch? && n.children != [] && IsLaidRow(n, path, style, column, row, Elements(n)) && IsLaidEnd(n, path, style, column, row, e)
    requires body == List(TailOf(row, CloseWith(e, BlankAtEnd(n, path, style, column))))
    ensures IsLaidBody(n, path, style, column, body)
  {
    PartsOfList(row, e, BlankAtEnd(n, path, style, column));
  }

  // The blank after i elements of an unbroken list.
  function Between(n: Node, i: nat): string
    requires n.Branch?
  {
    if 0 < i < |n.children| then " " else ""
  }

  // The elements of an unbroken list, up to the dot if there is one.
  method AppendRow(n: Node, path: Path, style: map<Path, Style>, str: string, listing: int)
    returns (s: string, extra: int, ghost row: Row)
    requires n.Branch? && Shaped(n) && path !in style
    ensures Spells(row, n.children, Elements(n))
    ensures s == str + RowText(row) + if n.proper then "" else " "
    ensures IsFlat(n, path, style) ==> row == FlatRow(n.children, Elements(n))
    ensures IsLaidRow(n, path, style, listing, row, Elements(n)) && Counts(n, path, style, row, Elements(n), extra)
    decreases n, 2
  {
    s, extra, row := str, 1, Start;
    NoSpaces(s);
    var i := 0;
    while i < Elements(n)
      invariant 0 <= i <= Elements(n)
      invariant s == str + RowText(row) + Between(n, i)
      invariant Spells(row, n.children, i)
      invariant IsFlat(n, path, style) ==> row == FlatRow(n.children, i)
      invariant IsLaidRow(n, path, style, listing, row, i) && Counts(n, path, style, row, i, extra)
    {
      s, extra, row := AppendInRow(n, i, path, style, s, listing, extra, str, row);
      i := i + 1;
    }
  }

  method AppendInRow(n: Node, i: nat, path: Path, style: map<Path, Style>, str: string, listing: int, extra: int,
                     ghost head: string, ghost row: Row)
    returns (s: string, extra': int, ghost row': Row)
    requires n.Branch? && Shaped(n) && path !in style && i < Elements(n) && Spells(row, n.children, i)
    requires str == head + RowText(row) + Between(n, i)
    requires IsLaidRow(n, path, style, listing, row, i) && Counts(n, path, style, row, i, extra)
    ensures s == head + RowText(row') + Between(n, i + 1) && Spells(row', n.children, i + 1)
    ensures IsFlat(n, path, style) && row == FlatRow(n.children, i) ==> row' == FlatRow(n.children, i + 1)
    ensures IsLaidRow(n, path, style, listing, row', i + 1) && Counts(n, path, style, row', i + 1, extra')
    decreases n, 1
  {
    NoSpaces(Between(n, i));
    s, row' := AppendElement(n, i, path, style, str, 0, listing + extra, head, row, Between(n, i));
    NoSpaces(s);
    if i < |n.children| - 1 {
      s := s + " ";
    }
    extra' := ExtraOffset(s, |str|, extra, |s|);
    AppendedText(head, row, Between(n, i), row'.f, str, s, Between(n, i + 1));
    GrowsOnFirstLine(n, i, path, style, listing, row, row', extra, str, s, Between(n, i + 1));
  }

  // One more element on the first line, and the offset after it.
  lemma GrowsOnFirstLine(n: Node, i: nat, path: Path, style: map<Path, Style>, column: int, row: Row, row': Row, extra: int,
                         str: string, s: string, more: string)
    requires n.Branch? && n.children != [] && i < Top(n, path, style) && IsLaidRow(n, path, style, column, row, i)
    requires Counts(n, path, style, row, i, extra)
    requires row'.Then? && row'.before == row && row'.ws == (if i == 0 then "" else " ")
    requires IsLaid(n.children[i], path + [i], style, FirstColumn(n, path, style, column) + extra, row'.f)
    requires more == (if path !in style && i + 1 < |n.children| then " " else "") && s == str + (Text(row'.f) + more)
    ensures IsLaidRow(n, path, style, column, row', i + 1)
    ensures Counts(n, path, style, row', i + 1, ExtraOffset(s, |str|, extra, |s|))
  {
    CountsMore(n, i, path, style, row, row', extra, str, s, more);
    OneMoreOnFirstLine(n, i, path, style, column, row, row', extra);
  }

  lemma CountsMore(n: Node, i: nat, path: Path, style: map<Path, Style>, row: Row, row': Row, extra: int, str: string, s: string,
                   more: string)
    requires n.Branch? && Counts(n, path, style, row, i, extra) && row'.Then? && row'.before == row
    requires more == (if path !in style && i + 1 < |n.children| then " " else "") && s == str + (Text(row'.f) + more)
    ensures Counts(n, path, style, row', i + 1, ExtraOffset(s, |str|, extra, |s|))
  {
    var t := Text(row'.f) + more;
    if Text(row'.f) != "" {
      ExtraOffsetAdvances(str, t, extra);
      if !HasEmpty(row) {
        assert RowExtra(n, path, style, row', i + 1) == Advance(extra, t);
      }
    }
  }

  lemma OneMoreOnFirstLine(n: Node, i: nat, path: Path, style: map<Path, Style>, column: int, row: Row, row': Row, extra: int)
    requires n.Branch? && n.children != [] && i < Top(n, path, style) && IsLaidRow(n, path, style, column, row, i)
    requires Counts(n, path, style, row, i, extra)
    requires row'.Then? && row'.before == row && row'.ws == (if i == 0 then "" else " ")
    requires IsLaid(n.children[i], path + [i], style, FirstColumn(n, path, style, column) + extra, row'.f)
    ensures IsLaidRow(n, path, style, column, row', i + 1)
  {
    OnFirstLine(n, path, style, column, row, extra, i, row'.f);
  }

  lemma OnFirstLine(n: Node, path: Path, style: map<Path, Style>, column: int, row: Row, extra: int, i: nat, f: Form)
    requires n.Branch? && n.children != [] && i < Top(n, path, style) && Counts(n, path, style, row, i, extra)
    requires IsLaid(n.children[i], path + [i], style, FirstColumn(n, path, style, column) + extra, f)
    ensures LaidFrom(n, path, style, column, row, i, f)
  {
  }

  /** A broken list: some elements on its first line, the others on lines of their own, except
      that what follows a keyword stays beside it. */
  method AppendBroken(n: Node, path: Path, style: map<Path, Style>, str: string, next: int)
    returns (out: string, ghost body: Form)
    requires n.Branch? && Shaped(n) && path in style
    ensures out == str + Text(body) && Spaced(body, List(FlatList(n.children, n.proper, "")))
    ensures IsLaidBody(n, path, style, next + |QuoteTexts(n.quotes)|, body)
    decreases n, 6
  {
    var column := next + |QuoteTexts(n.quotes)|;
    ghost var row, e, blank;
    var s;
    s, row, e, blank := AppendLines(n, path, style, str + "(", column);
    out, body := CloseList(n, s, true, column, str, row, e, blank);
    LaidListBody(n, path, style, column, row, e, body);
  }

  method AppendLines(n: Node, path: Path, style: map<Path, Style>, str: string, column: int)
    returns (s: string, ghost row: Row, ghost e: Ending, ghost blank: string)
    requires n.Branch? && Shaped(n) && path in style
    ensures Spelled(n, row, e) && s == str + RowText(row) + EndingText(e) + blank && blank == LastBlank(n, path, style)
    ensures IsLaidRow(n, path, style, column, row, Elements(n)) && IsLaidEnd(n, path, style, column, row, e)
    decreases n, 5
  {
    var k;
    s, k, row, e := AppendFirstLine(n, path, style, str, column, style[path].top);
    if k < |n.children| {
      s, row, e, blank := AppendOtherLines(n, path, style, s + "\n", column, column + style[path].indent, k, str, row);
    } else {
      blank := "";
      NoSpaces(s);
    }
  }

  // The first elements of a broken list, as many as its style puts on the first line.
  method AppendFirstLine(n: Node, path: Path, style: map<Path, Style>, str: string, column: int, top: nat)
    returns (s: string, k: nat, ghost row: Row, ghost e: Ending)
    requires n.Branch? && Shaped(n) && path in style && top == style[path].top
    ensures k == Top(n, path, style) && IsLaidRow(n, path, style, column, row, if k < Elements(n) then k else Elements(n))
    ensures k == |n.children| ==> IsLaidEnd(n, path, style, column, row, e)
    ensures k == |n.children| ==> Spelled(n, row, e) && s == str + RowText(row) + EndingText(e)
    ensures k < |n.children| ==> k <= Elements(n) && Spells(row, n.children, k) && s == str + RowText(row)
    decreases n, 3
  {
    var inner := column + if n.children[0].Branch? && n.children[0].proper then 1 else 2;
    var extra;
    s, k, extra, row := AppendTop(n, path, style, str, column, inner, top);
    e := NoDotEnd;
    NoSpaces(str + RowText(row));
    if k < top && k < |n.children| {
      s, e := AppendFirstLineEnd(n, path, style, s, column, inner, extra, str + RowText(row), row);
      k := k + 1;
    } else if k > 0 {
      // the last blank is taken back
      s := s[..|s| - 1];
      assert s == str + RowText(row);
    }
  }

  method AppendTop(n: Node, path: Path, style: map<Path, Style>, str: string, ghost column: int, inner: int, top: nat)
    returns (s: string, k: nat, extra: int, ghost row: Row)
    requires n.Branch? && Shaped(n) && path in style && top == style[path].top && inner == FirstColumn(n, path, style, column)
    ensures k == if top < Elements(n) then top else Elements(n)
    ensures s == str + RowText(row) + (if k > 0 then " " else "") && Spells(row, n.children, k)
    ensures IsLaidRow(n, path, style, column, row, k) && Counts(n, path, style, row, k, extra)
    decreases n, 2
  {
    s, k, extra, row := str, 0, 0, Start;
    NoSpaces(s);
    while k < top && k < Elements(n)
      invariant 0 <= k <= Elements(n) && k <= top
      invariant s == str + RowText(row) + (if k > 0 then " " else "") && Spells(row, n.children, k)
      invariant IsLaidRow(n, path, style, column, row, k) && Counts(n, path, style, row, k, extra)
    {
      s, extra, row := AppendOnFirstLine(n, k, path, style, s, column, inner, extra, str, row);
      s := s + " ";
      k := k + 1;
    }
  }

  method AppendFirstLineEnd(n: Node, path: Path, style: map<Path, Style>, str: string, ghost column: int, first: int, extra: int,
                            ghost base: string, ghost row: Row)
    returns (out: string, ghost e: Ending)
    requires n.Branch? && Shaped(n) && !n.proper && |n.children| - 1 < Top(n, path, style) && str == base + " "
    requires Counts(n, path, style, row, |n.children| - 1, extra) && first == FirstColumn(n, path, style, column)
    ensures e.DotEnd? && out == base + EndingText(e) && Ends(n, e) && IsLaidEnd(n, path, style, column, row, e)
    ensures IsFlat(n, path, style) ==> e == DotEnd(" ", " ", FlatNode(n.children[|n.children| - 1]))
    decreases n, 1
  {
    out, e := AppendDotted(n, path, style, str, " ", 0, first + extra, base, " ");
    EndsOnFirstLine(n, path, style, column, row, extra, e);
  }

  method AppendOnFirstLine(n: Node, k: nat, path: Path, style: map<Path, Style>, str: string, ghost column: int, inner: int, extra: int,
                           ghost head: string, ghost row: Row)
    returns (s: string, extra': int, ghost row': Row)
    requires n.Branch? && Shaped(n) && path in style && k < Elements(n) && k < Top(n, path, style) && Spells(row, n.children, k)
    requires str == head + RowText(row) + (if k > 0 then " " else "") && inner == FirstColumn(n, path, style, column)
    requires IsLaidRow(n, path, style, column, row, k) && Counts(n, path, style, row, k, extra)
    ensures s == head + RowText(row') && Spells(row', n.children, k + 1)
    ensures IsLaidRow(n, path, style, column, row', k + 1) && Counts(n, path, style, row', k + 1, extra')
    decreases n, 1
  {
    ghost var blank := if k > 0 then " " else "";
    NoSpaces(blank);
    s, row' := AppendElement(n, k, path, style, str, 0, inner + extra, head, row, blank);
    extra' := ExtraOffset(s, |str|, extra, |s|);
    NoSpaces(s);
    AppendedText(head, row, blank, row'.f, str, s, "");
    GrowsOnFirstLine(n, k, path, style, column, row, row', extra, str, s, "");
  }

  // The offset is that of the elements so far, unless one of them has no text.
  ghost predicate Counts(n: Node, path: Path, style: map<Path, Style>, row: Row, i: nat, extra: int)
    requires n.Branch?
  {
    HasEmpty(row) || extra == RowExtra(n, path, style, row, i)
  }

  lemma AppendedText(head: string, row: Row, blank: string, f: Form, str: string, s: string, more: string)
    requires str == head + RowText(row) + blank && s == head + RowText(Then(row, blank, f)) + more
    ensures s == str + (Text(f) + more)
  {
    PushText(row, blank, f, head);
    Assoc(str, Text(f), more);
  }

  // Looking back for a newline finds the last line of what was added.
  lemma ExtraOffsetAdvances(str: string, t: string, extra: int)
    requires t != ""
    ensures ExtraOffset(str + t, |str|, extra, |str + t|) == Advance(extra, t)
  {
    assert t[..|t|] == t;
    ExtraOffsetLooksBack(str, t, extra, |t|);
  }

  lemma {:induction false} ExtraOffsetLooksBack(str: string, t: string, extra: int, k: nat)
    requires 0 < k <= |t|
    ensures ExtraOffset(str + t, |str|, extra, |str| + k)
         == if LastLine(t[..k]) == "" then extra + |t| else |t| - k + |LastLine(t[..k])|
    decreases k
  {
    assert (str + t)[|str| + k - 1] == t[k - 1] && t[..k][..k - 1] == t[..k - 1];
    if k > 1 {
      ExtraOffsetLooksBack(str, t, extra, k - 1);
    }
  }

  // The other elements of a broken list; a keyword in last place leaves a blank behind.
  method AppendOtherLines(n: Node, path: Path, style: map<Path, Style>, str: string, ghost column: int, listing: int, from: nat,
                          ghost head: string, ghost before: Row)
    returns (s: string, ghost row: Row, ghost e: Ending, ghost blank: string)
    requires n.Branch? && Shaped(n) && from < |n.children| && from <= Elements(n)
    requires Spells(before, n.children, from) && str == head + RowText(before) + "\n"
    requires path in style && from == Top(n, path, style) && listing == column + style[path].indent
    requires IsLaidRow(n, path, style, column, before, from)
    ensures Spelled(n, row, e) && Blanks(blank) && s == head + RowText(row) + EndingText(e) + blank
    ensures IsLaidRow(n, path, style, column, row, Elements(n)) && IsLaidEnd(n, path, style, column, row, e)
    ensures blank == LastBlank(n, path, style)
    decreases n, 4
  {
    var afterKey;
    s, afterKey, row, blank := AppendOwnLines(n, path, style, str, column, listing, from, head, before);
    s, e, blank := AppendOwnEnd(n, path, style, s, column, listing, afterKey, from, head, row, blank);
  }

  // After the elements on lines of their own: the dot, or nothing more.
  method AppendOwnEnd(n: Node, path: Path, style: map<Path, Style>, str: string, ghost column: int, listing: int, afterKey: bool,
                      ghost from: nat, ghost head: string, ghost row: Row, ghost blank: string)
    returns (s: string, ghost e: Ending, ghost blank': string)
    requires n.Branch? && Shaped(n) && path in style && from == Top(n, path, style) < |n.children| && listing == column + style[path].indent
    requires from <= Elements(n) && Spells(row, n.children, Elements(n)) && str == head + RowText(row) + blank
    requires afterKey == AfterKeyword(n, from, Elements(n)) && blank == BlankAfter(n, from, Elements(n))
    ensures Ends(n, e) && IsLaidEnd(n, path, style, column, row, e)
    ensures s == head + RowText(row) + EndingText(e) + blank' && blank' == LastBlank(n, path, style)
    decreases n, 2
  {
    if n.proper {
      s, e, blank' := str, NoDotEnd, blank;
      NoSpaces(head + RowText(row));
    } else {
      s, e, blank' := AppendDottedLine(n, path, style, str, column, listing, if afterKey then 0 else listing,
                                       head + RowText(row), blank, row);
    }
  }

  method AppendOwnLines(n: Node, path: Path, style: map<Path, Style>, str: string, ghost column: int, listing: int, from: nat,
                        ghost head: string, ghost before: Row)
    returns (s: string, afterKey: bool, ghost row: Row, ghost blank: string)
    requires n.Branch? && Shaped(n) && from < |n.children| && from <= Elements(n)
    requires Spells(before, n.children, from) && str == head + RowText(before) + "\n"
    requires path in style && from == Top(n, path, style) && listing == column + style[path].indent
    requires IsLaidRow(n, path, style, column, before, from)
    ensures Spells(row, n.children, Elements(n)) && s == head + RowText(row) + blank && Blanks(blank)
    ensures IsLaidRow(n, path, style, column, row, Elements(n))
    ensures afterKey == AfterKeyword(n, from, Elements(n)) && blank == BlankAfter(n, from, Elements(n))
    decreases n, 3
  {
    s, row, blank := str, before, "\n";
    afterKey := false;
    var k := from;
    while k < Elements(n)
      invariant from <= k <= Elements(n)
      invariant s == head + RowText(row) + blank
      invariant Spells(row, n.children, k) && IsLaidRow(n, path, style, column, row, k)
      invariant afterKey == AfterKeyword(n, from, k) && blank == BlankAfter(n, from, k)
    {
      s, afterKey, row, blank := AppendNextLine(n, k, path, style, s, column, listing, afterKey, from, head, row, blank);
      k := k + 1;
    }
  }

  method AppendNextLine(n: Node, k: nat, path: Path, style: map<Path, Style>, str: string, ghost column: int, listing: int, afterKey: bool,
                        ghost from: nat, ghost head: string, ghost row: Row, ghost blank: string)
    returns (s: string, afterKey': bool, ghost row': Row, ghost blank': string)
    requires n.Branch? && Shaped(n) && from == Top(n, path, style) <= k < Elements(n) && Spells(row, n.children, k)
    requires path in style && str == head + RowText(row) + blank && listing == column + style[path].indent
    requires IsLaidRow(n, path, style, column, row, k)
    requires afterKey == AfterKeyword(n, from, k) && blank == BlankAfter(n, from, k)
    ensures s == head + RowText(row') + blank' && Spells(row', n.children, k + 1)
    ensures IsLaidRow(n, path, style, column, row', k + 1)
    ensures afterKey' == AfterKeyword(n, from, k + 1) && blank' == BlankAfter(n, from, k + 1)
    decreases n, 2
  {
    assert BesideKeyword(n, path, style, k) == afterKey;
    s, row' := AppendOnOwnLine(n, k, path, style, str, column, if afterKey then 0 else listing, listing, head, row, blank);
    s, blank', afterKey' := AfterElement(n, k, s);
  }

  predicate AfterKeyword(n: Node, from: nat, k: nat)
    requires n.Branch? && k <= |n.children|
  {
    k > from && IsKeywordArg(n.children[k - 1])
  }

  // What was appended after element k - 1, on a line of its own.
  function BlankAfter(n: Node, from: nat, k: nat): (r: string)
    requires n.Branch? && k <= |n.children|
    ensures Blanks(r)
  {
    if AfterKeyword(n, from, k) then " " else if k < |n.children| then "\n" else ""
  }

  method AppendOnOwnLine(n: Node, k: nat, path: Path, style: map<Path, Style>, str: string, ghost column: int, init: int, listing: int,
                         ghost head: string, ghost row: Row, ghost blank: string)
    returns (s: string, ghost row': Row)
    requires n.Branch? && Shaped(n) && path in style && Top(n, path, style) <= k < Elements(n) && Spells(row, n.children, k)
    requires str == head + RowText(row) + blank && listing == column + style[path].indent
    requires var beside := BesideKeyword(n, path, style, k);
             blank == (if beside then " " else "\n") && init == if beside then 0 else listing
    requires IsLaidRow(n, path, style, column, row, k)
    ensures s == head + RowText(row') && Spells(row', n.children, k + 1) && IsLaidRow(n, path, style, column, row', k + 1)
    decreases n, 1
  {
    s, row' := AppendElement(n, k, path, style, str, init, listing, head, row, blank);
    NoSpaces(blank);
    GrowsOnOwnLine(n, k, path, style, column, row, row');
  }

  lemma GrowsOnOwnLine(n: Node, i: nat, path: Path, style: map<Path, Style>, column: int, row: Row, row': Row)
    requires n.Branch? && n.children != [] && path in style && Top(n, path, style) <= i < |n.children|
    requires IsLaidRow(n, path, style, column, row, i) && row'.Then? && row'.before == row
    requires row'.ws == BlankBefore(n, path, style, column, i)
    requires IsLaid(n.children[i], path + [i], style, Listing(path, style, column), row'.f)
    ensures IsLaidRow(n, path, style, column, row', i + 1)
  {
  }

  // The dot on a line of its own, and what comes after it on the next one.
  method AppendDottedLine(n: Node, path: Path, style: map<Path, Style>, str: string, ghost column: int, listing: int, init: int,
                          ghost base: string, ghost blank: string, ghost row: Row)
    returns (s: string, ghost e: Ending, ghost blank': string)
    requires n.Branch? && Shaped(n) && !n.proper && str == base + blank && Blanks(blank) && blank != ""
    requires path in style && Top(n, path, style) < |n.children| && listing == column + style[path].indent
    requires var beside := BesideKeyword(n, path, style, |n.children| - 1);
             blank == (if beside then " " else "\n") && init == if beside then 0 else listing
    ensures e.DotEnd? && Blanks(blank') && s == base + EndingText(e) + blank'
    ensures Ends(n, e) && IsLaidEnd(n, path, style, column, row, e)
    ensures blank' == if IsKeywordArg(n.children[|n.children| - 1]) then " " else ""
    decreases n, 1
  {
    ghost var ws := blank + Spaces(listing);
    Assoc(base, blank, Spaces(listing));
    s, e := AppendDotted(n, path, style, str + Spaces(listing), "\n", init, listing, base, ws);
    EndsOnOwnLine(n, path, style, column, row, e);
    var afterKey;
    s, blank', afterKey := AfterElement(n, |n.children| - 1, s);
  }

  lemma EndsOnOwnLine(n: Node, path: Path, style: map<Path, Style>, column: int, row: Row, e: Ending)
    requires n.Branch? && n.children != [] && !n.proper && Top(n, path, style) < |n.children| && e.DotEnd?
    requires var listing := Listing(path, style, column);
             if BesideKeyword(n, path, style, |n.children| - 1) then e.ws == " " + Spaces(listing) && e.after == "\n"
             else e.ws == NewLine(listing) && (e.after == NewLine(listing) || (listing == 0 && e.after == "\n"))
    requires IsLaid(n.children[|n.children| - 1], path + [|n.children| - 1], style, Listing(path, style, column), e.f)
    ensures IsLaidEnd(n, path, style, column, row, e)
  {
    NoSpaces("\n");
  }

  // What follows an element on a line of its own: a blank after a keyword, else the end of the line.
  method AfterElement(n: Node, k: nat, s: string) returns (out: string, ghost blank: string, afterKey: bool)
    requires n.Branch? && k < |n.children|
    ensures out == s + blank && Blanks(blank) && (k < |n.children| - 1 ==> blank != "")
    ensures afterKey == IsKeywordArg(n.children[k])
    ensures blank == if afterKey then " " else if k < |n.children| - 1 then "\n" else ""
  {
    afterKey := IsKeywordArg(n.children[k]);
    blank := if afterKey then " " else if k < |n.children| - 1 then "\n" else "";
    out := s;
    if afterKey {
      out := out + " ";
    } else if k < |n.children| - 1 {
      out := out + "\n";
    }
    NoSpaces(s);
  }
}
