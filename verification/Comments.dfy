/** What the tokenizer skips: a grammar of blanks and comments, and that it is exactly what is skipped. */
module Comments {
  import opened Options
  import opened Tokens
  import opened Reading
  import opened Forms

  /** A stretch of a block comment: a character other than a bar, or a bar and the character after it,
      which is consumed with the bar. */
  datatype Unit = Plain(c: char) | BarThen(c: char)

  datatype Piece =
    | Blank(c: char)
    | LineComment(body: string)
    | BlockComment(units: seq<Unit>)

  /** A comment that the end of the text cuts off. */
  datatype OpenPiece =
    | OpenLine(body: string)
    | OpenBlock(units: seq<Unit>, bar: bool)

  function UnitText(u: Unit): string {
    match u
    case Plain(c) => [c]
    case BarThen(c) => ['|', c]
  }

  function UnitsText(units: seq<Unit>): string {
    if units == [] then "" else UnitText(units[0]) + UnitsText(units[1..])
  }

  function PieceText(p: Piece): string {
    match p
    case Blank(c) => [c]
    case LineComment(body) => [';'] + body + ['\n']
    case BlockComment(units) => ['#', '|'] + UnitsText(units) + ['|', '#']
  }

  function BarText(bar: bool): string {
    if bar then ['|'] else []
  }

  function OpenText(p: OpenPiece): string {
    match p
    case OpenLine(body) => [';'] + body
    case OpenBlock(units, bar) => ['#', '|'] + UnitsText(units) + BarText(bar)
  }

  // A bar and a number sign would end the comment.
  predicate InComment(units: seq<Unit>) {
    forall i :: 0 <= i < |units| ==> if units[i].Plain? then units[i].c != '|' else units[i].c != '#'
  }

  predicate OneLine(body: string) {
    forall i :: 0 <= i < |body| ==> body[i] != '\n'
  }

  predicate IsPiece(p: Piece) {
    match p
    case Blank(c) => c == ' ' || c == '\t' || c == '\n' || c == '\r'
    case LineComment(body) => OneLine(body)
    case BlockComment(units) => InComment(units)
  }

  predicate IsOpenPiece(p: OpenPiece) {
    match p
    case OpenLine(body) => OneLine(body)
    case OpenBlock(units, _) => InComment(units)
  }

  // No piece begins here.
  predicate NothingToSkip(text: string, pos: nat) {
    pos == |text| || (pos < |text| && text[pos] != ' ' && text[pos] != '\t' && text[pos] != '\n' && text[pos] != '\r' && text[pos] != ';'
                      && !(text[pos] == '#' && pos + 1 < |text| && text[pos + 1] == '|'))
  }

  // The piece stands from pos to next.
  ghost predicate Stands(text: string, pos: nat, p: Piece, next: nat) {
    IsPiece(p) && At(text, pos, PieceText(p)) && next == pos + |PieceText(p)|
  }

  // Nothing more can be skipped, or a comment goes on to the end of the text.
  ghost predicate Finishes(text: string, pos: nat, end: nat, open: Option<OpenPiece>) {
    match open
    case None => pos == end && NothingToSkip(text, pos)
    case Some(last) => IsOpenPiece(last) && At(text, pos, OpenText(last)) && pos + |OpenText(last)| == end == |text|
  }

  /** Pieces one after the other, and how they end. */
  datatype Pieces = Last(open: Option<OpenPiece>) | Then(p: Piece, rest: Pieces)

  // From pos to end stand these pieces.
  ghost predicate Skipped(text: string, pos: nat, end: nat, pieces: Pieces)
    decreases pieces
  {
    match pieces
    case Last(open) => Finishes(text, pos, end, open)
    case Then(p, rest) =>
      Stands(text, pos, p, pos + |PieceText(p)|) && Skipped(text, pos + |PieceText(p)|, end, rest)
  }

  lemma AtJoin(text: string, pos: nat, a: string, b: string)
    requires At(text, pos, a) && At(text, pos + |a|, b)
    ensures At(text, pos, a + b)
  {
    forall i | 0 <= i < |a + b|
      ensures text[pos + i] == (a + b)[i]
    {
      if i >= |a| {
        assert text[pos + |a| + (i - |a|)] == b[i - |a|];
      }
    }
  }

  lemma AtJoin3(text: string, pos: nat, a: string, b: string, c: string)
    requires At(text, pos, a) && At(text, pos + |a|, b) && At(text, pos + |a| + |b|, c)
    ensures At(text, pos, a + b + c)
  {
    AtJoin(text, pos, a, b);
    AtJoin(text, pos, a + b, c);
  }

  lemma AtSplit3(text: string, pos: nat, a: string, b: string, c: string)
    requires At(text, pos, a + b + c)
    ensures At(text, pos, a) && At(text, pos + |a|, b) && At(text, pos + |a| + |b|, c)
  {
    AtSplit(text, pos, a + b, c);
    AtSplit(text, pos, a, b);
  }

  lemma AtPair(text: string, pos: nat, a: char, b: char)
    ensures At(text, pos, [a, b]) <==> pos + 2 <= |text| && text[pos] == a && text[pos + 1] == b
  {
    if At(text, pos, [a, b]) {
      assert text[pos + 0] == [a, b][0] && text[pos + 1] == [a, b][1];
    }
  }

  lemma AtChar(text: string, pos: nat, a: char)
    ensures At(text, pos, [a]) <==> pos < |text| && text[pos] == a
  {
    if At(text, pos, [a]) {
      assert text[pos + 0] == [a][0];
    }
  }

  // ---- comments end where they should ----

  lemma {:induction false} LineGoesOn(text: string, pos: nat, body: string)
    requires At(text, pos, body) && OneLine(body)
    ensures AfterNewline(text, pos) == AfterNewline(text, pos + |body|)
    decreases |body|
  {
    if body != [] {
      assert body == [body[0]] + body[1..];
      AtSplit(text, pos, [body[0]], body[1..]);
      AtFirst(text, pos, body);
      LineGoesOn(text, pos + 1, body[1..]);
    }
  }

  lemma UnitGoesOn(text: string, pos: nat, u: Unit)
    requires At(text, pos, UnitText(u)) && if u.Plain? then u.c != '|' else u.c != '#'
    ensures AfterBlockComment(text, pos) == AfterBlockComment(text, pos + |UnitText(u)|)
  {
    match u
    case Plain(c) =>
      AtChar(text, pos, c);
      assert AfterBar(text, pos) == AfterBar(text, pos + 1);
    case BarThen(c) =>
      AtPair(text, pos, '|', c);
      assert AfterBar(text, pos) == pos + 1;
  }

  lemma {:induction false} BlockGoesOn(text: string, pos: nat, units: seq<Unit>)
    requires At(text, pos, UnitsText(units)) && InComment(units)
    ensures AfterBlockComment(text, pos) == AfterBlockComment(text, pos + |UnitsText(units)|)
    decreases |units|
  {
    if units != [] {
      AtSplit(text, pos, UnitText(units[0]), UnitsText(units[1..]));
      UnitGoesOn(text, pos, units[0]);
      BlockGoesOn(text, pos + |UnitText(units[0])|, units[1..]);
    }
  }

  lemma LineIsSkipped(text: string, pos: nat, body: string)
    requires OneLine(body) && At(text, pos, [';'] + body + ['\n'])
    ensures SkipBlank(text, pos) == SkipBlank(text, pos + |body| + 2)
  {
    AtSplit3(text, pos, [';'], body, ['\n']);
    AtChar(text, pos, ';');
    LineGoesOn(text, pos + 1, body);
    AtChar(text, pos + 1 + |body|, '\n');
    assert AfterNewline(text, pos + 1 + |body|) == pos + |body| + 2;
  }

  lemma BlockIsSkipped(text: string, pos: nat, units: seq<Unit>)
    requires InComment(units) && At(text, pos, ['#', '|'] + UnitsText(units) + ['|', '#'])
    ensures SkipBlank(text, pos) == SkipBlank(text, pos + |UnitsText(units)| + 4)
  {
    AtSplit3(text, pos, ['#', '|'], UnitsText(units), ['|', '#']);
    AtPair(text, pos, '#', '|');
    BlockGoesOn(text, pos + 2, units);
    BlockCloses(text, pos + 2 + |UnitsText(units)|);
  }

  lemma BlockCloses(text: string, pos: nat)
    requires At(text, pos, ['|', '#'])
    ensures AfterBlockComment(text, pos) == pos + 2
  {
    AtPair(text, pos, '|', '#');
    assert AfterBar(text, pos) == pos + 1;
  }

  lemma PieceIsSkipped(text: string, pos: nat, p: Piece)
    requires IsPiece(p) && At(text, pos, PieceText(p))
    ensures SkipBlank(text, pos) == SkipBlank(text, pos + |PieceText(p)|)
  {
    match p
    case Blank(c) => AtChar(text, pos, c);
    case LineComment(body) => LineIsSkipped(text, pos, body);
    case BlockComment(units) => BlockIsSkipped(text, pos, units);
  }

  lemma OpenIsSkipped(text: string, pos: nat, p: OpenPiece)
    requires IsOpenPiece(p) && At(text, pos, OpenText(p)) && pos + |OpenText(p)| == |text|
    ensures SkipBlank(text, pos) == |text|
  {
    match p
    case OpenLine(body) =>
      AtSplit(text, pos, [';'], body);
      AtChar(text, pos, ';');
      LineGoesOn(text, pos + 1, body);
    case OpenBlock(units, bar) =>
      AtSplit3(text, pos, ['#', '|'], UnitsText(units), BarText(bar));
      AtPair(text, pos, '#', '|');
      OpenBlockEnds(text, pos + 2, units, bar);
  }

  lemma OpenBlockEnds(text: string, pos: nat, units: seq<Unit>, bar: bool)
    requires InComment(units) && At(text, pos, UnitsText(units)) && At(text, pos + |UnitsText(units)|, BarText(bar))
    requires pos + |UnitsText(units)| + |BarText(bar)| == |text|
    ensures AfterBlockComment(text, pos) == |text|
  {
    BlockGoesOn(text, pos, units);
    if bar {
      AtChar(text, |text| - 1, '|');
      assert AfterBar(text, |text| - 1) == |text|;
    }
  }

  lemma StandingIsSkipped(text: string, pos: nat, p: Piece, next: nat)
    requires Stands(text, pos, p, next)
    ensures pos <= next <= |text| && SkipBlank(text, pos) == SkipBlank(text, next)
  {
    PieceIsSkipped(text, pos, p);
  }

  lemma FinishIsSkipped(text: string, pos: nat, end: nat, open: Option<OpenPiece>)
    requires Finishes(text, pos, end, open)
    ensures pos <= |text| && SkipBlank(text, pos) == end
  {
    if open.Some? {
      OpenIsSkipped(text, pos, open.value);
    }
  }

  /** Whatever is written as blanks and comments is skipped, and no more. */
  lemma {:induction false} PiecesAreSkipped(text: string, pos: nat, end: nat, pieces: Pieces)
    requires Skipped(text, pos, end, pieces)
    ensures pos <= |text| && SkipBlank(text, pos) == end
    decreases pieces
  {
    match pieces
    case Last(open) =>
      FinishIsSkipped(text, pos, end, open);
    case Then(p, rest) =>
      var next := pos + |PieceText(p)|;
      StandingIsSkipped(text, pos, p, next);
      PiecesAreSkipped(text, next, end, rest);
  }

  // ---- and what is skipped is written that way ----

  lemma {:induction false} LineIsComment(text: string, pos: nat) returns (body: string)
    requires pos <= |text|
    ensures OneLine(body) && At(text, pos, body)
    ensures var end := pos + |body|;
            if end == |text| then AfterNewline(text, pos) == end else text[end] == '\n' && AfterNewline(text, pos) == end + 1
    decreases |text| - pos
  {
    if pos == |text| || text[pos] == '\n' {
      body := "";
    } else {
      var rest := LineIsComment(text, pos + 1);
      AtChar(text, pos, text[pos]);
      AtJoin(text, pos, [text[pos]], rest);
      body := [text[pos]] + rest;
    }
  }

  /** How a block comment ends: with a bar and a number sign, or with the text, after a bar or not. */
  datatype BlockEnd = Closed | AtBar | Open

  ghost predicate BlockEndsAt(text: string, pos: nat, how: BlockEnd, end: nat) {
    match how
    case Closed => At(text, pos, ['|', '#']) && end == pos + 2
    case AtBar => At(text, pos, ['|']) && end == pos + 1 == |text|
    case Open => end == pos == |text|
  }

  lemma {:induction false} BlockIsComment(text: string, pos: nat) returns (units: seq<Unit>, how: BlockEnd)
    requires pos <= |text|
    ensures InComment(units) && At(text, pos, UnitsText(units))
    ensures BlockEndsAt(text, pos + |UnitsText(units)|, how, AfterBlockComment(text, pos))
    decreases |text| - pos
  {
    if pos == |text| || (text[pos] == '|' && (pos + 1 == |text| || text[pos + 1] == '#')) {
      units := [];
      how := BlockStops(text, pos);
    } else {
      var u := UnitAt(text, pos);
      UnitGoesOn(text, pos, u);
      var rest;
      rest, how := BlockIsComment(text, pos + |UnitText(u)|);
      AtJoin(text, pos, UnitText(u), UnitsText(rest));
      units := [u] + rest;
      assert units[1..] == rest;
    }
  }

  lemma UnitAt(text: string, pos: nat) returns (u: Unit)
    requires pos < |text| && (text[pos] == '|' ==> pos + 1 < |text| && text[pos + 1] != '#')
    ensures At(text, pos, UnitText(u)) && if u.Plain? then u.c != '|' else u.c != '#'
  {
    u := if text[pos] == '|' then BarThen(text[pos + 1]) else Plain(text[pos]);
    if text[pos] == '|' {
      AtPair(text, pos, '|', text[pos + 1]);
    } else {
      AtChar(text, pos, text[pos]);
    }
  }

  lemma BlockStops(text: string, pos: nat) returns (how: BlockEnd)
    requires pos <= |text| && (pos < |text| ==> text[pos] == '|' && (pos + 1 < |text| ==> text[pos + 1] == '#'))
    ensures BlockEndsAt(text, pos, how, AfterBlockComment(text, pos))
  {
    how := if pos == |text| then BlockEnd.Open else if pos + 1 == |text| then BlockEnd.AtBar else BlockEnd.Closed;
    AtPair(text, pos, '|', '#');
    AtChar(text, pos, '|');
    if pos < |text| {
      assert AfterBar(text, pos) == pos + 1;
    }
  }

  // The piece that begins at pos.
  ghost predicate BeginsWith(text: string, pos: nat, first: Option<Piece>, open: Option<OpenPiece>) {
    match first
    case Some(p) => IsPiece(p) && PieceText(p) != "" && At(text, pos, PieceText(p))
    case None => open.Some? && IsOpenPiece(open.value) && At(text, pos, OpenText(open.value)) && pos + |OpenText(open.value)| == |text|
  }

  lemma FirstPiece(text: string, pos: nat) returns (first: Option<Piece>, open: Option<OpenPiece>)
    requires pos < |text| && !NothingToSkip(text, pos)
    ensures BeginsWith(text, pos, first, open)
  {
    if text[pos] == ';' {
      first, open := LinePiece(text, pos);
    } else if text[pos] == '#' {
      first, open := BlockPiece(text, pos);
    } else {
      first, open := Some(Blank(text[pos])), None;
      AtChar(text, pos, text[pos]);
    }
  }

  lemma LinePiece(text: string, pos: nat) returns (first: Option<Piece>, open: Option<OpenPiece>)
    requires pos < |text| && text[pos] == ';'
    ensures BeginsWith(text, pos, first, open)
  {
    first, open := None, None;
    var body := LineIsComment(text, pos + 1);
    AtChar(text, pos, ';');
    AtJoin(text, pos, [';'], body);
    if pos + 1 + |body| < |text| {
      first := Some(LineComment(body));
      AtChar(text, pos + 1 + |body|, '\n');
      AtJoin(text, pos, [';'] + body, ['\n']);
    } else {
      open := Some(OpenLine(body));
    }
  }

  lemma BlockPiece(text: string, pos: nat) returns (first: Option<Piece>, open: Option<OpenPiece>)
    requires pos + 1 < |text| && text[pos] == '#' && text[pos + 1] == '|'
    ensures BeginsWith(text, pos, first, open)
  {
    first, open := None, None;
    var units, how := BlockIsComment(text, pos + 2);
    AtPair(text, pos, '#', '|');
    if how.Closed? {
      first := Some(BlockComment(units));
      AtJoin3(text, pos, ['#', '|'], UnitsText(units), ['|', '#']);
    } else {
      open := Some(OpenBlock(units, how.AtBar?));
      AtJoin3(text, pos, ['#', '|'], UnitsText(units), BarText(how.AtBar?));
    }
  }

  lemma {:induction false} SkippedIsPieces(text: string, pos: nat) returns (pieces: Pieces)
    requires pos <= |text|
    ensures Skipped(text, pos, SkipBlank(text, pos), pieces)
    decreases |text| - pos
  {
    if NothingToSkip(text, pos) {
      pieces := Last(None);
    } else {
      var first, open := FirstPiece(text, pos);
      if first.Some? {
        var next := SkipsPiece(text, pos, first.value, open);
        var rest := SkippedIsPieces(text, next);
        pieces := Then(first.value, rest);
      } else {
        OpenIsSkipped(text, pos, open.value);
        pieces := Last(open);
      }
    }
  }

  lemma SkipsPiece(text: string, pos: nat, p: Piece, open: Option<OpenPiece>) returns (next: nat)
    requires pos <= |text| && BeginsWith(text, pos, Some(p), open)
    ensures Stands(text, pos, p, next) && pos < next <= |text| && next == pos + |PieceText(p)|
    ensures SkipBlank(text, pos) == SkipBlank(text, next)
  {
    PieceIsSkipped(text, pos, p);
    next := pos + |PieceText(p)|;
  }

  // From pos to end there are blanks and comments only, and there they stop.
  ghost predicate BlanksAndComments(text: string, pos: nat, end: nat) {
    exists pieces: Pieces :: Skipped(text, pos, end, pieces)
  }

  lemma SkipsNoMore(text: string, pos: nat, end: nat)
    requires BlanksAndComments(text, pos, end)
    ensures pos <= |text| && end == SkipBlank(text, pos)
  {
    var pieces: Pieces :| Skipped(text, pos, end, pieces);
    PiecesAreSkipped(text, pos, end, pieces);
  }

  lemma SkipsNoLess(text: string, pos: nat)
    requires pos <= |text|
    ensures BlanksAndComments(text, pos, SkipBlank(text, pos))
  {
    var pieces := SkippedIsPieces(text, pos);
  }

  /** So the cursor stops at the end of the longest run of blanks and comments, and nowhere else. */
  lemma SkipsExactlyComments(text: string, pos: nat, end: nat)
    requires pos <= |text|
    ensures end == SkipBlank(text, pos) <==> BlanksAndComments(text, pos, end)
  {
    SkipsNoLess(text, pos);
    if BlanksAndComments(text, pos, end) {
      SkipsNoMore(text, pos, end);
    }
  }

  // What comes after blanks and comments is read as if they were not there.
  lemma CommentsBeforeForm(text: string, pos: nat, p: nat)
    requires BlanksAndComments(text, pos, p)
    ensures pos <= |text| && p <= |text| && ReadSingleForm(text, pos) == ReadSingleForm(text, p)
  {
    SkipsNoMore(text, pos, p);
    SkipBlankStops(text, pos);
  }
}
