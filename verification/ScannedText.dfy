/** What the completeness test makes of a text, from what the text is made of: strings, line comments
    and character literals count for nothing, brackets are counted in between. */
module ScannedText {
  import opened Forms
  import opened Completeness

  /** A character in a string, or a backslash and the character after it. */
  datatype Unit = Itself(c: char) | Escaped(c: char)

  datatype Units = NoUnit | ThenUnit(u: Unit, rest: Units)

  /** What can stand in a text: a character that counts for nothing, a bracket, a character literal, a
      string and a comment. */
  datatype Segment =
    | Other(c: char)
    | Bracket(c: char)
    | Literal(c: char)
    | Str(units: Units)
    | Comment(body: string)

  /** How a text ends: after a segment, or inside a literal, a string, after a backslash in it or not,
      or a comment. */
  datatype Ending = Ended | HalfLiteral | OpenStr(units: Units, backslash: bool) | OpenComment(body: string)

  datatype Segments = Last(end: Ending) | Then(s: Segment, rest: Segments)

  function UnitsText(units: Units): string {
    match units
    case NoUnit => ""
    case ThenUnit(Itself(c), rest) => [c] + UnitsText(rest)
    case ThenUnit(Escaped(c), rest) => ['\\', c] + UnitsText(rest)
  }

  predicate AreUnits(units: Units) {
    units.ThenUnit? ==> (units.u.Itself? ==> units.u.c != '"' && units.u.c != '\\') && AreUnits(units.rest)
  }

  predicate OneLine(body: string) {
    forall i :: 0 <= i < |body| ==> body[i] != '\n'
  }

  predicate IsBracket(c: char) {
    c == '(' || c == ')' || c == '[' || c == ']' || c == '{' || c == '}'
  }

  // A number sign before a backslash begins a literal.
  ghost predicate StandsFor(text: string, pos: nat, s: Segment, next: nat) {
    pos < next <= |text| &&
    match s
    case Other(c) =>
      && next == pos + 1 && text[pos] == c && !IsBracket(c) && c != '"' && c != ';'
      && (c == '#' && next < |text| ==> text[next] != '\\')
    case Bracket(c) => next == pos + 1 && text[pos] == c && IsBracket(c)
    case Literal(c) => next == pos + 3 && text[pos] == '#' && text[pos + 1] == '\\' && text[pos + 2] == c
    case Str(units) =>
      && AreUnits(units) && next == pos + |UnitsText(units)| + 2
      && text[pos] == '"' && At(text, pos + 1, UnitsText(units)) && text[next - 1] == '"'
    case Comment(body) =>
      && OneLine(body) && next == pos + |body| + 2
      && text[pos] == ';' && At(text, pos + 1, body) && text[next - 1] == '\n'
  }

  ghost predicate EndsWith(text: string, pos: nat, end: Ending) {
    pos <= |text| &&
    match end
    case Ended => pos == |text|
    case HalfLiteral => pos + 2 == |text| && text[pos] == '#' && text[pos + 1] == '\\'
    case OpenStr(units, backslash) =>
      && AreUnits(units) && pos + |UnitsText(units)| + (if backslash then 2 else 1) == |text|
      && text[pos] == '"' && At(text, pos + 1, UnitsText(units)) && (backslash ==> text[|text| - 1] == '\\')
    case OpenComment(body) =>
      OneLine(body) && pos + |body| + 1 == |text| && text[pos] == ';' && At(text, pos + 1, body)
  }

  function Width(s: Segment): nat {
    match s
    case Other(_) => 1
    case Bracket(_) => 1
    case Literal(_) => 3
    case Str(units) => |UnitsText(units)| + 2
    case Comment(body) => |body| + 2
  }

  // The text from pos on is made of these segments.
  ghost predicate MadeOf(text: string, pos: nat, segments: Segments)
    decreases segments
  {
    match segments
    case Last(end) => EndsWith(text, pos, end)
    case Then(s, rest) => StandsFor(text, pos, s, pos + Width(s)) && MadeOf(text, pos + Width(s), rest)
  }

  /** How many brackets of each kind are open. */
  datatype Counts = Counts(round: int, square: int, curly: int)

  function Counted(n: Counts, c: char): Counts {
    match c
    case '(' => n.(round := n.round + 1)
    case ')' => n.(round := n.round - 1)
    case '[' => n.(square := n.square + 1)
    case ']' => n.(square := n.square - 1)
    case '{' => n.(curly := n.curly + 1)
    case '}' => n.(curly := n.curly - 1)
    case _ => n
  }

  predicate TooMany(n: Counts) {
    n.round < 0 || n.square < 0 || n.curly < 0
  }

  // With these brackets open, the text is complete: a bracket too many settles it; else every bracket
  // and every string must be closed in the end.
  predicate Verdict(segments: Segments, n: Counts)
    decreases segments
  {
    match segments
    case Last(end) => n == Counts(0, 0, 0) && !end.OpenStr?
    case Then(Bracket(c), rest) => TooMany(Counted(n, c)) || Verdict(rest, Counted(n, c))
    case Then(_, rest) => Verdict(rest, n)
  }

  ghost function State(n: Counts): Scan {
    Scan(n.round, n.square, n.curly, false, false, false)
  }

  // ---- the scanner on each segment ----

  lemma {:induction false} ScansUnits(text: string, pos: nat, units: Units, st: Scan)
    requires AreUnits(units) && At(text, pos, UnitsText(units)) && st.inString && !st.inComment && !st.escapeNext
    ensures Complete(text, pos, st) == Complete(text, pos + |UnitsText(units)|, st)
    decreases units
  {
    match units
    case NoUnit =>
    case ThenUnit(Itself(c), rest) =>
      AtSplit(text, pos, [c], UnitsText(rest));
      AtFirst(text, pos, [c]);
      ScansUnits(text, pos + 1, rest, st);
    case ThenUnit(Escaped(c), rest) =>
      AtSplit(text, pos, ['\\', c], UnitsText(rest));
      AtFirst(text, pos, ['\\', c]);
      ScansUnits(text, pos + 2, rest, st);
      ScansEscape(text, pos, st);
  }

  lemma ScansEscape(text: string, pos: nat, st: Scan)
    requires pos + 2 <= |text| && text[pos] == '\\' && st.inString && !st.inComment && !st.escapeNext
    ensures Complete(text, pos, st) == Complete(text, pos + 2, st)
  {
    assert Complete(text, pos, st) == Complete(text, pos + 1, st.(escapeNext := true));
  }

  lemma {:induction false} ScansComment(text: string, pos: nat, body: string, st: Scan)
    requires OneLine(body) && At(text, pos, body) && st.inComment && !st.escapeNext
    ensures Complete(text, pos, st) == Complete(text, pos + |body|, st)
    decreases |body|
  {
    if body != [] {
      assert body == [body[0]] + body[1..];
      AtSplit(text, pos, [body[0]], body[1..]);
      AtFirst(text, pos, body);
      ScansComment(text, pos + 1, body[1..], st);
    }
  }

  lemma ScansSegment(text: string, pos: nat, s: Segment, next: nat, n: Counts)
    requires StandsFor(text, pos, s, next) && !TooMany(n)
    ensures Complete(text, pos, State(n))
         == if s.Bracket? then TooMany(Counted(n, s.c)) || Complete(text, next, State(Counted(n, s.c))) else Complete(text, next, State(n))
  {
    match s
    case Other(_) =>
    case Bracket(_) =>
    case Literal(_) =>
    case Str(units) =>
      var inside := State(n).(inString := true);
      assert Complete(text, pos, State(n)) == Complete(text, pos + 1, inside);
      ScansUnits(text, pos + 1, units, inside);
    case Comment(body) =>
      var inside := State(n).(inComment := true);
      assert Complete(text, pos, State(n)) == Complete(text, pos + 1, inside);
      ScansComment(text, pos + 1, body, inside);
  }

  lemma ScansEnd(text: string, pos: nat, end: Ending, n: Counts)
    requires EndsWith(text, pos, end) && !TooMany(n)
    ensures Complete(text, pos, State(n)) <==> n == Counts(0, 0, 0) && !end.OpenStr?
  {
    match end
    case Ended =>
    case HalfLiteral =>
    case OpenStr(units, backslash) =>
      var inside := State(n).(inString := true);
      assert Complete(text, pos, State(n)) == Complete(text, pos + 1, inside);
      ScansUnits(text, pos + 1, units, inside);
    case OpenComment(body) =>
      var inside := State(n).(inComment := true);
      assert Complete(text, pos, State(n)) == Complete(text, pos + 1, inside);
      ScansComment(text, pos + 1, body, inside);
  }

  lemma {:induction false} VerdictFrom(text: string, pos: nat, segments: Segments, n: Counts)
    requires MadeOf(text, pos, segments) && !TooMany(n)
    ensures pos <= |text| && (Complete(text, pos, State(n)) <==> Verdict(segments, n))
    decreases segments
  {
    match segments
    case Last(end) =>
      ScansEnd(text, pos, end, n);
    case Then(s, rest) =>
      ScansSegment(text, pos, s, pos + Width(s), n);
      if !s.Bracket? {
        VerdictFrom(text, pos + Width(s), rest, n);
      } else if !TooMany(Counted(n, s.c)) {
        VerdictFrom(text, pos + Width(s), rest, Counted(n, s.c));
      }
  }

  /** The verdict on a text, whatever it is made of. */
  lemma TextVerdict(text: string, segments: Segments)
    requires MadeOf(text, 0, segments)
    ensures Complete(text, 0, START) <==> Verdict(segments, Counts(0, 0, 0))
  {
    VerdictFrom(text, 0, segments, Counts(0, 0, 0));
  }

  // ---- every text is made of segments ----

  lemma {:induction false} CommentFrom(text: string, pos: nat) returns (body: string)
    requires pos <= |text|
    ensures OneLine(body) && At(text, pos, body) && (pos + |body| < |text| ==> text[pos + |body|] == '\n')
    decreases |text| - pos
  {
    body := "";
    if pos < |text| && text[pos] != '\n' {
      var rest := CommentFrom(text, pos + 1);
      body := [text[pos]] + rest;
    }
  }

  // The units of a string from pos on, up to its closing quote, or the end of the text.
  lemma {:induction false} UnitsFrom(text: string, pos: nat) returns (units: Units, backslash: bool)
    requires pos <= |text|
    ensures AreUnits(units) && At(text, pos, UnitsText(units))
    ensures var end := pos + |UnitsText(units)|;
            if backslash then end + 1 == |text| && text[end] == '\\' else end == |text| || text[end] == '"'
    decreases |text| - pos
  {
    units, backslash := NoUnit, false;
    if pos < |text| && text[pos] != '"' {
      if text[pos] != '\\' {
        var rest;
        rest, backslash := UnitsFrom(text, pos + 1);
        units := ThenUnit(Itself(text[pos]), rest);
        PrependAt(text, pos, [text[pos]], UnitsText(rest));
      } else if pos + 1 == |text| {
        backslash := true;
      } else {
        var rest;
        rest, backslash := UnitsFrom(text, pos + 2);
        units := ThenUnit(Escaped(text[pos + 1]), rest);
        PrependAt(text, pos, ['\\', text[pos + 1]], UnitsText(rest));
      }
    }
  }

  lemma PrependAt(text: string, pos: nat, a: string, b: string)
    requires At(text, pos + |a|, b) && forall i :: 0 <= i < |a| ==> text[pos + i] == a[i]
    ensures At(text, pos, a + b)
  {
    forall i | 0 <= i < |a + b|
      ensures text[pos + i] == (a + b)[i]
    {
      if i >= |a| {
        assert text[pos + |a| + (i - |a|)] == b[i - |a|];
      }
    }
  }

  lemma FirstSegment(text: string, pos: nat) returns (segment: Segment, end: Ending, closed: bool)
    requires pos < |text|
    ensures if closed then StandsFor(text, pos, segment, pos + Width(segment)) else EndsWith(text, pos, end)
  {
    segment, end, closed := Other(text[pos]), Ended, true;
    if IsBracket(text[pos]) {
      segment := Bracket(text[pos]);
    } else if text[pos] == '"' {
      var units, backslash := UnitsFrom(text, pos + 1);
      closed := !backslash && pos + 1 + |UnitsText(units)| < |text|;
      segment, end := Str(units), OpenStr(units, backslash);
    } else if text[pos] == ';' {
      var body := CommentFrom(text, pos + 1);
      closed := pos + 1 + |body| < |text|;
      segment, end := Comment(body), OpenComment(body);
    } else if text[pos] == '#' && pos + 1 < |text| && text[pos + 1] == '\\' {
      closed := pos + 2 < |text|;
      segment, end := Literal(if closed then text[pos + 2] else ' '), HalfLiteral;
    }
  }

  lemma {:induction false} TextIsSegments(text: string, pos: nat) returns (segments: Segments)
    requires pos <= |text|
    ensures MadeOf(text, pos, segments)
    decreases |text| - pos
  {
    if pos == |text| {
      segments := Last(Ended);
    } else {
      var segment, end, closed := FirstSegment(text, pos);
      if closed {
        var rest := TextIsSegments(text, pos + Width(segment));
        segments := Then(segment, rest);
      } else {
        segments := Last(end);
      }
    }
  }
}
