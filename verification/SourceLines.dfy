/** Line numbers: the offset table of a source text against the reader's own line counting. */
module SourceLines {
  import opened Options
  import opened Objects
  import opened Tokens
  import opened Reading

  predicate HasBom(text: string) {
    |text| >= 3 && text[0] == 0xEF as char && text[1] == 0xBB as char && text[2] == 0xBF as char
  }

  // Offsets just after each newline among the first n characters.
  function LineStarts(text: string, n: nat): (r: seq<nat>)
    requires n <= |text|
    ensures |r| == Newlines(text, n)
  {
    if n == 0 then [] else LineStarts(text, n - 1) + if text[n - 1] == '\n' then [n] else []
  }

  lemma {:induction false} LineStartsFollowNewlines(text: string, n: nat, k: nat)
    requires n <= |text| && k < Newlines(text, n)
    ensures var s := LineStarts(text, n)[k];
            0 < s <= n && text[s - 1] == '\n' && Newlines(text, s) == k + 1
  {
    if k < Newlines(text, n - 1) {
      LineStartsFollowNewlines(text, n - 1, k);
    }
  }

  // One entry per line start, the first after any byte order mark, and the size of the text.
  ghost predicate IsTable(text: string, table: seq<nat>)
  {
    && |table| == Newlines(text, |text|) + 2
    && table[0] == (if HasBom(text) then 3 else 0) && table[|table| - 1] == |text|
    && table[1..|table| - 1] == LineStarts(text, |text|)
  }

  class SourceText {
    const text: string
    var offsetByLine: seq<nat>

    ghost predicate Valid()
      reads this
    {
      IsTable(text, offsetByLine)
    }

    constructor (text: string)
      ensures Valid() && this.text == text
    {
      this.text := text;
      offsetByLine := [];
      new;
      BuildOffsets();
    }

    /** The offset where each line begins, and the size of the text as a final entry. */
    method BuildOffsets()
      modifies this
      ensures Valid()
    {
      offsetByLine := [if HasBom(text) then 3 else 0];
      for i := 0 to |text|
        invariant |offsetByLine| >= 1 && offsetByLine[0] == if HasBom(text) then 3 else 0
        invariant offsetByLine[1..] == LineStarts(text, i)
      {
        if text[i] == '\n' {
          offsetByLine := offsetByLine + [i + 1];
        }
      }
      offsetByLine := offsetByLine + [|text|];
    }

    /** The line that contains an offset, from 0 on; None when the offset is past the end. */
    method GetLineIdx(offset: int) returns (r: Option<nat>)
      requires Valid()
      ensures 0 <= offset < |text| ==> r == Some(Newlines(text, offset))
      ensures offset >= |text| ==> r == None
    {
      if offsetByLine[0] > offset {
        if 0 <= offset {
          BomHasNoNewline(text, offset);
        }
        return Some(0);
      }
      var line := 0;
      while line < |offsetByLine| - 1
        invariant 0 <= line < |offsetByLine| && offsetByLine[line] <= offset
        invariant offset < |text| ==> line <= Newlines(text, offset)
      {
        if offset >= offsetByLine[line] && offset < offsetByLine[line + 1] {
          LineHolds(text, offsetByLine, line, offset);
          return Some(line);
        }
        if offset < |text| {
          NextLineStarts(text, offsetByLine, line, offset);
        }
        line := line + 1;
      }
      return None;
    }

    method GetOffsetOfLine(line: nat) returns (r: Option<nat>)
      requires Valid()
      ensures r.None? <==> line >= Newlines(text, |text|) + 2
      ensures line == 0 ==> r == Some(if HasBom(text) then 3 else 0)
      ensures line == Newlines(text, |text|) + 1 ==> r == Some(|text|)
      ensures 1 <= line <= Newlines(text, |text|) ==>
        r.Some? && 0 < r.value <= |text| && text[r.value - 1] == '\n' && Newlines(text, r.value) == line
    {
      if line >= |offsetByLine| {
        return None;
      }
      if 1 <= line <= Newlines(text, |text|) {
        EntryIsLineStart(text, offsetByLine, line);
      }
      return Some(offsetByLine[line]);
    }
  }

  lemma BomHasNoNewline(text: string, offset: nat)
    requires offset < if HasBom(text) then 3 else 0
    ensures Newlines(text, offset) == 0
  {
    assert Newlines(text, 0) == 0 && Newlines(text, 1) == 0 && Newlines(text, 2) == 0;
  }

  lemma EntryIsLineStart(text: string, table: seq<nat>, line: nat)
    requires IsTable(text, table) && 1 <= line <= Newlines(text, |text|)
    ensures 0 < table[line] <= |text| && text[table[line] - 1] == '\n' && Newlines(text, table[line]) == line
  {
    LineStartsFollowNewlines(text, |text|, line - 1);
    assert table[line] == table[1..|table| - 1][line - 1];
  }

  // An offset at or after the start of line and before the next entry has line newlines before it.
  lemma LineHolds(text: string, table: seq<nat>, line: nat, offset: nat)
    requires IsTable(text, table) && line < |table| - 1 && table[line] <= offset < table[line + 1]
    ensures offset < |text| && Newlines(text, offset) == line
  {
    if line >= 1 {
      EntryIsLineStart(text, table, line);
    } else {
      NewlinesOfBom(text);
    }
    if line < Newlines(text, |text|) {
      EntryIsLineStart(text, table, line + 1);
      NewlinesGrow(text, offset, table[line + 1] - 1);
    } else {
      NewlinesGrow(text, offset, |text|);
    }
    NewlinesGrow(text, table[line], offset);
  }

  lemma NewlinesOfBom(text: string)
    ensures var first := if HasBom(text) then 3 else 0;
            first <= |text| && Newlines(text, first) == 0
  {
    if HasBom(text) {
      assert Newlines(text, 0) == 0 && Newlines(text, 1) == 0 && Newlines(text, 2) == 0;
    }
  }

  // If the offset is not before the next entry, the next line has begun by then.
  lemma NextLineStarts(text: string, table: seq<nat>, line: nat, offset: nat)
    requires IsTable(text, table) && line < |table| - 1 && offset < |text| && table[line + 1] <= offset
    ensures line + 1 <= Newlines(text, offset)
  {
    assert table[|table| - 1] == |text|;
    EntryIsLineStart(text, table, line + 1);
    NewlinesGrow(text, table[line + 1], offset);
  }

  // ---- the reader's line count ----

  // No newline literal among the positions the cursor moved back to.
  ghost predicate NoLiteralAmong(text: string, rollbacks: seq<nat>)
  {
    forall i :: 0 <= i < |rollbacks| ==> !NewlineLiteralAt(text, rollbacks[i])
  }

  predicate IsOpening(tok: string) {
    tok == "(" || tok == "["
  }

  // Where the elements of a list begin, from pos on and as far as the list is read.
  function ElementStarts(text: string, pos: nat, terminator: string, round: Round): seq<nat>
    requires pos <= |text|
    decreases |text| - pos
  {
    var p := SkipBlank(text, pos);
    if !round.Going? || p == |text| then []
    else
      SkipBlankStops(text, pos);
      var element := ListElement(text, p, terminator);
      (if IsElement(terminator, text[p..TokenEnd(text, p)]) then [p] else []) +
      if element.Failed? then []
      else ElementStarts(text, element.end, terminator, ListRound(text, p, terminator, round.items, round.dotted))
  }

  // The elements of the list that is the form at pos, past its prefixes; none if it is no list.
  function FormElements(text: string, pos: nat): seq<nat>
    requires pos <= |text|
    decreases |text| - pos
  {
    var p := SkipBlank(text, pos);
    if p == |text| then []
    else
      var e := TokenEnd(text, p);
      var tok := text[p..e];
      if IsPrefixMacro(tok) then FormElements(text, e)
      else if tok == "(" then ElementStarts(text, e, ")", Going([], NoDot))
      else if tok == "[" then ElementStarts(text, e, "]", Going([], NoDot))
      else []
  }

  // The token at p begins an element, other than a list, of the list at pos or of a list within it.
  ghost predicate ElementWithin(text: string, pos: nat, p: nat)
    requires pos <= |text|
    decreases |text| - pos
  {
    exists q :: q in FormElements(text, pos) && pos < q < |text|
      && ((q == p && !IsOpening(text[p..TokenEnd(text, p)])) || ElementWithin(text, q, p))
  }

  ghost predicate WithinElements(text: string, starts: seq<nat>, p: nat) {
    exists q :: q in starts && q < |text|
      && ((q == p && !IsOpening(text[p..TokenEnd(text, p)])) || ElementWithin(text, q, p))
  }

  lemma {:induction false} ElementsComeLater(text: string, pos: nat, terminator: string, round: Round)
    requires pos <= |text|
    ensures forall q :: q in ElementStarts(text, pos, terminator, round) ==>
      pos <= q < |text| && SkipBlank(text, q) == q && IsElement(terminator, text[q..TokenEnd(text, q)])
    decreases |text| - pos
  {
    var p := SkipBlank(text, pos);
    if round.Going? && p < |text| {
      SkipBlankStops(text, pos);
      var element := ListElement(text, p, terminator);
      if element.Ok? {
        ElementsComeLater(text, element.end, terminator, ListRound(text, p, terminator, round.items, round.dotted));
      }
    }
  }

  lemma WithinFormElements(text: string, pos: nat, p: nat)
    requires pos <= |text|
    ensures ElementWithin(text, pos, p) <==> WithinElements(text, FormElements(text, pos), p)
  {
    FormElementsComeLater(text, pos);
  }

  lemma {:induction false} FormElementsComeLater(text: string, pos: nat)
    requires pos <= |text|
    ensures forall q :: q in FormElements(text, pos) ==> pos < q < |text|
    decreases |text| - pos
  {
    var p := SkipBlank(text, pos);
    if p < |text| {
      var e := TokenEnd(text, p);
      var tok := text[p..e];
      if IsPrefixMacro(tok) {
        FormElementsComeLater(text, e);
      } else if tok == "(" {
        ElementsComeLater(text, e, ")", Going([], NoDot));
      } else if tok == "[" {
        ElementsComeLater(text, e, "]", Going([], NoDot));
      }
    }
  }

  // Reading a form moves the cursor back to these elements, and to nothing else.
  lemma {:induction false} FormMovesBackToElements(text: string, pos: nat, q: nat)
    requires pos <= |text|
    ensures q in FormRollbacks(text, pos) <==> ElementWithin(text, pos, q)
    decreases |text| - pos, 0
  {
    var p := SkipBlank(text, pos);
    WithinFormElements(text, pos, q);
    if p < |text| {
      var e := TokenEnd(text, p);
      var tok := text[p..e];
      if IsPrefixMacro(tok) {
        FormMovesBackToElements(text, e, q);
        WithinFormElements(text, e, q);
      } else if tok == "(" {
        ListMovesBackToElements(text, e, ")", Going([], NoDot), q);
      } else if tok == "[" {
        ListMovesBackToElements(text, e, "]", Going([], NoDot), q);
      }
    }
  }

  lemma {:induction false} ListMovesBackToElements(text: string, pos: nat, terminator: string, round: Round, q: nat)
    requires pos <= |text|
    ensures q in ListRollbacks(text, pos, terminator, round) <==>
      WithinElements(text, ElementStarts(text, pos, terminator, round), q)
    decreases |text| - pos, 3
  {
    var p := SkipBlank(text, pos);
    if round.Going? && p < |text| {
      OneStep(text, pos, terminator, round.items, round.dotted);
      var element := ListElement(text, p, terminator);
      var first := if IsElement(terminator, text[p..TokenEnd(text, p)]) then [p] else [];
      var later := [];
      if element.Ok? {
        var next := ListRound(text, p, terminator, round.items, round.dotted);
        ListMovesBackToElements(text, element.end, terminator, next, q);
        later := ElementStarts(text, element.end, terminator, next);
      }
      StepMovesBackToElement(text, p, terminator, q);
      WithinBoth(text, first, later, q);
      assert ElementStarts(text, pos, terminator, round) == first + later;
    }
  }

  lemma WithinBoth(text: string, a: seq<nat>, b: seq<nat>, p: nat)
    ensures WithinElements(text, a + b, p) <==> WithinElements(text, a, p) || WithinElements(text, b, p)
  {
    if WithinElements(text, a, p) {
      var q :| q in a && q < |text| && ((q == p && !IsOpening(text[p..TokenEnd(text, p)])) || ElementWithin(text, q, p));
      assert q in a + b;
    }
    if WithinElements(text, b, p) {
      var q :| q in b && q < |text| && ((q == p && !IsOpening(text[p..TokenEnd(text, p)])) || ElementWithin(text, q, p));
      assert q in a + b;
    }
  }

  lemma {:induction false} StepMovesBackToElement(text: string, p: nat, terminator: string, q: nat)
    requires p < |text| && SkipBlank(text, p) == p
    ensures q in StepRollbacks(text, p, terminator) <==>
      WithinElements(text, if IsElement(terminator, text[p..TokenEnd(text, p)]) then [p] else [], q)
    decreases |text| - p, 2
  {
    var e := TokenEnd(text, p);
    var tok := text[p..e];
    if IsElement(terminator, tok) {
      assert p in [p];
      if tok == "(" {
        ListMovesBackToElements(text, e, ")", Going([], NoDot), q);
        WithinFormElements(text, p, q);
      } else if tok == "[" {
        ListMovesBackToElements(text, e, "]", Going([], NoDot), q);
        WithinFormElements(text, p, q);
      } else {
        FormMovesBackToElements(text, p, q);
      }
    }
  }

  /** At any time, on texts of any kind and after failed reads too, the line count is the number of
      newlines before the cursor exactly when no list element read so far was a newline literal. */
  lemma LineCountIsRight(stream: TextStream)
    requires stream.Valid()
    ensures stream.lineCount == Newlines(stream.text, stream.seek) <==> NoLiteralAmong(stream.text, stream.rollbacks)
  {
    RepeatsNothing(stream.text, stream.rollbacks);
  }

  /** The line of a token, inside a list or not, is the one the offset table gives exactly when no
      list element before it was a newline literal. */
  method LineOfLogged(stream: TextStream, source: SourceText, tok: Token, ghost i: nat) returns (line: Option<nat>)
    requires stream.Valid() && source.Valid() && stream.text == source.text
    requires i < |stream.log| && stream.log[i].tok == tok
    ensures stream.log[i].after <= |stream.rollbacks|
    ensures line == Some(tok.sourceLine) <==> NoLiteralAmong(stream.text, stream.rollbacks[..stream.log[i].after])
  {
    line := source.GetLineIdx(tok.sourceOffset);
    RepeatsNothing(stream.text, stream.rollbacks[..stream.log[i].after]);
  }

  // Where reading several forms moves back, up to the first one that cannot be read.
  function FormsRollbacks(text: string, pos: nat, count: nat): seq<nat>
    requires pos <= |text|
    decreases count
  {
    if count == 0 then []
    else
      FormRollbacks(text, pos) +
      match ReadSingleForm(text, pos)
      case Failed => []
      case Ok(_, end) => FormsRollbacks(text, end, count - 1)
  }

  // The tokens that reading several forms goes through.
  function FormsTokens(text: string, pos: nat, count: nat, rollbacks: seq<nat>): seq<Logged>
    requires pos <= |text|
    decreases count
  {
    if count == 0 then []
    else
      FormTokens(text, pos, rollbacks) +
      match ReadSingleForm(text, pos)
      case Failed => []
      case Ok(_, end) => FormsTokens(text, end, count - 1, rollbacks + FormRollbacks(text, pos))
  }

  // Whether that many forms can be read.
  predicate AllRead(text: string, pos: nat, count: nat)
    requires pos <= |text|
    decreases count
  {
    count == 0 ||
    match ReadSingleForm(text, pos)
    case Failed => false
    case Ok(_, end) => AllRead(text, end, count - 1)
  }

  /** Reading any number of forms, whether or not one fails. */
  method ReadForms(stream: TextStream, count: nat) returns (ok: bool)
    requires stream.Valid()
    modifies stream
    ensures stream.Valid()
    ensures ok == AllRead(stream.text, old(stream.seek), count)
    ensures stream.rollbacks == old(stream.rollbacks) + FormsRollbacks(stream.text, old(stream.seek), count)
    ensures stream.log == old(stream.log) + FormsTokens(stream.text, old(stream.seek), count, old(stream.rollbacks))
    ensures stream.lineCount == Newlines(stream.text, stream.seek) <==> NoLiteralAmong(stream.text, stream.rollbacks)
  {
    ok := ReadUpTo(stream, count);
    LineCountIsRight(stream);
  }

  /** What reading forms comes to: whether it succeeds, where it moves back, and what it logs. */
  datatype Outcome = Outcome(ok: bool, rollbacks: seq<nat>, log: seq<Logged>)

  // The outcome when left forms are still to be read, unless reading has failed.
  ghost function Final(text: string, pos: nat, left: nat, ok: bool, rollbacks: seq<nat>, log: seq<Logged>): Outcome
    requires pos <= |text|
  {
    if ok then
      Outcome(AllRead(text, pos, left), rollbacks + FormsRollbacks(text, pos, left),
              log + FormsTokens(text, pos, left, rollbacks))
    else Outcome(false, rollbacks, log)
  }

  lemma FinalStep(text: string, pos: nat, left: nat, rollbacks: seq<nat>, log: seq<Logged>)
    requires pos <= |text| && left > 0
    ensures var rollbacks' := rollbacks + FormRollbacks(text, pos);
            var log' := log + FormTokens(text, pos, rollbacks);
            var read := ReadSingleForm(text, pos);
            var end := if read.Ok? then read.end else pos;
            Final(text, pos, left, true, rollbacks, log) == Final(text, end, left - 1, read.Ok?, rollbacks', log')
  {
    var read := ReadSingleForm(text, pos);
    var first, tokens := FormRollbacks(text, pos), FormTokens(text, pos, rollbacks);
    if read.Ok? {
      RollbacksAssoc(rollbacks, first, FormsRollbacks(text, read.end, left - 1));
      LogAssoc(log, tokens, FormsTokens(text, read.end, left - 1, rollbacks + first));
    } else {
      assert first + [] == first && tokens + [] == tokens;
    }
  }

  method ReadUpTo(stream: TextStream, count: nat) returns (ok: bool)
    requires stream.Valid()
    modifies stream
    ensures stream.Valid()
    ensures Outcome(ok, stream.rollbacks, stream.log)
         == Final(stream.text, old(stream.seek), count, true, old(stream.rollbacks), old(stream.log))
  {
    ghost var final := Final(stream.text, stream.seek, count, true, stream.rollbacks, stream.log);
    var left: nat := count;
    ok := true;
    while ok && left > 0
      invariant stream.Valid()
      invariant Final(stream.text, stream.seek, left, ok, stream.rollbacks, stream.log) == final
      decreases ok, left
    {
      ok := ReadOneOf(stream, left, final);
      left := left - 1;
    }
    assert stream.rollbacks + [] == stream.rollbacks && stream.log + [] == stream.log;
  }

  method ReadOneOf(stream: TextStream, left: nat, ghost final: Outcome) returns (ok: bool)
    requires stream.Valid() && left > 0
    requires Final(stream.text, stream.seek, left, true, stream.rollbacks, stream.log) == final
    modifies stream
    ensures stream.Valid()
    ensures Final(stream.text, stream.seek, left - 1, ok, stream.rollbacks, stream.log) == final
  {
    FinalStep(stream.text, stream.seek, left, stream.rollbacks, stream.log);
    var form := stream.ReadForm();
    ok := form.Some?;
  }

  ghost predicate NoNewlineLiteral(text: string)
  {
    forall p: nat :: !NewlineLiteralAt(text, p)
  }

  // So on a text without newline literals every line is right, whatever was read.
  lemma PlainTextCountsRight(stream: TextStream)
    requires stream.Valid() && NoNewlineLiteral(stream.text)
    ensures stream.lineCount == Newlines(stream.text, stream.seek)
    ensures forall i :: 0 <= i < |stream.log| ==>
      stream.log[i].tok.sourceLine == Newlines(stream.text, stream.log[i].tok.sourceOffset)
  {
    LineCountIsRight(stream);
    forall i | 0 <= i < |stream.log|
      ensures Repeats(stream.text, stream.rollbacks[..stream.log[i].after]) == 0
    {
      RepeatsNothing(stream.text, stream.rollbacks[..stream.log[i].after]);
    }
  }

  // With a newline literal in a list the count does go wrong: this text has one newline, and it
  // is counted twice.
  lemma NewlineLiteralDrifts(text: string)
    requires text == ['(', '#', '\\', '\n', ')']
    ensures ReadSingleForm(text, 0) == Ok(Pair(Null, Null), 5)
    ensures FormRollbacks(text, 0) == [1] && Repeats(text, [1]) == 1
  {
    NewlineLiteralIsNoObject(text);
    assert text[0..1] == "(" && text[4..5] == ")" && text[1..4][0] == '#';
    assert SkipBlank(text, 0) == 0 && SkipBlank(text, 1) == 1 && SkipBlank(text, 4) == 4;
    assert ReadElement(text, 1, 4) == Ok(Null, 4) && ElementRollbacks(text, 1, 4) == [1];
    var one := [Null];
    assert [] + [Null] == one && one[1..] == [];
    assert ListElement(text, 1, ")") == Ok(Null, 4) && ListElement(text, 4, ")") == Ok(Null, 5);
    assert ListRound(text, 1, ")", [], NoDot) == Going(one, NoDot);
    assert ListRound(text, 4, ")", one, NoDot) == Closed(Pair(Null, Null));
    OneRound(text, 1, ")", [], NoDot);
    OneRound(text, 4, ")", one, NoDot);
    OneStep(text, 1, ")", [], NoDot);
    OneStep(text, 4, ")", one, NoDot);
  }

  lemma NewlineLiteralIsNoObject(text: string)
    requires text == ['(', '#', '\\', '\n', ')']
    ensures TokenEnd(text, 1) == 4 && ReadSingleForm(text, 1) == Ok(Null, 4) && FormRollbacks(text, 1) == []
  {
    assert ScanCharToken(text, 4) == 4;
    var tok := text[1..4];
    assert tok[0] == '#' && tok[1] == '\\' && tok[2] == '\n' && |tok| == 3;
    assert tok[0] in tok && tok[2] in tok;
    assert TokenObject(tok) == Nothing;
    assert SkipBlank(text, 1) == 1;
  }

  // Outside of lists the same literal does no harm.
  lemma LiteralOutsideListIsCountedOnce(text: string)
    requires text == ['#', '\\', '\n']
    ensures NewlineLiteralAt(text, 0) && FormRollbacks(text, 0) == []
    ensures ReadSingleForm(text, 0) == Ok(Null, 3) && Newlines(text, 3) == 1
    ensures FormTokens(text, 0, []) == [Logged(Token(text, 0, 0), 0)]
  {
    assert TokenEnd(text, 0) == 3 && text[0..3] == text;
    assert text[0] == '#' && text[1] == '\\' && text[2] == '\n' && |text| == 3;
    assert text[0] in text && text[2] in text;
    assert TokenObject(text) == Nothing;
    assert SkipBlank(text, 0) == 0;
    assert Newlines(text, 0) == 0 && Newlines(text, 1) == 0 && Newlines(text, 2) == 0;
  }
}
