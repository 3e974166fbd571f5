/** The reader: from text to objects.

    The functions say what is read at each position; the TextStream methods are the cursor
    machine that reads it and counts lines on the way.
 */
module Reading {
  import opened Options
  import opened Objects
  import opened Tokens

  // ---- string literals ----

  /** The characters of a literal that starts at pos, after its opening quote, and where it ends. */
  function ReadString(text: string, pos: nat): (r: Option<(string, nat)>)
    requires pos <= |text|
    ensures r.Some? ==> pos < r.value.1 <= |text|
    decreases |text| - pos
  {
    if pos == |text| then None
    else if text[pos] == '"' then Some(("", pos + 1))
    else if text[pos] != '\\' then Prepend(text[pos], ReadString(text, pos + 1))
    else match Escape(text, pos + 1)
      case None => None
      case Some((c, next)) => Prepend(c, ReadString(text, next))
  }

  /** The character an escape stands for, from the position after its backslash, and where it ends. */
  function Escape(text: string, pos: nat): (r: Option<(char, nat)>)
    requires pos <= |text|
    ensures r.Some? ==> pos < r.value.1 <= |text|
  {
    if pos == |text| then None
    else if text[pos] == 'n' then Some(('\n', pos + 1))
    else if text[pos] == 't' then Some(('\t', pos + 1))
    else if text[pos] == '\\' || text[pos] == '"' then Some((text[pos], pos + 1))
    else if text[pos] == 'c' && pos + 3 < |text| && IsHexChar(text[pos + 1]) && IsHexChar(text[pos + 2]) then
      Some(((16 * HexValue(text[pos + 1]) + HexValue(text[pos + 2])) as char, pos + 3))
    else None
  }

  function Prepend(c: char, r: Option<(string, nat)>): Option<(string, nat)>
  {
    match r
    case None => None
    case Some((s, end)) => Some(([c] + s, end))
  }

  // ---- forms ----

  /** What was read, and where reading stopped. */
  datatype Read = Ok(obj: Obj, end: nat) | Failed

  function Newlines(text: string, pos: nat): nat
    requires pos <= |text|
  {
    if pos == 0 then 0 else Newlines(text, pos - 1) + if text[pos - 1] == '\n' then 1 else 0
  }

  lemma {:induction false} NewlinesGrow(text: string, a: nat, b: nat)
    requires a <= b <= |text|
    ensures Newlines(text, a) <= Newlines(text, b)
    ensures Newlines(text, a) == Newlines(text, b) <==> forall i :: a <= i < b ==> text[i] != '\n'
    decreases b
  {
    if a < b {
      NewlinesGrow(text, a, b - 1);
    }
  }

  function ReadSingleForm(text: string, pos: nat): (r: Read)
    requires pos <= |text|
    ensures r.Ok? ==> SkipBlank(text, pos) <= r.end <= |text|
    ensures r.Ok? && SkipBlank(text, pos) < |text| ==> SkipBlank(text, pos) < r.end
    decreases |text| - pos, 0
  {
    var p := SkipBlank(text, pos);
    if p == |text| then Ok(Null, p)
    else
      var e := TokenEnd(text, p);
      var tok := text[p..e];
      if IsPrefixMacro(tok) then
        match ReadSingleForm(text, e)
        case Failed => Failed
        case Ok(o, end) => Ok(Pair(Sym(MacroName(tok)), Pair(o, Null)), end)
      else if tok == "(" then ReadList(text, e, ")", Going([], NoDot))
      else if tok == "[" then ReadList(text, e, "]", Going([], NoDot))
      else ReadAtom(text, tok, e)
  }

  // A token that is not a list or a prefix macro.
  function ReadAtom(text: string, tok: string, e: nat): (r: Read)
    requires e <= |text| && tok != []
    ensures r.Ok? ==> e <= r.end <= |text|
  {
    if tok[0] == '"' then
      match ReadString(text, e)
      case None => Failed
      case Some((s, end)) => Ok(Str(s), end)
    else match TokenObject(tok)
      case Got(o) => Ok(o, e)
      case OutOfRange => Failed
      case Nothing => Ok(Null, e)
  }

  /** How much of a dotted end has been seen: nothing, the dot, or the dot and its object. */
  datatype Dotted = NoDot | Dot | DotThen(o: Obj)

  // One list element whose token is text[p..e].  An element that is not a list is read again
  // from the start of its token.
  function ReadElement(text: string, p: nat, e: nat): (r: Read)
    requires p < |text| && p == SkipBlank(text, p) && e == TokenEnd(text, p)
    ensures r.Ok? ==> p < r.end <= |text|
    decreases |text| - p, 1
  {
    var tok := text[p..e];
    if tok == "(" then ReadList(text, e, ")", Going([], NoDot))
    else if tok == "[" then ReadList(text, e, "]", Going([], NoDot))
    else ReadSingleForm(text, p)
  }

  /** What one round of the list loop comes to: an error, the closed list, or more to read. */
  datatype Round = Broken | Closed(list: Obj) | Going(items: seq<Obj>, dotted: Dotted)

  function NextRound(terminator: string, tok: string, element: Read, items: seq<Obj>, dotted: Dotted): Round
  {
    if tok == terminator then Closed(BuildList(items, if dotted.DotThen? then dotted.o else Null))
    else if tok == "." then
      if !dotted.NoDot? || items == [] then Broken else Going(items, Dot)
    else if element.Failed? || dotted.DotThen? then Broken
    else if dotted.Dot? then Going(items, DotThen(element.obj))
    else Going(items + [element.obj], NoDot)
  }

  predicate IsElement(terminator: string, tok: string) {
    tok != terminator && tok != "."
  }

  // What comes of a list read up to pos, where the rounds so far have come to round.
  function ReadList(text: string, pos: nat, terminator: string, round: Round): (r: Read)
    requires pos <= |text|
    ensures r.Ok? ==> pos <= r.end <= |text|
    ensures r.Ok? && round.Going? ==> SkipBlank(text, pos) < r.end
    decreases |text| - pos, 4
  {
    match round
    case Broken => Failed
    case Closed(list) => Ok(list, pos)
    case Going(items, dotted) =>
      var p := SkipBlank(text, pos);
      if p == |text| then Failed
      else
        SkipBlankStops(text, pos);
        var element := ListElement(text, p, terminator);
        if element.Failed? then Failed
        else ReadList(text, element.end, terminator, ListRound(text, p, terminator, items, dotted))
  }

  // The element that starts at p; the terminator and the dot count as empty elements.
  function ListElement(text: string, p: nat, terminator: string): (r: Read)
    requires p < |text| && p == SkipBlank(text, p)
    ensures r.Ok? ==> p < r.end <= |text|
    decreases |text| - p, 2
  {
    var e := TokenEnd(text, p);
    if IsElement(terminator, text[p..e]) then ReadElement(text, p, e) else Ok(Null, e)
  }

  function ListRound(text: string, p: nat, terminator: string, items: seq<Obj>, dotted: Dotted): Round
    requires p < |text| && p == SkipBlank(text, p)
    decreases |text| - p, 3
  {
    NextRound(terminator, text[p..TokenEnd(text, p)], ListElement(text, p, terminator), items, dotted)
  }

  lemma OneRound(text: string, pos: nat, terminator: string, items: seq<Obj>, dotted: Dotted)
    requires pos <= |text|
    ensures var p := SkipBlank(text, pos);
            var r := ReadList(text, pos, terminator, Going(items, dotted));
            if p == |text| then r == Failed
            else
              && SkipBlank(text, p) == p
              && var element := ListElement(text, p, terminator);
              r == if element.Failed? then Failed
                   else ReadList(text, element.end, terminator, ListRound(text, p, terminator, items, dotted))
  {
    SkipBlankStops(text, pos);
  }

  // ---- where the reader moves back ----

  // The cursor positions, in order, to which reading a form moves back: the starts of the list
  // elements other than lists, as far as reading gets.
  function FormRollbacks(text: string, pos: nat): seq<nat>
    requires pos <= |text|
    decreases |text| - pos, 0
  {
    var p := SkipBlank(text, pos);
    if p == |text| then []
    else
      var e := TokenEnd(text, p);
      var tok := text[p..e];
      if IsPrefixMacro(tok) then FormRollbacks(text, e)
      else if tok == "(" then ListRollbacks(text, e, ")", Going([], NoDot))
      else if tok == "[" then ListRollbacks(text, e, "]", Going([], NoDot))
      else []
  }

  function ElementRollbacks(text: string, p: nat, e: nat): seq<nat>
    requires p < |text| && p == SkipBlank(text, p) && e == TokenEnd(text, p)
    decreases |text| - p, 1
  {
    var tok := text[p..e];
    if tok == "(" then ListRollbacks(text, e, ")", Going([], NoDot))
    else if tok == "[" then ListRollbacks(text, e, "]", Going([], NoDot))
    else [p] + FormRollbacks(text, p)
  }

  function ListRollbacks(text: string, pos: nat, terminator: string, round: Round): seq<nat>
    requires pos <= |text|
    decreases |text| - pos, 3
  {
    if !round.Going? then []
    else
      var p := SkipBlank(text, pos);
      if p == |text| then []
      else
        SkipBlankStops(text, pos);
        var element := ListElement(text, p, terminator);
        StepRollbacks(text, p, terminator) +
        if element.Failed? then []
        else ListRollbacks(text, element.end, terminator, ListRound(text, p, terminator, round.items, round.dotted))
  }

  // The moves back in the round of a list that begins at p.
  function StepRollbacks(text: string, p: nat, terminator: string): seq<nat>
    requires p < |text| && p == SkipBlank(text, p)
    decreases |text| - p, 2
  {
    var e := TokenEnd(text, p);
    if IsElement(terminator, text[p..e]) then ElementRollbacks(text, p, e) else []
  }

  lemma OneStep(text: string, pos: nat, terminator: string, items: seq<Obj>, dotted: Dotted)
    requires pos <= |text|
    ensures var p := SkipBlank(text, pos);
            var all := ListRollbacks(text, pos, terminator, Going(items, dotted));
            if p == |text| then all == []
            else
              && SkipBlank(text, p) == p
              && var element := ListElement(text, p, terminator);
              all == StepRollbacks(text, p, terminator) +
                     if element.Failed? then []
                     else ListRollbacks(text, element.end, terminator, ListRound(text, p, terminator, items, dotted))
  {
    SkipBlankStops(text, pos);
  }

  // A character literal whose character is a newline.
  predicate NewlineLiteralAt(text: string, p: nat) {
    p + 2 < |text| && text[p] == '#' && text[p + 1] == '\\' && text[p + 2] == '\n'
  }

  // How many newlines are counted twice when the cursor moves back to these positions.
  function Repeats(text: string, rollbacks: seq<nat>): nat {
    if rollbacks == [] then 0
    else Repeats(text, rollbacks[..|rollbacks| - 1]) + if NewlineLiteralAt(text, rollbacks[|rollbacks| - 1]) then 1 else 0
  }

  lemma {:induction false} RepeatsNothing(text: string, rollbacks: seq<nat>)
    ensures Repeats(text, rollbacks) == 0 <==> forall i :: 0 <= i < |rollbacks| ==> !NewlineLiteralAt(text, rollbacks[i])
  {
    if rollbacks != [] {
      var n := |rollbacks| - 1;
      RepeatsNothing(text, rollbacks[..n]);
      assert forall i :: 0 <= i < n ==> rollbacks[..n][i] == rollbacks[i];
    }
  }

  lemma {:induction false} ScansHaveNoNewline(text: string, pos: nat, i: nat)
    requires pos <= |text|
    ensures pos <= i < ScanToken(text, pos) ==> text[i] != '\n'
    ensures pos <= i < ScanCharToken(text, pos) ==> text[i] != '\n'
    decreases |text| - pos
  {
    if pos < |text| {
      ScansHaveNoNewline(text, pos + 1, i);
    }
  }

  // The only newline a token can hold is the character of a literal.
  lemma TokenNewlines(text: string, p: nat)
    requires p < |text| && SkipBlank(text, p) == p
    ensures Newlines(text, TokenEnd(text, p)) == Newlines(text, p) + if NewlineLiteralAt(text, p) then 1 else 0
  {
    var e := TokenEnd(text, p);
    forall i | p <= i < e && !(NewlineLiteralAt(text, p) && i == p + 2)
      ensures text[i] != '\n'
    {
      ScansHaveNoNewline(text, p + 1, i);
      if p + 3 <= |text| {
        ScansHaveNoNewline(text, p + 3, i);
      }
    }
    if NewlineLiteralAt(text, p) {
      NewlinesGrow(text, p, p + 2);
      NewlinesGrow(text, p + 3, e);
    } else {
      NewlinesGrow(text, p, e);
    }
  }

  // ---- which tokens are read ----

  datatype Token = Token(text: string, sourceOffset: nat, sourceLine: nat)

  /** A token that was read, and how often the cursor had been moved back before. */
  datatype Logged = Logged(tok: Token, after: nat)

  // The token at p, read after the cursor was moved back to these positions.
  function TokenAt(text: string, p: nat, rollbacks: seq<nat>): Logged
    requires p < |text|
  {
    var tok := Token(text[p..TokenEnd(text, p)], p, Newlines(text, p) + Repeats(text, rollbacks));
    Logged(tok, |rollbacks|)
  }

  // The tokens that reading a form goes through, in order and as far as reading gets.  The first
  // token of a list element other than a list comes twice.
  function FormTokens(text: string, pos: nat, rollbacks: seq<nat>): seq<Logged>
    requires pos <= |text|
    decreases |text| - pos, 1
  {
    var p := SkipBlank(text, pos);
    if p == |text| then [] else [TokenAt(text, p, rollbacks)] + RestOfForm(text, p, rollbacks)
  }

  // The tokens of a form after its first one, which is at p.
  function RestOfForm(text: string, p: nat, rollbacks: seq<nat>): seq<Logged>
    requires p < |text|
    decreases |text| - p, 0
  {
    var e := TokenEnd(text, p);
    var tok := text[p..e];
    if IsPrefixMacro(tok) then FormTokens(text, e, rollbacks)
    else if tok == "(" then ListTokens(text, e, ")", Going([], NoDot), rollbacks)
    else if tok == "[" then ListTokens(text, e, "]", Going([], NoDot), rollbacks)
    else []
  }

  // The tokens of an element after its first one.
  function ElementTokens(text: string, p: nat, e: nat, rollbacks: seq<nat>): seq<Logged>
    requires p < |text| && p == SkipBlank(text, p) && e == TokenEnd(text, p)
    decreases |text| - p, 2
  {
    var tok := text[p..e];
    if tok == "(" then ListTokens(text, e, ")", Going([], NoDot), rollbacks)
    else if tok == "[" then ListTokens(text, e, "]", Going([], NoDot), rollbacks)
    else FormTokens(text, p, rollbacks + [p])
  }

  function ListTokens(text: string, pos: nat, terminator: string, round: Round, rollbacks: seq<nat>): seq<Logged>
    requires pos <= |text|
    decreases |text| - pos, 4
  {
    if !round.Going? then []
    else
      var p := SkipBlank(text, pos);
      if p == |text| then []
      else
        SkipBlankStops(text, pos);
        var element := ListElement(text, p, terminator);
        StepTokens(text, p, terminator, rollbacks) +
        if element.Failed? then []
        else ListTokens(text, element.end, terminator, ListRound(text, p, terminator, round.items, round.dotted),
                        rollbacks + StepRollbacks(text, p, terminator))
  }

  function StepTokens(text: string, p: nat, terminator: string, rollbacks: seq<nat>): seq<Logged>
    requires p < |text| && p == SkipBlank(text, p)
    decreases |text| - p, 3
  {
    var e := TokenEnd(text, p);
    [TokenAt(text, p, rollbacks)] + if IsElement(terminator, text[p..e]) then ElementTokens(text, p, e, rollbacks) else []
  }

  lemma OneStepOfTokens(text: string, pos: nat, terminator: string, items: seq<Obj>, dotted: Dotted, rollbacks: seq<nat>)
    requires pos <= |text|
    ensures var p := SkipBlank(text, pos);
            var all := ListTokens(text, pos, terminator, Going(items, dotted), rollbacks);
            if p == |text| then all == []
            else
              && SkipBlank(text, p) == p
              && var element := ListElement(text, p, terminator);
              all == StepTokens(text, p, terminator, rollbacks) +
                     if element.Failed? then []
                     else ListTokens(text, element.end, terminator, ListRound(text, p, terminator, items, dotted),
                                     rollbacks + StepRollbacks(text, p, terminator))
  {
    SkipBlankStops(text, pos);
  }

  // ---- the cursor machine ----

  // The line of a logged token is that of its offset, plus the newlines counted twice before.
  ghost predicate LogIsRight(text: string, rollbacks: seq<nat>, log: seq<Logged>) {
    forall i :: 0 <= i < |log| ==>
      && log[i].after <= |rollbacks| && log[i].tok.sourceOffset < |text|
      && log[i].tok.sourceLine == Newlines(text, log[i].tok.sourceOffset) + Repeats(text, rollbacks[..log[i].after])
  }

  lemma LogStaysRight(text: string, rollbacks: seq<nat>, log: seq<Logged>, p: nat)
    requires LogIsRight(text, rollbacks, log)
    ensures LogIsRight(text, rollbacks + [p], log)
  {
    forall i | 0 <= i < |log|
      ensures (rollbacks + [p])[..log[i].after] == rollbacks[..log[i].after]
    {
    }
  }

  lemma LogGrows(text: string, rollbacks: seq<nat>, log: seq<Logged>, tok: Token)
    requires LogIsRight(text, rollbacks, log) && tok.sourceOffset < |text|
    requires tok.sourceLine == Newlines(text, tok.sourceOffset) + Repeats(text, rollbacks)
    ensures LogIsRight(text, rollbacks, log + [Logged(tok, |rollbacks|)])
  {
    assert rollbacks[..|rollbacks|] == rollbacks;
  }

  class TextStream {
    const text: string
    var seek: nat
    var lineCount: nat
    // Where the cursor was moved back to, and every token read.
    ghost var rollbacks: seq<nat>
    ghost var log: seq<Logged>

    ghost predicate Valid()
      reads this
    {
      && seek <= |text| && lineCount == Newlines(text, seek) + Repeats(text, rollbacks)
      && LogIsRight(text, rollbacks, log)
    }

    constructor (text: string)
      ensures Valid() && this.text == text && seek == 0 && lineCount == 0 && rollbacks == [] && log == []
    {
      this.text := text;
      seek, lineCount, rollbacks, log := 0, 0, [], [];
    }

    method ReadChar() returns (c: char)
      requires Valid() && seek < |text|
      modifies this`seek, this`lineCount
      ensures Valid() && seek == old(seek) + 1 && c == text[old(seek)]
    {
      c := text[seek];
      seek := seek + 1;
      if c == '\n' {
        lineCount := lineCount + 1;
      }
    }

    method SkipLine()
      requires Valid()
      modifies this`seek, this`lineCount
      ensures Valid() && seek == AfterNewline(text, old(seek))
    {
      while seek < |text|
        invariant Valid() && AfterNewline(text, seek) == AfterNewline(text, old(seek))
        decreases |text| - seek
      {
        var c := ReadChar();
        if c == '\n' {
          return;
        }
      }
    }

    method SkipBlockComment()
      requires Valid()
      modifies this`seek, this`lineCount
      ensures Valid() && seek == AfterBlockComment(text, old(seek))
    {
      while seek < |text|
        invariant Valid() && AfterBlockComment(text, seek) == AfterBlockComment(text, old(seek))
        decreases |text| - seek
      {
        SkipPastBar();
        if seek < |text| {
          var c := ReadChar();
          if c == '#' {
            return;
          }
        }
      }
    }

    method SkipPastBar()
      requires Valid()
      modifies this`seek, this`lineCount
      ensures Valid() && seek == AfterBar(text, old(seek))
    {
      while seek < |text|
        invariant Valid() && AfterBar(text, seek) == AfterBar(text, old(seek))
        decreases |text| - seek
      {
        var c := ReadChar();
        if c == '|' {
          return;
        }
      }
    }

    method SeekPastWhitespaceAndComments()
      requires Valid()
      modifies this`seek, this`lineCount
      ensures Valid() && seek == SkipBlank(text, old(seek)) && SkipBlank(text, seek) == seek
    {
      while seek < |text|
        invariant Valid() && SkipBlank(text, seek) == SkipBlank(text, old(seek))
        decreases |text| - seek
      {
        var c := text[seek];
        if IsBlank(c) {
          var _ := ReadChar();
        } else if c == ';' {
          var _ := ReadChar();
          SkipLine();
        } else if c == '#' && seek + 1 < |text| && text[seek + 1] == '|' {
          var _ := ReadChar();
          var _ := ReadChar();
          SkipBlockComment();
        } else {
          return;
        }
      }
    }

    method ScanOrdinary()
      requires Valid()
      modifies this`seek, this`lineCount
      ensures Valid() && seek == ScanToken(text, old(seek))
    {
      while seek < |text| && !EndsToken(text[seek])
        invariant Valid() && ScanToken(text, seek) == ScanToken(text, old(seek))
        decreases |text| - seek
      {
        var _ := ReadChar();
      }
    }

    method ScanChar()
      requires Valid()
      modifies this`seek, this`lineCount
      ensures Valid() && seek == ScanCharToken(text, old(seek))
    {
      while seek < |text| && !EndsCharToken(text[seek])
        invariant Valid() && ScanCharToken(text, seek) == ScanCharToken(text, old(seek))
        decreases |text| - seek
      {
        var _ := ReadChar();
      }
    }

    /** The next token, with the offset and the line it starts at; empty at the end of the text. */
    method GetNextToken() returns (tok: Token)
      requires Valid()
      modifies this`seek, this`lineCount, this`log
      ensures Valid()
      ensures var p := SkipBlank(text, old(seek));
              if p == |text| then seek == p && tok.text == "" && log == old(log)
              else seek == TokenEnd(text, p) && tok == TokenAt(text, p, rollbacks).tok
                   && log == old(log) + [TokenAt(text, p, rollbacks)]
    {
      SeekPastWhitespaceAndComments();
      if seek == |text| {
        return Token("", 0, 0);
      }
      var start, line := seek, lineCount;
      ScanOneToken();
      tok := Token(text[start..seek], start, line);
      LogGrows(text, rollbacks, log, tok);
      log := log + [Logged(tok, |rollbacks|)];
    }

    // Past the token at the cursor.
    method ScanOneToken()
      requires Valid() && seek < |text|
      modifies this`seek, this`lineCount
      ensures Valid() && seek == TokenEnd(text, old(seek))
    {
      var first := ReadChar();
      if first == '#' && seek < |text| && text[seek] == '\\' {
        var _ := ReadChar();
        if seek < |text| {
          var _ := ReadChar();
        }
        ScanChar();
      } else if first == ',' && seek < |text| && text[seek] == '@' {
        var _ := ReadChar();
      } else if first == '(' || first == ')' || first == '"' || first == '\'' || first == '`' || first == ',' {
      } else {
        ScanOrdinary();
      }
    }

    /** The character of an escape, after its backslash. */
    method ReadEscape() returns (r: Option<char>)
      requires Valid()
      modifies this`seek, this`lineCount
      ensures Valid()
      ensures match Escape(text, old(seek))
              case None => r.None?
              case Some((c, end)) => r == Some(c) && seek == end
    {
      if seek == |text| {
        return None;
      }
      var escape := ReadChar();
      if escape == 'n' {
        return Some('\n');
      } else if escape == 't' {
        return Some('\t');
      } else if escape == '\\' || escape == '"' {
        return Some(escape);
      } else if escape == 'c' && seek + 2 < |text| {
        var first := ReadChar();
        var second := ReadChar();
        if IsHexChar(first) && IsHexChar(second) {
          return Some((16 * HexValue(first) + HexValue(second)) as char);
        }
      }
      return None;
    }

    /** A string literal after its opening quote; None when it is malformed or never closed. */
    method ReadStringLiteral() returns (r: Option<string>)
      requires Valid()
      modifies this`seek, this`lineCount
      ensures Valid()
      ensures match ReadString(text, old(seek))
              case None => r.None?
              case Some((s, end)) => r == Some(s) && seek == end
    {
      var str := "";
      assert forall t: string :: str + t == t;
      while seek < |text|
        invariant Valid()
        invariant ReadString(text, old(seek)) == PrependAll(str, ReadString(text, seek))
        decreases |text| - seek
      {
        var c := ReadChar();
        if c == '"' {
          assert str + "" == str;
          return Some(str);
        }
        if c == '\\' {
          var escaped := ReadEscape();
          if escaped.None? {
            return None;
          }
          c := escaped.value;
        }
        PrependAllThenOne(str, c, ReadString(text, seek));
        str := str + [c];
      }
      return None;
    }

    /** The object an ordinary token denotes: Ok(Null) when it denotes none, Failed when it is malformed. */
    method ReadObject(tok: string) returns (r: Option<Obj>)
      requires Valid() && tok != []
      modifies this`seek, this`lineCount
      ensures Valid()
      ensures match ReadAtom(text, tok, old(seek))
              case Failed => r.None?
              case Ok(o, end) => r == Some(o) && seek == end
    {
      if tok[0] == '"' {
        var s := ReadStringLiteral();
        return if s.None? then None else Some(Str(s.value));
      }
      match TokenObject(tok)
      case Got(o) => return Some(o);
      case OutOfRange => return None;
      case Nothing => return Some(Null);
    }

    /** One form.  None stands for a reader error. */
    method ReadForm() returns (r: Option<Obj>)
      requires Valid()
      modifies this
      ensures Valid() && log == old(log) + FormTokens(text, old(seek), old(rollbacks))
      ensures rollbacks == old(rollbacks) + FormRollbacks(text, old(seek))
      ensures match ReadSingleForm(text, old(seek))
              case Failed => r.None?
              case Ok(o, end) => r == Some(o) && seek == end
      decreases |text| - seek, 0
    {
      SeekPastWhitespaceAndComments();
      if seek == |text| {
        return Some(Null);
      }
      var tok := GetNextToken();
      LogAssoc(old(log), [TokenAt(text, tok.sourceOffset, rollbacks)], RestOfForm(text, tok.sourceOffset, rollbacks));
      if IsPrefixMacro(tok.text) {
        var inner := ReadForm();
        return if inner.None? then None else Some(Pair(Sym(MacroName(tok.text)), Pair(inner.value, Null)));
      } else if tok.text == "(" {
        r := ReadListForm(")");
      } else if tok.text == "[" {
        r := ReadListForm("]");
      } else {
        r := ReadObject(tok.text);
      }
    }

    /** One list element, after its token was read.  An element other than a list is read again
        from its first character, so the cursor moves back to where its token began. */
    method ReadListElement(tok: string, lastSeek: nat) returns (r: Option<Obj>)
      requires Valid() && lastSeek < |text| && lastSeek == SkipBlank(text, lastSeek)
      requires seek == TokenEnd(text, lastSeek) && tok == text[lastSeek..seek]
      modifies this
      ensures Valid() && log == old(log) + ElementTokens(text, lastSeek, old(seek), old(rollbacks))
      ensures rollbacks == old(rollbacks) + ElementRollbacks(text, lastSeek, old(seek))
      ensures match ReadElement(text, lastSeek, old(seek))
              case Failed => r.None?
              case Ok(o, end) => r == Some(o) && seek == end
      decreases |text| - lastSeek, 1
    {
      if tok == "(" {
        r := ReadListForm(")");
      } else if tok == "[" {
        r := ReadListForm("]");
      } else {
        MoveBack(lastSeek);
        r := ReadForm();
      }
    }

    /** Move back to the start of the token just read.  The line count stays what it is. */
    method MoveBack(lastSeek: nat)
      requires Valid() && lastSeek < |text| && lastSeek == SkipBlank(text, lastSeek) && seek == TokenEnd(text, lastSeek)
      modifies this`seek, this`rollbacks
      ensures Valid() && seek == lastSeek && rollbacks == old(rollbacks) + [lastSeek]
    {
      TokenNewlines(text, lastSeek);
      LogStaysRight(text, rollbacks, log, lastSeek);
      assert (rollbacks + [lastSeek])[..|rollbacks|] == rollbacks;
      rollbacks := rollbacks + [lastSeek];
      seek := lastSeek;
    }

    /** Read a token, and the element it starts if it starts one, and see what they make of the list. */
    method ReadNextOfList(terminator: string, items: seq<Obj>, dotted: Dotted) returns (round: Round)
      requires Valid()
      modifies this
      ensures Valid()
      ensures var p := SkipBlank(text, old(seek));
              if p == |text| then round.Broken? && rollbacks == old(rollbacks) && log == old(log)
              else
                && SkipBlank(text, p) == p && rollbacks == old(rollbacks) + StepRollbacks(text, p, terminator)
                && log == old(log) + StepTokens(text, p, terminator, old(rollbacks))
                && var element := ListElement(text, p, terminator);
                if element.Failed? then round.Broken?
                else round == ListRound(text, p, terminator, items, dotted) && seek == element.end
      decreases |text| - seek, 2
    {
      SeekPastWhitespaceAndComments();
      var lastSeek := seek;
      var tok := GetNextToken();
      if tok.text == "" {
        return Broken;
      }
      if tok.text == terminator {
        return Closed(BuildList(items, if dotted.DotThen? then dotted.o else Null));
      }
      if tok.text == "." {
        if !dotted.NoDot? || items == [] {
          return Broken;
        }
        return Going(items, Dot);
      }
      LogAssoc(old(log), [TokenAt(text, lastSeek, rollbacks)], ElementTokens(text, lastSeek, seek, rollbacks));
      var element := ReadListElement(tok.text, lastSeek);
      if element.None? {
        return Broken;
      }
      if dotted.DotThen? {
        round := Broken;
      } else if dotted.Dot? {
        round := Going(items, DotThen(element.value));
      } else {
        round := Going(items + [element.value], NoDot);
      }
    }

    /** One round of the list loop, seen as a step of ReadList. */
    method ReadListRound(terminator: string, items: seq<Obj>, dotted: Dotted, ghost whole: Read, ghost all: seq<nat>,
                         ghost tokens: seq<Logged>)
      returns (round: Round)
      requires Valid() && whole == ReadList(text, seek, terminator, Going(items, dotted))
      requires all == rollbacks + ListRollbacks(text, seek, terminator, Going(items, dotted))
      requires tokens == log + ListTokens(text, seek, terminator, Going(items, dotted), rollbacks)
      modifies this
      ensures Valid() && tokens == log + ListTokens(text, seek, terminator, round, rollbacks)
      ensures whole == ReadList(text, seek, terminator, round)
      ensures all == rollbacks + ListRollbacks(text, seek, terminator, round)
      ensures !round.Broken? ==> seek > old(seek)
      decreases |text| - seek, 3
    {
      OneRound(text, seek, terminator, items, dotted);
      OneStep(text, seek, terminator, items, dotted);
      OneStepOfTokens(text, seek, terminator, items, dotted, rollbacks);
      ghost var p := SkipBlank(text, seek);
      ghost var element := if p < |text| then ListElement(text, p, terminator) else Failed;
      ghost var next := if element.Ok? then ListRound(text, p, terminator, items, dotted) else Broken;
      round := ReadNextOfList(terminator, items, dotted);
      assert round == next;
      if p < |text| {
        RollbacksAssoc(old(rollbacks), StepRollbacks(text, p, terminator), ListRollbacks(text, seek, terminator, round));
        LogAssoc(old(log), StepTokens(text, p, terminator, old(rollbacks)),
                 ListTokens(text, seek, terminator, round, rollbacks));
      }
    }

    /** A list after its opening bracket. */
    method ReadListForm(terminator: string) returns (r: Option<Obj>)
      requires Valid()
      modifies this
      ensures Valid() && log == old(log) + ListTokens(text, old(seek), terminator, Going([], NoDot), old(rollbacks))
      ensures rollbacks == old(rollbacks) + ListRollbacks(text, old(seek), terminator, Going([], NoDot))
      ensures match ReadList(text, old(seek), terminator, Going([], NoDot))
              case Failed => r.None?
              case Ok(o, end) => r == Some(o) && seek == end
      decreases |text| - seek, 4
    {
      ghost var whole := ReadList(text, seek, terminator, Going([], NoDot));
      ghost var all := rollbacks + ListRollbacks(text, seek, terminator, Going([], NoDot));
      ghost var tokens := log + ListTokens(text, seek, terminator, Going([], NoDot), rollbacks);
      var round := Going([], NoDot);
      while round.Going?
        invariant Valid() && tokens == log + ListTokens(text, seek, terminator, round, rollbacks)
        invariant whole == ReadList(text, seek, terminator, round)
        invariant all == rollbacks + ListRollbacks(text, seek, terminator, round)
        invariant !round.Broken? ==> seek >= old(seek)
        decreases round.Going?, |text| - seek
      {
        round := ReadListRound(terminator, round.items, round.dotted, whole, all, tokens);
      }
      r := if round.Closed? then Some(round.list) else None;
    }
  }

  lemma LogAssoc(a: seq<Logged>, b: seq<Logged>, c: seq<Logged>)
    ensures a + (b + c) == a + b + c && b + [] == b && a + [] == a
  {
  }

  lemma RollbacksAssoc(a: seq<nat>, b: seq<nat>, c: seq<nat>)
    ensures a + (b + c) == a + b + c && b + [] == b
  {
  }

  lemma {:induction false} SkipBlankStops(text: string, pos: nat)
    requires pos <= |text|
    ensures SkipBlank(text, SkipBlank(text, pos)) == SkipBlank(text, pos)
    decreases |text| - pos
  {
    if pos < |text| {
      if IsBlank(text[pos]) {
        SkipBlankStops(text, pos + 1);
      } else if text[pos] == ';' {
        SkipBlankStops(text, AfterNewline(text, pos + 1));
      } else if text[pos] == '#' && pos + 1 < |text| && text[pos + 1] == '|' {
        SkipBlankStops(text, AfterBlockComment(text, pos + 2));
      }
    }
  }

  lemma PrependAllThenOne(s: string, c: char, r: Option<(string, nat)>)
    ensures PrependAll(s, Prepend(c, r)) == PrependAll(s + [c], r)
  {
    if r.Some? {
      assert s + ([c] + r.value.0) == (s + [c]) + r.value.0;
    }
  }

  function PrependAll(s: string, r: Option<(string, nat)>): Option<(string, nat)>
  {
    match r
    case None => None
    case Some((t, end)) => Some((s + t, end))
  }
}
