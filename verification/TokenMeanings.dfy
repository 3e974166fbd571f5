/** What tokens and string literals denote, from how they are written. */
module TokenMeanings {
  import opened Options
  import opened Objects
  import opened Tokens
  import opened Reading
  import opened Forms

  // ---- where tokens end ----

  predicate IsWhite(c: char) {
    c == ' ' || c == '\t' || c == '\n' || c == '\r' || c == 11 as char || c == 12 as char
  }

  // The characters that end an ordinary token, and those that end a character token.
  predicate Delimits(c: char) {
    IsWhite(c) || c == '(' || c == ')' || c == '"' || c == ';' || c == '\'' || c == '`' || c == ','
  }

  predicate DelimitsCharacter(c: char) {
    IsWhite(c) || c == '(' || c == ')' || c == '[' || c == ']' || c == '"' || c == ';'
  }

  predicate StartsCharacter(text: string, p: nat) {
    p + 1 < |text| && text[p] == '#' && text[p + 1] == '\\'
  }

  predicate StandsAlone(c: char) {
    c == '(' || c == ')' || c == '"' || c == '\'' || c == '`' || c == ','
  }

  // From the second character on, up to the first that delimits.
  ghost predicate RunsTo(text: string, from: nat, e: nat, delimits: char -> bool) {
    from <= e <= |text| && (forall i :: from <= i < e ==> !delimits(text[i])) && (e < |text| ==> delimits(text[e]))
  }

  lemma {:induction false} ScanRuns(text: string, pos: nat)
    requires pos <= |text|
    ensures RunsTo(text, pos, ScanToken(text, pos), Delimits) && RunsTo(text, pos, ScanCharToken(text, pos), DelimitsCharacter)
    decreases |text| - pos
  {
    if pos < |text| {
      ScanRuns(text, pos + 1);
    }
  }

  /** A bracket, a quote or a prefix is a token of its own; a number sign and a backslash take any
      character along; any other token goes on to the first character that delimits. */
  lemma TokenExtent(text: string, p: nat)
    requires p < |text|
    ensures StandsAlone(text[p]) ==>
      TokenEnd(text, p) == if text[p] == ',' && p + 1 < |text| && text[p + 1] == '@' then p + 2 else p + 1
    ensures StartsCharacter(text, p) ==>
      if p + 2 == |text| then TokenEnd(text, p) == p + 2 else RunsTo(text, p + 3, TokenEnd(text, p), DelimitsCharacter)
    ensures !StandsAlone(text[p]) && !StartsCharacter(text, p) ==> RunsTo(text, p + 1, TokenEnd(text, p), Delimits)
  {
    ScanRuns(text, p + 1);
    if p + 3 <= |text| {
      ScanRuns(text, p + 3);
    }
  }

  // ---- hexadecimal and binary numbers ----

  // A number in this base, in small letters.
  function WriteRadix(n: nat, radix: nat): (s: string)
    requires radix == 16 || radix == 2
    ensures s != "" && forall c :: c in s ==> IsHexChar(c) && (radix == 2 ==> c == '0' || c == '1')
  {
    if n < radix then [HexDigit(n)] else WriteRadix(n / radix, radix) + [HexDigit(n % radix)]
  }

  lemma HexDigitValue(d: nat)
    requires d < 16
    ensures IsHexChar(HexDigit(d)) && HexValue(HexDigit(d)) == d
  {
  }

  // Capital letters are the same digits.
  lemma CapitalDigit(c: char)
    requires 'A' <= c <= 'F'
    ensures IsHexChar(c) && HexValue(c) == HexValue(c - 'A' + 'a')
  {
  }

  lemma {:induction false} ParseUndoesRadix(n: nat, radix: nat)
    requires radix == 16 || radix == 2
    ensures ParseRadix(WriteRadix(n, radix), radix) == n
  {
    if n < radix {
      HexDigitValue(n);
      assert [HexDigit(n)][..0] == [];
    } else {
      ParseUndoesRadix(n / radix, radix);
      HexDigitValue(n % radix);
      var s := WriteRadix(n, radix);
      assert s[..|s| - 1] == WriteRadix(n / radix, radix);
    }
  }

  // The 64 bits of n as a signed number.
  function AsSigned(n: nat): int {
    if n < 0x8000_0000_0000_0000 then n else n - 0x1_0000_0000_0000_0000
  }

  /** #x and #b and digits denote the number they spell, as 64 bits read with a sign; more bits are an error. */
  lemma RadixTokens(n: nat)
    ensures TokenObject("#x" + WriteRadix(n, 16)) == if n < 0x1_0000_0000_0000_0000 then Got(Int(AsSigned(n))) else OutOfRange
    ensures TokenObject("#b" + WriteRadix(n, 2)) == if n < 0x1_0000_0000_0000_0000 then Got(Int(AsSigned(n))) else OutOfRange
  {
    RadixToken(n, 16, 'x', "#x" + WriteRadix(n, 16));
    RadixToken(n, 2, 'b', "#b" + WriteRadix(n, 2));
  }

  lemma RadixToken(n: nat, radix: nat, letter: char, s: string)
    requires (radix == 16 && letter == 'x') || (radix == 2 && letter == 'b')
    requires s == ['#', letter] + WriteRadix(n, radix)
    ensures TokenObject(s) == if n < 0x1_0000_0000_0000_0000 then Got(Int(AsSigned(n))) else OutOfRange
  {
    var digits := WriteRadix(n, radix);
    assert s[2..] == digits && s[0] == '#' && s[1] == letter;
    ParseUndoesRadix(n, radix);
    forall i | 2 <= i < |s|
      ensures IsHexChar(s[i]) && (radix == 2 ==> s[i] == '0' || s[i] == '1')
    {
      assert s[i] == digits[i - 2] && digits[i - 2] in digits;
    }
  }

  // ---- characters ----

  // A printable character stands for itself; \n, \s and \t for a newline, a blank and a tabulator.
  lemma CharacterTokens(c: char)
    requires IsPrintable(c) && c != ' '
    ensures TokenObject(['#', '\\', c]) == Got(Char(c))
    ensures TokenObject(['#', '\\', '\\', 'n']) == Got(Char('\n'))
    ensures TokenObject(['#', '\\', '\\', 's']) == Got(Char(' '))
    ensures TokenObject(['#', '\\', '\\', 't']) == Got(Char('\t'))
  {
    CharacterToken(['#', '\\', c], Char(c));
    CharacterToken(['#', '\\', '\\', 'n'], Char('\n'));
    CharacterToken(['#', '\\', '\\', 's'], Char(' '));
    CharacterToken(['#', '\\', '\\', 't'], Char('\t'));
  }

  lemma CharacterToken(s: string, o: Obj)
    requires |s| >= 3 && s[0] == '#' && s[1] == '\\' && CharObject(s) == Some(o)
    ensures TokenObject(s) == Got(o)
  {
    assert s[0] in s && !IsDigit(s[0]) && s[0] != '.' && s[0] != '-';
  }

  // Digits with one point among or around them are a float that keeps them.
  lemma FloatToken(before: string, after: string, negative: bool)
    requires before + after != "" && (forall i :: 0 <= i < |before| ==> IsDigit(before[i]))
    requires forall i :: 0 <= i < |after| ==> IsDigit(after[i])
    ensures var s := (if negative then "-" else "") + (before + "." + after);
            TokenObject(s) == Got(Float(s))
  {
    var body := before + "." + after;
    var s := (if negative then "-" else "") + body;
    PointInside(before, after, body);
    if negative {
      assert s == "-" + body && s[0] == '-' && s[1..] == body;
      PointIsNoInteger(s, |before| + 1);
      FloatObject(s, body);
    } else {
      assert s == body;
      PointIsNoInteger(s, |before|);
      FloatObject(s, body);
    }
  }

  lemma PointIsNoInteger(s: string, k: nat)
    requires k < |s| && s[k] == '.'
    ensures !LooksLikeInteger(s)
  {
  }

  lemma FloatObject(s: string, body: string)
    requires s != "" && s[0] != '#' && body == (if s[0] == '-' then s[1..] else s) && LooksLikeFloat(body) && !LooksLikeInteger(s)
    requires body != "" && body[0] != '-'
    ensures TokenObject(s) == Got(Float(s))
  {
    assert LooksLikeFloat(s);
  }

  lemma PointInside(before: string, after: string, body: string)
    requires body == before + "." + after && before + after != ""
    requires forall i :: 0 <= i < |before| ==> IsDigit(before[i])
    requires forall i :: 0 <= i < |after| ==> IsDigit(after[i])
    ensures |body| >= 2 && body[0] != '-' && body[0] != '#' && LooksLikeFloat(body) && body[|before|] == '.'
    ensures forall i :: 0 <= i < |body| ==> if i == |before| then body[i] == '.' else IsDigit(body[i])
  {
    assert body[|before|] == '.';
    forall i | 0 <= i < |body|
      ensures if i == |before| then body[i] == '.' else IsDigit(body[i])
    {
      if i < |before| {
        assert body[i] == before[i];
      } else if i > |before| {
        assert body[i] == after[i - |before| - 1];
      }
    }
  }

  // ---- string literals ----

  /** How a character of a string may be written: as itself, or after a backslash. */
  datatype Written = Itself(c: char) | Newline | Tab | Backslash | QuoteMark | Code(high: char, low: char)

  function WrittenText(w: Written): string {
    match w
    case Itself(c) => [c]
    case Newline => ['\\', 'n']
    case Tab => ['\\', 't']
    case Backslash => ['\\', '\\']
    case QuoteMark => ['\\', '"']
    case Code(high, low) => ['\\', 'c', high, low]
  }

  predicate IsWritten(w: Written) {
    match w
    case Itself(c) => c != '"' && c != '\\'
    case Code(high, low) => IsHexChar(high) && IsHexChar(low)
    case _ => true
  }

  function CharOf(w: Written): char
    requires IsWritten(w)
  {
    match w
    case Itself(c) => c
    case Newline => '\n'
    case Tab => '\t'
    case Backslash => '\\'
    case QuoteMark => '"'
    case Code(high, low) => (16 * HexValue(high) + HexValue(low)) as char
  }

  /** A literal after its opening quote: the characters as they are written, up to the closing quote. */
  datatype Literal = Closing | Then(w: Written, rest: Literal)

  predicate IsLiteral(l: Literal) {
    l.Then? ==> IsWritten(l.w) && IsLiteral(l.rest)
  }

  function LiteralText(l: Literal): string {
    match l
    case Closing => ['"']
    case Then(w, rest) => WrittenText(w) + LiteralText(rest)
  }

  function LiteralValue(l: Literal): string
    requires IsLiteral(l)
  {
    match l
    case Closing => ""
    case Then(w, rest) => [CharOf(w)] + LiteralValue(rest)
  }

  lemma WrittenIsRead(text: string, pos: nat, w: Written)
    requires IsWritten(w) && At(text, pos, WrittenText(w)) && pos + |WrittenText(w)| < |text|
    ensures ReadString(text, pos) == Prepend(CharOf(w), ReadString(text, pos + |WrittenText(w)|))
  {
    var s := WrittenText(w);
    assert text[pos + 0] == s[0];
    if !w.Itself? {
      assert text[pos + 1] == s[1];
      if w.Code? {
        assert text[pos + 2] == s[2] && text[pos + 3] == s[3];
      }
    }
  }

  /** A literal denotes the string of its characters, whichever way each is written, and ends after its
      closing quote. */
  lemma {:induction false} LiteralIsRead(text: string, pos: nat, l: Literal)
    requires IsLiteral(l) && At(text, pos, LiteralText(l))
    ensures ReadString(text, pos) == Some((LiteralValue(l), pos + |LiteralText(l)|))
    decreases l
  {
    match l
    case Closing =>
      AtFirst(text, pos, LiteralText(l));
    case Then(w, rest) =>
      AtSplit(text, pos, WrittenText(w), LiteralText(rest));
      LiteralIsRead(text, pos + |WrittenText(w)|, rest);
      NotEmpty(rest);
      WrittenIsRead(text, pos, w);
  }

  lemma NotEmpty(l: Literal)
    ensures LiteralText(l) != ""
  {
  }

  // Any other character after a backslash is an error, and so is the end of the text.
  lemma UnknownEscape(text: string, pos: nat)
    requires pos < |text| && text[pos] == '\\'
    requires pos + 1 < |text| ==> text[pos + 1] !in {'n', 't', '\\', '"', 'c'}
    ensures ReadString(text, pos) == None
  {
  }

  lemma UnclosedLiteral(text: string)
    ensures ReadString(text, |text|) == None
  {
  }
}
