/** The tokenizer: blanks and comments, where a token ends, and what object a token denotes. */
module Tokens {
  import opened Options
  import opened Objects

  predicate IsBlank(c: char) {
    c == ' ' || c == '\t' || c == '\n' || c == '\r'
  }

  /** isspace in the "C" locale. */
  predicate IsSpace(c: char) {
    IsBlank(c) || c == 11 as char || c == 12 as char
  }

  // ---- blanks and comments ----

  function AfterNewline(text: string, pos: nat): (r: nat)
    requires pos <= |text|
    ensures pos <= r <= |text|
    decreases |text| - pos
  {
    if pos == |text| then pos
    else if text[pos] == '\n' then pos + 1
    else AfterNewline(text, pos + 1)
  }

  function AfterBar(text: string, pos: nat): (r: nat)
    requires pos <= |text|
    ensures pos <= r <= |text|
    decreases |text| - pos
  {
    if pos == |text| then pos
    else if text[pos] == '|' then pos + 1
    else AfterBar(text, pos + 1)
  }

  // Past the end of a block comment.  The character after a bar is consumed whatever it is,
  // so the comment closes only where a bar is directly followed by a number sign and was not
  // itself consumed that way.
  function AfterBlockComment(text: string, pos: nat): (r: nat)
    requires pos <= |text|
    ensures pos <= r <= |text|
    decreases |text| - pos
  {
    if pos == |text| then pos
    else
      var bar := AfterBar(text, pos);
      if bar == |text| then bar
      else if text[bar] == '#' then bar + 1
      else AfterBlockComment(text, bar + 1)
  }

  function SkipBlank(text: string, pos: nat): (r: nat)
    requires pos <= |text|
    ensures pos <= r <= |text|
    decreases |text| - pos
  {
    if pos == |text| then pos
    else if IsBlank(text[pos]) then SkipBlank(text, pos + 1)
    else if text[pos] == ';' then SkipBlank(text, AfterNewline(text, pos + 1))
    else if text[pos] == '#' && pos + 1 < |text| && text[pos + 1] == '|' then
      SkipBlank(text, AfterBlockComment(text, pos + 2))
    else pos
  }

  // ---- where a token ends ----

  predicate IsPrefixMacro(tok: string) {
    tok == "'" || tok == "`" || tok == "," || tok == ",@"
  }

  function MacroName(tok: string): string
    requires IsPrefixMacro(tok)
  {
    if tok == "'" then "quote" else if tok == "`" then "quasiquote"
    else if tok == "," then "unquote" else "unquote-splicing"
  }

  predicate EndsToken(c: char) {
    IsSpace(c) || c == ')' || c == '(' || c == '"' || c == ';' || c == '\'' || c == '`' || c == ','
  }

  predicate EndsCharToken(c: char) {
    IsSpace(c) || c == ')' || c == '(' || c == '[' || c == ']' || c == '"' || c == ';'
  }

  function ScanToken(text: string, pos: nat): (r: nat)
    requires pos <= |text|
    ensures pos <= r <= |text|
    decreases |text| - pos
  {
    if pos == |text| || EndsToken(text[pos]) then pos else ScanToken(text, pos + 1)
  }

  function ScanCharToken(text: string, pos: nat): (r: nat)
    requires pos <= |text|
    ensures pos <= r <= |text|
    decreases |text| - pos
  {
    if pos == |text| || EndsCharToken(text[pos]) then pos else ScanCharToken(text, pos + 1)
  }

  function TokenEnd(text: string, pos: nat): (r: nat)
    requires pos < |text|
    ensures pos < r <= |text|
  {
    var first := text[pos];
    var second := if pos + 1 < |text| then Some(text[pos + 1]) else None;
    if first == '#' && second == Some('\\') then
      if pos + 2 < |text| then ScanCharToken(text, pos + 3) else pos + 2
    else if first == ',' && second == Some('@') then pos + 2
    else if first == '(' || first == ')' || first == '"' || first == '\'' || first == '`' || first == ',' then pos + 1
    else ScanToken(text, pos + 1)
  }

  // ---- what a token denotes ----

  /** Got an object, a token that must be a number but is out of range, or no object at all. */
  datatype Denotes = Got(o: Obj) | OutOfRange | Nothing

  predicate IsSymbolChar(c: char) {
    || 'a' <= c <= 'z' || 'A' <= c <= 'Z' || IsDigit(c)
    || c == '!' || c == '$' || c == '%' || c == '&' || c == '*' || c == '+' || c == '-' || c == '/'
    || c == '\\' || c == '.' || c == ',' || c == '@' || c == '^' || c == '_' || c == ';' || c == ':'
    || c == '<' || c == '>' || c == '?' || c == '~' || c == '=' || c == '#'
  }

  predicate IsHexChar(c: char) {
    IsDigit(c) || 'a' <= c <= 'f' || 'A' <= c <= 'F'
  }

  function HexValue(c: char): nat
    requires IsHexChar(c)
  {
    if IsDigit(c) then DigitValue(c)
    else if 'a' <= c <= 'f' then 10 + (c as int - 'a' as int)
    else 10 + (c as int - 'A' as int)
  }

  function ParseRadix(s: string, radix: nat): nat
    requires forall c :: c in s ==> IsHexChar(c)
  {
    if s == [] then 0 else radix * ParseRadix(s[..|s| - 1], radix) + HexValue(s[|s| - 1])
  }

  predicate LooksLikeInteger(tok: string) {
    && tok != []
    && (IsDigit(tok[0]) || (tok[0] == '-' && |tok| > 1))
    && forall i :: 1 <= i < |tok| ==> IsDigit(tok[i])
  }

  function IntegerValue(tok: string): int
    requires LooksLikeInteger(tok)
  {
    if tok[0] == '-' then -(ParseDecimal(tok[1..]) as int) else ParseDecimal(tok)
  }

  // 64 unsigned bits read as a signed integer.
  function Signed64(v: nat): int {
    if v > INT64_MAX then v - 0x1_0000_0000_0000_0000 else v
  }

  predicate LooksLikeRadix(tok: string, letter: char) {
    |tok| >= 3 && tok[0] == '#' && tok[1] == letter
    && forall i :: 2 <= i < |tok| ==> if letter == 'b' then tok[i] == '0' || tok[i] == '1' else IsHexChar(tok[i])
  }

  function RadixObject(tok: string, letter: char, radix: nat): Denotes
    requires LooksLikeRadix(tok, letter)
  {
    assert forall c :: c in tok[2..] ==> IsHexChar(c);
    var v := ParseRadix(tok[2..], radix);
    if v < 0x1_0000_0000_0000_0000 then Got(Int(Signed64(v))) else OutOfRange
  }

  // An optional minus, digits, and exactly one point among or around at least one digit.
  predicate LooksLikeFloat(tok: string) {
    var body := if tok != [] && tok[0] == '-' then tok[1..] else tok;
    && |body| >= 2
    && (forall c :: c in body ==> IsDigit(c) || c == '.')
    && '.' in body
    && forall i, j :: 0 <= i < j < |body| ==> body[i] != '.' || body[j] != '.'
  }

  function CharObject(tok: string): Option<Obj> {
    if |tok| >= 3 && tok[0] == '#' && tok[1] == '\\' then
      if |tok| == 3 && IsPrintable(tok[2]) && tok[2] != ' ' then Some(Char(tok[2]))
      else if |tok| == 4 && tok[2] == '\\' then
        if tok[3] == 'n' then Some(Char('\n'))
        else if tok[3] == 's' then Some(Char(' '))
        else if tok[3] == 't' then Some(Char('\t'))
        else None
      else None
    else None
  }

  // A keyword needs at least one character after the colon.
  predicate LooksLikeSymbol(tok: string) {
    tok != [] && tok != ":" && forall c :: c in tok ==> IsSymbolChar(c)
  }

  // The readers of a token, in the order they are tried; strings are read from the stream.
  function TokenObject(tok: string): Denotes
  {
    if LooksLikeInteger(tok) then
      if INT64_MIN <= IntegerValue(tok) <= INT64_MAX then Got(Int(IntegerValue(tok))) else OutOfRange
    else if LooksLikeRadix(tok, 'x') then RadixObject(tok, 'x', 16)
    else if LooksLikeRadix(tok, 'b') then RadixObject(tok, 'b', 2)
    else if LooksLikeFloat(tok) then Got(Float(tok))
    else if CharObject(tok).Some? then Got(CharObject(tok).value)
    else if LooksLikeSymbol(tok) then Got(Sym(tok))
    else Nothing
  }
}
