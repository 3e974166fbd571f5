/** Script objects as values, and how they print. */
module Objects {

  /** Strings hold one character per byte.  A float keeps the digits it was written with.
      Functions, macros and the like are kept elsewhere and referred to by number. */
  datatype Obj =
    | NoneObj
    | Null
    | Int(i: int)
    | Float(literal: string)
    | Char(c: char)
    | Sym(name: string)
    | Str(data: string)
    | Pair(car: Obj, cdr: Obj)
    | Heap(ref: nat)

  const INT64_MIN: int := -0x8000_0000_0000_0000
  const INT64_MAX: int := 0x7fff_ffff_ffff_ffff

  predicate IsDigit(c: char) {
    '0' <= c <= '9'
  }

  function Digit(d: nat): char
    requires d < 10
  {
    '0' + d as char
  }

  function DigitValue(c: char): nat
    requires IsDigit(c)
  {
    c as int - '0' as int
  }

  /** std::to_string on a non-negative integer. */
  function Decimal(n: nat): (s: string)
    ensures s != [] && forall c :: c in s ==> IsDigit(c)
  {
    if n < 10 then [Digit(n)] else Decimal(n / 10) + [Digit(n % 10)]
  }

  function ParseDecimal(s: string): nat
    requires forall c :: c in s ==> IsDigit(c)
  {
    if s == [] then 0 else 10 * ParseDecimal(s[..|s| - 1]) + DigitValue(s[|s| - 1])
  }

  lemma {:induction false} ParseUndoesDecimal(n: nat)
    ensures ParseDecimal(Decimal(n)) == n
  {
    if n >= 10 {
      ParseUndoesDecimal(n / 10);
      assert Decimal(n)[..|Decimal(n)| - 1] == Decimal(n / 10);
    }
  }

  function PrintInt(i: int): string {
    if i < 0 then "-" + Decimal(-i) else Decimal(i)
  }

  predicate IsPrintable(c: char) {
    ' ' <= c <= '~'
  }

  function HexDigit(d: nat): char
    requires d < 16
  {
    if d < 10 then '0' + d as char else 'a' + (d - 10) as char
  }

  /** Two lower-case hexadecimal digits of a byte; characters are bytes here. */
  function Hex2(c: char): string {
    var b := c as int % 256;
    [HexDigit(b / 16), HexDigit(b % 16)]
  }

  function PrintChar(c: char): string {
    if c == '\n' then "#\\newline"
    else if c == ' ' then "#\\space"
    else if c == '\t' then "#\\tab"
    else if c == '\r' then "#\\return"
    else if c == '\0' then "#\\null"
    else if c == 8 as char then "#\\backspace"
    else if c == 27 as char then "#\\escape"
    else if IsPrintable(c) then "#\\" + [c]
    else "#\\x" + Hex2(c)
  }

  function PrintAtom(o: Obj): string
    requires !o.Pair?
  {
    match o
    case NoneObj => "none"
    case Null => "null"
    case Int(i) => PrintInt(i)
    case Float(literal) => literal
    case Char(c) => PrintChar(c)
    case Sym(name) => name
    case Str(data) => "\"" + data + "\""
    case Heap(ref) => "#<" + Decimal(ref) + ">"
  }

  function Print(o: Obj): string
  {
    if o.Pair? then "(" + Print(o.car) + PrintTail(o.cdr) else PrintAtom(o)
  }

  // Everything a pair prints after its first element.
  function PrintTail(o: Obj): string
  {
    if o.Null? then ")"
    else if o.Pair? then " " + Print(o.car) + PrintTail(o.cdr)
    else " . " + PrintAtom(o) + ")"
  }

  // The pairs of a list are printed in a loop over the cdr chain.
  method PrintPair(o: Obj) returns (s: string)
    requires o.Pair?
    ensures s == Print(o)
  {
    s := "(" + Print(o.car);
    var current := o.cdr;
    while current.Pair?
      invariant s + PrintTail(current) == Print(o)
      decreases current
    {
      s := s + " " + Print(current.car);
      current := current.cdr;
    }
    if !current.Null? {
      s := s + " . " + Print(current);
    }
    s := s + ")";
  }

  // operator==: structural, except that the none object equals nothing, not even itself.
  predicate Equal(a: Obj, b: Obj)
  {
    match (a, b)
    case (NoneObj, _) => false
    case (Pair(a1, d1), Pair(a2, d2)) => Equal(a1, a2) && Equal(d1, d2)
    case _ => a == b
  }

  predicate HasNone(o: Obj)
  {
    o.NoneObj? || (o.Pair? && (HasNone(o.car) || HasNone(o.cdr)))
  }

  lemma {:induction false} EqualIsIdentity(a: Obj, b: Obj)
    ensures Equal(a, b) <==> a == b && !HasNone(a)
  {
    if a.Pair? && b.Pair? {
      EqualIsIdentity(a.car, b.car);
      EqualIsIdentity(a.cdr, b.cdr);
    }
  }

  predicate IsKeyword(o: Obj) {
    o.Sym? && o.name != "" && o.name[0] == ':'
  }

  // Lists from a vector of elements and a final cdr.
  function BuildList(items: seq<Obj>, tail: Obj): Obj
  {
    if items == [] then tail else Pair(items[0], BuildList(items[1..], tail))
  }

  lemma {:induction false} BuildListSnoc(items: seq<Obj>, o: Obj, tail: Obj)
    ensures BuildList(items + [o], tail) == BuildList(items, Pair(o, tail))
  {
    if items == [] {
      assert [o][1..] == [];
    } else {
      assert (items + [o])[1..] == items[1..] + [o];
      BuildListSnoc(items[1..], o, tail);
    }
  }
}
