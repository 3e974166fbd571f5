/** The REPL's test whether an expression is complete. */
module Completeness {
  import opened Objects
  import opened Tokens
  import opened Forms
  import opened PrintRoundTrip

  datatype Scan = Scan(paren: int, bracket: int, brace: int, inString: bool, inComment: bool, escapeNext: bool)

  const START: Scan := Scan(0, 0, 0, false, false, false)

  function Count(st: Scan, c: char): Scan {
    if c == ';' then st.(inComment := true)
    else if c == '"' then st.(inString := true)
    else if c == '(' then st.(paren := st.paren + 1)
    else if c == ')' then st.(paren := st.paren - 1)
    else if c == '[' then st.(bracket := st.bracket + 1)
    else if c == ']' then st.(bracket := st.bracket - 1)
    else if c == '{' then st.(brace := st.brace + 1)
    else if c == '}' then st.(brace := st.brace - 1)
    else st
  }

  // How many characters after pos a character literal at pos hides from the count.
  function Hidden(text: string, pos: nat): nat
    requires pos < |text|
    ensures pos + 1 + Hidden(text, pos) <= |text|
  {
    if text[pos] == '#' && pos + 1 < |text| && text[pos + 1] == '\\' then
      if pos + 2 < |text| then 2 else 1
    else 0
  }

  predicate Balanced(st: Scan) {
    st.paren == 0 && st.bracket == 0 && st.brace == 0 && !st.inString
  }

  predicate Overdrawn(st: Scan) {
    st.paren < 0 || st.bracket < 0 || st.brace < 0
  }

  // The verdict on the text from pos on.
  predicate Complete(text: string, pos: nat, st: Scan)
    requires pos <= |text|
    decreases |text| - pos
  {
    if pos == |text| then Balanced(st)
    else
      var c := text[pos];
      if st.escapeNext then Complete(text, pos + 1, st.(escapeNext := false))
      else if st.inComment then Complete(text, pos + 1, if c == '\n' then st.(inComment := false) else st)
      else if st.inString then
        Complete(text, pos + 1, if c == '\\' then st.(escapeNext := true) else if c == '"' then st.(inString := false) else st)
      else
        var st' := Count(st, c);
        Overdrawn(st') || Complete(text, pos + 1 + Hidden(text, pos), st')
  }

  method IsExpressionComplete(code: string) returns (complete: bool)
    ensures complete == Complete(code, 0, START)
  {
    var st := START;
    var pos := 0;
    while pos < |code|
      invariant 0 <= pos <= |code| && Complete(code, pos, st) == Complete(code, 0, START)
      decreases |code| - pos
    {
      var c := code[pos];
      if st.escapeNext {
        st := st.(escapeNext := false);
        pos := pos + 1;
      } else if st.inComment {
        if c == '\n' {
          st := st.(inComment := false);
        }
        pos := pos + 1;
      } else if st.inString {
        if c == '\\' {
          st := st.(escapeNext := true);
        } else if c == '"' {
          st := st.(inString := false);
        }
        pos := pos + 1;
      } else {
        st := Count(st, c);
        if Overdrawn(st) {
          return true;
        }
        pos := pos + 1 + Hidden(code, pos);
      }
    }
    complete := Balanced(st);
  }

  // ---- what the scanner makes of a form ----

  // The state inside depth open parentheses.
  function Inside(depth: int): Scan {
    START.(paren := depth)
  }

  // text, which may end early, agrees with s from pos on.
  ghost predicate Agrees(text: string, pos: nat, s: string) {
    pos <= |text| && forall i :: 0 <= i < |s| && pos + i < |text| ==> text[pos + i] == s[i]
  }

  ghost predicate CompleteFrom(text: string, pos: nat, depth: int)
    requires pos <= |text|
  {
    Complete(text, pos, Inside(depth))
  }

  // Scanning n characters changes the depth by change, unless the text ends first; then it is incomplete.
  ghost predicate Passes(text: string, pos: nat, n: nat, depth: int, change: int)
    requires pos <= |text|
  {
    if pos + n <= |text| then CompleteFrom(text, pos, depth) == CompleteFrom(text, pos + n, depth + change)
    else !CompleteFrom(text, pos, depth)
  }

  lemma AgreesSplit(text: string, pos: nat, a: string, b: string)
    requires Agrees(text, pos, a + b)
    ensures Agrees(text, pos, a)
    ensures pos + |a| <= |text| ==> Agrees(text, pos + |a|, b)
  {
    forall i | 0 <= i < |a| && pos + i < |text|
      ensures text[pos + i] == a[i]
    {
      assert (a + b)[i] == a[i];
    }
    forall i | 0 <= i < |b| && pos + |a| + i < |text|
      ensures text[pos + |a| + i] == b[i]
    {
      assert text[pos + (|a| + i)] == (a + b)[|a| + i];
    }
  }

  lemma PassesBoth(text: string, pos: nat, n: nat, m: nat, depth: int, c1: int, c2: int)
    requires pos <= |text| && Passes(text, pos, n, depth, c1)
    requires pos + n <= |text| ==> Passes(text, pos + n, m, depth + c1, c2)
    ensures Passes(text, pos, n + m, depth, c1 + c2)
  {
  }

  // Two stretches of n and m characters, when the first one takes a character of the second.
  lemma PassesOver(text: string, pos: nat, n: nat, m: nat, skips: bool, depth: int, c1: int, c2: int)
    requires pos <= |text| && Skip(skips) <= m && Passes(text, pos, n + Skip(skips), depth, c1)
    requires pos + n + Skip(skips) <= |text| ==> Passes(text, pos + n + Skip(skips), m - Skip(skips), depth + c1, c2)
    ensures Passes(text, pos, n + m, depth, c1 + c2)
  {
  }

  // A character that the scanner ignores.
  predicate Quiet(c: char) {
    c != '#' && c != ';' && c != '"' && c != '(' && c != ')' && c != '[' && c != ']' && c != '{' && c != '}'
  }

  lemma {:induction false} QuietPasses(text: string, pos: nat, s: string, depth: int)
    requires depth >= 1 && Agrees(text, pos, s) && forall i :: 0 <= i < |s| ==> Quiet(s[i])
    ensures Passes(text, pos, |s|, depth, 0)
    decreases s
  {
    if s != "" && pos < |text| {
      assert text[pos + 0] == s[0];
      assert [s[0]] + s[1..] == s;
      AgreesSplit(text, pos, [s[0]], s[1..]);
      QuietPasses(text, pos + 1, s[1..], depth);
    }
  }

  // The scanner skips the character after each number sign and backslash; a name settles when
  // it does not make the scanner skip the character after the name.
  predicate Settles(name: string, i: nat)
    requires i <= |name|
    decreases |name| - i
  {
    if i == |name| then true
    else if name[i] == '#' && i + 1 < |name| && name[i + 1] == '\\' then i + 3 <= |name| && Settles(name, i + 3)
    else Settles(name, i + 1)
  }

  function Skip(skips: bool): nat {
    if skips then 1 else 0
  }

  // A name is passed without change, together with the character after it if it does not settle.
  lemma {:induction false} PlainPasses(text: string, pos: nat, name: string, i: nat, depth: int)
    requires depth >= 1 && i <= |name| && pos + i <= |text|
    requires Agrees(text, pos, name) && forall k :: 0 <= k < |name| ==> IsPlain(name[k])
    requires pos + |name| < |text| ==> text[pos + |name|] != '\\'
    ensures Passes(text, pos + i, |name| - i + Skip(!Settles(name, i)), depth, 0)
    decreases |name| - i
  {
    if i < |name| && pos + i < |text| {
      assert text[pos + i] == name[i] && IsPlain(name[i]);
      if i + 1 < |name| && pos + i + 1 < |text| {
        assert text[pos + (i + 1)] == name[i + 1];
      }
      if name[i] == '#' && i + 1 < |name| && name[i + 1] == '\\' {
        LiteralPasses(text, pos + i, depth);
        if pos + i + 3 <= |text| && i + 3 <= |name| {
          PlainPasses(text, pos, name, i + 3, depth);
        }
      } else {
        PlainPasses(text, pos, name, i + 1, depth);
      }
    }
  }

  lemma CharPasses(text: string, pos: nat, c: char, depth: int)
    requires depth >= 1 && Agrees(text, pos, "#\\" + [c])
    ensures Passes(text, pos, 3, depth, 0)
  {
    var s := "#\\" + [c];
    if pos < |text| {
      assert text[pos + 0] == s[0];
      if pos + 1 < |text| {
        assert text[pos + 1] == s[1];
      }
      LiteralPasses(text, pos, depth);
    }
  }

  // A number sign and a backslash take the next character with them.
  lemma LiteralPasses(text: string, pos: nat, depth: int)
    requires depth >= 1 && pos < |text| && text[pos] == '#' && (pos + 1 < |text| ==> text[pos + 1] == '\\')
    ensures Passes(text, pos, 3, depth, 0)
  {
    assert Count(Inside(depth), text[pos]) == Inside(depth) && !Balanced(Inside(depth));
    if pos + 3 > |text| {
      assert !Complete(text, |text|, Inside(depth));
    }
  }

  lemma {:induction false} StringBodyPasses(text: string, pos: nat, data: string, depth: int)
    requires depth >= 1 && Agrees(text, pos, data + "\"")
    requires forall i :: 0 <= i < |data| ==> data[i] != '"' && data[i] != '\\'
    ensures var st := Inside(depth).(inString := true);
            if pos + |data| + 1 <= |text| then Complete(text, pos, st) == Complete(text, pos + |data| + 1, Inside(depth))
            else !Complete(text, pos, st)
    decreases data
  {
    var s := data + "\"";
    if pos < |text| {
      assert text[pos + 0] == s[0];
      if data != "" {
        assert s == [data[0]] + (data[1..] + "\"");
        AgreesSplit(text, pos, [data[0]], data[1..] + "\"");
        StringBodyPasses(text, pos + 1, data[1..], depth);
      }
    }
  }

  lemma StrPasses(text: string, pos: nat, data: string, depth: int)
    requires depth >= 1 && Agrees(text, pos, "\"" + data + "\"")
    requires forall i :: 0 <= i < |data| ==> data[i] != '"' && data[i] != '\\'
    ensures Passes(text, pos, |data| + 2, depth, 0)
  {
    var s := "\"" + data + "\"";
    if pos < |text| {
      assert text[pos + 0] == s[0];
      assert s == "\"" + (data + "\"");
      AgreesSplit(text, pos, "\"", data + "\"");
      StringBodyPasses(text, pos + 1, data, depth);
    }
  }

  // A symbol that makes the scanner skip the character after it.
  predicate Unsettled(o: Obj) {
    o.Sym? && !Settles(o.name, 0)
  }

  predicate Skips(f: Form) {
    match f
    case Leaf(o) => Unsettled(o)
    case List(_) => false
    case Quoted(_, inner) => Skips(inner)
  }

  // The number of closing parentheses in a form that go uncounted.
  function Uncounted(f: Form): (r: int)
    ensures r >= 0
  {
    match f
    case Leaf(_) => 0
    case List(tail) => 1 + TailChange(tail, false)
    case Quoted(_, inner) => Uncounted(inner)
  }

  // What closing a list does to the depth when the first character may have been skipped.
  function CloseChange(ws: string, skipped: bool): int {
    if skipped && ws == "" then 0 else -1
  }

  // What the rest of a list does to the depth when its first character may have been skipped.
  function TailChange(t: Tail, skipped: bool): (r: int)
    ensures r >= -1
  {
    match t
    case Close(ws) => CloseChange(ws, skipped)
    case Item(_, f, rest) => Uncounted(f) + TailChange(rest, Skips(f))
    case DotItem(_, _, f, ws) => Uncounted(f) + CloseChange(ws, Skips(f))
  }

  lemma {:induction false} NumberSettles(s: string, i: nat)
    requires i <= |s| && forall k :: 0 <= k < |s| ==> s[k] != '#'
    ensures Settles(s, i)
    decreases |s| - i
  {
    if i < |s| {
      NumberSettles(s, i + 1);
    }
  }

  lemma IntPasses(text: string, pos: nat, n: int, depth: int)
    requires depth >= 1 && Agrees(text, pos, PrintInt(n))
    requires pos + |PrintInt(n)| < |text| ==> text[pos + |PrintInt(n)|] != '\\'
    ensures Passes(text, pos, |PrintInt(n)|, depth, 0)
  {
    var s := PrintInt(n);
    DigitsArePlain(n);
    var digits := Decimal(if n < 0 then -n else n);
    forall k | 0 <= k < |s|
      ensures s[k] != '#'
    {
      assert s[k] == '-' || s[k] in digits;
    }
    NumberSettles(s, 0);
    PlainPasses(text, pos, s, 0, depth);
  }

  lemma LeafPasses(o: Obj, text: string, pos: nat, depth: int)
    requires depth >= 1 && ReadableAtom(o) && Agrees(text, pos, PrintAtom(o))
    requires pos + |PrintAtom(o)| < |text| ==> text[pos + |PrintAtom(o)|] != '\\'
    ensures Passes(text, pos, |PrintAtom(o)| + Skip(Unsettled(o)), depth, 0)
  {
    match o
    case Int(i) => IntPasses(text, pos, i, depth);
    case Char(c) => CharPasses(text, pos, c, depth);
    case Str(data) => StrPasses(text, pos, data, depth);
    case Sym(name) => PlainPasses(text, pos, name, 0, depth);
  }

  lemma OpenPasses(text: string, pos: nat, depth: int)
    requires depth >= 0 && Agrees(text, pos, "(") && pos < |text|
    ensures Passes(text, pos, 1, depth, 1)
  {
    assert text[pos + 0] == "("[0];
  }

  lemma ClosePasses(text: string, pos: nat, depth: int)
    requires depth >= 1 && Agrees(text, pos, ")")
    ensures Passes(text, pos, 1, depth, -1)
  {
    if pos < |text| {
      assert text[pos + 0] == ")"[0];
    }
  }

  lemma BlanksPass(text: string, pos: nat, ws: string, depth: int)
    requires depth >= 1 && Agrees(text, pos, ws) && Blanks(ws)
    ensures Passes(text, pos, |ws|, depth, 0)
  {
    QuietPasses(text, pos, ws, depth);
  }

  // A form inside parentheses adds the parentheses that go uncounted, and no text that ends in it
  // is complete.
  lemma {:induction false} FormPasses(f: Form, text: string, pos: nat, depth: int)
    requires depth >= 1 && WellFormed(f) && Agrees(text, pos, Text(f))
    requires pos + |Text(f)| < |text| ==> text[pos + |Text(f)|] != '\\'
    ensures Passes(text, pos, |Text(f)| + Skip(Skips(f)), depth, Uncounted(f))
    decreases f, 1
  {
    match f
    case Leaf(o) =>
      LeafPasses(o, text, pos, depth);
    case List(tail) =>
      if pos < |text| {
        ListPasses(f, text, pos, depth);
      }
    case Quoted(q, inner) =>
      QuotesAreQuiet(q);
      QuietThenForm(QuoteText(q), inner, text, pos, depth, f);
  }

  // Characters that the scanner ignores, and the form after them.
  lemma {:induction false} QuietThenForm(s: string, inner: Form, text: string, pos: nat, depth: int, whole: Form)
    requires whole.Quoted? && whole.f == inner && depth >= 1 && WellFormed(inner)
    requires Agrees(text, pos, s + Text(inner)) && forall i :: 0 <= i < |s| ==> Quiet(s[i])
    requires pos + |s| + |Text(inner)| < |text| ==> text[pos + |s| + |Text(inner)|] != '\\'
    ensures Passes(text, pos, |s| + (|Text(inner)| + Skip(Skips(inner))), depth, Uncounted(inner))
    decreases whole, 0
  {
    AgreesSplit(text, pos, s, Text(inner));
    QuietPasses(text, pos, s, depth);
    if pos + |s| <= |text| {
      FormPasses(inner, text, pos + |s|, depth);
    }
    PassesBoth(text, pos, |s|, |Text(inner)| + Skip(Skips(inner)), depth, 0, Uncounted(inner));
  }

  lemma QuotesAreQuiet(q: Quote)
    ensures forall i :: 0 <= i < |QuoteText(q)| ==> Quiet(QuoteText(q)[i])
  {
  }

  lemma {:induction false} ListPasses(f: Form, text: string, pos: nat, depth: int)
    requires f.List? && depth >= 0 && WellFormed(f) && Agrees(text, pos, Text(f)) && pos < |text|
    ensures Passes(text, pos, |Text(f)|, depth, Uncounted(f))
    decreases f, 0
  {
    var tail := f.tail;
    var change := TailChange(tail, false);
    assert Text(f) == "(" + TailText(tail) && TailText(tail)[0..] == TailText(tail);
    AgreesSplit(text, pos, "(", TailText(tail));
    OpenPasses(text, pos, depth);
    TailPasses(tail, text, pos + 1, depth + 1, true, false);
    PassesBoth(text, pos, 1, |TailText(tail)|, depth, 1, change);
  }

  // The rest of a list as what follows the form f: its text, and what it does to the depth.
  ghost function RestText(rest: Tail): string {
    TailText(rest)
  }

  ghost function RestChange(rest: Tail, skips: bool): int {
    TailChange(rest, skips)
  }

  lemma TailStart(t: Tail)
    requires WellFormedTail(t, false)
    ensures TailText(t) != "" && TailText(t)[0] != '\\'
  {
  }

  // The rest of a list, possibly after its first character, and no text that ends in it is complete.
  lemma {:induction false} TailPasses(t: Tail, text: string, pos: nat, depth: int, first: bool, skipped: bool)
    requires depth >= 1 && WellFormedTail(t, first) && (first ==> !skipped) && Skip(skipped) <= |TailText(t)|
    requires Agrees(text, pos, TailText(t)[Skip(skipped)..])
    ensures Passes(text, pos, |TailText(t)| - Skip(skipped), depth, TailChange(t, skipped))
    decreases t, 2
  {
    match t
    case Close(ws) =>
      ClosingPasses(ws, text, pos, depth, skipped);
    case Item(ws, f, rest) =>
      ItemPasses(ws, f, rest, text, pos, depth, skipped, t);
    case DotItem(_, _, _, _) =>
      DotPasses(t, text, pos, depth, skipped);
  }

  // Blanks, with or without the first one.
  lemma DropBlank(ws: string, s: string, skipped: bool)
    requires Blanks(ws) && (skipped ==> ws != "")
    ensures (ws + s)[Skip(skipped)..] == ws[Skip(skipped)..] + s && Blanks(ws[Skip(skipped)..])
  {
  }

  // Blanks, possibly without the first one, before something that passes.
  lemma BlanksThen(ws: string, rest: string, text: string, pos: nat, depth: int, skipped: bool, change: int)
    requires depth >= 1 && Blanks(ws) && (skipped ==> ws != "") && Agrees(text, pos, (ws + rest)[Skip(skipped)..])
    requires var p := pos + |ws| - Skip(skipped);
             p <= |text| && Agrees(text, p, rest) ==> Passes(text, p, |rest|, depth, change)
    ensures Passes(text, pos, |ws| + |rest| - Skip(skipped), depth, change)
  {
    var left := ws[Skip(skipped)..];
    DropBlank(ws, rest, skipped);
    AgreesSplit(text, pos, left, rest);
    BlanksPass(text, pos, left, depth);
    PassesBoth(text, pos, |left|, |rest|, depth, 0, change);
  }

  lemma {:induction false} ItemPasses(ws: string, f: Form, rest: Tail, text: string, pos: nat, depth: int, skipped: bool,
                                      whole: Tail)
    requires whole.Item? && whole.f == f && whole.rest == rest
    requires depth >= 1 && Blanks(ws) && (skipped ==> ws != "") && WellFormed(f) && WellFormedTail(rest, false)
    requires Agrees(text, pos, (ws + (Text(f) + RestText(rest)))[Skip(skipped)..])
    ensures Passes(text, pos, |ws| + |Text(f) + RestText(rest)| - Skip(skipped), depth,
                   Uncounted(f) + RestChange(rest, Skips(f)))
    decreases whole, 1
  {
    var p := pos + |ws| - Skip(skipped);
    if p <= |text| && Agrees(text, p, Text(f) + RestText(rest)) {
      FormAndRest(f, rest, text, p, depth, whole);
    }
    BlanksThen(ws, Text(f) + RestText(rest), text, pos, depth, skipped, Uncounted(f) + RestChange(rest, Skips(f)));
  }

  // A form and what follows it.
  lemma {:induction false} FormFollowed(f: Form, s: string, text: string, pos: nat, depth: int)
    requires depth >= 1 && WellFormed(f) && Agrees(text, pos, Text(f) + s) && s != "" && s[0] != '\\'
    ensures Passes(text, pos, |Text(f)| + Skip(Skips(f)), depth, Uncounted(f))
    ensures pos + |Text(f)| <= |text| ==> Agrees(text, pos + |Text(f)|, s)
    decreases f, 2
  {
    var next := pos + |Text(f)|;
    AgreesSplit(text, pos, Text(f), s);
    assert next < |text| ==> text[next + 0] == s[0];
    FormPasses(f, text, pos, depth);
  }

  lemma {:induction false} FormAndRest(f: Form, rest: Tail, text: string, pos: nat, depth: int, whole: Tail)
    requires whole.Item? && whole.f == f && whole.rest == rest
    requires depth >= 1 && WellFormed(f) && WellFormedTail(rest, false) && Agrees(text, pos, Text(f) + RestText(rest))
    ensures Passes(text, pos, |Text(f)| + |RestText(rest)|, depth, Uncounted(f) + RestChange(rest, Skips(f)))
    decreases whole, 0
  {
    RestAfter(rest, text, pos + |Text(f)|, depth + Uncounted(f), Skips(f));
    FormAndMore(f, RestText(rest), text, pos, depth, RestChange(rest, Skips(f)));
  }

  // A form and the rest of its list, given what the rest does.
  lemma {:induction false} FormAndMore(f: Form, s: string, text: string, pos: nat, depth: int, change: int)
    requires depth >= 1 && WellFormed(f) && Agrees(text, pos, Text(f) + s) && s != "" && s[0] != '\\'
    requires PassesAfter(text, pos + |Text(f)|, s, Skips(f), depth + Uncounted(f), change)
    ensures Passes(text, pos, |Text(f)| + |s|, depth, Uncounted(f) + change)
    decreases f, 3
  {
    FormFollowed(f, s, text, pos, depth);
    PassesOver(text, pos, |Text(f)|, |s|, Skips(f), depth, Uncounted(f), change);
  }

  // If s comes next, it passes, possibly without its first character.
  ghost predicate PassesAfter(text: string, pos: nat, s: string, skips: bool, depth: int, change: int)
    requires s != ""
  {
    pos + Skip(skips) <= |text| && Agrees(text, pos, s) ==>
      Passes(text, pos + Skip(skips), |s| - Skip(skips), depth, change)
  }

  // Without its first character s comes one later.
  lemma AgreesLater(text: string, pos: nat, s: string, skipped: bool)
    requires Agrees(text, pos, s) && s != "" && pos + Skip(skipped) <= |text|
    ensures Agrees(text, pos + Skip(skipped), s[Skip(skipped)..])
  {
    assert s[..Skip(skipped)] + s[Skip(skipped)..] == s;
    AgreesSplit(text, pos, s[..Skip(skipped)], s[Skip(skipped)..]);
  }

  lemma {:induction false} RestAfter(t: Tail, text: string, pos: nat, depth: int, skips: bool)
    requires depth >= 1 && WellFormedTail(t, false)
    ensures RestText(t) != "" && RestText(t)[0] != '\\' && PassesAfter(text, pos, RestText(t), skips, depth, RestChange(t, skips))
    decreases t, 4
  {
    TailStart(t);
    if pos + Skip(skips) <= |text| && Agrees(text, pos, RestText(t)) {
      RestPasses(t, text, pos, depth, skips);
    }
  }

  lemma {:induction false} RestPasses(t: Tail, text: string, pos: nat, depth: int, skips: bool)
    requires depth >= 1 && WellFormedTail(t, false) && TailText(t) != ""
    requires pos + Skip(skips) <= |text| && Agrees(text, pos, TailText(t))
    ensures Passes(text, pos + Skip(skips), |TailText(t)| - Skip(skips), depth, TailChange(t, skips))
    decreases t, 3
  {
    AgreesLater(text, pos, TailText(t), skips);
    TailPasses(t, text, pos + Skip(skips), depth, false, skips);
  }

  lemma {:induction false} DotPasses(t: Tail, text: string, pos: nat, depth: int, skipped: bool)
    requires t.DotItem? && depth >= 1 && WellFormedTail(t, false) && Agrees(text, pos, TailText(t)[Skip(skipped)..])
    ensures Passes(text, pos, |TailText(t)| - Skip(skipped), depth, TailChange(t, skipped))
    decreases t, 1
  {
    var ending := Text(t.f) + (t.wsBeforeClose + ")");
    var rest := "." + (t.wsAfterDot + ending);
    var change := Uncounted(t.f) + CloseChange(t.wsBeforeClose, Skips(t.f));
    assert TailText(t) == t.ws + rest;
    var p := pos + |t.ws| - Skip(skipped);
    if p <= |text| && Agrees(text, p, rest) {
      DotAndEnding(t.f, t.wsAfterDot, t.wsBeforeClose, text, p, depth, t);
    }
    BlanksThen(t.ws, rest, text, pos, depth, skipped, change);
  }

  lemma {:induction false} DotAndEnding(f: Form, after: string, ws: string, text: string, pos: nat, depth: int, whole: Tail)
    requires whole.DotItem? && whole.f == f && depth >= 1 && WellFormed(f) && Blanks(after) && Blanks(ws)
    requires Agrees(text, pos, "." + (after + (Text(f) + (ws + ")"))))
    ensures Passes(text, pos, 1 + |after| + |Text(f)| + |ws| + 1, depth, Uncounted(f) + CloseChange(ws, Skips(f)))
    decreases whole, 0
  {
    var ending := Text(f) + (ws + ")");
    var before := "." + after;
    DotRegroup(after, ending);
    AgreesSplit(text, pos, before, ending);
    QuietPasses(text, pos, before, depth);
    if pos + |before| <= |text| {
      FormAndClosing(f, ws, text, pos + |before|, depth);
    }
    PassesBoth(text, pos, |before|, |ending|, depth, 0, Uncounted(f) + CloseChange(ws, Skips(f)));
  }

  lemma DotRegroup(after: string, rest: string)
    ensures "." + (after + rest) == "." + after + rest
  {
  }

  lemma ClosingAfter(ws: string, text: string, pos: nat, depth: int, skips: bool)
    requires depth >= 1 && Blanks(ws)
    ensures PassesAfter(text, pos, ws + ")", skips, depth, CloseChange(ws, skips))
  {
    if pos + Skip(skips) <= |text| && Agrees(text, pos, ws + ")") {
      AgreesLater(text, pos, ws + ")", skips);
      ClosingPasses(ws, text, pos + Skip(skips), depth, skips);
    }
  }

  lemma {:induction false} FormAndClosing(f: Form, ws: string, text: string, pos: nat, depth: int)
    requires depth >= 1 && WellFormed(f) && Blanks(ws) && Agrees(text, pos, Text(f) + (ws + ")"))
    ensures Passes(text, pos, |Text(f)| + |ws| + 1, depth, Uncounted(f) + CloseChange(ws, Skips(f)))
    decreases f, 4
  {
    ClosingAfter(ws, text, pos + |Text(f)|, depth + Uncounted(f), Skips(f));
    FormAndMore(f, ws + ")", text, pos, depth, CloseChange(ws, Skips(f)));
  }

  lemma ClosingPasses(ws: string, text: string, pos: nat, depth: int, skipped: bool)
    requires depth >= 1 && Blanks(ws) && Agrees(text, pos, (ws + ")")[Skip(skipped)..])
    ensures Passes(text, pos, |ws| + 1 - Skip(skipped), depth, CloseChange(ws, skipped))
  {
    if !skipped || ws != "" {
      var left := ws[Skip(skipped)..];
      DropBlank(ws, ")", skipped);
      AgreesSplit(text, pos, left, ")");
      BlanksPass(text, pos, left, depth);
      if pos + |left| <= |text| {
        ClosePasses(text, pos + |left|, depth);
      }
      PassesBoth(text, pos, |left|, 1, depth, 0, -1);
    }
  }

  // A list is complete as a whole, if all its parentheses are counted, and at no earlier point.
  lemma ListCompletesAtItsEnd(f: Form, k: nat)
    requires f.List? && WellFormed(f) && 0 < k <= |Text(f)|
    ensures Complete(Text(f)[..k], 0, START) <==> k == |Text(f)| && Uncounted(f) == 0
  {
    var text := Text(f)[..k];
    assert Agrees(text, 0, Text(f)) && Inside(0) == START;
    ListPasses(f, text, 0, 0);
  }

  // No list in o ends in a symbol that hides its closing parenthesis.
  predicate HidesNothing(o: Obj) {
    o.Pair? ==>
      && HidesNothing(o.car)
      && if o.cdr.Null? then !Unsettled(o.car) else if o.cdr.Pair? then HidesNothing(o.cdr) else !Unsettled(o.cdr)
  }

  lemma NamesSettle()
    ensures Settles("null", 0) && Settles("none", 0)
  {
    NumberSettles("null", 0);
    NumberSettles("none", 0);
  }

  lemma FlatFormSkips(o: Obj)
    ensures Skips(FlatForm(o)) == Unsettled(o)
    ensures !o.Pair? ==> Unsettled(AtomReread(o)) == Unsettled(o)
  {
    NamesSettle();
  }

  lemma {:induction false} FlatFormCounts(o: Obj)
    ensures Uncounted(FlatForm(o)) == 0 <==> HidesNothing(o)
    ensures o.Pair? ==> forall skipped :: TailChange(FlatTail(o), skipped) == Uncounted(FlatForm(o)) - 1
  {
    if o.Pair? {
      var first, rest := FlatForm(o.car), FlatTail(o.cdr);
      FlatFormSkips(o.car);
      FlatFormSkips(o.cdr);
      FlatFormCounts(o.car);
      FlatFormCounts(o.cdr);
      assert Uncounted(FlatForm(o)) == 1 + Uncounted(first) + TailChange(rest, Unsettled(o.car));
    }
  }

  /** Each nonempty proper prefix of the printed text of a pair counts as incomplete, and the
      whole text as complete exactly when no symbol in it hides a closing parenthesis. */
  lemma PrintedPairCompletesAtItsEnd(o: Obj, k: nat)
    requires o.Pair? && AtomsReadable(o) && 0 < k <= |Print(o)|
    ensures Complete(Print(o)[..k], 0, START) <==> k == |Print(o)| && HidesNothing(o)
  {
    FlatFormIsPrint(o);
    FlatFormIsWellFormed(o);
    FlatFormCounts(o);
    ListCompletesAtItsEnd(FlatForm(o), k);
  }

  // The condition matters: this list reads back, yet counts as incomplete.
  lemma UnsettledSymbolHidesParenthesis(name: string)
    requires name == ['a', '#', '\\']
    ensures var o := Pair(Sym(name), Null);
            AtomsReadable(o) && Faithful(o) && !HidesNothing(o) && !Complete(Print(o), 0, START)
  {
    var o := Pair(Sym(name), Null);
    assert !Settles(name, 1);
    assert name[0] in name && !LooksLikeInteger(name) && !LooksLikeFloat(name);
    assert TokenObject(name) == Got(Sym(name));
    assert Print(o)[..|Print(o)|] == Print(o);
    PrintedPairCompletesAtItsEnd(o, |Print(o)|);
  }
}
