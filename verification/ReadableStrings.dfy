/** Escaping a byte string so that the string reader gives it back. */
module ReadableStrings {
  import opened Options
  import opened Objects
  import opened Tokens
  import opened Reading

  function EscapeChar(c: char): string {
    if IsPrintable(c) && c != '\\' && c != '"' then [c]
    else if c == '\n' then "\\n"
    else if c == '\t' then "\\t"
    else if c == '\\' then "\\\\"
    else if c == '"' then "\\\""
    else "\\c" + Hex2(c)
  }

  // The part of a C string before its terminating NUL.
  function BeforeNul(s: string): string {
    if s == "" || s[0] == '\0' then "" else [s[0]] + BeforeNul(s[1..])
  }

  function EscapeAll(s: string): string {
    if s == "" then "" else EscapeChar(s[0]) + EscapeAll(s[1..])
  }

  lemma {:induction false} EscapeAllSnoc(s: string, c: char)
    ensures EscapeAll(s + [c]) == EscapeAll(s) + EscapeChar(c)
  {
    if s == "" {
      assert (s + [c])[1..] == "" && EscapeAll("") == "";
      assert EscapeChar(c) + "" == EscapeChar(c) == "" + EscapeChar(c);
    } else {
      assert (s + [c])[0] == s[0] && (s + [c])[1..] == s[1..] + [c];
      EscapeAllSnoc(s[1..], c);
    }
  }

  lemma {:induction false} BeforeNulPrefix(s: string, n: nat)
    requires n <= |s| && forall i :: 0 <= i < n ==> s[i] != '\0'
    requires n < |s| ==> s[n] == '\0'
    ensures BeforeNul(s) == s[..n]
  {
    if n > 0 {
      BeforeNulPrefix(s[1..], n - 1);
      assert [s[0]] + s[1..][..n - 1] == s[..n];
    }
  }

  /** Convert any string into one that can be read. */
  method GetReadableString(s: string) returns (result: string)
    ensures result == EscapeAll(BeforeNul(s))
  {
    result := "";
    var i := 0;
    assert s[..0] == "";
    while i < |s| && s[i] != '\0'
      invariant 0 <= i <= |s| && result == EscapeAll(s[..i])
      invariant forall j :: 0 <= j < i ==> s[j] != '\0'
    {
      EscapeAllSnoc(s[..i], s[i]);
      assert s[..i + 1] == s[..i] + [s[i]];
      if IsPrintable(s[i]) && s[i] != '\\' && s[i] != '"' {
        result := result + [s[i]];
      } else if s[i] == '\n' {
        result := result + "\\n";
      } else if s[i] == '\t' {
        result := result + "\\t";
      } else if s[i] == '\\' {
        result := result + "\\\\";
      } else if s[i] == '"' {
        result := result + "\\\"";
      } else {
        result := result + "\\c" + Hex2(s[i]);
      }
      i := i + 1;
    }
    BeforeNulPrefix(s, i);
  }

  predicate IsBytes(s: string) {
    forall i :: 0 <= i < |s| ==> s[i] < 256 as char
  }

  lemma HexRoundTrip(c: char)
    requires c < 256 as char
    ensures IsHexChar(Hex2(c)[0]) && IsHexChar(Hex2(c)[1])
    ensures (16 * HexValue(Hex2(c)[0]) + HexValue(Hex2(c)[1])) as char == c
  {
    var b: int := c as int;
    assert b % 256 == b;
    var high, low := b / 16, b % 16;
    assert Hex2(c) == [HexDigit(high), HexDigit(low)];
    assert 16 * high + low == b;
  }

  // One escaped character, with at least one character after it, reads as itself.
  lemma EscapedCharReads(c: char, rest: string)
    requires c < 256 as char && rest != ""
    ensures ReadString(EscapeChar(c) + rest, 0) == Prepend(c, ReadString(EscapeChar(c) + rest, |EscapeChar(c)|))
  {
    var text := EscapeChar(c) + rest;
    HexRoundTrip(c);
    if IsPrintable(c) && c != '\\' && c != '"' {
      assert text[0] == c;
    } else {
      assert text[0] == '\\' && text[1] == EscapeChar(c)[1];
      if |EscapeChar(c)| == 4 {
        assert text[2] == Hex2(c)[0] && text[3] == Hex2(c)[1] && |text| > 4;
        assert Escape(text, 1) == Some((c, 4));
      } else {
        assert Escape(text, 1) == Some((c, 2));
      }
    }
  }

  // Reading does not depend on what came before.
  lemma {:induction false} ReadStringShift(before: string, text: string, pos: nat)
    requires pos <= |text|
    ensures ReadString(before + text, |before| + pos)
         == match ReadString(text, pos) case None => None case Some((s, end)) => Some((s, |before| + end))
    decreases |text| - pos
  {
    var whole := before + text;
    forall i | 0 <= i < |text|
      ensures whole[|before| + i] == text[i]
    {
    }
    if pos < |text| {
      assert whole[|before| + pos] == text[pos];
      if text[pos] == '"' {
      } else if text[pos] != '\\' {
        ReadStringShift(before, text, pos + 1);
      } else {
        if Escape(text, pos + 1).Some? {
          ReadStringShift(before, text, Escape(text, pos + 1).value.1);
        }
      }
    }
  }

  // Any byte string without NUL survives being escaped, quoted and read, whatever follows.
  lemma {:induction false} EscapedStringReadsBack(s: string, rest: string)
    requires IsBytes(s)
    ensures ReadString(EscapeAll(s) + "\"" + rest, 0) == Some((s, |EscapeAll(s)| + 1))
  {
    var text := EscapeAll(s) + "\"" + rest;
    if s == "" {
      assert text[0] == '"';
    } else {
      var c, tail := s[0], s[1..];
      var after := EscapeAll(tail) + "\"" + rest;
      EscapedStringReadsBack(tail, rest);
      assert text == EscapeChar(c) + after;
      EscapedCharReads(c, after);
      ReadStringShift(EscapeChar(c), after, 0);
      assert [c] + tail == s;
    }
  }

  lemma {:induction false} BeforeNulIsAll(s: string)
    ensures BeforeNul(s) == s <==> '\0' !in s
    ensures |BeforeNul(s)| <= |s|
    ensures IsBytes(s) ==> IsBytes(BeforeNul(s))
  {
    if s != "" {
      BeforeNulIsAll(s[1..]);
      assert s == [s[0]] + s[1..];
    }
  }

  // For arbitrary bytes, what comes back is the string up to its first NUL.
  lemma ReadableStringRoundTrip(s: string, rest: string)
    requires IsBytes(s)
    ensures var escaped := EscapeAll(BeforeNul(s));
            ReadString(escaped + "\"" + rest, 0) == Some((s, |escaped| + 1)) <==> '\0' !in s
  {
    BeforeNulIsAll(s);
    EscapedStringReadsBack(BeforeNul(s), rest);
  }
}
