/** CompactIndex: signed 32-bit integers in one to five bytes.

    The first byte holds a continuation bit, a sign bit and six value bits; the following
    ones hold a continuation bit and seven value bits, except the fifth, which holds the
    remaining bits alone.  Masks and shifts are written as division and remainder, and the
    bitwise or of disjoint bit fields as addition.
 */
module Archives {
  import opened Options

  type Byte = b: int | 0 <= b < 256

  const INT_MIN: int := -0x8000_0000

  type Int32 = v: int | -0x8000_0000 <= v < 0x8000_0000

  // The 32-bit word with the same low bits, read as a signed integer.
  function Wrap(x: int): Int32 {
    var low := x % 0x1_0000_0000;
    if low < 0x8000_0000 then low else low - 0x1_0000_0000
  }

  // Negation in 32 bits: INT_MIN is its own negation.
  function Negate(v: Int32): Int32 {
    if v == INT_MIN then INT_MIN else -v
  }

  // m in base 128, lowest group first, with the continuation bit 128 on all but the last byte.
  // After k more groups whatever is left goes into one plain byte.
  function Groups(m: nat, k: nat): (bytes: seq<Byte>)
    requires k == 0 ==> m < 256
    requires k == 1 ==> m < 256 * 128
    requires k == 2 ==> m < 256 * 128 * 128
    requires k == 3 ==> m < 256 * 128 * 128 * 128
    requires k <= 3
    ensures 1 <= |bytes| <= k + 1
  {
    if k == 0 || m < 128 then [m] else [m % 128 + 128] + Groups(m / 128, k - 1)
  }

  function Encode(v: Int32): seq<Byte>
  {
    var m := if v < 0 then Negate(v) else v;
    var sign := if v < 0 then 64 else 0;
    if m < 0x40 then [m % 64 + sign] else [m % 64 + sign + 128] + Groups(m / 64, 3)
  }

  // The number spelled by groups, and the bytes after it; None when the bytes run out.
  function Ungroup(bytes: seq<Byte>, k: nat): (r: Option<(nat, seq<Byte>)>)
    decreases k
  {
    if bytes == [] then None
    else if k == 0 then Some((bytes[0], bytes[1..]))
    else if bytes[0] < 128 then Some((bytes[0], bytes[1..]))
    else
      var (high, rest) :- Ungroup(bytes[1..], k - 1);
      Some((bytes[0] % 128 + 128 * high, rest))
  }

  function Decode(bytes: seq<Byte>): Option<(Int32, seq<Byte>)>
  {
    if bytes == [] then None
    else
      var (high, rest) :- if bytes[0] < 128 then Some((0, bytes[1..])) else Ungroup(bytes[1..], 3);
      var val := Wrap(bytes[0] % 64 + 64 * high);
      Some((if bytes[0] % 128 >= 64 then Negate(val) else val, rest))
  }

  lemma {:induction false} GroupsRoundTrip(m: nat, k: nat, rest: seq<Byte>)
    requires k == 0 ==> m < 256
    requires k == 1 ==> m < 256 * 128
    requires k == 2 ==> m < 256 * 128 * 128
    requires k == 3 ==> m < 256 * 128 * 128 * 128
    requires k <= 3
    ensures Ungroup(Groups(m, k) + rest, k) == Some((m, rest))
    decreases k
  {
    var bytes := Groups(m, k) + rest;
    if k == 0 || m < 128 {
      assert bytes == [m] + rest;
    } else {
      GroupsRoundTrip(m / 128, k - 1, rest);
      assert bytes == [m % 128 + 128] + (Groups(m / 128, k - 1) + rest);
    }
  }

  lemma DecodeLong(m: Int32, neg: bool, tail: seq<Byte>, rest: seq<Byte>)
    requires 0x40 <= m && Ungroup(tail, 3) == Some((m / 64, rest))
    ensures Decode([m % 64 + (if neg then 64 else 0) + 128] + tail) == Some((if neg then Negate(m) else m, rest))
  {
    var first := m % 64 + (if neg then 64 else 0) + 128;
    var bytes := [first] + tail;
    assert bytes[0] == first && bytes[1..] == tail;
    assert first % 64 == m % 64 && (first % 128 >= 64 <==> neg);
    assert Wrap(m % 64 + 64 * (m / 64)) == m;
  }

  lemma DecodeShort(m: Int32, neg: bool, rest: seq<Byte>)
    requires 0 <= m < 0x40
    ensures Decode([m % 64 + (if neg then 64 else 0)] + rest) == Some((if neg then Negate(m) else m, rest))
  {
    var bytes := [m % 64 + (if neg then 64 else 0)] + rest;
    assert bytes[0] % 64 == m && bytes[1..] == rest;
  }

  // Decoding undoes encoding, and leaves what follows, exactly when the value is not INT_MIN.
  lemma RoundTrip(v: Int32, rest: seq<Byte>)
    ensures Decode(Encode(v) + rest) == Some((v, rest)) <==> v != INT_MIN
  {
    if v == INT_MIN {
      IntMinReadsAsZero(rest);
    } else {
      OrdinaryRoundTrip(v, rest);
    }
  }

  lemma OrdinaryRoundTrip(v: Int32, rest: seq<Byte>)
    requires v != INT_MIN
    ensures Decode(Encode(v) + rest) == Some((v, rest))
  {
    var neg := v < 0;
    var m := if neg then -v else v;
    var sign := if neg then 64 else 0;
    if m < 0x40 {
      assert Encode(v) == [m % 64 + sign];
      DecodeShort(m, neg, rest);
    } else {
      LongRoundTrip(m, neg, rest);
      assert Encode(v) == [m % 64 + sign + 128] + Groups(m / 64, 3);
    }
  }

  lemma LongRoundTrip(m: Int32, neg: bool, rest: seq<Byte>)
    requires 0x40 <= m
    ensures Decode([m % 64 + (if neg then 64 else 0) + 128] + Groups(m / 64, 3) + rest)
         == Some((if neg then Negate(m) else m, rest))
  {
    var groups := Groups(m / 64, 3);
    var first: Byte := m % 64 + (if neg then 64 else 0) + 128;
    GroupsRoundTrip(m / 64, 3, rest);
    DecodeLong(m, neg, groups + rest, rest);
    assert [first] + groups + rest == [first] + (groups + rest);
  }

  // INT_MIN has no positive counterpart in 32 bits; it is written as minus zero.
  lemma IntMinReadsAsZero(rest: seq<Byte>)
    ensures Encode(INT_MIN) == [64]
    ensures Decode(Encode(INT_MIN) + rest) == Some((0, rest))
  {
    assert Negate(INT_MIN) == INT_MIN;
    assert Encode(INT_MIN) + rest == [64] + rest;
  }

  lemma {:induction false} GroupsSize(m: nat)
    requires m < 256 * 128 * 128 * 128
    ensures |Groups(m, 3)| == if m < 128 then 1 else if m < 128 * 128 then 2 else if m < 128 * 128 * 128 then 3 else 4
  {
    if m >= 128 {
      assert Groups(m, 3) == [m % 128 + 128] + Groups(m / 128, 2);
      if m >= 128 * 128 {
        assert Groups(m / 128, 2) == [m / 128 % 128 + 128] + Groups(m / 128 / 128, 1);
      }
    }
  }

  lemma EncodedSize(v: Int32)
    requires v != INT_MIN
    ensures var m := if v < 0 then -v else v;
            |Encode(v)| == if m < 0x40 then 1 else if m < 0x2000 then 2
                           else if m < 0x10_0000 then 3 else if m < 0x800_0000 then 4 else 5
  {
    var m := if v < 0 then -v else v;
    if m >= 0x40 {
      GroupsSize(m / 64);
    }
  }

  function More(goesOn: bool): nat {
    if goesOn then 128 else 0
  }

  // Which bits of the magnitude each byte holds, and when another byte follows.
  lemma EncodedBytes(v: Int32)
    requires v != INT_MIN
    ensures var m := if v < 0 then -v else v;
            var b := Encode(v);
            && b[0] == m % 64 + (if v < 0 then 64 else 0) + More(m > 0x3f)
            && (m > 0x3f ==> |b| > 1 && b[1] == m / 0x40 % 128 + More(m > 0x1fff))
            && (m > 0x1fff ==> |b| > 2 && b[2] == m / 0x2000 % 128 + More(m > 0xf_ffff))
            && (m > 0xf_ffff ==> |b| > 3 && b[3] == m / 0x10_0000 % 128 + More(m > 0x7ff_ffff))
            && (m > 0x7ff_ffff ==> |b| > 4 && b[4] == m / 0x800_0000)
  {
    var m := if v < 0 then -v else v;
    EncodedSize(v);
    if m > 0x3f {
      GroupBytes(m / 64);
      Places(m);
      EncodedGroups(v, m, Groups(m / 64, 3));
    }
  }

  lemma EncodedGroups(v: Int32, m: nat, g: seq<Byte>)
    requires v != INT_MIN && m == (if v < 0 then -v else v) && m > 0x3f && g == Groups(m / 64, 3)
    ensures |Encode(v)| == |g| + 1 && Encode(v)[0] == m % 64 + (if v < 0 then 64 else 0) + 128
    ensures forall i :: 0 <= i < |g| ==> Encode(v)[i + 1] == g[i]
  {
  }

  lemma Places(m: nat)
    ensures m / 64 / 128 == m / 0x2000 && m / 64 / (128 * 128) == m / 0x10_0000 && m / 64 / (128 * 128 * 128) == m / 0x800_0000
    ensures m / 64 >= 128 <==> m > 0x1fff
    ensures m / 64 >= 128 * 128 <==> m > 0xf_ffff
    ensures m / 64 >= 128 * 128 * 128 <==> m > 0x7ff_ffff
  {
  }

  lemma GroupBytes(m: nat)
    requires m < 256 * 128 * 128 * 128
    ensures var g := Groups(m, 3);
            && g[0] == m % 128 + More(m >= 128)
            && (m >= 128 ==> |g| > 1 && g[1] == m / 128 % 128 + More(m >= 128 * 128))
            && (m >= 128 * 128 ==> |g| > 2 && g[2] == m / (128 * 128) % 128 + More(m >= 128 * 128 * 128))
            && (m >= 128 * 128 * 128 ==> |g| > 3 && g[3] == m / (128 * 128 * 128))
  {
    if m >= 128 {
      assert Groups(m, 3) == [m % 128 + 128] + Groups(m / 128, 2);
      if m >= 128 * 128 {
        assert Groups(m / 128, 2) == [m / 128 % 128 + 128] + Groups(m / 128 / 128, 1);
        if m >= 128 * 128 * 128 {
          assert Groups(m / 128 / 128, 1) == [m / 128 / 128 % 128 + 128] + Groups(m / 128 / 128 / 128, 0);
        }
      }
    }
  }

  // The seven low bits of a byte, at their place.
  function Bits(b: Byte, place: nat): nat {
    b % 128 * place
  }

  lemma OneGroup(b1: Byte, k: nat, rest: seq<Byte>)
    requires k <= 3 && (k > 0 ==> b1 < 128)
    ensures Ungroup([b1] + rest, k) == Some((b1 as nat, rest))
  {
    assert ([b1] + rest)[1..] == rest;
  }

  lemma NextGroup(b1: Byte, k: nat, tail: seq<Byte>, high: nat, rest: seq<Byte>)
    requires 0 < k <= 3 && b1 >= 128 && Ungroup(tail, k - 1) == Some((high, rest))
    ensures Ungroup([b1] + tail, k) == Some((b1 % 128 + 128 * high, rest))
  {
    assert ([b1] + tail)[1..] == tail;
  }

  lemma DecodedBytes(b0: Byte, tail: seq<Byte>, high: nat, rest: seq<Byte>)
    requires if b0 < 128 then high == 0 && tail == rest else Ungroup(tail, 3) == Some((high, rest))
    ensures var value := Wrap(b0 % 64 + 0x40 * high);
            Decode([b0] + tail) == Some((if b0 / 64 % 2 == 1 then Negate(value) else value, rest))
  {
    assert ([b0] + tail)[1..] == tail;
    assert b0 % 128 >= 64 <==> b0 / 64 % 2 == 1;
  }

  // The value and the sign in the bytes of a number: the low bits of each at its place, up to the
  // first that is not marked as followed by another, or the fifth.
  lemma DecodedValue(b0: Byte, b1: Byte, b2: Byte, b3: Byte, b4: Byte, rest: seq<Byte>)
    ensures b0 < 128 ==> Decodes([b0] + rest, b0, 0, rest)
    ensures b0 >= 128 > b1 ==> Decodes([b0] + ([b1] + rest), b0, Bits(b1, 0x40), rest)
    ensures b0 >= 128 && b1 >= 128 > b2 ==> Decodes([b0] + ([b1] + ([b2] + rest)), b0, Bits(b1, 0x40) + Bits(b2, 0x2000), rest)
    ensures b0 >= 128 && b1 >= 128 && b2 >= 128 > b3 ==>
      Decodes([b0] + ([b1] + ([b2] + ([b3] + rest))), b0, Bits(b1, 0x40) + Bits(b2, 0x2000) + Bits(b3, 0x10_0000), rest)
    ensures b0 >= 128 && b1 >= 128 && b2 >= 128 && b3 >= 128 ==>
      Decodes([b0] + ([b1] + ([b2] + ([b3] + ([b4] + rest)))), b0,
              Bits(b1, 0x40) + Bits(b2, 0x2000) + Bits(b3, 0x10_0000) + b4 * 0x800_0000, rest)
  {
    if b0 < 128 {
      DecodedBytes(b0, rest, 0, rest);
    } else {
      DecodedLong(b0, b1, b2, b3, b4, rest);
    }
  }

  ghost predicate Decodes(bytes: seq<Byte>, first: Byte, high: nat, rest: seq<Byte>) {
    var value := Wrap(first % 64 + high);
    Decode(bytes) == Some((if first / 64 % 2 == 1 then Negate(value) else value, rest))
  }

  lemma DecodedLong(b0: Byte, b1: Byte, b2: Byte, b3: Byte, b4: Byte, rest: seq<Byte>)
    requires b0 >= 128
    ensures b1 < 128 ==> Decodes([b0] + ([b1] + rest), b0, Bits(b1, 0x40), rest)
    ensures b1 >= 128 > b2 ==> Decodes([b0] + ([b1] + ([b2] + rest)), b0, Bits(b1, 0x40) + Bits(b2, 0x2000), rest)
    ensures b1 >= 128 && b2 >= 128 > b3 ==>
      Decodes([b0] + ([b1] + ([b2] + ([b3] + rest))), b0, Bits(b1, 0x40) + Bits(b2, 0x2000) + Bits(b3, 0x10_0000), rest)
    ensures b1 >= 128 && b2 >= 128 && b3 >= 128 ==>
      Decodes([b0] + ([b1] + ([b2] + ([b3] + ([b4] + rest)))), b0,
              Bits(b1, 0x40) + Bits(b2, 0x2000) + Bits(b3, 0x10_0000) + b4 * 0x800_0000, rest)
  {
    var l1: nat, l2: nat, l3: nat := b1 % 128, b2 % 128, b3 % 128;
    if b1 < 128 {
      OneGroup(b1, 3, rest);
      DecodedBytes(b0, [b1] + rest, l1, rest);
    } else if b2 < 128 {
      OneGroup(b2, 2, rest);
      NextGroup(b1, 3, [b2] + rest, l2, rest);
      DecodedBytes(b0, [b1] + ([b2] + rest), l1 + 128 * l2, rest);
    } else if b3 < 128 {
      OneGroup(b3, 1, rest);
      NextGroup(b2, 2, [b3] + rest, l3, rest);
      NextGroup(b1, 3, [b2] + ([b3] + rest), l2 + 128 * l3, rest);
      DecodedBytes(b0, [b1] + ([b2] + ([b3] + rest)), l1 + 128 * (l2 + 128 * l3), rest);
    } else {
      OneGroup(b4, 0, rest);
      NextGroup(b3, 1, [b4] + rest, b4, rest);
      NextGroup(b2, 2, [b3] + ([b4] + rest), l3 + 128 * b4 as nat, rest);
      NextGroup(b1, 3, [b2] + ([b3] + ([b4] + rest)), l2 + 128 * (l3 + 128 * b4 as nat), rest);
      DecodedBytes(b0, [b1] + ([b2] + ([b3] + ([b4] + rest))), l1 + 128 * (l2 + 128 * (l3 + 128 * b4 as nat)), rest);
    }
  }

  function EncodeAll(vs: seq<Int32>): seq<Byte>
  {
    if vs == [] then [] else Encode(vs[0]) + EncodeAll(vs[1..])
  }

  function DecodeAll(n: nat, bytes: seq<Byte>): Option<(seq<Int32>, seq<Byte>)>
  {
    if n == 0 then Some(([], bytes))
    else
      var (v, rest) :- Decode(bytes);
      var (vs, rest') :- DecodeAll(n - 1, rest);
      Some(([v] + vs, rest'))
  }

  // What is left of a value after writing and reading it.
  function Survivor(v: Int32): Int32 {
    if v == INT_MIN then 0 else v
  }

  function Survivors(vs: seq<Int32>): (r: seq<Int32>)
    ensures |r| == |vs|
  {
    if vs == [] then [] else [Survivor(vs[0])] + Survivors(vs[1..])
  }

  lemma {:induction false} SurvivorsAreSame(vs: seq<Int32>)
    ensures Survivors(vs) == vs <==> INT_MIN !in vs
  {
    if vs != [] {
      SurvivorsAreSame(vs[1..]);
      assert vs == [vs[0]] + vs[1..];
      assert Survivors(vs)[1..] == Survivors(vs[1..]);
    }
  }

  lemma DecodesSurvivor(v: Int32, rest: seq<Byte>)
    ensures Decode(Encode(v) + rest) == Some((Survivor(v), rest))
  {
    if v == INT_MIN {
      IntMinReadsAsZero(rest);
    } else {
      OrdinaryRoundTrip(v, rest);
    }
  }

  lemma {:induction false} DecodesSurvivors(vs: seq<Int32>, rest: seq<Byte>)
    ensures DecodeAll(|vs|, EncodeAll(vs) + rest) == Some((Survivors(vs), rest))
  {
    if vs == [] {
      assert EncodeAll(vs) + rest == rest;
    } else {
      DecodesSurvivors(vs[1..], rest);
      DecodesFirst(|vs| - 1, vs[0], EncodeAll(vs[1..]) + rest, Survivors(vs[1..]), rest);
      Associates(Encode(vs[0]), EncodeAll(vs[1..]), rest);
    }
  }

  lemma Associates(a: seq<Byte>, b: seq<Byte>, c: seq<Byte>)
    ensures (a + b) + c == a + (b + c)
  {
  }

  lemma DecodesFirst(n: nat, v: Int32, later: seq<Byte>, vs: seq<Int32>, rest: seq<Byte>)
    requires DecodeAll(n, later) == Some((vs, rest))
    ensures DecodeAll(n + 1, Encode(v) + later) == Some(([Survivor(v)] + vs, rest))
  {
    DecodesSurvivor(v, later);
    DecodesNext(n + 1, Encode(v) + later, Survivor(v), later, vs, rest);
  }

  // Integers written back to back read back, with nothing left over, as the same integers exactly
  // when none of them is INT_MIN.
  lemma SequenceRoundTrip(vs: seq<Int32>, rest: seq<Byte>)
    ensures DecodeAll(|vs|, EncodeAll(vs) + rest) == Some((vs, rest)) <==> INT_MIN !in vs
  {
    DecodesSurvivors(vs, rest);
    SurvivorsAreSame(vs);
  }

  lemma DecodesNext(n: nat, bytes: seq<Byte>, v: Int32, later: seq<Byte>, vs: seq<Int32>, rest: seq<Byte>)
    requires n > 0 && Decode(bytes) == Some((v, later)) && DecodeAll(n - 1, later) == Some((vs, rest))
    ensures DecodeAll(n, bytes) == Some(([v] + vs, rest))
  {
  }

  class Archive {
    var bytes: seq<Byte>
    var pos: nat

    constructor ()
      ensures bytes == [] && pos == 0
    {
      bytes, pos := [], 0;
    }

    method PutByte(b: Byte)
      modifies this`bytes
      ensures bytes == old(bytes) + [b]
    {
      bytes := bytes + [b];
    }

    ghost function Remaining(): seq<Byte>
      reads this
    {
      if pos <= |bytes| then bytes[pos..] else []
    }

    method GetByte() returns (r: Option<Byte>)
      requires pos <= |bytes|
      modifies this`pos
      ensures pos <= |bytes|
      ensures old(Remaining()) == [] ==> r.None?
      ensures old(Remaining()) != [] ==> r == Some(old(Remaining())[0]) && Remaining() == old(Remaining())[1..]
    {
      if pos == |bytes| {
        return None;
      }
      r := Some(bytes[pos]);
      pos := pos + 1;
    }

    method WriteCompactIndex(value: Int32)
      modifies this`bytes
      ensures bytes == old(bytes) + Encode(value)
    {
      var idx, neg := value, false;
      if idx < 0 {
        neg := true;
        idx := Negate(idx);
      }
      var b: Byte := idx % 64;
      if neg { b := b + 64; }
      if idx > 0x3f { b := b + 128; }
      PutByte(b);
      if idx > 0x3f {
        WriteGroups(idx);
        assert old(bytes) + [b] + Groups(idx / 64, 3) == old(bytes) + ([b] + Groups(idx / 64, 3));
      }
    }

    /** The second to fifth byte, each written only if the one before did not suffice. */
    method WriteGroups(idx: Int32)
      requires idx > 0x3f
      modifies this`bytes
      ensures bytes == old(bytes) + Groups(idx / 64, 3)
    {
      var b: Byte := idx / 0x40 % 128;
      if idx > 0x1fff { b := b + 128; }
      PutByte(b);
      ghost var tail := [b];
      if idx > 0x1fff {
        b := idx / 0x2000 % 128;
        if idx > 0xfffff { b := b + 128; }
        PutByte(b);
        tail := tail + [b];
        if idx > 0xfffff {
          b := idx / 0x10_0000 % 128;
          if idx > 0x7ffffff { b := b + 128; }
          PutByte(b);
          tail := tail + [b];
          if idx > 0x7ffffff {
            b := idx / 0x800_0000;
            PutByte(b);
            tail := tail + [b];
          }
        }
      }
      GroupsByThreshold(idx);
      assert bytes == old(bytes) + tail;
    }

    method ReadCompactIndex() returns (r: Option<Int32>)
      requires pos <= |bytes|
      modifies this`pos
      ensures pos <= |bytes|
      ensures match Decode(old(Remaining()))
              case None => r.None?
              case Some((v, rest)) => r == Some(v) && Remaining() == rest
    {
      var b :- GetByte();
      var neg := b % 128 >= 64;
      var high := 0;
      if b >= 128 {
        high :- ReadGroups(3);
      }
      var val := Wrap(b % 64 + 64 * high);
      if neg {
        val := Negate(val);
      }
      return Some(val);
    }

    /** One of the second to fifth bytes, and the next one only if its continuation bit is set. */
    method ReadGroups(k: nat) returns (r: Option<nat>)
      requires pos <= |bytes|
      modifies this`pos
      ensures pos <= |bytes|
      ensures match Ungroup(old(Remaining()), k)
              case None => r.None?
              case Some((v, rest)) => r == Some(v) && Remaining() == rest
    {
      var b :- GetByte();
      if k == 0 || b < 128 {
        return Some(b);
      }
      var high :- ReadGroups(k - 1);
      return Some(b % 128 + 128 * high);
    }
  }

  lemma GroupsByThreshold(idx: Int32)
    requires idx > 0x3f
    ensures Groups(idx / 64, 3) ==
            if idx <= 0x1fff then [idx / 0x40 % 128]
            else if idx <= 0xfffff then [idx / 0x40 % 128 + 128, idx / 0x2000 % 128]
            else if idx <= 0x7ffffff then [idx / 0x40 % 128 + 128, idx / 0x2000 % 128 + 128, idx / 0x10_0000 % 128]
            else [idx / 0x40 % 128 + 128, idx / 0x2000 % 128 + 128, idx / 0x10_0000 % 128 + 128, idx / 0x800_0000]
  {
    var m := idx / 64;
    assert m / 128 == idx / 0x2000 && m / 128 / 128 == idx / 0x10_0000 && m / 128 / 128 / 128 == idx / 0x800_0000;
    if idx > 0x1fff {
      assert Groups(m, 3) == [m % 128 + 128] + Groups(m / 128, 2);
      if idx > 0xfffff {
        assert Groups(m / 128, 2) == [m / 128 % 128 + 128] + Groups(m / 128 / 128, 1);
        if idx > 0x7ffffff {
          assert Groups(m / 128 / 128, 1) == [m / 128 / 128 % 128 + 128] + Groups(m / 128 / 128 / 128, 0);
        }
      }
    }
  }
}
