/** Open addressing with linear probing, for a power-of-two table and any hash function. */
module Probing {

  datatype Slot<+K, +V> = Empty | Full(key: K, value: V)

  type Table<!K, +V> = seq<Slot<K, V>>

  // The i-th slot that a key with this hash tries in a table of n slots.
  function Address(hash: nat, i: nat, n: nat): (a: nat)
    requires n > 0
    ensures a < n
  {
    (hash + i) % n
  }

  function Pow2(n: nat): (r: nat)
    ensures r >= 1
  {
    if n == 0 then 1 else 2 * Pow2(n - 1)
  }

  // Bitwise and.
  function And(a: nat, b: nat): nat
    decreases a
  {
    if a == 0 || b == 0 then 0 else 2 * And(a / 2, b / 2) + if a % 2 == 1 && b % 2 == 1 then 1 else 0
  }

  lemma HalvesRemainder(x: nat, n: nat)
    requires n > 0
    ensures x % (2 * n) == 2 * (x / 2 % n) + x % 2
  {
    var q, r := x / 2 / n, x / 2 % n;
    assert x == 2 * (q * n + r) + x % 2;
    assert 2 * (q * n + r) + x % 2 == q * (2 * n) + (2 * r + x % 2);
    QuotientIsUnique(x, 2 * n, q, 2 * r + x % 2);
  }

  // A mask of p ones keeps the remainder modulo two to the p.
  lemma {:induction false} MaskIsRemainder(x: nat, p: nat)
    ensures And(x, Pow2(p) - 1) == x % Pow2(p)
    decreases p
  {
    if p > 0 {
      var n := Pow2(p - 1);
      assert (2 * n - 1) / 2 == n - 1 && (2 * n - 1) % 2 == 1;
      MaskIsRemainder(x / 2, p - 1);
      HalvesRemainder(x, n);
    }
  }

  /** How addresses are computed in the tables: masking the 32-bit sum of hash and step, which may
      have wrapped around, gives the slot that the tables below use, the remainder of the unbounded
      sum, as long as the table has at most two to the 32 slots. */
  lemma MaskIsAddress(hash: nat, i: nat, p: nat)
    requires p <= 32
    ensures And((hash + i) % Pow2(32), Pow2(p) - 1) == Address(hash, i, Pow2(p))
  {
    Pow2Divides(p, 32);
    var k: nat :| Pow2(32) == k * Pow2(p);
    ModOfMultiple(hash + i, k, Pow2(p), Pow2(32));
    MaskIsRemainder((hash + i) % Pow2(32), p);
  }

  lemma ModOfMultiple(x: nat, k: nat, small: nat, big: nat)
    requires small > 0 && big > 0 && big == k * small
    ensures (x % big) % small == x % small
  {
    var q, r := x / big, x % big;
    var q', r' := r / small, r % small;
    Regroup(q, k, q', small, r');
    QuotientIsUnique(x, small, q * k + q', r');
  }

  lemma Regroup(q: nat, k: nat, q': nat, n: nat, r: nat)
    ensures q * (k * n) + (q' * n + r) == (q * k + q') * n + r
  {
  }

  lemma {:induction false} Pow2Divides(a: nat, b: nat)
    requires a <= b
    ensures exists k: nat :: Pow2(b) == k * Pow2(a)
  {
    if a == b {
      assert Pow2(b) == 1 * Pow2(a);
    } else {
      Pow2Divides(a, b - 1);
      var k: nat :| Pow2(b - 1) == k * Pow2(a);
      assert Pow2(b) == (2 * k) * Pow2(a);
    }
  }

  lemma QuotientIsUnique(x: nat, n: nat, q: nat, r: nat)
    requires 0 <= r < n && x == q * n + r
    ensures x % n == r
  {
    var q', r' := x / n, x % n;
    assert x == q' * n + r';
    assert (q' - q) * n == r - r';
    SmallMultipleIsZero(q' - q, n);
  }

  lemma SmallMultipleIsZero(d: int, n: int)
    requires n > 0 && -n < d * n < n
    ensures d == 0
  {
    MultipleIsFar(d, n);
  }

  lemma MultipleIsFar(d: int, n: int)
    requires n > 0
    ensures d >= 1 ==> d * n >= n
    ensures d <= -1 ==> d * n <= -n
  {
    if d >= 1 {
      assert (d - 1) * n >= 0;
    } else if d <= -1 {
      assert (d + 1) * n <= 0;
    }
  }

  // Every slot is tried by every probe sequence.
  lemma ProbeCovers(hash: nat, s: nat, n: nat) returns (i: nat)
    requires s < n
    ensures i < n && Address(hash, i, n) == s
  {
    var home := hash % n;
    i := if home <= s then s - home else s + n - home;
    var q := hash / n;
    assert hash + i == (if home <= s then q else q + 1) * n + s;
    QuotientIsUnique(hash + i, n, if home <= s then q else q + 1, s);
  }

  ghost predicate TakenUpTo<K(!new), V(!new)>(t: Table<K, V>, hash: nat, n: nat)
    requires |t| > 0
  {
    forall i :: 0 <= i < n ==> t[Address(hash, i, |t|)].Full?
  }

  // Slot s is where a probe for its key arrives after passing occupied slots only.
  ghost predicate Reachable<K(!new), V(!new)>(t: Table<K, V>, hash: K -> nat, s: nat)
    requires s < |t| && t[s].Full?
  {
    exists i :: 0 <= i < |t| && Address(hash(t[s].key), i, |t|) == s && TakenUpTo(t, hash(t[s].key), i)
  }

  ghost predicate Distinct<K(!new), V(!new)>(t: Table<K, V>)
  {
    forall a, b :: 0 <= a < b < |t| && t[a].Full? && t[b].Full? ==> t[a].key != t[b].key
  }

  ghost predicate WellProbed<K(!new), V(!new)>(t: Table<K, V>, hash: K -> nat)
  {
    && |t| > 0
    && Distinct(t)
    && forall s {:trigger Reachable(t, hash, s)} :: 0 <= s < |t| && t[s].Full? ==> Reachable(t, hash, s)
  }

  // The table represents exactly the map m.
  ghost predicate Represents<K(!new), V(!new)>(t: Table<K, V>, m: map<K, V>)
  {
    && (forall s :: 0 <= s < |t| && t[s].Full? ==> t[s].key in m && m[t[s].key] == t[s].value)
    && (forall k :: k in m ==> exists s :: 0 <= s < |t| && t[s].Full? && t[s].key == k)
  }

  // A probe for k that has seen n occupied slots, none of them k's.
  ghost predicate Passed<K(!new), V(!new)>(t: Table<K, V>, hash: K -> nat, k: K, n: nat)
    requires |t| > 0
  {
    forall i :: 0 <= i < n ==>
      t[Address(hash(k), i, |t|)].Full? && t[Address(hash(k), i, |t|)].key != k
  }

  // A probe that reaches an empty slot has proved that its key is absent.
  lemma EmptySlotMeansAbsent<K(!new), V(!new)>(t: Table<K, V>, hash: K -> nat, m: map<K, V>, k: K, n: nat)
    requires WellProbed(t, hash) && Represents(t, m)
    requires Passed(t, hash, k, n) && t[Address(hash(k), n, |t|)].Empty?
    ensures k !in m
  {
    forall s | 0 <= s < |t| && t[s].Full?
      ensures t[s].key != k
    {
      assert Reachable(t, hash, s);
    }
  }

  // A probe that never finds an empty slot has seen every slot of a full table.
  lemma ExhaustedProbeMeansFull<K(!new), V(!new)>(t: Table<K, V>, hash: nat, s: nat)
    requires |t| > 0 && TakenUpTo(t, hash, |t|) && s < |t|
    ensures t[s].Full?
  {
    var i := ProbeCovers(hash, s, |t|);
    assert t[Address(hash, i, |t|)].Full?;
  }

  ghost function KeysOf<K(!new), V(!new)>(t: Table<K, V>): set<K>
  {
    set s | 0 <= s < |t| && t[s].Full? :: t[s].key
  }

  lemma KeysOfLast<K(!new), V(!new)>(t: Table<K, V>)
    requires t != [] && t[|t| - 1].Full?
    ensures KeysOf(t) == KeysOf(t[..|t| - 1]) + {t[|t| - 1].key}
  {
    var n := |t| - 1;
    var front := t[..n];
    forall k | k in KeysOf(t)
      ensures k in KeysOf(front) + {t[n].key}
    {
      var s :| 0 <= s < |t| && t[s].Full? && t[s].key == k;
      if s < n {
        assert front[s] == t[s];
      }
    }
    forall k | k in KeysOf(front)
      ensures k in KeysOf(t)
    {
      var s :| 0 <= s < |front| && front[s].Full? && front[s].key == k;
      assert t[s] == front[s];
    }
  }

  lemma {:induction false} FullTableHasAsManyKeys<K(!new), V(!new)>(t: Table<K, V>)
    requires Distinct(t) && forall s :: 0 <= s < |t| ==> t[s].Full?
    ensures |KeysOf(t)| == |t|
  {
    if t != [] {
      var n := |t| - 1;
      var front := t[..n];
      FullTableHasAsManyKeys(front);
      KeysOfLast(t);
      assert t[n].key !in KeysOf(front);
    }
  }

  // A table that holds fewer keys than slots stops every probe.
  lemma ProbeStops<K(!new), V(!new)>(t: Table<K, V>, m: map<K, V>, hash: nat)
    requires |t| > 0 && Distinct(t) && Represents(t, m) && |m| < |t|
    ensures !TakenUpTo(t, hash, |t|)
  {
    if TakenUpTo(t, hash, |t|) {
      forall s | 0 <= s < |t|
        ensures t[s].Full?
      {
        ExhaustedProbeMeansFull(t, hash, s);
      }
      FullTableHasAsManyKeys(t);
      assert KeysOf(t) <= m.Keys;
      SubsetIsSmaller(KeysOf(t), m.Keys);
      assert false;
    }
  }

  lemma {:induction false} SubsetIsSmaller<T>(a: set<T>, b: set<T>)
    requires a <= b
    ensures |a| <= |b|
  {
    assert b == a + (b - a);
  }

  // Filling an empty slot with any entry keeps the slots reachable that were reachable.
  lemma StaysReachable<K(!new), V(!new)>(t: Table<K, V>, hash: K -> nat, a: nat, e: Slot<K, V>, s: nat)
    requires |t| > 0 && a < |t| && e.Full? && s < |t| && s != a && t[s].Full?
    requires Reachable(t, hash, s)
    ensures Reachable(t[a := e], hash, s)
  {
    var i :| 0 <= i < |t| && Address(hash(t[s].key), i, |t|) == s && TakenUpTo(t, hash(t[s].key), i);
    assert TakenUpTo(t[a := e], hash(t[s].key), i);
  }

  lemma InsertKeepsTable<K(!new), V(!new)>(t: Table<K, V>, hash: K -> nat, m: map<K, V>, k: K, v: V, n: nat)
    requires WellProbed(t, hash) && Represents(t, m) && k !in m
    requires n < |t| && TakenUpTo(t, hash(k), n) && t[Address(hash(k), n, |t|)].Empty?
    ensures WellProbed(t[Address(hash(k), n, |t|) := Full(k, v)], hash)
    ensures Represents(t[Address(hash(k), n, |t|) := Full(k, v)], m[k := v])
  {
    var a := Address(hash(k), n, |t|);
    var u := t[a := Full(k, v)];
    forall s | 0 <= s < |u| && u[s].Full?
      ensures Reachable(u, hash, s)
    {
      if s == a {
        assert TakenUpTo(u, hash(k), n);
      } else {
        assert Reachable(t, hash, s);
        StaysReachable(t, hash, a, Full(k, v), s);
      }
    }
    InsertRepresents(t, m, k, v, a);
  }

  lemma InsertRepresents<K(!new), V(!new)>(t: Table<K, V>, m: map<K, V>, k: K, v: V, a: nat)
    requires Represents(t, m) && k !in m && a < |t| && t[a].Empty?
    ensures Represents(t[a := Full(k, v)], m[k := v])
  {
    var u := t[a := Full(k, v)];
    assert u[a].Full? && u[a].key == k;
    forall x | x in m
      ensures exists s :: 0 <= s < |u| && u[s].Full? && u[s].key == x
    {
      var s :| 0 <= s < |t| && t[s].Full? && t[s].key == x;
      assert u[s] == t[s];
    }
  }

  lemma UpdateKeepsTable<K(!new), V(!new)>(t: Table<K, V>, hash: K -> nat, m: map<K, V>, v: V, a: nat)
    requires WellProbed(t, hash) && Represents(t, m) && a < |t| && t[a].Full?
    ensures WellProbed(t[a := Full(t[a].key, v)], hash)
    ensures Represents(t[a := Full(t[a].key, v)], m[t[a].key := v])
  {
    var k := t[a].key;
    var u := t[a := Full(k, v)];
    forall s | 0 <= s < |u| && u[s].Full?
      ensures Reachable(u, hash, s)
    {
      assert Reachable(t, hash, s);
      var i :| 0 <= i < |t| && Address(hash(t[s].key), i, |t|) == s && TakenUpTo(t, hash(t[s].key), i);
      assert TakenUpTo(u, hash(t[s].key), i);
    }
    forall x | x in m
      ensures exists s :: 0 <= s < |u| && u[s].Full? && u[s].key == x
    {
      var s :| 0 <= s < |t| && t[s].Full? && t[s].key == x;
      assert u[s].key == x;
    }
  }

  // Copying one more slot extends what has been copied by exactly that slot's binding.
  lemma CopyStep<K(!new), V(!new)>(t: Table<K, V>, s: nat, m: map<K, V>)
    requires s < |t| && Distinct(t) && Represents(t[..s], m)
    ensures t[s].Full? ==> t[s].key !in m && Represents(t[..s + 1], m[t[s].key := t[s].value])
    ensures t[s].Empty? ==> Represents(t[..s + 1], m)
  {
    var before, after := t[..s], t[..s + 1];
    assert after[s] == t[s];
    forall k | k in m
      ensures exists j :: 0 <= j < |after| && after[j].Full? && after[j].key == k
    {
      var j :| 0 <= j < |before| && before[j].Full? && before[j].key == k;
      assert after[j] == before[j];
    }
  }

  /** The load limit: the size times the 32-bit float nearest to 0.7, truncated. */
  function LoadLimit(size: nat): (r: nat)
  {
    size * 11744051 / 16777216
  }

  lemma LoadLimitLeavesRoom(size: nat)
    requires size >= 2
    ensures 1 <= LoadLimit(size) < size
    ensures LoadLimit(size) < LoadLimit(2 * size)
  {
  }
}
