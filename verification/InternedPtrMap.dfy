/** InternedPtrMap: the table behind every environment, keyed by interned name pointers. */
module InternedPtrMaps {
  import opened Options
  import opened Probing

  /** An interned name pointer: equal pointers are equal names, so only identity matters. */
  type Ptr = nat

  datatype Op<+V> = Set(key: Ptr, value: V) | Clear

  // What a plain map holds after the same operations.
  function Replay<V>(m: map<Ptr, V>, ops: seq<Op<V>>): (r: map<Ptr, V>)
    decreases ops
  {
    if ops == [] then m
    else match ops[0]
         case Set(k, v) => Replay(m[k := v], ops[1..])
         case Clear => Replay(map[], ops[1..])
  }

  class InternedPtrMap<V(!new)> {
    const hash: Ptr -> nat
    var entries: Table<Ptr, V>
    var powerOfTwoSize: nat
    var usedEntries: nat
    var nextResize: nat
    var mask: nat
    ghost var contents: map<Ptr, V>

    ghost predicate Sized()
      reads this
    {
      powerOfTwoSize >= 1 && mask + 1 == |entries| == Pow2(powerOfTwoSize)
    }

    ghost predicate Valid()
      reads this
    {
      && Sized()
      && nextResize == LoadLimit(|entries|)
      && usedEntries == |contents| < nextResize
      && WellProbed(entries, hash) && Represents(entries, contents)
    }

    constructor (hash: Ptr -> nat)
      ensures Valid() && contents == map[] && this.hash == hash
    {
      this.hash := hash;
      new;
      Clear();
    }

    method Clear()
      modifies this
      ensures Valid() && contents == map[]
    {
      entries := seq(8, _ => Empty);
      powerOfTwoSize := 3;
      usedEntries := 0;
      nextResize := LoadLimit(|entries|);
      mask := 7;
      contents := map[];
    }

    /** Small tables are scanned, larger ones are probed; either way the answer is the map's. */
    method Lookup(key: Ptr) returns (r: Option<V>)
      requires Valid()
      ensures r == if key in contents then Some(contents[key]) else None
    {
      if |entries| < 10 {
        for s := 0 to |entries|
          invariant forall j :: 0 <= j < s && entries[j].Full? ==> entries[j].key != key
        {
          if entries[s].Full? && entries[s].key == key {
            return Some(entries[s].value);
          }
        }
        return None;
      }
      var i := 0;
      while i < |entries|
        invariant 0 <= i <= |entries| && Passed(entries, hash, key, i)
      {
        var slot := entries[Address(hash(key), i, mask + 1)];
        if slot.Empty? {
          EmptySlotMeansAbsent(entries, hash, contents, key, i);
          return None;
        } else if slot.key == key {
          return Some(slot.value);
        }
        i := i + 1;
      }
      LoadLimitLeavesRoom(|entries|);
      ProbeStops(entries, contents, hash(key));
      assert false;
    }

    method Set(key: Ptr, value: V)
      requires Valid()
      modifies this
      ensures Valid() && contents == old(contents)[key := value]
    {
      var i := 0;
      while i < |entries|
        invariant 0 <= i <= |entries| && Passed(entries, hash, key, i)
        invariant unchanged(this)
      {
        var a := Address(hash(key), i, mask + 1);
        if entries[a].Empty? {
          EmptySlotMeansAbsent(entries, hash, contents, key, i);
          InsertKeepsTable(entries, hash, contents, key, value, i);
          entries := entries[a := Full(key, value)];
          contents := contents[key := value];
          usedEntries := usedEntries + 1;
          if usedEntries >= nextResize {
            Resize();
          }
          return;
        } else if entries[a].key == key {
          UpdateKeepsTable(entries, hash, contents, value, a);
          entries := entries[a := Full(key, value)];
          contents := contents[key := value];
          return;
        }
        i := i + 1;
      }
      LoadLimitLeavesRoom(|entries|);
      ProbeStops(entries, contents, hash(key));
      assert false;
    }

    /** Double the table and rehash every entry. */
    method Resize()
      requires Sized() && usedEntries == |contents| == nextResize == LoadLimit(|entries|)
      requires WellProbed(entries, hash) && Represents(entries, contents)
      modifies this
      ensures Valid() && contents == old(contents) && |entries| == 2 * old(|entries|)
    {
      powerOfTwoSize := powerOfTwoSize + 1;
      mask := Pow2(powerOfTwoSize) - 1;
      LoadLimitLeavesRoom(|entries|);
      entries := RehashAll();
      nextResize := LoadLimit(|entries|);
    }

    /** A table of twice the size that represents the same map; the mask is the new one already. */
    method RehashAll() returns (newEntries: Table<Ptr, V>)
      requires mask + 1 == 2 * |entries| && Distinct(entries) && Represents(entries, contents)
      ensures |newEntries| == 2 * |entries| && WellProbed(newEntries, hash) && Represents(newEntries, contents)
    {
      newEntries := seq(2 * |entries|, _ => Empty);
      ghost var copied: map<Ptr, V> := map[];
      for s := 0 to |entries|
        invariant Copying(newEntries, s, copied)
      {
        newEntries, copied := CopySlot(newEntries, s, copied);
      }
      assert entries[..|entries|] == entries;
    }

    ghost predicate Copying(newEntries: Table<Ptr, V>, s: nat, copied: map<Ptr, V>)
      reads this
    {
      && s <= |entries| && |newEntries| == mask + 1 == 2 * |entries| && |copied| <= s
      && WellProbed(newEntries, hash) && Represents(newEntries, copied)
      && Represents(entries[..s], copied)
    }

    method CopySlot(newEntries: Table<Ptr, V>, s: nat, ghost copied: map<Ptr, V>)
      returns (newEntries': Table<Ptr, V>, ghost copied': map<Ptr, V>)
      requires Distinct(entries) && s < |entries| && Copying(newEntries, s, copied)
      ensures Copying(newEntries', s + 1, copied')
    {
      newEntries', copied' := newEntries, copied;
      CopyStep(entries, s, copied);
      if entries[s].Full? {
        newEntries' := Rehash(newEntries, entries[s].key, entries[s].value, copied);
        copied' := copied[entries[s].key := entries[s].value];
      }
    }

    /** Put one old entry into the first free slot of its probe sequence in the new table. */
    method Rehash(newEntries: Table<Ptr, V>, key: Ptr, value: V, ghost copied: map<Ptr, V>)
      returns (newEntries': Table<Ptr, V>)
      requires |newEntries| == mask + 1 && WellProbed(newEntries, hash) && Represents(newEntries, copied)
      requires key !in copied && |copied| < |newEntries|
      ensures |newEntries'| == |newEntries| && WellProbed(newEntries', hash) && Represents(newEntries', copied[key := value])
    {
      var i := 0;
      while i < |newEntries|
        invariant 0 <= i <= |newEntries| && TakenUpTo(newEntries, hash(key), i)
      {
        var a := Address(hash(key), i, mask + 1);
        if newEntries[a].Empty? {
          InsertKeepsTable(newEntries, hash, copied, key, value, i);
          return newEntries[a := Full(key, value)];
        }
        i := i + 1;
      }
      ProbeStops(newEntries, copied, hash(key));
      assert false;
    }
  }

  /** Any sequence of set and clear leaves exactly what a plain map would hold. */
  method Execute<V(!new)>(table: InternedPtrMap<V>, ops: seq<Op<V>>)
    requires table.Valid()
    modifies table
    ensures table.Valid() && table.contents == Replay(old(table.contents), ops)
  {
    for i := 0 to |ops|
      invariant table.Valid() && Replay(old(table.contents), ops) == Replay(table.contents, ops[i..])
    {
      assert ops[i..][1..] == ops[i + 1..];
      match ops[i] {
        case Set(k, v) => table.Set(k, v);
        case Clear => table.Clear();
      }
    }
  }
}
