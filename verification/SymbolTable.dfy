/** SymbolTable: the canonical pointer of every name. */
module SymbolTables {
  import opened Probing

  /** Address of a name in the table's own storage: an index into the names allocated so far. */
  type Ptr = nat

  datatype Entry = Free | Used(hash: nat, name: Ptr)

  // The table as seen through its storage: each used entry maps a name to its pointer.
  ghost function View(entries: seq<Entry>, storage: seq<string>): (t: Table<string, Ptr>)
    requires forall s :: 0 <= s < |entries| && entries[s].Used? ==> entries[s].name < |storage|
    ensures |t| == |entries|
    ensures forall s :: 0 <= s < |t| ==>
      t[s] == if entries[s].Free? then Empty else Full(storage[entries[s].name], entries[s].name)
  {
    seq(|entries|, s requires 0 <= s < |entries| =>
      if entries[s].Free? then Empty else Full(storage[entries[s].name], entries[s].name))
  }

  lemma ViewWithNewName(entries: seq<Entry>, storage: seq<string>, a: nat, hash: nat, name: string)
    requires a < |entries|
    requires forall s :: 0 <= s < |entries| && entries[s].Used? ==> entries[s].name < |storage|
    ensures var entries' := entries[a := Used(hash, |storage|)];
      && (forall s :: 0 <= s < |entries| && entries'[s].Used? ==> entries'[s].name < |storage| + 1)
      && View(entries', storage + [name]) == View(entries, storage)[a := Full(name, |storage|)]
  {
  }

  // Every used entry points to a stored name and caches that name's hash.
  ghost predicate Sound(entries: seq<Entry>, storage: seq<string>, hash: string -> nat)
  {
    forall s :: 0 <= s < |entries| && entries[s].Used? ==>
      entries[s].name < |storage| && entries[s].hash == hash(storage[entries[s].name])
  }

  // The entries are those of a well-probed table of these pointers.
  ghost predicate Holds(entries: seq<Entry>, storage: seq<string>, hash: string -> nat, canonical: map<string, Ptr>) {
    && Sound(entries, storage, hash)
    && WellProbed(View(entries, storage), hash) && Represents(View(entries, storage), canonical)
  }

  // Each pointer is that of its name.
  ghost predicate Stored(canonical: map<string, Ptr>, storage: seq<string>) {
    forall name :: name in canonical ==> canonical[name] < |storage| && storage[canonical[name]] == name
  }

  // The size of a table, and what is derived from it.
  ghost predicate HasSize(size: nat, power: nat, mask: nat, nextResize: nat) {
    power >= 1 && mask + 1 == size == Pow2(power) && nextResize == LoadLimit(size)
  }

  lemma DoubledSize(size: nat, power: nat, mask: nat, nextResize: nat)
    requires HasSize(size, power, mask, nextResize)
    ensures size >= 2 && Pow2(power + 1) == 2 * size && nextResize < LoadLimit(2 * size)
    ensures HasSize(2 * size, power + 1, 2 * size - 1, LoadLimit(2 * size))
  {
    LoadLimitLeavesRoom(size);
  }

  class SymbolTable {
    const hash: string -> nat
    var entries: seq<Entry>
    var storage: seq<string>
    var powerOfTwoSize: nat
    var usedEntries: nat
    var nextResize: nat
    var mask: nat
    // The canonical pointer of each interned name.
    ghost var canonical: map<string, Ptr>

    ghost predicate Consistent()
      reads this
    {
      && HasSize(|entries|, powerOfTwoSize, mask, nextResize) && usedEntries == |canonical|
      && Holds(entries, storage, hash, canonical) && Stored(canonical, storage)
    }

    ghost predicate Valid()
      reads this
    {
      Consistent() && usedEntries < nextResize
    }

    constructor (hash: string -> nat)
      ensures Valid() && canonical == map[] && this.hash == hash
    {
      this.hash := hash;
      entries := seq(2, _ => Free);
      storage := [];
      powerOfTwoSize := 1;
      usedEntries := 0;
      nextResize := LoadLimit(2);
      mask := 1;
      canonical := map[];
      new;
    }

    /** The canonical pointer of a name: the one handed out before, or a new one. */
    method Intern(name: string) returns (p: Ptr)
      requires Valid()
      modifies this
      ensures Valid() && old(storage) <= storage && Extends(old(canonical), canonical)
      ensures name in canonical && canonical[name] == p && p < |storage| && storage[p] == name
      ensures name in old(canonical) ==> unchanged(this)
      ensures name !in old(canonical) ==> p == |old(storage)| && canonical == old(canonical)[name := p]
      decreases name !in canonical
    {
      var i := Probe(name);
      var a := Address(hash(name), i, mask + 1);
      if entries[a].Used? {
        return entries[a].name;
      }
      p := Insert(name, i);
      if usedEntries >= nextResize {
        Resize();
        p := Intern(name);
      }
    }

    /** The step at which the probe for a name stops: at the name's own entry or at a free one. */
    method Probe(name: string) returns (i: nat)
      requires Valid()
      ensures i < |entries| && Passed(View(entries, storage), hash, name, i)
      ensures name in canonical <==> entries[Address(hash(name), i, |entries|)].Used?
      ensures name in canonical ==> canonical[name] == entries[Address(hash(name), i, |entries|)].name
    {
      i := 0;
      while i < |entries|
        invariant 0 <= i <= |entries| && Passed(View(entries, storage), hash, name, i)
      {
        var a := Address(hash(name), i, mask + 1);
        if entries[a].Free? {
          EmptySlotMeansAbsent(View(entries, storage), hash, canonical, name, i);
          return;
        } else if entries[a].hash == hash(name) && storage[entries[a].name] == name {
          assert View(entries, storage)[a].key == name;
          return;
        }
        i := i + 1;
      }
      LoadLimitLeavesRoom(|entries|);
      ProbeStops(View(entries, storage), canonical, hash(name));
      assert false;
    }

    /** Copy the name into new storage and point the free slot at step i of its probe there. */
    method Insert(name: string, i: nat) returns (p: Ptr)
      requires Valid() && name !in canonical && i < |entries|
      requires Passed(View(entries, storage), hash, name, i)
      requires entries[Address(hash(name), i, |entries|)].Free?
      modifies this
      ensures Consistent() && usedEntries <= nextResize
      ensures p == |old(storage)| && storage == old(storage) + [name]
      ensures canonical == old(canonical)[name := p] && |entries| == old(|entries|)
    {
      var a := Address(hash(name), i, mask + 1);
      p := |storage|;
      InsertKeepsTable(View(entries, storage), hash, canonical, name, p, i);
      ViewWithNewName(entries, storage, a, hash(name), name);
      entries := entries[a := Used(hash(name), p)];
      storage := storage + [name];
      canonical := canonical[name := p];
      usedEntries := usedEntries + 1;
    }

    /** Double the table.  Entries move, names do not: every pointer stays what it was. */
    method Resize()
      requires Consistent() && usedEntries == nextResize
      modifies this`entries, this`powerOfTwoSize, this`nextResize, this`mask
      ensures Valid()
    {
      DoubledSize(|entries|, powerOfTwoSize, mask, nextResize);
      powerOfTwoSize := powerOfTwoSize + 1;
      mask := Pow2(powerOfTwoSize) - 1;
      var newEntries := RehashAll();
      entries := newEntries;
      nextResize := LoadLimit(|entries|);
    }

    ghost predicate Copying(newEntries: seq<Entry>, s: nat, copied: map<string, Ptr>)
      reads this
    {
      && Sound(entries, storage, hash) && Sound(newEntries, storage, hash)
      && s <= |entries| && |newEntries| == mask + 1 == 2 * |entries| && |copied| <= s
      && WellProbed(View(newEntries, storage), hash) && Represents(View(newEntries, storage), copied)
      && Represents(View(entries, storage)[..s], copied)
    }

    method RehashAll() returns (newEntries: seq<Entry>)
      requires mask + 1 == 2 * |entries| && |entries| > 0 && Sound(entries, storage, hash)
      requires Distinct(View(entries, storage)) && Represents(View(entries, storage), canonical)
      ensures |newEntries| == 2 * |entries| && Holds(newEntries, storage, hash, canonical)
    {
      newEntries := seq(2 * |entries|, _ => Free);
      ghost var copied: map<string, Ptr> := map[];
      for s := 0 to |entries|
        invariant Copying(newEntries, s, copied)
      {
        newEntries, copied := CopySlot(newEntries, s, copied);
      }
      assert View(entries, storage)[..|entries|] == View(entries, storage);
    }

    method CopySlot(newEntries: seq<Entry>, s: nat, ghost copied: map<string, Ptr>)
      returns (newEntries': seq<Entry>, ghost copied': map<string, Ptr>)
      requires s < |entries| && Copying(newEntries, s, copied) && Distinct(View(entries, storage))
      ensures Copying(newEntries', s + 1, copied')
    {
      newEntries', copied' := newEntries, copied;
      CopyStep(View(entries, storage), s, copied);
      if entries[s].Used? {
        newEntries' := Rehash(newEntries, entries[s], copied);
        copied' := copied[storage[entries[s].name] := entries[s].name];
      }
    }

    /** Put one old entry, with its cached hash, into the first free slot of its probe sequence. */
    method Rehash(newEntries: seq<Entry>, e: Entry, ghost copied: map<string, Ptr>)
      returns (newEntries': seq<Entry>)
      requires |newEntries| == mask + 1 && Sound(newEntries, storage, hash)
      requires WellProbed(View(newEntries, storage), hash) && Represents(View(newEntries, storage), copied)
      requires e.Used? && e.name < |storage| && e.hash == hash(storage[e.name])
      requires storage[e.name] !in copied && |copied| < |newEntries|
      ensures |newEntries'| == |newEntries| && Sound(newEntries', storage, hash)
      ensures WellProbed(View(newEntries', storage), hash)
      ensures Represents(View(newEntries', storage), copied[storage[e.name] := e.name])
    {
      var i := 0;
      while i < |newEntries|
        invariant 0 <= i <= |newEntries| && TakenUpTo(View(newEntries, storage), e.hash, i)
      {
        var a := Address(e.hash, i, mask + 1);
        if newEntries[a].Free? {
          InsertKeepsTable(View(newEntries, storage), hash, copied, storage[e.name], e.name, i);
          newEntries' := newEntries[a := e];
          assert View(newEntries', storage) == View(newEntries, storage)[a := Full(storage[e.name], e.name)];
          return;
        }
        i := i + 1;
      }
      ProbeStops(View(newEntries, storage), copied, e.hash);
      assert false;
    }
  }

  /** Over any sequence of calls, equal names and only equal names get equal pointers. */
  method InternAll(table: SymbolTable, names: seq<string>) returns (ptrs: seq<Ptr>)
    requires table.Valid()
    modifies table
    ensures table.Valid() && |ptrs| == |names|
    ensures forall i, j :: 0 <= i < |names| && 0 <= j < |names| ==> (ptrs[i] == ptrs[j] <==> names[i] == names[j])
    ensures Answered(table.canonical, names, ptrs)
    ensures Extends(old(table.canonical), table.canonical)
  {
    ptrs := InternEach(table, names);
    CanonicalIsInjective(table);
  }

  method InternEach(table: SymbolTable, names: seq<string>) returns (ptrs: seq<Ptr>)
    requires table.Valid()
    modifies table
    ensures table.Valid() && Extends(old(table.canonical), table.canonical)
    ensures Answered(table.canonical, names, ptrs)
  {
    ptrs := [];
    for i := 0 to |names|
      invariant table.Valid() && Extends(old(table.canonical), table.canonical)
      invariant AnsweredUpTo(table.canonical, names, i, ptrs)
    {
      ptrs := InternNext(table, names, i, ptrs, old(table.canonical));
    }
  }

  method InternNext(table: SymbolTable, names: seq<string>, i: nat, ptrs: seq<Ptr>, ghost before: map<string, Ptr>)
    returns (ptrs': seq<Ptr>)
    requires table.Valid() && i < |names| && AnsweredUpTo(table.canonical, names, i, ptrs) && Extends(before, table.canonical)
    modifies table
    ensures table.Valid() && Extends(before, table.canonical)
    ensures AnsweredUpTo(table.canonical, names, i + 1, ptrs')
  {
    var p := table.Intern(names[i]);
    AnsweredNext(old(table.canonical), table.canonical, names, i, ptrs, p);
    ptrs' := ptrs + [p];
  }

  ghost predicate Extends(m: map<string, Ptr>, m': map<string, Ptr>)
  {
    forall n :: n in m ==> n in m' && m'[n] == m[n]
  }

  // The first n answers are the canonical pointers of the first n names.
  ghost predicate AnsweredUpTo(m: map<string, Ptr>, names: seq<string>, n: nat, ptrs: seq<Ptr>)
  {
    n == |ptrs| <= |names| && forall i :: 0 <= i < n ==> names[i] in m && m[names[i]] == ptrs[i]
  }

  ghost predicate Answered(m: map<string, Ptr>, names: seq<string>, ptrs: seq<Ptr>)
  {
    AnsweredUpTo(m, names, |names|, ptrs)
  }

  lemma AnsweredNext(m: map<string, Ptr>, m': map<string, Ptr>, names: seq<string>, n: nat, ptrs: seq<Ptr>, p: Ptr)
    requires AnsweredUpTo(m, names, n, ptrs) && Extends(m, m') && n < |names| && names[n] in m' && m'[names[n]] == p
    ensures AnsweredUpTo(m', names, n + 1, ptrs + [p])
  {
  }

  ghost predicate Injective(m: map<string, Ptr>)
  {
    forall a, b :: a in m && b in m && m[a] == m[b] ==> a == b
  }

  lemma CanonicalIsInjective(table: SymbolTable)
    requires table.Consistent()
    ensures Injective(table.canonical)
  {
  }
}
