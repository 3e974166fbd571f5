/** TextDb: which place in the source text each pair came from. */
module TextDbs {

  /** A pair is known by its identity only: pairs may be shared and may form cycles. */
  type PairId = nat

  datatype Object = Pair(id: PairId) | Atom

  datatype Cell = Cell(car: Object, cdr: Object)

  type Heap = map<PairId, Cell>

  datatype TextRef = TextRef(frag: nat, offset: int)

  ghost predicate Closed(heap: Heap)
  {
    forall p :: p in heap ==> Known(heap, heap[p].car) && Known(heap, heap[p].cdr)
  }

  ghost predicate Known(heap: Heap, o: Object)
  {
    o.Pair? ==> o.id in heap
  }

  ghost predicate Holds(heap: Heap, p: PairId, q: PairId)
  {
    p in heap && (heap[p].car == Pair(q) || heap[p].cdr == Pair(q))
  }

  // q is n steps from child along car and cdr, and no pair on the way, ends included, is in mapped.
  ghost predicate FreeIn(heap: Heap, mapped: set<PairId>, n: nat, child: PairId, q: PairId)
  {
    q !in mapped && if n == 0 then q == child else exists p :: FreeIn(heap, mapped, n - 1, child, p) && Holds(heap, p, q)
  }

  ghost predicate Free(heap: Heap, mapped: set<PairId>, child: PairId, q: PairId)
  {
    exists n: nat :: FreeIn(heap, mapped, n, child, q)
  }

  lemma FreeStep(heap: Heap, mapped: set<PairId>, child: PairId, p: PairId, q: PairId)
    requires Free(heap, mapped, child, p) && Holds(heap, p, q) && q !in mapped
    ensures Free(heap, mapped, child, q)
  {
    var n: nat :| FreeIn(heap, mapped, n, child, p);
    assert FreeIn(heap, mapped, n + 1, child, q);
  }

  // Marked pairs whose neighbours are all marked include everything free.
  lemma {:induction false} ClosedMarkingHoldsFree(heap: Heap, mapped: set<PairId>, marked: set<PairId>,
                                                  n: nat, child: PairId, q: PairId)
    requires FreeIn(heap, mapped, n, child, q) && child in marked
    requires forall a, b :: a in marked - mapped && Holds(heap, a, b) ==> b in marked
    ensures q in marked
  {
    if n > 0 {
      var p :| FreeIn(heap, mapped, n - 1, child, p) && Holds(heap, p, q);
      ClosedMarkingHoldsFree(heap, mapped, marked, n - 1, child, p);
    }
  }

  class TextDb {
    var infos: map<PairId, TextRef>

    constructor ()
      ensures infos == map[]
    {
      infos := map[];
    }

    // The marking after some steps, with work still on the stack.
    ghost predicate Marking(heap: Heap, before: map<PairId, TextRef>, ref: TextRef, child: PairId, work: seq<PairId>)
      reads this
    {
      && (forall p :: p in before ==> p in infos && infos[p] == before[p])
      && (forall p :: p in infos && p !in before ==> p in heap && infos[p] == ref && Free(heap, before.Keys, child, p))
      && (forall p :: p in work ==> p in heap && (p in before || Free(heap, before.Keys, child, p)))
      && (child in infos || child in work)
      && (forall p, q :: p in infos && p !in before && Holds(heap, p, q) ==> q in infos || q in work)
    }

    /** Give child, and what it is made of, the parent's place in the source. */
    method InheritInfo(heap: Heap, parent: Object, child: Object)
      requires Closed(heap) && Known(heap, parent) && Known(heap, child)
      modifies this
      // Exactly the pairs that can be reached without passing an already mapped pair are added.
      ensures parent.Pair? && child.Pair? && parent.id in old(infos) ==>
        forall p :: p in infos <==> p in old(infos) || Free(heap, old(infos).Keys, child.id, p)
      ensures parent.Pair? && child.Pair? && parent.id in old(infos) ==>
        forall p :: p in infos && p !in old(infos) ==> infos[p] == old(infos)[parent.id]
      // Earlier entries keep their value, and without a known parent nothing happens.
      ensures forall p :: p in old(infos) ==> p in infos && infos[p] == old(infos)[p]
      ensures !(parent.Pair? && child.Pair? && parent.id in old(infos)) ==> infos == old(infos)
    {
      if parent.Pair? && child.Pair? && parent.id in infos {
        var ref := infos[parent.id];
        var work := [child.id];
        assert child.id !in infos ==> FreeIn(heap, infos.Keys, 0, child.id, child.id);
        while work != []
          invariant Marking(heap, old(infos), ref, child.id, work)
          decreases heap.Keys - infos.Keys, |work|
        {
          work := MarkTop(heap, work, old(infos), ref, child.id);
        }
        forall p | Free(heap, old(infos).Keys, child.id, p)
          ensures p in infos
        {
          var n: nat :| FreeIn(heap, old(infos).Keys, n, child.id, p);
          ClosedMarkingHoldsFree(heap, old(infos).Keys, infos.Keys, n, child.id, p);
        }
      }
    }

    /** Pop one pair; if it has no entry yet, give it one and push the pairs it holds. */
    method MarkTop(heap: Heap, work: seq<PairId>, ghost before: map<PairId, TextRef>, ref: TextRef, ghost child: PairId)
      returns (work': seq<PairId>)
      requires Closed(heap) && work != [] && Marking(heap, before, ref, child, work)
      modifies this
      ensures Marking(heap, before, ref, child, work')
      ensures old(infos) == infos ==> |work'| < |work|
      ensures old(infos) != infos ==> exists p :: p in heap && p !in old(infos) && infos.Keys == old(infos.Keys) + {p}
    {
      var top := work[|work| - 1];
      work' := work[..|work| - 1];
      assert forall p :: p in work <==> p in work' || p == top;
      if top !in infos {
        infos := infos[top := ref];
        ghost var rest := work';
        if heap[top].car.Pair? {
          work' := work' + [heap[top].car.id];
        }
        if heap[top].cdr.Pair? {
          work' := work' + [heap[top].cdr.id];
        }
        assert forall p :: p in work' <==> p in rest || Holds(heap, top, p);
        forall p | Holds(heap, top, p) && p !in before
          ensures Free(heap, before.Keys, child, p)
        {
          FreeStep(heap, before.Keys, child, top, p);
        }
      }
    }
  }
}
