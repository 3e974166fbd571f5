/** The algorithm that decides which lists to break. */
module PrettyBreaks {
  import opened Options
  import opened PrettyNodes
  import opened PrettyLayout

  class Layout {
    const root: Node
    const order: seq<Path>
    var style: map<Path, Style>
    var textLen: map<Path, int>

    ghost predicate Linked()
      reads this
    {
      order == Order(root, [])
    }

    // Every broken list is broken completely.
    ghost predicate Valid()
      reads this
    {
      Linked() && forall p :: p in style ==> Settled(root, style, p)
    }

    // Every measured length is up to date.
    ghost predicate Measured()
      reads this
    {
      forall p :: ValidPath(root, p) ==> p in textLen && textLen[p] == Length(NodeAt(root, p), p, style)
    }

    // The lists that are not broken yet.
    ghost function Unbroken(): set<Path>
      reads this
    {
      AllPaths(root) - style.Keys
    }

    constructor (root: Node)
      ensures Valid() && this.root == root && style == map[]
    {
      this.root := root;
      order := Order(root, []);
      style, textLen := map[], map[];
    }

    /** Break a list, the lists that must break with it, and the ancestors that would otherwise
        have a broken list in the middle of a line.  No list is ever broken twice. */
    method BreakList(path: Path)
      requires Linked() && IsList(root, path) && path !in style
      modifies this`style
      ensures Extends(old(style), style) && path in style
      ensures forall p :: p in style && p !in old(style) ==> Settled(root, style, p)
      decreases Unbroken(), 0
    {
      ValidPathIsListed(root, path);
      var node := NodeAt(root, path);
      style := style[path := StyleOf(node)];
      assert path in old(Unbroken()) && path !in Unbroken() && Unbroken() <= old(Unbroken());
      BreakCompanions(path);
      BreakAncestors(path);
    }

    /** Break the children that a newly broken let, cond or case takes with it. */
    method BreakCompanions(path: Path)
      requires Linked() && IsList(root, path) && path in style
      modifies this`style
      ensures Extends(old(style), style)
      ensures forall k :: Companion(NodeAt(root, path), k) ==> path + [k] in style
      ensures forall p :: p in style && p !in old(style) ==> Settled(root, style, p)
      decreases Unbroken(), 2
    {
      var node := NodeAt(root, path);
      var k := 0;
      while k < |node.children|
        invariant 0 <= k <= |node.children| && Extends(old(style), style)
        invariant forall j :: 0 <= j < k && Companion(node, j) ==> path + [j] in style
        invariant forall p :: p in style && p !in old(style) ==> Settled(root, style, p)
      {
        if Companion(node, k) && path + [k] !in style {
          ChildPath(root, path, k);
          BreakNested(path + [k], old(style));
        }
        k := k + 1;
      }
    }

    /** Break one more list on the way; what was broken completely since before stays so. */
    method BreakNested(path: Path, ghost before: map<Path, Style>)
      requires Linked() && IsList(root, path) && path !in style
      requires Extends(before, style) && forall p :: p in style && p !in before ==> Settled(root, style, p)
      modifies this`style
      ensures Extends(old(style), style) && Extends(before, style) && path in style
      ensures forall p :: p in style && p !in before ==> Settled(root, style, p)
      decreases Unbroken(), 1
    {
      BreakList(path);
    }

    /** Walk up from a broken list and break each ancestor in which it would not come last. */
    method BreakAncestors(path: Path)
      requires Linked() && IsList(root, path) && path in style
      modifies this`style
      ensures Extends(old(style), style) && Anchored(root, style, path)
      ensures forall p :: p in style && p !in old(style) ==> Settled(root, style, p)
      decreases Unbroken(), 3
    {
      var n := |path|;
      while n > 0
        invariant 0 <= n <= |path| && Extends(old(style), style)
        invariant forall m :: n < m <= |path| ==> ValidPath(root, path[..m]) && StepAnchored(root, style, path[..m])
        invariant forall p :: p in style && p !in old(style) ==> Settled(root, style, p)
      {
        PrefixIsValid(root, path, n);
        BreakParent(path[..n], old(style));
        n := n - 1;
      }
    }

    method BreakParent(path: Path, ghost before: map<Path, Style>)
      requires Linked() && ValidPath(root, path) && path != []
      requires Extends(before, style) && forall p :: p in style && p !in before ==> Settled(root, style, p)
      modifies this`style
      ensures Extends(old(style), style) && Extends(before, style) && StepAnchored(root, style, path)
      ensures forall p :: p in style && p !in before ==> Settled(root, style, p)
      decreases Unbroken(), 2
    {
      ParentPath(root, path);
      var parent := path[..|path| - 1];
      if parent !in style && path[|path| - 1] != |NodeAt(root, parent).children| - 1 {
        BreakNested(parent, before);
      }
    }

    /** Break a list at top level: whatever was complete stays complete. */
    method BreakTop(path: Path)
      requires Valid() && IsList(root, path) && path !in style
      modifies this`style
      ensures Valid() && Extends(old(style), style) && path in style
      ensures Unbroken() < old(Unbroken())
    {
      ValidPathIsListed(root, path);
      BreakNested(path, map[]);
      assert path in old(Unbroken()) && path !in Unbroken() && Unbroken() <= old(Unbroken());
    }

    /** Break the forms that are never kept on one line. */
    method InsertRequiredBreaks()
      requires Valid()
      modifies this`style
      ensures Valid() && Extends(old(style), style)
      ensures forall p :: ValidPath(root, p) && MustBreak(NodeAt(root, p)) ==> p in style
      ensures (forall p :: ValidPath(root, p) ==> !MustBreak(NodeAt(root, p))) ==> style == old(style)
    {
      ghost var none := forall p :: ValidPath(root, p) ==> !MustBreak(NodeAt(root, p));
      for i := 0 to |order|
        invariant Valid() && Extends(old(style), style) && MadeBreaks(root, order[..i], style)
        invariant none ==> style == old(style)
      {
        BreakIfRequired(i, old(style));
      }
      forall p | ValidPath(root, p) && MustBreak(NodeAt(root, p))
        ensures p in style
      {
        ValidPathIsListed(root, p);
        var j :| 0 <= j < |order| && order[j] == p;
        assert order[..|order|][j] == p;
      }
    }

    method BreakIfRequired(i: nat, ghost before: map<Path, Style>)
      requires Valid() && i < |order| && Extends(before, style) && MadeBreaks(root, order[..i], style)
      modifies this`style
      ensures Valid() && Extends(before, style) && MadeBreaks(root, order[..i + 1], style) && ValidPath(root, order[i])
      ensures !MustBreak(NodeAt(root, order[i])) ==> style == old(style)
    {
      ListedPathIsValid(root, i);
      if order[i] !in style && MustBreak(NodeAt(root, order[i])) {
        BreakTop(order[i]);
      }
      MadeOneMore(root, order, i, old(style), style);
    }

    /** Measure every node, the last linked first, so that children come before their parents. */
    method RecomputeLengths()
      requires Linked()
      modifies this`textLen
      ensures Measured()
    {
      var i := |order|;
      while i > 0
        invariant 0 <= i <= |order|
        invariant forall j :: i <= j < |order| ==> MeasuredAt(order[j])
      {
        i := i - 1;
        var len := Measure(i);
        textLen := textLen[order[i] := len];
      }
      forall p | ValidPath(root, p)
        ensures MeasuredAt(p)
      {
        ValidPathIsListed(root, p);
        var j :| 0 <= j < |order| && order[j] == p;
      }
    }

    // The length of one node, when all nodes after it are measured.
    method Measure(i: nat) returns (len: int)
      requires Linked() && i < |order|
      requires forall j :: i < j < |order| ==> MeasuredAt(order[j])
      ensures ValidPath(root, order[i]) && len == Length(NodeAt(root, order[i]), order[i], style)
    {
      ListedPathIsValid(root, i);
      var node := NodeAt(root, order[i]);
      var lens: seq<int> := [];
      if node.Branch? {
        lens := ChildLengths(i);
      }
      len := ComputeLength(node, StyleAt(style, order[i]), lens);
    }

    ghost predicate MeasuredAt(p: Path)
      reads this
    {
      ValidPath(root, p) && p in textLen && textLen[p] == Length(NodeAt(root, p), p, style)
    }

    method ChildLengths(i: nat) returns (lens: seq<int>)
      requires Linked() && i < |order| && IsList(root, order[i])
      requires forall j :: i < j < |order| ==> MeasuredAt(order[j])
      ensures lens == Lengths(NodeAt(root, order[i]).children, order[i], style)
    {
      var path := order[i];
      var children := NodeAt(root, path).children;
      ghost var all := Lengths(children, path, style);
      lens := [];
      for k := 0 to |children|
        invariant lens == all[..k]
      {
        ChildIsMeasured(i, k);
        lens := lens + [textLen[path + [k]]];
      }
    }

    lemma ChildIsMeasured(i: nat, k: nat)
      requires Linked() && i < |order| && IsList(root, order[i]) && k < |NodeAt(root, order[i]).children|
      requires forall j :: i < j < |order| ==> MeasuredAt(order[j])
      ensures var child := order[i] + [k];
              child in textLen && textLen[child] == Lengths(NodeAt(root, order[i]).children, order[i], style)[k]
    {
      var path := order[i];
      assert path[0..] == path;
      ChildrenListedLater(root, [], i, k);
      ChildPath(root, path, k);
      var j :| i < j < |order| && order[j] == path + [k];
      assert MeasuredAt(order[j]);
    }

    method ComputeLength(node: Node, st: Option<Style>, lens: seq<int>) returns (len: int)
      requires node.Branch? ==> |lens| == |node.children|
      ensures len == NodeLength(node, st, lens)
    {
      if node.Atom? {
        return |AtomText(node)| + QuotesLength(node.quotes);
      }
      var start := 1 + QuotesLength(node.quotes);
      if st.None? {
        len := AddUp(start, lens, |lens|);
        return;
      }
      var onFirst := Min(|lens|, st.value.top);
      var first := AddUp(start, lens, onFirst);
      if onFirst > 0 {
        first := first - 1;
      }
      len := Widest(first, lens, onFirst, st.value.indent);
    }

    // Elements on one line, each with the blank or parenthesis after it.
    method AddUp(start: int, lens: seq<int>, n: nat) returns (len: int)
      requires n <= |lens|
      ensures len == start + SumPlusOne(lens, n)
    {
      len := start;
      for k := 0 to n
        invariant len == start + SumPlusOne(lens, k)
      {
        len := len + lens[k] + 1;
      }
    }

    // The longest of a first line and indented lines of their own.
    method Widest(first: int, lens: seq<int>, from: nat, indent: nat) returns (len: int)
      requires from <= |lens|
      ensures len == MaxOf(first, lens, from, |lens|, indent)
    {
      len := first;
      for k := from to |lens|
        invariant len == MaxOf(first, lens, from, k, indent)
      {
        if indent + lens[k] > len {
          len := indent + lens[k];
        }
      }
    }

    ghost predicate HasLengths()
      reads this
    {
      forall p :: ValidPath(root, p) ==> p in textLen
    }

    // Every list is broken or short enough.
    ghost predicate Fits(lineLength: int)
      requires HasLengths()
      reads this
    {
      forall p :: IsList(root, p) ==> p in style || textLen[p] <= lineLength
    }

    /** One pass: break the lists that are too long, deepest first, down to the depth of the
        first one found.  The result says whether anything was broken. */
    method RunAlgorithm(lineLength: int) returns (numBroken: nat)
      requires Valid() && Measured()
      modifies this
      ensures Valid() && Measured() && Extends(old(style), style)
      ensures numBroken == 0 <==> old(Fits(lineLength))
      ensures numBroken == 0 ==> style == old(style) && Fits(lineLength)
      ensures numBroken > 0 ==> Unbroken() < old(Unbroken())
    {
      numBroken := BreakTooLong(lineLength);
      ghost var lengths := textLen;
      RecomputeLengths();
      if numBroken == 0 {
        assert forall p :: ValidPath(root, p) ==> textLen[p] == lengths[p];
      }
    }

    method BreakTooLong(lineLength: int) returns (numBroken: nat)
      requires Valid() && HasLengths()
      modifies this`style
      ensures Valid() && Extends(old(style), style)
      ensures numBroken == 0 <==> old(Fits(lineLength))
      ensures numBroken == 0 ==> style == old(style)
      ensures numBroken > 0 ==> Unbroken() < old(Unbroken())
    {
      numBroken := 0;
      var minDepth := None;
      ghost var fits := Fits(lineLength);
      var i := |order|;
      while i > 0
        invariant 0 <= i <= |order| && Valid() && Extends(old(style), style)
        invariant minDepth.Some? <==> numBroken > 0
        invariant numBroken > 0 ==> !fits && Unbroken() < old(Unbroken())
        invariant numBroken == 0 ==> style == old(style)
        invariant numBroken == 0 ==> forall j :: i <= j < |order| ==> FitsAt(order[j], lineLength)
      {
        i := i - 1;
        ListedPathIsValid(root, i);
        var path := order[i];
        if minDepth.Some? && |path| < minDepth.value {
          break;
        }
        if NodeAt(root, path).Branch? && textLen[path] > lineLength && path !in style {
          assert numBroken == 0 ==> IsList(root, path) && path !in old(style);
          BreakTop(path);
          numBroken := numBroken + 1;
          if minDepth.None? {
            minDepth := Some(|path|);
          }
        }
      }
      if numBroken == 0 {
        AllListedFit(lineLength);
      }
    }

    lemma AllListedFit(lineLength: int)
      requires Valid() && HasLengths() && forall j :: 0 <= j < |order| ==> FitsAt(order[j], lineLength)
      ensures Fits(lineLength)
    {
      forall p | IsList(root, p)
        ensures p in style || textLen[p] <= lineLength
      {
        ValidPathIsListed(root, p);
        var j :| 0 <= j < |order| && order[j] == p;
        assert FitsAt(order[j], lineLength);
      }
    }

    ghost predicate FitsAt(p: Path, lineLength: int)
      requires HasLengths()
      reads this
    {
      IsList(root, p) ==> p in style || textLen[p] <= lineLength
    }

    /** Lay the tree out: required breaks first, then passes until every unbroken list fits. */
    method LayOut(lineLength: int)
      requires Valid() && style == map[]
      modifies this
      ensures Valid() && Measured()
      ensures forall p :: ValidPath(root, p) && MustBreak(NodeAt(root, p)) ==> p in style
      ensures Fits(lineLength)
      // A tree that needs no break and fits the line is left alone.
      ensures NeedsNoBreak(root, lineLength) ==> style == map[]
    {
      InsertRequiredBreaks();
      RecomputeLengths();
      ghost var required := style;
      var numBroken := 1;
      while numBroken > 0
        invariant Valid() && Measured() && Extends(required, style)
        invariant numBroken == 0 ==> Fits(lineLength)
        invariant NeedsNoBreak(root, lineLength) ==> style == map[]
        decreases Unbroken(), numBroken
      {
        numBroken := RunAlgorithm(lineLength);
      }
    }
  }

  // The forms among these that must be broken are broken.
  ghost predicate MadeBreaks(root: Node, paths: seq<Path>, style: map<Path, Style>)
  {
    forall j :: 0 <= j < |paths| && ValidPath(root, paths[j]) && MustBreak(NodeAt(root, paths[j])) ==> paths[j] in style
  }

  lemma MadeOneMore(root: Node, paths: seq<Path>, i: nat, before: map<Path, Style>, style: map<Path, Style>)
    requires i < |paths| && MadeBreaks(root, paths[..i], before) && Extends(before, style)
    requires ValidPath(root, paths[i]) && MustBreak(NodeAt(root, paths[i])) ==> paths[i] in style
    ensures MadeBreaks(root, paths[..i + 1], style)
  {
    forall j | 0 <= j < i + 1 && ValidPath(root, paths[j]) && MustBreak(NodeAt(root, paths[j]))
      ensures paths[j] in style
    {
      if j < i {
        assert paths[..i][j] == paths[j];
      }
    }
  }

  // No form that must break, and every list fits the line as it is.
  ghost predicate NeedsNoBreak(root: Node, lineLength: int)
  {
    && (forall p :: ValidPath(root, p) ==> !MustBreak(NodeAt(root, p)))
    && (forall p :: IsList(root, p) ==> Length(NodeAt(root, p), p, map[]) <= lineLength)
  }
}
