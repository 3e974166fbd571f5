/** Which lists the pretty printer breaks over several lines.

    A node is addressed by its path from the root.  The break flag, the number of elements on
    the first line and the indentation of a node are one entry of the style map: a list is
    broken when it has an entry.
 */
module PrettyLayout {
  import opened Options
  import opened Forms
  import opened PrettyNodes

  type Path = seq<nat>

  datatype Style = Style(top: nat, indent: nat)

  // ---- paths ----

  predicate ValidPath(root: Node, path: Path)
    decreases path
  {
    path == [] || (root.Branch? && path[0] < |root.children| && ValidPath(root.children[path[0]], path[1..]))
  }

  function NodeAt(root: Node, path: Path): Node
    requires ValidPath(root, path)
    decreases path
  {
    if path == [] then root else NodeAt(root.children[path[0]], path[1..])
  }

  predicate IsList(root: Node, path: Path) {
    ValidPath(root, path) && NodeAt(root, path).Branch?
  }

  lemma {:induction false} ChildPath(root: Node, path: Path, k: nat)
    requires IsList(root, path) && k < |NodeAt(root, path).children|
    ensures ValidPath(root, path + [k]) && NodeAt(root, path + [k]) == NodeAt(root, path).children[k]
    decreases path
  {
    var child := path + [k];
    if path == [] {
      assert child[1..] == [];
    } else {
      assert child[0] == path[0] && child[1..] == path[1..] + [k];
      ChildPath(root.children[path[0]], path[1..], k);
    }
  }

  lemma {:induction false} ParentPath(root: Node, path: Path)
    requires ValidPath(root, path) && path != []
    ensures IsList(root, path[..|path| - 1])
    ensures path[|path| - 1] < |NodeAt(root, path[..|path| - 1]).children|
    decreases path
  {
    var parent := path[..|path| - 1];
    if |path| > 1 {
      assert parent[0] == path[0] && parent[1..] == path[1..][..|path| - 2];
      ParentPath(root.children[path[0]], path[1..]);
    }
  }

  // The order in which the tree is linked: each node before the nodes below it.
  function Order(n: Node, path: Path): seq<Path>
    decreases n, 0
  {
    [path] + if n.Branch? then OrderAll(n.children, path, 0) else []
  }

  function OrderAll(children: seq<Node>, path: Path, k: nat): seq<Path>
    decreases children, 0
  {
    if children == [] then [] else Order(children[0], path + [k]) + OrderAll(children[1..], path, k + 1)
  }

  // Every path below a node is listed, and only those.
  lemma {:induction false} OrderHolds(n: Node, path: Path, below: Path)
    ensures ValidPath(n, below) ==> path + below in Order(n, path)
    decreases n, 1
  {
    if ValidPath(n, below) {
      if below == [] {
        assert path + below == path;
        assert Order(n, path)[0] == path;
      } else {
        OrderAllHolds(n.children, path, 0, below[0], below[1..]);
        assert path + [0 + below[0]] + below[1..] == path + below;
      }
    }
  }

  lemma {:induction false} OrderAllHolds(children: seq<Node>, path: Path, k: nat, i: nat, below: Path)
    requires i < |children| && ValidPath(children[i], below)
    ensures path + [k + i] + below in OrderAll(children, path, k)
    decreases children, 1
  {
    if i == 0 {
      OrderHolds(children[0], path + [k], below);
    } else {
      OrderAllHolds(children[1..], path, k + 1, i - 1, below);
    }
  }

  lemma {:induction false} OrderIsValid(n: Node, path: Path, i: nat)
    requires i < |Order(n, path)|
    ensures var p := Order(n, path)[i]; |path| <= |p| && path == p[..|path|] && ValidPath(n, p[|path|..])
    decreases n, 1
  {
    if i > 0 {
      OrderAllIsValid(n.children, path, 0, i - 1);
    } else {
      assert path[|path|..] == [];
    }
  }

  lemma {:induction false} OrderAllIsValid(children: seq<Node>, path: Path, k: nat, i: nat)
    requires i < |OrderAll(children, path, k)|
    ensures var p := OrderAll(children, path, k)[i];
            && |path| < |p| && path == p[..|path|] && k <= p[|path|] < k + |children|
            && ValidPath(children[p[|path|] - k], p[|path| + 1..])
    decreases children, 1
  {
    var first := Order(children[0], path + [k]);
    if i < |first| {
      OrderIsValid(children[0], path + [k], i);
      var p := first[i];
      assert p[..|path| + 1] == path + [k] && p[|path|] == k;
      assert p[..|path|] == (path + [k])[..|path|];
    } else {
      OrderAllIsValid(children[1..], path, k + 1, i - |first|);
    }
  }

  // A node's children are listed after it.
  lemma {:induction false} ChildrenListedLater(n: Node, path: Path, i: nat, c: nat)
    requires i < |Order(n, path)|
    requires |path| <= |Order(n, path)[i]|
    requires var below := Order(n, path)[i][|path|..];
             ValidPath(n, below) && NodeAt(n, below).Branch? && c < |NodeAt(n, below).children|
    ensures Order(n, path)[i] + [c] in Order(n, path)[i + 1..]
    decreases n, 1
  {
    if i == 0 {
      assert path[|path|..] == [];
      ChildrenListedBelow(n, path, c);
      assert Order(n, path)[1..] == OrderAll(n.children, path, 0);
    } else {
      ChildrenListedLaterAll(n.children, path, 0, i - 1, c, n);
      assert Order(n, path)[i + 1..] == OrderAll(n.children, path, 0)[i..];
    }
  }

  lemma ChildrenListedBelow(n: Node, path: Path, c: nat)
    requires n.Branch? && c < |n.children|
    ensures path + [c] in OrderAll(n.children, path, 0)
  {
    OrderAllHolds(n.children, path, 0, c, []);
    assert path + [0 + c] + [] == path + [c];
  }

  lemma {:induction false} ChildrenListedLaterAll(children: seq<Node>, path: Path, k: nat, i: nat, c: nat, whole: Node)
    requires whole.Branch? && k + |children| == |whole.children| && children == whole.children[k..]
    requires i < |OrderAll(children, path, k)|
    requires var p := OrderAll(children, path, k)[i];
             |path| <= |p| && ValidPath(whole, p[|path|..]) && NodeAt(whole, p[|path|..]).Branch? && c < |NodeAt(whole, p[|path|..]).children|
    ensures OrderAll(children, path, k)[i] + [c] in OrderAll(children, path, k)[i + 1..]
    decreases children, 1
  {
    var first := Order(children[0], path + [k]);
    var rest := OrderAll(children[1..], path, k + 1);
    var all := OrderAll(children, path, k);
    var p := all[i];
    if i < |first| {
      OrderIsValid(children[0], path + [k], i);
      var below := p[|path|..];
      assert p[..|path| + 1] == path + [k] && below[0] == k && below[1..] == p[|path| + 1..];
      ChildrenListedLater(children[0], path + [k], i, c);
      var j :| 0 <= j < |first[i + 1..]| && first[i + 1..][j] == p + [c];
      assert all[i + 1..][j] == p + [c];
    } else {
      ChildrenListedLaterAll(children[1..], path, k + 1, i - |first|, c, whole);
      assert all[i + 1..] == rest[i - |first| + 1..];
    }
  }

  // ---- how a broken list is laid out ----

  function HeadName(n: Node): Option<string> {
    if n.Branch? && n.children != [] && n.children[0].Atom? then Some(AtomText(n.children[0])) else None
  }

  const SAMELINE: set<string> := {
    "if", "<", ">", "<=", ">=", "set!", "=", "!=", "+", "-", "*", "/", "the", "->", "and", "or", "logand",
    "logior", "logxor", "+!", "*!", "logtest?", "not", "zero?", "nonzero?"}

  const ALWAYS_BREAK: set<string> := {
    "when", "defun-debug", "countdown", "case", "defun", "defmethod", "let", "until", "while", "if", "dotimes",
    "cond", "else", "defbehavior", "rlet", "defstate", "behavior", "loop", "let*"}

  function StyleOf(n: Node): Style {
    match HeadName(n)
    case None => if n.Branch? && n.children != [] && n.children[0].Branch? && n.children[0].proper then Style(1, 1) else Style(1, 2)
    case Some(name) =>
      if name in {"defun", "defun-debug", "defbehavior", "defstate"} then Style(3, 2)
      else if name == "defmethod" then Style(if |n.children| >= 4 && n.children[2].Atom? then 4 else 3, 2)
      else if name in {"until", "while", "dotimes", "countdown", "when", "behavior", "lambda", "define"} then Style(2, 2)
      else if name in {"let", "let*", "rlet"} then Style(2, 2)
      else if name in SAMELINE then Style(2, 2 + |name|)
      else if name == "case" then Style(2, 2)
      else Style(1, 2)
  }

  // Breaking n entails breaking child k as well.
  predicate Companion(n: Node, k: nat) {
    && n.Branch? && k < |n.children| && n.children[k].Branch?
    && match HeadName(n)
       case None => false
       case Some(name) =>
         || (name in {"let", "let*", "rlet"} && k == 1 && |n.children[1].children| > 1)
         || (name == "cond" && k >= 1 && n.children[k].proper)
         || (name == "case" && k >= 2 && n.children[k].proper)
  }

  // The list must be broken whatever its length.
  predicate MustBreak(n: Node) {
    n.Branch? && n.proper && HeadName(n).Some? && HeadName(n).value in ALWAYS_BREAK
  }

  // ---- measured lengths ----

  function QuotesLength(quotes: seq<Quote>): nat {
    |QuoteTexts(quotes)|
  }

  // The first n lengths, each with the blank or parenthesis after it.
  function SumPlusOne(lens: seq<int>, n: nat): int
    requires n <= |lens|
  {
    if n == 0 then 0 else SumPlusOne(lens, n - 1) + lens[n - 1] + 1
  }

  // The longest of a first line and of the lengths from here to n on indented lines of their own.
  function MaxOf(first: int, lens: seq<int>, from: nat, n: nat, indent: nat): int
    requires from <= n <= |lens|
  {
    if n == from then first
    else
      var before := MaxOf(first, lens, from, n - 1, indent);
      var last := indent + lens[n - 1];
      if last > before then last else before
  }

  function Min(a: nat, b: nat): nat {
    if a < b then a else b
  }

  // The length of a node from the lengths of its children.
  function NodeLength(n: Node, style: Option<Style>, lens: seq<int>): int
    requires n.Branch? ==> |lens| == |n.children|
  {
    if n.Atom? then |AtomText(n)| + QuotesLength(n.quotes)
    else match style
      case None => 1 + QuotesLength(n.quotes) + SumPlusOne(lens, |lens|)
      case Some(st) =>
        var k := Min(|lens|, st.top);
        var first := 1 + QuotesLength(n.quotes) + SumPlusOne(lens, k) - if k > 0 then 1 else 0;
        MaxOf(first, lens, k, |lens|, st.indent)
  }

  function StyleAt(style: map<Path, Style>, path: Path): Option<Style> {
    if path in style then Some(style[path]) else None
  }

  function Length(n: Node, path: Path, style: map<Path, Style>): int
    decreases n, 0
  {
    NodeLength(n, StyleAt(style, path), if n.Branch? then Lengths(n.children, path, style) else [])
  }

  function Lengths(children: seq<Node>, path: Path, style: map<Path, Style>): seq<int>
    decreases children, 0
  {
    seq(|children|, i requires 0 <= i < |children| => Length(children[i], path + [i], style))
  }

  // ---- anchoring ----

  // The step up from this path is allowed: the parent is broken, or the node is its last child.
  ghost predicate StepAnchored(root: Node, style: map<Path, Style>, path: Path)
    requires ValidPath(root, path) && path != []
  {
    ParentPath(root, path);
    var parent := path[..|path| - 1];
    parent in style || path[|path| - 1] == |NodeAt(root, parent).children| - 1
  }

  // Every proper ancestor is broken unless the way down to it goes through its last child.
  ghost predicate Anchored(root: Node, style: map<Path, Style>, path: Path)
    requires ValidPath(root, path)
  {
    forall n :: 0 < n <= |path| ==> ValidPath(root, path[..n]) && StepAnchored(root, style, path[..n])
  }

  lemma {:induction false} PrefixIsValid(root: Node, path: Path, n: nat)
    requires ValidPath(root, path) && n <= |path|
    ensures ValidPath(root, path[..n])
    decreases |path| - n
  {
    if n < |path| {
      PrefixIsValid(root, path, n + 1);
      ParentPath(root, path[..n + 1]);
      assert path[..n + 1][..n] == path[..n];
    } else {
      assert path[..n] == path;
    }
  }

  ghost predicate Extends(style: map<Path, Style>, style': map<Path, Style>) {
    forall p :: p in style ==> p in style' && style'[p] == style[p]
  }

  // What holds of a list that has been broken completely.
  ghost predicate Settled(root: Node, style: map<Path, Style>, path: Path)
  {
    && IsList(root, path) && path in style && style[path] == StyleOf(NodeAt(root, path))
    && Anchored(root, style, path)
    && forall k :: Companion(NodeAt(root, path), k) ==> path + [k] in style
  }

  ghost function AllPaths(root: Node): set<Path> {
    set p | p in Order(root, [])
  }

  lemma ValidPathIsListed(root: Node, path: Path)
    requires ValidPath(root, path)
    ensures path in AllPaths(root)
  {
    OrderHolds(root, [], path);
    assert [] + path == path;
  }

  lemma ListedPathIsValid(root: Node, i: nat)
    requires i < |Order(root, [])|
    ensures ValidPath(root, Order(root, [])[i])
  {
    OrderIsValid(root, [], i);
    var p := Order(root, [])[i];
    assert p[0..] == p;
  }
}
