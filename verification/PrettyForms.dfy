/** The layout of the forms of the language, form by form. */
module PrettyForms {
  import opened Options
  import opened PrettyNodes
  import opened PrettyLayout

  /** Whether a form is always broken, how many of its elements stay on its first line, and how far
      the others are indented. */
  datatype FormStyle = FormStyle(always: bool, top: nat, indent: nat)

  // A definition keeps its name and its parameters on the first line.
  predicate IsDefinition(name: string) {
    name == "defun" || name == "defun-debug" || name == "defbehavior" || name == "defstate"
  }

  // One element after the name, and always broken.
  predicate IsBlock(name: string) {
    || name == "until" || name == "while" || name == "dotimes" || name == "countdown" || name == "when" || name == "behavior"
    || name == "let" || name == "let*" || name == "rlet" || name == "case"
  }

  // Only the name on the first line, and always broken.
  predicate IsClauses(name: string) {
    name == "cond" || name == "else" || name == "loop"
  }

  // The operands stand below each other, after the operator.
  predicate IsOperator(name: string) {
    || name == "if" || name == "<" || name == ">" || name == "<=" || name == ">=" || name == "set!" || name == "=" || name == "!="
    || name == "+" || name == "-" || name == "*" || name == "/" || name == "the" || name == "->" || name == "and" || name == "or"
    || name == "logand" || name == "logior" || name == "logxor" || name == "+!" || name == "*!" || name == "logtest?"
    || name == "not" || name == "zero?" || name == "nonzero?"
  }

  predicate KeepsOneLine(name: string) {
    name == "lambda" || name == "define"
  }

  ghost predicate HasStyle(n: Node, style: FormStyle) {
    StyleOf(n) == Style(style.top, style.indent) && (MustBreak(n) <==> n.Branch? && n.proper && style.always)
  }

  lemma DefinitionStyle(n: Node, name: string)
    requires HeadName(n) == Some(name) && IsDefinition(name)
    ensures HasStyle(n, FormStyle(true, 3, 2))
  {
  }

  lemma MethodStyle(n: Node)
    requires HeadName(n) == Some("defmethod")
    ensures HasStyle(n, FormStyle(true, if |n.children| >= 4 && n.children[2].Atom? then 4 else 3, 2))
  {
  }

  lemma BlockStyle(n: Node, name: string)
    requires HeadName(n) == Some(name) && IsBlock(name)
    ensures HasStyle(n, FormStyle(true, 2, 2))
  {
  }

  lemma ClausesStyle(n: Node, name: string)
    requires HeadName(n) == Some(name) && IsClauses(name)
    ensures HasStyle(n, FormStyle(true, 1, 2))
  {
  }

  lemma OperatorStyle(n: Node, name: string)
    requires HeadName(n) == Some(name) && IsOperator(name)
    ensures HasStyle(n, FormStyle(name == "if", 2, 2 + |name|))
  {
  }

  lemma OneLineStyle(n: Node, name: string)
    requires HeadName(n) == Some(name) && KeepsOneLine(name)
    ensures HasStyle(n, FormStyle(false, 2, 2))
  {
  }

  // Any other name.
  lemma OtherStyle(n: Node, name: string)
    requires HeadName(n) == Some(name) && name != "defmethod"
    requires !IsDefinition(name) && !IsBlock(name) && !IsClauses(name) && !IsOperator(name) && !KeepsOneLine(name)
    ensures HasStyle(n, FormStyle(false, 1, 2))
  {
    NotSameLine(name);
    NotAlwaysBroken(name);
    assert name !in {"until", "while", "dotimes", "countdown", "when", "behavior", "lambda", "define"};
    assert StyleOf(n) == Style(1, 2);
  }

  lemma NotSameLine(name: string)
    requires !IsOperator(name)
    ensures name !in SAMELINE
  {
  }

  lemma NotAlwaysBroken(name: string)
    requires name != "defmethod" && !IsDefinition(name) && !IsBlock(name) && !IsClauses(name) && name != "if"
    ensures name !in ALWAYS_BREAK
  {
  }

  // A list whose first element is no atom.
  lemma NamelessStyle(n: Node)
    requires n.Branch? && n.children != [] && n.children[0].Branch?
    ensures HasStyle(n, FormStyle(false, 1, if n.children[0].proper then 1 else 2))
  {
  }

  // ---- what is broken along ----

  // A let takes its bindings along if there are several.
  lemma LetTakesBindings(n: Node, name: string, k: nat)
    requires n.Branch? && HeadName(n) == Some(name) && (name == "let" || name == "let*" || name == "rlet")
    ensures Companion(n, k) <==> k == 1 < |n.children| && n.children[1].Branch? && |n.children[1].children| > 1
  {
  }

  // A cond takes all its clauses along.
  lemma CondTakesClauses(n: Node, k: nat)
    requires n.Branch? && HeadName(n) == Some("cond")
    ensures Companion(n, k) <==> 1 <= k < |n.children| && n.children[k].Branch? && n.children[k].proper
  {
  }

  // A case takes its clauses along, but not its key.
  lemma CaseTakesClauses(n: Node, k: nat)
    requires n.Branch? && HeadName(n) == Some("case")
    ensures Companion(n, k) <==> 2 <= k < |n.children| && n.children[k].Branch? && n.children[k].proper
  {
  }

  lemma OthersTakeNothing(n: Node, k: nat)
    requires HeadName(n) == None || HeadName(n).value !in {"let", "let*", "rlet", "cond", "case"}
    ensures !Companion(n, k)
  {
  }
}
