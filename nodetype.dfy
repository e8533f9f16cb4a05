// Syntax classes of parse-tree nodes and the token-class predicates that the
// consistency checker uses to decide which operands of a node are label
// references, variable assignments or variable reads.

module NodeType {

  /** The syntax class of a node: a parser token code. The classes the
      token-class predicates name are listed; every other token (STATEMENT,
      PLUS, BLOCK, END, WRITE, ...) is `Other`, carrying its code. */
  datatype NodeClass =
    | Identifier | Number | String
    | Go | Og | Perform
    | Let | Read | Iterate
    | For | Label | Allocate | Watch | From
    | Other(token: int)

  /** Classes of leaf nodes. */
  const AtomClasses: set<NodeClass> := {Identifier, Number, String}

  /** Classes whose operand names a statement label. */
  const StatementLabelRefs: set<NodeClass> := {Go, Og}

  /** Classes whose operand names a block label. */
  const BlockLabelRefs: set<NodeClass> := {Perform}

  /** Classes that assign to the variable in their left operand. */
  const VariableSetters: set<NodeClass> := {Let, Read, Iterate}

  /** Classes whose left operand is not a variable read. */
  const LeftOperandNotRead: set<NodeClass> :=
    {For, Go, Og, Label, Allocate, Watch, Iterate, From, Perform}

  /** ATOMIC: the node is a leaf. */
  function Atomic(n: NodeClass): (b: bool)
    ensures b <==> n in AtomClasses
  {
    n == Identifier || n == Number || n == String
  }

  /** SLABELREF: the node references a statement label. */
  function StatementLabelRef(n: NodeClass): (b: bool)
    ensures b <==> n in StatementLabelRefs
  {
    n == Go || n == Og
  }

  /** BLABELREF: the node references a block label. */
  function BlockLabelRef(n: NodeClass): (b: bool)
    ensures b <==> n in BlockLabelRefs
  {
    n == Perform
  }

  /** VARSET: the node sets a variable. */
  function VarSet(n: NodeClass): (b: bool)
    ensures b <==> n in VariableSetters
  {
    n == Let || n == Read || n == Iterate
  }

  /** LEFTREF: the (non-VARSET) node reads its left operand as a variable. */
  function LeftRef(n: NodeClass): (b: bool)
    ensures !b <==> n in LeftOperandNotRead
  {
    n != For && n != Go && n != Og && n != Label
    && n != Allocate && n != Watch
    && n != Iterate && n != From
    && n != Perform
  }

  /** RIGHTREF: the (non-VARSET) node reads its right operand. */
  function RightRef(n: NodeClass): (b: bool)
    ensures !b <==> n == Perform
  {
    n != Perform
  }

  /** A node cannot reference both a statement label and a block label. */
  lemma LabelRefsDisjoint(n: NodeClass)
    ensures !(StatementLabelRef(n) && BlockLabelRef(n))
  {
  }

  /** No label-referencing node counts its left operand (the label) as a
      variable read. */
  lemma LabelRefsReadNoLeftOperand(n: NodeClass)
    requires StatementLabelRef(n) || BlockLabelRef(n)
    ensures !LeftRef(n)
  {
  }

  /** Leaves neither reference labels nor set variables, and every leaf class
      counts as reading both operand positions. */
  lemma AtomsAreNotControl(n: NodeClass)
    requires Atomic(n)
    ensures !StatementLabelRef(n) && !BlockLabelRef(n) && !VarSet(n)
    ensures LeftRef(n) && RightRef(n)
  {
  }

  /** Among the variable setters, ITERATE is the only one whose left operand
      is not also a variable read; LET and READ have LEFTREF. */
  lemma VarSetLeftRef(n: NodeClass)
    requires VarSet(n)
    ensures LeftRef(n) <==> n != Iterate
  {
  }

  /** PERFORM is the only class that reads neither operand. */
  lemma ReadsNoOperand(n: NodeClass)
    ensures !LeftRef(n) && !RightRef(n) <==> n == Perform
  {
  }
}
