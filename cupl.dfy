// Basic types of the CUPL interpreter: parse-tree nodes and their right-linked
// chains, the rank-tagged value aggregate, and row-major subscripting.

module Cupl {
  import opened NodeType

  // ---------------------------------------------------------------------
  // C integer division, which truncates toward zero
  // ---------------------------------------------------------------------

  /** The magnitude of an int. */
  function Abs(a: int): nat
  {
    if a < 0 then -a else a
  }

  /** C's `a / b` on int: the quotient truncated toward zero. What is left
      over, `a - b * q`, is smaller than `b` in magnitude and is zero or has
      the sign of the dividend, which determines the quotient uniquely. */
  function Quot(a: int, b: int): (q: int)
    requires b != 0
    ensures Abs(a - b * q) < Abs(b)
    ensures a - b * q == 0 || (a - b * q < 0) == (a < 0)
  {
    TruncatedRemainder(a, b);
    if (a < 0) == (b < 0) then Abs(a) / Abs(b) else -(Abs(a) / Abs(b))
  }

  /** What truncating division leaves over is the remainder of the
      magnitudes, carrying the dividend's sign. */
  lemma TruncatedRemainder(a: int, b: int)
    requires b != 0
    ensures var q: int := if (a < 0) == (b < 0) then Abs(a) / Abs(b) else -(Abs(a) / Abs(b));
            a - b * q == if a < 0 then -(Abs(a) % Abs(b)) else Abs(a) % Abs(b)
  {
    var x: int, y: int := Abs(a), Abs(b);
    var q0, r0 := x / y, x % y;
    assert x == y * q0 + r0;
    if a >= 0 && b > 0 {
      assert a - b * q0 == x - y * q0;
    } else if a < 0 && b < 0 {
      assert a - b * q0 == -x + y * q0;
    } else if a >= 0 {
      assert a - b * -q0 == x - y * q0;
    } else {
      assert a - b * -q0 == -x + y * q0;
    }
  }

  /** C's `a % b` on int: smaller than the divisor in magnitude, and zero or
      of the dividend's sign. */
  function Rem(a: int, b: int): (r: int)
    requires b != 0
    ensures Abs(r) < Abs(b)
    ensures r == 0 || (r < 0) == (a < 0)
  {
    a - b * Quot(a, b)
  }

  /** For a non-negative dividend and a positive divisor C's operators agree
      with the mathematical quotient and remainder. */
  lemma QuotRemNonNegative(a: int, b: int)
    requires 0 <= a && 0 < b
    ensures Quot(a, b) == a / b && Rem(a, b) == a % b
    ensures 0 <= Rem(a, b) < b
  {
  }

  // ---------------------------------------------------------------------
  // Parse-tree nodes
  // ---------------------------------------------------------------------

  /** A node pointer: NULL or a reference to a node. */
  datatype Link = Null | Ref(node: Node)

  /** A parse-tree node. The union of the source is split by what it holds:
      a number, the spelling of an identifier or string, or the left and
      right links of an interior node, whose `kind` is its syntax class. */
  datatype Node =
    | NumberNode(numval: real)
    | IdentifierNode(name: string)
    | StringNode(text: string)
    | Interior(kind: NodeClass, left: Link, right: Link)

  /** The `type` field of a node. */
  function Class(n: Node): (c: NodeClass)
  {
    match n
    case NumberNode(_) => Number
    case IdentifierNode(_) => Identifier
    case StringNode(_) => String
    case Interior(k, _, _) => k
  }

  /** An interior node never carries an atom's syntax class. */
  predicate WellTagged(n: Node)
  {
    n.Interior? ==> !Atomic(n.kind)
  }

  /** ATOMIC on a node's type tells exactly which nodes hold a datum rather
      than links. */
  lemma AtomicIffLeaf(n: Node)
    requires WellTagged(n)
    ensures Atomic(Class(n)) <==> !n.Interior?
  {
  }

  /** A right-linked chain: every node reached by following right links is
      interior, so that its right link exists. */
  predicate IsChain(t: Link)
  {
    t.Ref? ==> t.node.Interior? && IsChain(t.node.right)
  }

  /** `s` lists, in order, the nodes visited from `t` by following right
      links, up to the first NULL right link. */
  ghost predicate WalksFrom(t: Link, s: seq<Node>)
  {
    (t.Null? <==> s == []) &&
    (s != [] ==> s[0] == t.node && s[|s| - 1].Interior? && s[|s| - 1].right.Null?) &&
    (forall k :: 0 <= k < |s| - 1 ==> s[k].Interior? && s[k].right == Ref(s[k + 1]))
  }

  /** for_cdr: the nodes a `for_cdr(x, t)` loop binds `x` to, in order. */
  function CdrChain(t: Link): (s: seq<Node>)
    requires IsChain(t)
    ensures WalksFrom(t, s)
  {
    match t
    case Null => []
    case Ref(n) => [n] + CdrChain(n.right)
  }

  /** The walk is determined by its start: any sequence that walks from `t`
      is the one for_cdr visits. */
  lemma {:induction false} WalkUnique(t: Link, s: seq<Node>)
    requires IsChain(t) && WalksFrom(t, s)
    ensures s == CdrChain(t)
  {
    if t.Ref? {
      var rest := s[1..];
      if |s| == 1 {
        assert t.node.right.Null?;
      } else {
        assert s[0].right == Ref(s[1]);
        forall k | 0 <= k < |rest| - 1
          ensures rest[k].Interior? && rest[k].right == Ref(rest[k + 1])
        {
          assert s[k + 1].right == Ref(s[k + 2]);
        }
        assert WalksFrom(t.node.right, rest);
      }
      WalkUnique(t.node.right, rest);
      assert s == [s[0]] + rest;
    }
  }

  // ---------------------------------------------------------------------
  // Values
  // ---------------------------------------------------------------------

  /** A CUPL value: rank 0 (scalar), 1 (vector) or 2 (matrix), a width and a
      depth, and a pointer to the element buffer. Like the C struct, a copy
      of a Value shares its buffer. */
  datatype Value = Value(rank: int, width: int, depth: int, elements: array<real>)

  /** The value invariant: the buffer holds exactly width*depth scalars. */
  predicate Valid(v: Value)
  {
    0 <= v.width && 0 <= v.depth &&
    v.elements.Length == v.width * v.depth
  }

  // ---------------------------------------------------------------------
  // Subscripting
  // ---------------------------------------------------------------------

  /** SUB: the flat offset of element (i, j), row i and column j. */
  function Sub(v: Value, i: int, j: int): (n: int)
  {
    i * v.width + j
  }

  /** SUBI: the row of flat offset n. */
  function SubI(v: Value, n: int): (i: int)
    requires v.width != 0
  {
    Quot(n, v.width)
  }

  /** SUBJ: the column of flat offset n. */
  function SubJ(v: Value, n: int): (j: int)
    requires v.width != 0
  {
    Rem(n, v.width)
  }

  /** Index to pair and back: SUB of SUBI and SUBJ addresses offset n again
      (for every n, since C's quotient and remainder recombine exactly). */
  lemma IndexToPair(v: Value, n: int)
    requires v.width != 0
    ensures Sub(v, SubI(v, n), SubJ(v, n)) == n
  {
  }

  /** Multiplying by a positive width keeps the order of the factors. */
  lemma MulBelow(q: int, w: int, d: int)
    requires 0 < w && d <= q
    ensures d * w <= q * w
  {
  }

  /** Every offset inside the buffer has a row below the depth and a column
      below the width. */
  lemma {:induction false} SubscriptBounds(v: Value, n: int)
    requires 0 < v.width && 0 <= n < v.width * v.depth
    ensures 0 <= SubI(v, n) < v.depth
    ensures 0 <= SubJ(v, n) < v.width
  {
    var w := v.width;
    QuotRemNonNegative(n, w);
    var q := n / w;
    assert n == q * w + n % w;
    if q >= v.depth {
      MulBelow(q, w, v.depth);
      assert false;
    }
  }

  /** Quotient and remainder are unique: i*w + j with 0 <= j < w divides
      back into i and j. */
  lemma {:induction false} DivUnique(n: int, w: int, i: int, j: int)
    requires 0 < w && 0 <= j < w && n == i * w + j
    ensures n / w == i && n % w == j
  {
    var q, r := n / w, n % w;
    assert q * w + r == i * w + j;
    if q > i {
      MulBelow(q, w, i + 1);
      assert false;
    } else if q < i {
      MulBelow(i, w, q + 1);
      assert false;
    }
  }

  /** Pair to index and back: the offset of (i, j) lies inside the buffer and
      SUBI and SUBJ recover i and j from it. */
  lemma {:induction false} PairToIndex(v: Value, i: int, j: int)
    requires 0 <= i < v.depth && 0 <= j < v.width
    ensures 0 <= Sub(v, i, j) < v.width * v.depth
    ensures SubI(v, Sub(v, i, j)) == i && SubJ(v, Sub(v, i, j)) == j
  {
    var w := v.width;
    var n := Sub(v, i, j);
    MulBelow(v.depth - 1, w, i);
    assert n < v.width * v.depth;
    QuotRemNonNegative(n, w);
    DivUnique(n, w, i, j);
  }

  /** `*SUB(v, i, j)`: the element at row i, column j. */
  function At(v: Value, i: int, j: int): (x: real)
    reads v.elements
    requires Valid(v) && 0 <= i < v.depth && 0 <= j < v.width
  {
    PairToIndex(v, i, j);
    v.elements[Sub(v, i, j)]
  }

  /** Reading through SUB at the row and column of an offset reads the
      element at that offset. */
  lemma {:induction false} AtIndex(v: Value, n: int)
    requires Valid(v) && 0 < v.width && 0 <= n < v.width * v.depth
    ensures 0 <= SubI(v, n) < v.depth && 0 <= SubJ(v, n) < v.width
    ensures At(v, SubI(v, n), SubJ(v, n)) == v.elements[n]
  {
    SubscriptBounds(v, n);
    IndexToPair(v, n);
  }
}
