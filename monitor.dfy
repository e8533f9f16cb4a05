// Runtime support: allocation and copying of values and the shape-checked
// arithmetic on them. A fatal error (`die`) is the outcome `Died` carrying
// the diagnostic the runtime prints before it exits.

module Monitor {
  import opened Cupl

  /** What a runtime operation produces: a value, or a fatal error. */
  datatype Outcome = Done(value: Value) | Died(message: string)

  const AddFailed := "addition failed, operands of different sizes\n"
  const SubtractFailed := "subtract failed, operands of different sizes\n"
  const MultiplyUnsupported := "multiplication of non-scalars is not yet supported\n"
  const DivideUnsupported := "division of non-scalars is not yet supported\n"
  const PowerUnsupported := "power operation on non-scalars is not yet supported\n"
  const SqrtScalarOnly := "SQRT is only defined for scalars\n"

  // ---------------------------------------------------------------------
  // Elementwise specifications
  // ---------------------------------------------------------------------

  /** The elementwise sum of two buffers of equal length. */
  function Sum(a: seq<real>, b: seq<real>): (r: seq<real>)
    requires |a| == |b|
    ensures |r| == |a|
  {
    seq(|a|, n requires 0 <= n < |a| => a[n] + b[n])
  }

  /** The elementwise difference of two buffers of equal length. */
  function Difference(a: seq<real>, b: seq<real>): (r: seq<real>)
    requires |a| == |b|
    ensures |r| == |a|
  {
    seq(|a|, n requires 0 <= n < |a| => a[n] - b[n])
  }

  /** Every element negated. */
  function Negated(a: seq<real>): (r: seq<real>)
    ensures |r| == |a|
  {
    seq(|a|, n requires 0 <= n < |a| => -a[n])
  }

  /** A buffer of `len` zeros. */
  function Zeros(len: nat): (r: seq<real>)
    ensures |r| == len
  {
    seq(len, _ => 0.0)
  }

  /** Addition is commutative element by element. */
  lemma SumCommutes(a: seq<real>, b: seq<real>)
    requires |a| == |b|
    ensures Sum(a, b) == Sum(b, a)
  {
  }

  /** Subtracting a buffer from itself gives all zeros. */
  lemma DifferenceSelf(a: seq<real>)
    ensures Difference(a, a) == Zeros(|a|)
  {
  }

  /** Negating twice restores every element. */
  lemma NegatedInvolutive(a: seq<real>)
    ensures Negated(Negated(a)) == a
  {
  }

  /** Subtraction is addition of the negation. */
  lemma DifferenceIsSumOfNegated(a: seq<real>, b: seq<real>)
    requires |a| == |b|
    ensures Difference(a, b) == Sum(a, Negated(b))
  {
  }

  /** Subtraction undoes addition. */
  lemma DifferenceUndoesSum(a: seq<real>, b: seq<real>)
    requires |a| == |b|
    ensures Difference(Sum(a, b), b) == a
  {
  }

  // ---------------------------------------------------------------------
  // Allocation
  // ---------------------------------------------------------------------

  /** CONGRUENT: same rank, width and depth. */
  predicate Congruent(l: Value, r: Value)
  {
    l.rank == r.rank && l.width == r.width && l.depth == r.depth
  }

  /** Scalar-only operations read element 0 of their operands once both have
      rank 0, so a rank-0 operand must hold at least that element. */
  predicate HoldsScalar(v: Value)
  {
    v.rank == 0 ==> v.elements.Length > 0
  }

  /** Congruence is an equivalence on shapes. */
  lemma CongruentEquivalence(a: Value, b: Value, c: Value)
    ensures Congruent(a, a)
    ensures Congruent(a, b) ==> Congruent(b, a)
    ensures Congruent(a, b) && Congruent(b, c) ==> Congruent(a, c)
  {
  }

  /** make_scalar: turn the value `v` into a 1x1 value holding `x` in a
      fresh buffer. Its rank is left as it was. */
  method MakeScalar(v: Value, x: real) returns (r: Value)
    ensures Valid(r) && fresh(r.elements)
    ensures r.rank == v.rank && r.width == 1 && r.depth == 1
    ensures r.elements[..] == [x]
  {
    var buffer := new real[1];
    buffer[0] := x;
    r := v.(width := 1, depth := 1, elements := buffer);
  }

  /** copy_value: the same rank, width, depth and elements in a fresh
      buffer, so writes to the copy leave the original untouched. */
  method CopyValue(v: Value) returns (r: Value)
    requires Valid(v)
    ensures Valid(r) && fresh(r.elements)
    ensures r.rank == v.rank && r.width == v.width && r.depth == v.depth
    ensures r.elements[..] == v.elements[..]
  {
    var size := v.width * v.depth;
    var buffer := new real[size];
    forall k | 0 <= k < size {
      buffer[k] := v.elements[k];
    }
    r := v.(elements := buffer);
  }

  // ---------------------------------------------------------------------
  // Arithmetic
  // ---------------------------------------------------------------------

  /** cupl_add: fatal unless the operands are congruent; otherwise a fresh
      value of the right operand's shape holding the elementwise sum. */
  method Add(left: Value, right: Value) returns (r: Outcome)
    requires Valid(left) && Valid(right)
    ensures r.Died? <==> !Congruent(left, right)
    ensures r.Died? ==> r.message == AddFailed
    ensures r.Done? ==> Valid(r.value) && fresh(r.value.elements) && Congruent(r.value, right)
    ensures r.Done? ==> r.value.elements[..] == Sum(left.elements[..], right.elements[..])
  {
    if !Congruent(left, right) {
      return Died(AddFailed);
    }
    var result := CopyValue(right);
    var n := 0;
    while n < left.width * left.depth
      invariant 0 <= n <= left.width * left.depth
      invariant forall k :: 0 <= k < n ==> result.elements[k] == left.elements[k] + right.elements[k]
    {
      result.elements[n] := left.elements[n] + right.elements[n];
      n := n + 1;
    }
    assert result.elements[..] == Sum(left.elements[..], right.elements[..]);
    return Done(result);
  }

  /** cupl_subtract: fatal unless the operands are congruent; otherwise a
      fresh value of the right operand's shape holding left minus right. */
  method Subtract(left: Value, right: Value) returns (r: Outcome)
    requires Valid(left) && Valid(right)
    ensures r.Died? <==> !Congruent(left, right)
    ensures r.Died? ==> r.message == SubtractFailed
    ensures r.Done? ==> Valid(r.value) && fresh(r.value.elements) && Congruent(r.value, right)
    ensures r.Done? ==> r.value.elements[..] == Difference(left.elements[..], right.elements[..])
  {
    if !Congruent(left, right) {
      return Died(SubtractFailed);
    }
    var result := CopyValue(right);
    var n := 0;
    while n < left.width * left.depth
      invariant 0 <= n <= left.width * left.depth
      invariant forall k :: 0 <= k < n ==> result.elements[k] == left.elements[k] - right.elements[k]
    {
      result.elements[n] := left.elements[n] - right.elements[n];
      n := n + 1;
    }
    assert result.elements[..] == Difference(left.elements[..], right.elements[..]);
    return Done(result);
  }

  /** cupl_multiply: only scalar times scalar is supported; the product is a
      fresh 1x1 value. The result's rank is never assigned. */
  method Multiply(left: Value, right: Value) returns (r: Outcome)
    requires Valid(left) && Valid(right)
    requires left.rank == 0 && right.rank == 0 ==> HoldsScalar(left) && HoldsScalar(right)
    ensures r.Died? <==> !(left.rank == 0 && right.rank == 0)
    ensures r.Died? ==> r.message == MultiplyUnsupported
    ensures r.Done? ==> Valid(r.value) && fresh(r.value.elements)
    ensures r.Done? ==> r.value.width == 1 && r.value.depth == 1
    ensures r.Done? ==> r.value.elements[0] == left.elements[0] * right.elements[0]
  {
    if left.rank == 0 && right.rank == 0 {
      var uninitialised: Value := *;
      var result := MakeScalar(uninitialised, 0.0);
      result.elements[0] := left.elements[0] * right.elements[0];
      return Done(result);
    } else {
      return Died(MultiplyUnsupported);
    }
  }

  /** cupl_divide: only scalar by scalar is supported; the quotient is a
      fresh 1x1 value. The result's rank is never assigned. */
  method Divide(left: Value, right: Value) returns (r: Outcome)
    requires Valid(left) && Valid(right)
    requires left.rank == 0 && right.rank == 0 ==> HoldsScalar(left) && HoldsScalar(right)
    requires left.rank == 0 && right.rank == 0 ==> right.elements[0] != 0.0
    ensures r.Died? <==> !(left.rank == 0 && right.rank == 0)
    ensures r.Died? ==> r.message == DivideUnsupported
    ensures r.Done? ==> Valid(r.value) && fresh(r.value.elements)
    ensures r.Done? ==> r.value.width == 1 && r.value.depth == 1
    ensures r.Done? ==> r.value.elements[0] == left.elements[0] / right.elements[0]
  {
    if left.rank == 0 && right.rank == 0 {
      var uninitialised: Value := *;
      var result := MakeScalar(uninitialised, 0.0);
      result.elements[0] := left.elements[0] / right.elements[0];
      return Done(result);
    } else {
      return Died(DivideUnsupported);
    }
  }

  /** cupl_power: only scalars are accepted. The power is computed into a
      local value that is never returned, so what the caller receives on
      success is indeterminate. `pow` is the C library function. */
  method Power(left: Value, right: Value, pow: (real, real) -> real) returns (r: Outcome)
    requires Valid(left) && Valid(right)
    requires left.rank == 0 && right.rank == 0 ==> HoldsScalar(left) && HoldsScalar(right)
    ensures r.Died? <==> !(left.rank == 0 && right.rank == 0)
    ensures r.Died? ==> r.message == PowerUnsupported
  {
    if left.rank == 0 && right.rank == 0 {
      var uninitialised: Value := *;
      var result := MakeScalar(uninitialised, 0.0);
      result.elements[0] := pow(left.elements[0], right.elements[0]);
      var unreturned: Value := *;
      return Done(unreturned);
    } else {
      return Died(PowerUnsupported);
    }
  }

  /** cupl_uminus: a fresh value of the operand's shape with every element
      negated. Any rank is accepted. */
  method UnaryMinus(right: Value) returns (r: Value)
    requires Valid(right)
    ensures Valid(r) && fresh(r.elements) && Congruent(r, right)
    ensures r.elements[..] == Negated(right.elements[..])
  {
    r := CopyValue(right);
    var n := 0;
    while n < right.width * right.depth
      invariant 0 <= n <= right.width * right.depth
      invariant forall k :: 0 <= k < n ==> r.elements[k] == -right.elements[k]
      invariant forall k :: n <= k < r.elements.Length ==> r.elements[k] == right.elements[k]
    {
      r.elements[n] := -r.elements[n];
      n := n + 1;
    }
    assert r.elements[..] == Negated(right.elements[..]);
  }

  /** cupl_sqrt: fatal for any rank but 0; otherwise a fresh 1x1 value
      holding the square root. The result's rank is never assigned. `sqrt`
      is the C library function. */
  method Sqrt(right: Value, sqrt: real -> real) returns (r: Outcome)
    requires Valid(right) && HoldsScalar(right)
    ensures r.Died? <==> right.rank != 0
    ensures r.Died? ==> r.message == SqrtScalarOnly
    ensures r.Done? ==> Valid(r.value) && fresh(r.value.elements)
    ensures r.Done? ==> r.value.width == 1 && r.value.depth == 1
    ensures r.Done? ==> r.value.elements[0] == sqrt(right.elements[0])
  {
    if right.rank != 0 {
      return Died(SqrtScalarOnly);
    } else {
      var uninitialised: Value := *;
      var result := MakeScalar(uninitialised, 0.0);
      result.elements[0] := sqrt(right.elements[0]);
      return Done(result);
    }
  }

  // ---------------------------------------------------------------------
  // Properties of the operations, stated through their specifications
  // ---------------------------------------------------------------------

  /** Adding congruent values in either order yields the same elements. */
  method AddCommutes(a: Value, b: Value) returns (ab: Outcome, ba: Outcome)
    requires Valid(a) && Valid(b) && Congruent(a, b)
    ensures ab.Done? && ba.Done?
    ensures ab.value.elements[..] == ba.value.elements[..]
  {
    ab := Add(a, b);
    ba := Add(b, a);
    SumCommutes(a.elements[..], b.elements[..]);
  }

  /** Subtracting a value from itself yields zeros of the same shape. */
  method SubtractSelf(a: Value) returns (d: Outcome)
    requires Valid(a)
    ensures d.Done? && Congruent(d.value, a)
    ensures d.value.elements[..] == Zeros(a.width * a.depth)
  {
    d := Subtract(a, a);
    DifferenceSelf(a.elements[..]);
  }

  /** Applying unary minus twice restores the shape and every element. */
  method UnaryMinusTwice(a: Value) returns (b: Value)
    requires Valid(a)
    ensures Congruent(b, a) && b.elements != a.elements
    ensures b.elements[..] == a.elements[..]
  {
    var once := UnaryMinus(a);
    b := UnaryMinus(once);
    NegatedInvolutive(a.elements[..]);
  }

  /** Adding a value and then subtracting the same right operand gives back
      the left operand's elements. */
  method AddThenSubtract(a: Value, b: Value) returns (c: Outcome)
    requires Valid(a) && Valid(b) && Congruent(a, b)
    ensures c.Done? && Congruent(c.value, b)
    ensures c.value.elements[..] == a.elements[..]
  {
    var s := Add(a, b);
    c := Subtract(s.value, b);
    DifferenceUndoesSum(a.elements[..], b.elements[..]);
  }
}
