# CUPL value runtime, in Dafny

This project models the implemented core of the CUPL interpreter (Cornell
University Programming Language): the parts whose source contains working
code. That core has three parts.

- **The value runtime** (`monitor.c`). A CUPL value is a rank-tagged
  aggregate: a rank (0 scalar, 1 vector, 2 matrix), a width, a depth and a
  flat buffer of `width*depth` scalars. The runtime builds scalars, deep-copies
  values, and does shape-checked arithmetic into freshly allocated buffers.
  A fatal error (`die`) prints a message and exits.
- **Basic types** (`cupl.h`). The parse-tree node, the `for_cdr` walk along
  right links, the `value` struct, and the row-major subscript macros `SUB`,
  `SUBI` and `SUBJ`.
- **Token-class predicates** (`nodetype.h`). The predicates that tell the
  consistency checker which nodes are atoms, which reference labels, which set
  variables, and which operands count as variable reads.

Files and modules:

- `nodetype.dfy`, module `NodeType`. The datatype `NodeClass` holds the tokens
  the predicates name, plus `Other(token)` for every other token. It defines
  `Atomic`, `StatementLabelRef`, `BlockLabelRef`, `VarSet`, `LeftRef` and
  `RightRef`, with their exact characterisations and the lemmas that relate
  them.
- `cupl.dfy`, module `Cupl`. `Node` splits the C union into number, identifier
  and string leaves and interior nodes with two `Link`s (`Null` or
  `Ref(node)`). `CdrChain` is the `for_cdr` walk. `Value` is the `value`
  struct: a datatype whose `elements` field is an `array<real>`, so copies of
  a `Value` share one buffer, as C struct copies do. `Valid` is the value
  invariant: the buffer holds exactly `width*depth` scalars. `Sub`, `SubI`
  and `SubJ` are the subscript macros applied to simple operands, and `At`
  reads the element that `SUB` points to. `SubI` and `SubJ` use C's
  truncating `/` and `%` (`Quot`, `Rem`).
- `monitor.dfy`, module `Monitor`. It holds `MakeScalar`, `CopyValue`, `Add`,
  `Subtract`, `Multiply`, `Divide`, `Power`, `UnaryMinus` and `Sqrt` as
  methods. A fatal error is the outcome `Died(message)`, with the runtime's
  own message text. `Multiply`, `Divide`, `Power` and `Sqrt` read element 0
  of a rank-0 operand, so they require such an operand to hold at least one
  element (`HoldsScalar`). `make_scalar` builds exactly such 1x1 buffers; no
  code shown assigns a rank, so the model does not tie rank 0 to a 1x1 shape
  in general. `Add`, `Subtract` and `UnaryMinus` copy an operand and then
  overwrite the copy's buffer in a loop, as the C code does. They are proved
  against the elementwise specifications `Sum`, `Difference` and `Negated`.
  Lemmas about those specifications give commutativity, `a - a = 0`,
  double negation and `(a + b) - b = a`. Client methods carry these properties
  back to values.

Behaviour of the code that the model reflects rather than corrects:

- `make_scalar` never assigns `rank`. `MakeScalar` keeps the rank of the
  struct it is given. `Multiply`, `Divide`, `Power` and `Sqrt` hand it an
  uninitialised local (a havoc value), so nothing is promised about the rank of
  their results.
- `cupl_power` computes its result into a local and falls off the end of the
  function without returning it. `Power` returns an indeterminate value on
  success, and its contract only says when it is fatal.
- `cupl_multiply` and `cupl_divide` die with "not yet supported" for every
  operand that is not a scalar (monitor.c:131, monitor.c:146), so matrix
  products are not available. The model follows the code.

## Model

| member | source | states |
|---|---|---|
| NodeType.Atomic | nodetype.h:13 | ATOMIC holds exactly for IDENTIFIER, NUMBER and STRING |
| NodeType.StatementLabelRef | nodetype.h:15 | SLABELREF holds exactly for GO and OG |
| NodeType.BlockLabelRef | nodetype.h:17 | BLABELREF holds exactly for PERFORM |
| NodeType.VarSet | nodetype.h:19 | VARSET holds exactly for LET, READ and ITERATE |
| NodeType.LeftRef | nodetype.h:21-24 | LEFTREF is false exactly for FOR, GO, OG, LABEL, ALLOCATE, WATCH, ITERATE, FROM and PERFORM |
| NodeType.RightRef | nodetype.h:26 | RIGHTREF is false exactly for PERFORM |
| NodeType.LabelRefsDisjoint | nodetype.h:15-17 | no class references both a statement label and a block label |
| NodeType.LabelRefsReadNoLeftOperand | nodetype.h:15-24 | every statement- or block-label-referencing class lacks LEFTREF, so its label operand is never counted as a variable read |
| NodeType.AtomsAreNotControl | nodetype.h:13-26 | atoms neither reference labels nor set variables, and have LEFTREF and RIGHTREF |
| NodeType.VarSetLeftRef | nodetype.h:19-24 | among variable setters, only ITERATE lacks LEFTREF |
| NodeType.ReadsNoOperand | nodetype.h:21-26 | PERFORM is the only class that reads neither operand |
| Cupl.Class | cupl.h:37 | the node's `type` field: the syntax class of an interior node, and IDENTIFIER, NUMBER or STRING for the matching leaf (related to ATOMIC by AtomicIffLeaf) |
| Cupl.AtomicIffLeaf | cupl.h:34-62 | for a well-tagged node, ATOMIC of its type holds exactly when the node stores a datum rather than left/right links |
| Cupl.CdrChain | cupl.h:69 | for_cdr visits the start node first, each next node is the previous one's right link, every visited node is interior, and the walk ends at the first NULL right link (empty for a NULL start) |
| Cupl.WalkUnique | cupl.h:69 | any sequence with those walk properties from a start link is exactly the sequence for_cdr visits |
| Cupl.Quot | cupl.h:106 | C's int `/`: what `a - b*q` leaves is smaller than b in magnitude and zero or of the dividend's sign, so q is the quotient truncated toward zero |
| Cupl.Rem | cupl.h:107 | C's int `%`: smaller than the divisor in magnitude, and zero or of the dividend's sign |
| Cupl.TruncatedRemainder | cupl.h:106-107 | the truncated quotient leaves the remainder of the magnitudes, carrying the dividend's sign |
| Cupl.Valid | cupl.h:72-78 | the value invariant that copy_value relies on (monitor.c:69-71): width and depth are non-negative and the buffer holds exactly width*depth scalars; the operations require it and the producing ones ensure it |
| Cupl.Sub | cupl.h:105 | SUB: the flat offset i*width + j of row i, column j; its round trip and bounds are stated by IndexToPair and PairToIndex |
| Cupl.SubI | cupl.h:106 | SUBI: the row of an offset, by C's truncating division; bounded by SubscriptBounds and inverted by PairToIndex |
| Cupl.SubJ | cupl.h:107 | SUBJ: the column of an offset, by C's `%`; bounded by SubscriptBounds and inverted by PairToIndex |
| Cupl.At | cupl.h:105 | the element SUB(v, i, j) points to, defined for in-range row and column; AtIndex ties it to the flat buffer |
| Cupl.QuotRemNonNegative | cupl.h:106-107 | for a non-negative offset and positive width, C's truncating `/` and `%` equal the mathematical quotient and remainder, and the remainder is below the width |
| Cupl.IndexToPair | cupl.h:105-107 | SUB(v, SUBI(v, n), SUBJ(v, n)) addresses offset n, for every n and non-zero width |
| Cupl.SubscriptBounds | cupl.h:106-107 | for 0 <= n < width*depth, SUBI is a row below depth and SUBJ a column below width |
| Cupl.PairToIndex | cupl.h:105-107 | for a row below depth and a column below width, SUB gives an offset inside the width*depth buffer from which SUBI and SUBJ recover the row and column |
| Cupl.AtIndex | cupl.h:105-107 | for an offset inside the buffer, reading through SUB at its SUBI row and SUBJ column reads the element at that offset |
| Monitor.Congruent | monitor.c:81-83 | CONGRUENT: same rank, width and depth; Add and Subtract die exactly when it fails, and CongruentEquivalence shows it is an equivalence |
| Monitor.HoldsScalar | monitor.c:127 | a rank-0 operand holds the element 0 that multiply, divide, power and sqrt read |
| Monitor.CongruentEquivalence | monitor.c:81-83 | CONGRUENT is reflexive, symmetric and transitive |
| Monitor.MakeScalar | monitor.c:56-62 | the result is 1x1 with a fresh one-element buffer holding the argument, and keeps the rank it had |
| Monitor.CopyValue | monitor.c:64-73 | the copy has the same rank, width, depth and elements in a fresh buffer, so later writes to it cannot reach the original |
| Monitor.Add | monitor.c:85-100 | fatal with the addition message exactly when the operands are not congruent; otherwise a fresh value of the right operand's shape whose element n is left[n] + right[n] |
| Monitor.Subtract | monitor.c:102-117 | fatal with the subtract message exactly when the operands are not congruent; otherwise a fresh value of the right operand's shape whose element n is left[n] - right[n] |
| Monitor.Multiply | monitor.c:119-132 | fatal unless both ranks are 0; otherwise a fresh 1x1 value holding the product of the two element-0 scalars |
| Monitor.Divide | monitor.c:134-147 | fatal unless both ranks are 0; otherwise a fresh 1x1 value holding the quotient of the two element-0 scalars |
| Monitor.Power | monitor.c:149-161 | fatal with the power message exactly unless both ranks are 0 |
| Monitor.UnaryMinus | monitor.c:163-173 | a fresh value congruent to the operand with every element negated |
| Monitor.Sqrt | monitor.c:175-188 | fatal exactly when the rank is not 0; otherwise a fresh 1x1 value holding the square root of element 0 |
| Monitor.SumCommutes | monitor.c:95-97 | the elementwise sum is commutative |
| Monitor.DifferenceSelf | monitor.c:112-114 | a buffer minus itself is all zeros |
| Monitor.NegatedInvolutive | monitor.c:169-171 | negating every element twice restores the buffer |
| Monitor.DifferenceIsSumOfNegated | monitor.c:95-114 | the elementwise difference equals the sum with the negated right operand |
| Monitor.DifferenceUndoesSum | monitor.c:95-114 | subtracting b from a + b gives back a |
| Monitor.AddCommutes | monitor.c:85-100 | adding congruent values never dies, and both orders give the same elements |
| Monitor.SubtractSelf | monitor.c:102-117 | subtract(a, a) never dies and gives zeros of a's shape |
| Monitor.UnaryMinusTwice | monitor.c:163-173 | negating a value twice gives a value congruent to it, with its elements, in a different buffer |
| Monitor.AddThenSubtract | monitor.c:85-117 | for congruent a and b, subtract(add(a, b), b) never dies and gives back a's elements |

## Left out

- Monitor.Power: promises nothing about its result on success, because the C function never returns the value it computes.
- Monitor.Multiply: says nothing about the rank of the result, because `make_scalar` leaves the rank of an uninitialised local unset. The same holds for Monitor.Divide and Monitor.Sqrt.
- Monitor.Divide: requires a non-zero divisor when both operands are scalars. C division by zero gives an infinity or NaN, and the model has no floating-point special values.
- Floating point: scalars are `real`, so rounding, overflow, infinities and NaN are not modelled. `pow` and `sqrt` are parameters, because the C library is not part of this model.
- Cupl.Sub: models SUB, SUBI and SUBJ applied to simple operands. The C macros do not parenthesise their arguments, so a compound operand expands differently: `SUB(v, k+1, j)` gives offset `k + width + j`, and `SUBI(v, a-b)` gives `a - b/width`. Cupl.SubI and Cupl.SubJ are modelled the same way.
- Parse trees are finite immutable datatypes. Shared nodes cannot be told apart from copies, and a cyclic right chain, on which `for_cdr` would never stop, cannot be built.
- 32-bit `int` overflow of `width * depth` and of subscript arithmetic is not modelled; integers are unbounded.
- `die` and `warn` write to the error stream and `die` exits. A fatal error is only the outcome `Died(message)`, and `warn` is not modelled.
- `deallocate_value` and `malloc` failure are memory management. Buffers are garbage-collected arrays, and the model has no out-of-memory path.
- The `syminf` and `endnode` fields of a node, and the symbol-list entry `lvar` with `for_symbols`, are not modelled: no operation in the core reads or writes them.
- `allocate_value` and the other runtime functions declared in `cupl.h` (`cupl_abs` through `cupl_ge`, and the write routines) have no code here, so they are not part of this model.
- The parser, the consistency checker, the label resolver and the evaluator are not modelled. `execute` has an empty body, and `interpret` only pretty-prints for debugging.
- Process entry (`main.c`: option parsing, file handling) and the diagnostic token-name lookup (`tokdump.c`) are I/O and debugging aids.
