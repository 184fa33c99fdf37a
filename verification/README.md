# Canonical operand order of n-ary expressions

A Dafny model of the n-ary expression node of the Poincaré symbolic-computation
engine: the node behind sums and products, whose operands are kept in a
canonical order. The model covers what that node does with its operands:

- the bubble sort that puts the children of a sum or a product into canonical
  order and never swaps two matrices unless allowed (`Sort`);
- the two halves of the simplification order that belong to the n-ary node:
  against another n-ary node of the same type, comparing children from the last
  one backwards, and against a node of a greater type, through the last child
  (`Order`);
- the three-valued test of whether all operands are real (`Reality`);
- the collapse of a sum or product with a single operand into that operand
  (`Squash`);
- the decision whether an operand is printed inside parentheses (`Parentheses`).

Expression trees are immutable values (`Trees`): a node is its type and its
list of children. The handle operations the source relies on become functions
on values. Swapping two children is a sequence update. Replacing a node in its
parent's slot is `ReplaceAt` on a path of child indices. Asking whether a node
lies at or under another one is a prefix test on their paths (`HasAncestor`).

The order of the whole expression language, which dispatches on node types, is
defined elsewhere in the engine. It enters as a function parameter. So do the
matrix test (`deepIsMatrix`), the reality test (`isReal`, with its context of
variable bindings) and the sign of a number (`Number::sign`). Nothing is
assumed of them unless a lemma states it as a precondition.

## Model

| member | source | states |
|---|---|---|
| Trees.ReplaceAt | poincare/src/n_ary_expression.cpp:50 | After replacing the node at a path, that path addresses the new node; every ancestor of the slot (the parent up to the root) keeps its type and its number of children. |
| Trees.ReplaceAtElsewhere | poincare/src/n_ary_expression.cpp:50 | Replacing one subtree leaves every subtree at a disjoint path unchanged. |
| Sort.SwapAdjacent | poincare/src/n_ary_expression.cpp:36 | Exchanging two adjacent children is a permutation that exchanges exactly those two positions. |
| Sort.SwapKeepsMatrices | poincare/src/n_ary_expression.cpp:31-36 | Exchanging two adjacent children that are not both matrices keeps the matrices in their relative order. |
| Sort.PassFromPermutes | poincare/src/n_ary_expression.cpp:30-39 | A pass permutes the children, and keeps the matrices in order when they may not be swapped. |
| Sort.PassFromBubbles | poincare/src/n_ary_expression.cpp:30-39 | With a total preorder and matrices free to move, a pass places one more child at the end in its final position. |
| Sort.Pass | poincare/src/n_ary_expression.cpp:29-42 | One pass permutes the children and keeps matrix order. It reports a swap exactly when some adjacent pair was out of order, and changes nothing otherwise. Under a total preorder, with matrices free or at most one matrix, it puts one more child at the end in its final place. |
| Sort.PassFromAgrees | poincare/src/n_ary_expression.cpp:31-36 | With at most one matrix among the children, the matrix test at line 35 never blocks a swap, so a pass with matrices blocked equals a pass with them free. |
| Sort.SortChildren | poincare/src/n_ary_expression.cpp:26-44 | The result is a permutation of the children, and the matrices keep their relative order when they may not be swapped. At most `n - 1` passes run. Fewer than two children, or children already in order, are left unchanged. The sort ends on a clean pass or at the pass cap. With a total preorder, and with matrices free to move or at most one matrix among the children, no adjacent pair is out of order, so sorting the result again leaves it unchanged. |
| Order.ScanFromEnd | poincare/src/n_ary_expression.cpp:59-75 | The loop's result is the order of the first non-tying pair of children counted from the end. When all aligned pairs tie, it is the length tie-break. |
| Order.SameTypeOrder | poincare/src/n_ary_expression.cpp:58-76 | The first non-tying pair from the end decides. If all aligned pairs tie, the result is 1 when the other node has fewer children, whatever `ascending` says. It is `ascending ? -1 : 1` when the other node has more children, and 0 when both have as many. |
| Order.SameTypeOrderZeroIff | poincare/src/n_ary_expression.cpp:58-76 | Two same-type nodes tie exactly when they have the same number of children and every aligned pair ties. |
| Order.SameTypeOrderAntisymmetricAscending | poincare/src/n_ary_expression.cpp:61-75 | In ascending mode, an order of children that is antisymmetric in ascending mode gives an antisymmetric order of same-type nodes; nothing is required of the descending mode. |
| Order.SameTypeOrderNotAntisymmetricDescending | poincare/src/n_ary_expression.cpp:63-74 | In descending mode the order as written is not antisymmetric. A two-operand sum and a one-operand sum whose children all tie are each greater than the other. |
| Order.ScanAntisymmetric | poincare/src/n_ary_expression.cpp:58-76 | For an order of children antisymmetric in the mode used, the backwards scan is antisymmetric when the longer receiver gets `ascending ? 1 : -1`. |
| Order.SameTypeOrderCorrected | poincare/src/n_ary_expression.cpp:58-76 | The same order with the line-64 tie-break flipped by `ascending`: a receiver with more children is greater when ascending and less when descending. |
| Order.SameTypeOrderCorrectedAntisymmetric | poincare/src/n_ary_expression.cpp:58-76 | In either mode, an order of children antisymmetric in that mode makes the corrected same-type order antisymmetric. |
| Order.GreaterTypeOrder | poincare/src/n_ary_expression.cpp:78-92 | A node without children gives -1 in both modes. Otherwise a non-tying comparison of the last child with `e` decides. On a tie, a node with several children gives exactly `ascending ? 1 : -1`. The result is 0 exactly for a single child that ties with `e`. |
| Order.GreaterTypeOrderSignValued | poincare/src/n_ary_expression.cpp:78-92 | If the order of children is in {-1, 0, 1}, so is the greater-type order. |
| Reality.ScanReality | poincare/src/n_ary_expression.cpp:95-106 | The loop from any index, given what the operands before it accumulated, gives the three-valued answer for the whole list. |
| Reality.AllChildrenAreReal | poincare/src/n_ary_expression.cpp:94-107 | The result is in {-1, 0, 1}. It is -1 exactly when an operand that is not ComplexCartesian is not real. Otherwise it is 0 exactly when some operand is ComplexCartesian, and 1 otherwise (including no operands). |
| Reality.AllChildrenAreRealPermutation | poincare/src/n_ary_expression.cpp:94-107 | The answer does not depend on the order of the operands. |
| Reality.AllChildrenAreRealAddOperand | poincare/src/n_ary_expression.cpp:97-105 | Adding a non-real, non-ComplexCartesian operand anywhere forces -1. Adding a ComplexCartesian operand to real operands gives 0, never -1. |
| Parentheses.ChildNeedsUserParentheses | poincare/src/n_ary_expression.cpp:10-24 | Parentheses are needed exactly when the operand is not at or under the first child and, under any chain of conjugates, is a negative number or an opposite. |
| Parentheses.FirstOperandNeedsNoParentheses | poincare/src/n_ary_expression.cpp:11-18 | Nothing at or under the first operand needs parentheses, even a negative number. |
| Parentheses.OtherOperandNeedsParentheses | poincare/src/n_ary_expression.cpp:13-18 | A negative number or an opposite that is not at or under the first operand needs parentheses, even inside conjugates. |
| Parentheses.ConjugateIsTransparent | poincare/src/n_ary_expression.cpp:20-22 | A conjugate needs parentheses exactly when its argument does. |
| Squash.SquashUnaryHierarchy | poincare/src/n_ary_expression.cpp:46-54 | With exactly one child, the returned node is that child and it now fills the node's slot, so the one-child node is gone. With any other number of children, the tree and the returned node are unchanged. Every ancestor of the slot keeps its type and its number of children. |
| Squash.SquashLeavesRestUnchanged | poincare/src/n_ary_expression.cpp:46-54 | Squashing changes nothing outside the slot of the squashed node. |
| Squash.SquashTwice | poincare/src/n_ary_expression.cpp:46-54 | Squashing again changes nothing unless the only child was itself a one-child node. |
| Squash.SquashKeepsGreaterTypeOrder | poincare/src/n_ary_expression.cpp:84-91 | A one-child n-ary node compares with a node of a greater type exactly as its child does. |
| Squash.SquashKeepsSameTypeOrder | poincare/src/n_ary_expression.cpp:61-75 | Two one-child n-ary nodes of the same type compare exactly as their children do. |

## Left out

- Cancellation: the `canBeInterrupted` flag is only forwarded to the order (lines 35, 66, 84). A cancelled sort is not reported as such: the source has no interrupted outcome, so none is modelled.
- The global `SimplificationOrder`, the per-type orders, `deepIsMatrix`, `isReal`, `Number::sign` and the `Context` they consult are defined elsewhere in the engine. They are function parameters here.
- Expression handles, the node pool and parent back-pointers: the trees are values, and a node's place in its tree is a path.
- Printing and layout: only the yes/no decision of `childNeedsUserParentheses` is modelled.
- Integer widths: child counts and indices are unbounded. The source's `int` counters cannot overflow at the child counts the engine allows.
- Sort.SortChildren: "no adjacent pair is out of order" is stated only under a total preorder and when matrices may be swapped or there is at most one matrix. With two or more matrices blocked from swapping, the contract is silent and says only that the sort ended on a clean pass or at the cap of `n - 1` passes; the proof of the free case does not carry over, because a blocked pair stops a child from moving past it.
- Parentheses.ChildNeedsUserParentheses: it requires every conjugate under the operand to have its one argument. The source reads `childAtIndex(0)` of a conjugate without checking.
- The same-type order is not antisymmetric in descending mode (see Findings); the model follows the code and keeps the corrected variant beside it.
- Only operands that are not ComplexCartesian are tested with `isReal` (line 101 is an `else if`).

## Findings

| source | as written | input that shows it | evidently intended | confidence | as-written member | corrected member |
|---|---|---|---|---|---|---|
| poincare/src/n_ary_expression.cpp:64 | When the other node runs out of children first, the result is `1` whatever `ascending` says. The opposite case at line 73 does flip with `ascending`. | Descending mode, `self` = sum of `x, x`, `e` = sum of `x`, every child pair tying: both `self` against `e` and `e` against `self` give 1. | `return ascending ? 1 : -1;`, so that the null node is least in both modes and the order is antisymmetric. | low to medium, not executed | Order.SameTypeOrderNotAntisymmetricDescending | Order.SameTypeOrderCorrectedAntisymmetric |
