/** Collapsing an n-ary node that has exactly one child.

    A sum or a product of a single operand is that operand: the node is
    replaced, in its parent's slot, by its only child, and the child is
    returned. Any other node is returned as it is and nothing changes. The
    n-ary node is addressed by its path inside the whole tree (see `Trees`);
    the empty path is the root, which has no parent slot, and then the child
    simply becomes the tree.
 */
module Squash {
  import opened Trees
  import Order

  /** The tree after the operation, and the node it returns. */
  datatype Squashed = Squashed(tree: Node, result: Node)

  function SquashUnaryHierarchy(root: Node, path: Path): (s: Squashed)
    requires ValidPath(root, path)
    ensures ValidPath(s.tree, path) && At(s.tree, path) == s.result
    ensures |At(root, path).children| == 1 ==>
              s.result == At(root, path).children[0] && At(s.tree, path) != At(root, path)
    ensures |At(root, path).children| != 1 ==> s.tree == root && s.result == At(root, path)
    ensures forall d :: 0 <= d < |path| ==>
              && ValidPath(root, path[..d]) && ValidPath(s.tree, path[..d])
              && At(s.tree, path[..d]).kind == At(root, path[..d]).kind
              && |At(s.tree, path[..d]).children| == |At(root, path[..d]).children|
  {
    var node := At(root, path);
    if |node.children| == 1 then
      var child := node.children[0];
      Squashed(ReplaceAt(root, path, child), child)
    else
      ValidPrefixes(root, path);
      Squashed(root, node)
  }

  /** Squashing changes nothing outside the slot of the n-ary node. */
  lemma SquashLeavesRestUnchanged(root: Node, path: Path, other: Path)
    requires ValidPath(root, path) && ValidPath(root, other)
    requires Disjoint(path, other)
    ensures ValidPath(SquashUnaryHierarchy(root, path).tree, other)
    ensures At(SquashUnaryHierarchy(root, path).tree, other) == At(root, other)
  {
    var node := At(root, path);
    if |node.children| == 1 {
      ReplaceAtElsewhere(root, path, node.children[0], other);
    }
  }

  /** Squashing is idempotent unless the only child is itself a one-child node. */
  lemma SquashTwice(root: Node, path: Path)
    requires ValidPath(root, path)
    requires |At(root, path).children| != 1 || |At(root, path).children[0].children| != 1
    ensures var once := SquashUnaryHierarchy(root, path);
            SquashUnaryHierarchy(once.tree, path) == Squashed(once.tree, once.result)
  {
  }

  /** A one-child n-ary node is placed against a node of a greater type
      exactly as its child is, so squashing it does not move it in the order. */
  lemma SquashKeepsGreaterTypeOrder(cmp: Order.Comparator, root: Node, path: Path, e: Node, ascending: bool)
    requires ValidPath(root, path)
    requires |At(root, path).children| == 1
    ensures Order.GreaterTypeOrder(cmp, At(root, path), e, ascending) ==
              cmp(SquashUnaryHierarchy(root, path).result, e, ascending)
  {
  }

  /** Two one-child n-ary nodes of the same type are ordered as their
      children are. */
  lemma SquashKeepsSameTypeOrder(cmp: Order.Comparator, a: Node, b: Node, ascending: bool)
    requires |a.children| == 1 && |b.children| == 1
    ensures Order.SameTypeOrder(cmp, a, b, ascending) ==
              cmp(SquashUnaryHierarchy(a, []).result, SquashUnaryHierarchy(b, []).result, ascending)
  {
    if cmp(a.children[0], b.children[0], ascending) != 0 {
      assert Order.DecidedAt(cmp, a.children, b.children, ascending, 1);
    } else {
      assert Order.TiedFromEnd(cmp, a.children, b.children, ascending, 1);
    }
  }
}
