/** When an operand of a sum or a product needs parentheses in print.

    A negative number or an opposite (a leading minus sign) needs them unless
    it is the first operand, where nothing precedes the sign. The operand may
    sit several levels below the n-ary node (inside a conjugate, say), so
    "is the first operand" means "lies at or under the first child". A node
    inside the n-ary node is given by its path from it (see `Trees`); the sign
    of a number is the parameter `isNegative`.
 */
module Parentheses {
  import opened Trees

  /** Every conjugate node in the tree has its one argument. */
  predicate ConjugatesUnary(n: Node)
  {
    && (n.kind == Conjugate ==> |n.children| == 1)
    && forall i :: 0 <= i < |n.children| ==> ConjugatesUnary(n.children[i])
  }

  /** A number whose sign is negative, or an opposite. */
  predicate LeadingMinus(n: Node, isNegative: Node -> bool)
  {
    (n.kind == Number && isNegative(n)) || n.kind == Opposite
  }

  /** The node under any chain of conjugates wrapped around `n`. */
  function StripConjugates(n: Node): (r: Node)
    requires ConjugatesUnary(n)
    ensures r.kind != Conjugate && ConjugatesUnary(r)
  {
    if n.kind == Conjugate then StripConjugates(n.children[0]) else n
  }

  /** Whether the operand at `path` inside the n-ary node `self` needs
      parentheses. The conjugate of an operand needs them exactly when the
      operand does. */
  function ChildNeedsUserParentheses(self: Node, path: Path, isNegative: Node -> bool): (r: bool)
    requires |path| >= 1 && ValidPath(self, path)
    requires ConjugatesUnary(At(self, path))
    ensures r <==> !HasAncestor(path, [0], true) && LeadingMinus(StripConjugates(At(self, path)), isNegative)
    decreases At(self, path)
  {
    var child := At(self, path);
    if LeadingMinus(child, isNegative) && !HasAncestor(path, [0], true) then
      true
    else if child.kind == Conjugate then
      AtExtend(self, path, 0);
      assert HasAncestor(path + [0], [0], true) <==> HasAncestor(path, [0], true) by {
        assert (path + [0])[..1] == path[..1];
      }
      ChildNeedsUserParentheses(self, path + [0], isNegative)
    else
      false
  }

  /** Under the first operand nothing needs parentheses, whatever its sign. */
  lemma FirstOperandNeedsNoParentheses(self: Node, path: Path, isNegative: Node -> bool)
    requires |path| >= 1 && ValidPath(self, path) && ConjugatesUnary(At(self, path))
    requires path[0] == 0
    ensures !ChildNeedsUserParentheses(self, path, isNegative)
  {
    assert path[..1] == [0];
  }

  /** Any other operand that is a negative number or an opposite does need
      them, even wrapped in conjugates. */
  lemma OtherOperandNeedsParentheses(self: Node, path: Path, isNegative: Node -> bool)
    requires |path| >= 1 && ValidPath(self, path) && ConjugatesUnary(At(self, path))
    requires path[0] != 0
    requires LeadingMinus(StripConjugates(At(self, path)), isNegative)
    ensures ChildNeedsUserParentheses(self, path, isNegative)
  {
  }

  /** A conjugate is transparent: it needs parentheses exactly when its
      argument, one level further down, does. */
  lemma ConjugateIsTransparent(self: Node, path: Path, isNegative: Node -> bool)
    requires |path| >= 1 && ValidPath(self, path) && ConjugatesUnary(At(self, path))
    requires At(self, path).kind == Conjugate
    ensures ValidPath(self, path + [0]) && ConjugatesUnary(At(self, path + [0]))
    ensures ChildNeedsUserParentheses(self, path + [0], isNegative) == ChildNeedsUserParentheses(self, path, isNegative)
  {
    AtExtend(self, path, 0);
    assert (path + [0])[..1] == path[..1];
  }
}
