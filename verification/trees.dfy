/** Expression trees as immutable values.

    A node of the expression language has a type and an ordered list of
    children. The tree-mutation primitives of the expression handles (swap two
    children, replace a node in its parent's slot, ask whether a node lies under
    another one) become functions on values: a node inside a tree is addressed
    by the path of child indices that leads to it from the root.
 */
module Trees {

  /** The node types this core tells apart; every other type of the
      expression language is `Other`, distinguished by a tag. `Multiplication`
      and `Matrix` only name the source's types for the reader: nothing here
      branches on them, since a sum and a product are handled alike and
      matrix-ness comes from the engine's own matrix test. */
  datatype Kind =
    | Addition
    | Multiplication
    | Opposite
    | Conjugate
    | Number
    | ComplexCartesian
    | Matrix
    | Other(tag: nat)

  datatype Node = Node(kind: Kind, children: seq<Node>)

  function Min(x: int, y: int): int
  {
    if x <= y then x else y
  }

  /** Child indices leading from a node down to one of its descendants;
      the empty path addresses the node itself. */
  type Path = seq<nat>

  predicate ValidPath(root: Node, path: Path)
    decreases |path|
  {
    |path| == 0 || (path[0] < |root.children| && ValidPath(root.children[path[0]], path[1..]))
  }

  /** The node that `path` addresses inside `root`. */
  function At(root: Node, path: Path): Node
    requires ValidPath(root, path)
    decreases |path|
  {
    if |path| == 0 then root else At(root.children[path[0]], path[1..])
  }

  /** Going one step further down a valid path reaches a child of the node it addressed. */
  lemma {:induction false} AtExtend(root: Node, path: Path, i: nat)
    requires ValidPath(root, path)
    requires i < |At(root, path).children|
    ensures ValidPath(root, path + [i])
    ensures At(root, path + [i]) == At(root, path).children[i]
    decreases |path|
  {
    if |path| == 0 {
      assert path + [i] == [i];
      assert [i][1..] == [];
    } else {
      assert (path + [i])[1..] == path[1..] + [i];
      AtExtend(root.children[path[0]], path[1..], i);
    }
  }

  /** Every prefix of a valid path is valid: it addresses an ancestor. */
  lemma {:induction false} ValidPrefixes(root: Node, path: Path)
    requires ValidPath(root, path)
    ensures forall d :: 0 <= d <= |path| ==> ValidPath(root, path[..d])
    decreases |path|
  {
    if |path| > 0 {
      var i := path[0];
      ValidPrefixes(root.children[i], path[1..]);
      assert forall d :: 1 <= d <= |path| ==> path[..d] == [i] + path[1..][..d - 1];
      assert path[..0] == [];
    }
  }

  /** `ancestor` addresses the node `path` addresses (only when `includeSelf`)
      or one of that node's ancestors: it is a prefix of `path`. */
  predicate HasAncestor(path: Path, ancestor: Path, includeSelf: bool)
  {
    && (includeSelf || path != ancestor)
    && |ancestor| <= |path|
    && path[..|ancestor|] == ancestor
  }

  /** Neither path lies at or under the other: they address two separate subtrees. */
  predicate Disjoint(p: Path, q: Path)
  {
    !HasAncestor(p, q, true) && !HasAncestor(q, p, true)
  }

  /** The tree `root` with the subtree at `path` replaced by `sub`
      (the value counterpart of replacing a node in its parent's slot). */
  function ReplaceAt(root: Node, path: Path, sub: Node): (r: Node)
    requires ValidPath(root, path)
    ensures ValidPath(r, path) && At(r, path) == sub
    ensures forall d :: 0 <= d < |path| ==>
              && ValidPath(root, path[..d]) && ValidPath(r, path[..d])
              && At(r, path[..d]).kind == At(root, path[..d]).kind
              && |At(r, path[..d]).children| == |At(root, path[..d]).children|
    decreases |path|
  {
    if |path| == 0 then sub
    else
      var i := path[0];
      var r := Node(root.kind, root.children[i := ReplaceAt(root.children[i], path[1..], sub)]);
      assert forall d :: 1 <= d <= |path| ==> path[..d] == [i] + path[1..][..d - 1];
      assert path[..0] == [];
      r
  }

  /** Replacing one subtree leaves every subtree beside it untouched. */
  lemma {:induction false} ReplaceAtElsewhere(root: Node, path: Path, sub: Node, other: Path)
    requires ValidPath(root, path) && ValidPath(root, other)
    requires Disjoint(path, other)
    ensures ValidPath(ReplaceAt(root, path, sub), other)
    ensures At(ReplaceAt(root, path, sub), other) == At(root, other)
    decreases |path|
  {
    assert |path| > 0 && |other| > 0 by {
      assert path[..0] == other[..0] == [];
    }
    var r := ReplaceAt(root, path, sub);
    if path[0] != other[0] {
      assert r.children[other[0]] == root.children[other[0]];
    } else {
      var i := path[0];
      assert r.children[i] == ReplaceAt(root.children[i], path[1..], sub);
      assert path == [i] + path[1..] && other == [i] + other[1..];
      ReplaceAtElsewhere(root.children[i], path[1..], sub, other[1..]);
    }
  }
}
