/** Whether the operands of an n-ary node are all real.

    The answer is three-valued: 1 when every operand is known to be real,
    0 when none is known to be non-real but some operand is a ComplexCartesian
    node (whose imaginary part might vanish, so it is not known to be real
    either), and -1 as soon as an operand that is not a ComplexCartesian node
    is not real. Whether an operand is real depends on the context of variable
    bindings; it enters here as the parameter `isReal`.
 */
module Reality {
  import opened Trees

  /** Some operand that is not a ComplexCartesian node is not real. */
  predicate HasNonRealOperand(children: seq<Node>, isReal: Node -> bool)
  {
    exists c :: c in children && c.kind != ComplexCartesian && !isReal(c)
  }

  /** Some operand is a ComplexCartesian node. */
  predicate HasComplexCartesian(children: seq<Node>)
  {
    exists c :: c in children && c.kind == ComplexCartesian
  }

  /** The scan from operand `i` on, with `result` accumulated over the
      operands before it (which held no non-real operand). */
  function ScanReality(children: seq<Node>, isReal: Node -> bool, i: nat, result: int): (r: int)
    requires i <= |children|
    requires result == 0 || result == 1
    requires result == 0 <==> HasComplexCartesian(children[..i])
    requires !HasNonRealOperand(children[..i], isReal)
    ensures r == -1 <==> HasNonRealOperand(children, isReal)
    ensures r == 0 <==> !HasNonRealOperand(children, isReal) && HasComplexCartesian(children)
    ensures r == 1 <==> !HasNonRealOperand(children, isReal) && !HasComplexCartesian(children)
    decreases |children| - i
  {
    if i == |children| then
      assert children[..i] == children;
      result
    else
      var c := children[i];
      assert children[..i + 1] == children[..i] + [c];
      if c.kind == ComplexCartesian then
        ScanReality(children, isReal, i + 1, result * 0)
      else if !isReal(c) then
        -1
      else
        ScanReality(children, isReal, i + 1, result)
  }

  /** The reality of the operands `children`, scanned in order. */
  function AllChildrenAreReal(children: seq<Node>, isReal: Node -> bool): (r: int)
    ensures -1 <= r <= 1
    ensures r == -1 <==> HasNonRealOperand(children, isReal)
    ensures r == 0 <==> !HasNonRealOperand(children, isReal) && HasComplexCartesian(children)
    ensures r == 1 <==> !HasNonRealOperand(children, isReal) && !HasComplexCartesian(children)
  {
    assert children[..0] == [];
    ScanReality(children, isReal, 0, 1)
  }

  /** The answer does not depend on the order of the operands. */
  lemma AllChildrenAreRealPermutation(a: seq<Node>, b: seq<Node>, isReal: Node -> bool)
    requires multiset(a) == multiset(b)
    ensures AllChildrenAreReal(a, isReal) == AllChildrenAreReal(b, isReal)
  {
    forall c
      ensures c in a <==> c in b
    {
      assert c in a <==> c in multiset(a);
      assert c in b <==> c in multiset(b);
    }
  }

  /** An operand that is not real and not ComplexCartesian decides the
      answer whatever surrounds it, and a ComplexCartesian operand added to
      real operands lowers the answer from 1 to 0, never to -1. */
  lemma AllChildrenAreRealAddOperand(before: seq<Node>, c: Node, after: seq<Node>, isReal: Node -> bool)
    ensures c.kind != ComplexCartesian && !isReal(c) ==> AllChildrenAreReal(before + [c] + after, isReal) == -1
    ensures c.kind == ComplexCartesian && AllChildrenAreReal(before + after, isReal) == 1 ==>
              AllChildrenAreReal(before + [c] + after, isReal) == 0
  {
    var s := before + [c] + after;
    assert s[|before|] == c;
    forall x
      ensures x in s <==> x in before + after || x == c
    {
      if x in s {
        var i :| 0 <= i < |s| && s[i] == x;
        if i < |before| {
          assert (before + after)[i] == x;
        } else if i > |before| {
          assert (before + after)[i - 1] == x;
        }
      }
      if x in before + after {
        var i :| 0 <= i < |before + after| && (before + after)[i] == x;
        if i < |before| {
          assert s[i] == x;
        } else {
          assert s[i + 1] == x;
        }
      }
    }
  }
}
