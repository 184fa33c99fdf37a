/** The simplification order between an n-ary node (a sum or a product) and
    another node.

    The order of the whole expression language dispatches on node types and
    lives outside the n-ary node: it enters here as the parameter `cmp`, and
    `cmp(x, y, ascending)` is its result on two children. Nothing is assumed
    of `cmp` except where a lemma says so. A result is read by its sign:
    negative puts the receiver first, positive puts it after, zero ties.
 */
module Order {
  import opened Trees

  type Comparator = (Node, Node, bool) -> int

  /** Order of the `k`-th pair of children counted from the end (`k` = 1 is
      the pair of last children). */
  function PairFromEnd(cmp: Comparator, a: seq<Node>, b: seq<Node>, ascending: bool, k: nat): int
    requires 1 <= k <= |a| && k <= |b|
  {
    cmp(a[|a| - k], b[|b| - k], ascending)
  }

  /** The first `h` pairs counted from the end all tie. */
  predicate TiedFromEnd(cmp: Comparator, a: seq<Node>, b: seq<Node>, ascending: bool, h: nat)
  {
    forall k :: 1 <= k <= h && k <= |a| && k <= |b| ==> PairFromEnd(cmp, a, b, ascending, k) == 0
  }

  /** Pair `k` from the end is the first one that does not tie. */
  predicate DecidedAt(cmp: Comparator, a: seq<Node>, b: seq<Node>, ascending: bool, k: nat)
  {
    && 1 <= k <= |a| && k <= |b|
    && TiedFromEnd(cmp, a, b, ascending, k - 1)
    && PairFromEnd(cmp, a, b, ascending, k) != 0
  }

  /** What the scan from the end returns once all aligned pairs tie: the side
      that runs out of children first holds the null node, the least one.
      `longer` is the answer when the receiver `a` is the longer list. */
  function LengthTieBreak(m: nat, n: nat, ascending: bool, longer: int): int
  {
    if n < m then longer
    else if n > m then (if ascending then -1 else 1)
    else 0
  }

  /** The scan of the same-type order, from its `i`-th pair counted from the
      end; the pairs before it have tied. */
  function ScanFromEnd(cmp: Comparator, a: seq<Node>, b: seq<Node>, ascending: bool, longer: int, i: nat): (r: int)
    requires 1 <= i <= |a| + 1 && i <= |b| + 1
    requires TiedFromEnd(cmp, a, b, ascending, i - 1)
    ensures forall k :: DecidedAt(cmp, a, b, ascending, k) ==> r == PairFromEnd(cmp, a, b, ascending, k)
    ensures TiedFromEnd(cmp, a, b, ascending, Min(|a|, |b|)) ==> r == LengthTieBreak(|a|, |b|, ascending, longer)
    decreases |a| + 1 - i
  {
    if i > |a| then
      (if |b| > |a| then (if ascending then -1 else 1) else 0)
    else if |b| < i then
      longer
    else
      var order := PairFromEnd(cmp, a, b, ascending, i);
      if order != 0 then order else ScanFromEnd(cmp, a, b, ascending, longer, i + 1)
  }

  /** Order between two n-ary nodes of the same type, as written: children
      are compared from the last one backwards and the first pair that does
      not tie decides; when every aligned pair ties, a receiver with more
      children is greater whatever `ascending` says, and one with fewer
      children is less when ascending and greater when descending. */
  function SameTypeOrder(cmp: Comparator, self: Node, e: Node, ascending: bool): (r: int)
    ensures forall k :: DecidedAt(cmp, self.children, e.children, ascending, k) ==>
              r == PairFromEnd(cmp, self.children, e.children, ascending, k)
    ensures TiedFromEnd(cmp, self.children, e.children, ascending, Min(|self.children|, |e.children|)) ==>
              r == (if |e.children| < |self.children| then 1
                    else if |e.children| > |self.children| then (if ascending then -1 else 1)
                    else 0)
  {
    ScanFromEnd(cmp, self.children, e.children, ascending, 1, 1)
  }

  /** The same-type order with the tie-break on lengths flipped by
      `ascending` in both directions, so that a receiver with more children
      is greater when ascending and less when descending. */
  function SameTypeOrderCorrected(cmp: Comparator, self: Node, e: Node, ascending: bool): (r: int)
    ensures forall k :: DecidedAt(cmp, self.children, e.children, ascending, k) ==>
              r == PairFromEnd(cmp, self.children, e.children, ascending, k)
    ensures TiedFromEnd(cmp, self.children, e.children, ascending, Min(|self.children|, |e.children|)) ==>
              r == (if |e.children| < |self.children| then (if ascending then 1 else -1)
                    else if |e.children| > |self.children| then (if ascending then -1 else 1)
                    else 0)
  {
    ScanFromEnd(cmp, self.children, e.children, ascending, if ascending then 1 else -1, 1)
  }

  /** Order between an n-ary node and a node of a greater type: the last
      child of the n-ary node stands in for it, and a tie goes to the node
      with more than one child; a node without children is least. */
  function GreaterTypeOrder(cmp: Comparator, self: Node, e: Node, ascending: bool): (r: int)
    ensures |self.children| == 0 ==> r == -1
    ensures |self.children| > 0 && cmp(self.children[|self.children| - 1], e, ascending) != 0 ==>
              r == cmp(self.children[|self.children| - 1], e, ascending)
    ensures r == 0 <==> |self.children| == 1 && cmp(self.children[0], e, ascending) == 0
    ensures |self.children| > 1 && cmp(self.children[|self.children| - 1], e, ascending) == 0 ==>
              r == (if ascending then 1 else -1)
  {
    var m := |self.children|;
    if m == 0 then -1
    else
      var order := cmp(self.children[m - 1], e, ascending);
      if order != 0 then order
      else if m > 1 then (if ascending then 1 else -1)
      else 0
  }

  /** `cmp` is antisymmetric in the mode `ascending`: swapping its
      arguments negates its result. */
  ghost predicate AntisymmetricIn(cmp: Comparator, ascending: bool)
  {
    forall x, y :: cmp(x, y, ascending) == -cmp(y, x, ascending)
  }

  /** When some aligned pair does not tie, a first such pair exists. */
  lemma FirstDifference(cmp: Comparator, a: seq<Node>, b: seq<Node>, ascending: bool) returns (k: nat)
    requires !TiedFromEnd(cmp, a, b, ascending, Min(|a|, |b|))
    ensures DecidedAt(cmp, a, b, ascending, k)
  {
    k := 1;
    while PairFromEnd(cmp, a, b, ascending, k) == 0
      invariant 1 <= k <= Min(|a|, |b|)
      invariant TiedFromEnd(cmp, a, b, ascending, k - 1)
      decreases Min(|a|, |b|) - k
    {
      k := k + 1;
    }
  }

  /** With an antisymmetric `cmp`, the scan is antisymmetric whenever a
      longer receiver gets the sign that `ascending` gives a longer argument
      with the roles swapped. */
  lemma ScanAntisymmetric(cmp: Comparator, a: seq<Node>, b: seq<Node>, ascending: bool, longer: int)
    requires AntisymmetricIn(cmp, ascending)
    requires longer == (if ascending then 1 else -1)
    ensures ScanFromEnd(cmp, a, b, ascending, longer, 1) == -ScanFromEnd(cmp, b, a, ascending, longer, 1)
  {
    var h := Min(|a|, |b|);
    assert Min(|b|, |a|) == h;
    forall k | 1 <= k <= h
      ensures PairFromEnd(cmp, b, a, ascending, k) == -PairFromEnd(cmp, a, b, ascending, k)
    {
    }
    if TiedFromEnd(cmp, a, b, ascending, h) {
      assert TiedFromEnd(cmp, b, a, ascending, h);
    } else {
      var k := FirstDifference(cmp, a, b, ascending);
      assert DecidedAt(cmp, b, a, ascending, k);
    }
  }

  /** In ascending mode the same-type order as written is antisymmetric. */
  lemma SameTypeOrderAntisymmetricAscending(cmp: Comparator, self: Node, e: Node)
    requires AntisymmetricIn(cmp, true)
    ensures SameTypeOrder(cmp, self, e, true) == -SameTypeOrder(cmp, e, self, true)
  {
    ScanAntisymmetric(cmp, self.children, e.children, true, 1);
  }

  /** In descending mode it is not: with every pair of children tying, a sum
      of two operands and a sum of one operand are each greater than the
      other. */
  lemma SameTypeOrderNotAntisymmetricDescending()
    ensures var x := Node(Other(0), []);
            var cmp: Comparator := (p, q, ascending) => 0;
            var a := Node(Addition, [x, x]);
            var b := Node(Addition, [x]);
            && AntisymmetricIn(cmp, false)
            && SameTypeOrder(cmp, a, b, false) == 1
            && SameTypeOrder(cmp, b, a, false) == 1
  {
    var x := Node(Other(0), []);
    var cmp: Comparator := (p, q, ascending) => 0;
    var a := Node(Addition, [x, x]);
    var b := Node(Addition, [x]);
    assert TiedFromEnd(cmp, a.children, b.children, false, 1);
    assert TiedFromEnd(cmp, b.children, a.children, false, 1);
  }

  /** The corrected same-type order is antisymmetric in both modes. */
  lemma SameTypeOrderCorrectedAntisymmetric(cmp: Comparator, self: Node, e: Node, ascending: bool)
    requires AntisymmetricIn(cmp, ascending)
    ensures SameTypeOrderCorrected(cmp, self, e, ascending) == -SameTypeOrderCorrected(cmp, e, self, ascending)
  {
    ScanAntisymmetric(cmp, self.children, e.children, ascending, if ascending then 1 else -1);
  }

  /** Two same-type nodes tie exactly when they have as many children and
      every aligned pair ties. */
  lemma SameTypeOrderZeroIff(cmp: Comparator, self: Node, e: Node, ascending: bool)
    ensures SameTypeOrder(cmp, self, e, ascending) == 0 <==>
              |self.children| == |e.children| && TiedFromEnd(cmp, self.children, e.children, ascending, |self.children|)
  {
    var a, b := self.children, e.children;
    if !TiedFromEnd(cmp, a, b, ascending, Min(|a|, |b|)) {
      var k := FirstDifference(cmp, a, b, ascending);
    }
  }

  /** The greater-type order is sign-valued whenever `cmp` is. */
  lemma GreaterTypeOrderSignValued(cmp: Comparator, self: Node, e: Node, ascending: bool)
    requires forall x, y :: -1 <= cmp(x, y, ascending) <= 1
    ensures -1 <= GreaterTypeOrder(cmp, self, e, ascending) <= 1
  {
  }
}
