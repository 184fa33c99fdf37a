/** Sorting the children of an n-ary node into canonical order.

    A bubble sort: each pass walks every adjacent pair of children and swaps
    it when the order puts the first child after the second, except that two
    matrices are never swapped unless the caller allows it (matrix products do
    not commute). A pass without swaps ends the sort, and there are at most
    one pass fewer than there are children.
 */
module Sort {
  import opened Trees

  /** The order the caller sorts by; a positive result on `(x, y)` puts `x`
      after `y`. */
  type Order = (Node, Node) -> int

  /** Whether the sort swaps the adjacent pair `x`, `y`. */
  predicate Swaps(order: Order, isMatrix: Node -> bool, canSwapMatrices: bool, x: Node, y: Node)
  {
    order(x, y) > 0 && (canSwapMatrices || !(isMatrix(x) && isMatrix(y)))
  }

  /** None of the first `n` adjacent pairs of `s` is one the sort would swap. */
  predicate SettledBelow(order: Order, isMatrix: Node -> bool, canSwapMatrices: bool, s: seq<Node>, n: int)
  {
    forall j :: 0 <= j < n && j + 1 < |s| ==> !Swaps(order, isMatrix, canSwapMatrices, s[j], s[j + 1])
  }

  /** No adjacent pair of `s` is one the sort would swap. */
  predicate Settled(order: Order, isMatrix: Node -> bool, canSwapMatrices: bool, s: seq<Node>)
  {
    SettledBelow(order, isMatrix, canSwapMatrices, s, |s| - 1)
  }

  /** The matrices of `s`, in the order they appear in. */
  function Matrices(s: seq<Node>, isMatrix: Node -> bool): (r: seq<Node>)
    ensures |r| <= |s|
  {
    if |s| == 0 then []
    else if isMatrix(s[0]) then [s[0]] + Matrices(s[1..], isMatrix)
    else Matrices(s[1..], isMatrix)
  }

  /** "`order(x, y)` is not positive" is a total preorder: total and transitive. */
  ghost predicate TotalPreorder(order: Order)
  {
    && (forall x, y :: order(x, y) <= 0 || order(y, x) <= 0)
    && (forall x, y, z :: order(x, y) <= 0 && order(y, z) <= 0 ==> order(x, z) <= 0)
  }

  /** Every child at index `k` or beyond is placed after everything before it. */
  predicate SortedFrom(order: Order, s: seq<Node>, k: nat)
  {
    forall a, b {:trigger order(s[a], s[b])} :: 0 <= a < b < |s| && k <= b ==> order(s[a], s[b]) <= 0
  }

  /** `s` with its children at `j` and `j + 1` exchanged. */
  function SwapAdjacent(s: seq<Node>, j: nat): (r: seq<Node>)
    requires j + 1 < |s|
    ensures |r| == |s| && multiset(r) == multiset(s)
    ensures r[j] == s[j + 1] && r[j + 1] == s[j]
    ensures forall i :: 0 <= i < |s| && i != j && i != j + 1 ==> r[i] == s[i]
  {
    s[j := s[j + 1]][j + 1 := s[j]]
  }

  /** Exchanging two adjacent children that are not both matrices keeps the
      matrices in their relative order. */
  lemma {:induction false} SwapKeepsMatrices(s: seq<Node>, j: nat, isMatrix: Node -> bool)
    requires j + 1 < |s|
    requires !(isMatrix(s[j]) && isMatrix(s[j + 1]))
    ensures Matrices(SwapAdjacent(s, j), isMatrix) == Matrices(s, isMatrix)
    decreases j
  {
    var t := SwapAdjacent(s, j);
    if j == 0 {
      assert t[1..][1..] == s[1..][1..];
    } else {
      assert t[1..] == SwapAdjacent(s[1..], j - 1);
      SwapKeepsMatrices(s[1..], j - 1, isMatrix);
    }
  }

  /** The child at `Min(j, k - 1)` is placed after every child before it. */
  predicate BubbleTop(order: Order, t: seq<Node>, j: nat, k: nat)
    requires 1 <= k <= |t|
  {
    forall a :: 0 <= a <= Min(j, k - 1) ==> order(t[a], t[Min(j, k - 1)]) <= 0
  }

  /** One step of a pass carries the child placed after all those before
      it along, and leaves the children from `k` on where they are. */
  lemma BubbleStep(order: Order, t: seq<Node>, j: nat, k: nat)
    requires TotalPreorder(order)
    requires 1 <= k <= |t| && j + 1 < |t|
    requires SortedFrom(order, t, k) && BubbleTop(order, t, j, k)
    ensures var u := if order(t[j], t[j + 1]) > 0 then SwapAdjacent(t, j) else t;
            SortedFrom(order, u, k) && BubbleTop(order, u, j + 1, k)
  {
    if j + 1 >= k {
      assert order(t[j], t[j + 1]) <= 0;
    } else if order(t[j], t[j + 1]) > 0 {
      BubbleStepSwap(order, t, j, k);
    } else {
      forall a | 0 <= a <= j + 1
        ensures order(t[a], t[j + 1]) <= 0
      {
        if a <= j {
          assert order(t[a], t[j]) <= 0;
        }
      }
    }
  }

  lemma BubbleStepSwap(order: Order, t: seq<Node>, j: nat, k: nat)
    requires TotalPreorder(order)
    requires j + 1 < k <= |t|
    requires order(t[j], t[j + 1]) > 0
    requires SortedFrom(order, t, k) && BubbleTop(order, t, j, k)
    ensures SortedFrom(order, SwapAdjacent(t, j), k)
    ensures BubbleTop(order, SwapAdjacent(t, j), j + 1, k)
  {
    var u := SwapAdjacent(t, j);
    assert order(t[j + 1], t[j]) <= 0;
    forall a | 0 <= a <= j + 1
      ensures order(u[a], u[j + 1]) <= 0
    {
      if a < j {
        assert u[a] == t[a];
      }
    }
    forall a, b | 0 <= a < b < |u| && k <= b
      ensures order(u[a], u[b]) <= 0
    {
      assert u[b] == t[b];
      if a == j {
        assert u[a] == t[j + 1];
      } else if a == j + 1 {
        assert u[a] == t[j];
      } else {
        assert u[a] == t[a];
      }
    }
  }

  /** Once a pass has gone beyond `k - 1`, the child there is in its final place. */
  lemma BubbleDone(order: Order, t: seq<Node>, j: nat, k: nat)
    requires 1 <= k <= |t| && k - 1 <= j
    requires SortedFrom(order, t, k) && BubbleTop(order, t, j, k)
    ensures SortedFrom(order, t, k - 1)
  {
    assert Min(j, k - 1) == k - 1;
  }

  /** The rest of a pass over `t`, from the pair at `j` on. */
  function PassFrom(order: Order, isMatrix: Node -> bool, canSwapMatrices: bool, t: seq<Node>, j: nat): seq<Node>
    decreases |t| - j
  {
    if j + 1 >= |t| then t
    else
      var u := if Swaps(order, isMatrix, canSwapMatrices, t[j], t[j + 1]) then SwapAdjacent(t, j) else t;
      PassFrom(order, isMatrix, canSwapMatrices, u, j + 1)
  }

  /** A pass only exchanges adjacent children, and never two matrices
      unless that is allowed. */
  lemma {:induction false} PassFromPermutes(order: Order, isMatrix: Node -> bool, canSwapMatrices: bool, t: seq<Node>, j: nat)
    ensures var u := PassFrom(order, isMatrix, canSwapMatrices, t, j);
            |u| == |t| && multiset(u) == multiset(t)
    ensures !canSwapMatrices ==> Matrices(PassFrom(order, isMatrix, canSwapMatrices, t, j), isMatrix) == Matrices(t, isMatrix)
    decreases |t| - j
  {
    if j + 1 < |t| {
      if Swaps(order, isMatrix, canSwapMatrices, t[j], t[j + 1]) {
        if !canSwapMatrices {
          SwapKeepsMatrices(t, j, isMatrix);
        }
        PassFromPermutes(order, isMatrix, canSwapMatrices, SwapAdjacent(t, j), j + 1);
      } else {
        PassFromPermutes(order, isMatrix, canSwapMatrices, t, j + 1);
      }
    }
  }

  /** With a total preorder and matrices free to move, a pass carries a
      child placed after all those before it up to `k - 1`. */
  lemma {:induction false} PassFromBubbles(order: Order, isMatrix: Node -> bool, t: seq<Node>, j: nat, k: nat)
    requires TotalPreorder(order)
    requires 1 <= k <= |t|
    requires SortedFrom(order, t, k) && BubbleTop(order, t, j, k)
    ensures SortedFrom(order, PassFrom(order, isMatrix, true, t, j), k - 1)
    decreases |t| - j
  {
    if j + 1 >= |t| {
      BubbleDone(order, t, j, k);
    } else {
      BubbleStep(order, t, j, k);
      var u := if order(t[j], t[j + 1]) > 0 then SwapAdjacent(t, j) else t;
      PassFromBubbles(order, isMatrix, u, j + 1, k);
    }
  }

  /** Two adjacent matrices are two matrices. */
  lemma {:induction false} AdjacentMatrices(s: seq<Node>, j: nat, isMatrix: Node -> bool)
    requires j + 1 < |s| && isMatrix(s[j]) && isMatrix(s[j + 1])
    ensures |Matrices(s, isMatrix)| >= 2
    decreases j
  {
    if j == 0 {
      assert s[1..][0] == s[1];
      assert Matrices(s[1..], isMatrix) == [s[1]] + Matrices(s[1..][1..], isMatrix);
    } else {
      assert s[1..][j - 1] == s[j] && s[1..][j] == s[j + 1];
      AdjacentMatrices(s[1..], j - 1, isMatrix);
    }
  }

  /** With at most one matrix among the children the matrix test never
      blocks a swap, so a pass with matrices blocked is a pass with them free. */
  lemma {:induction false} PassFromAgrees(order: Order, isMatrix: Node -> bool, t: seq<Node>, j: nat)
    requires |Matrices(t, isMatrix)| <= 1
    ensures PassFrom(order, isMatrix, false, t, j) == PassFrom(order, isMatrix, true, t, j)
    decreases |t| - j
  {
    if j + 1 < |t| {
      assert !(isMatrix(t[j]) && isMatrix(t[j + 1])) by {
        if isMatrix(t[j]) && isMatrix(t[j + 1]) {
          AdjacentMatrices(t, j, isMatrix);
        }
      }
      if Swaps(order, isMatrix, true, t[j], t[j + 1]) {
        SwapKeepsMatrices(t, j, isMatrix);
        PassFromAgrees(order, isMatrix, SwapAdjacent(t, j), j + 1);
      } else {
        PassFromAgrees(order, isMatrix, t, j + 1);
      }
    }
  }

  /** One pass over all adjacent pairs of `s`. `swapped` tells whether it
      exchanged anything. When the children from `k` on are already in their
      final places, the pass puts the child at `k - 1` in its final place too
      (ghost `k` only serves this statement). That holds when matrices may
      be swapped, and when there is at most one matrix to block a swap. */
  method Pass(s: seq<Node>, order: Order, isMatrix: Node -> bool, canSwapMatrices: bool, ghost k: nat)
    returns (t: seq<Node>, swapped: bool)
    ensures |t| == |s| && multiset(t) == multiset(s)
    ensures !canSwapMatrices ==> Matrices(t, isMatrix) == Matrices(s, isMatrix)
    ensures !swapped <==> Settled(order, isMatrix, canSwapMatrices, s)
    ensures !swapped ==> t == s
    ensures && (canSwapMatrices || |Matrices(s, isMatrix)| <= 1)
            && TotalPreorder(order) && 1 <= k <= |s| && SortedFrom(order, s, k) ==>
              SortedFrom(order, t, k - 1)
  {
    t := s;
    swapped := false;
    var j := 0;
    while j < |t| - 1
      invariant |t| == |s|
      invariant 0 <= j < |s| || j == 0
      invariant PassFrom(order, isMatrix, canSwapMatrices, t, j) == PassFrom(order, isMatrix, canSwapMatrices, s, 0)
      invariant !swapped ==> t == s
      invariant !swapped ==> SettledBelow(order, isMatrix, canSwapMatrices, s, j)
      invariant swapped ==> !Settled(order, isMatrix, canSwapMatrices, s)
    {
      if Swaps(order, isMatrix, canSwapMatrices, t[j], t[j + 1]) {
        t := SwapAdjacent(t, j);
        swapped := true;
      }
      j := j + 1;
    }
    PassFromPermutes(order, isMatrix, canSwapMatrices, s, 0);
    if && (canSwapMatrices || |Matrices(s, isMatrix)| <= 1)
       && TotalPreorder(order) && 1 <= k <= |s| && SortedFrom(order, s, k) {
      if !canSwapMatrices {
        PassFromAgrees(order, isMatrix, s, 0);
      }
      PassFromBubbles(order, isMatrix, s, 0, k);
    }
  }

  /** The sort of the children of an n-ary node. `passes` counts the passes
      it made. */
  method SortChildren(children: seq<Node>, order: Order, isMatrix: Node -> bool, canSwapMatrices: bool)
    returns (sorted: seq<Node>, passes: nat)
    ensures |sorted| == |children| && multiset(sorted) == multiset(children)
    ensures !canSwapMatrices ==> Matrices(sorted, isMatrix) == Matrices(children, isMatrix)
    ensures passes <= if |children| == 0 then 0 else |children| - 1
    ensures |children| < 2 ==> sorted == children
    ensures Settled(order, isMatrix, canSwapMatrices, children) ==> sorted == children
    ensures Settled(order, isMatrix, canSwapMatrices, sorted) || passes == |children| - 1
    ensures (canSwapMatrices || |Matrices(children, isMatrix)| <= 1) && TotalPreorder(order) ==>
              Settled(order, isMatrix, canSwapMatrices, sorted)
  {
    sorted := children;
    passes := 0;
    var i := |children| - 1;
    while i > 0
      invariant -1 <= i && passes + i == |children| - 1
      invariant i == -1 ==> |children| == 0
      invariant |sorted| == |children| && multiset(sorted) == multiset(children)
      invariant !canSwapMatrices ==> Matrices(sorted, isMatrix) == Matrices(children, isMatrix)
      invariant Settled(order, isMatrix, canSwapMatrices, children) ==> sorted == children
      invariant (canSwapMatrices || |Matrices(children, isMatrix)| <= 1) && TotalPreorder(order) ==>
                  SortedFrom(order, sorted, i + 1)
    {
      var swapped;
      sorted, swapped := Pass(sorted, order, isMatrix, canSwapMatrices, i + 1);
      passes := passes + 1;
      if !swapped {
        return;
      }
      i := i - 1;
    }
  }
}
