/** The logarithmic height promised in util/rbtree.c. */
module RbHeight {
  import opened RbTree
  import opened Bytes

  /** The number of nodes on the longest path down. */
  function Height(t: Tree): nat {
    if t.Nil? then 0 else 1 + Max(Height(t.l), Height(t.r))
  }

  lemma {:induction false} Pow2Monotone(a: nat, b: nat)
    requires a <= b
    ensures Pow2(a) <= Pow2(b)
    decreases b - a
  {
    if a < b {
      Pow2Monotone(a, b - 1);
    }
  }

  /** Property 5 bounds the size from below, properties 4 and 5 the height from above. */
  lemma {:induction false} BlackHeight(t: Tree, h: nat)
    requires Balanced(t, h)
    ensures Pow2(h) <= |Inorder(t)| + 1
    ensures Height(t) <= 2 * h + (if IsRed(t) then 1 else 0)
  {
    if t.Node? {
      var k := if t.red then h else h - 1;
      BlackHeight(t.l, k);
      BlackHeight(t.r, k);
    }
  }

  /** A red-black tree of n nodes is at most 2 log2(n + 1) high. */
  lemma {:induction false} HeightIsLogarithmic(t: Tree)
    requires RedBlack(t)
    ensures Pow2(Height(t)) <= (|Inorder(t)| + 1) * (|Inorder(t)| + 1)
  {
    var h: nat :| Balanced(t, h);
    BlackHeight(t, h);
    Pow2Monotone(Height(t), 2 * h);
    Pow2Sum(h, h);
    var p, n := Pow2(h), |Inorder(t)| + 1;
    Square(p, n);
  }

  lemma {:induction false} Square(p: nat, n: nat)
    requires p <= n
    ensures p * p <= n * n
  {
    assert p * p <= p * n;
    assert p * n <= n * n;
  }
}
