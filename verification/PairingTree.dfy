/** Bottom-up and top-down evaluation of the same binary tree, over any combining function. */
module PairingTree {
  import opened Rfc6962

  type Combine<!T> = (T, T) -> T

  /** Node `i` of the next level: two neighbours combined, or a last node without a partner
      promoted unchanged. */
  function Parent<T>(f: Combine<T>, nodes: seq<T>, i: nat): T
    requires i + i < |nodes|
  {
    if i + i + 1 < |nodes| then f(nodes[i + i], nodes[i + i + 1]) else nodes[i + i]
  }

  ghost predicate IsLevel<T>(f: Combine<T>, nodes: seq<T>, up: seq<T>) {
    |up| == (|nodes| + 1) / 2 && forall i :: 0 <= i < |up| ==> up[i] == Parent(f, nodes, i)
  }

  /** What one level contributes to the proof of the left (or, if `odd`, the right) child of
      node `i` of the next level: the other child, or nothing for a promoted node. */
  function LevelSibling<T>(nodes: seq<T>, i: nat, odd: bool): seq<T>
    requires i + i < |nodes| && (odd ==> i + i + 1 < |nodes|)
  {
    if odd then [nodes[i + i]]
    else if i + i + 1 < |nodes| then [nodes[i + i + 1]]
    else []
  }

  /** The tree of section 2.1 of RFC 6962 over the `n` nodes from position `lo`. */
  ghost function Tree<T>(f: Combine<T>, nodes: seq<T>, lo: nat, n: nat): T
    requires 0 < n && lo + n <= |nodes|
    decreases n, lo
  {
    if n == 1 then nodes[lo]
    else
      var k := Split(n);
      f(Tree(f, nodes, lo, k), Tree(f, nodes, lo + k, n - k))
  }

  /** The audit path of section 2.1.1 of RFC 6962 in that tree. */
  ghost function TreePath<T>(f: Combine<T>, m: nat, nodes: seq<T>, lo: nat, n: nat): seq<T>
    requires m < n && lo + n <= |nodes|
    decreases n, lo
  {
    if n == 1 then []
    else
      var k := Split(n);
      if m < k then TreePath(f, m, nodes, lo, k) + [Tree(f, nodes, lo + k, n - k)]
      else TreePath(f, m - k, nodes, lo + k, n - k) + [Tree(f, nodes, lo, k)]
  }

  lemma {:induction false} TreePathLeft<T>(f: Combine<T>, m: nat, nodes: seq<T>, lo: nat, n: nat, k: nat)
    requires 1 < n && k == Split(n) && m < k && lo + n <= |nodes|
    ensures TreePath(f, m, nodes, lo, n) == TreePath(f, m, nodes, lo, k) + [Tree(f, nodes, lo + k, n - k)]
  {
  }

  lemma {:induction false} TreePathRight<T>(f: Combine<T>, m: nat, nodes: seq<T>, lo: nat, n: nat, k: nat)
    requires 1 < n && k == Split(n) && k <= m < n && lo + n <= |nodes|
    ensures TreePath(f, m, nodes, lo, n) == TreePath(f, m - k, nodes, lo + k, n - k) + [Tree(f, nodes, lo, k)]
  {
  }

  // ---------------------------------------------------------------------
  // The same tree as the standard's
  // ---------------------------------------------------------------------

  /** The nodes from `lo` are the hashed leaves `D`. */
  ghost predicate HoldsLeaves<L, T>(leaf: L -> T, nodes: seq<T>, lo: nat, D: seq<L>) {
    lo + |D| <= |nodes| && forall i :: 0 <= i < |D| ==> nodes[lo + i] == leaf(D[i])
  }

  lemma {:induction false} HoldsHalves<L, T>(leaf: L -> T, nodes: seq<T>, lo: nat, D: seq<L>, k: nat)
    requires k <= |D| && HoldsLeaves(leaf, nodes, lo, D)
    ensures HoldsLeaves(leaf, nodes, lo, D[..k]) && HoldsLeaves(leaf, nodes, lo + k, D[k..])
  {
    forall i | 0 <= i < |D| - k ensures nodes[lo + k + i] == leaf(D[k..][i]) {
      assert nodes[lo + (k + i)] == leaf(D[k + i]);
    }
  }

  lemma {:induction false} TreeIsTreeHash<L, T>(leaf: L -> T, f: Combine<T>, nodes: seq<T>, lo: nat, D: seq<L>)
    requires D != [] && HoldsLeaves(leaf, nodes, lo, D)
    ensures Tree(f, nodes, lo, |D|) == TreeHash(leaf, f, D)
    decreases |D|
  {
    if |D| == 1 {
      assert nodes[lo + 0] == leaf(D[0]);
    } else {
      var k := Split(|D|);
      HoldsHalves(leaf, nodes, lo, D, k);
      TreeIsTreeHash(leaf, f, nodes, lo, D[..k]);
      TreeIsTreeHash(leaf, f, nodes, lo + k, D[k..]);
    }
  }

  lemma {:induction false} TreePathIsAuditPath<L, T>(
    leaf: L -> T, f: Combine<T>, m: nat, nodes: seq<T>, lo: nat, D: seq<L>)
    requires m < |D| && HoldsLeaves(leaf, nodes, lo, D)
    ensures TreePath(f, m, nodes, lo, |D|) == AuditPath(leaf, f, m, D)
    decreases |D|, 1
  {
    if |D| > 1 {
      var k := Split(|D|);
      HoldsHalves(leaf, nodes, lo, D, k);
      if m < k {
        AuditPathFromLeft(leaf, f, m, nodes, lo, D, k, D[..k], D[k..]);
      } else {
        AuditPathFromRight(leaf, f, m, nodes, lo, D, k, D[..k], D[k..]);
      }
    }
  }

  lemma {:induction false} AuditPathFromLeft<L, T>(
    leaf: L -> T, f: Combine<T>, m: nat, nodes: seq<T>, lo: nat, D: seq<L>, k: nat, left: seq<L>, right: seq<L>)
    requires 1 < |D| && k == Split(|D|) && m < k && lo + |D| <= |nodes| && left == D[..k] && right == D[k..]
    requires HoldsLeaves(leaf, nodes, lo, left) && HoldsLeaves(leaf, nodes, lo + k, right)
    ensures TreePath(f, m, nodes, lo, |D|) == AuditPath(leaf, f, m, D)
    decreases |D|, 0
  {
    AuditPathEquations(leaf, f, m, D, k, left, right);
    TreePathLeft(f, m, nodes, lo, |D|, k);
    TreePathIsAuditPath(leaf, f, m, nodes, lo, left);
    TreeIsTreeHash(leaf, f, nodes, lo + k, right);
  }

  lemma {:induction false} AuditPathFromRight<L, T>(
    leaf: L -> T, f: Combine<T>, m: nat, nodes: seq<T>, lo: nat, D: seq<L>, k: nat, left: seq<L>, right: seq<L>)
    requires 1 < |D| && k == Split(|D|) && k <= m < |D| && lo + |D| <= |nodes| && left == D[..k] && right == D[k..]
    requires HoldsLeaves(leaf, nodes, lo, left) && HoldsLeaves(leaf, nodes, lo + k, right)
    ensures TreePath(f, m, nodes, lo, |D|) == AuditPath(leaf, f, m, D)
    decreases |D|, 0
  {
    AuditPathEquations(leaf, f, m, D, k, left, right);
    TreePathRight(f, m, nodes, lo, |D|, k);
    TreePathIsAuditPath(leaf, f, m - k, nodes, lo + k, right);
    TreeIsTreeHash(leaf, f, nodes, lo, left);
  }

  lemma {:induction false} AuditPathEquations<L, T>(
    leaf: L -> T, f: Combine<T>, m: nat, D: seq<L>, k: nat, left: seq<L>, right: seq<L>)
    requires 1 < |D| && k == Split(|D|) && m < |D| && left == D[..k] && right == D[k..]
    ensures AuditPath(leaf, f, m, D)
            == if m < k then AuditPath(leaf, f, m, left) + [TreeHash(leaf, f, right)]
               else AuditPath(leaf, f, m - k, right) + [TreeHash(leaf, f, left)]
  {
  }

  // ---------------------------------------------------------------------
  // One level at a time
  // ---------------------------------------------------------------------

  /** Pairing a level never changes the value of a subtree that splits no pair.  The subtree
      covers `n` nodes from `base` below and `h` nodes from `lo` above. */
  lemma {:induction false} TreeOfLevel<T>(f: Combine<T>, nodes: seq<T>, base: nat, n: nat, up: seq<T>, lo: nat, h: nat)
    requires IsLevel(f, nodes, up)
    requires 0 < n && base + n <= |nodes| && base == lo + lo
    requires n == h + h || (n == h + h - 1 && base + n == |nodes|)
    ensures Tree(f, up, lo, h) == Tree(f, nodes, base, n)
    decreases n
  {
    if n <= 2 {
      assert up[lo] == Parent(f, nodes, lo);
    } else {
      SplitHalves(n, h);
      var j, k := Split(h), Split(n);
      assert Tree(f, up, lo, j) == Tree(f, nodes, base, k) by {
        TreeOfLevel(f, nodes, base, k, up, lo, j);
      }
      assert Tree(f, up, lo + j, h - j) == Tree(f, nodes, base + k, n - k) by {
        TreeOfLevel(f, nodes, base + k, n - k, up, lo + j, h - j);
      }
    }
  }

  /** The proof of node `m` of a subtree is `sibling` and then the proof of its parent `q` in the
      subtree above. */
  ghost predicate StepsUp<T>(
    f: Combine<T>, sibling: seq<T>, m: nat, nodes: seq<T>, base: nat, n: nat, q: nat, up: seq<T>, lo: nat, h: nat)
  {
    && m < n && base + n <= |nodes| && q < h && lo + h <= |up|
    && TreePath(f, m, nodes, base, n) == sibling + TreePath(f, q, up, lo, h)
  }

  lemma {:induction false} PathOfPair<T>(
    f: Combine<T>, odd: bool, nodes: seq<T>, base: nat, n: nat, up: seq<T>, lo: nat)
    requires 0 < n <= 2 && base + n <= |nodes| && base == lo + lo && lo < |up|
    requires if n == 1 then !odd && base + n == |nodes| else true
    ensures StepsUp(f, LevelSibling(nodes, lo, odd), if odd then 1 else 0, nodes, base, n, 0, up, lo, 1)
  {
    assert TreePath(f, 0, up, lo, 1) == [];
    if n == 2 {
      assert TreePath(f, 0, nodes, base, 1) == [];
      assert TreePath(f, 0, nodes, base + 1, 1) == [];
    }
  }

  /** Extending both trees by their right parts keeps the sibling in front ... */
  lemma {:induction false} ExtendRight<T>(
    f: Combine<T>, sibling: seq<T>, m: nat, nodes: seq<T>, base: nat, n: nat, k: nat,
    q: nat, up: seq<T>, lo: nat, h: nat, j: nat)
    requires 1 < n && k == Split(n) && base + n <= |nodes|
    requires 1 < h && j == Split(h) && lo + h <= |up|
    requires StepsUp(f, sibling, m, nodes, base, k, q, up, lo, j)
    requires Tree(f, nodes, base + k, n - k) == Tree(f, up, lo + j, h - j)
    ensures StepsUp(f, sibling, m, nodes, base, n, q, up, lo, h)
  {
    SameLastStep(TreePath(f, m, nodes, base, k), sibling, TreePath(f, q, up, lo, j), Tree(f, up, lo + j, h - j));
  }

  /** ... and so does extending them by their left parts; the right parts begin at `baseR` and `loR`. */
  lemma {:induction false} ExtendLeft<T>(
    f: Combine<T>, sibling: seq<T>, m: nat, nodes: seq<T>, base: nat, n: nat, k: nat,
    q: nat, up: seq<T>, lo: nat, h: nat, j: nat, baseR: nat, nR: nat, loR: nat, hR: nat)
    requires 1 < n && k == Split(n) && k <= m && base + n <= |nodes| && baseR == base + k && nR == n - k
    requires 1 < h && j == Split(h) && j <= q && lo + h <= |up| && loR == lo + j && hR == h - j
    requires StepsUp(f, sibling, m - k, nodes, baseR, nR, q - j, up, loR, hR)
    requires Tree(f, nodes, base, k) == Tree(f, up, lo, j)
    ensures StepsUp(f, sibling, m, nodes, base, n, q, up, lo, h)
  {
    SameLastStep(TreePath(f, m - k, nodes, baseR, nR), sibling, TreePath(f, q - j, up, loR, hR), Tree(f, up, lo, j));
  }

  lemma {:induction false} SameLastStep<T>(below: seq<T>, sibling: seq<T>, path: seq<T>, x: T)
    requires below == sibling + path
    ensures below + [x] == sibling + (path + [x])
  {
  }

  /** A proof is one level's sibling followed by the proof one level up: node `m` of the subtree
      has parent `q` in the subtree above, which is node `at` of that level. */
  lemma {:induction false} TreePathOfLevel<T>(
    f: Combine<T>, sibling: seq<T>, odd: bool, at: nat, m: nat, nodes: seq<T>, base: nat, n: nat,
    q: nat, up: seq<T>, lo: nat, h: nat)
    requires IsLevel(f, nodes, up)
    requires m < n && base + n <= |nodes| && base == lo + lo && at == lo + q
    requires n == h + h || (n == h + h - 1 && base + n == |nodes|)
    requires m == if odd then q + q + 1 else q + q
    requires sibling == LevelSibling(nodes, at, odd)
    ensures StepsUp(f, sibling, m, nodes, base, n, q, up, lo, h)
    decreases n, 1
  {
    if n <= 2 {
      PathOfPair(f, odd, nodes, base, n, up, lo);
    } else {
      SplitHalves(n, h);
      if m < Split(n) {
        LeftPathOfLevel(f, sibling, odd, at, m, nodes, base, n, Split(n), q, up, lo, h, Split(h));
      } else {
        RightPathOfLevel(f, sibling, odd, at, m, nodes, base, n, Split(n), q, up, lo, h, Split(h));
      }
    }
  }

  lemma {:induction false} LeftPathOfLevel<T>(
    f: Combine<T>, sibling: seq<T>, odd: bool, at: nat, m: nat, nodes: seq<T>, base: nat, n: nat, k: nat,
    q: nat, up: seq<T>, lo: nat, h: nat, j: nat)
    requires IsLevel(f, nodes, up)
    requires 2 < n && m < k && base + n <= |nodes| && base == lo + lo && at == lo + q
    requires n == h + h || (n == h + h - 1 && base + n == |nodes|)
    requires m == if odd then q + q + 1 else q + q
    requires k == Split(n) == j + j && j == Split(h)
    requires sibling == LevelSibling(nodes, at, odd)
    ensures StepsUp(f, sibling, m, nodes, base, n, q, up, lo, h)
    decreases n, 0
  {
    TreePathOfLevel(f, sibling, odd, at, m, nodes, base, k, q, up, lo, j);
    assert Tree(f, nodes, base + k, n - k) == Tree(f, up, lo + j, h - j) by {
      var n', h' := n - k, h - j;
      assert n' == h' + h' || (n' == h' + h' - 1 && base + k + n' == |nodes|);
      TreeOfLevel(f, nodes, base + k, n', up, lo + j, h');
    }
    ExtendRight(f, sibling, m, nodes, base, n, k, q, up, lo, h, j);
  }

  lemma {:induction false} RightPathOfLevel<T>(
    f: Combine<T>, sibling: seq<T>, odd: bool, at: nat, m: nat, nodes: seq<T>, base: nat, n: nat, k: nat,
    q: nat, up: seq<T>, lo: nat, h: nat, j: nat)
    requires IsLevel(f, nodes, up)
    requires 2 < n && k <= m < n && base + n <= |nodes| && base == lo + lo && at == lo + q
    requires n == h + h || (n == h + h - 1 && base + n == |nodes|)
    requires m == if odd then q + q + 1 else q + q
    requires k == Split(n) == j + j && j == Split(h)
    requires sibling == LevelSibling(nodes, at, odd)
    ensures StepsUp(f, sibling, m, nodes, base, n, q, up, lo, h)
    decreases n, 0
  {
    var baseR, nR, loR, hR := base + k, n - k, lo + j, h - j;
    assert nR == hR + hR || (nR == hR + hR - 1 && baseR + nR == |nodes|);
    assert Tree(f, nodes, base, k) == Tree(f, up, lo, j) by {
      TreeOfLevel(f, nodes, base, k, up, lo, j);
    }
    TreePathOfLevel(f, sibling, odd, at, m - k, nodes, baseR, nR, q - j, up, loR, hR);
    ExtendLeft(f, sibling, m, nodes, base, n, k, q, up, lo, h, j, baseR, nR, loR, hR);
  }
}
