/** Sections 2.1 and 2.1.1 of RFC 6962: the Merkle Tree Hash and the audit path,
    written recursively as the standard writes them. */
module Rfc6962 {
  import opened Primitives

  function Pow2(e: nat): nat {
    if e == 0 then 1 else Pow2(e - 1) + Pow2(e - 1)
  }

  ghost predicate IsPowerOfTwo(k: nat) {
    exists e: nat :: k == Pow2(e)
  }

  /** `k` is the largest power of two smaller than `n`: k < n <= 2k. */
  ghost predicate IsSplit(k: nat, n: nat) {
    IsPowerOfTwo(k) && k < n <= k + k
  }

  ghost function Split(n: nat): (k: nat)
    requires n >= 2
    ensures IsSplit(k, n)
  {
    SplitExists(n);
    var k: nat :| IsSplit(k, n);
    k
  }

  lemma {:induction false} SplitExists(n: nat)
    requires n >= 2
    ensures exists k: nat :: IsSplit(k, n)
  {
    if n == 2 {
      assert 1 == Pow2(0);
      assert IsSplit(1, n);
    } else {
      SplitExists(n - 1);
      var k: nat :| IsSplit(k, n - 1);
      Doubled(k);
      assert IsSplit(k, n) || IsSplit(k + k, n);
    }
  }

  lemma {:induction false} Doubled(k: nat)
    requires IsPowerOfTwo(k)
    ensures IsPowerOfTwo(k + k)
  {
    var e: nat :| k == Pow2(e);
    assert k + k == Pow2(e + 1);
  }

  lemma {:induction false} Pow2Monotone(d: nat, e: nat)
    requires d < e
    ensures Pow2(d) + Pow2(d) <= Pow2(e)
  {
    if d + 1 < e {
      Pow2Monotone(d, e - 1);
    }
  }

  lemma {:induction false} SplitUnique(k: nat, n: nat)
    requires n >= 2 && IsSplit(k, n)
    ensures k == Split(n)
  {
    var d: nat :| k == Pow2(d);
    var e: nat :| Split(n) == Pow2(e);
    if d < e {
      Pow2Monotone(d, e);
    } else if e < d {
      Pow2Monotone(e, d);
    }
  }

  /** Halving a level halves its split point. */
  lemma {:induction false} SplitHalves(n: nat, h: nat)
    requires n > 2 && h + h - 1 <= n <= h + h
    ensures Split(n) == Split(h) + Split(h)
  {
    var j := Split(h);
    Doubled(j);
    SplitUnique(j + j, n);
  }

  // ---------------------------------------------------------------------
  // The recursion of the standard, for any leaf function and node function
  // ---------------------------------------------------------------------

  ghost function TreeHash<L, T>(leaf: L -> T, node: (T, T) -> T, D: seq<L>): T
    requires D != []
    decreases |D|
  {
    if |D| == 1 then leaf(D[0])
    else
      var k := Split(|D|);
      node(TreeHash(leaf, node, D[..k]), TreeHash(leaf, node, D[k..]))
  }

  ghost function AuditPath<L, T>(leaf: L -> T, node: (T, T) -> T, m: nat, D: seq<L>): seq<T>
    requires m < |D|
    decreases |D|
  {
    if |D| == 1 then []
    else
      var k := Split(|D|);
      if m < k then AuditPath(leaf, node, m, D[..k]) + [TreeHash(leaf, node, D[k..])]
      else AuditPath(leaf, node, m - k, D[k..]) + [TreeHash(leaf, node, D[..k])]
  }

  // ---------------------------------------------------------------------
  // Leaves are hashed behind a 0x00 byte, nodes behind a 0x01 byte
  // ---------------------------------------------------------------------

  function LeafHash(H: Hash, data: Bytes): Digest {
    H([0] + data)
  }

  function NodeHash(H: Hash, left: Bytes, right: Bytes): Digest {
    H([1] + left + right)
  }

  function LeafOf(H: Hash): Bytes -> Digest {
    (data: Bytes) => LeafHash(H, data)
  }

  function NodeOf(H: Hash): (Digest, Digest) -> Digest {
    (left: Digest, right: Digest) => NodeHash(H, left, right)
  }

  /** MTH(D[n]). */
  ghost function MTH(H: Hash, D: seq<Bytes>): Digest {
    if D == [] then H([]) else TreeHash(LeafOf(H), NodeOf(H), D)
  }

  /** PATH(m, D[n]). */
  ghost function PATH(H: Hash, m: nat, D: seq<Bytes>): seq<Digest>
    requires m < |D|
  {
    AuditPath(LeafOf(H), NodeOf(H), m, D)
  }
}
