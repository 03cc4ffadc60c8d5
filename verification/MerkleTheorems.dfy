/** What the Merkle tree of `cgatc/audit/merkle.py` guarantees to whoever holds a root. */
module MerkleTheorems {
  import opened Primitives
  import opened Rfc6962
  import opened Merkle

  // ---------------------------------------------------------------------
  // Unfolding the standard's recursion at a given hash
  // ---------------------------------------------------------------------

  /** The three equations of section 2.1 of RFC 6962. */
  lemma {:induction false} MTHEquations(H: Hash, D: seq<Bytes>)
    ensures |D| == 0 ==> MTH(H, D) == H([])
    ensures |D| == 1 ==> MTH(H, D) == LeafHash(H, D[0])
    ensures |D| > 1 ==> MTH(H, D) == NodeHash(H, MTH(H, D[..Split(|D|)]), MTH(H, D[Split(|D|)..]))
  {
  }

  /** The equations of section 2.1.1 of RFC 6962. */
  lemma {:induction false} PATHEquations(H: Hash, m: nat, D: seq<Bytes>)
    requires m < |D|
    ensures |D| == 1 ==> PATH(H, m, D) == []
    ensures |D| > 1 && m < Split(|D|) ==>
              PATH(H, m, D) == PATH(H, m, D[..Split(|D|)]) + [MTH(H, D[Split(|D|)..])]
    ensures |D| > 1 && m >= Split(|D|) ==>
              PATH(H, m, D) == PATH(H, m - Split(|D|), D[Split(|D|)..]) + [MTH(H, D[..Split(|D|)])]
  {
  }

  /** The input whose hash is MTH(D). */
  ghost function RootInput(H: Hash, D: seq<Bytes>): (x: Bytes)
    ensures H(x) == MTH(H, D)
  {
    MTHEquations(H, D);
    if |D| == 0 then []
    else if |D| == 1 then [0] + D[0]
    else [1] + MTH(H, D[..Split(|D|)]) + MTH(H, D[Split(|D|)..])
  }

  /** Everything that is hashed while MTH(D) is computed. */
  ghost function HashedBy(H: Hash, D: seq<Bytes>): set<Bytes>
    decreases |D|
  {
    {RootInput(H, D)}
    + if |D| <= 1 then {} else HashedBy(H, D[..Split(|D|)]) + HashedBy(H, D[Split(|D|)..])
  }

  lemma {:induction false} SameNodeInput(a: Bytes, b: Bytes, c: Bytes, d: Bytes)
    requires [1] + a + b == [1] + c + d
    requires |a| == |c| || |b| == |d|
    ensures a == c && b == d
  {
    assert [1] + a + b == [1] + (a + b);
    assert [1] + c + d == [1] + (c + d);
    SplitConcat([1 as Byte], a + b, [1], c + d);
    SplitConcat(a, b, c, d);
  }

  // ---------------------------------------------------------------------
  // A root fixes its leaves
  // ---------------------------------------------------------------------

  lemma {:induction false} SameParts(D: seq<Bytes>, E: seq<Bytes>, k: nat, l: nat)
    requires k <= |D| && l <= |E| && D[..k] == E[..l] && D[k..] == E[l..]
    ensures D == E
  {
    assert D == D[..k] + D[k..] && E == E[..l] + E[l..];
  }

  /** The inputs of roots say whether there is no leaf, one leaf, or a pair to split. */
  lemma {:induction false} RootInputTag(H: Hash, D: seq<Bytes>)
    ensures var x := RootInput(H, D);
            if D == [] then x == [] else x != [] && x[0] == if |D| == 1 then 0 else 1
  {
  }

  /** Two lists of leaves with the same root are the same list, whatever their lengths. */
  lemma {:induction false} RootBindsLeaves(H: Hash, D: seq<Bytes>, E: seq<Bytes>)
    requires CollisionFree(H, HashedBy(H, D) + HashedBy(H, E))
    requires MTH(H, D) == MTH(H, E)
    ensures D == E
    decreases |D|
  {
    var x, y := RootInput(H, D), RootInput(H, E);
    RootInputTag(H, D);
    RootInputTag(H, E);
    assert x == y by {
      assert x in HashedBy(H, D) && y in HashedBy(H, E);
    }
    if |D| == 1 {
      SplitConcat([0 as Byte], D[0], [0], E[0]);
    } else if |D| > 1 {
      var k, l := Split(|D|), Split(|E|);
      assert MTH(H, D[..k]) == MTH(H, E[..l]) && MTH(H, D[k..]) == MTH(H, E[l..]) by {
        SameNodeInput(MTH(H, D[..k]), MTH(H, D[k..]), MTH(H, E[..l]), MTH(H, E[l..]));
      }
      RootBindsLeaves(H, D[..k], E[..l]);
      RootBindsLeaves(H, D[k..], E[l..]);
      SameParts(D, E, k, l);
    }
  }

  // ---------------------------------------------------------------------
  // The verifier's walk, seen from the root
  // ---------------------------------------------------------------------

  lemma {:induction false} SidesStep(idx: nat, last: nat, odd: bool, q: nat, up: nat)
    requires 0 < last && idx <= last
    requires idx == if odd then q + q + 1 else q + q
    requires last == up + up || last == up + up + 1
    ensures Sides(idx, last) == if !odd && idx == last then Sides(q, up) else [odd] + Sides(q, up)
  {
    assert idx / 2 == q && last / 2 == up;
    assert idx % 2 == 1 <==> odd;
  }

  lemma {:induction false} LeftWalk(m: nat, odd: bool, q: nat, n: nat, h: nat, j: nat)
    requires 0 < j < h && j + j < n && (n == h + h || n == h + h - 1)
    requires m < j + j && m == if odd then q + q + 1 else q + q
    requires Sides(q, h - 1) == Sides(q, j - 1) + [false]
    ensures Sides(m, n - 1) == Sides(m, j + j - 1) + [false]
  {
    SidesStep(m, n - 1, odd, q, h - 1);
    SidesStep(m, j + j - 1, odd, q, j - 1);
    AppendAssoc([odd], Sides(q, j - 1), [false]);
  }

  lemma {:induction false} RightWalk(m: nat, odd: bool, q: nat, n: nat, h: nat, j: nat)
    requires 0 < j < h && j + j + 1 < n && (n == h + h || n == h + h - 1)
    requires j + j <= m < n && m == if odd then q + q + 1 else q + q
    requires Sides(q, h - 1) == Sides(q - j, h - j - 1) + [true]
    ensures Sides(m, n - 1) == Sides(m - j - j, n - j - j - 1) + [true]
  {
    SidesStep(m, n - 1, odd, q, h - 1);
    SidesStep(m - j - j, n - j - j - 1, odd, q - j, h - j - 1);
    AppendAssoc([odd], Sides(q - j, h - j - 1), [true]);
  }

  /** The right part is a single promoted leaf. */
  lemma {:induction false} PromotedWalk(j: nat)
    requires 0 < j && Sides(j, j) == [true]
    ensures Sides(j + j, j + j) == [true]
  {
    SidesStep(j + j, j + j, false, j, j);
  }

  /** The walk ends with the turn at the root: left part or right part. */
  ghost predicate EndsAtRoot(m: nat, n: nat, k: nat) {
    && m < n && 0 < k < n
    && Sides(m, n - 1) == if m < k then Sides(m, k - 1) + [false] else Sides(m - k, n - k - 1) + [true]
  }

  lemma {:induction false} EndsAtRootAbove(m: nat, n: nat, odd: bool, q: nat, h: nat, j: nat)
    requires EndsAtRoot(q, h, j) && m < n && j + j < n && (n == h + h || n == h + h - 1)
    requires m == if odd then q + q + 1 else q + q
    ensures EndsAtRoot(m, n, j + j)
  {
    if m < j + j {
      LeftWalk(m, odd, q, n, h, j);
    } else if n == j + j + 1 {
      PromotedWalk(j);
    } else {
      RightWalk(m, odd, q, n, h, j);
    }
  }

  lemma {:induction false} SidesFromRoot(m: nat, n: nat)
    requires m < n && 1 < n
    ensures EndsAtRoot(m, n, Split(n))
    decreases n
  {
    var odd, q, h := m % 2 == 1, m / 2, (n + 1) / 2;
    if n == 2 {
      SidesStep(m, 1, odd, q, 0);
    } else {
      SplitHalves(n, h);
      SidesFromRoot(q, h);
      EndsAtRootAbove(m, n, odd, q, h, Split(h));
    }
  }

  /** The turns of leaf `m` among `n`, by the standard's recursion: the last one tells the half. */
  ghost function Turns(m: nat, n: nat): seq<bool>
    requires m < n
    decreases n
  {
    if n == 1 then []
    else if m < Split(n) then Turns(m, Split(n)) + [false]
    else Turns(m - Split(n), n - Split(n)) + [true]
  }

  /** The verifier, halving indices from the leaf up, takes exactly these turns. */
  lemma {:induction false} SidesAreTurns(m: nat, n: nat)
    requires m < n
    ensures Sides(m, n - 1) == Turns(m, n)
    decreases n
  {
    if n > 1 {
      SidesFromRoot(m, n);
      if m < Split(n) {
        SidesAreTurns(m, Split(n));
      } else {
        SidesAreTurns(m - Split(n), n - Split(n));
      }
    }
  }

  /** In a tree of known size the turns determine the leaf. */
  lemma {:induction false} TurnsInjective(m: nat, m': nat, n: nat)
    requires m < n && m' < n && Turns(m, n) == Turns(m', n)
    ensures m == m'
    decreases n
  {
    if n > 1 {
      var k, s := Split(n), Turns(m, n);
      assert s[|s| - 1] == !(m < k) && s[|s| - 1] == !(m' < k);
      if m < k {
        SplitConcat(Turns(m, k), [false], Turns(m', k), [false]);
        TurnsInjective(m, m', k);
      } else {
        SplitConcat(Turns(m - k, n - k), [true], Turns(m' - k, n - k), [true]);
        TurnsInjective(m - k, m' - k, n - k);
      }
    }
  }

  /** The last turn of a climb combines the result of all turns before it. */
  lemma {:induction false} ClimbLastTurn(
    H: Hash, cur: Digest, sides: seq<bool>, siblings: seq<Bytes>, side: bool, sibling: Bytes)
    requires |sides| == |siblings|
    ensures Climb(H, cur, sides + [side], siblings + [sibling])
            == Turn(H, Climb(H, cur, sides, siblings), sibling, side)
    decreases |sides|
  {
    var sides', siblings' := sides + [side], siblings + [sibling];
    if sides == [] {
      assert Climb(H, Turn(H, cur, sibling, side), sides'[1..], siblings'[1..]) == Turn(H, cur, sibling, side);
    } else {
      assert sides'[1..] == sides[1..] + [side] && siblings'[1..] == siblings[1..] + [sibling];
      ClimbLastTurn(H, Turn(H, cur, siblings[0], sides[0]), sides[1..], siblings[1..], side, sibling);
    }
  }

  /** What the verifier hashes last: the leaf itself or the topmost pair. */
  ghost function TopInput(H: Hash, leaf: Bytes, sides: seq<bool>, siblings: seq<Bytes>): (x: Bytes)
    requires |sides| == |siblings|
    ensures H(x) == Climb(H, LeafHash(H, leaf), sides, siblings)
  {
    if sides == [] then [0] + leaf
    else
      var t := |sides| - 1;
      var below := Climb(H, LeafHash(H, leaf), sides[..t], siblings[..t]);
      ClimbLastTurn(H, LeafHash(H, leaf), sides[..t], siblings[..t], sides[t], siblings[t]);
      assert sides[..t] + [sides[t]] == sides && siblings[..t] + [siblings[t]] == siblings;
      if sides[t] then [1] + siblings[t] + below else [1] + below + siblings[t]
  }

  /** Everything that the verifier hashes. */
  ghost function HashedByVerifier(H: Hash, leaf: Bytes, sides: seq<bool>, siblings: seq<Bytes>): set<Bytes>
    requires |sides| == |siblings|
    decreases |sides|
  {
    {TopInput(H, leaf, sides, siblings)}
    + if sides == [] then {} else HashedByVerifier(H, leaf, sides[..|sides| - 1], siblings[..|sides| - 1])
  }

  // ---------------------------------------------------------------------
  // Completeness
  // ---------------------------------------------------------------------

  ghost predicate ClimbsTo(H: Hash, m: nat, D: seq<Bytes>)
    requires m < |D|
  {
    && |Turns(m, |D|)| == |PATH(H, m, D)|
    && Climb(H, LeafHash(H, D[m]), Turns(m, |D|), PATH(H, m, D)) == MTH(H, D)
  }

  /** Climbing along the audit path of leaf `m` reaches the root. */
  lemma {:induction false} ClimbPath(H: Hash, m: nat, D: seq<Bytes>)
    requires m < |D|
    ensures ClimbsTo(H, m, D)
    decreases |D|
  {
    if |D| == 1 {
      MTHEquations(H, D);
      PATHEquations(H, m, D);
    } else if m < Split(|D|) {
      ClimbPath(H, m, D[..Split(|D|)]);
      ClimbFromLeft(H, m, D, Split(|D|), D[..Split(|D|)], D[Split(|D|)..]);
    } else {
      ClimbPath(H, m - Split(|D|), D[Split(|D|)..]);
      ClimbFromRight(H, m, D, Split(|D|), D[..Split(|D|)], D[Split(|D|)..]);
    }
  }

  lemma {:induction false} ClimbFromLeft(
    H: Hash, m: nat, D: seq<Bytes>, k: nat, left: seq<Bytes>, right: seq<Bytes>)
    requires 1 < |D| && k == Split(|D|) && m < k && left == D[..k] && right == D[k..] && ClimbsTo(H, m, left)
    ensures ClimbsTo(H, m, D)
  {
    MTHEquations(H, D);
    PATHEquations(H, m, D);
    ClimbToParent(H, D[m], Turns(m, k), PATH(H, m, left), false, MTH(H, left), MTH(H, right));
  }

  lemma {:induction false} ClimbFromRight(
    H: Hash, m: nat, D: seq<Bytes>, k: nat, left: seq<Bytes>, right: seq<Bytes>)
    requires 1 < |D| && k == Split(|D|) && k <= m < |D| && left == D[..k] && right == D[k..]
    requires ClimbsTo(H, m - k, right)
    ensures ClimbsTo(H, m, D)
  {
    MTHEquations(H, D);
    PATHEquations(H, m, D);
    ClimbToParent(H, D[m], Turns(m - k, |D| - k), PATH(H, m - k, right), true, MTH(H, right), MTH(H, left));
  }

  lemma {:induction false} ClimbToParent(
    H: Hash, leaf: Bytes, turns: seq<bool>, path: seq<Bytes>, right: bool, below: Digest, sibling: Digest)
    requires |turns| == |path| && Climb(H, LeafHash(H, leaf), turns, path) == below
    ensures Climb(H, LeafHash(H, leaf), turns + [right], path + [sibling]) == Turn(H, below, sibling, right)
  {
    ClimbLastTurn(H, LeafHash(H, leaf), turns, path, right, sibling);
  }

  /** Every proof that `build_proof` returns is accepted against `merkle_root`. */
  lemma {:induction false} BuiltProofsAreAccepted(H: Hash, D: seq<Bytes>, i: nat)
    requires i < |D|
    ensures Accepts(H, D[i], InclusionProof(i, |D|, PATH(H, i, D)), MTH(H, D))
  {
    SidesAreTurns(i, |D|);
    ClimbPath(H, i, D);
  }

  /** A proof is no longer than the tree is high: at most e siblings for n <= 2^e leaves. */
  lemma {:induction false} PathLength(H: Hash, i: nat, D: seq<Bytes>, e: nat)
    requires i < |D| <= Pow2(e)
    ensures |PATH(H, i, D)| <= e
    decreases |D|
  {
    PATHEquations(H, i, D);
    if |D| > 1 {
      var k := Split(|D|);
      var d: nat :| k == Pow2(d);
      if e <= d {
        if e < d {
          Pow2Monotone(e, d);
        }
        assert false;
      }
      if d < e - 1 {
        Pow2Monotone(d, e - 1);
      }
      if i < k {
        PathLength(H, i, D[..k], e - 1);
      } else {
        PathLength(H, i - k, D[k..], e - 1);
      }
    }
  }

  // ---------------------------------------------------------------------
  // Soundness
  // ---------------------------------------------------------------------

  /** `m` explains an accepted climb: the climb starts at leaf `m`, takes its turns and uses
      its audit path. */
  ghost predicate Explains(H: Hash, m: nat, leaf: Bytes, sides: seq<bool>, siblings: seq<Bytes>, D: seq<Bytes>) {
    m < |D| && leaf == D[m] && sides == Turns(m, |D|) && siblings == PATH(H, m, D)
  }

  ghost predicate Explained(H: Hash, leaf: Bytes, sides: seq<bool>, siblings: seq<Bytes>, D: seq<Bytes>) {
    exists m: nat :: Explains(H, m, leaf, sides, siblings, D)
  }

  /** A leaf is hashed behind a zero byte, a pair behind a one byte. */
  lemma {:induction false} TopInputTag(H: Hash, leaf: Bytes, sides: seq<bool>, siblings: seq<Bytes>)
    requires |sides| == |siblings|
    ensures var x := TopInput(H, leaf, sides, siblings); x != [] && x[0] == if sides == [] then 0 else 1
  {
  }

  lemma {:induction false} ExplainedFromLeft(
    H: Hash, m: nat, leaf: Bytes, sides: seq<bool>, siblings: seq<Bytes>, D: seq<Bytes>)
    requires |D| > 1
    requires Explains(H, m, leaf, sides, siblings, D[..Split(|D|)])
    ensures Explains(H, m, leaf, sides + [false], siblings + [MTH(H, D[Split(|D|)..])], D)
  {
    PATHEquations(H, m, D);
  }

  lemma {:induction false} ExplainedFromRight(
    H: Hash, m: nat, leaf: Bytes, sides: seq<bool>, siblings: seq<Bytes>, D: seq<Bytes>)
    requires |D| > 1
    requires Explains(H, m, leaf, sides, siblings, D[Split(|D|)..])
    ensures Explains(H, m + Split(|D|), leaf, sides + [true], siblings + [MTH(H, D[..Split(|D|)])], D)
  {
    PATHEquations(H, m + Split(|D|), D);
  }

  /** A climb to the root of `D` ends with the very hash that makes the root. */
  lemma {:induction false} TopIsRoot(H: Hash, leaf: Bytes, sides: seq<bool>, siblings: seq<Bytes>, D: seq<Bytes>)
    requires |sides| == |siblings|
    requires CollisionFree(H, HashedBy(H, D) + HashedByVerifier(H, leaf, sides, siblings))
    requires Climb(H, LeafHash(H, leaf), sides, siblings) == MTH(H, D)
    ensures TopInput(H, leaf, sides, siblings) == RootInput(H, D)
    ensures D != [] && (sides == [] <==> |D| == 1)
  {
    var x, y := TopInput(H, leaf, sides, siblings), RootInput(H, D);
    assert x in HashedByVerifier(H, leaf, sides, siblings) && y in HashedBy(H, D);
    TopInputTag(H, leaf, sides, siblings);
    RootInputTag(H, D);
  }

  /** If the last hash of a climb has the input of the root, it pairs the root's halves. */
  lemma {:induction false} SameTopNode(H: Hash, leaf: Bytes, sides: seq<bool>, siblings: seq<Bytes>, D: seq<Bytes>)
    requires sides != [] && |sides| == |siblings| && |D| > 1
    requires TopInput(H, leaf, sides, siblings) == RootInput(H, D)
    ensures var t, left, right := |sides| - 1, MTH(H, D[..Split(|D|)]), MTH(H, D[Split(|D|)..]);
            && siblings[t] == (if sides[t] then left else right)
            && Climb(H, LeafHash(H, leaf), sides[..t], siblings[..t]) == if sides[t] then right else left
  {
    var t := |sides| - 1;
    var below := Climb(H, LeafHash(H, leaf), sides[..t], siblings[..t]);
    if sides[t] {
      SameNodeInput(siblings[t], below, MTH(H, D[..Split(|D|)]), MTH(H, D[Split(|D|)..]));
    } else {
      SameNodeInput(below, siblings[t], MTH(H, D[..Split(|D|)]), MTH(H, D[Split(|D|)..]));
    }
  }

  /** A climb that ends in the root of `D` started at a leaf of `D`. */
  lemma {:induction false} ClimbIntoRoot(H: Hash, leaf: Bytes, sides: seq<bool>, siblings: seq<Bytes>, D: seq<Bytes>)
    returns (m: nat)
    requires |sides| == |siblings|
    requires CollisionFree(H, HashedBy(H, D) + HashedByVerifier(H, leaf, sides, siblings))
    requires Climb(H, LeafHash(H, leaf), sides, siblings) == MTH(H, D)
    ensures Explains(H, m, leaf, sides, siblings, D)
    decreases |D|
  {
    TopIsRoot(H, leaf, sides, siblings, D);
    if |D| == 1 {
      m := 0;
      assert leaf == D[0] by {
        SplitConcat([0 as Byte], leaf, [0], D[0]);
      }
      PATHEquations(H, 0, D);
    } else {
      var t, k := |sides| - 1, Split(|D|);
      var left, right := D[..k], D[k..];
      SameTopNode(H, leaf, sides, siblings, D);
      if sides[t] {
        var m' := ClimbIntoRoot(H, leaf, sides[..t], siblings[..t], right);
        m := m' + k;
        ExplainedFromRight(H, m', leaf, sides[..t], siblings[..t], D);
      } else {
        m := ClimbIntoRoot(H, leaf, sides[..t], siblings[..t], left);
        ExplainedFromLeft(H, m, leaf, sides[..t], siblings[..t], D);
      }
      LastSplit(sides);
      LastSplit(siblings);
    }
  }

  /** Everything hashed when `proof` is checked against the root of `D`. */
  ghost function HashedInCheck(H: Hash, leaf: Bytes, proof: InclusionProof, D: seq<Bytes>): set<Bytes> {
    HashedBy(H, D)
    + if 0 <= proof.leafIndex < proof.leafCount
         && |proof.siblings| == |Sides(proof.leafIndex, proof.leafCount - 1)|
      then HashedByVerifier(H, leaf, Sides(proof.leafIndex, proof.leafCount - 1), proof.siblings)
      else {}
  }

  /** Exactly which proofs are accepted against the root of `D`, for any claimed index and count:
      those whose turns are the turns of some leaf of `D`, presented with that leaf and its path. */
  lemma {:induction false} AcceptedProofs(H: Hash, leaf: Bytes, proof: InclusionProof, D: seq<Bytes>)
    requires CollisionFree(H, HashedInCheck(H, leaf, proof, D))
    ensures Accepts(H, leaf, proof, MTH(H, D))
            <==> 0 <= proof.leafIndex < proof.leafCount
                 && Explained(H, leaf, Sides(proof.leafIndex, proof.leafCount - 1), proof.siblings, D)
  {
    if 0 <= proof.leafIndex < proof.leafCount {
      var sides := Sides(proof.leafIndex, proof.leafCount - 1);
      if Accepts(H, leaf, proof, MTH(H, D)) {
        var m := ClimbIntoRoot(H, leaf, sides, proof.siblings, D);
      }
      if Explained(H, leaf, sides, proof.siblings, D) {
        var m: nat :| Explains(H, m, leaf, sides, proof.siblings, D);
        ClimbPath(H, m, D);
      }
    }
  }

  /** An accepted proof always shows a member, even when its claimed count is wrong. */
  lemma {:induction false} AcceptedLeafIsMember(H: Hash, leaf: Bytes, proof: InclusionProof, D: seq<Bytes>)
    requires CollisionFree(H, HashedInCheck(H, leaf, proof, D))
    requires Accepts(H, leaf, proof, MTH(H, D))
    ensures leaf in D
  {
    AcceptedProofs(H, leaf, proof, D);
  }

  /** With the right count, the one accepted proof for an index is the one that `build_proof`
      returns for the leaf at that index. */
  lemma {:induction false} AcceptedWithRightCount(H: Hash, leaf: Bytes, proof: InclusionProof, D: seq<Bytes>)
    requires CollisionFree(H, HashedInCheck(H, leaf, proof, D))
    requires proof.leafCount == |D|
    ensures Accepts(H, leaf, proof, MTH(H, D))
            <==> 0 <= proof.leafIndex < |D|
                 && leaf == D[proof.leafIndex]
                 && proof.siblings == PATH(H, proof.leafIndex, D)
  {
    AcceptedProofs(H, leaf, proof, D);
    if 0 <= proof.leafIndex < |D| {
      SidesAreTurns(proof.leafIndex, |D|);
      ExplainedAtIndex(H, proof.leafIndex, leaf, proof.siblings, D);
    }
  }

  /** The turns of leaf `i` are explained by that leaf and its path only. */
  lemma {:induction false} ExplainedAtIndex(H: Hash, i: nat, leaf: Bytes, siblings: seq<Bytes>, D: seq<Bytes>)
    requires i < |D|
    ensures Explained(H, leaf, Turns(i, |D|), siblings, D) <==> leaf == D[i] && siblings == PATH(H, i, D)
  {
    if m: nat :| Explains(H, m, leaf, Turns(i, |D|), siblings, D) {
      TurnsInjective(i, m, |D|);
    }
    if leaf == D[i] && siblings == PATH(H, i, D) {
      assert Explains(H, i, leaf, Turns(i, |D|), siblings, D);
    }
  }

  ghost predicate PairwiseDifferent(D: seq<Bytes>) {
    forall i, j :: 0 <= i < j < |D| ==> D[i] != D[j]
  }

  /** The claimed index takes the same turns in the claimed tree as in the real one. */
  ghost predicate SameTurns(proof: InclusionProof, n: nat)
    requires 0 <= proof.leafIndex < proof.leafCount
  {
    proof.leafIndex < n && Turns(proof.leafIndex, proof.leafCount) == Turns(proof.leafIndex, n)
  }

  /** When the claimed index of an accepted proof is right, whatever its claimed count: exactly if the
      index takes the same turns in both trees.  (That it then is right holds for repeated leaves, too.) */
  lemma {:induction false} IndexIsRightIff(H: Hash, leaf: Bytes, proof: InclusionProof, D: seq<Bytes>)
    requires CollisionFree(H, HashedInCheck(H, leaf, proof, D))
    requires Accepts(H, leaf, proof, MTH(H, D))
    ensures SameTurns(proof, |D|) ==>
              leaf == D[proof.leafIndex] && proof.siblings == PATH(H, proof.leafIndex, D)
    ensures PairwiseDifferent(D) ==>
              (proof.leafIndex < |D| && leaf == D[proof.leafIndex] <==> SameTurns(proof, |D|))
  {
    var i, turns := proof.leafIndex, Turns(proof.leafIndex, proof.leafCount);
    assert Explained(H, leaf, turns, proof.siblings, D) by {
      AcceptedProofs(H, leaf, proof, D);
      SidesAreTurns(i, proof.leafCount);
    }
    var m: nat :| Explains(H, m, leaf, turns, proof.siblings, D);
    ExplainedIndex(H, i, m, leaf, turns, proof.siblings, D);
  }

  lemma {:induction false} ExplainedIndex(
    H: Hash, i: nat, m: nat, leaf: Bytes, turns: seq<bool>, siblings: seq<Bytes>, D: seq<Bytes>)
    requires Explains(H, m, leaf, turns, siblings, D)
    ensures i < |D| && turns == Turns(i, |D|) ==> i == m
    ensures PairwiseDifferent(D) && i < |D| && leaf == D[i] ==> i == m
  {
    if i < |D| && turns == Turns(i, |D|) {
      TurnsInjective(m, i, |D|);
    }
  }

  /** Without the right count the index is not bound: under every hash, the proof for the third
      of three leaves is also accepted as a proof for the second of two. */
  lemma {:induction false} CountMustBeKnown(H: Hash, a: Bytes, b: Bytes, c: Bytes)
    ensures var D, siblings := [a, b, c], [NodeHash(H, LeafHash(H, a), LeafHash(H, b))];
            && Accepts(H, c, InclusionProof(2, 3, siblings), MTH(H, D))
            && Accepts(H, c, InclusionProof(1, 2, siblings), MTH(H, D))
  {
    var D := [a, b, c];
    assert 1 == Pow2(0) && 2 == Pow2(1);
    SplitUnique(2, 3);
    SplitUnique(1, 2);
    assert D[..2] == [a, b] && D[2..] == [c];
    assert [a, b][..1] == [a] && [a, b][1..] == [b];
    MTHEquations(H, D);
    MTHEquations(H, [a, b]);
    MTHEquations(H, [a]);
    MTHEquations(H, [b]);
    MTHEquations(H, [c]);
    assert Sides(1, 1) == [true];
    assert Sides(2, 2) == [true];
  }

  // ---------------------------------------------------------------------
  // Small trees
  // ---------------------------------------------------------------------

  lemma {:induction false} SmallSplits()
    ensures Split(2) == 1 && Split(3) == 2
  {
    assert Pow2(0) == 1 && Pow2(1) == 2;
    assert IsSplit(1, 2) && IsSplit(2, 3);
    SplitUnique(1, 2);
    SplitUnique(2, 3);
  }

  /** The roots of up to three leaves, written out: a zero byte in front of every leaf, a one byte in front
      of every pair, and the odd leaf promoted. */
  lemma {:induction false} SmallRoots(H: Hash, a: Bytes, b: Bytes, c: Bytes)
    ensures MTH(H, []) == H([])
    ensures MTH(H, [a]) == H([0] + a)
    ensures MTH(H, [a, b]) == H([1] + H([0] + a) + H([0] + b))
    ensures MTH(H, [a, b, c]) == H([1] + H([1] + H([0] + a) + H([0] + b)) + H([0] + c))
  {
    SmallSplits();
    var leaf, node := LeafOf(H), NodeOf(H);
    assert [a, b][..1] == [a] && [a, b][1..] == [b];
    assert [a, b, c][..2] == [a, b] && [a, b, c][2..] == [c];
    assert TreeHash(leaf, node, [a, b]) == node(leaf(a), leaf(b));
    assert TreeHash(leaf, node, [a, b, c]) == node(TreeHash(leaf, node, [a, b]), TreeHash(leaf, node, [c]));
    assert TreeHash(leaf, node, [c]) == leaf(c);
  }
}
