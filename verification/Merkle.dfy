/** `cgatc/audit/merkle.py`: the level-by-level Merkle tree, its prover and its verifier. */
module Merkle {
  import opened Primitives
  import opened Rfc6962
  import opened PairingTree

  datatype InclusionProof = InclusionProof(leafIndex: int, leafCount: int, siblings: seq<Bytes>)

  datatype ProofError = IndexError

  // ---------------------------------------------------------------------
  // The standard's tree as a pairing tree over hashed leaves
  // ---------------------------------------------------------------------

  function LeafNodes(H: Hash, leaves: seq<Bytes>): (r: seq<Digest>)
    ensures |r| == |leaves|
    ensures forall i :: 0 <= i < |leaves| ==> r[i] == LeafHash(H, leaves[i])
  {
    seq(|leaves|, i requires 0 <= i < |leaves| => LeafHash(H, leaves[i]))
  }

  // ---------------------------------------------------------------------
  // The program
  // ---------------------------------------------------------------------

  /** `merkle_root` computes the Merkle Tree Hash of RFC 6962. */
  method MerkleRoot(H: Hash, leaves: seq<Bytes>) returns (root: Digest)
    ensures root == MTH(H, leaves)
  {
    if leaves == [] {
      return H([]);
    }
    var nodes := LeafNodes(H, leaves);
    TreeIsTreeHash(LeafOf(H), NodeOf(H), nodes, 0, leaves);
    while |nodes| > 1
      invariant nodes != []
      invariant Tree(NodeOf(H), nodes, 0, |nodes|) == MTH(H, leaves)
      decreases |nodes|
    {
      var nxt: seq<Digest> := [];
      var i := 0;
      while i < |nodes|
        invariant i == |nxt| + |nxt| && i <= |nodes| + 1
        invariant forall j :: 0 <= j < |nxt| ==> nxt[j] == Parent(NodeOf(H), nodes, j)
        decreases |nodes| - i
      {
        ghost var parent := Parent(NodeOf(H), nodes, |nxt|);
        if i + 1 < |nodes| {
          assert parent == NodeHash(H, nodes[i], nodes[i + 1]);
          nxt := nxt + [NodeHash(H, nodes[i], nodes[i + 1])];
        } else {
          nxt := nxt + [nodes[i]];
        }
        i := i + 2;
      }
      TreeOfLevel(NodeOf(H), nodes, 0, |nodes|, nxt, 0, |nxt|);
      nodes := nxt;
    }
    root := nodes[0];
  }

  /** One round of `build_proof`: pair a level, and pick the partner of node `cur` if it has one. */
  method PairLevel(H: Hash, nodes: seq<Digest>, cur: nat, picked: seq<Digest>, ghost q: nat, ghost odd: bool)
    returns (nxt: seq<Digest>, siblings: seq<Digest>)
    requires cur < |nodes| && cur == if odd then q + q + 1 else q + q
    ensures IsLevel(NodeOf(H), nodes, nxt)
    ensures siblings == picked + LevelSibling(nodes, q, odd)
  {
    nxt, siblings := [], picked;
    var i := 0;
    while i < |nodes|
      invariant i == |nxt| + |nxt| && i <= |nodes| + 1
      invariant forall j :: 0 <= j < |nxt| ==> nxt[j] == Parent(NodeOf(H), nodes, j)
      invariant if cur < i then siblings == picked + LevelSibling(nodes, q, odd) else siblings == picked
      decreases |nodes| - i
    {
      ghost var parent := Parent(NodeOf(H), nodes, |nxt|);
      if i + 1 < |nodes| {
        var left, right := nodes[i], nodes[i + 1];
        assert parent == NodeHash(H, left, right);
        if i == cur || i + 1 == cur {
          siblings := siblings + [if i == cur then right else left];
        }
        nxt := nxt + [NodeHash(H, left, right)];
      } else {
        nxt := nxt + [nodes[i]];
      }
      i := i + 2;
    }
  }

  /** `build_proof` computes the audit path of RFC 6962 or rejects the index. */
  method BuildProof(H: Hash, leaves: seq<Bytes>, index: int) returns (r: Result<InclusionProof, ProofError>)
    ensures r.Success? <==> 0 <= index < |leaves|
    ensures r.Success? ==> r.value == InclusionProof(index, |leaves|, PATH(H, index, leaves))
  {
    if !(0 <= index < |leaves|) {
      return Failure(IndexError);
    }
    var siblings: seq<Digest> := [];
    var nodes := LeafNodes(H, leaves);
    var cur := index;
    TreePathIsAuditPath(LeafOf(H), NodeOf(H), index, nodes, 0, leaves);
    while |nodes| > 1
      invariant 0 <= cur < |nodes|
      invariant siblings + TreePath(NodeOf(H), cur, nodes, 0, |nodes|) == PATH(H, index, leaves)
      decreases |nodes|
    {
      ghost var before, q, odd := siblings, cur / 2, cur % 2 == 1;
      assert cur == if odd then q + q + 1 else q + q;
      var nxt: seq<Digest>;
      nxt, siblings := PairLevel(H, nodes, cur, siblings, q, odd);
      assert siblings + TreePath(NodeOf(H), q, nxt, 0, |nxt|) == PATH(H, index, leaves) by {
        TreePathOfLevel(NodeOf(H), LevelSibling(nodes, q, odd), odd, q, cur, nodes, 0, |nodes|, q, nxt, 0, |nxt|);
        AppendAssoc(before, LevelSibling(nodes, q, odd), TreePath(NodeOf(H), q, nxt, 0, |nxt|));
      }
      cur := cur / 2;
      nodes := nxt;
    }
    r := Success(InclusionProof(index, |leaves|, siblings));
  }

  /** The turns the verifier takes from a leaf to the root of a tree whose last index is `last`:
      true where the sibling stands on the left; a promoted node takes no turn. */
  function Sides(idx: nat, last: nat): seq<bool>
    decreases last, idx
  {
    if last == 0 then []
    else if idx % 2 == 0 && idx == last then Sides(idx / 2, last / 2)
    else [idx % 2 == 1] + Sides(idx / 2, last / 2)
  }

  function Turn(H: Hash, cur: Digest, sibling: Bytes, onLeft: bool): Digest {
    if onLeft then NodeHash(H, sibling, cur) else NodeHash(H, cur, sibling)
  }

  /** Hash upwards along `sides`, consuming one sibling a turn. */
  function Climb(H: Hash, cur: Digest, sides: seq<bool>, siblings: seq<Bytes>): Digest
    requires |sides| == |siblings|
    decreases |sides|
  {
    if sides == [] then cur
    else Climb(H, Turn(H, cur, siblings[0], sides[0]), sides[1..], siblings[1..])
  }

  /** The relation that `verify_proof` decides. */
  predicate Accepts(H: Hash, leaf: Bytes, proof: InclusionProof, root: Bytes) {
    && 0 <= proof.leafIndex < proof.leafCount
    && var sides := Sides(proof.leafIndex, proof.leafCount - 1);
       |proof.siblings| == |sides|
       && Climb(H, LeafHash(H, leaf), sides, proof.siblings) == root
  }

  /** `verify_proof`. */
  method VerifyProof(H: Hash, leaf: Bytes, proof: InclusionProof, root: Bytes) returns (ok: bool)
    ensures ok <==> Accepts(H, leaf, proof, root)
  {
    if !(0 <= proof.leafIndex < proof.leafCount) {
      return false;
    }
    var cur := LeafHash(H, leaf);
    var idx := proof.leafIndex;
    var last := proof.leafCount - 1;
    var used := 0;
    ghost var sides := Sides(idx, last);
    var siblings := proof.siblings;
    while last > 0
      invariant 0 <= idx && 0 <= last
      invariant used <= |sides| && used <= |siblings|
      invariant sides[used..] == Sides(idx, last)
      invariant |siblings| == |sides| ==>
                  Climb(H, cur, sides[used..], siblings[used..])
                  == Climb(H, LeafHash(H, leaf), sides, siblings)
      decreases last
    {
      if idx % 2 == 0 && idx == last {
      } else {
        assert |sides[used..]| > 0;
        if used == |siblings| {
          return false;
        }
        var sib := siblings[used];
        assert sides[used..][1..] == sides[used + 1..];
        assert siblings[used..][1..] == siblings[used + 1..];
        if idx % 2 == 0 {
          cur := NodeHash(H, cur, sib);
        } else {
          cur := NodeHash(H, sib, cur);
        }
        used := used + 1;
      }
      idx := idx / 2;
      last := last / 2;
    }
    if used != |siblings| {
      return false;
    }
    return cur == root;
  }
}
