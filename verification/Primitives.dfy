/** Byte strings and the abstract hash that every component of CG-ATC shares.

    SHA-256 is left abstract: a hash is any total function from byte strings to
    32-byte digests.  It is never assumed injective.  Results that need collision
    resistance ask only that the hash be injective on the finite set of inputs
    which the compared computations actually feed to it. */
module Primitives {

  type Byte = bv8
  type Bytes = seq<Byte>

  const HASH_SIZE := 32

  type Digest = d: Bytes | |d| == HASH_SIZE witness seq(HASH_SIZE, i => 0)

  type Hash = Bytes -> Digest

  /** 32 zero bytes: the `prev_hash` of a first message and the head of an empty log. */
  const GENESIS: Digest := [
    0, 0, 0, 0, 0, 0, 0, 0,
    0, 0, 0, 0, 0, 0, 0, 0,
    0, 0, 0, 0, 0, 0, 0, 0,
    0, 0, 0, 0, 0, 0, 0, 0]

  /** No two different members of `inputs` collide under `H`. */
  ghost predicate CollisionFree(H: Hash, inputs: set<Bytes>) {
    forall x, y :: x in inputs && y in inputs && H(x) == H(y) ==> x == y
  }

  datatype Option<+T> = None | Some(value: T)

  datatype Result<+T, +E> = Success(value: T) | Failure(error: E)

  /** Two concatenations with equal first-part lengths agree part by part. */
  lemma {:induction false} SplitConcat<T>(a: seq<T>, b: seq<T>, c: seq<T>, d: seq<T>)
    requires a + b == c + d
    requires |a| == |c| || |b| == |d|
    ensures a == c && b == d
  {
    assert |a| + |b| == |c| + |d|;
    assert a == (a + b)[..|a|] == (c + d)[..|c|] == c;
    assert b == (a + b)[|a|..] == (c + d)[|c|..] == d;
  }

  lemma {:induction false} LastSplit<T>(a: seq<T>)
    requires a != []
    ensures a == a[..|a| - 1] + [a[|a| - 1]]
  {
  }

  lemma {:induction false} AppendAssoc<T>(a: seq<T>, b: seq<T>, c: seq<T>)
    ensures (a + b) + c == a + (b + c)
  {
  }

  lemma {:induction false} SubsetSize<T>(a: set<T>, b: set<T>)
    requires a <= b
    ensures |a| <= |b|
  {
    assert b == a + (b - a);
    assert |a + (b - a)| == |a| + |b - a|;
  }
}
