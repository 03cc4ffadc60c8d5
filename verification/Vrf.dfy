/** `cgatc/crypto/vrf.py`: committee selection by a hash-driven Fisher-Yates shuffle. */
module Vrf {
  import opened Primitives

  // ---------------------------------------------------------------------
  // The shuffle as a function of its choices
  // ---------------------------------------------------------------------

  function Swap<T>(s: seq<T>, i: nat, j: nat): (r: seq<T>)
    requires i < |s| && j < |s|
    ensures |r| == |s|
  {
    s[i := s[j]][j := s[i]]
  }

  /** One choice per position, each at or below it. */
  predicate Choices(js: seq<nat>) {
    forall i :: 0 <= i < |js| ==> js[i] <= i
  }

  /** Swap position i with its choice, from `i` down to 1. */
  function Shuffle<T>(js: seq<nat>, s: seq<T>, i: nat): (r: seq<T>)
    requires Choices(js) && |js| == |s| && (i < |s| || i == 0)
    ensures |r| == |s|
    decreases i
  {
    if i == 0 then s else Shuffle(js, Swap(s, i, js[i]), i - 1)
  }

  predicate Injective<T(==)>(s: seq<T>) {
    forall i, j :: 0 <= i < j < |s| ==> s[i] != s[j]
  }

  lemma {:induction false} SwapPermutes<T>(s: seq<T>, i: nat, j: nat)
    requires i < |s| && j < |s|
    ensures multiset(Swap(s, i, j)) == multiset(s)
  {
  }

  /** The shuffle only permutes. */
  lemma {:induction false} ShufflePermutes<T>(js: seq<nat>, s: seq<T>, i: nat)
    requires Choices(js) && |js| == |s| && (i < |s| || i == 0)
    ensures multiset(Shuffle(js, s, i)) == multiset(s)
    decreases i
  {
    if i > 0 {
      SwapPermutes(s, i, js[i]);
      ShufflePermutes(js, Swap(s, i, js[i]), i - 1);
    }
  }

  /** Positions above `i` are settled, and position `i` gets the chosen element. */
  lemma {:induction false} ShuffleSettles<T>(js: seq<nat>, s: seq<T>, i: nat)
    requires Choices(js) && |js| == |s| && i < |s|
    ensures forall k :: i < k < |s| ==> Shuffle(js, s, i)[k] == s[k]
    ensures Shuffle(js, s, i)[i] == s[js[i]]
    decreases i
  {
    if i > 0 {
      ShuffleSettles(js, Swap(s, i, js[i]), i - 1);
    }
  }

  /** Different choices give different orders: the result determines every choice. */
  lemma {:induction false} ShuffleInjective<T>(js: seq<nat>, ks: seq<nat>, s: seq<T>, i: nat)
    requires Choices(js) && Choices(ks) && |js| == |ks| == |s| && i < |s| && Injective(s)
    requires Shuffle(js, s, i) == Shuffle(ks, s, i)
    ensures js[..i + 1] == ks[..i + 1]
    decreases i
  {
    ShuffleSettles(js, s, i);
    ShuffleSettles(ks, s, i);
    assert js[i] == ks[i];
    if i > 0 {
      SwapInjective(s, i, js[i]);
      ShuffleInjective(js, ks, Swap(s, i, js[i]), i - 1);
      assert js[..i + 1] == js[..i] + [js[i]] && ks[..i + 1] == ks[..i] + [ks[i]];
    }
  }

  lemma {:induction false} SwapInjective<T>(s: seq<T>, i: nat, j: nat)
    requires i < |s| && j < |s| && Injective(s)
    ensures Injective(Swap(s, i, j))
  {
  }

  lemma {:induction false} CountSplit<T>(s: seq<T>, i: nat, x: T)
    requires i <= |s|
    ensures multiset(s)[x] == multiset(s[..i])[x] + multiset(s[i..])[x]
  {
    assert s == s[..i] + s[i..];
  }

  lemma {:induction false} FindElement<T>(s: seq<T>, p: seq<T>, i: nat) returns (j: nat)
    requires |s| == |p| && i < |s| && multiset(s) == multiset(p)
    requires forall k :: i < k < |s| ==> s[k] == p[k]
    ensures j <= i && s[j] == p[i]
  {
    var x, tail := p[i], s[i + 1..];
    assert tail == p[i + 1..];
    CountSplit(s, i + 1, x);
    CountSplit(p, i + 1, x);
    assert p[..i + 1][i] == x;
    assert x in multiset(p[..i + 1]);
    assert multiset(s[..i + 1])[x] > 0;
    assert x in s[..i + 1];
    j :| j <= i && s[..i + 1][j] == p[i];
  }

  /** Every order of the elements is the result of some choices. */
  lemma {:induction false} ShuffleSurjective<T>(s: seq<T>, p: seq<T>, i: nat) returns (js: seq<nat>)
    requires |s| == |p| && i < |s| && multiset(s) == multiset(p)
    requires forall k :: i < k < |s| ==> s[k] == p[k]
    ensures Choices(js) && |js| == |s| && Shuffle(js, s, i) == p
    decreases i
  {
    var j := FindElement(s, p, i);
    if i == 0 {
      js := seq(|s|, k => 0);
      assert s == p;
    } else {
      var t := Swap(s, i, j);
      SwapPermutes(s, i, j);
      var rest := ShuffleSurjective(t, p, i - 1);
      js := rest[i := j];
      SameBelow(rest, js, t, i - 1);
    }
  }

  /** The shuffle looks only at the choices it still has to make. */
  lemma {:induction false} SameBelow<T>(js: seq<nat>, ks: seq<nat>, s: seq<T>, i: nat)
    requires Choices(js) && Choices(ks) && |js| == |ks| == |s| && (i < |s| || i == 0)
    requires forall k :: 0 <= k <= i && k < |s| ==> js[k] == ks[k]
    ensures Shuffle(js, s, i) == Shuffle(ks, s, i)
    decreases i
  {
    if i > 0 {
      SameBelow(js, ks, Swap(s, i, js[i]), i - 1);
    }
  }

  // ---------------------------------------------------------------------
  // The choices drawn from the hash
  // ---------------------------------------------------------------------

  const WORD := 0x1_0000_0000

  /** The last `width` bytes of `i`, most significant first. */
  function BigEndian(i: nat, width: nat): (r: Bytes)
    ensures |r| == width
    decreases width, i
  {
    if width == 0 then [] else BigEndian(i / 0x100, width - 1) + [(i % 0x100) as Byte]
  }

  /** `struct.pack(">I", i)`. */
  function Pack(i: nat): Bytes
    requires i < WORD
  {
    BigEndian(i, 4)
  }

  /** `int.from_bytes(b, "big")`. */
  function FromBytes(b: Bytes): nat {
    if b == [] then 0 else FromBytes(b[..|b| - 1]) * 0x100 + (b[|b| - 1] as nat)
  }

  function Choice(H: Hash, output: Digest, i: nat): (j: nat)
    requires i < WORD
    ensures j <= i
  {
    FromBytes(H(output + Pack(i))[..4]) % (i + 1)
  }

  function ChoicesFrom(H: Hash, output: Digest, n: nat): (js: seq<nat>)
    requires n <= WORD
    ensures |js| == n && Choices(js)
    ensures forall i :: 0 < i < n ==> js[i] == Choice(H, output, i)
  {
    seq(n, i requires 0 <= i < n => if i == 0 then 0 else Choice(H, output, i))
  }

  function Range(n: nat): (r: seq<nat>)
    ensures |r| == n && forall i :: 0 <= i < n ==> r[i] == i
  {
    seq(n, i => i)
  }

  // ---------------------------------------------------------------------
  // Sorting the committee
  // ---------------------------------------------------------------------

  predicate StrictlyIncreasing(s: seq<nat>) {
    forall i, j :: 0 <= i < j < |s| ==> s[i] < s[j]
  }

  function Insert(x: nat, s: seq<nat>): seq<nat> {
    if s == [] || x <= s[0] then [x] + s else [s[0]] + Insert(x, s[1..])
  }

  /** Python's `sorted` on numbers. */
  function Sorted(s: seq<nat>): seq<nat> {
    if s == [] then [] else Insert(s[0], Sorted(s[1..]))
  }

  lemma {:induction false} InsertAdds(x: nat, s: seq<nat>)
    ensures multiset(Insert(x, s)) == multiset{x} + multiset(s)
    decreases |s|
  {
    if s != [] && x > s[0] {
      InsertAdds(x, s[1..]);
      assert s == [s[0]] + s[1..];
    }
  }

  lemma {:induction false} InsertOrders(x: nat, s: seq<nat>)
    requires StrictlyIncreasing(s) && x !in s
    ensures StrictlyIncreasing(Insert(x, s))
    decreases |s|
  {
    if s != [] && x > s[0] {
      InsertOrders(x, s[1..]);
      var rest := Insert(x, s[1..]);
      forall k | 0 <= k < |rest| ensures s[0] < rest[k] {
        assert rest[k] in multiset(rest);
        assert rest[k] == x || rest[k] in s[1..] by {
          InsertAdds(x, s[1..]);
        }
      }
    }
  }

  lemma {:induction false} NotInSorted(x: nat, s: seq<nat>)
    requires x !in s && multiset(Sorted(s)) == multiset(s)
    ensures x !in Sorted(s)
  {
    assert x !in multiset(s);
    assert forall y :: y in Sorted(s) ==> y in multiset(Sorted(s));
  }

  lemma {:induction false} SortedPermutes(s: seq<nat>)
    ensures multiset(Sorted(s)) == multiset(s)
    decreases |s|
  {
    if s != [] {
      SortedPermutes(s[1..]);
      InsertAdds(s[0], Sorted(s[1..]));
      assert s == [s[0]] + s[1..];
    }
  }

  /** Sorting keeps the elements and orders different numbers strictly. */
  lemma {:induction false} SortedKeeps(s: seq<nat>)
    ensures multiset(Sorted(s)) == multiset(s)
    ensures Injective(s) ==> StrictlyIncreasing(Sorted(s))
    decreases |s|
  {
    SortedPermutes(s);
    if s != [] && Injective(s) {
      SortedKeeps(s[1..]);
      NotInSorted(s[0], s[1..]);
      InsertOrders(s[0], Sorted(s[1..]));
    }
  }

  lemma {:induction false} InjectiveOnce(s: seq<nat>, x: nat)
    requires Injective(s)
    ensures multiset(s)[x] <= 1
  {
    if k :| 0 <= k < |s| && s[k] == x {
      assert s == s[..k] + [s[k]] + s[k + 1..];
      assert x !in s[..k] && x !in s[k + 1..];
    }
  }

  lemma {:induction false} RepeatedTwice(p: seq<nat>, i: nat, j: nat)
    requires i < j < |p| && p[i] == p[j]
    ensures multiset(p)[p[i]] >= 2
  {
    assert p == p[..j] + [p[j]] + p[j + 1..];
    assert p[..j][i] in multiset(p[..j]);
  }

  lemma {:induction false} SameMultisetInjective(s: seq<nat>, p: seq<nat>)
    requires Injective(s) && multiset(s) == multiset(p)
    ensures Injective(p)
  {
    forall i, j | 0 <= i < j < |p| ensures p[i] != p[j] {
      InjectiveOnce(s, p[i]);
      if p[i] == p[j] {
        RepeatedTwice(p, i, j);
      }
    }
  }

  // ---------------------------------------------------------------------
  // The program
  // ---------------------------------------------------------------------

  datatype CommitteeError = TooLarge | StructError

  datatype Committee = Committee(members: seq<nat>, output: Digest, proof: Bytes)

  /** The two labels that the code hashes in front of the seed and of the proof. */
  datatype Signer = Signer(H: Hash, sign: Bytes -> Bytes, verify: (Bytes, Bytes, Bytes) -> bool, publicKey: Bytes,
                           seedLabel: Bytes, outputLabel: Bytes)
  {
    function Proof(seed: Bytes): Bytes {
      sign(H(seedLabel + seed))
    }

    /** The output half of `vrf_eval`. */
    function Output(seed: Bytes): Digest {
      H(outputLabel + Proof(seed))
    }

    /** `vrf_verify`. */
    predicate Verify(seed: Bytes, output: Bytes, proof: Bytes) {
      verify(H(seedLabel + seed), proof, publicKey) && H(outputLabel + proof) == output
    }
  }

  /** How many elements `indices[:k]` keeps of `n`: a negative `k` counts from the end. */
  function Taken(n: nat, k: int): nat
    requires k <= n
  {
    if k >= 0 then k else if n + k >= 0 then n + k else 0
  }

  /** The choices `js` are those drawn from the hash. */
  ghost predicate DrawnFrom(js: seq<nat>, H: Hash, output: Digest) {
    |js| <= WORD && forall i: nat {:trigger Choice(H, output, i)} :: 0 < i < |js| ==> js[i] == Choice(H, output, i)
  }

  /** The choice for position `i`. */
  method Draw(H: Hash, output: Digest, i: nat, ghost js: seq<nat>) returns (j: nat)
    requires 0 < i < |js| && DrawnFrom(js, H, output)
    ensures j == js[i]
  {
    var digest := H(output + Pack(i));
    j := FromBytes(digest[..4]) % (i + 1);
    assert j == Choice(H, output, i);
  }

  method SwapAt(a: array<nat>, i: nat, j: nat)
    requires i < a.Length && j < a.Length
    modifies a
    ensures a[..] == Swap(old(a[..]), i, j)
  {
    a[i], a[j] := a[j], a[i];
  }

  /** The shuffle of `select_committee`. */
  method ShuffleInPlace(H: Hash, output: Digest, indices: array<nat>, ghost js: seq<nat>)
    requires |js| == indices.Length && Choices(js) && DrawnFrom(js, H, output)
    modifies indices
    ensures indices[..] == Shuffle(js, old(indices[..]), if indices.Length == 0 then 0 else indices.Length - 1)
  {
    var n := indices.Length;
    var i := if n == 0 then 0 else n - 1;
    ghost var order := Shuffle(js, indices[..], i);
    while i > 0
      invariant 0 <= i < n || (i == 0 && n == 0)
      invariant Shuffle(js, indices[..], i) == order
    {
      var j := Draw(H, output, i, js);
      SwapAt(indices, i, j);
      i := i - 1;
    }
  }

  /** `select_committee`. */
  method SelectCommittee(v: Signer, seed: Bytes, nCandidates: int, kCommittee: int)
    returns (r: Result<Committee, CommitteeError>)
    ensures kCommittee > nCandidates ==> r == Failure(TooLarge)
    ensures kCommittee <= nCandidates && nCandidates > WORD ==> r == Failure(StructError)
    ensures kCommittee <= nCandidates <= WORD ==>
              var n := if nCandidates >= 0 then nCandidates else 0;
              var order := Shuffle(ChoicesFrom(v.H, v.Output(seed), n), Range(n), if n == 0 then 0 else n - 1);
              r == Success(Committee(Sorted(order[..Taken(n, kCommittee)]), v.Output(seed), v.Proof(seed)))
    ensures r.Success? ==>
              r.value.proof == v.sign(v.H(v.seedLabel + seed)) && r.value.output == v.H(v.outputLabel + r.value.proof)
  {
    if kCommittee > nCandidates {
      return Failure(TooLarge);
    }
    var proof := v.Proof(seed);
    var output := v.Output(seed);
    if nCandidates > WORD {
      return Failure(StructError);
    }
    var n: nat := if nCandidates >= 0 then nCandidates else 0;
    var indices := new nat[n](i => i);
    assert indices[..] == Range(n);
    ShuffleInPlace(v.H, output, indices, ChoicesFrom(v.H, output, n));
    ghost var order := indices[..];
    var members := Sorted(indices[..Taken(n, kCommittee)]);
    assert indices[..Taken(n, kCommittee)] == order[..Taken(n, kCommittee)];
    return Success(Committee(members, output, proof));
  }

  /** The committee is a set of candidates: strictly increasing, in range, with exactly k members
      (for a negative k, as many as a slice to that index keeps), and its proof verifies. */
  lemma {:induction false} CommitteeIsSet(v: Signer, seed: Bytes, n: nat, k: int)
    requires k <= n <= WORD && v.verify(v.H(v.seedLabel + seed), v.Proof(seed), v.publicKey)
    ensures var order := Shuffle(ChoicesFrom(v.H, v.Output(seed), n), Range(n), if n == 0 then 0 else n - 1);
            var members := Sorted(order[..Taken(n, k)]);
            && multiset(order) == multiset(Range(n))
            && StrictlyIncreasing(members) && |members| == (if k >= 0 then k else if n + k >= 0 then n + k else 0)
            && (forall m :: m in members ==> m < n)
            && v.Verify(seed, v.Output(seed), v.Proof(seed))
  {
    var js := ChoicesFrom(v.H, v.Output(seed), n);
    var order := Shuffle(js, Range(n), if n == 0 then 0 else n - 1);
    ShufflePermutes(js, Range(n), if n == 0 then 0 else n - 1);
    SameMultisetInjective(Range(n), order);
    var prefix := order[..Taken(n, k)];
    SortedKeeps(prefix);
    var members := Sorted(prefix);
    assert |members| == |multiset(members)| == |multiset(prefix)| == |prefix|;
    forall m | m in members ensures m < n {
      assert m in multiset(members);
      assert m in prefix;
      assert m in order;
      assert m in multiset(Range(n));
      assert m in Range(n);
    }
  }

  lemma {:induction false} SameOrderSameChoices<T>(ks: seq<nat>, js: seq<nat>, s: seq<T>)
    requires s != [] && Choices(js) && Choices(ks) && |js| == |ks| == |s| && Injective(s)
    requires Shuffle(ks, s, |s| - 1) == Shuffle(js, s, |s| - 1)
    ensures ks == js
  {
    ShuffleInjective(ks, js, s, |s| - 1);
    assert ks[..|s|] == ks && js[..|s|] == js;
  }

  /** The choices `js` shuffle 0 .. n-1 into `p`. */
  ghost predicate Produces(js: seq<nat>, n: nat, p: seq<nat>) {
    n > 0 && Choices(js) && |js| == n && Shuffle(js, Range(n), n - 1) == p
  }

  /** For n candidates the choice vectors and the orders of the candidates correspond one to one. */
  lemma {:induction false} ChoicesAreOrders(n: nat, p: seq<nat>) returns (js: seq<nat>)
    requires n > 0 && multiset(p) == multiset(Range(n))
    ensures Produces(js, n, p)
    ensures forall ks :: Produces(ks, n, p) ==> ks == js
  {
    assert |p| == |multiset(p)| == |multiset(Range(n))| == n;
    js := ShuffleSurjective(Range(n), p, n - 1);
    forall ks | Produces(ks, n, p) ensures ks == js {
      SameOrderSameChoices(ks, js, Range(n));
    }
  }
}
