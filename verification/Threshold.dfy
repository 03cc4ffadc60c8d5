/** `cgatc/crypto/threshold.py`: k-of-n authorisation by distinct signatures. */
module ThresholdSignatures {
  import opened Primitives

  datatype Share = Share(index: int, publicKey: Bytes, signature: Bytes)

  datatype ThresholdSignature = ThresholdSignature(k: int, n: int, digest: Digest, shares: seq<Share>)

  datatype AuthorityError = ZeroK | KExceedsSigners | BadKeyLength

  datatype ThresholdNotMet = ThresholdNotMet(good: nat)

  datatype Authority = Authority(H: Hash, verify: (Bytes, Bytes, Bytes) -> bool, k: int, signers: seq<Bytes>) {
    predicate Valid() {
      1 <= k <= |signers|
    }

    /** A share that counts toward `digest`. */
    predicate IsGood(digest: Digest, s: Share) {
      0 <= s.index < |signers| && s.publicKey == signers[s.index] && verify(digest, s.signature, s.publicKey)
    }
  }

  /** The constructor: the checks on `k` and the keys. */
  function NewAuthority(
    H: Hash, verify: (Bytes, Bytes, Bytes) -> bool, k: int, signers: seq<Bytes>): (r: Result<Authority, AuthorityError>)
    ensures r.Success? <==> 1 <= k <= |signers| && forall pk :: pk in signers ==> |pk| == 32
    ensures r.Success? ==> r.value.Valid() && r.value.k == k && r.value.signers == signers
  {
    if k < 1 then Failure(ZeroK)
    else if k > |signers| then Failure(KExceedsSigners)
    else if exists pk :: pk in signers && |pk| != 32 then Failure(BadKeyLength)
    else Success(Authority(H, verify, k, signers))
  }

  /** The distinct signers of the good shares. */
  function GoodIndices(a: Authority, digest: Digest, shares: seq<Share>): set<int> {
    set s | s in shares && a.IsGood(digest, s) :: s.index
  }

  function Indices(shares: seq<Share>): set<int> {
    set s | s in shares :: s.index
  }

  predicate DistinctIndices(shares: seq<Share>) {
    forall i, j :: 0 <= i < j < |shares| ==> shares[i].index != shares[j].index
  }

  /** What `verify` decides. */
  predicate Verifies(a: Authority, signed: ThresholdSignature) {
    && signed.k == a.k && signed.n == |a.signers| && |signed.shares| >= a.k
    && (forall s :: s in signed.shares ==> a.IsGood(signed.digest, s))
    && DistinctIndices(signed.shares)
  }

  /** The first good share of every signer, in the order in which they come. */
  ghost function FirstShares(a: Authority, digest: Digest, shares: seq<Share>): seq<Share> {
    if shares == [] then []
    else
      var before, s := FirstShares(a, digest, shares[..|shares| - 1]), shares[|shares| - 1];
      if a.IsGood(digest, s) && s.index !in Indices(before) then before + [s] else before
  }

  lemma {:induction false} FirstSharesStep(a: Authority, digest: Digest, shares: seq<Share>, i: nat)
    requires i < |shares|
    ensures var before, s := FirstShares(a, digest, shares[..i]), shares[i];
            FirstShares(a, digest, shares[..i + 1])
            == if a.IsGood(digest, s) && s.index !in Indices(before) then before + [s] else before
  {
    assert shares[..i + 1][..i] == shares[..i];
  }

  lemma {:induction false} FirstSharesPrefix(a: Authority, digest: Digest, shares: seq<Share>, i: nat)
    requires i <= |shares|
    ensures FirstShares(a, digest, shares[..i]) <= FirstShares(a, digest, shares)
    decreases |shares| - i
  {
    if i < |shares| {
      FirstSharesStep(a, digest, shares, i);
      FirstSharesPrefix(a, digest, shares, i + 1);
    } else {
      assert shares[..i] == shares;
    }
  }

  /** `good` holds one good share of every signer with a good share among the first `i`. */
  ghost predicate Collected(
    a: Authority, digest: Digest, shares: seq<Share>, i: nat, good: seq<Share>, seen: set<int>) {
    && i <= |shares| && seen == Indices(good) == GoodIndices(a, digest, shares[..i])
    && |good| == |seen| && DistinctIndices(good) && good == FirstShares(a, digest, shares[..i])
    && forall s :: s in good ==> s in shares && a.IsGood(digest, s)
  }

  lemma {:induction false} CollectStep(
    a: Authority, digest: Digest, shares: seq<Share>, i: nat, good: seq<Share>, seen: set<int>)
    requires i < |shares| && Collected(a, digest, shares, i, good, seen)
    ensures var s := shares[i];
            if s.index !in seen && a.IsGood(digest, s)
            then Collected(a, digest, shares, i + 1, good + [s], seen + {s.index})
            else Collected(a, digest, shares, i + 1, good, seen)
  {
    var s := shares[i];
    GoodIndicesStep(a, digest, shares, i);
    FirstSharesStep(a, digest, shares, i);
    if s.index !in seen && a.IsGood(digest, s) {
      IndicesAppend(good, s);
    }
  }

  /** What is collected when there are `k` shares, or no more to look at. */
  lemma {:induction false} CollectedAll(
    a: Authority, digest: Digest, shares: seq<Share>, i: nat, good: seq<Share>, seen: set<int>)
    requires a.Valid() && Collected(a, digest, shares, i, good, seen) && |good| <= a.k
    requires i == |shares| || |good| == a.k
    ensures |good| == a.k <==> |GoodIndices(a, digest, shares)| >= a.k
    ensures |good| < a.k ==> |good| == |GoodIndices(a, digest, shares)|
    ensures |good| == a.k ==>
              && good <= FirstShares(a, digest, shares)
              && Verifies(a, ThresholdSignature(a.k, |a.signers|, digest, good))
  {
    GoodIndicesPrefix(a, digest, shares, i);
    FirstSharesPrefix(a, digest, shares, i);
    if i == |shares| {
      assert shares[..i] == shares;
    }
  }

  /** Collect good shares of new signers until there are `k`. */
  method Authorize(a: Authority, action: Bytes, shares: seq<Share>)
    returns (r: Result<ThresholdSignature, ThresholdNotMet>)
    requires a.Valid()
    ensures r.Success? <==> |GoodIndices(a, a.H(action), shares)| >= a.k
    ensures r.Failure? ==> r.error.good == |GoodIndices(a, a.H(action), shares)|
    ensures r.Success? ==>
              && r.value.digest == a.H(action) && |r.value.shares| == a.k
              && |FirstShares(a, a.H(action), shares)| >= a.k
              && r.value.shares == FirstShares(a, a.H(action), shares)[..a.k]
              && (forall s :: s in r.value.shares ==> s in shares)
              && Verifies(a, r.value)
  {
    var digest := a.H(action);
    var good: seq<Share> := [];
    var seen: set<int> := {};
    var i := 0;
    while i < |shares| && |good| < a.k
      invariant Collected(a, digest, shares, i, good, seen) && |good| <= a.k
      decreases |shares| - i
    {
      var s := shares[i];
      CollectStep(a, digest, shares, i, good, seen);
      if s.index !in seen && a.IsGood(digest, s) {
        seen := seen + {s.index};
        good := good + [s];
      }
      i := i + 1;
    }
    CollectedAll(a, digest, shares, i, good, seen);
    if |good| < a.k {
      return Failure(ThresholdNotMet(|good|));
    }
    return Success(ThresholdSignature(a.k, |a.signers|, digest, good));
  }

  lemma {:induction false} GoodIndicesStep(a: Authority, digest: Digest, shares: seq<Share>, i: nat)
    requires i < |shares|
    ensures GoodIndices(a, digest, shares[..i + 1])
            == GoodIndices(a, digest, shares[..i]) + if a.IsGood(digest, shares[i]) then {shares[i].index} else {}
  {
    assert shares[..i + 1] == shares[..i] + [shares[i]];
  }

  lemma {:induction false} IndicesAppend(good: seq<Share>, s: Share)
    requires DistinctIndices(good) && s.index !in Indices(good)
    ensures Indices(good + [s]) == Indices(good) + {s.index}
    ensures DistinctIndices(good + [s])
  {
    var longer := good + [s];
    assert longer[|good|] == s;
    forall i | 0 <= i < |good| ensures good[i].index != s.index {
      assert good[i] in good;
    }
  }

  lemma {:induction false} GoodIndicesPrefix(a: Authority, digest: Digest, shares: seq<Share>, i: nat)
    requires i <= |shares|
    ensures |GoodIndices(a, digest, shares[..i])| <= |GoodIndices(a, digest, shares)|
  {
    SubsetSize(GoodIndices(a, digest, shares[..i]), GoodIndices(a, digest, shares));
  }

  /** The first `i` shares are good and come from different signers. */
  ghost predicate Checked(a: Authority, digest: Digest, shares: seq<Share>, i: nat, seen: set<int>) {
    && i <= |shares| && seen == Indices(shares[..i]) && |seen| == i && DistinctIndices(shares[..i])
    && forall j :: 0 <= j < i ==> a.IsGood(digest, shares[j])
  }

  lemma {:induction false} CheckStep(a: Authority, digest: Digest, shares: seq<Share>, i: nat, seen: set<int>)
    requires i < |shares| && Checked(a, digest, shares, i, seen)
    ensures shares[i].index !in seen && a.IsGood(digest, shares[i]) ==>
              Checked(a, digest, shares, i + 1, seen + {shares[i].index})
    ensures shares[i].index in seen ==> !DistinctIndices(shares)
  {
    assert shares[..i + 1] == shares[..i] + [shares[i]];
    if shares[i].index in seen {
      var t :| t in shares[..i] && t.index == shares[i].index;
      var j :| 0 <= j < i && shares[..i][j] == t;
      assert shares[j].index == shares[i].index;
    } else {
      IndicesAppend(shares[..i], shares[i]);
    }
  }

  method Verify(a: Authority, signed: ThresholdSignature) returns (ok: bool)
    requires a.Valid()
    ensures ok <==> Verifies(a, signed)
  {
    if signed.k != a.k || signed.n != |a.signers| {
      return false;
    }
    if |signed.shares| < a.k {
      return false;
    }
    var shares := signed.shares;
    var seen: set<int> := {};
    var i := 0;
    while i < |shares|
      invariant Checked(a, signed.digest, shares, i, seen)
      decreases |shares| - i
    {
      var s := shares[i];
      CheckStep(a, signed.digest, shares, i, seen);
      if s.index in seen {
        return false;
      }
      if !a.IsGood(signed.digest, s) {
        assert s in shares;
        return false;
      }
      seen := seen + {s.index};
      i := i + 1;
    }
    assert shares[..i] == shares;
    return |seen| >= a.k;
  }

  /** What it takes for a threshold signature to verify: the parameters of the authority, and at least k
      shares, every one of them a valid signature of a registered signer under its registered key, no two
      of the same signer. */
  lemma {:induction false} VerifiesExactly(a: Authority, k: int, n: int, digest: Digest, shares: seq<Share>)
    ensures Verifies(a, ThresholdSignature(k, n, digest, shares))
            <==> && k == a.k && n == |a.signers| && |shares| >= a.k
                 && (forall i :: 0 <= i < |shares| ==>
                       && 0 <= shares[i].index < |a.signers| && shares[i].publicKey == a.signers[shares[i].index]
                       && a.verify(digest, shares[i].signature, a.signers[shares[i].index]))
                 && (forall i, j :: 0 <= i < |shares| && 0 <= j < |shares| && i != j ==>
                       shares[i].index != shares[j].index)
  {
    if Verifies(a, ThresholdSignature(k, n, digest, shares)) {
      forall i | 0 <= i < |shares| ensures a.IsGood(digest, shares[i]) {
        assert shares[i] in shares;
      }
    }
  }

  /** The signers for whom some valid signature on the digest exists. */
  ghost function CanSign(a: Authority, digest: Digest): set<int> {
    set i | 0 <= i < |a.signers| && exists sig :: a.verify(digest, sig, a.signers[i])
  }

  lemma {:induction false} DistinctCount(shares: seq<Share>)
    requires DistinctIndices(shares)
    ensures |Indices(shares)| == |shares|
    decreases |shares|
  {
    if shares != [] {
      var t := |shares| - 1;
      DistinctCount(shares[..t]);
      LastSplit(shares);
      assert forall s :: s in shares[..t] ==> s.index != shares[t].index;
      IndicesAppend(shares[..t], shares[t]);
    }
  }

  /** Whoever controls fewer than k signers cannot authorise: if fewer than k signers have any valid
      signature on a digest, then no threshold signature on it verifies. */
  lemma {:induction false} FewerThanKNeverVerify(a: Authority, signed: ThresholdSignature)
    requires a.Valid() && |CanSign(a, signed.digest)| < a.k
    ensures !Verifies(a, signed)
  {
    if Verifies(a, signed) {
      DistinctCount(signed.shares);
      VerifiedIndicesCanSign(a, signed);
      SubsetSize(Indices(signed.shares), CanSign(a, signed.digest));
    }
  }

  /** The outcome depends only on which signers have good shares: reordering, repeating or adding bad
      shares changes nothing. */
  lemma {:induction false} OnlyGoodSignersMatter(a: Authority, digest: Digest, r: seq<Share>, s: seq<Share>)
    requires forall x :: a.IsGood(digest, x) ==> (x in r <==> x in s)
    ensures GoodIndices(a, digest, r) == GoodIndices(a, digest, s)
  {
    forall i | i in GoodIndices(a, digest, r) ensures i in GoodIndices(a, digest, s) {
      var x :| x in r && a.IsGood(digest, x) && x.index == i;
      assert x in s;
    }
    forall i | i in GoodIndices(a, digest, s) ensures i in GoodIndices(a, digest, r) {
      var x :| x in s && a.IsGood(digest, x) && x.index == i;
      assert x in r;
    }
  }

  function Keys(shares: seq<Share>): set<Bytes> {
    set s | s in shares :: s.publicKey
  }

  predicate DistinctKeys(signers: seq<Bytes>) {
    forall i, j :: 0 <= i < j < |signers| ==> signers[i] != signers[j]
  }

  /** The signers in `members` are registered with pairwise different keys. */
  ghost predicate DistinctKeysAmong(a: Authority, members: set<int>) {
    forall i, j :: i in members && j in members && 0 <= i < j < |a.signers| ==> a.signers[i] != a.signers[j]
  }

  lemma {:induction false} KeysOfDistinct(a: Authority, digest: Digest, shares: seq<Share>)
    requires DistinctIndices(shares) && DistinctKeysAmong(a, Indices(shares))
    requires forall s :: s in shares ==> a.IsGood(digest, s)
    ensures |Keys(shares)| == |shares|
    decreases |shares|
  {
    if shares != [] {
      var t := |shares| - 1;
      var before, last := shares[..t], shares[t];
      LastSplit(shares);
      assert Indices(before) <= Indices(shares);
      KeysOfDistinct(a, digest, before);
      forall s | s in before ensures s.publicKey != last.publicKey {
        assert a.IsGood(digest, s) && a.IsGood(digest, last);
        assert s.index != last.index && s.index in Indices(shares) && last.index in Indices(shares);
      }
      assert Keys(shares) == Keys(before) + {last.publicKey};
    }
  }

  /** Every threshold signature on the digest that verifies carries at least k different keys. */
  ghost predicate NeedsKKeys(a: Authority, digest: Digest) {
    forall signed: ThresholdSignature :: signed.digest == digest && Verifies(a, signed) ==> |Keys(signed.shares)| >= a.k
  }

  lemma {:induction false} VerifiedIndicesCanSign(a: Authority, signed: ThresholdSignature)
    requires Verifies(a, signed)
    ensures Indices(signed.shares) <= CanSign(a, signed.digest)
  {
    forall i | i in Indices(signed.shares) ensures i in CanSign(a, signed.digest) {
      var s :| s in signed.shares && s.index == i;
      assert a.verify(signed.digest, s.signature, a.signers[i]);
    }
  }

  /** With pairwise different keys among those who can sign, every verified signature carries k
      different keys. */
  lemma {:induction false} VerifiedByKKeys(a: Authority, signed: ThresholdSignature)
    requires a.Valid() && DistinctKeysAmong(a, CanSign(a, signed.digest)) && Verifies(a, signed)
    ensures |Keys(signed.shares)| >= a.k
  {
    VerifiedIndicesCanSign(a, signed);
    KeysOfDistinct(a, signed.digest, signed.shares);
  }

  /** `k` different members of `members`, the given two among them. */
  lemma {:induction false} PickIndices(members: set<int>, i: int, j: int, k: nat) returns (picked: seq<int>)
    requires i in members && j in members && i != j && 2 <= k <= |members|
    ensures |picked| == k && picked[0] == i && picked[1] == j
    ensures forall t :: 0 <= t < k ==> picked[t] in members
    ensures forall t, u :: 0 <= t < u < k ==> picked[t] != picked[u]
    decreases k
  {
    if k == 2 {
      picked := [i, j];
    } else {
      var rest := PickIndices(members, i, j, k - 1);
      var x := Unpicked(members, rest);
      picked := rest + [x];
    }
  }

  lemma {:induction false} Unpicked(members: set<int>, picked: seq<int>) returns (x: int)
    requires |picked| < |members|
    ensures x in members && x !in picked
  {
    ImageSize(picked);
    if forall y :: y in members ==> y in picked {
      SubsetSize(members, Image(picked));
      assert false;
    }
    x :| x in members && x !in picked;
  }

  ghost function Image(s: seq<int>): set<int> {
    set x | x in s
  }

  lemma {:induction false} ImageSize(s: seq<int>)
    ensures |Image(s)| <= |s|
    decreases |s|
  {
    if s != [] {
      var t := |s| - 1;
      ImageSize(s[..t]);
      LastSplit(s);
      assert Image(s) == Image(s[..t]) + {s[t]};
    }
  }

  lemma {:induction false} KeysAtMost(shares: seq<Share>)
    ensures |Keys(shares)| <= |shares|
    decreases |shares|
  {
    if shares != [] {
      var t := |shares| - 1;
      KeysAtMost(shares[..t]);
      LastSplit(shares);
      assert Keys(shares) == Keys(shares[..t]) + {shares[t].publicKey};
    }
  }

  /** A good share of a signer who can sign. */
  ghost function ShareOf(a: Authority, digest: Digest, i: int): (s: Share)
    requires i in CanSign(a, digest)
    ensures s.index == i && a.IsGood(digest, s) && s.publicKey == a.signers[i]
  {
    var sig :| a.verify(digest, sig, a.signers[i]);
    Share(i, a.signers[i], sig)
  }

  /** Two able signers with one key: k of them, these two included, bring only k - 1 keys. */
  lemma {:induction false} SharedKeySignature(a: Authority, digest: Digest, i: int, j: int)
    returns (signed: ThresholdSignature)
    requires a.Valid() && 2 <= a.k <= |CanSign(a, digest)|
    requires i in CanSign(a, digest) && j in CanSign(a, digest) && i != j && a.signers[i] == a.signers[j]
    ensures signed.digest == digest && Verifies(a, signed) && |Keys(signed.shares)| < a.k
  {
    var picked := PickIndices(CanSign(a, digest), i, j, a.k);
    var shares := seq(a.k, t requires 0 <= t < a.k => ShareOf(a, digest, picked[t]));
    signed := ThresholdSignature(a.k, |a.signers|, digest, shares);
    assert shares == [shares[0]] + shares[1..];
    assert shares[1] in shares[1..] by {
      assert shares[1..][0] == shares[1];
    }
    assert Keys(shares) == Keys(shares[1..]);
    KeysAtMost(shares[1..]);
  }

  /** When k shares mean k keys: exactly if k is one, or too few signers can sign at all, or those
      who can sign have pairwise different keys. */
  lemma {:induction false} NeedsKKeysIff(a: Authority, digest: Digest)
    requires a.Valid()
    ensures NeedsKKeys(a, digest) <==>
              a.k == 1 || |CanSign(a, digest)| < a.k || DistinctKeysAmong(a, CanSign(a, digest))
  {
    if a.k == 1 || |CanSign(a, digest)| < a.k || DistinctKeysAmong(a, CanSign(a, digest)) {
      forall signed: ThresholdSignature | signed.digest == digest && Verifies(a, signed)
        ensures |Keys(signed.shares)| >= a.k
      {
        if |CanSign(a, digest)| < a.k {
          FewerThanKNeverVerify(a, signed);
        } else if a.k == 1 {
          assert signed.shares[0].publicKey in Keys(signed.shares);
        } else {
          VerifiedByKKeys(a, signed);
        }
      }
    } else {
      var i, j :| i in CanSign(a, digest) && j in CanSign(a, digest) && 0 <= i < j < |a.signers|
                  && a.signers[i] == a.signers[j];
      var signed := SharedKeySignature(a, digest, i, j);
    }
  }

  /** In particular, where every signer can sign: exactly if k is one or no key is registered twice. */
  lemma {:induction false} KeysCountedOnceIff(a: Authority, digest: Digest)
    requires a.Valid() && forall i :: 0 <= i < |a.signers| ==> exists sig :: a.verify(digest, sig, a.signers[i])
    ensures NeedsKKeys(a, digest) <==> a.k == 1 || DistinctKeys(a.signers)
  {
    NeedsKKeysIff(a, digest);
    forall i | 0 <= i < |a.signers| ensures i in CanSign(a, digest) {
      var sig :| a.verify(digest, sig, a.signers[i]);
    }
    SubsetSize(Below(|a.signers|), CanSign(a, digest));
  }

  ghost function Below(n: nat): (r: set<int>)
    ensures |r| == n && forall i :: i in r <==> 0 <= i < n
  {
    if n == 0 then {} else Below(n - 1) + {n - 1}
  }

  /** The constructor does not insist on different keys: a key registered twice counts twice, so one
      signature can satisfy a 2-of-2 authority. */
  lemma {:induction false} RepeatedKeyCountsTwice(
    H: Hash, verify: (Bytes, Bytes, Bytes) -> bool, pk: Bytes, sig: Bytes, action: Bytes)
    requires |pk| == 32 && verify(H(action), sig, pk)
    ensures var r := NewAuthority(H, verify, 2, [pk, pk]);
            r.Success? && Verifies(r.value, ThresholdSignature(2, 2, H(action), [Share(0, pk, sig), Share(1, pk, sig)]))
  {
  }
}
