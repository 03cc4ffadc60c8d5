/** How the choices of the shuffle are drawn from the hash, and that every committee can be drawn. */
module VrfDraws {
  import opened Primitives
  import opened Vrf

  // ---------------------------------------------------------------------
  // Numbers as bytes
  // ---------------------------------------------------------------------

  lemma {:induction false} OneByteMore(b: Bytes, c: Byte)
    ensures FromBytes(b + [c]) == FromBytes(b) * 0x100 + c as nat
  {
    assert (b + [c])[..|b|] == b;
  }

  /** Four bytes are read with the most significant first. */
  lemma {:induction false} FourBytes(b: Bytes)
    requires |b| == 4
    ensures FromBytes(b) == b[0] as nat * 0x100_0000 + b[1] as nat * 0x1_0000 + b[2] as nat * 0x100 + b[3] as nat
  {
    assert b[..0] == [] && b[..1] == b[..0] + [b[0]] && b[..2] == b[..1] + [b[1]];
    assert b[..3] == b[..2] + [b[2]] && b == b[..3] + [b[3]];
    OneByteMore(b[..0], b[0]);
    OneByteMore(b[..1], b[1]);
    OneByteMore(b[..2], b[2]);
    OneByteMore(b[..3], b[3]);
  }

  /** The first number that does not fit into `width` bytes. */
  function Bound(width: nat): nat {
    if width == 0 then 1 else 0x100 * Bound(width - 1)
  }

  lemma {:induction false} NextByte(b: Byte)
    requires b != 255
    ensures (b + 1) as nat == b as nat + 1
  {
  }

  /** The byte with value `r`. */
  function ByteWith(r: nat): (b: Byte)
    requires r < 0x100
    ensures b as nat == r
  {
    if r == 0 then 0 else NextByte(ByteWith(r - 1)); ByteWith(r - 1) + 1
  }

  lemma {:induction false} ByteAgain(b: Byte)
    ensures (b as nat) as Byte == b
  {
  }

  lemma {:induction false} ByteValue(r: nat)
    requires r < 0x100
    ensures (r as Byte) as nat == r
  {
    ByteAgain(ByteWith(r));
  }

  lemma {:induction false} LastByte(x: nat, width: nat)
    ensures BigEndian(x, width + 1) == BigEndian(x / 0x100, width) + [(x % 0x100) as Byte]
  {
  }

  lemma {:induction false} Quotient(x: nat, bound: nat)
    requires x < 0x100 * bound
    ensures x / 0x100 < bound && x == x / 0x100 * 0x100 + x % 0x100
  {
  }

  /** Reading back what was written gives the number, if it fits. */
  lemma {:induction false} ReadBack(x: nat, width: nat)
    requires x < Bound(width)
    ensures FromBytes(BigEndian(x, width)) == x
    decreases width
  {
    if width > 0 {
      var q, last := x / 0x100, (x % 0x100) as Byte;
      Quotient(x, Bound(width - 1));
      ReadBack(q, width - 1);
      LastByte(x, width - 1);
      OneByteMore(BigEndian(q, width - 1), last);
      ByteValue(x % 0x100);
    }
  }

  lemma {:induction false} WordBound()
    ensures Bound(4) == WORD
  {
    assert Bound(0) == 1 && Bound(1) == 0x100 && Bound(2) == 0x1_0000 && Bound(3) == 0x100_0000;
  }

  lemma {:induction false} UnpackPack(i: nat)
    requires i < WORD
    ensures FromBytes(Pack(i)) == i
  {
    WordBound();
    ReadBack(i, 4);
  }

  /** Different counters are packed differently. */
  lemma {:induction false} PackInjective(i: nat, j: nat)
    requires i < WORD && j < WORD && Pack(i) == Pack(j)
    ensures i == j
  {
    UnpackPack(i);
    UnpackPack(j);
  }

  lemma {:induction false} Digits(i: nat, a: nat, b: nat, c: nat)
    requires a == i / 0x100 && b == a / 0x100 && c == b / 0x100 && c < 0x100
    ensures BigEndian(i, 4) == [c as Byte, (b % 0x100) as Byte, (a % 0x100) as Byte, (i % 0x100) as Byte]
  {
    LastByte(i, 3);
    LastByte(a, 2);
    LastByte(b, 1);
    LastByte(c, 0);
  }

  /** The four bytes of a counter. */
  lemma {:induction false} PackedBytes(i: nat)
    requires i < WORD
    ensures Pack(i) == [(i / 0x100_0000) as Byte, (i / 0x1_0000 % 0x100) as Byte, (i / 0x100 % 0x100) as Byte,
                        (i % 0x100) as Byte]
  {
    Digits(i, i / 0x100, i / 0x1_0000, i / 0x100_0000);
  }

  /** The choice for position `i` is the remainder by i + 1 of the first four bytes, read with the most
      significant first, of the hash of the output and the four bytes of `i`. */
  lemma {:induction false} ChoiceExactly(H: Hash, output: Digest, i: nat)
    requires i < WORD
    ensures var counter := [(i / 0x100_0000) as Byte, (i / 0x1_0000 % 0x100) as Byte, (i / 0x100 % 0x100) as Byte,
                            (i % 0x100) as Byte];
            var b := H(output + counter);
            Choice(H, output, i)
            == (b[0] as nat * 0x100_0000 + b[1] as nat * 0x1_0000 + b[2] as nat * 0x100 + b[3] as nat) % (i + 1)
  {
    PackedBytes(i);
    FourBytes(H(output + Pack(i))[..4]);
  }

  // ---------------------------------------------------------------------
  // Every choice can be drawn
  // ---------------------------------------------------------------------

  /** The number in four bytes, in front of zeros. */
  function Padded(x: nat): Digest {
    BigEndian(x, 4) + seq(HASH_SIZE - 4, i => 0)
  }

  /** A digest from which the choices `js` are drawn: the last four of 36 bytes tell the position. */
  function Drawn(js: seq<nat>, x: Bytes): Digest {
    if |x| == HASH_SIZE + 4 && FromBytes(x[HASH_SIZE..]) < |js| then Padded(js[FromBytes(x[HASH_SIZE..])])
    else GENESIS
  }

  function DrawingHash(js: seq<nat>): Hash {
    (x: Bytes) => Drawn(js, x)
  }

  lemma {:induction false} DrawnDigest(js: seq<nat>, output: Digest, i: nat)
    requires Choices(js) && i < |js| <= WORD
    ensures DrawingHash(js)(output + Pack(i))[..4] == Pack(js[i])
  {
    var x := output + Pack(i);
    assert |x| == HASH_SIZE + 4 && x[HASH_SIZE..] == Pack(i);
    UnpackPack(i);
    assert Drawn(js, x) == Padded(js[i]);
    assert Padded(js[i])[..4] == BigEndian(js[i], 4);
  }

  lemma {:induction false} SmallRemainder(x: nat, m: nat)
    requires x < m
    ensures x % m == x
  {
  }

  lemma {:induction false} DrawnAt(js: seq<nat>, output: Digest, i: nat)
    requires Choices(js) && i < |js| <= WORD
    ensures Choice(DrawingHash(js), output, i) == js[i]
  {
    assert FromBytes(DrawingHash(js)(output + Pack(i))[..4]) == js[i] by {
      DrawnDigest(js, output, i);
      UnpackPack(js[i]);
    }
    SmallRemainder(js[i], i + 1);
  }

  /** For every choice vector some hash draws exactly these choices, from every output. */
  lemma {:induction false} EveryChoiceIsDrawn(js: seq<nat>, output: Digest)
    requires Choices(js) && |js| <= WORD
    ensures ChoicesFrom(DrawingHash(js), output, |js|) == js
  {
    var drawn := ChoicesFrom(DrawingHash(js), output, |js|);
    forall i | 0 <= i < |js| ensures drawn[i] == js[i] {
      if i > 0 {
        DrawnAt(js, output, i);
      }
    }
  }

  lemma {:induction false} SortedIsItself(s: seq<nat>)
    requires StrictlyIncreasing(s)
    ensures Sorted(s) == s
    decreases |s|
  {
    if s != [] {
      SortedIsItself(s[1..]);
      assert s == [s[0]] + s[1..];
    }
  }

  /** The candidates that are not among `members`. */
  function Others(members: seq<nat>, n: nat): seq<nat> {
    if n == 0 then [] else Others(members, n - 1) + if n - 1 in members then [] else [n - 1]
  }

  lemma {:induction false} CountAppend(s: seq<nat>, y: nat, x: nat)
    ensures multiset(s + [y])[x] == multiset(s)[x] + if x == y then 1 else 0
    ensures s + [] == s
  {
  }

  lemma {:induction false} OthersCount(members: seq<nat>, n: nat, x: nat)
    ensures multiset(Others(members, n))[x] == if x < n && x !in members then 1 else 0
    decreases n
  {
    if n > 0 {
      OthersCount(members, n - 1, x);
      CountAppend(Others(members, n - 1), n - 1, x);
    }
  }

  lemma {:induction false} RangeCount(n: nat, x: nat)
    ensures multiset(Range(n))[x] == if x < n then 1 else 0
    decreases n
  {
    if n == 0 {
      assert Range(0) == [];
    } else {
      RangeCount(n - 1, x);
      assert Range(n) == Range(n - 1) + [n - 1];
    }
  }

  lemma {:induction false} IncreasingCount(s: seq<nat>, x: nat)
    requires StrictlyIncreasing(s)
    ensures multiset(s)[x] == if x in s then 1 else 0
    decreases |s|
  {
    if s != [] {
      var t := |s| - 1;
      IncreasingCount(s[..t], x);
      LastSplit(s);
      assert forall k :: 0 <= k < t ==> s[k] < s[t];
    }
  }

  lemma {:induction false} MembersFirst(members: seq<nat>, n: nat)
    requires StrictlyIncreasing(members) && forall m :: m in members ==> m < n
    ensures multiset(members + Others(members, n)) == multiset(Range(n))
  {
    forall x: nat ensures multiset(members + Others(members, n))[x] == multiset(Range(n))[x] {
      OthersCount(members, n, x);
      RangeCount(n, x);
      IncreasingCount(members, x);
    }
  }

  /** Every committee can come up: whatever candidates are asked for, under some hash the committee that
      is selected from its draws consists of exactly these. */
  lemma {:induction false} EveryCommitteeIsDrawn(n: nat, members: seq<nat>, output: Digest) returns (H: Hash)
    requires 0 < n <= WORD && StrictlyIncreasing(members) && forall m :: m in members ==> m < n
    ensures |members| <= n
    ensures Sorted(Shuffle(ChoicesFrom(H, output, n), Range(n), n - 1)[..|members|]) == members
  {
    var p := members + Others(members, n);
    MembersFirst(members, n);
    assert |p| == |multiset(p)| == |multiset(Range(n))| == n;
    var js := ShuffleSurjective(Range(n), p, n - 1);
    H := DrawingHash(js);
    EveryChoiceIsDrawn(js, output);
    assert p[..|members|] == members;
    SortedIsItself(members);
  }
}
