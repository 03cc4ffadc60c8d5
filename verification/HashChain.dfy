/** `cgatc/audit/hashchain.py`: the append-only hash chain of one agent. */
module HashChain {
  import opened Primitives

  /** One entry of the log.  The event is structured data; its canonical JSON bytes are given by
      the log's `eventBytes`. */
  datatype AuditRecord<E> = AuditRecord(
    seqNo: nat,
    timestamp: real,
    event: E,
    envelope: Bytes,
    signature: Bytes,
    chainState: Digest)

  /** What a record adds to the chain: three byte strings without separators. */
  function LinkBytes<E>(eventBytes: E -> Bytes, rec: AuditRecord<E>): Bytes {
    eventBytes(rec.event) + rec.envelope + rec.signature
  }

  /** L^t after the given records. */
  function ChainHead<E>(H: Hash, eventBytes: E -> Bytes, recs: seq<AuditRecord<E>>): Digest {
    if recs == [] then GENESIS
    else H(ChainHead(H, eventBytes, recs[..|recs| - 1]) + LinkBytes(eventBytes, recs[|recs| - 1]))
  }

  /** The stored chain state of record `i` is the recomputed one. */
  ghost predicate LinkIntact<E>(H: Hash, eventBytes: E -> Bytes, recs: seq<AuditRecord<E>>, i: nat) {
    i < |recs| && recs[i].chainState == ChainHead(H, eventBytes, recs[..i + 1])
  }

  /** Every stored chain state and the stored head are the recomputed ones. */
  ghost predicate Intact<E>(H: Hash, eventBytes: E -> Bytes, recs: seq<AuditRecord<E>>, head: Digest) {
    && (forall i: nat :: i < |recs| ==> LinkIntact(H, eventBytes, recs, i))
    && head == ChainHead(H, eventBytes, recs)
  }

  class HashChainLog<E> {
    const H: Hash
    const eventBytes: E -> Bytes
    var records: seq<AuditRecord<E>>
    var head: Digest

    constructor (H: Hash, eventBytes: E -> Bytes)
      ensures this.H == H && this.eventBytes == eventBytes
      ensures records == [] && head == GENESIS
      ensures Intact(H, eventBytes, records, head)
    {
      this.H := H;
      this.eventBytes := eventBytes;
      records := [];
      head := GENESIS;
    }

    /** Appending hashes the old head and the new record's bytes; it keeps an intact log intact
        and cannot repair a damaged one. */
    method Append(event: E, envelope: Bytes, signature: Bytes, timestamp: real) returns (rec: AuditRecord<E>)
      modifies this
      ensures records == old(records) + [rec]
      ensures rec == AuditRecord(|old(records)|, timestamp, event, envelope, signature, head)
      ensures head == H(old(head) + (eventBytes(event) + envelope + signature))
      ensures Intact(H, eventBytes, old(records), old(head)) ==> Intact(H, eventBytes, records, head)
    {
      var newHead := H(head + (eventBytes(event) + envelope + signature));
      rec := AuditRecord(|records|, timestamp, event, envelope, signature, newHead);
      IntactAppend(H, eventBytes, records, head, rec);
      records := records + [rec];
      head := newHead;
    }

    /** Recompute the chain from genesis; false stands for AuditTamperingError. */
    method Verify() returns (ok: bool)
      ensures ok <==> Intact(H, eventBytes, records, head)
    {
      var recomputed := GENESIS;
      var i := 0;
      ghost var all := records;
      while i < |records|
        invariant 0 <= i <= |all| && records == all
        invariant recomputed == ChainHead(H, eventBytes, all[..i])
        invariant forall k: nat :: k < i ==> LinkIntact(H, eventBytes, all, k)
      {
        var rec := records[i];
        ChainHeadStep(H, eventBytes, all, i);
        recomputed := H(recomputed + (eventBytes(rec.event) + rec.envelope + rec.signature));
        if recomputed != rec.chainState {
          assert !LinkIntact(H, eventBytes, all, i);
          return false;
        }
        i := i + 1;
      }
      assert all[..i] == all;
      return recomputed == head;
    }
  }

  lemma {:induction false} ChainHeadStep<E>(H: Hash, eventBytes: E -> Bytes, recs: seq<AuditRecord<E>>, i: nat)
    requires i < |recs|
    ensures ChainHead(H, eventBytes, recs[..i + 1])
            == H(ChainHead(H, eventBytes, recs[..i]) + LinkBytes(eventBytes, recs[i]))
  {
    assert recs[..i + 1][..i] == recs[..i];
  }

  /** The stored chain state before record `i`. */
  function StateBefore<E>(recs: seq<AuditRecord<E>>, i: nat): Digest
    requires i <= |recs|
  {
    if i == 0 then GENESIS else recs[i - 1].chainState
  }

  /** Record `i` is hashed onto the stored state before it. */
  ghost predicate HashedOnto<E>(H: Hash, eventBytes: E -> Bytes, recs: seq<AuditRecord<E>>, i: nat) {
    i < |recs|
    && recs[i].chainState
       == H(StateBefore(recs, i) + (eventBytes(recs[i].event) + recs[i].envelope + recs[i].signature))
  }

  lemma {:induction false} HashedOntoPrefix<E>(H: Hash, eventBytes: E -> Bytes, recs: seq<AuditRecord<E>>, n: nat)
    requires n <= |recs| && forall i: nat :: i < n ==> HashedOnto(H, eventBytes, recs, i)
    ensures ChainHead(H, eventBytes, recs[..n]) == StateBefore(recs, n)
    decreases n
  {
    if n > 0 {
      HashedOntoPrefix(H, eventBytes, recs, n - 1);
      ChainHeadStep(H, eventBytes, recs, n - 1);
      assert HashedOnto(H, eventBytes, recs, n - 1);
    }
  }

  lemma {:induction false} IntactPrefix<E>(H: Hash, eventBytes: E -> Bytes, recs: seq<AuditRecord<E>>, i: nat)
    requires i < |recs| && forall k: nat :: k < |recs| ==> LinkIntact(H, eventBytes, recs, k)
    ensures HashedOnto(H, eventBytes, recs, i)
  {
    assert LinkIntact(H, eventBytes, recs, i);
    ChainHeadStep(H, eventBytes, recs, i);
    if i > 0 {
      assert LinkIntact(H, eventBytes, recs, i - 1);
    }
  }

  /** What `verify` decides, link by link: every record is hashed onto the stored state before it, the
      first onto the genesis value, event before envelope before signature, and the head is the last
      stored state. */
  lemma {:induction false} IntactIffHashedOnto<E>(
    H: Hash, eventBytes: E -> Bytes, recs: seq<AuditRecord<E>>, head: Digest)
    ensures Intact(H, eventBytes, recs, head)
            <==> && (forall i: nat :: i < |recs| ==> HashedOnto(H, eventBytes, recs, i))
                 && head == StateBefore(recs, |recs|)
  {
    assert recs[..|recs|] == recs;
    if Intact(H, eventBytes, recs, head) {
      forall i: nat | i < |recs| ensures HashedOnto(H, eventBytes, recs, i) {
        IntactPrefix(H, eventBytes, recs, i);
      }
      HashedOntoPrefix(H, eventBytes, recs, |recs|);
    } else if forall i: nat :: i < |recs| ==> HashedOnto(H, eventBytes, recs, i) {
      HashedOntoPrefix(H, eventBytes, recs, |recs|);
      forall i: nat | i < |recs| ensures LinkIntact(H, eventBytes, recs, i) {
        HashedOntoPrefix(H, eventBytes, recs, i + 1);
      }
    }
  }

  lemma {:induction false} ChainHeadAppend<E>(
    H: Hash, eventBytes: E -> Bytes, recs: seq<AuditRecord<E>>, rec: AuditRecord<E>)
    ensures ChainHead(H, eventBytes, recs + [rec])
            == H(ChainHead(H, eventBytes, recs) + LinkBytes(eventBytes, rec))
  {
    assert (recs + [rec])[..|recs|] == recs;
  }

  /** One more correctly linked record keeps the log intact. */
  lemma {:induction false} IntactAppend<E>(
    H: Hash, eventBytes: E -> Bytes, recs: seq<AuditRecord<E>>, head: Digest, rec: AuditRecord<E>)
    requires rec.chainState == H(head + LinkBytes(eventBytes, rec))
    ensures Intact(H, eventBytes, recs, head) ==> Intact(H, eventBytes, recs + [rec], rec.chainState)
  {
    if Intact(H, eventBytes, recs, head) {
      var all := recs + [rec];
      ChainHeadAppend(H, eventBytes, recs, rec);
      forall i: nat | i < |all| ensures LinkIntact(H, eventBytes, all, i) {
        if i < |recs| {
          assert all[..i + 1] == recs[..i + 1];
          assert LinkIntact(H, eventBytes, recs, i);
        } else {
          assert all[..i + 1] == all;
        }
      }
    }
  }

  // ---------------------------------------------------------------------
  // Tamper evidence
  // ---------------------------------------------------------------------

  /** Everything that is hashed while the chain over `recs` is computed. */
  ghost function ChainInputs<E>(H: Hash, eventBytes: E -> Bytes, recs: seq<AuditRecord<E>>): set<Bytes> {
    if recs == [] then {}
    else
      var t := |recs| - 1;
      ChainInputs(H, eventBytes, recs[..t])
      + {ChainHead(H, eventBytes, recs[..t]) + LinkBytes(eventBytes, recs[t])}
  }

  ghost predicate MissesGenesis(H: Hash, inputs: set<Bytes>) {
    forall x :: x in inputs ==> H(x) != GENESIS
  }

  ghost predicate SameLinks<E>(eventBytes: E -> Bytes, r: seq<AuditRecord<E>>, s: seq<AuditRecord<E>>) {
    |r| == |s|
    && forall i {:trigger r[i]} {:trigger s[i]} ::
         0 <= i < |r| ==> LinkBytes(eventBytes, r[i]) == LinkBytes(eventBytes, s[i])
  }

  lemma {:induction false} SameLinksExtend<E>(eventBytes: E -> Bytes, r: seq<AuditRecord<E>>, s: seq<AuditRecord<E>>)
    requires r != [] && s != [] && SameLinks(eventBytes, r[..|r| - 1], s[..|s| - 1])
    requires LinkBytes(eventBytes, r[|r| - 1]) == LinkBytes(eventBytes, s[|s| - 1])
    ensures SameLinks(eventBytes, r, s)
  {
    forall i | 0 <= i < |r| ensures LinkBytes(eventBytes, r[i]) == LinkBytes(eventBytes, s[i]) {
      if i < |r| - 1 {
        assert r[i] == r[..|r| - 1][i] && s[i] == s[..|s| - 1][i];
      }
    }
  }

  /** Two record lists with the same head have the same length and the same link bytes at every
      index.  So no record can be modified, deleted, inserted or moved under a known head. */
  lemma {:induction false} SameHeadSameLinks<E>(
    H: Hash, eventBytes: E -> Bytes, r: seq<AuditRecord<E>>, s: seq<AuditRecord<E>>)
    requires var inputs := ChainInputs(H, eventBytes, r) + ChainInputs(H, eventBytes, s);
             CollisionFree(H, inputs) && MissesGenesis(H, inputs)
    requires ChainHead(H, eventBytes, r) == ChainHead(H, eventBytes, s)
    ensures SameLinks(eventBytes, r, s)
    decreases |r|
  {
    if r != [] && s != [] {
      var t, u := |r| - 1, |s| - 1;
      var x := ChainHead(H, eventBytes, r[..t]) + LinkBytes(eventBytes, r[t]);
      var y := ChainHead(H, eventBytes, s[..u]) + LinkBytes(eventBytes, s[u]);
      assert x == y by {
        assert x in ChainInputs(H, eventBytes, r) && y in ChainInputs(H, eventBytes, s);
      }
      SplitConcat(ChainHead(H, eventBytes, r[..t]), LinkBytes(eventBytes, r[t]),
                  ChainHead(H, eventBytes, s[..u]), LinkBytes(eventBytes, s[u]));
      SameHeadSameLinks(H, eventBytes, r[..t], s[..u]);
      SameLinksExtend(eventBytes, r, s);
    }
  }

  /** Tamper evidence of `verify`: two logs that both pass it with the same head carry the same
      link bytes and the same stored chain states, record by record. */
  lemma {:induction false} TamperEvidence<E>(
    H: Hash, eventBytes: E -> Bytes, r: seq<AuditRecord<E>>, s: seq<AuditRecord<E>>, head: Digest)
    requires var inputs := ChainInputs(H, eventBytes, r) + ChainInputs(H, eventBytes, s);
             CollisionFree(H, inputs) && MissesGenesis(H, inputs)
    requires Intact(H, eventBytes, r, head) && Intact(H, eventBytes, s, head)
    ensures SameLinks(eventBytes, r, s)
    ensures forall i :: 0 <= i < |r| ==> r[i].chainState == s[i].chainState
  {
    SameHeadSameLinks(H, eventBytes, r, s);
    forall i | 0 <= i < |r| ensures r[i].chainState == s[i].chainState {
      SameLinksSameHead(H, eventBytes, r[..i + 1], s[..i + 1]);
      assert LinkIntact(H, eventBytes, r, i) && LinkIntact(H, eventBytes, s, i);
    }
  }

  /** The head depends on nothing but the link bytes. */
  lemma {:induction false} SameLinksSameHead<E>(
    H: Hash, eventBytes: E -> Bytes, r: seq<AuditRecord<E>>, s: seq<AuditRecord<E>>)
    requires SameLinks(eventBytes, r, s)
    ensures ChainHead(H, eventBytes, r) == ChainHead(H, eventBytes, s)
    decreases |r|
  {
    if r != [] {
      SameLinksSameHead(H, eventBytes, r[..|r| - 1], s[..|s| - 1]);
    }
  }

  /** What the chain does not bind: the boundaries between the three parts of a link.  Equal links
      have equal parts exactly when the first two parts have equal lengths. */
  lemma {:induction false} PartsBoundExactlyByLengths<E>(eventBytes: E -> Bytes, a: AuditRecord<E>, b: AuditRecord<E>)
    requires LinkBytes(eventBytes, a) == LinkBytes(eventBytes, b)
    ensures eventBytes(a.event) == eventBytes(b.event) && a.envelope == b.envelope && a.signature == b.signature
            <==> |eventBytes(a.event)| == |eventBytes(b.event)| && |a.envelope| == |b.envelope|
  {
    if |eventBytes(a.event)| == |eventBytes(b.event)| && |a.envelope| == |b.envelope| {
      SplitConcat(eventBytes(a.event) + a.envelope, a.signature, eventBytes(b.event) + b.envelope, b.signature);
      SplitConcat(eventBytes(a.event), a.envelope, eventBytes(b.event), b.envelope);
    }
  }

  /** For instance: under every hash, a byte can move from the envelope of the first record to its
      signature unnoticed, so two different logs pass `verify` with the same head. */
  lemma {:induction false} BoundaryShiftGoesUnnoticed<E>(H: Hash, eventBytes: E -> Bytes, event: E, x: Byte)
    ensures var state := H(GENESIS + (eventBytes(event) + [x]));
            && Intact(H, eventBytes, [AuditRecord(0, 0.0, event, [x], [], state)], state)
            && Intact(H, eventBytes, [AuditRecord(0, 0.0, event, [], [x], state)], state)
  {
    var state := H(GENESIS + (eventBytes(event) + [x]));
    var a, b := AuditRecord(0, 0.0, event, [x], [], state), AuditRecord(0, 0.0, event, [], [x], state);
    assert LinkBytes(eventBytes, a) == eventBytes(event) + [x] == LinkBytes(eventBytes, b);
    ChainHeadAppend(H, eventBytes, [], a);
    ChainHeadAppend(H, eventBytes, [], b);
    assert [] + [a] == [a] == [a][..0 + 1] && [] + [b] == [b] == [b][..0 + 1];
  }

  /** Sequence numbers and timestamps are not hashed: rewriting them all goes unnoticed. */
  lemma {:induction false} NumbersAndTimesAreNotBound<E>(
    H: Hash, eventBytes: E -> Bytes, r: seq<AuditRecord<E>>, s: seq<AuditRecord<E>>, head: Digest)
    requires |r| == |s|
    requires forall i :: 0 <= i < |r| ==> s[i] == r[i].(seqNo := s[i].seqNo, timestamp := s[i].timestamp)
    requires Intact(H, eventBytes, r, head)
    ensures Intact(H, eventBytes, s, head)
  {
    forall i: nat | i < |s| ensures LinkIntact(H, eventBytes, s, i) {
      assert LinkIntact(H, eventBytes, r, i);
      SameLinksSameHead(H, eventBytes, r[..i + 1], s[..i + 1]);
    }
    SameLinksSameHead(H, eventBytes, r, s);
  }

  /** `verify` alone does not notice a cut-off tail: every prefix passes with the chain state of
      its last record as head, which is why heads and roots are published. */
  lemma {:induction false} PrefixesAreIntact<E>(
    H: Hash, eventBytes: E -> Bytes, r: seq<AuditRecord<E>>, head: Digest, k: nat)
    requires Intact(H, eventBytes, r, head) && 0 < k <= |r|
    ensures Intact(H, eventBytes, r[..k], r[k - 1].chainState)
  {
    forall i: nat | i < k ensures LinkIntact(H, eventBytes, r[..k], i) {
      assert LinkIntact(H, eventBytes, r, i);
      assert r[..k][..i + 1] == r[..i + 1];
    }
    assert LinkIntact(H, eventBytes, r, k - 1);
  }
}
