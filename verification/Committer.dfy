/** `cgatc/audit/committer.py`: periodic publication of the Merkle root of the log's events. */
module Committer {
  import opened Primitives
  import opened Rfc6962
  import opened Merkle
  import opened HashChain
  import MerkleTheorems

  datatype Commitment = Commitment(agent: Bytes, seqCount: nat, root: Digest, signature: Bytes, timestamp: real)

  /** The leaves of the published tree: the canonical bytes of every event. */
  function EventLeaves<E>(eventBytes: E -> Bytes, recs: seq<AuditRecord<E>>): (r: seq<Bytes>)
    ensures |r| == |recs|
    ensures forall i :: 0 <= i < |recs| ==> r[i] == eventBytes(recs[i].event)
  {
    seq(|recs|, i requires 0 <= i < |recs| => eventBytes(recs[i].event))
  }

  /** Newest commitment of `agent`, if any. */
  function Latest(commitments: seq<Commitment>, agent: Bytes): Option<Digest> {
    if commitments == [] then None
    else if commitments[|commitments| - 1].agent == agent then Some(commitments[|commitments| - 1].root)
    else Latest(commitments[..|commitments| - 1], agent)
  }

  /** `i` is the newest commitment of `agent`. */
  ghost predicate IsNewest(commitments: seq<Commitment>, agent: Bytes, i: nat) {
    && i < |commitments| && commitments[i].agent == agent
    && forall j :: i < j < |commitments| ==> commitments[j].agent != agent
  }

  /** The latest root of an agent is that of its newest commitment; there is none only if it has never
      committed. */
  lemma {:induction false} LatestIsNewest(commitments: seq<Commitment>, agent: Bytes, i: nat)
    ensures Latest(commitments, agent) == None <==> forall c :: c in commitments ==> c.agent != agent
    ensures IsNewest(commitments, agent, i) ==> Latest(commitments, agent) == Some(commitments[i].root)
    decreases |commitments|
  {
    if commitments != [] {
      var before, last := commitments[..|commitments| - 1], commitments[|commitments| - 1];
      LastSplit(commitments);
      if last.agent != agent {
        LatestIsNewest(before, agent, i);
        assert forall c :: c in commitments <==> c in before || c == last;
        if IsNewest(commitments, agent, i) {
          assert IsNewest(before, agent, i);
        }
      }
    }
  }

  class InMemoryCommitterSink {
    var commitments: seq<Commitment>

    constructor ()
      ensures commitments == []
    {
      commitments := [];
    }

    method LatestRoot(agent: Bytes) returns (root: Option<Digest>)
      ensures root == Latest(commitments, agent)
    {
      var i := |commitments|;
      assert commitments[..i] == commitments;
      while i > 0
        invariant 0 <= i <= |commitments|
        invariant Latest(commitments[..i], agent) == Latest(commitments, agent)
      {
        assert commitments[..i][..i - 1] == commitments[..i - 1];
        i := i - 1;
        if commitments[i].agent == agent {
          return Some(commitments[i].root);
        }
      }
      return None;
    }
  }

  class AuditCommitter {
    const agent: Bytes
    const sign: Bytes -> Bytes
    const sink: InMemoryCommitterSink

    constructor (agent: Bytes, sign: Bytes -> Bytes, sink: InMemoryCommitterSink)
      ensures this.agent == agent && this.sign == sign && this.sink == sink
    {
      this.agent := agent;
      this.sign := sign;
      this.sink := sink;
    }

    /** Publish the root of the whole log; it becomes the agent's latest root. */
    method Commit<E>(log: HashChainLog<E>, timestamp: real) returns (c: Commitment)
      modifies sink
      ensures c.root == MTH(log.H, EventLeaves(log.eventBytes, log.records))
      ensures c == Commitment(agent, |log.records|, c.root, sign(c.root), timestamp)
      ensures sink.commitments == old(sink.commitments) + [c]
      ensures Latest(sink.commitments, agent) == Some(c.root)
    {
      var root := MerkleRoot(log.H, EventLeaves(log.eventBytes, log.records));
      c := Commitment(agent, |log.records|, root, sign(root), timestamp);
      sink.commitments := sink.commitments + [c];
    }
  }

  /** `c` is what committing a log with these records publishes. */
  ghost predicate CommitsTo<E>(H: Hash, eventBytes: E -> Bytes, c: Commitment, recs: seq<AuditRecord<E>>) {
    c.seqCount == |recs| && c.root == MTH(H, EventLeaves(eventBytes, recs))
  }

  /** A published root fixes the whole sequence of events: two logs that commit to the same root
      have the same number of records and the same event bytes at every index. */
  lemma {:induction false} RootFixesEvents<E>(H: Hash, eventBytes: E -> Bytes, c: Commitment, d: Commitment,
                                              r: seq<AuditRecord<E>>, s: seq<AuditRecord<E>>)
    requires CommitsTo(H, eventBytes, c, r) && CommitsTo(H, eventBytes, d, s) && c.root == d.root
    requires CollisionFree(H, MerkleTheorems.HashedBy(H, EventLeaves(eventBytes, r))
                              + MerkleTheorems.HashedBy(H, EventLeaves(eventBytes, s)))
    ensures |r| == |s| && c.seqCount == d.seqCount
    ensures forall i :: 0 <= i < |r| ==> eventBytes(r[i].event) == eventBytes(s[i].event)
  {
    var rLeaves, sLeaves := EventLeaves(eventBytes, r), EventLeaves(eventBytes, s);
    MerkleTheorems.RootBindsLeaves(H, rLeaves, sLeaves);
    forall i | 0 <= i < |r| ensures eventBytes(r[i].event) == eventBytes(s[i].event) {
      assert rLeaves[i] == sLeaves[i];
    }
  }

  /** A third party that checks an inclusion proof against the root and the count of a commitment
      accepts exactly the event bytes of the record at the claimed index, with its audit path. */
  lemma {:induction false} ProofAgainstCommitment<E>(
    H: Hash, eventBytes: E -> Bytes, c: Commitment, recs: seq<AuditRecord<E>>, leaf: Bytes, proof: InclusionProof)
    requires CommitsTo(H, eventBytes, c, recs) && proof.leafCount == c.seqCount
    requires CollisionFree(H, MerkleTheorems.HashedInCheck(H, leaf, proof, EventLeaves(eventBytes, recs)))
    ensures Accepts(H, leaf, proof, c.root)
            <==> 0 <= proof.leafIndex < |recs|
                 && leaf == eventBytes(recs[proof.leafIndex].event)
                 && proof.siblings == PATH(H, proof.leafIndex, EventLeaves(eventBytes, recs))
  {
    MerkleTheorems.AcceptedWithRightCount(H, leaf, proof, EventLeaves(eventBytes, recs));
  }

  /** The root covers events only: it is unchanged when the envelope or signature bytes of any
      record are replaced. */
  lemma {:induction false} RootIgnoresEnvelopes<E>(H: Hash, eventBytes: E -> Bytes, c: Commitment,
                                                   r: seq<AuditRecord<E>>, s: seq<AuditRecord<E>>)
    requires |r| == |s| && forall i :: 0 <= i < |r| ==> r[i].event == s[i].event
    ensures CommitsTo(H, eventBytes, c, r) <==> CommitsTo(H, eventBytes, c, s)
  {
    assert EventLeaves(eventBytes, r) == EventLeaves(eventBytes, s);
  }
}
