/** `cgatc/messaging/envelope.py`: the signed message envelope and its stateless checks. */
module Envelopes {
  import opened Primitives
  import opened Exceptions

  datatype MessageType = Handshake | Request | Response | Delegation | AuditCommit | Revocation

  datatype Envelope = Envelope(
    session: Bytes,
    task: Bytes,
    seqNo: nat,
    sender: Bytes,
    receiver: Bytes,
    kind: MessageType,
    payloadHash: Bytes,
    capId: Option<Bytes>,
    prevHash: Bytes,
    timestamp: real)

  datatype SignedEnvelope = SignedEnvelope(envelope: Envelope, signature: Bytes)

  const FRESHNESS_WINDOW := 300.0

  /** The cryptography the protocol is run with: the hash, signature verification (message,
      signature, public key) and the canonical JSON encoding of envelopes. */
  datatype Crypto = Crypto(hash: Hash, verify: (Bytes, Bytes, Bytes) -> bool, encode: Envelope -> Bytes) {

    function DigestOf(env: Envelope): Digest {
      hash(encode(env))
    }

    /** Different envelopes of `envs` have different digests. */
    ghost predicate DigestsDistinct(envs: set<Envelope>) {
      forall a, b :: a in envs && b in envs && DigestOf(a) == DigestOf(b) ==> a == b
    }

    /** No envelope of `envs` has the genesis value as its digest. */
    ghost predicate DigestsMissGenesis(envs: set<Envelope>) {
      forall a :: a in envs ==> DigestOf(a) != GENESIS
    }
  }

  function Abs(x: real): real {
    if x < 0.0 then -x else x
  }

  /** `verify_envelope`: the first failing check, if any. */
  function VerifyEnvelope(
    c: Crypto, signed: SignedEnvelope, publicKey: Bytes, payload: Bytes, me: Bytes, now: real): Option<Exc> {
    var env := signed.envelope;
    if !c.verify(c.DigestOf(env), signed.signature, publicKey) then Some(SignatureVerificationError)
    else if c.hash(payload) != env.payloadHash then Some(HashMismatchError)
    else if Abs(now - env.timestamp) > FRESHNESS_WINDOW then Some(StaleTimestampError)
    else if me != env.receiver then Some(EnvelopeError)
    else None
  }

  /** Which check answers for an envelope: an envelope passes if and only if all four hold, and otherwise
      the first that fails, in the order signature, payload, freshness, receiver, gives its own exception. */
  lemma {:induction false} EnvelopeChecksExactly(
    c: Crypto, env: Envelope, signature: Bytes, publicKey: Bytes, payload: Bytes, me: Bytes, now: real)
    ensures var fault := VerifyEnvelope(c, SignedEnvelope(env, signature), publicKey, payload, me, now);
            var signed, unaltered := c.verify(c.hash(c.encode(env)), signature, publicKey),
                                     env.payloadHash == c.hash(payload);
            var recent, mine := env.timestamp - 300.0 <= now <= env.timestamp + 300.0, env.receiver == me;
            && (fault == None <==> signed && unaltered && recent && mine)
            && (fault == Some(SignatureVerificationError) <==> !signed)
            && (fault == Some(HashMismatchError) <==> signed && !unaltered)
            && (fault == Some(StaleTimestampError) <==> signed && unaltered && !recent)
            && (fault == Some(EnvelopeError) <==> signed && unaltered && recent && !mine)
  {
  }
}
