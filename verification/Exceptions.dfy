/** `cgatc/core/exceptions.py` and the severities of `cgatc/detection/crypto_detector.py`. */
module Exceptions {

  /** The exceptions that a message check can raise. */
  datatype Exc =
    | SignatureVerificationError
    | HashMismatchError
    | EnvelopeError
    | StaleTimestampError
    | SequenceError
    | ChainError
    | ReplayError
    | CapabilityError
    | CapabilityScopeError
    | CapabilityExpiredError
    | CapabilityAudienceError
  {
    /** Subclasses of EnvelopeError, itself included.  HashMismatchError is not one of them. */
    predicate IsEnvelopeError() {
      EnvelopeError? || StaleTimestampError? || SequenceError? || ChainError? || ReplayError?
    }

    predicate IsCapabilityError() {
      CapabilityError? || CapabilityScopeError? || CapabilityExpiredError? || CapabilityAudienceError?
    }

    /** `classify_exception`: the first matching row of the severity table. */
    function Severity(): (s: real)
      ensures 0.5 <= s <= 1.0
    {
      match this
      case SignatureVerificationError => 1.0
      case HashMismatchError => 1.0
      case SequenceError => 0.7
      case ChainError => 0.8
      case ReplayError => 0.9
      case CapabilityExpiredError => 0.8
      case CapabilityScopeError => 0.8
      case CapabilityAudienceError => 0.9
      case CapabilityError => 0.7
      case EnvelopeError => 0.5
      case StaleTimestampError => 0.5
    }
  }

  /** Forged signatures and altered payloads weigh most; everything that only an insider can cause weighs
      less, and stale or misdirected envelopes least. */
  lemma {:induction false} Severities(e: Exc)
    ensures e.Severity() == 1.0 <==> e == SignatureVerificationError || e == HashMismatchError
    ensures e.Severity() == 0.9 <==> e == ReplayError || e == CapabilityAudienceError
    ensures e.Severity() == 0.8 <==> e == ChainError || e == CapabilityExpiredError || e == CapabilityScopeError
    ensures e.Severity() == 0.7 <==> e == SequenceError || e == CapabilityError
    ensures e.Severity() == 0.5 <==> e == EnvelopeError || e == StaleTimestampError
  {
  }
}
