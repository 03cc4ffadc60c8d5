/** Which verdict `handle_inbound` reaches on each message, and what it writes into its log. */
module Verdicts {
  import opened Primitives
  import opened Exceptions
  import opened Envelopes
  import opened Chain
  import opened Replay
  import opened Delivery
  import opened Capabilities
  import opened Middlewares
  import opened MiddlewareRuns

  // ---------------------------------------------------------------------
  // What can be said against a message
  // ---------------------------------------------------------------------

  predicate Known(s: MwState, m: Inbound) {
    m.signed.envelope.sender in s.peers
  }

  /** The signature on the digest of the envelope is that of the registered sender. */
  predicate Signed(cfg: Config, s: MwState, m: Inbound)
    requires Known(s, m)
  {
    var env := m.signed.envelope;
    cfg.crypto.verify(cfg.crypto.hash(cfg.crypto.encode(env)), m.signed.signature, s.peers[env.sender])
  }

  predicate Unaltered(cfg: Config, m: Inbound) {
    cfg.crypto.hash(m.payload) == m.signed.envelope.payloadHash
  }

  predicate Timely(m: Inbound) {
    m.signed.envelope.timestamp - 300.0 <= m.clock.envelope <= m.signed.envelope.timestamp + 300.0
  }

  /** The head of the chain of the message's session and sender. */
  function HeadBefore(s: MwState, m: Inbound): ChainState {
    At(s.gate.chains, Key(m.signed.envelope.session, m.signed.envelope.sender))
  }

  /** The number, or the digest, has been seen. */
  predicate Seen(cfg: Config, s: MwState, m: Inbound) {
    var env := m.signed.envelope;
    || env.seqNo in SeqsOf(s.gate.seen, Key(env.session, env.sender))
    || cfg.crypto.hash(cfg.crypto.encode(env)) in s.gate.seen.digests
  }

  /** Why the capability does not allow the action, if there is one and it does not. */
  function CapabilityFault(cfg: Config, m: Inbound): Option<Exc> {
    if m.capability.None? then None
    else
      var env := m.signed.envelope;
      var action := ActionRequest(env.sender, cfg.me, env.task, m.scope, None, None, None, m.isDelegation);
      cfg.enforcer.Check(m.capability.value, action, m.clock.capability)
  }

  /** How many senders have presented the payload, this one included. */
  function Crowd(cfg: Config, s: MwState, m: Inbound): nat {
    var fp := cfg.crypto.hash(m.payload);
    |(if fp in s.fingerprints then s.fingerprints[fp] else {}) + {m.signed.envelope.sender}|
  }

  /** The first thing to be said against a message whose payload is not altered, in the order of the
      checks: who sends it, the envelope, the chain, the replay guard, the capability, the payload. */
  function Objection(cfg: Config, s: MwState, m: Inbound): Option<Reason> {
    var env := m.signed.envelope;
    if !Known(s, m) then Some(UnknownPeer)
    else if !Signed(cfg, s, m) then Some(Failed(SignatureVerificationError))
    else if !Timely(m) then Some(Failed(StaleTimestampError))
    else if env.receiver != cfg.me then Some(Failed(EnvelopeError))
    else if env.seqNo <= HeadBefore(s, m).lastSeq then Some(Failed(SequenceError))
    else if env.prevHash != HeadBefore(s, m).lastHash then Some(Failed(ChainError))
    else if Seen(cfg, s, m) then Some(Failed(ReplayError))
    else if m.capability.None? then Some(MissingCapability)
    else if CapabilityFault(cfg, m).Some? then Some(Failed(CapabilityFault(cfg, m).value))
    else if Crowd(cfg, s, m) >= cfg.payloadThreshold then Some(PromptFanout)
    else None
  }

  /** The verdict on a message, in terms of the state before it, and of its sender's level and risk in the
      state `r` after it. */
  function Verdict(cfg: Config, s: MwState, m: Inbound, r: MwState): Outcome {
    var sender, objection := m.signed.envelope.sender, Objection(cfg, s, m);
    if Known(s, m) && Signed(cfg, s, m) && !Unaltered(cfg, m) then Raised(HashMismatchError)
    else if objection.Some? then Rejected(objection.value, LevelOf(r, sender), RiskOf(r, sender))
    else if LevelOf(r, sender) >= 6 then Rejected(Isolated, LevelOf(r, sender), RiskOf(r, sender))
    else Accepted(m.payload, LevelOf(r, sender), RiskOf(r, sender))
  }

  lemma {:induction false} AdmitVerdict(cfg: Config, s: MwState, m: Inbound)
    ensures var (r, o) := Admit(cfg, s, m); var sender := m.signed.envelope.sender;
            o == if Crowd(cfg, s, m) >= cfg.payloadThreshold
                 then Rejected(PromptFanout, LevelOf(r, sender), RiskOf(r, sender))
                 else if LevelOf(r, sender) >= 6 then Rejected(Isolated, LevelOf(r, sender), RiskOf(r, sender))
                 else Accepted(m.payload, LevelOf(r, sender), RiskOf(r, sender))
  {
  }

  lemma {:induction false} GatedVerdict(cfg: Config, s: MwState, m: Inbound)
    ensures var (r, o) := Gated(cfg, s, m); var sender := m.signed.envelope.sender;
            o == if m.capability.None? then Rejected(MissingCapability, LevelOf(r, sender), RiskOf(r, sender))
                 else if CapabilityFault(cfg, m).Some?
                 then Rejected(Failed(CapabilityFault(cfg, m).value), LevelOf(r, sender), RiskOf(r, sender))
                 else Admit(cfg, s, m).1
    ensures m.capability.Some? && CapabilityFault(cfg, m).None? ==> Gated(cfg, s, m) == Admit(cfg, s, m)
  {
  }

  lemma {:induction false} OfferVerdict(cfg: Config, s: MwState, m: Inbound)
    ensures var fault := Offer(cfg.crypto, s.gate, m.signed.envelope).1;
            fault == if m.signed.envelope.seqNo <= HeadBefore(s, m).lastSeq then Some(SequenceError)
                     else if m.signed.envelope.prevHash != HeadBefore(s, m).lastHash then Some(ChainError)
                     else if Seen(cfg, s, m) then Some(ReplayError)
                     else None
  {
  }

  lemma {:induction false} SameCrowd(cfg: Config, s: MwState, gate: Gate, m: Inbound)
    ensures Crowd(cfg, s.(gate := gate), m) == Crowd(cfg, s, m)
  {
  }

  lemma {:induction false} PunishedVerdict(
    cfg: Config, s: MwState, sender: Bytes, exc: Exc, layer: string, reason: Reason, ts: real)
    ensures var (r, o) := Punished(cfg, s, sender, exc, layer, reason, ts);
            o == Rejected(reason, LevelOf(r, sender), RiskOf(r, sender))
  {
  }

  lemma {:induction false} EnvelopeFaults(cfg: Config, s: MwState, m: Inbound)
    requires Known(s, m)
    ensures EnvelopeFault(cfg, s, m)
            == if !Signed(cfg, s, m) then Some(SignatureVerificationError)
               else if !Unaltered(cfg, m) then Some(HashMismatchError)
               else if !Timely(m) then Some(StaleTimestampError)
               else if m.signed.envelope.receiver != cfg.me then Some(EnvelopeError)
               else None
  {
    EnvelopeChecksExactly(cfg.crypto, m.signed.envelope, m.signed.signature, s.peers[m.signed.envelope.sender],
                          m.payload, cfg.me, m.clock.envelope);
  }

  /** Behind the envelope checks and the gate. */
  lemma {:induction false} BehindGateVerdict(cfg: Config, s: MwState, m: Inbound)
    ensures var (r, o) := Gated(cfg, s, m); var sender := m.signed.envelope.sender;
            o == if m.capability.None? then Rejected(MissingCapability, LevelOf(r, sender), RiskOf(r, sender))
                 else if CapabilityFault(cfg, m).Some?
                 then Rejected(Failed(CapabilityFault(cfg, m).value), LevelOf(r, sender), RiskOf(r, sender))
                 else if Crowd(cfg, s, m) >= cfg.payloadThreshold
                 then Rejected(PromptFanout, LevelOf(r, sender), RiskOf(r, sender))
                 else if LevelOf(r, sender) >= 6 then Rejected(Isolated, LevelOf(r, sender), RiskOf(r, sender))
                 else Accepted(m.payload, LevelOf(r, sender), RiskOf(r, sender))
  {
    GatedVerdict(cfg, s, m);
    AdmitVerdict(cfg, s, m);
  }

  lemma {:induction false} ArrivedVerdict(cfg: Config, s: MwState, m: Inbound)
    requires Known(s, m) && EnvelopeFault(cfg, s, m).None?
    ensures var (gate, fault) := Offer(cfg.crypto, s.gate, m.signed.envelope); var sender := m.signed.envelope.sender;
            var (r, o) := Handle(cfg, s, m);
            o == if fault.Some? then Rejected(Failed(fault.value), LevelOf(r, sender), RiskOf(r, sender))
                 else Gated(cfg, s.(gate := gate), m).1
    ensures var (gate, fault) := Offer(cfg.crypto, s.gate, m.signed.envelope);
            fault.None? ==> Handle(cfg, s, m) == Gated(cfg, s.(gate := gate), m)
  {
    var (gate, fault) := Offer(cfg.crypto, s.gate, m.signed.envelope);
    if fault.Some? {
      PunishedVerdict(cfg, s.(gate := gate), m.signed.envelope.sender, fault.value, "chain", Failed(fault.value),
                      m.clock.log);
    }
  }

  lemma {:induction false} TurnedAwayVerdict(cfg: Config, s: MwState, m: Inbound)
    requires Known(s, m) ==> EnvelopeFault(cfg, s, m).Some?
    ensures var (r, o) := Handle(cfg, s, m); o == Verdict(cfg, s, m, r)
  {
    if Known(s, m) {
      var exc := EnvelopeFault(cfg, s, m).value;
      EnvelopeFaults(cfg, s, m);
      PunishedVerdict(cfg, s, m.signed.envelope.sender, exc, "envelope", Failed(exc), m.clock.log);
    }
  }

  /** Every call reaches exactly the verdict that the message deserves; an accepted message carries its
      own payload, and every returned verdict the level and risk of its sender after the call. */
  lemma {:induction false} VerdictExactly(cfg: Config, s: MwState, m: Inbound)
    ensures var (r, o) := Handle(cfg, s, m); o == Verdict(cfg, s, m, r)
  {
    if Known(s, m) && EnvelopeFault(cfg, s, m).None? {
      var (gate, fault) := Offer(cfg.crypto, s.gate, m.signed.envelope);
      EnvelopeFaults(cfg, s, m);
      OfferVerdict(cfg, s, m);
      ArrivedVerdict(cfg, s, m);
      BehindGateVerdict(cfg, s.(gate := gate), m);
      SameCrowd(cfg, s, gate, m);
    } else {
      TurnedAwayVerdict(cfg, s, m);
    }
  }

  // ---------------------------------------------------------------------
  // The state before a call, told by the run
  // ---------------------------------------------------------------------

  /** A message about which nothing is said before its payload is looked at. */
  predicate Presents(cfg: Config, s: MwState, m: Inbound, fp: Digest) {
    && Known(s, m) && Signed(cfg, s, m) && Unaltered(cfg, m) && cfg.crypto.hash(m.payload) == fp
    && (Objection(cfg, s, m) == None || Objection(cfg, s, m) == Some(PromptFanout))
  }

  /** The senders of the messages of a run that have presented a payload. */
  function PresentedBy(cfg: Config, steps: seq<Step>, fp: Digest): set<Bytes> {
    if steps == [] then {}
    else
      var t := |steps| - 1;
      PresentedBy(cfg, steps[..t], fp)
      + if steps[t].Receive? && Presents(cfg, Run(cfg, steps[..t]), steps[t].m, fp)
        then {steps[t].m.signed.envelope.sender} else {}
  }

  lemma {:induction false} PassesIffNoObjection(cfg: Config, s: MwState, m: Inbound)
    ensures PassesGate(cfg, s, m) && PassesCapability(cfg, m) <==> Presents(cfg, s, m, cfg.crypto.hash(m.payload))
  {
    if Known(s, m) {
      EnvelopeFaults(cfg, s, m);
      OfferVerdict(cfg, s, m);
    }
  }

  lemma {:induction false} PresentersGrow(cfg: Config, s: MwState, m: Inbound, fp: Digest)
    ensures SendersOf(Handle(cfg, s, m).0, fp)
            == SendersOf(s, fp) + if Presents(cfg, s, m, fp) then {m.signed.envelope.sender} else {}
  {
    CallHasEffect(cfg, s, m);
    PassesIffNoObjection(cfg, s, m);
  }

  /** Over every run a payload is remembered with exactly the senders that have presented it. */
  lemma {:induction false} CrowdOfRun(cfg: Config, steps: seq<Step>, fp: Digest)
    ensures SendersOf(Run(cfg, steps), fp) == PresentedBy(cfg, steps, fp)
    decreases |steps|
  {
    if steps != [] {
      var t := |steps| - 1;
      CrowdOfRun(cfg, steps[..t], fp);
      if steps[t].Receive? {
        PresentersGrow(cfg, Run(cfg, steps[..t]), steps[t].m, fp);
      }
    }
  }

  /** Over every run the head of a chain is the last of the envelopes that reached the tracker and link to
      one another, or genesis. */
  lemma {:induction false} HeadOfRun(cfg: Config, steps: seq<Step>, m: Inbound)
    ensures var key := Key(m.signed.envelope.session, m.signed.envelope.sender);
            var linked := LinkedSubsequence(cfg.crypto, Reached(cfg, steps), key);
            HeadBefore(Run(cfg, steps), m) == HeadOf(cfg.crypto, linked)
  {
    var key := Key(m.signed.envelope.session, m.signed.envelope.sender);
    GateOfRun(cfg, steps);
    HistoriesAreLinked(cfg.crypto, Reached(cfg, steps), key);
    HistoryIsLinkedSubsequence(cfg.crypto, Reached(cfg, steps), key);
  }

  /** What reaches the tracker: the envelopes of calls on fresh, unaltered messages of known peers,
      correctly signed and addressed to this receiver. */
  lemma {:induction false} ReachesExactly(cfg: Config, s: MwState, m: Inbound)
    ensures ReachesChain(cfg, s, m)
            <==> Known(s, m) && Signed(cfg, s, m) && Unaltered(cfg, m) && Timely(m)
                 && m.signed.envelope.receiver == cfg.me
  {
    if Known(s, m) {
      EnvelopeFaults(cfg, s, m);
    }
  }
}
