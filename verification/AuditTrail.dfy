/** What `handle_inbound` writes into its log: every returned call leaves the one record that tells its
    verdict. */
module AuditTrails {
  import opened Primitives
  import opened Exceptions
  import opened Delivery
  import opened HashChain
  import opened RiskScore
  import opened Middlewares
  import opened MiddlewareRuns
  import opened ContainmentRuns
  import opened Verdicts

  /** How severe the log calls a failed check. */
  function LoggedSeverity(exc: Exc): real {
    if exc == SignatureVerificationError || exc == HashMismatchError then 1.0
    else if exc == ReplayError || exc == CapabilityAudienceError then 0.9
    else if exc == ChainError || exc == CapabilityExpiredError || exc == CapabilityScopeError then 0.8
    else if exc == SequenceError || exc == CapabilityError then 0.7
    else 0.5
  }

  /** At which gate a check failed.  A signature fails at the capability gate if that of the envelope was
      good. */
  function LoggedLayer(cfg: Config, s: MwState, m: Inbound, exc: Exc): string {
    if exc == SequenceError || exc == ChainError || exc == ReplayError then "chain"
    else if exc == EnvelopeError || exc == StaleTimestampError || exc == HashMismatchError then "envelope"
    else if exc == SignatureVerificationError && !(Known(s, m) && Signed(cfg, s, m)) then "envelope"
    else "capability"
  }

  /** The event that tells the verdict `o` on message `m`. */
  function EventFor(cfg: Config, s: MwState, m: Inbound, o: Outcome): AuditEvent
    requires !o.Raised?
  {
    var sender := m.signed.envelope.sender;
    match o
    case Accepted(_, level, _) => AcceptedMessage(sender, m.signed.envelope.task, m.scope, level)
    case Rejected(reason, level, _) =>
      match reason
      case UnknownPeer => UnknownPeerViolation(sender, 1.0)
      case Failed(exc) => Violation(sender, LoggedLayer(cfg, s, m, exc), exc, LoggedSeverity(exc))
      case MissingCapability => Violation(sender, "capability", CapabilityError, 0.7)
      case PromptFanout => CrossSenderPayload(sender, Crowd(cfg, s, m))
      case Isolated => DroppedIsolated(sender, level)
  }

  /** The log grows by one record at the end: the next number, the time, the event, the encoded envelope
      and its signature if the message was accepted and nothing otherwise, hashed onto the old head. */
  ghost predicate Logs(cfg: Config, s: MwState, r: MwState, event: AuditEvent, m: Inbound, accepted: bool) {
    var envelope := if accepted then cfg.crypto.encode(m.signed.envelope) else [];
    var signature := if accepted then m.signed.signature else [];
    && r.head == cfg.crypto.hash(s.head + (cfg.eventBytes(event) + envelope + signature))
    && r.records == s.records + [AuditRecord(|s.records|, m.clock.log, event, envelope, signature, r.head)]
  }

  lemma {:induction false} RefusedLogs(cfg: Config, s: MwState, m: Inbound, sender: Bytes, layer: Layer,
                                       severity: real, event: AuditEvent, reason: Reason)
    ensures Logs(cfg, s, Refused(cfg, s, sender, layer, severity, event, reason, m.clock.log).0, event, m, false)
  {
  }

  lemma {:induction false} PunishedLogs(
    cfg: Config, s: MwState, m: Inbound, sender: Bytes, exc: Exc, layer: string, reason: Reason)
    ensures Logs(cfg, s, Punished(cfg, s, sender, exc, layer, reason, m.clock.log).0,
                 Violation(sender, layer, exc, LoggedSeverity(exc)), m, false)
  {
    Severities(exc);
    RefusedLogs(cfg, s, m, sender, CryptoLayer, exc.Severity(), Violation(sender, layer, exc, exc.Severity()), reason);
  }

  lemma {:induction false} ContainLogs(cfg: Config, s: MwState, m: Inbound)
    ensures var (r, o) := Contain(cfg, s, m); var sender := m.signed.envelope.sender;
            && !o.Raised?
            && Logs(cfg, s, r, if o.Accepted? then AcceptedMessage(sender, m.signed.envelope.task, m.scope, o.level)
                               else DroppedIsolated(sender, o.level), m, o.Accepted?)
  {
  }

  lemma {:induction false} AdmitLogs(cfg: Config, s: MwState, m: Inbound)
    ensures var (r, o) := Admit(cfg, s, m);
            !o.Raised? && Logs(cfg, s, r, EventFor(cfg, s, m, o), m, o.Accepted?)
  {
    var senders := Presenters(cfg, s, m);
    var seen := s.(fingerprints := s.fingerprints[cfg.crypto.hash(m.payload) := senders]);
    AdmitVerdict(cfg, s, m);
    if |senders| >= cfg.payloadThreshold {
      RefusedLogs(cfg, seen, m, m.Sender(), BehaviorLayer, 1.0, CrossSenderPayload(m.Sender(), |senders|),
                  PromptFanout);
    } else {
      ContainLogs(cfg, seen, m);
    }
  }

  lemma {:induction false} GatedLogs(cfg: Config, s: MwState, m: Inbound)
    requires Known(s, m) && Signed(cfg, s, m)
    ensures var (r, o) := Gated(cfg, s, m);
            !o.Raised? && Logs(cfg, s, r, EventFor(cfg, s, m, o), m, o.Accepted?)
  {
    GatedVerdict(cfg, s, m);
    if m.capability.None? {
      PunishedLogs(cfg, s, m, m.Sender(), CapabilityError, "capability", MissingCapability);
    } else if CapabilityFault(cfg, m).Some? {
      var exc := CapabilityFault(cfg, m).value;
      CheckNeverReplays(cfg.enforcer, m.capability.value, m.Request(cfg.me), m.clock.capability);
      PunishedLogs(cfg, s, m, m.Sender(), exc, "capability", Failed(exc));
    } else {
      AdmitLogs(cfg, s, m);
    }
  }

  lemma {:induction false} TurnedAwayLogs(cfg: Config, s: MwState, m: Inbound)
    requires Known(s, m) ==> EnvelopeFault(cfg, s, m).Some?
    ensures var (r, o) := Handle(cfg, s, m);
            !o.Raised? ==> Logs(cfg, s, r, EventFor(cfg, s, m, o), m, o.Accepted?)
  {
    TurnedAwayVerdict(cfg, s, m);
    if Known(s, m) {
      var exc := EnvelopeFault(cfg, s, m).value;
      EnvelopeFaults(cfg, s, m);
      PunishedLogs(cfg, s, m, m.Sender(), exc, "envelope", Failed(exc));
    } else {
      RefusedLogs(cfg, s, m, m.Sender(), CryptoLayer, 1.0, UnknownPeerViolation(m.Sender(), 1.0), UnknownPeer);
    }
  }

  lemma {:induction false} SameEvent(cfg: Config, s: MwState, gate: Gate, m: Inbound, o: Outcome)
    requires !o.Raised?
    ensures EventFor(cfg, s.(gate := gate), m, o) == EventFor(cfg, s, m, o)
  {
  }

  lemma {:induction false} ArrivedLogs(cfg: Config, s: MwState, m: Inbound)
    requires Known(s, m) && EnvelopeFault(cfg, s, m).None?
    ensures var (r, o) := Handle(cfg, s, m);
            !o.Raised? && Logs(cfg, s, r, EventFor(cfg, s, m, o), m, o.Accepted?)
  {
    var (gate, fault) := Offer(cfg.crypto, s.gate, m.signed.envelope);
    var passed := s.(gate := gate);
    EnvelopeFaults(cfg, s, m);
    ArrivedVerdict(cfg, s, m);
    if fault.Some? {
      OfferVerdict(cfg, s, m);
      PunishedLogs(cfg, passed, m, m.Sender(), fault.value, "chain", Failed(fault.value));
    } else {
      GatedLogs(cfg, passed, m);
      SameEvent(cfg, s, gate, m, Gated(cfg, passed, m).1);
    }
  }

  /** What every returned call writes: exactly one record, which tells its verdict. */
  lemma {:induction false} CallIsLogged(cfg: Config, s: MwState, m: Inbound)
    ensures var (r, o) := Handle(cfg, s, m);
            if o.Raised? then r.records == s.records && r.head == s.head
            else Logs(cfg, s, r, EventFor(cfg, s, m, o), m, o.Accepted?)
  {
    if Known(s, m) && EnvelopeFault(cfg, s, m).None? {
      ArrivedLogs(cfg, s, m);
    } else {
      TurnedAwayLogs(cfg, s, m);
      CallSettles(cfg, s, m);
    }
  }

  // ---------------------------------------------------------------------
  // Whole runs
  // ---------------------------------------------------------------------

  /** Step `i` is a call that returns. */
  predicate ReturnsAt(cfg: Config, steps: seq<Step>, i: nat) {
    i < |steps| && steps[i].Receive? && !Handle(cfg, Run(cfg, steps[..i]), steps[i].m).1.Raised?
  }

  /** The calls that return, in order. */
  function ReturnedCalls(cfg: Config, steps: seq<Step>): seq<nat> {
    if steps == [] then []
    else
      var t := |steps| - 1;
      ReturnedCalls(cfg, steps[..t]) + if ReturnsAt(cfg, steps, t) then [t] else []
  }

  /** Record `rec`, the `k`-th of its log, tells step `i`. */
  ghost predicate Tells(cfg: Config, steps: seq<Step>, i: nat, k: nat, rec: Record) {
    ReturnsAt(cfg, steps, i) &&
    var s, m := Run(cfg, steps[..i]), steps[i].m;
    var o := Handle(cfg, s, m).1;
    && rec.seqNo == k && rec.timestamp == m.clock.log && rec.event == EventFor(cfg, s, m, o)
    && rec.envelope == (if o.Accepted? then cfg.crypto.encode(m.signed.envelope) else [])
    && rec.signature == (if o.Accepted? then m.signed.signature else [])
  }

  /** The records tell the steps `calls`, one after the other. */
  ghost predicate TrailTells(cfg: Config, steps: seq<Step>, calls: seq<nat>, records: seq<Record>) {
    |records| == |calls| && forall k: nat :: k < |calls| ==> Tells(cfg, steps, calls[k], k, records[k])
  }

  lemma {:induction false} TellsPrefix(cfg: Config, steps: seq<Step>, t: nat, i: nat, k: nat, rec: Record)
    requires t <= |steps| && Tells(cfg, steps[..t], i, k, rec)
    ensures Tells(cfg, steps, i, k, rec)
  {
    assert steps[..t][..i] == steps[..i];
  }

  lemma {:induction false} TrailPrefix(
    cfg: Config, steps: seq<Step>, t: nat, calls: seq<nat>, records: seq<Record>)
    requires t <= |steps| && TrailTells(cfg, steps[..t], calls, records)
    ensures TrailTells(cfg, steps, calls, records)
  {
    forall k: nat | k < |calls| ensures Tells(cfg, steps, calls[k], k, records[k]) {
      TellsPrefix(cfg, steps, t, calls[k], k, records[k]);
    }
  }

  lemma {:induction false} TrailLonger(
    cfg: Config, steps: seq<Step>, calls: seq<nat>, records: seq<Record>, i: nat, rec: Record)
    requires TrailTells(cfg, steps, calls, records) && Tells(cfg, steps, i, |calls|, rec)
    ensures TrailTells(cfg, steps, calls + [i], records + [rec])
  {
  }

  /** Over every run the log tells the returned calls, one after the other: record k is that of the k-th
      returned call, with its verdict, time, and, if it was accepted, its envelope and signature. */
  lemma {:induction false} LogTellsRun(cfg: Config, steps: seq<Step>)
    ensures TrailTells(cfg, steps, ReturnedCalls(cfg, steps), Run(cfg, steps).records)
    decreases |steps|
  {
    if steps != [] {
      var t := |steps| - 1;
      var s, calls := Run(cfg, steps[..t]), ReturnedCalls(cfg, steps[..t]);
      LogTellsRun(cfg, steps[..t]);
      TrailPrefix(cfg, steps, t, calls, s.records);
      if steps[t].Receive? {
        CallIsLogged(cfg, s, steps[t].m);
        if ReturnsAt(cfg, steps, t) {
          TrailLonger(cfg, steps, calls, s.records, t, Run(cfg, steps).records[|s.records|]);
        }
      }
    }
  }

  /** The returned calls are listed in order, each once, and none is left out. */
  lemma {:induction false} ReturnedCallsExactly(cfg: Config, steps: seq<Step>)
    ensures forall i: nat :: i in ReturnedCalls(cfg, steps) <==> ReturnsAt(cfg, steps, i)
    ensures forall j, k :: 0 <= j < k < |ReturnedCalls(cfg, steps)| ==>
                             ReturnedCalls(cfg, steps)[j] < ReturnedCalls(cfg, steps)[k]
    decreases |steps|
  {
    if steps != [] {
      var t := |steps| - 1;
      var before := ReturnedCalls(cfg, steps[..t]);
      ReturnedCallsExactly(cfg, steps[..t]);
      forall i: nat ensures i in ReturnedCalls(cfg, steps) <==> ReturnsAt(cfg, steps, i) {
        assert i in ReturnedCalls(cfg, steps) <==> i in before || (i == t && ReturnsAt(cfg, steps, t));
        ReturnsPrefix(cfg, steps, t, i);
      }
      forall j | 0 <= j < |before| ensures before[j] < t {
        assert before[j] in before;
      }
    }
  }

  lemma {:induction false} ReturnsPrefix(cfg: Config, steps: seq<Step>, t: nat, i: nat)
    requires t <= |steps|
    ensures ReturnsAt(cfg, steps[..t], i) <==> i < t && ReturnsAt(cfg, steps, i)
  {
    if i < t {
      assert steps[..t][..i] == steps[..i];
    }
  }

  // ---------------------------------------------------------------------
  // Charges
  // ---------------------------------------------------------------------

  /** What a verdict adds to the risk of its sender. */
  function ChargeFor(w: RiskWeights, o: Outcome): real
    requires !o.Raised?
  {
    match o
    case Accepted(_, _, _) => 0.0
    case Rejected(reason, _, _) =>
      match reason
      case UnknownPeer => w.alpha
      case Failed(exc) => w.alpha * LoggedSeverity(exc)
      case MissingCapability => w.alpha * 0.7
      case PromptFanout => w.beta
      case Isolated => 0.0
  }

  lemma {:induction false} ChargeIsContribution(w: RiskWeights, o: Outcome)
    requires !o.Raised?
    ensures Contribution(w, Charge(o)) == ChargeFor(w, o)
  {
    if o.Rejected? && o.reason.Failed? {
      Severities(o.reason.exc);
    }
  }

  lemma {:induction false} PlusNothing(c: Scores)
    ensures Plus(NO_SCORES, c) == c
  {
  }

  /** One decay, and the charge of the verdict. */
  function RiskNext(w: RiskWeights, risk: real, o: Outcome): real
    requires !o.Raised?
  {
    w.decay * risk + ChargeFor(w, o)
  }

  lemma {:induction false} TickedByCharge(cfg: Config, risks: Risks, risks': Risks, sender: Bytes, o: Outcome)
    requires !o.Raised? && RiskTicks(cfg, risks, risks', sender, o) && Of(risks, sender).pending == NO_SCORES
    ensures Of(risks', sender).risk == RiskNext(cfg.weights, Of(risks, sender).risk, o)
  {
    PlusNothing(Charge(o));
    ChargeIsContribution(cfg.weights, o);
  }

  lemma {:induction false} CallTicks(cfg: Config, s: MwState, m: Inbound)
    ensures var (r, o) := Handle(cfg, s, m); var sender := m.signed.envelope.sender;
            && (o.Raised? ==> r == s)
            && (!o.Raised? ==> RiskTicks(cfg, s.risks, r.risks, sender, o))
  {
    CallSettles(cfg, s, m);
  }

  /** Over every run a returned call lets the risk of its sender decay once and adds the charge of its
      verdict; nobody else's risk changes, and nobody's if the call raises. */
  lemma {:induction false} CallIsCharged(cfg: Config, steps: seq<Step>, m: Inbound, r: MwState, o: Outcome)
    requires (r, o) == Handle(cfg, Run(cfg, steps), m)
    ensures var s, sender := Run(cfg, steps), m.signed.envelope.sender;
            && (o.Raised? ==> r == s)
            && (!o.Raised? ==> RiskOf(r, sender) == RiskNext(cfg.weights, RiskOf(s, sender), o))
            && (forall a :: a != sender ==> RiskOf(r, a) == RiskOf(s, a))
  {
    var s, sender := Run(cfg, steps), m.signed.envelope.sender;
    CallTicks(cfg, s, m);
    if !o.Raised? {
      assert Of(s.risks, sender).pending == NO_SCORES by {
        RiskOfSender(cfg, steps, sender);
      }
      TickedByCharge(cfg, s.risks, r.risks, sender, o);
    }
  }
}
