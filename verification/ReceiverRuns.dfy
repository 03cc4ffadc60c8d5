/** What every run of the full receiver guarantees, across all of its middlewares. */
module ReceiverRuns {
  import opened Primitives
  import opened Envelopes
  import opened Middlewares
  import opened Receivers
  import opened ReceiverDecisions
  import MiddlewareRuns

  function Run(z: Setting, msgs: seq<Message>): RxState {
    if msgs == [] then FRESH_RECEIVER else Receive(z, Run(z, msgs[..|msgs| - 1]), msgs[|msgs| - 1]).0
  }

  /** Whether message `i` is accepted. */
  predicate AcceptedAt(z: Setting, msgs: seq<Message>, i: nat) {
    i < |msgs| && Receive(z, Run(z, msgs[..i]), msgs[i]).1.Accept?
  }

  lemma {:induction false} RunStep(z: Setting, msgs: seq<Message>, i: nat)
    requires i < |msgs|
    ensures Run(z, msgs[..i + 1]) == Receive(z, Run(z, msgs[..i]), msgs[i]).0
  {
    assert msgs[..i + 1][..i] == msgs[..i];
  }

  // ---------------------------------------------------------------------
  // One message
  // ---------------------------------------------------------------------

  /** Everything that is counted only grows. */
  ghost predicate Grows(s: RxState, r: RxState) {
    && s.quarantined <= r.quarantined
    && (forall h :: SetOf(s.payloadSeenFrom, h) <= SetOf(r.payloadSeenFrom, h))
    && (forall a :: SetOf(s.fanout, a) <= SetOf(r.fanout, a))
    && (forall k :: SetOf(s.stances, k) <= SetOf(r.stances, k))
    && (forall t :: CountOf(s.delegations, t) <= CountOf(r.delegations, t))
  }

  /** What holds in the state `r` right after `m` was accepted. */
  ghost predicate Clean(s: RxState, r: RxState, m: Message) {
    && m.sender !in s.quarantined && r.quarantined == s.quarantined
    && m.sender in SetOf(r.payloadSeenFrom, m.payloadHash) && |SetOf(r.payloadSeenFrom, m.payloadHash)| < 2
    && m.receiver in SetOf(r.fanout, m.sender) && (m.authorizedBroadcast || |SetOf(r.fanout, m.sender)| <= 5)
    && (m.isDelegation ==> CountOf(r.delegations, m.task) == CountOf(s.delegations, m.task) + 1 <= 3)
    && (MakesClaim(m) ==> m.sender in SetOf(r.stances, ClaimKey(m)) && |SetOf(r.stances, ClaimKey(m))| <= 2)
    && (m.memoryOp == "trigger" ==> !Tainted(r, m.memoryKey))
    && (NeedsThreshold(m) ==> m.thresholdPresent)
  }

  lemma {:induction false} CountersClean(s: RxState, m: Message)
    requires CounterFindings(s, m) == []
    ensures |SetOf(s.payloadSeenFrom, m.payloadHash)| < 2
    ensures m.authorizedBroadcast || |SetOf(s.fanout, m.sender)| <= 5
    ensures m.isDelegation ==> CountOf(s.delegations, m.task) <= 3
  {
  }

  lemma {:induction false} LateClean(s: RxState, m: Message)
    requires LateFindings(s, m) == []
    ensures MakesClaim(m) ==> |SetOf(s.stances, ClaimKey(m))| <= 2
    ensures m.memoryOp == "trigger" ==> !Tainted(s, m.memoryKey)
    ensures NeedsThreshold(m) ==> m.thresholdPresent
  {
  }

  lemma {:induction false} NotedGrows(s: RxState, m: Message, env: SignedEnvelope, c: Crypto)
    ensures Grows(s, Noted(s, m, env, c))
    ensures Noted(s, m, env, c).quarantined == s.quarantined && Noted(s, m, env, c).stances == s.stances
  {
  }

  lemma {:induction false} ClusteredGrows(s: RxState, m: Message)
    ensures Grows(s, Clustered(s, m))
    ensures var r := Clustered(s, m);
            r == s.(stances := r.stances) && (MakesClaim(m) ==> m.sender in SetOf(r.stances, ClaimKey(m)))
  {
  }

  lemma {:induction false} NotedCounts(s: RxState, m: Message, env: SignedEnvelope, c: Crypto)
    ensures var r := Noted(s, m, env, c);
            && m.sender in SetOf(r.payloadSeenFrom, m.payloadHash) && m.receiver in SetOf(r.fanout, m.sender)
            && (m.isDelegation ==> CountOf(r.delegations, m.task) == CountOf(s.delegations, m.task) + 1)
            && (m.memoryOp == "trigger" ==> r.memory == s.memory)
  {
  }

  /** The state a policy run ends in: noted, perhaps clustered, perhaps with a larger quarantine. */
  ghost predicate PolicyEffect(s: RxState, noted: RxState, m: Message, r: RxState, d: Decision) {
    && (d.Accept? ==> m.sender !in s.quarantined && r == Clustered(noted, m))
    && r.memory == noted.memory
    && Grows(noted, r)
  }

  lemma {:induction false} ConcludedEffect(s: RxState, m: Message, findings: seq<Finding>, total: real)
    ensures var (r, d) := Concluded(s, m, findings, total);
            && r == s.(quarantined := r.quarantined) && (d.Accept? ==> r == s)
            && s.quarantined <= r.quarantined
  {
  }

  lemma {:induction false} QuarantineGrows(noted: RxState, s: RxState, r: RxState)
    requires Grows(noted, s) && r == s.(quarantined := r.quarantined) && s.quarantined <= r.quarantined
    ensures Grows(noted, r)
  {
  }

  lemma {:induction false} ClusteredConcluded(
    s: RxState, noted: RxState, m: Message, findings: seq<Finding>, total: real)
    requires noted.quarantined == s.quarantined && m.sender !in s.quarantined
    ensures var (r, d) := Concluded(Clustered(noted, m), m, findings, total);
            PolicyEffect(s, noted, m, r, d)
  {
    var clustered := Clustered(noted, m);
    ClusteredGrows(noted, m);
    ConcludedEffect(clustered, m, findings, total);
    QuarantineGrows(noted, clustered, Concluded(clustered, m, findings, total).0);
  }

  lemma {:induction false} DecidedEffect(s: RxState, noted: RxState, m: Message, findings: seq<Finding>, total: real)
    requires noted.quarantined == s.quarantined
    ensures var (r, d) := Decided(noted, m, findings, total);
            PolicyEffect(s, noted, m, r, d)
  {
    if m.sender in s.quarantined {
      assert Grows(noted, noted);
    } else {
      ClusteredConcluded(s, noted, m, findings, total);
    }
  }

  lemma {:induction false} JudgedEffect(
    s: RxState, noted: RxState, m: Message, early: seq<Finding>, late: seq<Finding>, risk: real)
    requires noted.quarantined == s.quarantined
    ensures var (r, d) := Judged(noted, m, early, late, risk);
            PolicyEffect(s, noted, m, r, d)
  {
    DecidedEffect(s, noted, m, early + late,
                  risk + (TotalDelta(early) + TotalDelta(late) + RetrievalDelta(Clustered(noted, m), m)));
  }

  lemma {:induction false} PolicyHasEffect(
    z: Setting, s: RxState, m: Message, env: SignedEnvelope, c: Crypto, risk: real)
    ensures var (r, d) := Policy(z, s, m, env, c, risk);
            PolicyEffect(s, Noted(s, m, env, c), m, r, d)
  {
    var noted := Noted(s, m, env, c);
    NotedGrows(s, m, env, c);
    JudgedEffect(s, noted, m, EarlyFindings(z, noted, m), LateFindings(Clustered(noted, m), m), risk);
  }

  lemma {:induction false} NothingAppended(a: seq<Finding>, b: seq<Finding>)
    ensures a + b == [] <==> a == [] && b == []
  {
    assert |a + b| == |a| + |b|;
  }

  lemma {:induction false} JudgedNoFindings(
    noted: RxState, m: Message, early: seq<Finding>, late: seq<Finding>, risk: real)
    requires Judged(noted, m, early, late, risk).1.Accept?
    ensures early == [] && late == []
  {
    NothingAppended(early, late);
  }

  lemma {:induction false} AcceptHasNoFindings(
    z: Setting, s: RxState, m: Message, env: SignedEnvelope, c: Crypto, risk: real)
    requires Policy(z, s, m, env, c, risk).1.Accept?
    ensures var noted := Noted(s, m, env, c);
            CounterFindings(noted, m) == [] && LateFindings(Clustered(noted, m), m) == []
  {
    var noted := Noted(s, m, env, c);
    JudgedNoFindings(noted, m, EarlyFindings(z, noted, m), LateFindings(Clustered(noted, m), m), risk);
    NothingAppended(CounterFindings(noted, m), ContentFindings(z, m));
  }

  lemma {:induction false} PolicyClean(z: Setting, s: RxState, m: Message, env: SignedEnvelope, c: Crypto, risk: real)
    requires Policy(z, s, m, env, c, risk).1.Accept?
    ensures Clean(s, Policy(z, s, m, env, c, risk).0, m)
  {
    var noted := Noted(s, m, env, c);
    var r := Clustered(noted, m);
    assert m.sender !in s.quarantined && Policy(z, s, m, env, c, risk).0 == r by {
      PolicyHasEffect(z, s, m, env, c, risk);
    }
    assert CounterFindings(noted, m) == [] && LateFindings(r, m) == [] by {
      AcceptHasNoFindings(z, s, m, env, c, risk);
    }
    CountersClean(noted, m);
    LateClean(r, m);
    ClusteredGrows(noted, m);
    NotedCounts(s, m, env, c);
    NotedGrows(s, m, env, c);
  }

  lemma {:induction false} PolicyStep(z: Setting, s: RxState, m: Message, env: SignedEnvelope, c: Crypto, risk: real)
    ensures var (r, d) := Policy(z, s, m, env, c, risk);
            Grows(s, r) && (d.Accept? ==> Clean(s, r, m))
  {
    var (r, d) := Policy(z, s, m, env, c, risk);
    assert Grows(s, r) by {
      PolicyHasEffect(z, s, m, env, c, risk);
      NotedGrows(s, m, env, c);
      GrowsTransitive(s, Noted(s, m, env, c), r);
    }
    if d.Accept? {
      PolicyClean(z, s, m, env, c, risk);
    }
  }

  lemma {:induction false} ReceiveStep(z: Setting, s: RxState, m: Message)
    ensures var (r, d) := Receive(z, s, m);
            Grows(s, r) && (d.Accept? ==> Clean(s, r, m))
  {
    if m.envelope.Some? && m.receiver in z.configs {
      var cfg := z.configs[m.receiver];
      var (mw, o) := Handle(cfg, MiddlewareFor(z, s, m.receiver), InboundOf(m, m.envelope.value));
      var verified := s.(middlewares := s.middlewares[m.receiver := mw]);
      if o.Accepted? {
        PolicyStep(z, verified, m, m.envelope.value, cfg.crypto, o.risk);
      }
    }
  }

  lemma {:induction false} ReceiveEffect(z: Setting, s: RxState, m: Message, r: RxState, d: Decision)
    requires (r, d) == Receive(z, s, m)
    ensures m.memoryOp == "trigger" ==> r.memory == s.memory
  {
    if m.envelope.Some? && m.receiver in z.configs {
      var cfg := z.configs[m.receiver];
      var (mw, o) := Handle(cfg, MiddlewareFor(z, s, m.receiver), InboundOf(m, m.envelope.value));
      var verified := s.(middlewares := s.middlewares[m.receiver := mw]);
      if o.Accepted? {
        assert PolicyEffect(verified, Noted(verified, m, m.envelope.value, cfg.crypto), m, r, d) by {
          PolicyHasEffect(z, verified, m, m.envelope.value, cfg.crypto, o.risk);
        }
        NotedCounts(verified, m, m.envelope.value, cfg.crypto);
      }
    }
  }

  lemma {:induction false} GrowsAlong(z: Setting, msgs: seq<Message>, i: nat, j: nat)
    requires i <= j <= |msgs|
    ensures Grows(Run(z, msgs[..i]), Run(z, msgs[..j]))
    decreases j
  {
    if i < j {
      GrowsAlong(z, msgs, i, j - 1);
      RunStep(z, msgs, j - 1);
      ReceiveStep(z, Run(z, msgs[..j - 1]), msgs[j - 1]);
      GrowsTransitive(Run(z, msgs[..i]), Run(z, msgs[..j - 1]), Run(z, msgs[..j]));
    }
  }

  lemma {:induction false} GrowsTransitive(a: RxState, b: RxState, c: RxState)
    requires Grows(a, b) && Grows(b, c)
    ensures Grows(a, c)
  {
  }

  lemma {:induction false} AcceptedClean(z: Setting, msgs: seq<Message>, i: nat)
    requires AcceptedAt(z, msgs, i)
    ensures Clean(Run(z, msgs[..i]), Run(z, msgs[..i + 1]), msgs[i])
  {
    RunStep(z, msgs, i);
    ReceiveStep(z, Run(z, msgs[..i]), msgs[i]);
  }

  // ---------------------------------------------------------------------
  // Whole runs
  // ---------------------------------------------------------------------

  /** The quarantine only grows, and a quarantined sender is never accepted again by any receiver. */
  lemma {:induction false} QuarantineIsFinal(z: Setting, msgs: seq<Message>, i: nat, j: nat, sender: string)
    requires i <= j <= |msgs| && sender in Run(z, msgs[..i]).quarantined
    ensures sender in Run(z, msgs[..j]).quarantined
    ensures j < |msgs| && msgs[j].sender == sender ==> !AcceptedAt(z, msgs, j)
  {
    GrowsAlong(z, msgs, i, j);
    if AcceptedAt(z, msgs, j) {
      AcceptedClean(z, msgs, j);
    }
  }

  lemma {:induction false} TwoMembers<T>(s: set<T>, x: T, y: T)
    requires |s| < 2 && x in s && y in s
    ensures x == y
  {
    if x != y {
      assert {x, y} <= s;
      SubsetSize({x, y}, s);
    }
  }

  /** A payload hash is accepted from at most one sender, across all receivers and the whole run. */
  lemma {:induction false} OnePayloadOneSender(z: Setting, msgs: seq<Message>, i: nat, j: nat)
    requires i <= j && AcceptedAt(z, msgs, i) && AcceptedAt(z, msgs, j)
    requires msgs[i].payloadHash == msgs[j].payloadHash
    ensures msgs[i].sender == msgs[j].sender
  {
    var seen := SetOf(Run(z, msgs[..j + 1]).payloadSeenFrom, msgs[j].payloadHash);
    assert msgs[i].sender in seen by {
      AcceptedClean(z, msgs, i);
      GrowsAlong(z, msgs, i + 1, j + 1);
    }
    assert msgs[j].sender in seen && |seen| < 2 by {
      AcceptedClean(z, msgs, j);
    }
    TwoMembers(seen, msgs[i].sender, msgs[j].sender);
  }

  /** The senders of accepted messages that claim `key`. */
  function Claimants(z: Setting, msgs: seq<Message>, key: string): set<string> {
    if msgs == [] then {}
    else
      var t := |msgs| - 1;
      Claimants(z, msgs[..t], key)
      + if Receive(z, Run(z, msgs[..t]), msgs[t]).1.Accept? && MakesClaim(msgs[t]) && ClaimKey(msgs[t]) == key
        then {msgs[t].sender} else {}
  }

  /** A claim on a target (other than "investigating") is accepted from at most two senders. */
  lemma {:induction false} ClaimsFromTwo(z: Setting, msgs: seq<Message>, key: string)
    ensures Claimants(z, msgs, key) <= SetOf(Run(z, msgs).stances, key)
    ensures |Claimants(z, msgs, key)| <= 2
    decreases |msgs|
  {
    if msgs != [] {
      var t := |msgs| - 1;
      ClaimsFromTwo(z, msgs[..t], key);
      ReceiveStep(z, Run(z, msgs[..t]), msgs[t]);
      if Receive(z, Run(z, msgs[..t]), msgs[t]).1.Accept? && MakesClaim(msgs[t]) && ClaimKey(msgs[t]) == key {
        SubsetSize(Claimants(z, msgs, key), SetOf(Run(z, msgs).stances, key));
      }
    }
  }

  /** The receivers of accepted messages of one sender that were not authorised broadcasts. */
  function Audience(z: Setting, msgs: seq<Message>, sender: string): set<string> {
    if msgs == [] then {}
    else
      var t := |msgs| - 1;
      Audience(z, msgs[..t], sender)
      + if Receive(z, Run(z, msgs[..t]), msgs[t]).1.Accept? && msgs[t].sender == sender && !msgs[t].authorizedBroadcast
        then {msgs[t].receiver} else {}
  }

  /** Without authorisation to broadcast a sender reaches at most five receivers. */
  lemma {:induction false} AudienceBounded(z: Setting, msgs: seq<Message>, sender: string)
    ensures Audience(z, msgs, sender) <= SetOf(Run(z, msgs).fanout, sender)
    ensures |Audience(z, msgs, sender)| <= 5
    decreases |msgs|
  {
    if msgs != [] {
      var t := |msgs| - 1;
      AudienceBounded(z, msgs[..t], sender);
      ReceiveStep(z, Run(z, msgs[..t]), msgs[t]);
      if Receive(z, Run(z, msgs[..t]), msgs[t]).1.Accept? && msgs[t].sender == sender && !msgs[t].authorizedBroadcast {
        SubsetSize(Audience(z, msgs, sender), SetOf(Run(z, msgs).fanout, sender));
      }
    }
  }

  /** How many delegations of `task` are accepted. */
  function Delegated(z: Setting, msgs: seq<Message>, task: string): nat {
    if msgs == [] then 0
    else
      var t := |msgs| - 1;
      Delegated(z, msgs[..t], task)
      + if Receive(z, Run(z, msgs[..t]), msgs[t]).1.Accept? && msgs[t].isDelegation && msgs[t].task == task
        then 1 else 0
  }

  /** A task is delegated at most three times. */
  lemma {:induction false} DelegationsBounded(z: Setting, msgs: seq<Message>, task: string)
    ensures Delegated(z, msgs, task) <= CountOf(Run(z, msgs).delegations, task)
    ensures Delegated(z, msgs, task) <= 3
    decreases |msgs|
  {
    if msgs != [] {
      var t := |msgs| - 1;
      DelegationsBounded(z, msgs[..t], task);
      ReceiveStep(z, Run(z, msgs[..t]), msgs[t]);
    }
  }

  /** A stored object written by a sender that is quarantined, or labelled credential or
      confidential, never triggers an accepted action. */
  lemma {:induction false} TaintedMemoryNeverTriggers(z: Setting, s: RxState, m: Message)
    requires m.memoryOp == "trigger" && Tainted(s, m.memoryKey)
    ensures !Receive(z, s, m).1.Accept?
  {
    ReceiveStep(z, s, m);
    TriggerKeepsMemory(z, s, m);
  }

  lemma {:induction false} TriggerKeepsMemory(z: Setting, s: RxState, m: Message)
    requires m.memoryOp == "trigger"
    ensures Receive(z, s, m).0.memory == s.memory
  {
    var (r, d) := Receive(z, s, m);
    ReceiveEffect(z, s, m, r, d);
  }

  /** The message reaches the capability gate of its pipeline, and fails there. */
  predicate FailsAtGate(z: Setting, s: RxState, m: Message) {
    Asked(z, m) &&
    var cfg, inbound := z.configs[m.receiver], InboundOf(m, m.envelope.value);
    MiddlewareRuns.PassesGate(cfg, MiddlewareFor(z, s, m.receiver), inbound)
    && !MiddlewareRuns.PassesCapability(cfg, inbound)
  }

  /** The capability is there and a trusted authority has signed it. */
  predicate TrustedCapability(z: Setting, m: Message) {
    Asked(z, m) && m.capability.Some?
    && MiddlewareRuns.SignedByTrusted(z.configs[m.receiver].enforcer, m.capability.value)
  }

  lemma {:induction false} ReportNames(z: Setting, s: RxState, m: Message)
    requires Asked(z, m)
    ensures var o := Answer(z, s, m).value; var report := ReportOf(Receive(z, s, m).1, Some(o));
            && (report.None? <==> o.Raised?)
            && (report.Some? ==> (report.value.capabilityValid <==> !MiddlewareRuns.NamesCapability(o))
                                 && (report.value.cryptoValid <==> !MiddlewareRuns.NamesSignature(o)))
  {
    var cfg := z.configs[m.receiver];
    var (mw, o) := Handle(cfg, MiddlewareFor(z, s, m.receiver), InboundOf(m, m.envelope.value));
    RoutedFits(z, s.(middlewares := s.middlewares[m.receiver := mw]), m, m.envelope.value, cfg.crypto, o);
    FittingReport(Receive(z, s, m).1, o);
  }

  /** The decision that goes with the outcome of the pipeline. */
  predicate FitsOutcome(d: Decision, o: Outcome) {
    match o
    case Raised(_) => d == RaisedError(o)
    case Rejected(reason, _, risk) => d == Reject(Verification(reason), risk)
    case Accepted(_, _, _) => d.Accept? || (d.Reject? && (d.block.Quarantined? || d.block.Findings?))
  }

  lemma {:induction false} FittingReport(d: Decision, o: Outcome)
    requires FitsOutcome(d, o)
    ensures var report := ReportOf(d, Some(o));
            && (report.None? <==> o.Raised?)
            && (report.Some? ==> (report.value.capabilityValid <==> !MiddlewareRuns.NamesCapability(o))
                                 && (report.value.cryptoValid <==> !MiddlewareRuns.NamesSignature(o)))
  {
  }

  lemma {:induction false} RoutedFits(
    z: Setting, s: RxState, m: Message, env: SignedEnvelope, c: Crypto, o: Outcome)
    ensures FitsOutcome(Routed(z, s, m, env, c, o).1, o)
  {
    if o.Accepted? {
      PolicyDecides(z, s, m, env, c, o.risk);
      assert Routed(z, s, m, env, c, o) == Policy(z, s, m, env, c, o.risk);
    }
  }

  /** The policy accepts, or rejects for a quarantine or for findings. */
  lemma {:induction false} PolicyDecides(
    z: Setting, s: RxState, m: Message, env: SignedEnvelope, c: Crypto, risk: real)
    ensures var d := Policy(z, s, m, env, c, risk).1;
            d.Accept? || (d.Reject? && (d.block.Quarantined? || d.block.Findings?))
  {
    var noted := Noted(s, m, env, c);
    JudgedDecides(noted, m, EarlyFindings(z, noted, m), LateFindings(Clustered(noted, m), m), risk);
  }

  lemma {:induction false} JudgedDecides(
    noted: RxState, m: Message, early: seq<Finding>, late: seq<Finding>, risk: real)
    ensures var d := Judged(noted, m, early, late, risk).1;
            d.Accept? || (d.Reject? && (d.block.Quarantined? || d.block.Findings?))
  {
  }

  /** What the report flags say, for every message that gets a report.  `capabilityValid` is denied to
      messages without a pipeline and to those that fail at the capability gate with a capability that a
      trusted authority has signed; `cryptoValid` to messages without a pipeline, to badly signed
      envelopes, and to those that reach the gate with a capability that no trusted authority has signed. */
  lemma {:induction false} FlagsExactly(z: Setting, s: RxState, m: Message)
    requires ReportOf(Receive(z, s, m).1, Answer(z, s, m)).Some?
    ensures var report := ReportOf(Receive(z, s, m).1, Answer(z, s, m)).value;
            && (report.capabilityValid <==> Asked(z, m) && !(FailsAtGate(z, s, m) && TrustedCapability(z, m)))
            && (report.cryptoValid <==>
                  && Asked(z, m)
                  && !(FailsAtGate(z, s, m) && m.capability.Some? && !TrustedCapability(z, m))
                  && !MiddlewareRuns.BadlySigned(z.configs[m.receiver], MiddlewareFor(z, s, m.receiver),
                                                 InboundOf(m, m.envelope.value)))
  {
    if Asked(z, m) {
      var cfg, inbound := z.configs[m.receiver], InboundOf(m, m.envelope.value);
      ReportNames(z, s, m);
      MiddlewareRuns.ReasonsExactly(cfg, MiddlewareFor(z, s, m.receiver), inbound);
      if m.capability.Some? {
        MiddlewareRuns.CheckReasons(
          cfg.enforcer, m.capability.value, inbound.Request(cfg.me), inbound.clock.capability);
      }
    }
  }

  /** A message that fails at the capability gate is reported as capability-valid exactly when it had no
      capability, or one that no trusted authority has signed: the report looks at exception names only. */
  lemma {:induction false} CapabilityReport(z: Setting, s: RxState, m: Message)
    requires FailsAtGate(z, s, m)
    ensures var report := ReportOf(Receive(z, s, m).1, Answer(z, s, m));
            report.Some? && (report.value.capabilityValid <==> m.capability.None? || !TrustedCapability(z, m))
  {
    var cfg, mw, inbound := z.configs[m.receiver], MiddlewareFor(z, s, m.receiver), InboundOf(m, m.envelope.value);
    ReportNames(z, s, m);
    MiddlewareRuns.CallHasEffect(cfg, mw, inbound);
    FlagsExactly(z, s, m);
  }

  /** In particular a forged capability is reported as capability-valid. */
  lemma {:induction false} ForgedCapabilityReportedValid(z: Setting, s: RxState, m: Message)
    requires FailsAtGate(z, s, m) && m.capability.Some? && !TrustedCapability(z, m)
    ensures var report := ReportOf(Receive(z, s, m).1, Answer(z, s, m));
            report.Some? && report.value.capabilityValid && !report.value.cryptoValid && !report.value.accepted
  {
    CapabilityReport(z, s, m);
    FlagsExactly(z, s, m);
  }
}
