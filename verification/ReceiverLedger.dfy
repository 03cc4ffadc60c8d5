/** What the receiver remembers: every counter, the memory and the quarantine, after one message and over
    every run. */
module ReceiverLedgers {
  import opened Primitives
  import opened Envelopes
  import opened Middlewares
  import opened Receivers
  import opened ReceiverDecisions
  import opened ReceiverRuns

  /** What a write leaves under its key: who wrote it and when, under which capability, the label and the
      claimed hash of the object, and the digest of the envelope. */
  function Written(z: Setting, m: Message): Provenance
    requires Asked(z, m)
  {
    var crypto := z.configs[m.receiver].crypto;
    Provenance(m.sender, m.clock.log, if m.capability.Some? then m.capability.value.capability.capId else [],
               m.dataLabel, m.payloadHash, crypto.hash(crypto.encode(m.envelope.value.envelope)))
  }

  predicate WritesTo(m: Message, key: string) {
    m.memoryOp == "write" && m.memoryKey != "" && m.memoryKey == key
  }

  /** The message claims `key`; the claims of quarantined senders do not count. */
  predicate Claims(s: RxState, m: Message, key: string) {
    && m.sender !in s.quarantined && m.target != "" && m.stance != "" && m.stance != "investigating"
    && key == m.target + "::" + m.stance
  }

  /** Something found names the sender as the attacker, and it was not tricked by a poisoned object. */
  predicate Blamed(z: Setting, s: RxState, m: Message) {
    && !Made(z, s, m, MemoryRisk)
    && exists f: Finding :: f != MemoryRisk && f != ThresholdRequired && Made(z, s, m, f)
  }

  /** The memory after a verified message. */
  ghost predicate Remembers(z: Setting, s: RxState, m: Message, r: RxState)
    requires Asked(z, m)
  {
    r.memory == if m.memoryOp == "write" && m.memoryKey != "" then s.memory[m.memoryKey := Written(z, m)] else s.memory
  }

  /** The counters after a verified message. */
  ghost predicate Counts(s: RxState, m: Message, r: RxState) {
    && (forall h :: SetOf(r.payloadSeenFrom, h)
                    == SetOf(s.payloadSeenFrom, h) + if h == m.payloadHash then {m.sender} else {})
    && (forall a :: SetOf(r.fanout, a) == SetOf(s.fanout, a) + if a == m.sender then {m.receiver} else {})
    && (forall t :: CountOf(r.delegations, t)
                    == CountOf(s.delegations, t) + if m.isDelegation && t == m.task then 1 else 0)
    && (forall k :: SetOf(r.stances, k) == SetOf(s.stances, k) + if Claims(s, m, k) then {m.sender} else {})
  }

  ghost predicate SameLedger(s: RxState, r: RxState) {
    && r.memory == s.memory && r.payloadSeenFrom == s.payloadSeenFrom && r.fanout == s.fanout
    && r.delegations == s.delegations && r.stances == s.stances && r.quarantined == s.quarantined
  }

  // ---------------------------------------------------------------------
  // One message
  // ---------------------------------------------------------------------

  lemma {:induction false} NotedCountsExactly(s: RxState, m: Message, env: SignedEnvelope, c: Crypto)
    ensures var r := Noted(s, m, env, c);
            && (forall h :: SetOf(r.payloadSeenFrom, h)
                            == SetOf(s.payloadSeenFrom, h) + if h == m.payloadHash then {m.sender} else {})
            && (forall a :: SetOf(r.fanout, a) == SetOf(s.fanout, a) + if a == m.sender then {m.receiver} else {})
            && (forall t :: CountOf(r.delegations, t)
                            == CountOf(s.delegations, t) + if m.isDelegation && t == m.task then 1 else 0)
            && r.stances == s.stances && r.quarantined == s.quarantined
  {
  }

  lemma {:induction false} StancesExactly(s: RxState, noted: RxState, m: Message, r: RxState)
    requires noted.stances == s.stances && r.stances == if m.sender in s.quarantined then noted.stances
                                                       else Clustered(noted, m).stances
    ensures forall k :: SetOf(r.stances, k) == SetOf(s.stances, k) + if Claims(s, m, k) then {m.sender} else {}
  {
  }

  /** The state after the policy, but for the quarantine. */
  lemma {:induction false} JudgedState(
    noted: RxState, m: Message, early: seq<Finding>, late: seq<Finding>, risk: real)
    ensures var r := Judged(noted, m, early, late, risk).0;
            r == (if m.sender in noted.quarantined then noted else Clustered(noted, m)).(quarantined := r.quarantined)
    ensures var r := Judged(noted, m, early, late, risk).0;
            r.quarantined == noted.quarantined + if BlamesSender(early + late) then {m.sender} else {}
  {
    assert noted.quarantined + {} == noted.quarantined;
  }

  lemma {:induction false} FindingsBlame(z: Setting, s: RxState, m: Message, fs: seq<Finding>)
    requires fs == AllMade(z, s, m)
    ensures BlamesSender(fs) <==> Blamed(z, s, m)
  {
    forall f: Finding ensures f in fs <==> Made(z, s, m, f) {
      FoundIffMade(z, s, m, f);
    }
  }

  lemma {:induction false} PolicyState(
    z: Setting, s: RxState, m: Message, env: SignedEnvelope, c: Crypto, risk: real)
    ensures var r := Policy(z, s, m, env, c, risk).0; var noted := Noted(s, m, env, c);
            && r == (if m.sender in s.quarantined then noted else Clustered(noted, m)).(quarantined := r.quarantined)
            && r.quarantined == s.quarantined + if Blamed(z, s, m) then {m.sender} else {}
  {
    var noted := Noted(s, m, env, c);
    FindingsOfPolicy(z, s, m, env, c);
    FindingsBlame(z, s, m, AllMade(z, s, m));
    JudgedState(noted, m, EarlyFindings(z, noted, m), LateFindings(Clustered(noted, m), m), risk);
  }

  lemma {:induction false} PolicyRemembers(
    z: Setting, s: RxState, m: Message, env: SignedEnvelope, c: Crypto, risk: real)
    requires m.envelope == Some(env) && m.receiver in z.configs && c == z.configs[m.receiver].crypto
    ensures Remembers(z, s, m, Policy(z, s, m, env, c, risk).0)
  {
    PolicyState(z, s, m, env, c, risk);
  }

  lemma {:induction false} PolicyCounts(
    z: Setting, s: RxState, m: Message, env: SignedEnvelope, c: Crypto, risk: real)
    ensures Counts(s, m, Policy(z, s, m, env, c, risk).0)
  {
    var r, noted := Policy(z, s, m, env, c, risk).0, Noted(s, m, env, c);
    PolicyState(z, s, m, env, c, risk);
    NotedCountsExactly(s, m, env, c);
    StancesExactly(s, noted, m, r);
  }

  lemma {:induction false} SameBlame(z: Setting, s: RxState, middlewares: map<string, MwState>, m: Message)
    ensures Blamed(z, s.(middlewares := middlewares), m) <==> Blamed(z, s, m)
  {
    forall f: Finding ensures Made(z, s.(middlewares := middlewares), m, f) <==> Made(z, s, m, f) {
    }
  }

  lemma {:induction false} SameBefore(
    z: Setting, s: RxState, middlewares: map<string, MwState>, m: Message, r: RxState)
    requires Asked(z, m)
    ensures Remembers(z, s.(middlewares := middlewares), m, r) <==> Remembers(z, s, m, r)
    ensures Counts(s.(middlewares := middlewares), m, r) <==> Counts(s, m, r)
  {
  }

  lemma {:induction false} VerifiedLedger(z: Setting, s: RxState, m: Message)
    requires Verified(z, s, m)
    ensures var r := Receive(z, s, m).0;
            && Remembers(z, s, m, r) && Counts(s, m, r)
            && r.quarantined == s.quarantined + if Blamed(z, s, m) then {m.sender} else {}
  {
    var (mw, o) := PipelineAnswer(z, s, m);
    var passed := s.(middlewares := s.middlewares[m.receiver := mw]);
    ReceivesThroughPipeline(z, s, m);
    PolicyRemembers(z, passed, m, m.envelope.value, z.configs[m.receiver].crypto, o.risk);
    PolicyCounts(z, passed, m, m.envelope.value, z.configs[m.receiver].crypto, o.risk);
    PolicyState(z, passed, m, m.envelope.value, z.configs[m.receiver].crypto, o.risk);
    SameBlame(z, s, passed.middlewares, m);
    SameBefore(z, s, passed.middlewares, m, Receive(z, s, m).0);
  }

  lemma {:induction false} UnverifiedLedger(z: Setting, s: RxState, m: Message)
    requires !Verified(z, s, m)
    ensures SameLedger(s, Receive(z, s, m).0)
  {
    if Asked(z, m) {
      ReceivesThroughPipeline(z, s, m);
    }
  }

  /** A message quarantines its sender exactly when it is verified, something found on it names the sender
      as the attacker, and no poisoned object triggered it; and it never quarantines anyone else. */
  lemma {:induction false} QuarantineExactly(z: Setting, s: RxState, m: Message)
    ensures Receive(z, s, m).0.quarantined
            == s.quarantined + if Verified(z, s, m) && Blamed(z, s, m) then {m.sender} else {}
  {
    if Verified(z, s, m) {
      VerifiedLedger(z, s, m);
    } else {
      UnverifiedLedger(z, s, m);
    }
  }

  // ---------------------------------------------------------------------
  // Whole runs
  // ---------------------------------------------------------------------

  /** Message `i` is verified. */
  predicate VerifiedAt(z: Setting, msgs: seq<Message>, i: nat) {
    i < |msgs| && Verified(z, Run(z, msgs[..i]), msgs[i])
  }

  /** The senders of verified messages with a payload hash. */
  function SendersOfPayload(z: Setting, msgs: seq<Message>, h: string): set<string> {
    if msgs == [] then {}
    else
      var t := |msgs| - 1;
      SendersOfPayload(z, msgs[..t], h)
      + if VerifiedAt(z, msgs, t) && msgs[t].payloadHash == h then {msgs[t].sender} else {}
  }

  /** The receivers of the verified messages of a sender. */
  function ReceiversOf(z: Setting, msgs: seq<Message>, sender: string): set<string> {
    if msgs == [] then {}
    else
      var t := |msgs| - 1;
      ReceiversOf(z, msgs[..t], sender)
      + if VerifiedAt(z, msgs, t) && msgs[t].sender == sender then {msgs[t].receiver} else {}
  }

  /** How many verified messages delegate a task. */
  function DelegationsOf(z: Setting, msgs: seq<Message>, task: string): nat {
    if msgs == [] then 0
    else
      var t := |msgs| - 1;
      DelegationsOf(z, msgs[..t], task)
      + if VerifiedAt(z, msgs, t) && msgs[t].isDelegation && msgs[t].task == task then 1 else 0
  }

  /** The senders of verified messages that claim `key`. */
  function ClaimantsOf(z: Setting, msgs: seq<Message>, key: string): set<string> {
    if msgs == [] then {}
    else
      var t := |msgs| - 1;
      ClaimantsOf(z, msgs[..t], key)
      + if VerifiedAt(z, msgs, t) && Claims(Run(z, msgs[..t]), msgs[t], key) then {msgs[t].sender} else {}
  }

  /** Message `i` is a verified write to `key`. */
  predicate WriteAt(z: Setting, msgs: seq<Message>, i: nat, key: string) {
    VerifiedAt(z, msgs, i) && WritesTo(msgs[i], key)
  }

  /** The last verified write to `key`, if there is one. */
  function LastWrite(z: Setting, msgs: seq<Message>, key: string): Option<nat> {
    if msgs == [] then None
    else if WriteAt(z, msgs, |msgs| - 1, key) then Some(|msgs| - 1)
    else LastWrite(z, msgs[..|msgs| - 1], key)
  }

  lemma {:induction false} StepLedger(z: Setting, msgs: seq<Message>)
    requires msgs != []
    ensures var t := |msgs| - 1; var s, r := Run(z, msgs[..t]), Run(z, msgs);
            if VerifiedAt(z, msgs, t) then Remembers(z, s, msgs[t], r) && Counts(s, msgs[t], r) else SameLedger(s, r)
  {
    var t := |msgs| - 1;
    if VerifiedAt(z, msgs, t) {
      VerifiedLedger(z, Run(z, msgs[..t]), msgs[t]);
    } else {
      UnverifiedLedger(z, Run(z, msgs[..t]), msgs[t]);
    }
  }

  lemma {:induction false} PayloadCounter(z: Setting, msgs: seq<Message>, h: string)
    ensures SetOf(Run(z, msgs).payloadSeenFrom, h) == SendersOfPayload(z, msgs, h)
    decreases |msgs|
  {
    if msgs != [] {
      PayloadCounter(z, msgs[..|msgs| - 1], h);
      StepLedger(z, msgs);
    }
  }

  lemma {:induction false} FanoutCounter(z: Setting, msgs: seq<Message>, sender: string)
    ensures SetOf(Run(z, msgs).fanout, sender) == ReceiversOf(z, msgs, sender)
    decreases |msgs|
  {
    if msgs != [] {
      FanoutCounter(z, msgs[..|msgs| - 1], sender);
      StepLedger(z, msgs);
    }
  }

  lemma {:induction false} DelegationCounter(z: Setting, msgs: seq<Message>, task: string)
    ensures CountOf(Run(z, msgs).delegations, task) == DelegationsOf(z, msgs, task)
    decreases |msgs|
  {
    if msgs != [] {
      DelegationCounter(z, msgs[..|msgs| - 1], task);
      StepLedger(z, msgs);
    }
  }

  lemma {:induction false} ClaimCounter(z: Setting, msgs: seq<Message>, key: string)
    ensures SetOf(Run(z, msgs).stances, key) == ClaimantsOf(z, msgs, key)
    decreases |msgs|
  {
    if msgs != [] {
      ClaimCounter(z, msgs[..|msgs| - 1], key);
      StepLedger(z, msgs);
    }
  }

  /** Over every run the counters count exactly the verified messages, accepted or not. */
  lemma {:induction false} CountersOfRun(z: Setting, msgs: seq<Message>)
    ensures forall h :: SetOf(Run(z, msgs).payloadSeenFrom, h) == SendersOfPayload(z, msgs, h)
    ensures forall sender :: SetOf(Run(z, msgs).fanout, sender) == ReceiversOf(z, msgs, sender)
    ensures forall task :: CountOf(Run(z, msgs).delegations, task) == DelegationsOf(z, msgs, task)
    ensures forall key :: SetOf(Run(z, msgs).stances, key) == ClaimantsOf(z, msgs, key)
  {
    forall h ensures SetOf(Run(z, msgs).payloadSeenFrom, h) == SendersOfPayload(z, msgs, h) {
      PayloadCounter(z, msgs, h);
    }
    forall sender ensures SetOf(Run(z, msgs).fanout, sender) == ReceiversOf(z, msgs, sender) {
      FanoutCounter(z, msgs, sender);
    }
    forall task ensures CountOf(Run(z, msgs).delegations, task) == DelegationsOf(z, msgs, task) {
      DelegationCounter(z, msgs, task);
    }
    forall key ensures SetOf(Run(z, msgs).stances, key) == ClaimantsOf(z, msgs, key) {
      ClaimCounter(z, msgs, key);
    }
  }

  // ---------------------------------------------------------------------
  // Memory
  // ---------------------------------------------------------------------

  lemma {:induction false} LastWriteStep(z: Setting, msgs: seq<Message>, n: nat, key: string)
    requires n < |msgs|
    ensures LastWrite(z, msgs[..n + 1], key)
            == if WriteAt(z, msgs, n, key) then Some(n) else LastWrite(z, msgs[..n], key)
  {
    assert msgs[..n + 1][..n] == msgs[..n];
  }

  /** No verified write to `key` between messages `i` and `n`. */
  ghost predicate NoneBetween(z: Setting, msgs: seq<Message>, i: nat, n: nat, key: string) {
    forall k: nat :: i < k < n ==> !WriteAt(z, msgs, k, key)
  }

  /** The last write before message `n` is the verified one that no other follows. */
  lemma {:induction false} LastWriteIsLast(z: Setting, msgs: seq<Message>, i: nat, n: nat, key: string)
    requires i < n <= |msgs| && WriteAt(z, msgs, i, key) && NoneBetween(z, msgs, i, n, key)
    ensures LastWrite(z, msgs[..n], key) == Some(i)
    decreases n
  {
    LastWriteStep(z, msgs, n - 1, key);
    if i < n - 1 {
      LastWriteIsLast(z, msgs, i, n - 1, key);
    }
  }

  /** The memory holds under `key` what write `w` left there, and nothing if there was none. */
  ghost predicate Holds(z: Setting, msgs: seq<Message>, memory: map<string, Provenance>, key: string, w: Option<nat>) {
    && (key in memory <==> w.Some?)
    && (w.Some? ==> w.value < |msgs| && Asked(z, msgs[w.value]) && memory[key] == Written(z, msgs[w.value]))
  }

  lemma {:induction false} HoldsStep(
    z: Setting, msgs: seq<Message>, n: nat, s: RxState, r: RxState, key: string, w: Option<nat>)
    requires n < |msgs| && Holds(z, msgs, s.memory, key, w)
    requires if VerifiedAt(z, msgs, n) then Remembers(z, s, msgs[n], r) else r.memory == s.memory
    ensures Holds(z, msgs, r.memory, key, if WriteAt(z, msgs, n, key) then Some(n) else w)
  {
  }

  lemma {:induction false} StepMemory(z: Setting, msgs: seq<Message>, n: nat)
    requires n < |msgs|
    ensures var s, r := Run(z, msgs[..n]), Run(z, msgs[..n + 1]);
            if VerifiedAt(z, msgs, n) then Remembers(z, s, msgs[n], r) else r.memory == s.memory
  {
    RunStep(z, msgs, n);
    if VerifiedAt(z, msgs, n) {
      VerifiedLedger(z, Run(z, msgs[..n]), msgs[n]);
    } else {
      UnverifiedLedger(z, Run(z, msgs[..n]), msgs[n]);
    }
  }

  /** Over every run the memory holds under every key exactly what the last verified write left there. */
  lemma {:induction false} MemoryOfRun(z: Setting, msgs: seq<Message>, n: nat, key: string)
    requires n <= |msgs|
    ensures Holds(z, msgs, Run(z, msgs[..n]).memory, key, LastWrite(z, msgs[..n], key))
    decreases n
  {
    if n > 0 {
      var k, s, r, w := n - 1, Run(z, msgs[..n - 1]), Run(z, msgs[..n]), LastWrite(z, msgs[..n - 1], key);
      assert Holds(z, msgs, s.memory, key, w) by {
        MemoryOfRun(z, msgs, k, key);
      }
      assert if VerifiedAt(z, msgs, k) then Remembers(z, s, msgs[k], r) else r.memory == s.memory by {
        StepMemory(z, msgs, k);
      }
      LastWriteStep(z, msgs, k, key);
      HoldsStep(z, msgs, k, s, r, key, w);
    }
  }

  /** Whether the object that message `i` wrote is poisoned by message `j`: told from the run alone. */
  predicate PoisonedBy(z: Setting, msgs: seq<Message>, i: nat, j: nat)
    requires i < |msgs| && j <= |msgs|
  {
    Confidential(msgs[i].dataLabel) || msgs[i].sender in Run(z, msgs[..j]).quarantined
  }

  lemma {:induction false} PoisonedIffWritten(z: Setting, msgs: seq<Message>, i: nat, j: nat, key: string)
    requires i < j <= |msgs| && WriteAt(z, msgs, i, key) && NoneBetween(z, msgs, i, j, key)
    ensures Poisoned(Run(z, msgs[..j]), key) <==> PoisonedBy(z, msgs, i, j)
  {
    LastWriteIsLast(z, msgs, i, j, key);
    MemoryOfRun(z, msgs, j, key);
  }

  /** Memory steers actions exactly as its provenance allows, over every run: if message i is the last
      verified write to a key before message j, which the object under this key triggers, then this is held
      against message j if and only if message i was labelled confidential or its sender is in quarantine
      by then. */
  lemma {:induction false} TriggerExactly(z: Setting, msgs: seq<Message>, i: nat, j: nat, key: string)
    requires i < j < |msgs| && WriteAt(z, msgs, i, key) && NoneBetween(z, msgs, i, j, key)
    requires msgs[j].memoryOp == "trigger" && msgs[j].memoryKey == key
    ensures Made(z, Run(z, msgs[..j]), msgs[j], MemoryRisk) <==> PoisonedBy(z, msgs, i, j)
  {
    PoisonedIffWritten(z, msgs, i, j, key);
    TriggeredIffPoisoned(z, Run(z, msgs[..j]), msgs[j]);
  }

  lemma {:induction false} TriggeredIffPoisoned(z: Setting, s: RxState, m: Message)
    requires m.memoryOp == "trigger"
    ensures Made(z, s, m, MemoryRisk) <==> Poisoned(s, m.memoryKey)
  {
  }

  /** And then message j is not accepted, and its sender, tricked by the object, not blamed. */
  lemma {:induction false} PoisonedMemoryNeverTriggers(z: Setting, msgs: seq<Message>, i: nat, j: nat, key: string)
    requires i < j < |msgs| && WriteAt(z, msgs, i, key) && NoneBetween(z, msgs, i, j, key)
    requires msgs[j].memoryOp == "trigger" && msgs[j].memoryKey == key && PoisonedBy(z, msgs, i, j)
    ensures !AcceptedAt(z, msgs, j)
    ensures Run(z, msgs[..j + 1]).quarantined == Run(z, msgs[..j]).quarantined
  {
    TriggerExactly(z, msgs, i, j, key);
    TrickedNotBlamed(z, Run(z, msgs[..j]), msgs[j]);
    RunStep(z, msgs, j);
  }

  lemma {:induction false} TrickedNotBlamed(z: Setting, s: RxState, m: Message)
    requires Made(z, s, m, MemoryRisk)
    ensures !Receive(z, s, m).1.Accept? && Receive(z, s, m).0.quarantined == s.quarantined
  {
    AcceptsExactly(z, s, m);
    QuarantineExactly(z, s, m);
  }
}
