/** When incoming traffic alone can isolate a sender. */
module Isolation {
  import opened Primitives
  import opened Delivery
  import opened RiskScore
  import opened ScopeReduction
  import opened Middlewares
  import opened MiddlewareRuns
  import opened ContainmentRuns

  /** Incoming traffic alone can isolate someone. */
  ghost predicate IsolationPossible(cfg: Config) {
    exists steps, a :: IsolatedAfter(cfg, steps, a)
  }

  ghost predicate IsolatedAfter(cfg: Config, steps: seq<Step>, a: Bytes) {
    LevelOf(Run(cfg, steps), a) >= NETWORK_ISOLATED
  }

  // ---------------------------------------------------------------------
  // Runs that charge one agent the same at every step
  // ---------------------------------------------------------------------

  lemma {:induction false} ChargesStep(cfg: Config, steps: seq<Step>, i: nat, a: Bytes)
    requires i < |steps|
    ensures Charges(cfg, steps[..i + 1], a)
            == Charges(cfg, steps[..i], a) + ChargeOfStep(cfg, Run(cfg, steps[..i]), steps[i], a)
  {
    assert steps[..i + 1][..i] == steps[..i];
  }

  lemma {:induction false} RepeatOnce(earlier: seq<real>, cs: seq<real>, longer: seq<real>, x: real, n: nat)
    requires cs == earlier + Repeat(x, n) && longer == cs + [x]
    ensures longer == earlier + Repeat(x, n + 1)
  {
    assert Repeat(x, n + 1) == Repeat(x, n) + [x];
  }

  /** From step `q` to step `i` agent `a` has been charged `x` at every step. */
  ghost predicate ChargedBetween(cfg: Config, steps: seq<Step>, q: nat, i: nat, a: Bytes, x: real)
    requires q <= i <= |steps|
  {
    Charges(cfg, steps[..i], a) == Charges(cfg, steps[..q], a) + Repeat(x, i - q)
  }

  /** Step `i` charges agent `a` with `x`. */
  ghost predicate ChargedAt(cfg: Config, steps: seq<Step>, i: nat, a: Bytes, x: real) {
    i < |steps| && ChargeOfStep(cfg, Run(cfg, steps[..i]), steps[i], a) == [x]
  }

  lemma {:induction false} ChargedOnceMore(cfg: Config, steps: seq<Step>, q: nat, i: nat, a: Bytes, x: real)
    requires q <= i < |steps| && ChargedBetween(cfg, steps, q, i, a, x) && ChargedAt(cfg, steps, i, a, x)
    ensures ChargedBetween(cfg, steps, q, i + 1, a, x)
  {
    ChargesStep(cfg, steps, i, a);
    RepeatOnce(Charges(cfg, steps[..q], a), Charges(cfg, steps[..i], a), Charges(cfg, steps[..i + 1], a), x, i - q);
  }

  lemma {:induction false} ChargedThroughout(cfg: Config, steps: seq<Step>, q: nat, i: nat, a: Bytes, x: real)
    requires q <= i <= |steps| && forall j: nat :: q <= j < i ==> ChargedAt(cfg, steps, j, a, x)
    ensures ChargedBetween(cfg, steps, q, i, a, x)
    decreases i
  {
    if i == q {
      assert Charges(cfg, steps[..q], a) + Repeat(x, 0) == Charges(cfg, steps[..q], a);
    } else {
      ChargedThroughout(cfg, steps, q, i - 1, a, x);
      ChargedOnceMore(cfg, steps, q, i - 1, a, x);
    }
  }

  // ---------------------------------------------------------------------
  // Isolation of strangers
  // ---------------------------------------------------------------------

  /** The same message of an unknown peer, over and over. */
  function Flood(m: Inbound, n: nat): seq<Step> {
    seq(n, i => Receive(m))
  }

  lemma {:induction false} FloodStep(m: Inbound, n: nat)
    requires n > 0
    ensures Flood(m, n)[..n - 1] == Flood(m, n - 1) && Flood(m, n)[n - 1] == Receive(m)
  {
  }

  /** Without registrations nobody becomes known. */
  lemma {:induction false} NobodyKnown(cfg: Config, steps: seq<Step>, n: nat)
    requires n <= |steps| && forall step :: step in steps ==> step.Receive?
    ensures Run(cfg, steps[..n]).peers == map[]
    decreases n
  {
    if n > 0 {
      NobodyKnown(cfg, steps, n - 1);
      RunStep(cfg, steps, n - 1);
      assert steps[n - 1] in steps;
      PeersStay(cfg, Run(cfg, steps[..n - 1]), steps[n - 1].m);
    }
  }

  /** Every message of an unknown peer charges it alpha in full. */
  lemma {:induction false} FloodCharges(cfg: Config, m: Inbound, n: nat)
    ensures Charges(cfg, Flood(m, n), m.Sender()) == Repeat(cfg.weights.alpha, n)
  {
    var steps, a := Flood(m, n), m.Sender();
    forall j: nat | j < n ensures ChargedAt(cfg, steps, j, a, cfg.weights.alpha) {
      NobodyKnown(cfg, steps, j);
      UnknownPeerCharge(cfg, Run(cfg, steps[..j]), m);
    }
    ChargedThroughout(cfg, steps, 0, n, a, cfg.weights.alpha);
    assert steps[..n] == steps && steps[..0] == [];
    assert [] + Repeat(cfg.weights.alpha, n) == Repeat(cfg.weights.alpha, n);
  }

  lemma {:induction false} UnknownPeerCharge(cfg: Config, s: MwState, m: Inbound)
    requires m.Sender() !in s.peers
    ensures ChargeOfStep(cfg, s, Receive(m), m.Sender()) == [cfg.weights.alpha]
  {
    var o := Handle(cfg, s, m).1;
    assert o.Rejected? && o.reason == UnknownPeer;
    FullCharges(cfg.weights);
  }

  lemma {:induction false} FullCharges(w: RiskWeights)
    ensures Contribution(w, Scores(1.0, 0.0, 0.0, 0.0)) == w.alpha
    ensures Contribution(w, Scores(0.0, 1.0, 0.0, 0.0)) == w.beta
  {
  }

  lemma {:induction false} FloodIsolates(cfg: Config, m: Inbound, n: nat)
    requires cfg.thresholds.Valid() && n > 0
    requires ReachedBy(cfg.weights.decay, cfg.weights.alpha, cfg.thresholds.tau4, n)
    ensures IsolatedAfter(cfg, Flood(m, n), m.Sender())
  {
    var steps, s := Flood(m, n), Run(cfg, Flood(m, n - 1));
    FloodStep(m, n);
    NobodyKnown(cfg, steps, n - 1);
    assert RiskOf(Run(cfg, steps), m.Sender()) >= cfg.thresholds.tau4 by {
      FloodCharges(cfg, m, n);
      RiskOfSender(cfg, steps, m.Sender());
    }
    assert !Handle(cfg, s, m).1.Raised? by {
      CallSettles(cfg, s, m);
    }
    CallLevel(cfg, s, m, m.Sender());
  }

  /** Full charges of the larger weight reach what is not out of reach. */
  lemma {:induction false} MaxChargeReaches(w: RiskWeights, goal: real) returns (n: nat)
    requires w.Valid() && !OutOfReach(w, goal)
    ensures n > 0 && ReachedBy(w.decay, MaxCharge(w), goal, n)
  {
    var M := MaxCharge(w);
    if goal <= 0.0 || w.decay == 0.0 {
      n := 1;
      assert Repeat(M, 1) == [M] && Repeat(M, 1)[..0] == [];
    } else {
      n := GoalReached(w.decay, M, goal);
    }
  }

  // ---------------------------------------------------------------------
  // Isolation by known peers who push one payload
  // ---------------------------------------------------------------------

  /** Step `i` presents the payload behind all checks up to the capability. */
  ghost predicate PushesAt(cfg: Config, steps: seq<Step>, i: nat, payload: Bytes) {
    i < |steps| && steps[i].Receive? && steps[i].m.payload == payload
    && PassesGate(cfg, Run(cfg, steps[..i]), steps[i].m) && PassesCapability(cfg, steps[i].m)
  }

  ghost predicate Pushes(cfg: Config, steps: seq<Step>, p: nat, payload: Bytes) {
    forall i: nat :: p <= i < |steps| ==> PushesAt(cfg, steps, i, payload)
  }

  ghost function SendersBetween(steps: seq<Step>, p: nat, q: nat): set<Bytes>
    requires p <= q <= |steps|
  {
    set i | p <= i < q && steps[i].Receive? :: steps[i].m.Sender()
  }

  /** From step `p` on one payload is pushed: up to step `q` by as many senders as the threshold, and
      then by `a` alone. */
  ghost predicate PushSchedule(cfg: Config, steps: seq<Step>, p: nat, q: nat, payload: Bytes, a: Bytes) {
    && p <= q < |steps| && Pushes(cfg, steps, p, payload)
    && |SendersBetween(steps, p, q)| >= cfg.payloadThreshold
    && forall i: nat :: q <= i < |steps| && steps[i].Receive? ==> steps[i].m.Sender() == a
  }

  /** Known peers can push a payload `n` times after enough of them have presented it. */
  ghost predicate PushesPossible(cfg: Config, n: nat) {
    exists steps, p: nat, q: nat, payload, a ::
      PushSchedule(cfg, steps, p, q, payload, a) && |steps| - q == n
  }

  /** Known peers can push a payload often enough for the charges to reach tau4. */
  ghost predicate PeersCanPushEnough(cfg: Config) {
    exists n: nat ::
      PushesPossible(cfg, n) && ReachedBy(cfg.weights.decay, cfg.weights.beta, cfg.thresholds.tau4, n)
  }

  lemma {:induction false} PushPresents(cfg: Config, s: MwState, m: Inbound)
    requires PassesGate(cfg, s, m) && PassesCapability(cfg, m)
    ensures m.Sender() in SendersOf(Handle(cfg, s, m).0, cfg.crypto.hash(m.payload))
  {
    CallHasEffect(cfg, s, m);
  }

  lemma {:induction false} PushedBetween(cfg: Config, steps: seq<Step>, p: nat, q: nat, payload: Bytes, a: Bytes)
    requires p <= q <= |steps| && Pushes(cfg, steps, p, payload) && a in SendersBetween(steps, p, q)
    ensures a in SendersAfter(cfg, steps, q, cfg.crypto.hash(payload))
  {
    var i :| p <= i < q && steps[i].Receive? && steps[i].m.Sender() == a;
    assert PushesAt(cfg, steps, i, payload);
    RunStep(cfg, steps, i);
    PushPresents(cfg, Run(cfg, steps[..i]), steps[i].m);
    SendersGrow(cfg, steps, i + 1, q, cfg.crypto.hash(payload));
  }

  /** A push of a payload with enough presenters is charged beta in full. */
  lemma {:induction false} PushCharge(cfg: Config, s: MwState, m: Inbound)
    requires PassesGate(cfg, s, m) && PassesCapability(cfg, m) && |Presenters(cfg, s, m)| >= cfg.payloadThreshold
    ensures !Handle(cfg, s, m).1.Raised? && ChargeOfStep(cfg, s, Receive(m), m.Sender()) == [cfg.weights.beta]
  {
    var o := Handle(cfg, s, m).1;
    assert o.Rejected? && o.reason == PromptFanout by {
      PushOutcome(cfg, s, m);
    }
    FullCharges(cfg.weights);
    assert Charge(o) == Scores(0.0, 1.0, 0.0, 0.0);
  }

  lemma {:induction false} PushOutcome(cfg: Config, s: MwState, m: Inbound)
    requires PassesGate(cfg, s, m) && PassesCapability(cfg, m) && |Presenters(cfg, s, m)| >= cfg.payloadThreshold
    ensures Handle(cfg, s, m).1.Rejected? && Handle(cfg, s, m).1.reason == PromptFanout
  {
    var passed := s.(gate := Offer(cfg.crypto, s.gate, m.signed.envelope).0);
    FanoutOutcome(cfg, passed, m);
    assert Handle(cfg, s, m) == Gated(cfg, passed, m);
  }

  lemma {:induction false} FanoutOutcome(cfg: Config, s: MwState, m: Inbound)
    requires PassesCapability(cfg, m) && |Presenters(cfg, s, m)| >= cfg.payloadThreshold
    ensures Gated(cfg, s, m).1.Rejected? && Gated(cfg, s, m).1.reason == PromptFanout
  {
    var senders := Presenters(cfg, s, m);
    var seen := s.(fingerprints := s.fingerprints[cfg.crypto.hash(m.payload) := senders]);
    RefusedUntouched(cfg, seen, m.Sender(), BehaviorLayer, 1.0, CrossSenderPayload(m.Sender(), |senders|),
                     PromptFanout, m.clock.log);
  }

  /** What step `i` of a schedule does once the payload has enough presenters. */
  lemma {:induction false} ScheduleCharge(
    cfg: Config, steps: seq<Step>, p: nat, q: nat, payload: Bytes, a: Bytes, i: nat)
    requires PushSchedule(cfg, steps, p, q, payload, a) && q <= i < |steps|
    ensures var s := Run(cfg, steps[..i]);
            && steps[i].Receive? && steps[i].m.Sender() == a && !Handle(cfg, s, steps[i].m).1.Raised?
            && ChargeOfStep(cfg, s, steps[i], a) == [cfg.weights.beta]
  {
    var s, fp := Run(cfg, steps[..i]), cfg.crypto.hash(payload);
    assert PushesAt(cfg, steps, i, payload);
    forall b | b in SendersBetween(steps, p, q) ensures b in Presenters(cfg, s, steps[i].m) {
      PushedBetween(cfg, steps, p, q, payload, b);
      SendersGrow(cfg, steps, q, i, fp);
    }
    SubsetSize(SendersBetween(steps, p, q), Presenters(cfg, s, steps[i].m));
    PushCharge(cfg, s, steps[i].m);
  }

  lemma {:induction false} RiskAfterMore(decay: real, earlier: seq<real>, later: seq<real>)
    requires 0.0 <= decay && forall i :: 0 <= i < |earlier| ==> 0.0 <= earlier[i]
    ensures RiskAfter(decay, 0.0, earlier + later) >= RiskAfter(decay, 0.0, later)
    decreases |later|
  {
    if later == [] {
      assert earlier + later == earlier;
      RiskNotNegative(decay, earlier);
    } else {
      var t := |later| - 1;
      assert (earlier + later)[..|earlier| + t] == earlier + later[..t];
      RiskAfterMore(decay, earlier, later[..t]);
      MulMonotone(decay, RiskAfter(decay, 0.0, later[..t]), RiskAfter(decay, 0.0, earlier + later[..t]));
    }
  }

  lemma {:induction false} RiskNotNegative(decay: real, cs: seq<real>)
    requires 0.0 <= decay && forall i :: 0 <= i < |cs| ==> 0.0 <= cs[i]
    ensures RiskAfter(decay, 0.0, cs) >= 0.0
    decreases |cs|
  {
    if cs != [] {
      RiskNotNegative(decay, cs[..|cs| - 1]);
      MulMonotone(decay, 0.0, RiskAfter(decay, 0.0, cs[..|cs| - 1]));
    }
  }

  lemma {:induction false} ChargeNotNegative(w: RiskWeights, o: Outcome)
    requires w.Valid() && !o.Raised?
    ensures Contribution(w, Charge(o)) >= 0.0
  {
    var c := Charge(o);
    ScaledAtMost(w.alpha, c.crypto);
    ScaledAtMost(w.beta, c.behavior);
    assert w.gamma * c.policy == 0.0 && w.delta * c.downstream == 0.0;
  }

  lemma {:induction false} ChargesNotNegative(cfg: Config, steps: seq<Step>, a: Bytes)
    requires cfg.weights.Valid()
    ensures forall i :: 0 <= i < |Charges(cfg, steps, a)| ==> 0.0 <= Charges(cfg, steps, a)[i]
    decreases |steps|
  {
    if steps != [] {
      var t := |steps| - 1;
      ChargesNotNegative(cfg, steps[..t], a);
      if steps[t].Receive? && !Handle(cfg, Run(cfg, steps[..t]), steps[t].m).1.Raised? {
        ChargeNotNegative(cfg.weights, Handle(cfg, Run(cfg, steps[..t]), steps[t].m).1);
      }
    }
  }

  lemma {:induction false} ScheduleRisk(
    cfg: Config, steps: seq<Step>, p: nat, q: nat, payload: Bytes, a: Bytes)
    requires cfg.weights.Valid() && PushSchedule(cfg, steps, p, q, payload, a)
    requires ReachedBy(cfg.weights.decay, cfg.weights.beta, cfg.thresholds.tau4, |steps| - q)
    ensures RiskOf(Run(cfg, steps), a) >= cfg.thresholds.tau4
  {
    var earlier, later := Charges(cfg, steps[..q], a), Repeat(cfg.weights.beta, |steps| - q);
    assert steps[..|steps|] == steps;
    assert Charges(cfg, steps, a) == earlier + later by {
      forall j: nat | q <= j < |steps| ensures ChargedAt(cfg, steps, j, a, cfg.weights.beta) {
        ScheduleCharge(cfg, steps, p, q, payload, a, j);
      }
      ChargedThroughout(cfg, steps, q, |steps|, a, cfg.weights.beta);
    }
    ChargesNotNegative(cfg, steps[..q], a);
    RiskAfterMore(cfg.weights.decay, earlier, later);
    RiskOfSender(cfg, steps, a);
  }

  /** Pushing a payload that enough senders have presented isolates whoever keeps pushing it. */
  lemma {:induction false} PushersIsolate(
    cfg: Config, steps: seq<Step>, p: nat, q: nat, payload: Bytes, a: Bytes)
    requires cfg.weights.Valid() && cfg.thresholds.Valid() && PushSchedule(cfg, steps, p, q, payload, a)
    requires ReachedBy(cfg.weights.decay, cfg.weights.beta, cfg.thresholds.tau4, |steps| - q)
    ensures IsolatedAfter(cfg, steps, a)
  {
    var t := |steps| - 1;
    assert steps[..|steps|] == steps;
    ScheduleRisk(cfg, steps, p, q, payload, a);
    ScheduleCharge(cfg, steps, p, q, payload, a, t);
    CallLevel(cfg, Run(cfg, steps[..t]), steps[t].m, a);
  }

  // ---------------------------------------------------------------------
  // Who decides whether isolation can happen
  // ---------------------------------------------------------------------

  /** The weights as far as they charge unknown peers and failed checks. */
  function AlphaOnly(w: RiskWeights): RiskWeights {
    w.(beta := 0.0)
  }

  /** Only pushed payloads can bring a risk to the goal. */
  predicate BetaDecides(w: RiskWeights, goal: real) {
    OutOfReach(AlphaOnly(w), goal) && !OutOfReach(w, goal)
  }

  lemma {:induction false} AlphaIsMaxCharge(w: RiskWeights)
    requires w.Valid()
    ensures AlphaOnly(w).Valid() && MaxCharge(AlphaOnly(w)) == w.alpha
    ensures w.alpha >= w.beta ==> forall goal :: OutOfReach(AlphaOnly(w), goal) <==> OutOfReach(w, goal)
  {
  }

  /** Where alpha reaches tau4, strangers isolate themselves. */
  lemma {:induction false} StrangersIsolate(cfg: Config, m: Inbound)
    requires cfg.weights.Valid() && cfg.thresholds.Valid()
    requires !OutOfReach(AlphaOnly(cfg.weights), cfg.thresholds.tau4)
    ensures IsolationPossible(cfg)
  {
    AlphaIsMaxCharge(cfg.weights);
    var n := MaxChargeReaches(AlphaOnly(cfg.weights), cfg.thresholds.tau4);
    FloodIsolates(cfg, m, n);
  }

  /** Isolation can happen exactly if tau4 is not out of reach.  Where alpha does not reach it but beta
      does, this supposes that known peers can push a payload often enough. */
  lemma {:induction false} IsolationPossibleIff(cfg: Config, m: Inbound)
    requires cfg.weights.Valid() && cfg.thresholds.Valid()
    requires BetaDecides(cfg.weights, cfg.thresholds.tau4) ==> PeersCanPushEnough(cfg)
    ensures IsolationPossible(cfg) <==> !OutOfReach(cfg.weights, cfg.thresholds.tau4)
  {
    if OutOfReach(cfg.weights, cfg.thresholds.tau4) {
      forall steps, a ensures !IsolatedAfter(cfg, steps, a) {
        LevelStaysBelowIsolation(cfg, steps, a);
      }
    } else if OutOfReach(AlphaOnly(cfg.weights), cfg.thresholds.tau4) {
      var n: nat :|
        PushesPossible(cfg, n) && ReachedBy(cfg.weights.decay, cfg.weights.beta, cfg.thresholds.tau4, n);
      var steps, p: nat, q: nat, payload, a :|
        PushSchedule(cfg, steps, p, q, payload, a) && |steps| - q == n;
      PushersIsolate(cfg, steps, p, q, payload, a);
    } else {
      StrangersIsolate(cfg, m);
    }
  }

  // ---------------------------------------------------------------------
  // Receivers on which nobody can push
  // ---------------------------------------------------------------------

  /** The message is behind all checks up to the capability, and its payload has too many presenters. */
  predicate FannedOut(cfg: Config, s: MwState, m: Inbound) {
    PassesGate(cfg, s, m) && PassesCapability(cfg, m) && |Presenters(cfg, s, m)| >= cfg.payloadThreshold
  }

  ghost predicate Pushable(cfg: Config) {
    exists steps, m :: FannedOut(cfg, Run(cfg, steps), m)
  }

  lemma {:induction false} NoFanoutBehindGate(cfg: Config, s: MwState, m: Inbound)
    requires !(PassesCapability(cfg, m) && |Presenters(cfg, s, m)| >= cfg.payloadThreshold)
    ensures var o := Gated(cfg, s, m).1; o.Rejected? ==> o.reason != PromptFanout
  {
  }

  lemma {:induction false} NoFanoutBeforeGate(cfg: Config, s: MwState, m: Inbound)
    requires !PassesGate(cfg, s, m)
    ensures var o := Handle(cfg, s, m).1; o.Rejected? ==> o.reason != PromptFanout
  {
  }

  /** Exactly such messages are charged as behaviour. */
  lemma {:induction false} FanoutExactly(cfg: Config, s: MwState, m: Inbound)
    ensures var o := Handle(cfg, s, m).1;
            o.Rejected? && o.reason == PromptFanout <==> FannedOut(cfg, s, m)
  {
    if FannedOut(cfg, s, m) {
      PushOutcome(cfg, s, m);
    } else if PassesGate(cfg, s, m) {
      var passed := s.(gate := Offer(cfg.crypto, s.gate, m.signed.envelope).0);
      assert Handle(cfg, s, m) == Gated(cfg, passed, m);
      NoFanoutBehindGate(cfg, passed, m);
    } else {
      NoFanoutBeforeGate(cfg, s, m);
    }
  }

  lemma {:induction false} UnpushedCharge(cfg: Config, s: MwState, m: Inbound)
    requires cfg.weights.Valid() && !FannedOut(cfg, s, m) && !Handle(cfg, s, m).1.Raised?
    ensures Contribution(cfg.weights, Charge(Handle(cfg, s, m).1)) <= cfg.weights.alpha
  {
    FanoutExactly(cfg, s, m);
    ChargeOfOthers(cfg.weights, Handle(cfg, s, m).1);
  }

  lemma {:induction false} ChargeOfOthers(w: RiskWeights, o: Outcome)
    requires w.Valid() && !o.Raised? && (o.Rejected? ==> o.reason != PromptFanout)
    ensures Contribution(w, Charge(o)) <= w.alpha
  {
    ScaledAtMost(w.alpha, Charge(o).crypto);
  }

  lemma {:induction false} UnpushedCharges(cfg: Config, steps: seq<Step>, a: Bytes)
    requires cfg.weights.Valid() && !Pushable(cfg)
    ensures forall i :: 0 <= i < |Charges(cfg, steps, a)| ==> Charges(cfg, steps, a)[i] <= cfg.weights.alpha
    decreases |steps|
  {
    if steps != [] {
      var t := |steps| - 1;
      UnpushedCharges(cfg, steps[..t], a);
      if steps[t].Receive? && !Handle(cfg, Run(cfg, steps[..t]), steps[t].m).1.Raised? {
        assert !FannedOut(cfg, Run(cfg, steps[..t]), steps[t].m);
        UnpushedCharge(cfg, Run(cfg, steps[..t]), steps[t].m);
      }
    }
  }

  lemma {:induction false} UnpushedRisk(cfg: Config, steps: seq<Step>, a: Bytes, goal: real)
    requires cfg.weights.Valid() && !Pushable(cfg) && OutOfReach(AlphaOnly(cfg.weights), goal)
    ensures RiskOf(Run(cfg, steps), a) < goal
  {
    RiskOfSender(cfg, steps, a);
    UnpushedCharges(cfg, steps, a);
    AlphaIsMaxCharge(cfg.weights);
    RecurrenceStaysBelow(AlphaOnly(cfg.weights), Charges(cfg, steps, a), goal);
  }

  /** Where nobody can push, alpha decides alone. */
  lemma {:induction false} IsolationWithoutPushesIff(cfg: Config, m: Inbound)
    requires cfg.weights.Valid() && cfg.thresholds.Valid() && !Pushable(cfg)
    ensures IsolationPossible(cfg) <==> !OutOfReach(AlphaOnly(cfg.weights), cfg.thresholds.tau4)
  {
    if OutOfReach(AlphaOnly(cfg.weights), cfg.thresholds.tau4) {
      forall steps, a ensures !IsolatedAfter(cfg, steps, a) {
        forall n: nat | n <= |steps| ensures RiskOf(Run(cfg, steps[..n]), a) < cfg.thresholds.tau4 {
          UnpushedRisk(cfg, steps[..n], a, cfg.thresholds.tau4);
        }
        LevelStaysBelow(cfg, steps, a, |steps|);
        assert steps[..|steps|] == steps;
      }
    } else {
      StrangersIsolate(cfg, m);
    }
  }

  /** For instance on a receiver that trusts no authority. */
  lemma {:induction false} NobodyPushesWithoutTrust(cfg: Config)
    requires cfg.enforcer.trusted == []
    ensures !Pushable(cfg)
  {
    forall steps, m ensures !FannedOut(cfg, Run(cfg, steps), m) {
      assert !PassesCapability(cfg, m);
    }
  }
}
