/** Payload fan-out, risk, containment and impact over every run of one receiver's pipeline. */
module ContainmentRuns {
  import opened Primitives
  import opened RiskScore
  import opened ScopeReduction
  import opened Impact
  import opened Middlewares
  import opened MiddlewareRuns

  // ---------------------------------------------------------------------
  // Payload fan-out
  // ---------------------------------------------------------------------

  predicate AcceptsPayload(cfg: Config, s: MwState, step: Step, fp: Digest) {
    step.Receive? && cfg.crypto.hash(step.m.payload) == fp && Handle(cfg, s, step.m).1.Accepted?
  }

  /** The senders from whom a payload with fingerprint `fp` has been accepted. */
  function AcceptedFrom(cfg: Config, steps: seq<Step>, fp: Digest): set<Bytes> {
    if steps == [] then {}
    else
      var t := |steps| - 1;
      AcceptedFrom(cfg, steps[..t], fp)
      + if AcceptsPayload(cfg, Run(cfg, steps[..t]), steps[t], fp) then {steps[t].m.Sender()} else {}
  }

  lemma {:induction false} FanoutStep(cfg: Config, s: MwState, step: Step, fp: Digest)
    ensures SendersOf(s, fp) <= SendersOf(Next(cfg, s, step), fp)
    ensures AcceptsPayload(cfg, s, step, fp) ==>
              step.m.Sender() in SendersOf(Next(cfg, s, step), fp)
              && |SendersOf(Next(cfg, s, step), fp)| < cfg.payloadThreshold
  {
    if step.Receive? {
      CallHasEffect(cfg, s, step.m);
    }
  }

  /** One payload is accepted from fewer distinct senders than the threshold, over every run. */
  lemma {:induction false} FanoutBounded(cfg: Config, steps: seq<Step>, fp: Digest)
    ensures AcceptedFrom(cfg, steps, fp) <= SendersOf(Run(cfg, steps), fp)
    ensures AcceptedFrom(cfg, steps, fp) == {} || |AcceptedFrom(cfg, steps, fp)| < cfg.payloadThreshold
    decreases |steps|
  {
    if steps != [] {
      var t := |steps| - 1;
      FanoutBounded(cfg, steps[..t], fp);
      FanoutStep(cfg, Run(cfg, steps[..t]), steps[t], fp);
      if AcceptsPayload(cfg, Run(cfg, steps[..t]), steps[t], fp) {
        SubsetSize(AcceptedFrom(cfg, steps, fp), SendersOf(Run(cfg, steps), fp));
      }
    }
  }

  /** Every sender of an accepted message counts. */
  lemma {:induction false} AcceptedCounts(cfg: Config, steps: seq<Step>, k: nat, fp: Digest)
    requires AcceptedAt(cfg, steps, k) && cfg.crypto.hash(steps[k].m.payload) == fp
    ensures steps[k].m.Sender() in AcceptedFrom(cfg, steps, fp)
  {
    AcceptedFromStep(cfg, steps, k, fp);
    StaysCounted(cfg, steps, k + 1, |steps|, fp);
    assert steps[..|steps|] == steps;
  }

  lemma {:induction false} StaysCounted(cfg: Config, steps: seq<Step>, i: nat, n: nat, fp: Digest)
    requires i <= n <= |steps|
    ensures AcceptedFrom(cfg, steps[..i], fp) <= AcceptedFrom(cfg, steps[..n], fp)
    decreases n
  {
    if i < n {
      StaysCounted(cfg, steps, i, n - 1, fp);
      NobodyDropped(cfg, steps, n - 1, fp);
    }
  }

  lemma {:induction false} NobodyDropped(cfg: Config, steps: seq<Step>, n: nat, fp: Digest)
    requires n < |steps|
    ensures AcceptedFrom(cfg, steps[..n], fp) <= AcceptedFrom(cfg, steps[..n + 1], fp)
  {
    AcceptedFromStep(cfg, steps, n, fp);
  }

  lemma {:induction false} AcceptedFromStep(cfg: Config, steps: seq<Step>, n: nat, fp: Digest)
    requires n < |steps|
    ensures AcceptedFrom(cfg, steps[..n + 1], fp)
            == AcceptedFrom(cfg, steps[..n], fp)
               + if AcceptsPayload(cfg, Run(cfg, steps[..n]), steps[n], fp) then {steps[n].m.Sender()} else {}
  {
    assert steps[..n + 1][..n] == steps[..n];
  }

  /** The senders that have presented a payload before step `i`. */
  function SendersAfter(cfg: Config, steps: seq<Step>, i: nat, fp: Digest): set<Bytes>
    requires i <= |steps|
  {
    SendersOf(Run(cfg, steps[..i]), fp)
  }

  lemma {:induction false} SendersNext(cfg: Config, steps: seq<Step>, i: nat, fp: Digest)
    requires i < |steps|
    ensures SendersAfter(cfg, steps, i, fp) <= SendersAfter(cfg, steps, i + 1, fp)
    ensures AcceptsPayload(cfg, Run(cfg, steps[..i]), steps[i], fp) ==>
              |SendersAfter(cfg, steps, i + 1, fp)| < cfg.payloadThreshold
  {
    RunStep(cfg, steps, i);
    FanoutStep(cfg, Run(cfg, steps[..i]), steps[i], fp);
  }

  lemma {:induction false} SendersGrow(cfg: Config, steps: seq<Step>, i: nat, j: nat, fp: Digest)
    requires i <= j <= |steps|
    ensures SendersAfter(cfg, steps, i, fp) <= SendersAfter(cfg, steps, j, fp)
    decreases j
  {
    if i < j {
      SendersGrow(cfg, steps, i, j - 1, fp);
      SendersNext(cfg, steps, j - 1, fp);
    }
  }

  /** Once as many senders as the threshold have presented a payload, it is refused for ever, from
      anyone. */
  lemma {:induction false} FanoutFinal(cfg: Config, steps: seq<Step>, i: nat, j: nat, fp: Digest)
    requires i <= j < |steps| && |SendersOf(Run(cfg, steps[..i]), fp)| >= cfg.payloadThreshold
    ensures !AcceptsPayload(cfg, Run(cfg, steps[..j]), steps[j], fp)
  {
    SendersGrow(cfg, steps, i, j + 1, fp);
    SubsetSize(SendersAfter(cfg, steps, i, fp), SendersAfter(cfg, steps, j + 1, fp));
    SendersNext(cfg, steps, j, fp);
  }

  // ---------------------------------------------------------------------
  // Risk
  // ---------------------------------------------------------------------

  /** What a step contributes to the risk of `a`: nothing, or one tick. */
  function ChargeOfStep(cfg: Config, s: MwState, step: Step, a: Bytes): seq<real> {
    match step
    case Register(_, _) => []
    case Receive(m) =>
      var o := Handle(cfg, s, m).1;
      if m.Sender() != a || o.Raised? then [] else [Contribution(cfg.weights, Charge(o))]
  }

  /** The contributions of all returned calls of one sender, oldest first. */
  function Charges(cfg: Config, steps: seq<Step>, a: Bytes): seq<real> {
    if steps == [] then []
    else
      var t := |steps| - 1;
      Charges(cfg, steps[..t], a) + ChargeOfStep(cfg, Run(cfg, steps[..t]), steps[t], a)
  }

  /** One settled call, seen by agent `a` whose risk follows the recurrence so far. */
  lemma {:induction false} SettledRisk(
    cfg: Config, risks: Risks, risks': Risks, sender: Bytes, o: Outcome, a: Bytes, cs: seq<real>)
    requires !o.Raised? && RiskTicks(cfg, risks, risks', sender, o)
    requires Of(risks, a) == RiskState(RiskAfter(cfg.weights.decay, 0.0, cs), NO_SCORES)
    ensures var now := if sender != a then [] else [Contribution(cfg.weights, Charge(o))];
            Of(risks', a) == RiskState(RiskAfter(cfg.weights.decay, 0.0, cs + now), NO_SCORES)
  {
    if sender == a {
      assert Plus(NO_SCORES, Charge(o)) == Charge(o);
      RiskAfterAppend(cfg.weights.decay, 0.0, cs, Contribution(cfg.weights, Charge(o)));
    } else {
      assert cs + [] == cs;
    }
  }

  lemma {:induction false} RiskStep(cfg: Config, s: MwState, step: Step, a: Bytes, cs: seq<real>)
    requires Of(s.risks, a) == RiskState(RiskAfter(cfg.weights.decay, 0.0, cs), NO_SCORES)
    ensures Of(Next(cfg, s, step).risks, a)
            == RiskState(RiskAfter(cfg.weights.decay, 0.0, cs + ChargeOfStep(cfg, s, step, a)), NO_SCORES)
  {
    assert cs + [] == cs;
    if step.Receive? {
      var (r, o) := Handle(cfg, s, step.m);
      assert if o.Raised? then r == s else Settles(cfg, s, r, step.m.Sender(), o) by {
        CallSettles(cfg, s, step.m);
      }
      if !o.Raised? {
        SettledRisk(cfg, s.risks, r.risks, step.m.Sender(), o, a, cs);
      }
    }
  }

  /** Over every run a sender's risk is the decay recurrence over the charges of its own calls. */
  lemma {:induction false} RiskOfSender(cfg: Config, steps: seq<Step>, a: Bytes)
    ensures Of(Run(cfg, steps).risks, a)
            == RiskState(RiskAfter(cfg.weights.decay, 0.0, Charges(cfg, steps, a)), NO_SCORES)
    decreases |steps|
  {
    if steps != [] {
      var t := |steps| - 1;
      RiskOfSender(cfg, steps[..t], a);
      RiskStep(cfg, Run(cfg, steps[..t]), steps[t], a, Charges(cfg, steps[..t], a));
    }
  }

  /** The most that one call can charge. */
  function MaxCharge(w: RiskWeights): real {
    if w.alpha >= w.beta then w.alpha else w.beta
  }

  lemma {:induction false} ScaledAtMost(x: real, severity: real)
    requires 0.0 <= x && 0.0 <= severity <= 1.0
    ensures 0.0 <= x * severity <= x
  {
  }

  lemma {:induction false} ChargeAtMost(w: RiskWeights, o: Outcome)
    requires w.Valid() && !o.Raised?
    ensures Contribution(w, Charge(o)) <= MaxCharge(w)
  {
    var c := Charge(o);
    ScaledAtMost(w.alpha, c.crypto);
    ScaledAtMost(w.beta, c.behavior);
    assert c.crypto == 0.0 || c.behavior == 0.0;
    assert w.gamma * c.policy == 0.0 && w.delta * c.downstream == 0.0;
  }

  lemma {:induction false} ChargesAtMost(cfg: Config, steps: seq<Step>, a: Bytes)
    requires cfg.weights.Valid()
    ensures forall i :: 0 <= i < |Charges(cfg, steps, a)| ==> Charges(cfg, steps, a)[i] <= MaxCharge(cfg.weights)
    decreases |steps|
  {
    if steps != [] {
      var t := |steps| - 1;
      ChargesAtMost(cfg, steps[..t], a);
      if steps[t].Receive? && !Handle(cfg, Run(cfg, steps[..t]), steps[t].m).1.Raised? {
        ChargeAtMost(cfg.weights, Handle(cfg, Run(cfg, steps[..t]), steps[t].m).1);
      }
    }
  }

  /** A positive goal at which the largest charge does not outweigh the decay; where the past
      counts for nothing, the charge must stay below the goal by itself. */
  predicate OutOfReach(w: RiskWeights, goal: real) {
    0.0 < goal && if w.decay == 0.0 then MaxCharge(w) < goal else MaxCharge(w) <= (1.0 - w.decay) * goal
  }

  lemma {:induction false} RecurrenceStaysBelow(w: RiskWeights, charges: seq<real>, goal: real)
    requires w.Valid() && OutOfReach(w, goal)
    requires forall i :: 0 <= i < |charges| ==> charges[i] <= MaxCharge(w)
    ensures RiskAfter(w.decay, 0.0, charges) < goal
  {
    var M := MaxCharge(w);
    if w.decay == 0.0 {
      assert M <= (1.0 - w.decay) * M;
      RiskStaysBelow(w.decay, 0.0, charges, M, M);
    } else {
      RiskStaysBelow(w.decay, 0.0, charges, M, goal);
    }
  }

  /** No run reaches a goal that is out of reach. */
  lemma {:induction false} RiskStaysBelowGoal(cfg: Config, steps: seq<Step>, a: Bytes, goal: real)
    requires cfg.weights.Valid() && OutOfReach(cfg.weights, goal)
    ensures RiskOf(Run(cfg, steps), a) < goal
  {
    RiskOfSender(cfg, steps, a);
    ChargesAtMost(cfg, steps, a);
    RecurrenceStaysBelow(cfg.weights, Charges(cfg, steps, a), goal);
  }

  // ---------------------------------------------------------------------
  // Containment
  // ---------------------------------------------------------------------

  function ScopeEventsOf(cfg: Config, s: MwState, step: Step): seq<ScopeEvent> {
    match step
    case Register(_, _) => []
    case Receive(m) =>
      var o := Handle(cfg, s, m).1;
      if o.Raised? then [] else [EvaluateEvent(m.Sender(), o.risk)]
  }

  /** Every returned call evaluates its sender at the risk it reports. */
  function Evaluations(cfg: Config, steps: seq<Step>): seq<ScopeEvent> {
    if steps == [] then []
    else
      var t := |steps| - 1;
      Evaluations(cfg, steps[..t]) + ScopeEventsOf(cfg, Run(cfg, steps[..t]), steps[t])
  }

  lemma {:induction false} LevelsStep(cfg: Config, s: MwState, step: Step, events: seq<ScopeEvent>)
    requires s.levels == RunLevels(cfg.thresholds, events)
    ensures Next(cfg, s, step).levels == RunLevels(cfg.thresholds, events + ScopeEventsOf(cfg, s, step))
  {
    var now := ScopeEventsOf(cfg, s, step);
    if step.Receive? {
      CallSettles(cfg, s, step.m);
    }
    if now == [] {
      assert events + now == events;
    } else {
      assert (events + now)[..|events|] == events;
    }
  }

  lemma {:induction false} LevelsOfRun(cfg: Config, steps: seq<Step>)
    ensures Run(cfg, steps).levels == RunLevels(cfg.thresholds, Evaluations(cfg, steps))
    decreases |steps|
  {
    if steps != [] {
      var t := |steps| - 1;
      LevelsOfRun(cfg, steps[..t]);
      LevelsStep(cfg, Run(cfg, steps[..t]), steps[t], Evaluations(cfg, steps[..t]));
    }
  }

  /** Over every run a sender's level is that of the highest risk any of its calls has reported. */
  lemma {:induction false} LevelIsLevelOfPeak(cfg: Config, steps: seq<Step>, a: Bytes)
    requires cfg.thresholds.Valid()
    ensures LevelOf(Run(cfg, steps), a)
            == match PeakRisk(Evaluations(cfg, steps), a)
               case None => NORMAL
               case Some(peak) => LevelFor(cfg.thresholds, peak)
  {
    LevelsOfRun(cfg, steps);
    CurrentIsLevelOfPeak(cfg.thresholds, Evaluations(cfg, steps), a);
  }

  /** A call isolates an agent only at a risk of tau4 or more, and then it does. */
  lemma {:induction false} CallLevel(cfg: Config, s: MwState, m: Inbound, a: Bytes)
    requires cfg.thresholds.Valid()
    ensures var r := Handle(cfg, s, m).0;
            && (LevelOf(s, a) < NETWORK_ISOLATED && RiskOf(r, a) < cfg.thresholds.tau4 ==>
                  LevelOf(r, a) < NETWORK_ISOLATED)
            && (a == m.Sender() && !Handle(cfg, s, m).1.Raised? && RiskOf(r, a) >= cfg.thresholds.tau4 ==>
                  LevelOf(r, a) >= NETWORK_ISOLATED)
  {
    CallSettles(cfg, s, m);
    LevelReached(cfg.thresholds, RiskOf(Handle(cfg, s, m).0, a), NETWORK_ISOLATED);
  }

  lemma {:induction false} LevelStep(cfg: Config, s: MwState, step: Step, a: Bytes)
    requires cfg.thresholds.Valid() && LevelOf(s, a) < NETWORK_ISOLATED
    requires RiskOf(Next(cfg, s, step), a) < cfg.thresholds.tau4
    ensures LevelOf(Next(cfg, s, step), a) < NETWORK_ISOLATED
  {
    if step.Receive? {
      CallLevel(cfg, s, step.m, a);
    }
  }

  /** The risk of `a` has been below tau4 all along. */
  ghost predicate RiskBelow(cfg: Config, steps: seq<Step>, a: Bytes) {
    forall n: nat :: n <= |steps| ==> RiskOf(Run(cfg, steps[..n]), a) < cfg.thresholds.tau4
  }

  /** Whoever's risk has stayed below tau4 is not isolated. */
  lemma {:induction false} LevelStaysBelow(cfg: Config, steps: seq<Step>, a: Bytes, n: nat)
    requires cfg.thresholds.Valid() && RiskBelow(cfg, steps, a) && n <= |steps|
    ensures LevelOf(Run(cfg, steps[..n]), a) < NETWORK_ISOLATED
    decreases n
  {
    if n > 0 {
      LevelStaysBelow(cfg, steps, a, n - 1);
      RunStep(cfg, steps, n - 1);
      LevelStep(cfg, Run(cfg, steps[..n - 1]), steps[n - 1], a);
    }
  }

  lemma {:induction false} LevelStaysBelowIsolation(cfg: Config, steps: seq<Step>, a: Bytes)
    requires cfg.weights.Valid() && cfg.thresholds.Valid() && OutOfReach(cfg.weights, cfg.thresholds.tau4)
    ensures LevelOf(Run(cfg, steps), a) < NETWORK_ISOLATED
  {
    forall n: nat | n <= |steps| ensures RiskOf(Run(cfg, steps[..n]), a) < cfg.thresholds.tau4 {
      RiskStaysBelowGoal(cfg, steps[..n], a, cfg.thresholds.tau4);
    }
    LevelStaysBelow(cfg, steps, a, |steps|);
    assert steps[..|steps|] == steps;
  }

  /** With the default weights and thresholds every run keeps every risk strictly below 10, so no
      sender is ever isolated and the branch that drops messages of isolated senders is never taken. */
  lemma {:induction false} DefaultsNeverIsolate(cfg: Config, steps: seq<Step>, a: Bytes, i: nat)
    requires cfg.weights == DEFAULT_WEIGHTS && cfg.thresholds == DEFAULT_THRESHOLDS
    ensures RiskOf(Run(cfg, steps), a) < 10.0
    ensures LevelOf(Run(cfg, steps), a) <= READ_ONLY
    ensures i < |steps| && steps[i].Receive? ==>
              var o := OutcomeAt(cfg, steps, i).value; !(o.Rejected? && o.reason == Isolated)
  {
    RiskStaysBelowGoal(cfg, steps, a, 10.0);
    LevelStaysBelowIsolation(cfg, steps, a);
    if i < |steps| && steps[i].Receive? {
      var s, m := Run(cfg, steps[..i]), steps[i].m;
      CallHasEffect(cfg, s, m);
      CallSettles(cfg, s, m);
      RunStep(cfg, steps, i);
      LevelStaysBelowIsolation(cfg, steps[..i + 1], m.Sender());
    }
  }

  /** Which messages are accepted, over every run of a receiver whose isolation threshold is out of
      reach: exactly those that pass the chain and the replay guard, carry a capability for their action,
      and do not bring the senders of their payload up to the threshold. */
  lemma {:induction false} AcceptedExactly(cfg: Config, steps: seq<Step>, m: Inbound)
    requires cfg.weights.Valid() && cfg.thresholds.Valid() && OutOfReach(cfg.weights, cfg.thresholds.tau4)
    ensures var s := Run(cfg, steps);
            Handle(cfg, s, m).1.Accepted? <==>
              PassesGate(cfg, s, m) && PassesCapability(cfg, m) && |Presenters(cfg, s, m)| < cfg.payloadThreshold
  {
    var s, longer := Run(cfg, steps), steps + [Receive(m)];
    var (r, o) := Handle(cfg, s, m);
    assert !o.Raised? ==> o.level < NETWORK_ISOLATED by {
      assert longer[..|steps|] == steps;
      LevelStaysBelowIsolation(cfg, longer, m.Sender());
      OutcomeLevel(cfg, s, m);
    }
    assert CallEffect(cfg, s, m, r, o) by {
      CallHasEffect(cfg, s, m);
    }
    AcceptedByEffect(cfg, s, m, r, o);
  }

  lemma {:induction false} OutcomeLevel(cfg: Config, s: MwState, m: Inbound)
    ensures var (r, o) := Handle(cfg, s, m); !o.Raised? ==> o.level == LevelOf(r, m.Sender())
  {
    CallSettles(cfg, s, m);
  }

  lemma {:induction false} AcceptedByEffect(cfg: Config, s: MwState, m: Inbound, r: MwState, o: Outcome)
    requires CallEffect(cfg, s, m, r, o) && (!o.Raised? ==> o.level < NETWORK_ISOLATED)
    ensures o.Accepted? <==>
              PassesGate(cfg, s, m) && PassesCapability(cfg, m) && |Presenters(cfg, s, m)| < cfg.payloadThreshold
  {
  }

  lemma {:induction false} DefaultsAreOutOfReach(cfg: Config)
    requires cfg.weights == DEFAULT_WEIGHTS && cfg.thresholds == DEFAULT_THRESHOLDS
    ensures cfg.weights.Valid() && cfg.thresholds.Valid() && OutOfReach(cfg.weights, cfg.thresholds.tau4)
  {
  }

  // ---------------------------------------------------------------------
  // Impact
  // ---------------------------------------------------------------------

  predicate AcceptsFrom(cfg: Config, s: MwState, step: Step, a: Bytes) {
    step.Receive? && step.m.Sender() == a && Handle(cfg, s, step.m).1.Accepted?
  }

  /** Whether some message of `a` has been accepted. */
  predicate HasAccepted(cfg: Config, steps: seq<Step>, a: Bytes) {
    steps != [] &&
    var t := |steps| - 1;
    HasAccepted(cfg, steps[..t], a) || AcceptsFrom(cfg, Run(cfg, steps[..t]), steps[t], a)
  }

  lemma {:induction false} EdgeStep(cfg: Config, s: MwState, step: Step, x: Bytes, y: Bytes)
    ensures y in Succ(Next(cfg, s, step).adj, x)
            <==> y in Succ(s.adj, x) || (y == cfg.me && AcceptsFrom(cfg, s, step, x))
  {
    if step.Receive? {
      assert Next(cfg, s, step).adj
          == if Handle(cfg, s, step.m).1.Accepted? then Sent(s.adj, step.m.Sender(), cfg.me) else s.adj
      by {
        CallHasEffect(cfg, s, step.m);
      }
    }
  }

  /** A receiver's own impact graph has an edge to the receiver for every sender with an accepted
      message, and no other edge. */
  lemma {:induction false} EdgesLeadToReceiver(cfg: Config, steps: seq<Step>, x: Bytes, y: Bytes)
    ensures y in Succ(Run(cfg, steps).adj, x) <==> y == cfg.me && HasAccepted(cfg, steps, x)
    decreases |steps|
  {
    if steps != [] {
      var t := |steps| - 1;
      EdgesLeadToReceiver(cfg, steps[..t], x, y);
      EdgeStep(cfg, Run(cfg, steps[..t]), steps[t], x, y);
    }
  }

  lemma {:induction false} NothingBeyondReceiver(adj: Adjacency, me: Bytes, k: nat)
    requires Succ(adj, me) <= {me}
    ensures Ball(adj, me, k) == {me}
    decreases k
  {
    if k > 0 {
      NothingBeyondReceiver(adj, me, k - 1);
    }
  }

  /** So the outbound radius limit of `can_send` never binds on a graph of the receiver's own: it
      may send to anyone exactly as long as it is not isolated itself. */
  lemma {:induction false} OutboundLimitNeverBinds(cfg: Config, steps: seq<Step>, to: Bytes)
    ensures MaySend(cfg, Run(cfg, steps), to) <==> LevelOf(Run(cfg, steps), cfg.me) < NETWORK_ISOLATED
  {
    var s := Run(cfg, steps);
    forall y | y in Succ(s.adj, cfg.me) ensures y == cfg.me {
      EdgesLeadToReceiver(cfg, steps, cfg.me, y);
    }
    NothingBeyondReceiver(s.adj, cfg.me, RadiusForLevel(LevelOf(s, cfg.me)));
    assert ImpactOf(s.adj, cfg.me, RadiusForLevel(LevelOf(s, cfg.me))) == {};
  }

  /** Whom the receiver may send to, on any graph: nobody in isolation; otherwise those whom its messages
      have reached within the radius of its level, and anyone while these are fewer than the radius. */
  lemma {:induction false} MaySendExactly(cfg: Config, s: MwState, to: Bytes, reached: set<Bytes>, radius: nat)
    requires radius == if LevelOf(s, cfg.me) <= 3 then 3 else if LevelOf(s, cfg.me) <= 5 then 1 else 0
    requires forall x :: x in reached <==> Reachable(s.adj, cfg.me, radius, x)
    ensures MaySend(cfg, s, to) <==> LevelOf(s, cfg.me) < 6 && (to in reached || |reached| < radius)
  {
    RadiusExactly(LevelOf(s, cfg.me));
    forall x ensures x in reached <==> x in ImpactOf(s.adj, cfg.me, radius) {
      ImpactIsReachability(s.adj, cfg.me, radius, x);
    }
    assert reached == ImpactOf(s.adj, cfg.me, radius);
  }
}
