/** `cgatc/detection/risk_score.py`: the decaying risk score of every agent, over real numbers. */
module RiskScore {
  import opened Primitives

  datatype RiskWeights = RiskWeights(decay: real, alpha: real, beta: real, gamma: real, delta: real) {
    /** What `RiskWeights.__post_init__` insists on. */
    predicate Valid() {
      0.0 <= decay <= 1.0 && 0.0 <= alpha && 0.0 <= beta && 0.0 <= gamma && 0.0 <= delta
    }
  }

  const DEFAULT_WEIGHTS := RiskWeights(0.9, 1.0, 0.5, 0.7, 0.3)

  datatype Scores = Scores(crypto: real, behavior: real, policy: real, downstream: real)

  const NO_SCORES := Scores(0.0, 0.0, 0.0, 0.0)

  datatype RiskState = RiskState(risk: real, pending: Scores)

  const FRESH_RISK := RiskState(0.0, NO_SCORES)

  type Risks = map<Bytes, RiskState>

  datatype Layer = CryptoLayer | BehaviorLayer | PolicyLayer | DownstreamLayer

  function Add(pending: Scores, layer: Layer, severity: real): Scores {
    match layer
    case CryptoLayer => pending.(crypto := pending.crypto + severity)
    case BehaviorLayer => pending.(behavior := pending.behavior + severity)
    case PolicyLayer => pending.(policy := pending.policy + severity)
    case DownstreamLayer => pending.(downstream := pending.downstream + severity)
  }

  /** What the pending scores add to the risk at the next tick. */
  function Contribution(w: RiskWeights, p: Scores): real {
    w.alpha * p.crypto + w.beta * p.behavior + w.gamma * p.policy + w.delta * p.downstream
  }

  function Of(risks: Risks, agent: Bytes): RiskState {
    if agent in risks then risks[agent] else FRESH_RISK
  }

  function Added(risks: Risks, agent: Bytes, layer: Layer, severity: real): Risks {
    var st := Of(risks, agent);
    risks[agent := st.(pending := Add(st.pending, layer, severity))]
  }

  function Ticked(w: RiskWeights, risks: Risks, agent: Bytes): Risks {
    var st := Of(risks, agent);
    risks[agent := RiskState(w.decay * st.risk + Contribution(w, st.pending), NO_SCORES)]
  }

  class RiskScoreUpdater {
    const w: RiskWeights
    var state: Risks

    constructor (w: RiskWeights)
      requires w.Valid()
      ensures this.w == w && state == map[]
    {
      this.w := w;
      state := map[];
    }

    method AddScore(agent: Bytes, layer: Layer, severity: real)
      modifies this
      ensures state == Added(old(state), agent, layer, severity)
      ensures var before, after := Of(old(state), agent), Of(state, agent);
              && after.risk == before.risk
              && after.pending.crypto == before.pending.crypto + (if layer == CryptoLayer then severity else 0.0)
              && after.pending.behavior == before.pending.behavior + (if layer == BehaviorLayer then severity else 0.0)
              && after.pending.policy == before.pending.policy + (if layer == PolicyLayer then severity else 0.0)
              && after.pending.downstream
                 == before.pending.downstream + (if layer == DownstreamLayer then severity else 0.0)
    {
      if agent !in state {
        state := state[agent := FRESH_RISK];
      }
      var st := state[agent];
      match layer
      case CryptoLayer =>
        state := state[agent := st.(pending := st.pending.(crypto := st.pending.crypto + severity))];
      case BehaviorLayer =>
        state := state[agent := st.(pending := st.pending.(behavior := st.pending.behavior + severity))];
      case PolicyLayer =>
        state := state[agent := st.(pending := st.pending.(policy := st.pending.policy + severity))];
      case DownstreamLayer =>
        state := state[agent := st.(pending := st.pending.(downstream := st.pending.downstream + severity))];
    }

    method Tick(agent: Bytes) returns (risk: real)
      modifies this
      ensures state == Ticked(w, old(state), agent)
      ensures risk == Of(state, agent).risk
      ensures var before := Of(old(state), agent);
              && Of(state, agent).pending == Scores(0.0, 0.0, 0.0, 0.0)
              && risk == w.decay * before.risk + w.alpha * before.pending.crypto + w.beta * before.pending.behavior
                         + w.gamma * before.pending.policy + w.delta * before.pending.downstream
    {
      if agent !in state {
        state := state[agent := FRESH_RISK];
      }
      var st := state[agent];
      risk := w.decay * st.risk
              + w.alpha * st.pending.crypto
              + w.beta * st.pending.behavior
              + w.gamma * st.pending.policy
              + w.delta * st.pending.downstream;
      ghost var next := Ticked(w, old(state), agent)[agent];
      assert risk == next.risk;
      state := state[agent := RiskState(risk, NO_SCORES)];
    }

    method Current(agent: Bytes) returns (risk: real)
      ensures risk == Of(state, agent).risk
    {
      risk := if agent in state then state[agent].risk else 0.0;
    }

    method Reset(agent: Bytes)
      modifies this
      ensures Of(state, agent) == FRESH_RISK
      ensures forall a :: a != agent ==> Of(state, a) == Of(old(state), a)
    {
      state := state - {agent};
    }
  }

  // ---------------------------------------------------------------------
  // Whole runs
  // ---------------------------------------------------------------------

  datatype RiskEvent =
    | AddEvent(agent: Bytes, layer: Layer, severity: real)
    | TickEvent(agent: Bytes)
    | ResetEvent(agent: Bytes)

  function Apply(w: RiskWeights, risks: Risks, e: RiskEvent): Risks {
    match e
    case AddEvent(a, layer, severity) => Added(risks, a, layer, severity)
    case TickEvent(a) => Ticked(w, risks, a)
    case ResetEvent(a) => risks - {a}
  }

  function RunRisks(w: RiskWeights, start: Risks, events: seq<RiskEvent>): Risks {
    if events == [] then start
    else Apply(w, RunRisks(w, start, events[..|events| - 1]), events[|events| - 1])
  }

  /** What one agent has been through: its risk at the start or at its last reset, the
      contribution of every tick since then, and what is pending. */
  datatype Trace = Trace(start: real, ticks: seq<real>, pending: Scores)

  function TraceOf(w: RiskWeights, start: Risks, events: seq<RiskEvent>, a: Bytes): Trace {
    if events == [] then Trace(Of(start, a).risk, [], Of(start, a).pending)
    else
      var t := TraceOf(w, start, events[..|events| - 1], a);
      var e := events[|events| - 1];
      if e.agent != a then t
      else
        match e
        case AddEvent(_, layer, severity) => t.(pending := Add(t.pending, layer, severity))
        case TickEvent(_) => Trace(t.start, t.ticks + [Contribution(w, t.pending)], NO_SCORES)
        case ResetEvent(_) => Trace(0.0, [], NO_SCORES)
  }

  function Pow(x: real, n: nat): real {
    if n == 0 then 1.0 else x * Pow(x, n - 1)
  }

  /** The sum of `cs`, the newest counted fully and every older one decayed once more. */
  function DecayedSum(decay: real, cs: seq<real>): real {
    if cs == [] then 0.0 else Pow(decay, |cs| - 1) * cs[0] + DecayedSum(decay, cs[1..])
  }

  /** The recurrence R' = decay R + c, iterated. */
  function RiskAfter(decay: real, start: real, cs: seq<real>): real {
    if cs == [] then start else decay * RiskAfter(decay, start, cs[..|cs| - 1]) + cs[|cs| - 1]
  }

  lemma {:induction false} RiskAfterAppend(decay: real, start: real, cs: seq<real>, x: real)
    ensures RiskAfter(decay, start, cs + [x]) == decay * RiskAfter(decay, start, cs) + x
  {
    assert (cs + [x])[..|cs|] == cs;
  }

  lemma {:induction false} DecayOnce(l: real, p: real, c: real, rest: real)
    ensures (l * p) * c + l * rest == l * (p * c + rest)
  {
  }

  lemma {:induction false} DecayedSumAppend(decay: real, cs: seq<real>, x: real)
    ensures DecayedSum(decay, cs + [x]) == decay * DecayedSum(decay, cs) + x
    decreases |cs|
  {
    if cs == [] {
      assert [x][1..] == [];
      assert Pow(decay, 0) == 1.0;
    } else {
      var longer := cs + [x];
      assert longer[1..] == cs[1..] + [x];
      DecayedSumAppend(decay, cs[1..], x);
      assert Pow(decay, |longer| - 1) == decay * Pow(decay, |cs| - 1);
      DecayOnce(decay, Pow(decay, |cs| - 1), cs[0], DecayedSum(decay, cs[1..]));
    }
  }

  /** The recurrence solved: decay^n R0 plus the decayed sum of the contributions. */
  lemma {:induction false} ClosedForm(decay: real, start: real, cs: seq<real>)
    ensures RiskAfter(decay, start, cs) == Pow(decay, |cs|) * start + DecayedSum(decay, cs)
    decreases |cs|
  {
    if cs != [] {
      var t := |cs| - 1;
      ClosedForm(decay, start, cs[..t]);
      LastSplit(cs);
      DecayedSumAppend(decay, cs[..t], cs[t]);
      DecayOnce(decay, Pow(decay, t), start, DecayedSum(decay, cs[..t]));
    }
  }

  /** After any interleaving of score additions, ticks and resets of any agents, an agent's risk is
      the recurrence run over its own contributions, and `ClosedForm` solves it. */
  lemma {:induction false} RiskOfRun(w: RiskWeights, start: Risks, events: seq<RiskEvent>, a: Bytes)
    ensures var t := TraceOf(w, start, events, a);
            Of(RunRisks(w, start, events), a) == RiskState(RiskAfter(w.decay, t.start, t.ticks), t.pending)
    decreases |events|
  {
    if events != [] {
      var before, e := events[..|events| - 1], events[|events| - 1];
      RiskOfRun(w, start, before, a);
      var t := TraceOf(w, start, before, a);
      RiskAfterAppend(w.decay, t.start, t.ticks, Contribution(w, t.pending));
    }
  }

  /** The severities that were added to one layer of an agent's score since its last tick or reset. */
  function AddedSince(events: seq<RiskEvent>, a: Bytes, layer: Layer): real {
    if events == [] then 0.0
    else
      var before, e := AddedSince(events[..|events| - 1], a, layer), events[|events| - 1];
      if e.agent != a then before
      else if !e.AddEvent? then 0.0
      else if e.layer == layer then before + e.severity
      else before
  }

  /** All severities that were added since then. */
  function AllAddedSince(events: seq<RiskEvent>, a: Bytes): Scores {
    Scores(AddedSince(events, a, CryptoLayer), AddedSince(events, a, BehaviorLayer),
           AddedSince(events, a, PolicyLayer), AddedSince(events, a, DownstreamLayer))
  }

  lemma {:induction false} PendingIsAdded(w: RiskWeights, events: seq<RiskEvent>, a: Bytes)
    ensures TraceOf(w, map[], events, a).pending == AllAddedSince(events, a)
    decreases |events|
  {
    if events != [] {
      PendingIsAdded(w, events[..|events| - 1], a);
    }
  }

  lemma {:induction false} Weighted(w: RiskWeights, c: real, b: real, p: real, d: real)
    ensures Contribution(w, Scores(c, b, p, d)) == w.alpha * c + w.beta * b + w.gamma * p + w.delta * d
  {
  }

  /** What a tick does after any interleaving from a fresh start: the risk decays once, and what each layer
      was given since the agent's last tick or reset counts with the weight of that layer. */
  lemma {:induction false} TickOfRun(
    w: RiskWeights, events: seq<RiskEvent>, a: Bytes, c: real, b: real, p: real, d: real)
    requires c == AddedSince(events, a, CryptoLayer) && b == AddedSince(events, a, BehaviorLayer)
    requires p == AddedSince(events, a, PolicyLayer) && d == AddedSince(events, a, DownstreamLayer)
    ensures Of(Ticked(w, RunRisks(w, map[], events), a), a).risk
            == w.decay * Of(RunRisks(w, map[], events), a).risk
               + (w.alpha * c + w.beta * b + w.gamma * p + w.delta * d)
  {
    var risks := RunRisks(w, map[], events);
    assert Of(risks, a).pending == Scores(c, b, p, d) by {
      RiskOfRun(w, map[], events, a);
      PendingIsAdded(w, events, a);
    }
    Weighted(w, c, b, p, d);
    assert Of(Ticked(w, risks, a), a).risk == w.decay * Of(risks, a).risk + Contribution(w, Scores(c, b, p, d));
  }

  // ---------------------------------------------------------------------
  // Bounds
  // ---------------------------------------------------------------------

  lemma {:induction false} MulMonotone(l: real, x: real, y: real)
    requires 0.0 <= l && x <= y
    ensures l * x <= l * y
  {
  }

  lemma {:induction false} MulStrict(l: real, x: real, y: real)
    requires 0.0 < l && x < y
    ensures l * x < l * y
  {
    assert l * y - l * x == l * (y - x) > 0.0;
  }

  lemma {:induction false} Headroom(l: real, bound: real)
    ensures (1.0 - l) * bound == bound - l * bound
  {
  }

  lemma {:induction false} WithinHeadroom(decayed: real, floor: real, contribution: real, bound: real, room: real)
    requires decayed <= floor && contribution <= room == bound - floor
    ensures decayed + contribution <= bound
    ensures decayed < floor ==> decayed + contribution < bound
  {
  }

  /** A bound that one tick respects: at most `bound`, or below it, stays so. */
  lemma {:induction false} TickKeepsBound(l: real, risk: real, contribution: real, bound: real)
    requires 0.0 <= l && risk <= bound && contribution <= (1.0 - l) * bound
    ensures l * risk + contribution <= bound
    ensures 0.0 < l && risk < bound ==> l * risk + contribution < bound
  {
    Headroom(l, bound);
    MulMonotone(l, risk, bound);
    if 0.0 < l && risk < bound {
      MulStrict(l, risk, bound);
    }
    WithinHeadroom(l * risk, l * bound, contribution, bound, (1.0 - l) * bound);
  }

  /** If no tick contributes more than M and decay < 1, risk never exceeds max(R0, M / (1 - decay)). */
  lemma {:induction false} RiskBounded(decay: real, start: real, ticks: seq<real>, M: real)
    requires 0.0 <= decay < 1.0
    requires forall i :: 0 <= i < |ticks| ==> ticks[i] <= M
    ensures RiskAfter(decay, start, ticks) <= if start <= M / (1.0 - decay) then M / (1.0 - decay) else start
  {
    var limit := M / (1.0 - decay);
    var bound := if start <= limit then limit else start;
    assert limit * (1.0 - decay) == M;
    MulMonotone(1.0 - decay, limit, bound);
    RiskStaysBelow(decay, start, ticks, M, bound);
  }

  /** A bound that one tick respects holds for every run; strictly, if it held so at the start. */
  lemma {:induction false} RiskStaysBelow(decay: real, start: real, ticks: seq<real>, M: real, bound: real)
    requires 0.0 <= decay && start <= bound && M <= (1.0 - decay) * bound
    requires forall i :: 0 <= i < |ticks| ==> ticks[i] <= M
    ensures RiskAfter(decay, start, ticks) <= bound
    ensures 0.0 < decay && start < bound ==> RiskAfter(decay, start, ticks) < bound
    decreases |ticks|
  {
    if ticks != [] {
      var t := |ticks| - 1;
      RiskStaysBelow(decay, start, ticks[..t], M, bound);
      TickKeepsBound(decay, RiskAfter(decay, start, ticks[..t]), ticks[t], bound);
    }
  }

  function Repeat(x: real, n: nat): (r: seq<real>)
    ensures |r| == n && forall i :: 0 <= i < n ==> r[i] == x
  {
    seq(n, i => x)
  }

  ghost predicate ReachedBy(decay: real, M: real, goal: real, n: nat) {
    RiskAfter(decay, 0.0, Repeat(M, n)) >= goal
  }

  /** Constant contributions climb by at least `gain` a tick until they pass `goal`. */
  lemma {:induction false} ConstantClimb(decay: real, M: real, goal: real, gain: real, n: nat)
    requires 0.0 <= decay <= 1.0 && 0.0 < gain <= M - (1.0 - decay) * goal
    requires forall k: nat :: k < n ==> !ReachedBy(decay, M, goal, k)
    ensures RiskAfter(decay, 0.0, Repeat(M, n)) >= gain * n as real
    decreases n
  {
    if n == 0 {
      assert Repeat(M, 0) == [];
    } else {
      ConstantClimb(decay, M, goal, gain, n - 1);
      var r := RiskAfter(decay, 0.0, Repeat(M, n - 1));
      assert r < goal by {
        assert !ReachedBy(decay, M, goal, n - 1);
      }
      assert Repeat(M, n) == Repeat(M, n - 1) + [M];
      RiskAfterAppend(decay, 0.0, Repeat(M, n - 1), M);
      MulMonotone(1.0 - decay, r, goal);
      assert (1.0 - decay) * r == r - decay * r;
    }
  }

  /** A positive goal is within reach of contributions up to M, starting from zero, exactly when M
      outweighs what decays at the goal. */
  lemma {:induction false} GoalReached(decay: real, M: real, goal: real) returns (n: nat)
    requires 0.0 <= decay <= 1.0 && 0.0 < goal && (1.0 - decay) * goal < M
    ensures n > 0 && ReachedBy(decay, M, goal, n)
  {
    assert Repeat(M, 0) == [];
    var gain := M - (1.0 - decay) * goal;
    n := (goal / gain).Floor + 1;
    MulMonotone(gain, goal / gain, n as real);
    assert gain * (goal / gain) == goal;
    if k: nat :| ReachedBy(decay, M, goal, k) {
      n := k;
    } else {
      ConstantClimb(decay, M, goal, gain, n);
    }
  }
}
