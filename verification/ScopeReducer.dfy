/** `cgatc/containment/scope_reducer.py`: the containment ladder and its persistence. */
module ScopeReduction {
  import opened Primitives

  type Level = n: nat | n <= 7

  const NORMAL: Level := 0
  const INCREASED_MONITORING: Level := 1
  const OUTPUT_RESTRICTED: Level := 2
  const HIGH_RISK_TOOLS_DISABLED: Level := 3
  const DELEGATION_PROHIBITED: Level := 4
  const READ_ONLY: Level := 5
  const NETWORK_ISOLATED: Level := 6
  const CREDENTIALS_REVOKED: Level := 7

  datatype Thresholds = Thresholds(tau1: real, tau2: real, tau3: real, tau4: real) {
    /** What `ContainmentThresholds.__post_init__` insists on. */
    predicate Valid() {
      tau1 < tau2 < tau3 < tau4
    }
  }

  const DEFAULT_THRESHOLDS := Thresholds(1.0, 2.5, 5.0, 10.0)

  /** `level_for`. */
  function LevelFor(t: Thresholds, risk: real): Level {
    if risk < t.tau1 then NORMAL
    else if risk < t.tau2 then INCREASED_MONITORING
    else if risk < (t.tau2 + t.tau3) / 2.0 then OUTPUT_RESTRICTED
    else if risk < t.tau3 then HIGH_RISK_TOOLS_DISABLED
    else if risk < (t.tau3 + t.tau4) / 2.0 then DELEGATION_PROHIBITED
    else if risk < t.tau4 then READ_ONLY
    else if risk < t.tau4 + t.tau4 then NETWORK_ISOLATED
    else CREDENTIALS_REVOKED
  }

  /** The least risk that reaches a level above NORMAL.  With a negative fourth threshold the last
      two levels start together. */
  function Onset(t: Thresholds, l: Level): real
    requires l > NORMAL
  {
    if l == INCREASED_MONITORING then t.tau1
    else if l == OUTPUT_RESTRICTED then t.tau2
    else if l == HIGH_RISK_TOOLS_DISABLED then (t.tau2 + t.tau3) / 2.0
    else if l == DELEGATION_PROHIBITED then t.tau3
    else if l == READ_ONLY then (t.tau3 + t.tau4) / 2.0
    else if l == NETWORK_ISOLATED then t.tau4
    else if t.tau4 < 0.0 then t.tau4
    else t.tau4 + t.tau4
  }

  type Levels = map<Bytes, Level>

  function CurrentOf(levels: Levels, agent: Bytes): Level {
    if agent in levels then levels[agent] else NORMAL
  }

  /** The levels after one evaluation: a level never falls. */
  function Evaluated(t: Thresholds, levels: Levels, agent: Bytes, risk: real): (r: Levels)
    ensures CurrentOf(r, agent) >= CurrentOf(levels, agent)
    ensures CurrentOf(r, agent) >= LevelFor(t, risk)
    ensures CurrentOf(r, agent) == CurrentOf(levels, agent) || CurrentOf(r, agent) == LevelFor(t, risk)
    ensures forall a :: a != agent ==> CurrentOf(r, a) == CurrentOf(levels, a)
  {
    if LevelFor(t, risk) > CurrentOf(levels, agent) then levels[agent := LevelFor(t, risk)] else levels
  }

  class ScopeReducer {
    const t: Thresholds
    var levels: Levels

    constructor (t: Thresholds)
      requires t.Valid()
      ensures this.t == t && levels == map[]
    {
      this.t := t;
      levels := map[];
    }

    method Evaluate(agent: Bytes, risk: real) returns (level: Level)
      modifies this
      ensures levels == Evaluated(t, old(levels), agent, risk)
      ensures level == CurrentOf(levels, agent)
    {
      var new_ := LevelFor(t, risk);
      var old_ := if agent in levels then levels[agent] else NORMAL;
      if new_ > old_ {
        levels := levels[agent := new_];
        return new_;
      }
      return old_;
    }

    method Current(agent: Bytes) returns (level: Level)
      ensures level == CurrentOf(levels, agent)
    {
      level := if agent in levels then levels[agent] else NORMAL;
    }

    method ManualReset(agent: Bytes)
      modifies this
      ensures CurrentOf(levels, agent) == NORMAL
      ensures forall a :: a != agent ==> CurrentOf(levels, a) == CurrentOf(old(levels), a)
    {
      levels := levels - {agent};
    }
  }

  /** The ladder as a table of onsets: a level is reached exactly from its onset on. */
  lemma {:induction false} LevelReached(t: Thresholds, risk: real, l: Level)
    requires t.Valid() && l > NORMAL
    ensures LevelFor(t, risk) >= l <==> risk >= Onset(t, l)
  {
    assert t.tau2 < (t.tau2 + t.tau3) / 2.0 < t.tau3;
    assert t.tau3 < (t.tau3 + t.tau4) / 2.0 < t.tau4;
  }

  /** The ladder is monotone for all strictly increasing thresholds. */
  lemma {:induction false} LevelMonotone(t: Thresholds, r: real, s: real)
    requires t.Valid() && r <= s
    ensures LevelFor(t, r) <= LevelFor(t, s)
  {
    if LevelFor(t, r) > NORMAL {
      LevelReached(t, r, LevelFor(t, r));
      LevelReached(t, s, LevelFor(t, r));
    }
  }

  // ---------------------------------------------------------------------
  // Whole runs
  // ---------------------------------------------------------------------

  datatype ScopeEvent = EvaluateEvent(agent: Bytes, risk: real) | ResetEvent(agent: Bytes)

  function RunLevels(t: Thresholds, events: seq<ScopeEvent>): Levels {
    if events == [] then map[]
    else
      var before := RunLevels(t, events[..|events| - 1]);
      match events[|events| - 1]
      case EvaluateEvent(a, risk) => Evaluated(t, before, a, risk)
      case ResetEvent(a) => before - {a}
  }

  /** The highest risk evaluated for `a` since its last reset, if any. */
  function PeakRisk(events: seq<ScopeEvent>, a: Bytes): Option<real> {
    if events == [] then None
    else
      var e, before := events[|events| - 1], PeakRisk(events[..|events| - 1], a);
      if e.agent != a then before
      else if e.ResetEvent? then None
      else if before.Some? && before.value >= e.risk then before
      else Some(e.risk)
  }

  /** After any interleaving of evaluations and resets of any agents, an agent's level is the level
      of the highest risk evaluated for it since its last reset. */
  lemma {:induction false} CurrentIsLevelOfPeak(t: Thresholds, events: seq<ScopeEvent>, a: Bytes)
    requires t.Valid()
    ensures CurrentOf(RunLevels(t, events), a)
            == match PeakRisk(events, a) case None => NORMAL case Some(peak) => LevelFor(t, peak)
    decreases |events|
  {
    if events != [] {
      var before, e := events[..|events| - 1], events[|events| - 1];
      CurrentIsLevelOfPeak(t, before, a);
      if e.agent == a && e.EvaluateEvent? && PeakRisk(before, a).Some? {
        var peak := PeakRisk(before, a).value;
        if peak >= e.risk {
          LevelMonotone(t, e.risk, peak);
        } else {
          LevelMonotone(t, peak, e.risk);
        }
      }
    }
  }
}
