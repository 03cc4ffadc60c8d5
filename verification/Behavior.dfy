/** `cgatc/detection/behavioral_detector.py`: anomaly detection over rolling windows. */
module Behavior {
  import opened Primitives

  type Timeline = seq<real>

  /** `_trim`: drop from the front what lies before the cutoff. */
  function Trimmed(dq: Timeline, cutoff: real): Timeline {
    if dq != [] && dq[0] < cutoff then Trimmed(dq[1..], cutoff) else dq
  }

  /** What a window should hold: everything at or after the cutoff. */
  function Recent(ts: Timeline, cutoff: real): Timeline {
    if ts == [] then []
    else Recent(ts[..|ts| - 1], cutoff) + if ts[|ts| - 1] >= cutoff then [ts[|ts| - 1]] else []
  }

  predicate Nondecreasing(ts: Timeline) {
    forall i, j :: 0 <= i < j < |ts| ==> ts[i] <= ts[j]
  }

  /** `_trim` as the loop it is. */
  method Trim(dq0: Timeline, cutoff: real) returns (dq: Timeline)
    ensures dq == Trimmed(dq0, cutoff)
  {
    dq := dq0;
    while dq != [] && dq[0] < cutoff
      invariant Trimmed(dq, cutoff) == Trimmed(dq0, cutoff)
      decreases |dq|
    {
      dq := dq[1..];
    }
  }

  /** The window after one more observation at `t`. */
  function Observed(dq: Timeline, t: real, window: real): Timeline {
    Trimmed(dq + [t], t - window)
  }

  /** The window after observations at the times `ts`. */
  function WindowOf(ts: Timeline, window: real): Timeline {
    if ts == [] then [] else Observed(WindowOf(ts[..|ts| - 1], window), ts[|ts| - 1], window)
  }

  lemma {:induction false} RecentAppend(ts: Timeline, x: real, cutoff: real)
    ensures Recent(ts + [x], cutoff) == Recent(ts, cutoff) + if x >= cutoff then [x] else []
  {
    assert (ts + [x])[..|ts|] == ts;
  }

  lemma {:induction false} RecentConcat(a: Timeline, b: Timeline, cutoff: real)
    ensures Recent(a + b, cutoff) == Recent(a, cutoff) + Recent(b, cutoff)
    decreases |b|
  {
    if b == [] {
      assert a + b == a;
    } else {
      var t := |b| - 1;
      RecentConcat(a, b[..t], cutoff);
      LastSplit(b);
      assert a + b == (a + b[..t]) + [b[t]];
      RecentAppend(a + b[..t], b[t], cutoff);
      RecentAppend(b[..t], b[t], cutoff);
      AppendAssoc(Recent(a, cutoff), Recent(b[..t], cutoff), if b[t] >= cutoff then [b[t]] else []);
    }
  }

  lemma {:induction false} RecentAll(ts: Timeline, cutoff: real)
    requires forall i :: 0 <= i < |ts| ==> ts[i] >= cutoff
    ensures Recent(ts, cutoff) == ts
    decreases |ts|
  {
    if ts != [] {
      RecentAll(ts[..|ts| - 1], cutoff);
      LastSplit(ts);
    }
  }

  lemma {:induction false} RecentShrinks(ts: Timeline, cutoff: real, x: real)
    requires x in Recent(ts, cutoff)
    ensures x in ts && x >= cutoff
    decreases |ts|
  {
    var t := |ts| - 1;
    if x in Recent(ts[..t], cutoff) {
      RecentShrinks(ts[..t], cutoff, x);
    }
  }

  /** No entry before the cutoff hides behind a later one: the stale entries come first. */
  predicate StaleFirst(dq: Timeline, cutoff: real) {
    forall i, j :: 0 <= i < j < |dq| && dq[j] < cutoff ==> dq[i] < cutoff
  }

  lemma {:induction false} RecentOfTail(dq: Timeline, cutoff: real)
    requires dq != []
    ensures Recent(dq, cutoff) == (if dq[0] >= cutoff then [dq[0]] else []) + Recent(dq[1..], cutoff)
  {
    assert dq == [dq[0]] + dq[1..];
    RecentConcat([dq[0]], dq[1..], cutoff);
    assert [dq[0]][..0] == [];
  }

  /** Trimming from the front keeps exactly the recent entries precisely when the stale ones come first. */
  lemma {:induction false} TrimIsExactIff(dq: Timeline, cutoff: real)
    ensures Trimmed(dq, cutoff) == Recent(dq, cutoff) <==> StaleFirst(dq, cutoff)
    decreases |dq|
  {
    if dq != [] {
      RecentOfTail(dq, cutoff);
      if dq[0] < cutoff {
        TrimIsExactIff(dq[1..], cutoff);
        if StaleFirst(dq[1..], cutoff) {
          forall i, j | 0 <= i < j < |dq| && dq[j] < cutoff ensures dq[i] < cutoff {
            if i > 0 {
              assert dq[1..][j - 1] < cutoff && dq[i] == dq[1..][i - 1];
            }
          }
        }
      } else if StaleFirst(dq, cutoff) {
        forall i | 0 <= i < |dq| ensures dq[i] >= cutoff {
        }
        RecentAll(dq, cutoff);
      } else {
        var i, j :| 0 <= i < j < |dq| && dq[j] < cutoff && !(dq[i] < cutoff);
        if Recent(dq, cutoff) == dq {
          RecentShrinks(dq, cutoff, dq[j]);
        }
      }
    }
  }

  lemma {:induction false} RecentOfRecent(ts: Timeline, early: real, late: real)
    requires early <= late
    ensures Recent(Recent(ts, early), late) == Recent(ts, late)
    decreases |ts|
  {
    if ts != [] {
      var t := |ts| - 1;
      RecentOfRecent(ts[..t], early, late);
      RecentConcat(Recent(ts[..t], early), if ts[t] >= early then [ts[t]] else [], late);
      assert [ts[t]][..0] == [];
    }
  }

  lemma {:induction false} RecentSorted(ts: Timeline, cutoff: real)
    requires Nondecreasing(ts)
    ensures Nondecreasing(Recent(ts, cutoff))
    decreases |ts|
  {
    if ts != [] {
      var t := |ts| - 1;
      RecentSorted(ts[..t], cutoff);
      var before := Recent(ts[..t], cutoff);
      forall i | 0 <= i < |before| ensures before[i] <= ts[t] {
        RecentShrinks(ts[..t], cutoff, before[i]);
      }
    }
  }

  /** For nondecreasing times the window holds exactly the observations of the last `window` seconds. */
  lemma {:induction false} WindowIsRecent(ts: Timeline, window: real)
    requires Nondecreasing(ts)
    ensures ts != [] ==> WindowOf(ts, window) == Recent(ts, ts[|ts| - 1] - window)
    decreases |ts|
  {
    if ts != [] {
      var t := |ts| - 1;
      var before, cutoff := ts[..t], ts[t] - window;
      LastSplit(ts);
      if t == 0 {
        assert WindowOf(before, window) == [];
        RecentAppend([], ts[t], cutoff);
        TrimIsExactIff([] + [ts[t]], cutoff);
      } else {
        WindowIsRecent(before, window);
        RecentStep(before, before[t - 1] - window, ts[t], cutoff);
      }
    }
  }

  /** Appending a later time to what was recent and trimming leaves what is recent now. */
  lemma {:induction false} RecentStep(before: Timeline, previous: real, x: real, cutoff: real)
    requires Nondecreasing(before + [x]) && previous <= cutoff
    ensures Trimmed(Recent(before, previous) + [x], cutoff) == Recent(before + [x], cutoff)
  {
    var dq := Recent(before, previous);
    var all := before + [x];
    forall i | 0 <= i < |before| ensures before[i] <= x {
      assert all[i] <= all[|before|];
    }
    forall i, j | 0 <= i < j < |before| ensures before[i] <= before[j] {
      assert all[i] <= all[j];
    }
    RecentSorted(before, previous);
    SortedAppendStaleFirst(before, dq, previous, x, cutoff);
    TrimIsExactIff(dq + [x], cutoff);
    RecentAppend(dq, x, cutoff);
    RecentAppend(before, x, cutoff);
    RecentOfRecent(before, previous, cutoff);
  }

  lemma {:induction false} SortedAppendStaleFirst(before: Timeline, dq: Timeline, previous: real, x: real, cutoff: real)
    requires dq == Recent(before, previous) && Nondecreasing(dq)
    requires forall i :: 0 <= i < |before| ==> before[i] <= x
    ensures StaleFirst(dq + [x], cutoff)
  {
    forall i | 0 <= i < |dq| ensures dq[i] <= x {
      RecentShrinks(before, previous, dq[i]);
    }
  }

  // ---------------------------------------------------------------------
  // The detector
  // ---------------------------------------------------------------------

  datatype ObserveError = ZeroDivision

  /** The severity reported for `count` observations, if any; a zero threshold divides by zero. */
  function Verdict(count: nat, threshold: int): (r: Result<Option<real>, ObserveError>)
    ensures r.Success? && r.value.Some? ==> count > threshold && r.value.value <= 1.0
    ensures threshold > 0 ==> r.Success? && (r.value.Some? <==> count > threshold)
    ensures threshold > 0 && count > threshold ==> 0.5 < r.value.value
    ensures threshold > 0 && count > threshold ==>
              r.value.value * (threshold as real * 2.0)
              == if count <= threshold + threshold then count as real else threshold as real * 2.0
    ensures threshold < 0 ==>
              r.Success? && r.value.Some? && r.value.value * (threshold as real * 2.0) == count as real
    ensures r.Failure? <==> threshold == 0 && count > 0
  {
    if count <= threshold then Success(None)
    else if threshold == 0 then Failure(ZeroDivision)
    else
      var ratio := count as real / (threshold as real * 2.0);
      if threshold > 0 then RatioAboveHalf(count, threshold); Success(Some(if ratio <= 1.0 then ratio else 1.0))
      else Success(Some(if ratio <= 1.0 then ratio else 1.0))
  }

  lemma {:induction false} RatioAboveHalf(count: nat, threshold: int)
    requires 0 < threshold < count
    ensures 0.5 < count as real / (threshold as real * 2.0)
  {
    var d := threshold as real * 2.0;
    assert 0.5 * d < count as real;
    assert (count as real / d) * d == count as real;
  }

  datatype Windows = Windows(delegations: Timeline, probes: Timeline, memoryWrites: Timeline,
                             lastCard: Option<Bytes>, cardChanges: nat)

  const NO_WINDOWS := Windows([], [], [], None, 0)

  datatype WindowKind = DelegationWindow | ProbeWindow | MemoryWindow

  datatype AnomalyKind = DelegationSpike | HighPrivToolProbing | AbnormalMemoryPattern | AgentCardChurn

  datatype Anomaly = Anomaly(kind: AnomalyKind, severity: real)

  /** The anomaly reported for a verdict on a window of this kind. */
  function Reported(kind: WindowKind, verdict: Result<Option<real>, ObserveError>)
    : Result<Option<Anomaly>, ObserveError>
  {
    var anomaly := match kind
      case DelegationWindow => DelegationSpike
      case ProbeWindow => HighPrivToolProbing
      case MemoryWindow => AbnormalMemoryPattern;
    match verdict
    case Failure(e) => Failure(e)
    case Success(None) => Success(None)
    case Success(Some(severity)) => Success(Some(Anomaly(anomaly, severity)))
  }

  function Get(w: Windows, kind: WindowKind): Timeline {
    match kind
    case DelegationWindow => w.delegations
    case ProbeWindow => w.probes
    case MemoryWindow => w.memoryWrites
  }

  function Put(w: Windows, kind: WindowKind, dq: Timeline): Windows {
    match kind
    case DelegationWindow => w.(delegations := dq)
    case ProbeWindow => w.(probes := dq)
    case MemoryWindow => w.(memoryWrites := dq)
  }

  function WindowsOf(state: map<Bytes, Windows>, agent: Bytes): Windows {
    if agent in state then state[agent] else NO_WINDOWS
  }

  class BehavioralDetector {
    const window: real
    const delegationThreshold: int
    const probeThreshold: int
    const memoryThreshold: int
    var state: map<Bytes, Windows>

    constructor (window: real, delegationThreshold: int, probeThreshold: int, memoryThreshold: int)
      ensures this.window == window && state == map[]
      ensures this.delegationThreshold == delegationThreshold && this.probeThreshold == probeThreshold
      ensures this.memoryThreshold == memoryThreshold
    {
      this.window := window;
      this.delegationThreshold := delegationThreshold;
      this.probeThreshold := probeThreshold;
      this.memoryThreshold := memoryThreshold;
      state := map[];
    }

    function ThresholdOf(kind: WindowKind): int {
      match kind
      case DelegationWindow => delegationThreshold
      case ProbeWindow => probeThreshold
      case MemoryWindow => memoryThreshold
    }

    /** `observe_delegation`, `observe_high_priv_probe` and `observe_memory_write`. */
    method Observe(kind: WindowKind, agent: Bytes, ts: real) returns (r: Result<Option<Anomaly>, ObserveError>)
      modifies this
      ensures var dq := Observed(Get(WindowsOf(old(state), agent), kind), ts, window);
              && state == old(state)[agent := Put(WindowsOf(old(state), agent), kind, dq)]
              && r == Reported(kind, Verdict(|dq|, ThresholdOf(kind)))
      ensures r.Success? && r.value.Some? ==>
                r.value.value.kind == match kind
                                      case DelegationWindow => DelegationSpike
                                      case ProbeWindow => HighPrivToolProbing
                                      case MemoryWindow => AbnormalMemoryPattern
    {
      var w := if agent in state then state[agent] else NO_WINDOWS;
      var dq := Trim(Get(w, kind) + [ts], ts - window);
      state := state[agent := Put(w, kind, dq)];
      r := Reported(kind, Verdict(|dq|, ThresholdOf(kind)));
    }

    /** `observe_card_change`. */
    method ObserveCardChange(agent: Bytes, card: Bytes) returns (r: Option<Anomaly>)
      modifies this
      ensures var w := WindowsOf(old(state), agent);
              && state == old(state)[agent := CardObserved(w, card)]
              && var severity := if w.cardChanges >= 2 then 1.0 else (w.cardChanges + 1) as real / 3.0;
                 r == if w.lastCard.Some? && w.lastCard.value != card then Some(Anomaly(AgentCardChurn, severity))
                      else None
    {
      var w := if agent in state then state[agent] else NO_WINDOWS;
      if w.lastCard.Some? && w.lastCard.value != card {
        state := state[agent := w.(cardChanges := w.cardChanges + 1)];
        var ratio := (w.cardChanges + 1) as real / 3.0;
        return Some(Anomaly(AgentCardChurn, if ratio <= 1.0 then ratio else 1.0));
      }
      state := state[agent := w.(lastCard := Some(card))];
      return None;
    }
  }

  function CardObserved(w: Windows, card: Bytes): Windows {
    if w.lastCard.Some? && w.lastCard.value != card then w.(cardChanges := w.cardChanges + 1)
    else w.(lastCard := Some(card))
  }

  function CardsObserved(cards: seq<Bytes>): Windows {
    if cards == [] then NO_WINDOWS else CardObserved(CardsObserved(cards[..|cards| - 1]), cards[|cards| - 1])
  }

  function Differing(cards: seq<Bytes>, first: Bytes): nat {
    if cards == [] then 0
    else Differing(cards[..|cards| - 1], first) + if cards[|cards| - 1] != first then 1 else 0
  }

  /** The first card stays the reference for ever: what is counted is not how often the card changed
      but how many observations differ from the first one. */
  lemma {:induction false} CardChangesCountDifferences(cards: seq<Bytes>)
    requires cards != []
    ensures CardsObserved(cards).lastCard == Some(cards[0])
    ensures CardsObserved(cards).cardChanges == Differing(cards, cards[0])
    decreases |cards|
  {
    var t := |cards| - 1;
    if t == 0 {
      assert cards[..0] == [];
    } else {
      CardChangesCountDifferences(cards[..t]);
    }
  }

  /** How often the card really changed: observations that differ from the one before. */
  function Changes(cards: seq<Bytes>): nat {
    if |cards| <= 1 then 0
    else Changes(cards[..|cards| - 1]) + if cards[|cards| - 1] != cards[|cards| - 2] then 1 else 0
  }

  /** After every observation the count is the number of changes so far. */
  ghost predicate CountsChanges(cards: seq<Bytes>) {
    forall n :: 0 < n <= |cards| ==> CountIsRight(cards, n)
  }

  ghost predicate CountIsRight(cards: seq<Bytes>, n: int)
    requires 0 <= n <= |cards|
  {
    CardsObserved(cards[..n]).cardChanges == Changes(cards[..n])
  }

  /** An observation that follows a card other than the first differs from both. */
  predicate KeepsChanging(cards: seq<Bytes>) {
    forall i :: 0 < i < |cards| && cards[i - 1] != cards[0] ==> cards[i] != cards[0] && cards[i] != cards[i - 1]
  }

  lemma {:induction false} CountStep(cards: seq<Bytes>, n: nat)
    requires 0 < n < |cards| && CountIsRight(cards, n)
    ensures CountIsRight(cards, n + 1)
            <==> (cards[n - 1] != cards[0] ==> cards[n] != cards[0] && cards[n] != cards[n - 1])
  {
    var shorter, longer := cards[..n], cards[..n + 1];
    assert longer[..n] == shorter && longer[n] == cards[n] && longer[n - 1] == cards[n - 1];
    CardChangesCountDifferences(shorter);
    CardChangesCountDifferences(longer);
  }

  lemma {:induction false} FirstCount(cards: seq<Bytes>)
    requires cards != []
    ensures CountIsRight(cards, 1)
  {
    assert cards[..1][..0] == [];
    CardChangesCountDifferences(cards[..1]);
  }

  /** When the count is right: exactly if the card, once changed, changes with every observation and
      never back to the first one. */
  lemma {:induction false} CountsChangesIff(cards: seq<Bytes>)
    ensures CountsChanges(cards) <==> KeepsChanging(cards)
  {
    if cards != [] {
      FirstCount(cards);
    }
    if CountsChanges(cards) {
      forall i | 0 < i < |cards| && cards[i - 1] != cards[0] ensures cards[i] != cards[0] && cards[i] != cards[i - 1] {
        assert CountIsRight(cards, i) && CountIsRight(cards, i + 1);
        CountStep(cards, i);
      }
    }
    if KeepsChanging(cards) {
      var n := 1;
      while n < |cards|
        invariant 1 <= n && (cards != [] ==> n <= |cards|)
        invariant forall m :: 0 < m <= n && m <= |cards| ==> CountIsRight(cards, m)
      {
        CountStep(cards, n);
        n := n + 1;
      }
    }
  }

  /** One change, seen three times, is counted three times. */
  lemma {:induction false} OneChangeCountedThrice(a: Bytes, b: Bytes)
    requires a != b
    ensures CardsObserved([a, b, b, b]).cardChanges == 3 && Changes([a, b, b, b]) == 1
  {
    var cards := [a, b, b, b];
    var three, two := [a, b, b], [a, b];
    assert cards[..3] == three && three[..2] == two && two[..1] == [a] && [a][..0] == [];
    CardChangesCountDifferences(cards);
    assert Changes(two) == 1 && Changes(three) == 1;
    assert Differing([a], a) == 0 && Differing(two, a) == 1 && Differing(three, a) == 2;
  }

  // ---------------------------------------------------------------------
  // Runs of the detector
  // ---------------------------------------------------------------------

  datatype Observation =
    | Counted(kind: WindowKind, agent: Bytes, time: real)
    | CardSeen(agent: Bytes, card: Bytes)

  function Detected(window: real, state: map<Bytes, Windows>, o: Observation): map<Bytes, Windows> {
    var w := WindowsOf(state, o.agent);
    match o
    case Counted(kind, agent, time) => state[agent := Put(w, kind, Observed(Get(w, kind), time, window))]
    case CardSeen(agent, card) => state[agent := CardObserved(w, card)]
  }

  function RunDetector(window: real, events: seq<Observation>): map<Bytes, Windows> {
    if events == [] then map[]
    else Detected(window, RunDetector(window, events[..|events| - 1]), events[|events| - 1])
  }

  /** An agent's own times of one kind. */
  function TimesOf(events: seq<Observation>, kind: WindowKind, agent: Bytes): Timeline {
    if events == [] then []
    else
      var o := events[|events| - 1];
      TimesOf(events[..|events| - 1], kind, agent)
      + if o.Counted? && o.kind == kind && o.agent == agent then [o.time] else []
  }

  /** An agent's own cards. */
  function CardsOf(events: seq<Observation>, agent: Bytes): seq<Bytes> {
    if events == [] then []
    else
      var o := events[|events| - 1];
      CardsOf(events[..|events| - 1], agent) + if o.CardSeen? && o.agent == agent then [o.card] else []
  }

  /** The part of an agent's state that card observations use. */
  predicate SameCards(v: Windows, w: Windows) {
    v.lastCard == w.lastCard && v.cardChanges == w.cardChanges
  }

  lemma {:induction false} WindowAppend(ts: Timeline, x: real, window: real)
    ensures WindowOf(ts + [x], window) == Observed(WindowOf(ts, window), x, window)
  {
    assert (ts + [x])[..|ts|] == ts;
  }

  lemma {:induction false} CardsAppend(cards: seq<Bytes>, card: Bytes)
    ensures CardsObserved(cards + [card]) == CardObserved(CardsObserved(cards), card)
  {
    assert (cards + [card])[..|cards|] == cards;
  }

  lemma {:induction false} PutGet(w: Windows, kind: WindowKind, dq: Timeline, other: WindowKind)
    ensures Get(Put(w, kind, dq), other) == if other == kind then dq else Get(w, other)
    ensures SameCards(Put(w, kind, dq), w)
  {
  }

  /** An agent's state is what its own times of one kind and its own cards lead to. */
  predicate Keeps(w: Windows, window: real, kind: WindowKind, ts: Timeline, cards: seq<Bytes>) {
    Get(w, kind) == WindowOf(ts, window) && SameCards(w, CardsObserved(cards))
  }

  lemma {:induction false} CountedKeeps(
    w: Windows, window: real, kind: WindowKind, ts: Timeline, cards: seq<Bytes>, k: WindowKind, x: real)
    requires Keeps(w, window, kind, ts, cards)
    ensures Keeps(Put(w, k, Observed(Get(w, k), x, window)), window, kind, if k == kind then ts + [x] else ts, cards)
  {
    PutGet(w, k, Observed(Get(w, k), x, window), kind);
    WindowAppend(ts, x, window);
  }

  lemma {:induction false} CardKeeps(
    w: Windows, window: real, kind: WindowKind, ts: Timeline, cards: seq<Bytes>, card: Bytes)
    requires Keeps(w, window, kind, ts, cards)
    ensures Keeps(CardObserved(w, card), window, kind, ts, cards + [card])
  {
    CardsAppend(cards, card);
  }

  /** After any interleaving of observations of any agents and kinds, an agent's window of one kind is
      the window over its own times of that kind, and its card state is that over its own cards. */
  lemma {:induction false} WindowsSeparate(window: real, events: seq<Observation>, kind: WindowKind, agent: Bytes)
    ensures var w := WindowsOf(RunDetector(window, events), agent);
            && Get(w, kind) == WindowOf(TimesOf(events, kind, agent), window)
            && SameCards(w, CardsObserved(CardsOf(events, agent)))
    decreases |events|
  {
    if events != [] {
      var before, o := events[..|events| - 1], events[|events| - 1];
      WindowsSeparate(window, before, kind, agent);
      var ts, cards := TimesOf(before, kind, agent), CardsOf(before, agent);
      assert ts + [] == ts && cards + [] == cards;
      if o.agent == agent {
        var w := WindowsOf(RunDetector(window, before), agent);
        match o
        case Counted(k, _, x) => CountedKeeps(w, window, kind, ts, cards, k, x);
        case CardSeen(_, card) => CardKeeps(w, window, kind, ts, cards, card);
      }
    }
  }
}
