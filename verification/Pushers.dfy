/** Crews of honest senders that push one payload, and a receiver they can isolate. */
module Pushers {
  import opened Primitives
  import opened Envelopes
  import opened Middlewares
  import opened MiddlewareRuns
  import opened Materialize
  import opened EndToEnd
  import opened Isolation

  /** Step `k` is the call with message `k - p` of the play. */
  ghost predicate CallsWith(
    cfg: Config, crew: Crew, receiver: string, start: World, sends: seq<Send>, steps: seq<Step>, p: nat, k: nat)
    requires Playable(crew, receiver, sends)
  {
    && p <= k < |steps| && k - p < |sends| && !sends[k - p].lost
    && steps[k] == Receive(SentAt(cfg, crew, receiver, start, sends, k - p))
  }

  /** From step `p` on, `steps` are the calls of the play. */
  ghost predicate Delivers(
    cfg: Config, crew: Crew, receiver: string, start: World, sends: seq<Send>, steps: seq<Step>, p: nat)
    requires Playable(crew, receiver, sends)
  {
    && |steps| == p + |sends| && Run(cfg, steps[..p]) == start.mw
    && forall k: nat :: p <= k < |steps| ==> CallsWith(cfg, crew, receiver, start, sends, steps, p, k)
  }

  lemma {:induction false} Delivery(
    cfg: Config, crew: Crew, receiver: string, start: World, sends: seq<Send>, regs: seq<Step>)
    returns (steps: seq<Step>)
    requires Playable(crew, receiver, sends) && Run(cfg, regs) == start.mw
    requires forall i: nat :: i < |sends| ==> !sends[i].lost
    ensures Delivers(cfg, crew, receiver, start, sends, steps, |regs|)
  {
    var calls := seq(|sends|, i requires 0 <= i < |sends| => Receive(SentAt(cfg, crew, receiver, start, sends, i)));
    steps := regs + calls;
    assert steps[..|regs|] == regs;
    forall k: nat | |regs| <= k < |steps| ensures CallsWith(cfg, crew, receiver, start, sends, steps, |regs|, k) {
      assert steps[k] == calls[k - |regs|];
    }
  }

  /** Message `i` is sent well, carries the payload and a capability for its action. */
  ghost predicate PushAt(
    cfg: Config, crew: Crew, receiver: string, start: World, sends: seq<Send>, payload: Bytes, i: nat)
    requires Playable(crew, receiver, sends)
  {
    && WellSentAt(cfg, crew, receiver, start, sends, i) && sends[i].payload == payload
    && PassesCapability(cfg, SentAt(cfg, crew, receiver, start, sends, i))
  }

  ghost predicate AllPush(
    cfg: Config, crew: Crew, receiver: string, start: World, sends: seq<Send>, payload: Bytes)
    requires Playable(crew, receiver, sends)
  {
    forall i: nat :: i < |sends| ==> PushAt(cfg, crew, receiver, start, sends, payload, i)
  }

  /** The envelopes of the play. */
  ghost function Built(cfg: Config, crew: Crew, receiver: string, start: World, sends: seq<Send>): set<Envelope>
    requires Playable(crew, receiver, sends)
  {
    set i | 0 <= i < |sends| :: SentAt(cfg, crew, receiver, start, sends, i).signed.envelope
  }

  lemma {:induction false} PlayedInBuilt(
    cfg: Config, crew: Crew, receiver: string, start: World, sends: seq<Send>)
    requires Playable(crew, receiver, sends)
    ensures PlayedIn(cfg, crew, receiver, start, sends, Built(cfg, crew, receiver, start, sends))
  {
    forall i: nat | i < |sends|
      ensures BuiltIn(cfg, crew, receiver, start, sends, i, Built(cfg, crew, receiver, start, sends))
    {
    }
  }

  /** The ids of the senders of the first `q` messages. */
  ghost function FirstSenders(crew: Crew, sends: seq<Send>, q: nat): set<Bytes>
    requires q <= |sends| && forall send :: send in sends ==> send.sender in crew.ids
  {
    set i | 0 <= i < q :: crew.ids[sends[i].sender]
  }

  lemma {:induction false} CallPlays(
    cfg: Config, crew: Crew, receiver: string, w: World, send: Send, s: MwState, step: Step)
    requires send.sender in crew.ids && receiver in crew.ids && !send.lost
    requires s == w.mw && step == Receive(Sent(cfg, crew, receiver, w, send))
    ensures Next(cfg, s, step) == Exchange(cfg, crew, receiver, w, send).mw
  {
  }

  /** The calls lead the receiver through the states of the play. */
  lemma {:induction false} CallsPlay(
    cfg: Config, crew: Crew, receiver: string, start: World, sends: seq<Send>, steps: seq<Step>, p: nat, n: nat)
    requires Playable(crew, receiver, sends) && n <= |sends| && Delivers(cfg, crew, receiver, start, sends, steps, p)
    ensures Run(cfg, steps[..p + n]) == Play(cfg, crew, receiver, start, sends[..n]).mw
    decreases n
  {
    if n > 0 {
      var k, w := p + (n - 1), Play(cfg, crew, receiver, start, sends[..n - 1]);
      assert Run(cfg, steps[..k]) == w.mw by {
        CallsPlay(cfg, crew, receiver, start, sends, steps, p, n - 1);
      }
      assert CallsWith(cfg, crew, receiver, start, sends, steps, p, k);
      CallPlays(cfg, crew, receiver, w, sends[n - 1], Run(cfg, steps[..k]), steps[k]);
      PlayStep(cfg, crew, receiver, start, sends, n - 1);
      RunStep(cfg, steps, k);
    }
  }

  /** Every message of such a play is a push. */
  lemma {:induction false} CallPushes(
    cfg: Config, crew: Crew, receiver: string, peers: map<Bytes, Bytes>, sends: seq<Send>, payload: Bytes, i: nat)
    requires Playable(crew, receiver, sends) && crew.SeparateChains() && i < |sends|
    requires AllPush(cfg, crew, receiver, Beginning(peers), sends, payload)
    requires cfg.crypto.DigestsDistinct(Built(cfg, crew, receiver, Beginning(peers), sends))
    ensures PassesGate(cfg, Play(cfg, crew, receiver, Beginning(peers), sends[..i]).mw,
                       SentAt(cfg, crew, receiver, Beginning(peers), sends, i))
  {
    var start := Beginning(peers);
    var history := Built(cfg, crew, receiver, start, sends);
    PlayedInBuilt(cfg, crew, receiver, start, sends);
    NewSendersAreInStep(cfg, crew, start, sends[i].sender, history);
    forall j: nat | j <= i ensures ReachesAt(cfg, crew, receiver, start, sends, j) {
      assert PushAt(cfg, crew, receiver, start, sends, payload, j);
      ReachesAtIffWellSentAt(cfg, crew, receiver, start, sends, j);
    }
    HonestTrafficIsNoReplay(cfg, crew, receiver, start, sends, i, history);
  }

  /** A crew whose well-sent messages carry one payload, from enough senders first and then from one
      alone, shows that this one can push as often as it sends. */
  lemma {:induction false} CrewPushes(
    cfg: Config, crew: Crew, receiver: string, peers: map<Bytes, Bytes>, sends: seq<Send>, payload: Bytes, q: nat)
    requires Playable(crew, receiver, sends) && crew.SeparateChains() && q < |sends|
    requires AllPush(cfg, crew, receiver, Beginning(peers), sends, payload)
    requires cfg.crypto.DigestsDistinct(Built(cfg, crew, receiver, Beginning(peers), sends))
    requires |FirstSenders(crew, sends, q)| >= cfg.payloadThreshold
    requires forall i: nat :: q <= i < |sends| ==> sends[i].sender == sends[q].sender
    ensures PushesPossible(cfg, |sends| - q)
  {
    var start, a := Beginning(peers), crew.ids[sends[q].sender];
    var regs := Registrations(cfg, peers);
    var p := |regs|;
    forall i: nat | i < |sends| ensures !sends[i].lost {
      assert PushAt(cfg, crew, receiver, start, sends, payload, i);
    }
    var steps := Delivery(cfg, crew, receiver, start, sends, regs);
    forall k: nat | p <= k < |steps| ensures PushesAt(cfg, steps, k, payload) {
      CallIsPush(cfg, crew, receiver, peers, sends, payload, steps, p, k);
    }
    FirstSendersPush(cfg, crew, receiver, start, sends, steps, p, q);
    LastSenderPushes(cfg, crew, receiver, start, sends, steps, p, q);
    assert PushSchedule(cfg, steps, p, p + q, payload, a);
  }

  lemma {:induction false} CallIsPush(
    cfg: Config, crew: Crew, receiver: string, peers: map<Bytes, Bytes>, sends: seq<Send>, payload: Bytes,
    steps: seq<Step>, p: nat, k: nat)
    requires Playable(crew, receiver, sends) && crew.SeparateChains() && p <= k < |steps|
    requires AllPush(cfg, crew, receiver, Beginning(peers), sends, payload)
    requires cfg.crypto.DigestsDistinct(Built(cfg, crew, receiver, Beginning(peers), sends))
    requires Delivers(cfg, crew, receiver, Beginning(peers), sends, steps, p)
    ensures PushesAt(cfg, steps, k, payload)
  {
    var start, i := Beginning(peers), k - p;
    assert CallsWith(cfg, crew, receiver, start, sends, steps, p, k);
    assert PushAt(cfg, crew, receiver, start, sends, payload, i);
    var s, m := Run(cfg, steps[..k]), SentAt(cfg, crew, receiver, start, sends, i);
    assert PassesGate(cfg, s, m) by {
      CallsPlay(cfg, crew, receiver, start, sends, steps, p, i);
      CallPushes(cfg, crew, receiver, peers, sends, payload, i);
    }
  }

  lemma {:induction false} SenderOfCall(
    cfg: Config, crew: Crew, receiver: string, start: World, sends: seq<Send>, steps: seq<Step>, p: nat, k: nat)
    requires Playable(crew, receiver, sends) && CallsWith(cfg, crew, receiver, start, sends, steps, p, k)
    ensures steps[k].Receive? && steps[k].m.Sender() == crew.ids[sends[k - p].sender]
  {
  }

  lemma {:induction false} FirstSendersPush(
    cfg: Config, crew: Crew, receiver: string, start: World, sends: seq<Send>, steps: seq<Step>, p: nat, q: nat)
    requires Playable(crew, receiver, sends) && q <= |sends| && Delivers(cfg, crew, receiver, start, sends, steps, p)
    ensures |FirstSenders(crew, sends, q)| <= |SendersBetween(steps, p, p + q)|
  {
    forall b | b in FirstSenders(crew, sends, q) ensures b in SendersBetween(steps, p, p + q) {
      var i :| 0 <= i < q && crew.ids[sends[i].sender] == b;
      assert CallsWith(cfg, crew, receiver, start, sends, steps, p, p + i);
      SenderOfCall(cfg, crew, receiver, start, sends, steps, p, p + i);
    }
    SubsetSize(FirstSenders(crew, sends, q), SendersBetween(steps, p, p + q));
  }

  lemma {:induction false} LastSenderPushes(
    cfg: Config, crew: Crew, receiver: string, start: World, sends: seq<Send>, steps: seq<Step>, p: nat, q: nat)
    requires Playable(crew, receiver, sends) && q < |sends| && Delivers(cfg, crew, receiver, start, sends, steps, p)
    requires forall i: nat :: q <= i < |sends| ==> sends[i].sender == sends[q].sender
    ensures forall k: nat :: p + q <= k < |steps| && steps[k].Receive? ==>
                               steps[k].m.Sender() == crew.ids[sends[q].sender]
  {
    forall k: nat | p + q <= k < |steps| && steps[k].Receive?
      ensures steps[k].m.Sender() == crew.ids[sends[q].sender]
    {
      assert CallsWith(cfg, crew, receiver, start, sends, steps, p, k);
      SenderOfCall(cfg, crew, receiver, start, sends, steps, p, k);
    }
  }
}
