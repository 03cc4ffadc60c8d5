/** From an honest sender to acceptance: the sender's chain state, the capability it was issued, and the
    whole pipeline of a receiver together. */
module EndToEnd {
  import opened Primitives
  import opened Envelopes
  import opened Capabilities
  import opened Middlewares
  import opened MiddlewareRuns
  import opened ContainmentRuns
  import opened Materialize

  /** A sender's next message is sent well: it arrives, and its sender is registered, has signed its
      envelope, names this receiver, and is not too old. */
  ghost predicate WellSent(
    cfg: Config, crew: Crew, receiver: string, peers: map<Bytes, Bytes>, w: World, send: Send)
    requires send.sender in crew.ids && receiver in crew.ids
  {
    var env := Sent(cfg, crew, receiver, w, send).signed.envelope;
    && !send.lost && crew.ids[send.sender] in peers && crew.ids[receiver] == cfg.me
    && cfg.crypto.verify(cfg.crypto.DigestOf(env), send.signature, peers[crew.ids[send.sender]])
    && Abs(send.clock.envelope - send.ts) <= FRESHNESS_WINDOW
  }

  lemma {:induction false} ReachesIffWellSent(
    cfg: Config, crew: Crew, receiver: string, w: World, send: Send)
    requires send.sender in crew.ids && receiver in crew.ids
    ensures Reaches(cfg, crew, receiver, w, send) <==> WellSent(cfg, crew, receiver, w.mw.peers, w, send)
  {
  }

  ghost predicate WellSentAt(
    cfg: Config, crew: Crew, receiver: string, start: World, sends: seq<Send>, i: nat)
    requires Playable(crew, receiver, sends)
  {
    i < |sends|
    && WellSent(cfg, crew, receiver, start.mw.peers, Play(cfg, crew, receiver, start, sends[..i]), sends[i])
  }

  // ---------------------------------------------------------------------
  // The receiver during a play
  // ---------------------------------------------------------------------

  lemma {:induction false} PeersStayAlong(
    cfg: Config, crew: Crew, receiver: string, start: World, sends: seq<Send>, n: nat)
    requires Playable(crew, receiver, sends) && n <= |sends|
    ensures Play(cfg, crew, receiver, start, sends[..n]).mw.peers == start.mw.peers
    decreases n
  {
    if n > 0 {
      var w := Play(cfg, crew, receiver, start, sends[..n - 1]);
      PeersStayAlong(cfg, crew, receiver, start, sends, n - 1);
      PlayStep(cfg, crew, receiver, start, sends, n - 1);
      PeersStay(cfg, w.mw, Sent(cfg, crew, receiver, w, sends[n - 1]));
    }
  }

  lemma {:induction false} ReachesAtIffWellSentAt(
    cfg: Config, crew: Crew, receiver: string, start: World, sends: seq<Send>, i: nat)
    requires Playable(crew, receiver, sends) && i < |sends|
    ensures ReachesAt(cfg, crew, receiver, start, sends, i) <==> WellSentAt(cfg, crew, receiver, start, sends, i)
  {
    PeersStayAlong(cfg, crew, receiver, start, sends, i);
    ReachesIffWellSent(cfg, crew, receiver, Play(cfg, crew, receiver, start, sends[..i]), sends[i]);
  }

  lemma {:induction false} ExchangeRuns(
    cfg: Config, crew: Crew, receiver: string, w: World, send: Send, steps: seq<Step>)
    returns (longer: seq<Step>)
    requires send.sender in crew.ids && receiver in crew.ids && w.mw == Run(cfg, steps)
    ensures Exchange(cfg, crew, receiver, w, send).mw == Run(cfg, longer)
  {
    if send.lost {
      longer := steps;
    } else {
      longer := steps + [Receive(Sent(cfg, crew, receiver, w, send))];
      assert longer[..|steps|] == steps;
    }
  }

  /** The receiver of a play is always in a state that some run of it leads to. */
  lemma {:induction false} PlayRuns(
    cfg: Config, crew: Crew, receiver: string, start: World, sends: seq<Send>, n: nat, regs: seq<Step>)
    returns (steps: seq<Step>)
    requires Playable(crew, receiver, sends) && n <= |sends| && start.mw == Run(cfg, regs)
    ensures Play(cfg, crew, receiver, start, sends[..n]).mw == Run(cfg, steps)
    decreases n
  {
    if n == 0 {
      steps := regs;
    } else {
      var before := PlayRuns(cfg, crew, receiver, start, sends, n - 1, regs);
      PlayStep(cfg, crew, receiver, start, sends, n - 1);
      steps := ExchangeRuns(
        cfg, crew, receiver, Play(cfg, crew, receiver, start, sends[..n - 1]), sends[n - 1], before);
    }
  }

  /** The ids of the senders of the first `n` messages that carry a payload with fingerprint `fp`. */
  ghost function PayloadSenders(cfg: Config, crew: Crew, sends: seq<Send>, n: nat, fp: Digest): set<Bytes>
    requires n <= |sends| && forall send :: send in sends ==> send.sender in crew.ids
  {
    set i | 0 <= i < n && cfg.crypto.hash(sends[i].payload) == fp :: crew.ids[sends[i].sender]
  }

  lemma {:induction false} PresentersStep(cfg: Config, s: MwState, m: Inbound, fp: Digest)
    ensures SendersOf(Handle(cfg, s, m).0, fp)
            <= SendersOf(s, fp) + if cfg.crypto.hash(m.payload) == fp then {m.Sender()} else {}
  {
    CallHasEffect(cfg, s, m);
  }

  lemma {:induction false} PayloadSendersStep(cfg: Config, crew: Crew, sends: seq<Send>, n: nat, fp: Digest)
    requires n < |sends| && forall send :: send in sends ==> send.sender in crew.ids
    ensures PayloadSenders(cfg, crew, sends, n + 1, fp)
            == PayloadSenders(cfg, crew, sends, n, fp)
               + if cfg.crypto.hash(sends[n].payload) == fp then {crew.ids[sends[n].sender]} else {}
  {
  }

  /** Whoever has presented a payload during a play has sent it. */
  lemma {:induction false} PresentersHaveSent(
    cfg: Config, crew: Crew, receiver: string, start: World, sends: seq<Send>, n: nat, fp: Digest)
    requires Playable(crew, receiver, sends) && n <= |sends| && start.mw.fingerprints == map[]
    ensures SendersOf(Play(cfg, crew, receiver, start, sends[..n]).mw, fp) <= PayloadSenders(cfg, crew, sends, n, fp)
    decreases n
  {
    if n > 0 {
      var w := Play(cfg, crew, receiver, start, sends[..n - 1]);
      PresentersHaveSent(cfg, crew, receiver, start, sends, n - 1, fp);
      PlayStep(cfg, crew, receiver, start, sends, n - 1);
      PayloadSendersStep(cfg, crew, sends, n - 1, fp);
      PresentersStep(cfg, w.mw, Sent(cfg, crew, receiver, w, sends[n - 1]), fp);
    }
  }

  // ---------------------------------------------------------------------
  // Acceptance
  // ---------------------------------------------------------------------

  /** A receiver that knows `peers` and has received nothing, and senders that have sent nothing. */
  function Beginning(peers: map<Bytes, Bytes>): World {
    World(map[], FRESH_STATE.(peers := peers))
  }

  /** For every interleaving of honest senders and a receiver whose isolation threshold is out of reach:
      a sender whose messages up to this one were all sent well gets it accepted if and only if it carries
      a capability for its action and its payload has fewer presenters than the threshold. */
  lemma {:induction false} HonestTrafficIsAcceptedIff(
    cfg: Config, crew: Crew, receiver: string, peers: map<Bytes, Bytes>, sends: seq<Send>, j: nat,
    history: set<Envelope>)
    requires Playable(crew, receiver, sends) && crew.SeparateChains() && j < |sends|
    requires cfg.weights.Valid() && cfg.thresholds.Valid() && OutOfReach(cfg.weights, cfg.thresholds.tau4)
    requires forall i: nat :: i <= j && sends[i].sender == sends[j].sender ==>
                                WellSentAt(cfg, crew, receiver, Beginning(peers), sends, i)
    requires PlayedIn(cfg, crew, receiver, Beginning(peers), sends, history) && cfg.crypto.DigestsDistinct(history)
    ensures var w, m := Play(cfg, crew, receiver, Beginning(peers), sends[..j]),
                        SentAt(cfg, crew, receiver, Beginning(peers), sends, j);
            Handle(cfg, w.mw, m).1.Accepted? <==>
              PassesCapability(cfg, m) && |Presenters(cfg, w.mw, m)| < cfg.payloadThreshold
  {
    var start := Beginning(peers);
    NewSendersAreInStep(cfg, crew, start, sends[j].sender, history);
    forall i: nat | i <= j && sends[i].sender == sends[j].sender
      ensures ReachesAt(cfg, crew, receiver, start, sends, i)
    {
      assert WellSentAt(cfg, crew, receiver, start, sends, i);
      ReachesAtIffWellSentAt(cfg, crew, receiver, start, sends, i);
    }
    HonestTrafficIsNoReplay(cfg, crew, receiver, start, sends, j, history);
    var regs := Registrations(cfg, peers);
    var steps := PlayRuns(cfg, crew, receiver, start, sends, j, regs);
    AcceptedExactly(cfg, steps, SentAt(cfg, crew, receiver, start, sends, j));
  }

  /** The capability of a message is one that the sender was issued for this receiver and its task, and
      one of its scopes matches that of the message, a delegation only where these are permitted. */
  ghost predicate RightlyIssued(
    cfg: Config, crew: Crew, send: Send, pa: Authority, roles: map<string, RolePolicy>, roleName: string,
    capId: Bytes, nonce: Bytes, requested: seq<string>, now: real)
    requires send.sender in crew.ids
  {
    var r := IssueCapability(pa, cfg.enforcer.cls, roles, roleName, capId, nonce, crew.ids[send.sender], cfg.me,
                             crew.task(send.sender), requested, None, now);
    && r.Success? && send.capability == Some(r.value) && roleName in roles
    && (send.isDelegation ==> roles[roleName].constraints.delegationPermitted)
    && (exists p :: GrantedPattern(cfg.enforcer.cls, roles[roleName], requested, p, send.scope))
    && now - 60.0 <= send.clock.capability < now + 600.0
  }

  /** The receiver trusts the authority, whose signatures verify. */
  ghost predicate Trusts(e: Enforcer, pa: Authority) {
    pa.digest == e.digest && pa.publicKey in e.trusted && forall m :: e.verify(m, pa.sign(m), pa.publicKey)
  }

  lemma {:induction false} RightlyIssuedPasses(
    cfg: Config, crew: Crew, receiver: string, w: World, send: Send, pa: Authority,
    roles: map<string, RolePolicy>, roleName: string, capId: Bytes, nonce: Bytes, requested: seq<string>, now: real)
    requires send.sender in crew.ids && receiver in crew.ids && Trusts(cfg.enforcer, pa)
    requires RightlyIssued(cfg, crew, send, pa, roles, roleName, capId, nonce, requested, now)
    ensures PassesCapability(cfg, Sent(cfg, crew, receiver, w, send))
  {
    var p :| GrantedPattern(cfg.enforcer.cls, roles[roleName], requested, p, send.scope);
    IssuedScopesAreUsable(cfg.enforcer, pa, roles, roleName, capId, nonce, crew.ids[send.sender], cfg.me,
                          crew.task(send.sender), requested, now, p, send.scope, send.isDelegation,
                          send.clock.capability);
  }

  /** End to end: for every interleaving of honest senders, a message that is sent well after nothing but
      well-sent messages of its sender, with a capability rightly issued by a trusted authority, and whose
      payload fewer members of the crew than the threshold have sent so far, is accepted. */
  lemma {:induction false} HonestMessageIsAccepted(
    cfg: Config, crew: Crew, receiver: string, peers: map<Bytes, Bytes>, sends: seq<Send>, j: nat,
    history: set<Envelope>, pa: Authority, roles: map<string, RolePolicy>, roleName: string, capId: Bytes,
    nonce: Bytes, requested: seq<string>, now: real)
    requires Playable(crew, receiver, sends) && crew.SeparateChains() && j < |sends|
    requires cfg.weights.Valid() && cfg.thresholds.Valid() && OutOfReach(cfg.weights, cfg.thresholds.tau4)
    requires forall i: nat :: i <= j && sends[i].sender == sends[j].sender ==>
                                WellSentAt(cfg, crew, receiver, Beginning(peers), sends, i)
    requires PlayedIn(cfg, crew, receiver, Beginning(peers), sends, history) && cfg.crypto.DigestsDistinct(history)
    requires Trusts(cfg.enforcer, pa)
    requires RightlyIssued(cfg, crew, sends[j], pa, roles, roleName, capId, nonce, requested, now)
    requires |PayloadSenders(cfg, crew, sends, j + 1, cfg.crypto.hash(sends[j].payload))| < cfg.payloadThreshold
    ensures Handle(cfg, Play(cfg, crew, receiver, Beginning(peers), sends[..j]).mw,
                   SentAt(cfg, crew, receiver, Beginning(peers), sends, j)).1.Accepted?
  {
    var start, fp := Beginning(peers), cfg.crypto.hash(sends[j].payload);
    var w, m := Play(cfg, crew, receiver, start, sends[..j]), SentAt(cfg, crew, receiver, start, sends, j);
    HonestTrafficIsAcceptedIff(cfg, crew, receiver, peers, sends, j, history);
    RightlyIssuedPasses(cfg, crew, receiver, w, sends[j], pa, roles, roleName, capId, nonce, requested, now);
    PresentersHaveSent(cfg, crew, receiver, start, sends, j, fp);
    PayloadSendersStep(cfg, crew, sends, j, fp);
    SubsetSize(Presenters(cfg, w.mw, m), PayloadSenders(cfg, crew, sends, j + 1, fp));
  }
}
