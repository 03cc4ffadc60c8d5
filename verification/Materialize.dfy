/** `benchmarks/materialize.py`: the honest sender's chain state, and sender and receiver in lock-step. */
module Materialize {
  import opened Primitives
  import opened Envelopes
  import opened Chain
  import opened Delivery
  import opened Capabilities
  import opened Middlewares
  import opened MiddlewareRuns

  /** The agents of a workload: their ids, and the session and task ids derived for talking to one
      receiver. */
  datatype Crew = Crew(ids: map<string, Bytes>, session: string -> Bytes, task: string -> Bytes) {
    function KeyFor(sender: string): Key
      requires sender in ids
    {
      Key(session(sender), ids[sender])
    }

    /** No two senders share a chain. */
    ghost predicate SeparateChains() {
      forall a, b :: a in ids && b in ids && KeyFor(a) == KeyFor(b) ==> a == b
    }
  }

  datatype SenderState = SenderState(seqNo: nat, lastDigest: Digest)

  const NEW_SENDER := SenderState(0, GENESIS)

  type Senders = map<string, SenderState>

  function StateOf(senders: Senders, sender: string): SenderState {
    if sender in senders then senders[sender] else NEW_SENDER
  }

  datatype BuildError = KeyError

  /** The envelope that `build` makes; overrides replace the tracked values. */
  function EnvelopeFor(
    c: Crypto, crew: Crew, receiver: string, senders: Senders, sender: string, payload: Bytes, ts: real,
    seqOverride: Option<nat>, prevOverride: Option<Bytes>): Envelope
    requires sender in crew.ids && receiver in crew.ids
  {
    var st := StateOf(senders, sender);
    Envelope(crew.session(sender), crew.task(sender),
             if seqOverride.Some? then seqOverride.value else st.seqNo,
             crew.ids[sender], crew.ids[receiver], Request, c.hash(payload), None,
             if prevOverride.Some? then prevOverride.value else st.lastDigest, ts)
  }

  /** The sender state after `env` was built. */
  function Tracked(
    c: Crypto, st: SenderState, env: Envelope, seqOverride: Option<nat>, prevOverride: Option<Bytes>): SenderState {
    SenderState(if seqOverride.None? then env.seqNo + 1 else st.seqNo,
                if prevOverride.None? && seqOverride.None? then c.DigestOf(env) else st.lastDigest)
  }

  class MessageBuilder {
    const c: Crypto
    const crew: Crew
    const receiver: string
    var bySender: Senders

    constructor (c: Crypto, crew: Crew, receiver: string)
      ensures this.c == c && this.crew == crew && this.receiver == receiver && bySender == map[]
    {
      this.c := c;
      this.crew := crew;
      this.receiver := receiver;
      bySender := map[];
    }

    method Build(sender: string, payload: Bytes, ts: real, seqOverride: Option<nat>, prevOverride: Option<Bytes>)
      returns (r: Result<Envelope, BuildError>)
      modifies this
      ensures r.Failure? <==> sender !in crew.ids || receiver !in crew.ids
      ensures r.Failure? ==> bySender == old(bySender)
      ensures r.Success? ==>
                r.value == EnvelopeFor(c, crew, receiver, old(bySender), sender, payload, ts, seqOverride, prevOverride)
      ensures r.Success? ==>
                var st := Tracked(c, StateOf(old(bySender), sender), r.value, seqOverride, prevOverride);
                bySender == old(bySender)[sender := st]
      ensures r.Success? ==>
                var before, after := StateOf(old(bySender), sender), StateOf(bySender, sender);
                var seqNo := if seqOverride.Some? then seqOverride.value else before.seqNo;
                var prev := if prevOverride.Some? then prevOverride.value else before.lastDigest;
                && r.value == Envelope(crew.session(sender), crew.task(sender), seqNo, crew.ids[sender],
                                       crew.ids[receiver], Request, c.hash(payload), None, prev, ts)
                && after.seqNo == (if seqOverride.Some? then before.seqNo else before.seqNo + 1)
                && after.lastDigest == (if seqOverride.Some? || prevOverride.Some? then before.lastDigest
                                        else c.hash(c.encode(r.value)))
    {
      if sender !in crew.ids || receiver !in crew.ids {
        return Failure(KeyError);
      }
      if sender !in bySender {
        bySender := bySender[sender := NEW_SENDER];
      }
      var st := bySender[sender];
      var seqNo := if seqOverride.Some? then seqOverride.value else st.seqNo;
      var prevHash := if prevOverride.Some? then prevOverride.value else st.lastDigest;
      var env := Envelope(crew.session(sender), crew.task(sender), seqNo, crew.ids[sender], crew.ids[receiver],
                          Request, c.hash(payload), None, prevHash, ts);
      if seqOverride.None? {
        st := st.(seqNo := seqNo + 1);
      }
      if prevOverride.None? && seqOverride.None? {
        st := st.(lastDigest := c.DigestOf(env));
      }
      bySender := bySender[sender := st];
      return Success(env);
    }
  }

  // ---------------------------------------------------------------------
  // Builder and receiver together
  // ---------------------------------------------------------------------

  /** A message built without overrides and delivered with anything else attached; or built and
      lost on the way. */
  datatype Send = Send(sender: string, payload: Bytes, ts: real, signature: Bytes, capability: Option<SignedCapability>,
                       scope: string, isDelegation: bool, clock: Clock, lost: bool)

  datatype World = World(senders: Senders, mw: MwState)

  function Sent(cfg: Config, crew: Crew, receiver: string, w: World, send: Send): Inbound
    requires send.sender in crew.ids && receiver in crew.ids
  {
    var env := EnvelopeFor(cfg.crypto, crew, receiver, w.senders, send.sender, send.payload, send.ts, None, None);
    Inbound(SignedEnvelope(env, send.signature), send.payload, send.capability, send.scope, send.isDelegation,
            send.clock)
  }

  function Exchange(cfg: Config, crew: Crew, receiver: string, w: World, send: Send): World
    requires send.sender in crew.ids && receiver in crew.ids
  {
    var m := Sent(cfg, crew, receiver, w, send);
    var st := Tracked(cfg.crypto, StateOf(w.senders, send.sender), m.signed.envelope, None, None);
    World(w.senders[send.sender := st], if send.lost then w.mw else Handle(cfg, w.mw, m).0)
  }

  /** The receiver's chain of `sender` stands exactly where the sender believes it stands. */
  predicate InStepWith(crew: Crew, w: World, sender: string)
    requires sender in crew.ids
  {
    var st := StateOf(w.senders, sender);
    At(w.mw.gate.chains, crew.KeyFor(sender)) == ChainState(st.lastDigest, st.seqNo - 1)
  }

  /** Whether a message gets as far as `chain.accept`: it is not lost, and known, correctly signed,
      unaltered, fresh and addressed to this receiver. */
  ghost predicate Reaches(cfg: Config, crew: Crew, receiver: string, w: World, send: Send)
    requires send.sender in crew.ids && receiver in crew.ids
  {
    !send.lost && ReachesChain(cfg, w.mw, Sent(cfg, crew, receiver, w, send))
  }

  /** Whether the chain of the receiver would take a message. */
  ghost predicate Passes(cfg: Config, crew: Crew, receiver: string, w: World, send: Send)
    requires send.sender in crew.ids && receiver in crew.ids
  {
    ChainFault(w.mw.gate.chains, Sent(cfg, crew, receiver, w, send).signed.envelope).None?
  }

  /** What one exchange does to the receiver's chains. */
  lemma {:induction false} ChainsAfter(cfg: Config, crew: Crew, receiver: string, w: World, send: Send)
    requires send.sender in crew.ids && receiver in crew.ids
    ensures var env := Sent(cfg, crew, receiver, w, send).signed.envelope;
            Exchange(cfg, crew, receiver, w, send).mw.gate.chains
            == if Reaches(cfg, crew, receiver, w, send) then Advance(cfg.crypto, w.mw.gate.chains, env)
               else w.mw.gate.chains
  {
    CallHasEffect(cfg, w.mw, Sent(cfg, crew, receiver, w, send));
  }

  /** A message that reaches the chain keeps its sender and the receiver in step and meets no chain
      fault, whatever the capability gate and everything behind it decide. */
  lemma {:induction false} LockStep(cfg: Config, crew: Crew, receiver: string, w: World, send: Send)
    requires send.sender in crew.ids && receiver in crew.ids
    requires InStepWith(crew, w, send.sender)
    ensures Passes(cfg, crew, receiver, w, send)
    ensures Reaches(cfg, crew, receiver, w, send) ==>
              InStepWith(crew, Exchange(cfg, crew, receiver, w, send), send.sender)
  {
    ChainsAfter(cfg, crew, receiver, w, send);
  }

  /** The messages of one sender move only its own state and its own chain. */
  lemma {:induction false} OthersUntouched(
    cfg: Config, crew: Crew, receiver: string, w: World, send: Send, sender: string)
    requires send.sender in crew.ids && receiver in crew.ids && sender in crew.ids && crew.SeparateChains()
    requires send.sender != sender
    ensures var after := Exchange(cfg, crew, receiver, w, send);
            && StateOf(after.senders, sender) == StateOf(w.senders, sender)
            && At(after.mw.gate.chains, crew.KeyFor(sender)) == At(w.mw.gate.chains, crew.KeyFor(sender))
  {
    assert crew.KeyFor(sender) != crew.KeyFor(send.sender);
    ChainsAfter(cfg, crew, receiver, w, send);
  }

  // ---------------------------------------------------------------------
  // Whole plays
  // ---------------------------------------------------------------------

  ghost predicate Playable(crew: Crew, receiver: string, sends: seq<Send>) {
    receiver in crew.ids && forall send :: send in sends ==> send.sender in crew.ids
  }

  function Play(cfg: Config, crew: Crew, receiver: string, start: World, sends: seq<Send>): World
    requires Playable(crew, receiver, sends)
  {
    if sends == [] then start
    else Exchange(cfg, crew, receiver, Play(cfg, crew, receiver, start, sends[..|sends| - 1]), sends[|sends| - 1])
  }

  lemma {:induction false} PlayStep(
    cfg: Config, crew: Crew, receiver: string, start: World, sends: seq<Send>, n: nat)
    requires Playable(crew, receiver, sends) && n < |sends|
    ensures Play(cfg, crew, receiver, start, sends[..n + 1])
            == Exchange(cfg, crew, receiver, Play(cfg, crew, receiver, start, sends[..n]), sends[n])
  {
    assert sends[..n + 1][..n] == sends[..n];
  }

  /** Message `i` of a play. */
  function SentAt(cfg: Config, crew: Crew, receiver: string, start: World, sends: seq<Send>, i: nat): Inbound
    requires Playable(crew, receiver, sends) && i < |sends|
  {
    Sent(cfg, crew, receiver, Play(cfg, crew, receiver, start, sends[..i]), sends[i])
  }

  ghost predicate ReachesAt(cfg: Config, crew: Crew, receiver: string, start: World, sends: seq<Send>, i: nat)
    requires Playable(crew, receiver, sends)
  {
    i < |sends| && Reaches(cfg, crew, receiver, Play(cfg, crew, receiver, start, sends[..i]), sends[i])
  }

  ghost predicate PassesAt(cfg: Config, crew: Crew, receiver: string, start: World, sends: seq<Send>, i: nat)
    requires Playable(crew, receiver, sends)
  {
    i < |sends| && Passes(cfg, crew, receiver, Play(cfg, crew, receiver, start, sends[..i]), sends[i])
  }

  /** Every message of `sender` before number `n` has reached the chain. */
  ghost predicate NoneMissed(
    cfg: Config, crew: Crew, receiver: string, start: World, sends: seq<Send>, n: nat, sender: string)
    requires Playable(crew, receiver, sends)
  {
    forall i: nat :: i < n && i < |sends| && sends[i].sender == sender ==>
                       ReachesAt(cfg, crew, receiver, start, sends, i)
  }

  /** One step of a play keeps `sender` in step if its own message, if it is one, reaches the chain. */
  lemma {:induction false} StaysInStep(
    cfg: Config, crew: Crew, receiver: string, w: World, send: Send, sender: string)
    requires send.sender in crew.ids && receiver in crew.ids && sender in crew.ids && crew.SeparateChains()
    requires InStepWith(crew, w, sender)
    requires send.sender == sender ==> Reaches(cfg, crew, receiver, w, send)
    ensures InStepWith(crew, Exchange(cfg, crew, receiver, w, send), sender)
  {
    if send.sender == sender {
      LockStep(cfg, crew, receiver, w, send);
    } else {
      OthersUntouched(cfg, crew, receiver, w, send, sender);
    }
  }

  /** As long as none of its messages is missed, a sender's next number and head are the receiver's,
      whatever happens to the messages of other senders. */
  lemma {:induction false} InStepAlong(
    cfg: Config, crew: Crew, receiver: string, start: World, sends: seq<Send>, n: nat, sender: string)
    requires Playable(crew, receiver, sends) && sender in crew.ids && crew.SeparateChains() && n <= |sends|
    requires InStepWith(crew, start, sender) && NoneMissed(cfg, crew, receiver, start, sends, n, sender)
    ensures InStepWith(crew, Play(cfg, crew, receiver, start, sends[..n]), sender)
    decreases n
  {
    if n > 0 {
      InStepAlong(cfg, crew, receiver, start, sends, n - 1, sender);
      PlayStep(cfg, crew, receiver, start, sends, n - 1);
      if sends[n - 1].sender == sender {
        assert ReachesAt(cfg, crew, receiver, start, sends, n - 1);
      }
      var w := Play(cfg, crew, receiver, start, sends[..n - 1]);
      StaysInStep(cfg, crew, receiver, w, sends[n - 1], sender);
    }
  }

  /** Messages built without overrides and delivered in order never meet a chain fault, for every
      interleaving of senders and whatever happens to the messages of other senders. */
  lemma {:induction false} HonestTrafficPasses(
    cfg: Config, crew: Crew, receiver: string, start: World, sends: seq<Send>, j: nat)
    requires Playable(crew, receiver, sends) && crew.SeparateChains() && j < |sends|
    requires InStepWith(crew, start, sends[j].sender)
    requires NoneMissed(cfg, crew, receiver, start, sends, j, sends[j].sender)
    ensures InStepWith(crew, Play(cfg, crew, receiver, start, sends[..j]), sends[j].sender)
    ensures PassesAt(cfg, crew, receiver, start, sends, j)
  {
    InStepAlong(cfg, crew, receiver, start, sends, j, sends[j].sender);
    LockStep(cfg, crew, receiver, Play(cfg, crew, receiver, start, sends[..j]), sends[j]);
  }

  // ---------------------------------------------------------------------
  // The replay guard
  // ---------------------------------------------------------------------

  /** All envelopes of a play are among `history`. */
  ghost predicate PlayedIn(
    cfg: Config, crew: Crew, receiver: string, start: World, sends: seq<Send>, history: set<Envelope>)
    requires Playable(crew, receiver, sends)
  {
    forall i: nat :: i < |sends| ==> BuiltIn(cfg, crew, receiver, start, sends, i, history)
  }

  ghost predicate BuiltIn(
    cfg: Config, crew: Crew, receiver: string, start: World, sends: seq<Send>, i: nat, history: set<Envelope>)
    requires Playable(crew, receiver, sends)
  {
    i < |sends| && SentAt(cfg, crew, receiver, start, sends, i).signed.envelope in history
  }

  /** The receiver's gate is that of some run over envelopes of the play. */
  lemma {:induction false} PlayGate(
    cfg: Config, crew: Crew, receiver: string, start: World, sends: seq<Send>, n: nat, history: set<Envelope>)
    returns (envs: seq<Envelope>)
    requires Playable(crew, receiver, sends) && n <= |sends|
    requires start.mw.gate == FRESH_GATE && PlayedIn(cfg, crew, receiver, start, sends, history)
    ensures Play(cfg, crew, receiver, start, sends[..n]).mw.gate == RunGate(cfg.crypto, envs)
    ensures forall e :: e in envs ==> e in history
    decreases n
  {
    if n == 0 {
      envs := [];
    } else {
      var before := PlayGate(cfg, crew, receiver, start, sends, n - 1, history);
      envs := before;
      PlayStep(cfg, crew, receiver, start, sends, n - 1);
      if !sends[n - 1].lost {
        var step := Receive(SentAt(cfg, crew, receiver, start, sends, n - 1));
        var s := Play(cfg, crew, receiver, start, sends[..n - 1]).mw;
        GateStep(cfg, s, step, before);
        envs := before + ReachedNow(cfg, s, step);
        assert BuiltIn(cfg, crew, receiver, start, sends, n - 1, history);
      }
    }
  }

  /** Nor does the replay guard of a fresh receiver refuse a message that reaches it, unless two built
      envelopes collide: all checks up to the capability gate pass. */
  lemma {:induction false} HonestTrafficIsNoReplay(
    cfg: Config, crew: Crew, receiver: string, start: World, sends: seq<Send>, j: nat, history: set<Envelope>)
    requires Playable(crew, receiver, sends) && crew.SeparateChains() && j < |sends|
    requires InStepWith(crew, start, sends[j].sender) && start.mw.gate == FRESH_GATE
    requires NoneMissed(cfg, crew, receiver, start, sends, j, sends[j].sender)
    requires ReachesAt(cfg, crew, receiver, start, sends, j)
    requires PlayedIn(cfg, crew, receiver, start, sends, history) && cfg.crypto.DigestsDistinct(history)
    ensures PassesGate(cfg, Play(cfg, crew, receiver, start, sends[..j]).mw,
                       SentAt(cfg, crew, receiver, start, sends, j))
  {
    HonestTrafficPasses(cfg, crew, receiver, start, sends, j);
    assert BuiltIn(cfg, crew, receiver, start, sends, j, history);
    var envs := PlayGate(cfg, crew, receiver, start, sends, j, history);
    LinkedMessagePasses(cfg, Play(cfg, crew, receiver, start, sends[..j]).mw,
                        SentAt(cfg, crew, receiver, start, sends, j), envs, history);
  }

  // ---------------------------------------------------------------------
  // A missed message
  // ---------------------------------------------------------------------

  /** The receiver waits for a digest that the sender has left behind: its head is genesis or an
      older envelope's digest, and not what the sender will name next. */
  ghost predicate OutOfStep(c: Crypto, crew: Crew, w: World, sender: string, history: set<Envelope>)
    requires sender in crew.ids
  {
    var st := StateOf(w.senders, sender);
    var head := At(w.mw.gate.chains, crew.KeyFor(sender)).lastHash;
    && head != st.lastDigest
    && (head == GENESIS || exists e :: OldHead(c, history, e, st.seqNo, head))
  }

  ghost predicate OldHead(c: Crypto, history: set<Envelope>, e: Envelope, next: nat, head: Digest) {
    e in history && e.seqNo < next && c.DigestOf(e) == head
  }

  /** The sender's last digest is genesis or that of an envelope it has built. */
  ghost predicate BuiltHead(c: Crypto, w: World, sender: string, history: set<Envelope>) {
    var st := StateOf(w.senders, sender);
    st.lastDigest == GENESIS || exists e :: OldHead(c, history, e, st.seqNo, st.lastDigest)
  }

  /** A message that does not reach the chain, lost or refused before it, puts its sender out of step. */
  lemma {:induction false} MissBreaksStep(
    cfg: Config, crew: Crew, receiver: string, w: World, send: Send, history: set<Envelope>)
    requires send.sender in crew.ids && receiver in crew.ids && !Reaches(cfg, crew, receiver, w, send)
    requires InStepWith(crew, w, send.sender) && BuiltHead(cfg.crypto, w, send.sender, history)
    requires Sent(cfg, crew, receiver, w, send).signed.envelope in history
    requires cfg.crypto.DigestsDistinct(history) && cfg.crypto.DigestsMissGenesis(history)
    ensures OutOfStep(cfg.crypto, crew, Exchange(cfg, crew, receiver, w, send), send.sender, history)
  {
    ChainsAfter(cfg, crew, receiver, w, send);
    var st := StateOf(w.senders, send.sender);
    if st.lastDigest != GENESIS {
      var e :| OldHead(cfg.crypto, history, e, st.seqNo, st.lastDigest);
      assert OldHead(cfg.crypto, history, e, st.seqNo + 1, st.lastDigest);
    }
  }

  /** And that is permanent: every later message of that sender is refused by the chain if it gets
      there, leaves the receiver's head where it was, and keeps them out of step. */
  lemma {:induction false} MissIsPermanent(
    cfg: Config, crew: Crew, receiver: string, w: World, send: Send, history: set<Envelope>)
    requires send.sender in crew.ids && receiver in crew.ids
    requires OutOfStep(cfg.crypto, crew, w, send.sender, history)
    requires Sent(cfg, crew, receiver, w, send).signed.envelope in history
    requires cfg.crypto.DigestsDistinct(history) && cfg.crypto.DigestsMissGenesis(history)
    ensures !Passes(cfg, crew, receiver, w, send)
    ensures OutOfStep(cfg.crypto, crew, Exchange(cfg, crew, receiver, w, send), send.sender, history)
  {
    var env := Sent(cfg, crew, receiver, w, send).signed.envelope;
    var st := StateOf(w.senders, send.sender);
    var head := At(w.mw.gate.chains, crew.KeyFor(send.sender)).lastHash;
    ChainsAfter(cfg, crew, receiver, w, send);
    if head != GENESIS {
      var e :| OldHead(cfg.crypto, history, e, st.seqNo, head);
      assert OldHead(cfg.crypto, history, e, st.seqNo + 1, head);
      assert e != env;
    }
  }

  /** Messages of other senders change nothing about that. */
  lemma {:induction false} StaysOutOfStep(
    cfg: Config, crew: Crew, receiver: string, w: World, send: Send, sender: string, history: set<Envelope>)
    requires send.sender in crew.ids && receiver in crew.ids && sender in crew.ids && crew.SeparateChains()
    requires OutOfStep(cfg.crypto, crew, w, sender, history)
    requires Sent(cfg, crew, receiver, w, send).signed.envelope in history
    requires cfg.crypto.DigestsDistinct(history) && cfg.crypto.DigestsMissGenesis(history)
    ensures OutOfStep(cfg.crypto, crew, Exchange(cfg, crew, receiver, w, send), sender, history)
  {
    if send.sender == sender {
      MissIsPermanent(cfg, crew, receiver, w, send, history);
    } else {
      OthersUntouched(cfg, crew, receiver, w, send, sender);
    }
  }

  lemma {:induction false} BuiltHeadStep(c: Crypto, st: SenderState, env: Envelope, history: set<Envelope>)
    requires env in history && env.seqNo == st.seqNo
    ensures var next := Tracked(c, st, env, None, None); OldHead(c, history, env, next.seqNo, next.lastDigest)
  {
  }

  lemma {:induction false} BuiltHeadExchange(
    cfg: Config, crew: Crew, receiver: string, w: World, send: Send, sender: string, history: set<Envelope>)
    requires send.sender in crew.ids && receiver in crew.ids
    requires BuiltHead(cfg.crypto, w, sender, history)
    requires Sent(cfg, crew, receiver, w, send).signed.envelope in history
    ensures BuiltHead(cfg.crypto, Exchange(cfg, crew, receiver, w, send), sender, history)
  {
    var env := Sent(cfg, crew, receiver, w, send).signed.envelope;
    var before, after := StateOf(w.senders, sender), StateOf(Exchange(cfg, crew, receiver, w, send).senders, sender);
    if send.sender == sender {
      assert after == Tracked(cfg.crypto, before, env, None, None);
      BuiltHeadStep(cfg.crypto, before, env, history);
    } else {
      assert after == before;
    }
  }

  /** Where a sender stands: in step as long as none of its messages is missed, and out of step for
      ever after. */
  ghost predicate Stands(
    cfg: Config, crew: Crew, receiver: string, start: World, sends: seq<Send>, n: nat, sender: string,
    history: set<Envelope>)
    requires Playable(crew, receiver, sends) && sender in crew.ids && n <= |sends|
  {
    var w := Play(cfg, crew, receiver, start, sends[..n]);
    && BuiltHead(cfg.crypto, w, sender, history)
    && if NoneMissed(cfg, crew, receiver, start, sends, n, sender) then InStepWith(crew, w, sender)
       else OutOfStep(cfg.crypto, crew, w, sender, history)
  }

  /** One exchange, from where a sender stands to where it stands next. */
  lemma {:induction false} StandsAfter(
    cfg: Config, crew: Crew, receiver: string, w: World, send: Send, sender: string, inStep: bool,
    history: set<Envelope>)
    requires send.sender in crew.ids && receiver in crew.ids && sender in crew.ids && crew.SeparateChains()
    requires Sent(cfg, crew, receiver, w, send).signed.envelope in history
    requires cfg.crypto.DigestsDistinct(history) && cfg.crypto.DigestsMissGenesis(history)
    requires BuiltHead(cfg.crypto, w, sender, history)
    requires if inStep then InStepWith(crew, w, sender) else OutOfStep(cfg.crypto, crew, w, sender, history)
    ensures var after := Exchange(cfg, crew, receiver, w, send);
            if inStep && (send.sender == sender ==> Reaches(cfg, crew, receiver, w, send))
            then InStepWith(crew, after, sender) else OutOfStep(cfg.crypto, crew, after, sender, history)
  {
    if !inStep {
      StaysOutOfStep(cfg, crew, receiver, w, send, sender, history);
    } else if send.sender == sender ==> Reaches(cfg, crew, receiver, w, send) {
      StaysInStep(cfg, crew, receiver, w, send, sender);
    } else {
      MissBreaksStep(cfg, crew, receiver, w, send, history);
    }
  }

  lemma {:induction false} NoneMissedStep(
    cfg: Config, crew: Crew, receiver: string, start: World, sends: seq<Send>, n: nat, sender: string)
    requires Playable(crew, receiver, sends) && n < |sends|
    ensures NoneMissed(cfg, crew, receiver, start, sends, n + 1, sender)
            <==> NoneMissed(cfg, crew, receiver, start, sends, n, sender)
                 && (sends[n].sender == sender ==> ReachesAt(cfg, crew, receiver, start, sends, n))
  {
  }

  lemma {:induction false} StandsAlong(
    cfg: Config, crew: Crew, receiver: string, start: World, sends: seq<Send>, n: nat, sender: string,
    history: set<Envelope>)
    requires Playable(crew, receiver, sends) && sender in crew.ids && crew.SeparateChains() && n <= |sends|
    requires InStepWith(crew, start, sender) && BuiltHead(cfg.crypto, start, sender, history)
    requires PlayedIn(cfg, crew, receiver, start, sends, history)
    requires cfg.crypto.DigestsDistinct(history) && cfg.crypto.DigestsMissGenesis(history)
    ensures Stands(cfg, crew, receiver, start, sends, n, sender, history)
    decreases n
  {
    if n > 0 {
      var w, send := Play(cfg, crew, receiver, start, sends[..n - 1]), sends[n - 1];
      StandsAlong(cfg, crew, receiver, start, sends, n - 1, sender, history);
      NoneMissedStep(cfg, crew, receiver, start, sends, n - 1, sender);
      PlayStep(cfg, crew, receiver, start, sends, n - 1);
      assert BuiltIn(cfg, crew, receiver, start, sends, n - 1, history);
      BuiltHeadExchange(cfg, crew, receiver, w, send, sender, history);
      StandsAfter(cfg, crew, receiver, w, send, sender,
                  NoneMissed(cfg, crew, receiver, start, sends, n - 1, sender), history);
    }
  }

  /** For every interleaving of senders, a message passes `chain.accept` if and only if every earlier
      message of its own sender reached the chain, whatever happens to the messages of others. */
  lemma {:induction false} PassesIffNoneMissed(
    cfg: Config, crew: Crew, receiver: string, start: World, sends: seq<Send>, j: nat, history: set<Envelope>)
    requires Playable(crew, receiver, sends) && crew.SeparateChains() && j < |sends|
    requires InStepWith(crew, start, sends[j].sender) && BuiltHead(cfg.crypto, start, sends[j].sender, history)
    requires PlayedIn(cfg, crew, receiver, start, sends, history)
    requires cfg.crypto.DigestsDistinct(history) && cfg.crypto.DigestsMissGenesis(history)
    ensures PassesAt(cfg, crew, receiver, start, sends, j)
            <==> NoneMissed(cfg, crew, receiver, start, sends, j, sends[j].sender)
  {
    var w := Play(cfg, crew, receiver, start, sends[..j]);
    StandsAlong(cfg, crew, receiver, start, sends, j, sends[j].sender, history);
    assert BuiltIn(cfg, crew, receiver, start, sends, j, history);
    if NoneMissed(cfg, crew, receiver, start, sends, j, sends[j].sender) {
      LockStep(cfg, crew, receiver, w, sends[j]);
    } else {
      MissIsPermanent(cfg, crew, receiver, w, sends[j], history);
    }
  }

  /** A new sender is in step with a receiver that has never heard of it. */
  lemma {:induction false} NewSendersAreInStep(
    cfg: Config, crew: Crew, w: World, sender: string, history: set<Envelope>)
    requires sender in crew.ids && sender !in w.senders && crew.KeyFor(sender) !in w.mw.gate.chains
    ensures InStepWith(crew, w, sender) && BuiltHead(cfg.crypto, w, sender, history)
  {
  }

  /** One missed message silences its sender: no later message of that sender is ever accepted. */
  lemma {:induction false} MissedMessageSilencesSender(
    cfg: Config, crew: Crew, receiver: string, start: World, sends: seq<Send>, i: nat, j: nat,
    history: set<Envelope>)
    requires Playable(crew, receiver, sends) && crew.SeparateChains() && i < j < |sends|
    requires sends[i].sender == sends[j].sender && !ReachesAt(cfg, crew, receiver, start, sends, i)
    requires InStepWith(crew, start, sends[j].sender) && BuiltHead(cfg.crypto, start, sends[j].sender, history)
    requires PlayedIn(cfg, crew, receiver, start, sends, history)
    requires cfg.crypto.DigestsDistinct(history) && cfg.crypto.DigestsMissGenesis(history)
    ensures var w := Play(cfg, crew, receiver, start, sends[..j]);
            !Handle(cfg, w.mw, SentAt(cfg, crew, receiver, start, sends, j)).1.Accepted?
  {
    PassesIffNoneMissed(cfg, crew, receiver, start, sends, j, history);
    CallHasEffect(cfg, Play(cfg, crew, receiver, start, sends[..j]).mw,
                  SentAt(cfg, crew, receiver, start, sends, j));
  }
}
