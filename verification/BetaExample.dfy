/** A configuration that only pushed payloads can bring to isolation, and a crew that does. */
module BetaExample {
  import opened Primitives
  import opened Envelopes
  import opened Capabilities
  import opened RiskScore
  import opened ScopeReduction
  import opened Middlewares
  import opened MiddlewareRuns
  import opened Materialize
  import opened EndToEnd
  import opened Isolation
  import opened Pushers
  import Glob

  /** `k` ones and then zeros. */
  function Tally(k: int): Digest {
    seq(HASH_SIZE, i requires 0 <= i < HASH_SIZE => if i < k then 1 else 0)
  }

  lemma {:induction false} TalliesDiffer(k: nat, l: nat)
    requires k < l <= HASH_SIZE
    ensures Tally(k) != Tally(l)
  {
    assert Tally(k)[k] == 0 && Tally(l)[k] == 1;
  }

  function KeepDigests(x: Bytes): Digest {
    if |x| == HASH_SIZE then x else GENESIS
  }

  /** Envelopes are told apart by their times. */
  function EncodeTime(env: Envelope): Bytes {
    Tally(env.timestamp.Floor)
  }

  const ME: Bytes := [0]

  const CRYPTO := Crypto(KeepDigests, (m, signature, key) => true, EncodeTime)

  const ENFORCER := Enforcer((cap: Capability) => GENESIS, (m, signature, key) => true, (body, c) => false, [[]])

  /** The defaults, but for a beta of 2. */
  const CONFIG := Config(ME, CRYPTO, ENFORCER, DEFAULT_WEIGHTS.(beta := 2.0), DEFAULT_THRESHOLDS, 3,
                         (event: AuditEvent) => [])

  const CREW := Crew(map["a" := [1], "b" := [2], "c" := [3], "receiver" := ME],
                     (name: string) => [], (name: string) => [])

  const PEERS: map<Bytes, Bytes> := map[[1] := [], [2] := [], [3] := []]

  /** Three senders in turn, and then the third alone. */
  function NameAt(i: nat): string {
    if i == 0 then "a" else if i == 1 then "b" else "c"
  }

  function IdAt(i: nat): Bytes {
    if i == 0 then [1] else if i == 1 then [2] else [3]
  }

  function TokenFor(id: Bytes): SignedCapability {
    SignedCapability(
      Capability([], "", id, ME, [], ["scope"], Constraints(None, [], [], false), 600.0, 0.0, []), [], [])
  }

  function SendAt(i: nat): Send {
    Send(NameAt(i), [], i as real, [], Some(TokenFor(IdAt(i))), "scope", false, Clock(i as real, 0.0, 0.0), false)
  }

  const SENDS: seq<Send> := seq(10, i requires 0 <= i < 10 => SendAt(i))

  lemma {:induction false} ExampleIsPlayable()
    ensures Playable(CREW, "receiver", SENDS) && CREW.SeparateChains()
  {
    forall send | send in SENDS ensures send.sender in CREW.ids {
      var i: nat :| i < |SENDS| && SENDS[i] == send;
    }
  }

  lemma {:induction false} ExampleNames(i: nat)
    requires i < 10
    ensures NameAt(i) in CREW.ids && CREW.ids[NameAt(i)] == IdAt(i) && SENDS[i] == SendAt(i)
  {
  }

  lemma {:induction false} TokenPasses(id: Bytes)
    ensures ENFORCER.Check(TokenFor(id), ActionRequest(id, ME, [], "scope", None, None, None, false), 0.0) == None
  {
    Glob.MatchesItself(ENFORCER.cls, "scope");
    assert "scope" in ["scope"];
    assert [] in ENFORCER.trusted;
  }

  lemma {:induction false} ExamplePasses(w: World, send: Send, i: nat)
    requires i < 10 && send == SendAt(i) && "receiver" in CREW.ids
    requires send.sender in CREW.ids && CREW.ids[send.sender] == IdAt(i)
    ensures PassesCapability(CONFIG, Sent(CONFIG, CREW, "receiver", w, send))
  {
    TokenPasses(IdAt(i));
    assert Sent(CONFIG, CREW, "receiver", w, send).Request(ME)
           == ActionRequest(IdAt(i), ME, [], "scope", None, None, None, false);
  }

  lemma {:induction false} ExampleIsWellSent(w: World, send: Send, i: nat)
    requires i < 10 && send == SendAt(i) && "receiver" in CREW.ids
    requires send.sender in CREW.ids && CREW.ids[send.sender] == IdAt(i)
    ensures WellSent(CONFIG, CREW, "receiver", PEERS, w, send)
  {
    assert CREW.ids["receiver"] == ME;
  }

  lemma {:induction false} ExamplePushAt(sends: seq<Send>, i: nat)
    requires Playable(CREW, "receiver", sends) && i < |sends| && i < 10 && sends[i] == SendAt(i)
    requires CREW.ids[sends[i].sender] == IdAt(i)
    ensures PushAt(CONFIG, CREW, "receiver", Beginning(PEERS), sends, [], i)
  {
    var w := Play(CONFIG, CREW, "receiver", Beginning(PEERS), sends[..i]);
    ExamplePasses(w, sends[i], i);
    ExampleIsWellSent(w, sends[i], i);
  }

  lemma {:induction false} ExamplePushes()
    requires Playable(CREW, "receiver", SENDS)
    ensures AllPush(CONFIG, CREW, "receiver", Beginning(PEERS), SENDS, [])
  {
    forall i: nat | i < |SENDS| ensures PushAt(CONFIG, CREW, "receiver", Beginning(PEERS), SENDS, [], i) {
      ExampleNames(i);
      ExamplePushAt(SENDS, i);
    }
  }

  lemma {:induction false} DigestAt(i: nat)
    requires Playable(CREW, "receiver", SENDS) && i < 10
    ensures var env := SentAt(CONFIG, CREW, "receiver", Beginning(PEERS), SENDS, i).signed.envelope;
            CRYPTO.DigestOf(env) == Tally(i)
  {
    var env := SentAt(CONFIG, CREW, "receiver", Beginning(PEERS), SENDS, i).signed.envelope;
    assert env.timestamp == i as real;
  }

  lemma {:induction false} ExampleDigests()
    requires Playable(CREW, "receiver", SENDS)
    ensures CRYPTO.DigestsDistinct(Built(CONFIG, CREW, "receiver", Beginning(PEERS), SENDS))
  {
    var envs := Built(CONFIG, CREW, "receiver", Beginning(PEERS), SENDS);
    forall a, b | a in envs && b in envs && CRYPTO.DigestOf(a) == CRYPTO.DigestOf(b) ensures a == b {
      var i: nat :| i < 10 && a == SentAt(CONFIG, CREW, "receiver", Beginning(PEERS), SENDS, i).signed.envelope;
      var j: nat :| j < 10 && b == SentAt(CONFIG, CREW, "receiver", Beginning(PEERS), SENDS, j).signed.envelope;
      DigestAt(i);
      DigestAt(j);
      if i < j {
        TalliesDiffer(i, j);
      } else if j < i {
        TalliesDiffer(j, i);
      }
    }
  }

  lemma {:induction false} OneMorePush(decay: real, x: real, n: nat)
    ensures RiskAfter(decay, 0.0, Repeat(x, n + 1)) == decay * RiskAfter(decay, 0.0, Repeat(x, n)) + x
  {
    assert Repeat(x, n + 1) == Repeat(x, n) + [x];
    RiskAfterAppend(decay, 0.0, Repeat(x, n), x);
  }

  /** Seven charges of 2 under a decay of 0.9. */
  lemma {:induction false} SevenPushes()
    ensures ReachedBy(0.9, 2.0, 10.0, 7)
  {
    assert Repeat(2.0, 0) == [];
    OneMorePush(0.9, 2.0, 0);
    OneMorePush(0.9, 2.0, 1);
    OneMorePush(0.9, 2.0, 2);
    OneMorePush(0.9, 2.0, 3);
    OneMorePush(0.9, 2.0, 4);
    OneMorePush(0.9, 2.0, 5);
    OneMorePush(0.9, 2.0, 6);
  }

  /** With the default alpha and thresholds no charge but beta can isolate anyone; with a beta of 2 and
      this crew it does. */
  lemma {:induction false} BetaIsolates()
    ensures CONFIG.weights.Valid() && CONFIG.thresholds.Valid()
    ensures BetaDecides(CONFIG.weights, CONFIG.thresholds.tau4) && PeersCanPushEnough(CONFIG)
    ensures IsolationPossible(CONFIG)
  {
    ExampleIsPlayable();
    ExamplePushes();
    ExampleDigests();
    SevenPushes();
    FirstThree();
    CrewPushes(CONFIG, CREW, "receiver", PEERS, SENDS, [], 3);
    IsolationPossibleIff(CONFIG, SentAt(CONFIG, CREW, "receiver", Beginning(PEERS), SENDS, 0));
  }

  lemma {:induction false} FirstThree()
    requires Playable(CREW, "receiver", SENDS)
    ensures |FirstSenders(CREW, SENDS, 3)| >= 3
  {
    assert SENDS[0].sender == "a" && SENDS[1].sender == "b" && SENDS[2].sender == "c";
    var ids: set<Bytes> := {[1], [2], [3]};
    assert CREW.ids[SENDS[0].sender] == [1] && CREW.ids[SENDS[1].sender] == [2] && CREW.ids[SENDS[2].sender] == [3];
    assert |ids| == 3;
    SubsetSize(ids, FirstSenders(CREW, SENDS, 3));
  }

  /** The same receiver without the trusted key isolates nobody. */
  lemma {:induction false} TrustDecides(m: Inbound)
    ensures !IsolationPossible(CONFIG.(enforcer := ENFORCER.(trusted := [])))
  {
    var distrusting := CONFIG.(enforcer := ENFORCER.(trusted := []));
    NobodyPushesWithoutTrust(distrusting);
    IsolationWithoutPushesIff(distrusting, m);
  }
}
