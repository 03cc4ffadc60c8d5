/** The chain tracker and the replay guard in sequence, over whole runs
    (`cgatc/a2a_integration/middleware.py:154-161`). */
module Delivery {
  import opened Primitives
  import opened Exceptions
  import opened Envelopes
  import opened Chain
  import opened Replay

  datatype Gate = Gate(chains: Chains, seen: Seen)

  const FRESH_GATE := Gate(map[], NOTHING_SEEN)

  /** `chain.accept`, then `replay.check_and_record` if that succeeded. */
  function Offer(c: Crypto, g: Gate, env: Envelope): (Gate, Option<Exc>) {
    var chains := Advance(c, g.chains, env);
    if ChainFault(g.chains, env).Some? then (Gate(chains, g.seen), ChainFault(g.chains, env))
    else if IsReplay(c, g.seen, env) then (Gate(chains, Record(c, g.seen, env)), Some(ReplayError))
    else (Gate(chains, Record(c, g.seen, env)), None)
  }

  /** The gate after the envelopes `envs`, offered in order to a fresh gate. */
  function RunGate(c: Crypto, envs: seq<Envelope>): Gate {
    if envs == [] then FRESH_GATE
    else Offer(c, RunGate(c, envs[..|envs| - 1]), envs[|envs| - 1]).0
  }

  /** Whether the last of `envs` extends its chain. */
  predicate LastExtends(c: Crypto, envs: seq<Envelope>)
    requires envs != []
  {
    ChainFault(RunGate(c, envs[..|envs| - 1]).chains, envs[|envs| - 1]).None?
  }

  /** The envelopes of `key` that extended its chain, oldest first. */
  function History(c: Crypto, envs: seq<Envelope>, key: Key): seq<Envelope> {
    if envs == [] then []
    else
      History(c, envs[..|envs| - 1], key)
      + if KeyOf(envs[|envs| - 1]) == key && LastExtends(c, envs) then [envs[|envs| - 1]] else []
  }

  /** The chain state that a history leaves behind. */
  function HeadOf(c: Crypto, history: seq<Envelope>): ChainState {
    if history == [] then FRESH_CHAIN
    else ChainState(c.DigestOf(history[|history| - 1]), history[|history| - 1].seqNo)
  }

  /** Envelope `i` names the digest of its predecessor, or genesis. */
  ghost predicate LinkAt(c: Crypto, history: seq<Envelope>, i: nat) {
    i < |history| && history[i].prevHash == HeadOf(c, history[..i]).lastHash
  }

  /** Every envelope names its predecessor and has a larger sequence number. */
  ghost predicate Linked(c: Crypto, history: seq<Envelope>) {
    && (forall i: nat :: i < |history| ==> LinkAt(c, history, i))
    && (forall i, j :: 0 <= i < j < |history| ==> history[i].seqNo < history[j].seqNo)
  }

  // ---------------------------------------------------------------------
  // Causal linkage
  // ---------------------------------------------------------------------

  lemma {:induction false} HistoryStep(c: Crypto, envs: seq<Envelope>, env: Envelope, key: Key)
    ensures RunGate(c, envs + [env]) == Offer(c, RunGate(c, envs), env).0
    ensures History(c, envs + [env], key)
            == History(c, envs, key)
               + if KeyOf(env) == key && ChainFault(RunGate(c, envs).chains, env).None? then [env] else []
  {
    assert (envs + [env])[..|envs|] == envs;
  }

  lemma {:induction false} LinkedAppend(c: Crypto, history: seq<Envelope>, env: Envelope)
    requires Linked(c, history)
    requires env.prevHash == HeadOf(c, history).lastHash && HeadOf(c, history).lastSeq < env.seqNo
    ensures Linked(c, history + [env])
  {
    var longer := history + [env];
    forall i: nat | i < |longer| ensures LinkAt(c, longer, i) {
      if i < |history| {
        assert LinkAt(c, history, i);
        assert longer[..i] == history[..i];
      } else {
        assert longer[..i] == history;
      }
    }
  }

  lemma {:induction false} HistoryMembers(c: Crypto, envs: seq<Envelope>, key: Key, e: Envelope)
    requires e in History(c, envs, key)
    ensures e in envs && KeyOf(e) == key
    decreases |envs|
  {
    var before := envs[..|envs| - 1];
    if e in History(c, before, key) {
      HistoryMembers(c, before, key, e);
    }
  }

  /** What one offer does to a linked history and its head. */
  lemma {:induction false} LinkedStep(c: Crypto, chains: Chains, env: Envelope, key: Key, history: seq<Envelope>)
    requires Linked(c, history) && At(chains, key) == HeadOf(c, history)
    ensures var longer := history + if KeyOf(env) == key && ChainFault(chains, env).None? then [env] else [];
            Linked(c, longer) && At(Advance(c, chains, env), key) == HeadOf(c, longer)
  {
    if KeyOf(env) == key && ChainFault(chains, env).None? {
      LinkedAppend(c, history, env);
    } else {
      assert history + [] == history;
    }
  }

  /** Over every run the chain-accepted envelopes of a key form a linked history, and the tracker
      holds exactly the head of that history. */
  lemma {:induction false} HistoriesAreLinked(c: Crypto, envs: seq<Envelope>, key: Key)
    ensures Linked(c, History(c, envs, key))
    ensures At(RunGate(c, envs).chains, key) == HeadOf(c, History(c, envs, key))
    decreases |envs|
  {
    if envs != [] {
      var before, env := envs[..|envs| - 1], envs[|envs| - 1];
      HistoriesAreLinked(c, before, key);
      LinkedStep(c, RunGate(c, before).chains, env, key, History(c, before, key));
    }
  }

  /** What the tracker takes: over every run an envelope is taken if and only if it links to the history
      of its key, that is, it names the digest of the last envelope taken and has a larger number, however
      much larger; the first may have any number.  Otherwise a number that is not larger is a
      SequenceError, and a wrong link with a larger number a ChainError. */
  lemma {:induction false} TakenIffLinked(c: Crypto, envs: seq<Envelope>, env: Envelope)
    ensures var history, fault := History(c, envs, KeyOf(env)), ChainFault(RunGate(c, envs).chains, env);
            var follows := history == [] || history[|history| - 1].seqNo < env.seqNo;
            var named := if history == [] then GENESIS else c.DigestOf(history[|history| - 1]);
            && (fault == None <==> Linked(c, history + [env]))
            && (fault == None <==> follows && env.prevHash == named)
            && (fault == Some(SequenceError) <==> !follows)
            && (fault == Some(ChainError) <==> follows && env.prevHash != named)
  {
    var history := History(c, envs, KeyOf(env));
    HistoriesAreLinked(c, envs, KeyOf(env));
    if Linked(c, history + [env]) {
      var longer := history + [env];
      assert LinkAt(c, longer, |history|);
      assert longer[..|history|] == history;
      assert history != [] ==> longer[|history| - 1].seqNo < longer[|history|].seqNo;
    } else if ChainFault(RunGate(c, envs).chains, env) == None {
      LinkedAppend(c, history, env);
      assert false;
    }
  }

  /** The history of a key told without the tracker: every envelope of the key that links to what came
      before it. */
  ghost function LinkedSubsequence(c: Crypto, envs: seq<Envelope>, key: Key): seq<Envelope> {
    if envs == [] then []
    else
      var before, env := LinkedSubsequence(c, envs[..|envs| - 1], key), envs[|envs| - 1];
      if env.session == key.session && env.sender == key.sender && Linked(c, before + [env]) then before + [env]
      else before
  }

  lemma {:induction false} HistoryIsLinkedSubsequence(c: Crypto, envs: seq<Envelope>, key: Key)
    ensures History(c, envs, key) == LinkedSubsequence(c, envs, key)
    decreases |envs|
  {
    if envs != [] {
      var before, env := envs[..|envs| - 1], envs[|envs| - 1];
      HistoryIsLinkedSubsequence(c, before, key);
      if KeyOf(env) == key {
        TakenIffLinked(c, before, env);
      }
      assert History(c, before, key) + [] == History(c, before, key);
    }
  }

  /** Gaps are taken: whatever the numbers of two envelopes of a key are, if the second is larger and
      names the first, a fresh tracker takes both and stands at the second. */
  lemma {:induction false} GapsAreTaken(c: Crypto, a: Envelope, b: Envelope)
    requires KeyOf(a) == KeyOf(b) && a.prevHash == GENESIS && b.prevHash == c.DigestOf(a) && a.seqNo < b.seqNo
    ensures History(c, [a, b], KeyOf(a)) == [a, b]
    ensures At(RunGate(c, [a, b]).chains, KeyOf(a)) == ChainState(c.DigestOf(b), b.seqNo)
  {
    assert [a, b][..1] == [a] && [a][..0] == [];
    HistoryStep(c, [], a, KeyOf(a));
    HistoryStep(c, [a], b, KeyOf(a));
    assert [] + [a] == [a] && [a] + [b] == [a, b];
  }

  /** Equal heads imply equal histories: the digest of the last envelope fixes everything that
      was accepted before it, across runs, receivers and keys. */
  lemma {:induction false} EqualHeadsEqualHistories(c: Crypto, r: seq<Envelope>, s: seq<Envelope>)
    requires Linked(c, r) && Linked(c, s)
    requires c.DigestsDistinct((set e | e in r) + (set e | e in s))
    requires c.DigestsMissGenesis((set e | e in r) + (set e | e in s))
    requires HeadOf(c, r).lastHash == HeadOf(c, s).lastHash
    ensures r == s
    decreases |r|
  {
    if r != [] && s != [] {
      var t, u := |r| - 1, |s| - 1;
      assert r[t] == s[u];
      LinkedPrefix(c, r);
      LinkedPrefix(c, s);
      EqualHeadsEqualHistories(c, r[..t], s[..u]);
      LastSplit(r);
      LastSplit(s);
    }
  }

  lemma {:induction false} LinkedPrefix(c: Crypto, r: seq<Envelope>)
    requires Linked(c, r) && r != []
    ensures Linked(c, r[..|r| - 1])
    ensures HeadOf(c, r[..|r| - 1]).lastHash == r[|r| - 1].prevHash
  {
    var p := r[..|r| - 1];
    forall i: nat | i < |p| ensures LinkAt(c, p, i) {
      assert LinkAt(c, r, i);
      assert p[..i] == r[..i];
    }
    assert LinkAt(c, r, |p|);
  }

  /** Two receivers, or one receiver at two times, that hold the same head for some keys have
      accepted the same envelopes in the same order; unless there are none, the keys are the same. */
  lemma {:induction false} SameHeadSameHistory(
    c: Crypto, envs: seq<Envelope>, key: Key, envs': seq<Envelope>, key': Key)
    requires c.DigestsDistinct((set e | e in envs) + (set e | e in envs'))
    requires c.DigestsMissGenesis((set e | e in envs) + (set e | e in envs'))
    requires At(RunGate(c, envs).chains, key).lastHash == At(RunGate(c, envs').chains, key').lastHash
    ensures History(c, envs, key) == History(c, envs', key')
    ensures History(c, envs, key) != [] ==> key == key'
  {
    HistoriesAreLinked(c, envs, key);
    HistoriesAreLinked(c, envs', key');
    var r, s := History(c, envs, key), History(c, envs', key');
    forall e | e in r ensures e in envs {
      HistoryMembers(c, envs, key, e);
    }
    forall e | e in s ensures e in envs' {
      HistoryMembers(c, envs', key', e);
    }
    EqualHeadsEqualHistories(c, r, s);
    if r != [] {
      HistoryMembers(c, envs, key, r[0]);
      HistoryMembers(c, envs', key', s[0]);
    }
  }

  // ---------------------------------------------------------------------
  // The replay guard behind the tracker
  // ---------------------------------------------------------------------

  /** What the guard remembers comes from chain-accepted envelopes. */
  ghost predicate Remembered(c: Crypto, envs: seq<Envelope>) {
    var seen := RunGate(c, envs).seen;
    && (forall key: Key, n: nat :: n in SeqsOf(seen, key) ==> n <= At(RunGate(c, envs).chains, key).lastSeq)
    && (forall d :: d in seen.digests ==> exists e :: AcceptedWithDigest(c, envs, e, d))
  }

  ghost predicate AcceptedWithDigest(c: Crypto, envs: seq<Envelope>, e: Envelope, d: Digest) {
    e in envs && c.DigestOf(e) == d && e.seqNo <= At(RunGate(c, envs).chains, KeyOf(e)).lastSeq
  }

  lemma {:induction false} LastSeqNeverFalls(c: Crypto, envs: seq<Envelope>, env: Envelope, key: Key)
    ensures At(RunGate(c, envs + [env]).chains, key).lastSeq >= At(RunGate(c, envs).chains, key).lastSeq
  {
    HistoryStep(c, envs, env, key);
  }

  lemma {:induction false} SeqsStep(c: Crypto, g: Gate, env: Envelope, key: Key, n: nat)
    requires n in SeqsOf(Offer(c, g, env).0.seen, key)
    requires n in SeqsOf(g.seen, key) ==> n <= At(g.chains, key).lastSeq
    ensures n <= At(Offer(c, g, env).0.chains, key).lastSeq
  {
  }

  lemma {:induction false} DigestsStep(c: Crypto, envs: seq<Envelope>, env: Envelope, d: Digest)
    requires d in RunGate(c, envs + [env]).seen.digests
    requires d in RunGate(c, envs).seen.digests ==> exists e :: AcceptedWithDigest(c, envs, e, d)
    ensures exists e :: AcceptedWithDigest(c, envs + [env], e, d)
  {
    HistoryStep(c, envs, env, KeyOf(env));
    if d in RunGate(c, envs).seen.digests {
      var e :| AcceptedWithDigest(c, envs, e, d);
      LastSeqNeverFalls(c, envs, env, KeyOf(e));
      assert AcceptedWithDigest(c, envs + [env], e, d);
    } else {
      assert AcceptedWithDigest(c, envs + [env], env, d);
    }
  }

  lemma {:induction false} RememberedStep(c: Crypto, envs: seq<Envelope>, env: Envelope)
    requires Remembered(c, envs)
    ensures Remembered(c, envs + [env])
  {
    var after := RunGate(c, envs + [env]);
    forall key: Key, n: nat | n in SeqsOf(after.seen, key) ensures n <= At(after.chains, key).lastSeq {
      HistoryStep(c, envs, env, key);
      SeqsStep(c, RunGate(c, envs), env, key, n);
    }
    forall d | d in after.seen.digests ensures exists e :: AcceptedWithDigest(c, envs + [env], e, d) {
      DigestsStep(c, envs, env, d);
    }
  }

  lemma {:induction false} RunsAreRemembered(c: Crypto, envs: seq<Envelope>)
    ensures Remembered(c, envs)
    decreases |envs|
  {
    if envs != [] {
      RunsAreRemembered(c, envs[..|envs| - 1]);
      RememberedStep(c, envs[..|envs| - 1], envs[|envs| - 1]);
      LastSplit(envs);
    }
  }

  /** The replay guard adds nothing behind the tracker: once `chain.accept` has succeeded it never
      fires, on any run, unless two envelopes collide. */
  lemma {:induction false} ReplayNeverFires(c: Crypto, envs: seq<Envelope>, env: Envelope)
    requires c.DigestsDistinct((set e | e in envs) + {env})
    requires ChainFault(RunGate(c, envs).chains, env).None?
    ensures !IsReplay(c, RunGate(c, envs).seen, env)
    ensures Offer(c, RunGate(c, envs), env).1 == None
  {
    RunsAreRemembered(c, envs);
    forall e ensures !AcceptedWithDigest(c, envs, e, c.DigestOf(env)) {
      if e in envs && c.DigestOf(e) == c.DigestOf(env) {
        assert e == env;
      }
    }
  }

  /** The envelopes that link to the history of their key when they come, whatever the key, in order. */
  ghost function Taken(c: Crypto, envs: seq<Envelope>): seq<Envelope> {
    if envs == [] then []
    else
      var before, env := envs[..|envs| - 1], envs[|envs| - 1];
      var history := LinkedSubsequence(c, before, Key(env.session, env.sender));
      if Linked(c, history + [env]) then Taken(c, before) + [env] else Taken(c, before)
  }

  /** Over every run the guard behind the tracker has been offered exactly what the tracker has taken. */
  lemma {:induction false} GuardOfRun(c: Crypto, envs: seq<Envelope>)
    ensures RunGate(c, envs).seen == Remembers(c, Taken(c, envs))
    decreases |envs|
  {
    if envs != [] {
      var before, env := envs[..|envs| - 1], envs[|envs| - 1];
      GuardOfRun(c, before);
      TakenIffLinked(c, before, env);
      HistoryIsLinkedSubsequence(c, before, KeyOf(env));
      var taken := Taken(c, before);
      assert (taken + [env])[..|taken|] == taken;
    }
  }
}
