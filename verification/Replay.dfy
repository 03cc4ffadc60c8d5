/** `cgatc/messaging/replay_guard.py`: sequence numbers and digests already seen. */
module Replay {
  import opened Primitives
  import opened Exceptions
  import opened Envelopes
  import opened Chain

  datatype Seen = Seen(seqs: map<Key, set<nat>>, digests: set<Digest>)

  const NOTHING_SEEN := Seen(map[], {})

  function SeqsOf(seen: Seen, key: Key): set<nat> {
    if key in seen.seqs then seen.seqs[key] else {}
  }

  predicate IsReplay(c: Crypto, seen: Seen, env: Envelope) {
    env.seqNo in SeqsOf(seen, KeyOf(env)) || c.DigestOf(env) in seen.digests
  }

  function Record(c: Crypto, seen: Seen, env: Envelope): Seen {
    var seqs := SeqsOf(seen, KeyOf(env));
    if IsReplay(c, seen, env) then seen.(seqs := seen.seqs[KeyOf(env) := seqs])
    else Seen(seen.seqs[KeyOf(env) := seqs + {env.seqNo}], seen.digests + {c.DigestOf(env)})
  }

  class ReplayGuard {
    const c: Crypto
    var seen: Seen

    constructor (c: Crypto)
      ensures this.c == c && seen == NOTHING_SEEN
    {
      this.c := c;
      seen := NOTHING_SEEN;
    }

    method CheckAndRecord(signed: SignedEnvelope) returns (fault: Option<Exc>)
      modifies this
      ensures fault == if IsReplay(c, old(seen), signed.envelope) then Some(ReplayError) else None
      ensures seen == Record(c, old(seen), signed.envelope)
    {
      var env := signed.envelope;
      var key := KeyOf(env);
      if key !in seen.seqs {
        seen := seen.(seqs := seen.seqs[key := {}]);
      }
      var seqSet := seen.seqs[key];
      if env.seqNo in seqSet {
        return Some(ReplayError);
      }
      var digest := c.DigestOf(env);
      if digest in seen.digests {
        return Some(ReplayError);
      }
      seen := Seen(seen.seqs[key := seqSet + {env.seqNo}], seen.digests + {digest});
      return None;
    }
  }

  // ---------------------------------------------------------------------
  // The guard by itself
  // ---------------------------------------------------------------------

  /** What the guard remembers of `envs`, offered in order. */
  function Remembers(c: Crypto, envs: seq<Envelope>): Seen {
    if envs == [] then NOTHING_SEEN else Record(c, Remembers(c, envs[..|envs| - 1]), envs[|envs| - 1])
  }

  /** A number used in its session by its sender, or a digest of the same bytes. */
  predicate Repeats(c: Crypto, e: Envelope, env: Envelope) {
    || (e.session == env.session && e.sender == env.sender && e.seqNo == env.seqNo)
    || c.hash(c.encode(e)) == c.hash(c.encode(env))
  }

  /** The envelopes that repeat none that was let through before them. */
  ghost function LetThrough(c: Crypto, envs: seq<Envelope>): seq<Envelope> {
    if envs == [] then []
    else
      var before, env := LetThrough(c, envs[..|envs| - 1]), envs[|envs| - 1];
      if exists e :: e in before && Repeats(c, e, env) then before else before + [env]
  }

  /** What the guard has stored is exactly the numbers and digests of what it let through. */
  ghost predicate RemembersExactly(c: Crypto, seen: Seen, through: seq<Envelope>) {
    && (forall key: Key, n: nat :: n in SeqsOf(seen, key) <==> UsedBy(through, key, n))
    && (forall d :: d in seen.digests <==> DigestIn(c, through, d))
  }

  ghost predicate UsedBy(through: seq<Envelope>, key: Key, n: nat) {
    exists e :: e in through && KeyOf(e) == key && e.seqNo == n
  }

  ghost predicate DigestIn(c: Crypto, through: seq<Envelope>, d: Digest) {
    exists e :: e in through && c.DigestOf(e) == d
  }

  lemma {:induction false} ReplayIsRepetition(c: Crypto, seen: Seen, through: seq<Envelope>, env: Envelope)
    requires RemembersExactly(c, seen, through)
    ensures IsReplay(c, seen, env) <==> exists e :: e in through && Repeats(c, e, env)
  {
    if env.seqNo in SeqsOf(seen, KeyOf(env)) {
      var e :| e in through && KeyOf(e) == KeyOf(env) && e.seqNo == env.seqNo;
      assert Repeats(c, e, env);
    }
    if c.DigestOf(env) in seen.digests {
      var e :| e in through && c.DigestOf(e) == c.DigestOf(env);
      assert Repeats(c, e, env);
    }
    if e :| e in through && Repeats(c, e, env) {
      assert UsedBy(through, KeyOf(env), env.seqNo) || DigestIn(c, through, c.DigestOf(env));
    }
  }

  lemma {:induction false} LetOneThrough(c: Crypto, through: seq<Envelope>, env: Envelope)
    ensures forall key: Key, n: nat :: UsedBy(through + [env], key, n)
                                       <==> UsedBy(through, key, n) || (key == KeyOf(env) && n == env.seqNo)
    ensures forall d :: DigestIn(c, through + [env], d) <==> DigestIn(c, through, d) || d == c.DigestOf(env)
  {
    var longer := through + [env];
    assert forall e :: e in longer <==> e in through || e == env;
  }

  lemma {:induction false} RecordRemembers(c: Crypto, seen: Seen, through: seq<Envelope>, env: Envelope)
    requires RemembersExactly(c, seen, through)
    ensures RemembersExactly(c, Record(c, seen, env), if IsReplay(c, seen, env) then through else through + [env])
  {
    LetOneThrough(c, through, env);
  }

  /** Over every run of the guard by itself: it refuses an envelope if and only if one that it let
      through has the same number in the same session from the same sender, or the same digest. */
  lemma {:induction false} RefusedIffRepeats(c: Crypto, envs: seq<Envelope>, env: Envelope)
    ensures IsReplay(c, Remembers(c, envs), env) <==> exists e :: e in LetThrough(c, envs) && Repeats(c, e, env)
    ensures RemembersExactly(c, Remembers(c, envs), LetThrough(c, envs))
    decreases |envs|
  {
    if envs != [] {
      var before, last := envs[..|envs| - 1], envs[|envs| - 1];
      RefusedIffRepeats(c, before, last);
      RecordRemembers(c, Remembers(c, before), LetThrough(c, before), last);
    }
    ReplayIsRepetition(c, Remembers(c, envs), LetThrough(c, envs), env);
  }

  /** In particular nothing is let through twice, however often and among whatever it is offered. */
  lemma {:induction false} OfferedAgainIsRefused(c: Crypto, envs: seq<Envelope>, env: Envelope)
    requires env in envs
    ensures IsReplay(c, Remembers(c, envs), env)
    decreases |envs|
  {
    var before, last := envs[..|envs| - 1], envs[|envs| - 1];
    RefusedIffRepeats(c, before, last);
    RefusedIffRepeats(c, envs, env);
    if env == last {
      if !IsReplay(c, Remembers(c, before), env) {
        assert env in LetThrough(c, envs) && Repeats(c, env, env);
      }
    } else {
      OfferedAgainIsRefused(c, before, env);
      RefusedIffRepeats(c, before, env);
      var e :| e in LetThrough(c, before) && Repeats(c, e, env);
      assert e in LetThrough(c, envs);
    }
  }
}
