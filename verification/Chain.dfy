/** `cgatc/messaging/chain.py`: per (session, sender) chain heads. */
module Chain {
  import opened Primitives
  import opened Exceptions
  import opened Envelopes

  datatype Key = Key(session: Bytes, sender: Bytes)

  datatype ChainState = ChainState(lastHash: Digest, lastSeq: int)

  const FRESH_CHAIN := ChainState(GENESIS, -1)

  type Chains = map<Key, ChainState>

  function KeyOf(env: Envelope): Key {
    Key(env.session, env.sender)
  }

  /** The state of a key; a key never seen is at genesis. */
  function At(chains: Chains, key: Key): ChainState {
    if key in chains then chains[key] else FRESH_CHAIN
  }

  /** Why an envelope does not extend its chain, if it does not. */
  function ChainFault(chains: Chains, env: Envelope): Option<Exc> {
    var st := At(chains, KeyOf(env));
    if env.seqNo <= st.lastSeq then Some(SequenceError)
    else if env.prevHash != st.lastHash then Some(ChainError)
    else None
  }

  /** The heads after an attempt; a rejected attempt leaves every head where it was. */
  function Advance(c: Crypto, chains: Chains, env: Envelope): (r: Chains)
    ensures forall key :: key != KeyOf(env) ==> At(r, key) == At(chains, key)
    ensures At(r, KeyOf(env)) == if ChainFault(chains, env).None? then ChainState(c.DigestOf(env), env.seqNo)
                                 else At(chains, KeyOf(env))
  {
    if ChainFault(chains, env).None? then chains[KeyOf(env) := ChainState(c.DigestOf(env), env.seqNo)]
    else chains[KeyOf(env) := At(chains, KeyOf(env))]
  }

  class SessionChainTracker {
    const c: Crypto
    var state: Chains

    constructor (c: Crypto)
      ensures this.c == c && state == map[]
    {
      this.c := c;
      state := map[];
    }

    function Head(session: Bytes, sender: Bytes): Digest
      reads this
    {
      At(state, Key(session, sender)).lastHash
    }

    function Seq(session: Bytes, sender: Bytes): int
      reads this
    {
      At(state, Key(session, sender)).lastSeq
    }

    method Accept(signed: SignedEnvelope) returns (fault: Option<Exc>)
      modifies this
      ensures fault == ChainFault(old(state), signed.envelope)
      ensures state == Advance(c, old(state), signed.envelope)
    {
      var env := signed.envelope;
      var key := KeyOf(env);
      if key !in state {
        state := state[key := FRESH_CHAIN];
      }
      var st := state[key];
      if env.seqNo <= st.lastSeq {
        return Some(SequenceError);
      }
      if env.prevHash != st.lastHash {
        return Some(ChainError);
      }
      state := state[key := ChainState(c.DigestOf(env), env.seqNo)];
      return None;
    }
  }
}
