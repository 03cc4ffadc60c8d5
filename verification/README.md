# CG-ATC: a verified model of the message verification stack

CG-ATC lets agents exchange signed messages. A receiver keeps, per session and sender, a chain of message
digests; checks every message against signatures, chain, capability token and payload fingerprints; charges
violations to a decaying risk score that drives a ladder of containment levels; and keeps a hash-chained audit
log whose Merkle root it publishes. This project models that stack in Dafny and proves what it guarantees over
every input and every run.

The models follow the form of the code: objects that update their fields are classes, loops are loops, in-place
algorithms work on arrays. Each method is proved equal to a specification function on values; theorems are about
those functions, about runs of them, and about reference definitions that do not mention the code (RFC 6962,
reachability by walks, the closed form of a recurrence, sets of senders counted along a run).

| files | what they model |
|---|---|
| `Primitives`, `Exceptions` | bytes, hashes, error types and their severities |
| `Rfc6962`, `PairingTree`, `Merkle`, `MerkleTheorems` | Merkle roots and inclusion proofs against RFC 6962 |
| `HashChain`, `Committer` | the audit log and the publication of its root |
| `Envelopes`, `Chain`, `Replay`, `Delivery` | envelopes, per-sender chains, the replay guard, and both together over runs |
| `RiskScore`, `ScopeReducer`, `Impact` | risk recurrence, containment ladder, breadth-first impact sets |
| `Glob`, `GlobMeaning`, `GlobBrackets`, `Capabilities` | scope patterns, issuing and enforcing capabilities |
| `Middleware`, `MiddlewareRuns` | one receiver's pipeline and its runs |
| `Verdicts`, `AuditTrail` | which verdict every message gets, and what the log tells of it |
| `ContainmentRuns`, `Isolation` | fan-out, risk, containment and impact over all runs |
| `Materialize`, `EndToEnd` | the honest sender's chain state, and sender and receiver together up to acceptance |
| `Pushers`, `BetaExample` | crews of senders that push one payload, and a receiver that they bring to isolate one of them |
| `Receiver`, `ReceiverDecisions` | the policy on top of one pipeline per receiver, and which decision every message gets |
| `ReceiverRuns`, `ReceiverLedger`, `ReceiverPipelines` | its runs: limits, counters, memory, quarantine, pipelines |
| `Threshold`, `Vrf`, `VrfDraws`, `Behavior` | k-of-n authorisation, committee selection, rolling windows |

## Cryptographic assumptions

The hash is an arbitrary function from bytes to 32 bytes and signature verification an arbitrary predicate. A hash
with 32-byte results cannot be injective, so no theorem assumes that it is. Where a theorem needs collision
freedom it asks for it on a named finite set: the inputs that the compared computations themselves hash
(`HashedBy`, `HashedInCheck`, `ChainInputs`), or the envelopes that come in during a run. Envelope digests are
hashes of a canonical encoding; distinct digests for the distinct envelopes of a run stand for an injective
encoding and a collision-free hash on them. Where an empty chain is compared with a non-empty one, the theorem
also asks that no hashed input has the all-zero genesis value as its hash. Everything else (leaf and node
prefixes, 32-byte lengths) is proved, not assumed.

## Where the code does not do what its documentation says

Each of these is a theorem below; the model follows the code.

- The pipeline says that a failed check is returned as a result. A payload that does not hash to the envelope's
  payload hash raises `HashMismatchError`, which is not an `EnvelopeError` (`cgatc/core/exceptions.py:25`) and is
  not caught at `cgatc/a2a_integration/middleware.py:149`: the call raises, and nothing is recorded (`CallSettles`).
- The inclusion proof is called RFC 6962 style. The claimed leaf count is not bound to the root, so a claimed index
  can be wrong (`CountMustBeKnown`). It is right exactly when the index takes the same turns in the claimed tree as
  in the real one (`IndexIsRightIff`); with the right count it always is (`AcceptedWithRightCount`), and membership
  holds in any case (`AcceptedLeafIsMember`).
- The audit log is called tamper-evident. It binds the concatenation of event, envelope and signature bytes, not
  their boundaries, and neither sequence numbers nor timestamps (`PartsBoundExactlyByLengths`,
  `BoundaryShiftGoesUnnoticed`, `NumbersAndTimesAreNotBound`).
- The replay guard is said to complement the chain tracker. Behind the tracker it never fires (`ReplayErrorNeverReported`).
- Containment is said to isolate senders. With the default weights and thresholds incoming traffic never brings a
  risk to the isolation threshold, whatever is sent (`DefaultsNeverIsolate`). In general nobody is isolated where the
  threshold is out of reach of a full charge, and someone can be where the charge for strangers reaches it. Where only
  the charge for pushed payloads does, it takes known peers who can push often enough (`IsolationPossibleIff`): nobody
  is isolated where nobody can push (`IsolationWithoutPushesIff`), and a crew that can is an input (`BetaIsolates`).
- `can_send` is said to enforce an impact radius. On the receiver's own graph that limit never binds (`OutboundLimitNeverBinds`).
- The sequence check suggests that gaps are tolerated. One message that does not reach the chain, lost or refused
  before it, silences its sender for good (`MissedMessageSilencesSender`): a message passes the chain if and only if
  every earlier one of its sender reached it (`PassesIffNoneMissed`).
- Granted scopes are said to lie within the role. For roles of one bracket-free pattern and bracket-free scopes this
  fails exactly for patterns with a `?` (`AttenuatesIffNoQuestionMark`). A role of several such patterns bounds the
  bracket-free scopes that it grants exactly if it admits whatever its patterns admit with every `?` widened to `*`
  (`RoleBoundsGrantsIff`), so `a?` does no harm beside `*` (`StarCoversQuestionMark`). For one pattern and all scopes
  it fails exactly for patterns with a `?`, with text between two stars, or with a `]` after a star (`BoundsAllIff`,
  of every reading of bracket expressions in which one that begins with two lower-case letters admits the first, as
  in `fnmatch`). `BracketScopesEscape` is an input.
- k distinct signers are said to be needed. A key registered twice counts twice (`RepeatedKeyCountsTwice`). A verified
  signature always carries k different keys if and only if k is one, or fewer than k signers can sign at all, or
  those who can sign have pairwise different keys (`NeedsKKeysIff`; `KeysCountedOnceIff` where everyone can sign).
- Card churn is said to be counted. The first card stays the reference for ever, so what is counted is differences
  from it (`CardChangesCountDifferences`): one change seen three times counts three (`OneChangeCountedThrice`). The
  count is right exactly if the card, once changed, changes every time and never back (`CountsChangesIff`).
- The report's flags look at exception names only. A message that fails at the capability gate is reported as
  capability-valid exactly when it had no capability, or one that no trusted authority has signed
  (`CapabilityReport`; `FlagsExactly` for all messages). A forged capability is an input (`ForgedCapabilityReportedValid`).
- An empty log passed to the pipeline's constructor is replaced by a new one, because an object of length zero is
  falsy (`Middleware.constructor`).

## Model

| member | source | states |
|---|---|---|
| Merkle.MerkleRoot | cgatc/audit/merkle.py:44-62 | the bottom-up pairing loop with odd-node promotion computes MTH of RFC 6962, section 2.1, for every list, the empty one included |
| Merkle.PairLevel | cgatc/audit/merkle.py:72-83 | one round of the prover makes the next level and adds the partner of the current node, if it has one, to the siblings |
| Merkle.BuildProof | cgatc/audit/merkle.py:65-84 | the level-by-level prover returns PATH(i, D) of RFC 6962, section 2.1.1, and an IndexError exactly for indices out of range |
| Merkle.VerifyProof | cgatc/audit/merkle.py:87-115 | the index-halving verifier decides the relation `Accepts`: index in range, one sibling for every turn, and the climb along these turns ends in the root |
| PairingTree.TreeOfLevel | cgatc/audit/merkle.py:53-61 | pairing one level preserves the value of every subtree that splits no pair |
| PairingTree.TreePathOfLevel | cgatc/audit/merkle.py:72-83 | an audit path is the sibling found on one level followed by the audit path of the parent one level up |
| PairingTree.TreeIsTreeHash | cgatc/audit/merkle.py:52-62 | the tree over hashed leaves is the tree hash of the standard's recursion |
| PairingTree.TreePathIsAuditPath | cgatc/audit/merkle.py:70-84 | its paths are the audit paths of the standard's recursion |
| MerkleTheorems.RootBindsLeaves | cgatc/audit/merkle.py:27-62 | two lists of leaves of any lengths with the same root are equal |
| MerkleTheorems.SmallRoots | cgatc/audit/merkle.py:27-62 | the roots of no, one, two and three leaves, written out as hashes of bytes |
| MerkleTheorems.SidesAreTurns | cgatc/audit/merkle.py:94-111 | the turns the verifier takes by halving index and last index are the turns of the recursion that splits at the largest power of two below n |
| MerkleTheorems.TurnsInjective | cgatc/audit/merkle.py:94-111 | in a tree of known size the turns determine the leaf |
| MerkleTheorems.BuiltProofsAreAccepted | cgatc/audit/merkle.py:65-115 | every proof that is built is accepted against the root, for every n and i < n |
| MerkleTheorems.PathLength | cgatc/audit/merkle.py:69-84 | a proof over at most 2^e leaves has at most e siblings |
| MerkleTheorems.AcceptedProofs | cgatc/audit/merkle.py:87-115 | exactly which proofs are accepted against a root, for any claimed index, count and siblings of any lengths: those with the turns, the leaf and the audit path of some leaf |
| MerkleTheorems.AcceptedLeafIsMember | cgatc/audit/merkle.py:87-115 | acceptance implies membership, even for a wrong count |
| MerkleTheorems.AcceptedWithRightCount | cgatc/audit/merkle.py:87-115 | with the right count a proof is accepted if and only if it presents the leaf at its index with exactly the siblings that are built for it |
| MerkleTheorems.IndexIsRightIff | cgatc/audit/merkle.py:90-115 | for pairwise different leaves the claimed index of an accepted proof is right if and only if it takes the same turns among the claimed number of leaves as among the real one; if it does, leaf and siblings are those of that index for repeated leaves, too |
| MerkleTheorems.CountMustBeKnown | cgatc/audit/merkle.py:90-115 | an input where the index is wrong: under every hash one proof is accepted for the third of three leaves and for the second of two |
| HashChain.HashChainLog.Append | cgatc/audit/hashchain.py:50-73 | the whole new state: one record with the next number, hashed onto the old head; an intact log stays intact |
| HashChain.HashChainLog.Verify | cgatc/audit/hashchain.py:87-105 | true if and only if every stored chain state and the head are the recomputed ones |
| HashChain.IntactIffHashedOnto | cgatc/audit/hashchain.py:87-105 | what `verify` decides, link by link: every record is hashed onto the stored state before it, event before envelope before signature, and the head is the last stored state |
| HashChain.SameHeadSameLinks | cgatc/audit/hashchain.py:98-105 | record lists with the same recomputed head have equal length and equal link bytes at every index: no deletion, insertion, change or move goes unnoticed under a known head |
| HashChain.TamperEvidence | cgatc/audit/hashchain.py:87-105 | two logs that pass `verify` with the same head agree in link bytes and stored chain states, record by record |
| HashChain.PartsBoundExactlyByLengths | cgatc/audit/hashchain.py:65-101 | equal links have equal event, envelope and signature if and only if the first two parts have equal lengths |
| HashChain.BoundaryShiftGoesUnnoticed | cgatc/audit/hashchain.py:98-105 | under every hash two different logs pass `verify` with the same head |
| HashChain.NumbersAndTimesAreNotBound | cgatc/audit/hashchain.py:98-105 | rewriting all sequence numbers and timestamps keeps a log passing `verify` |
| HashChain.PrefixesAreIntact | cgatc/audit/hashchain.py:87-105 | a log cut off anywhere passes `verify` with its last chain state as head |
| Committer.AuditCommitter.Commit | cgatc/audit/committer.py:59-68 | publishes the RFC 6962 root and the count of the log's events, and it becomes the agent's latest root |
| Committer.InMemoryCommitterSink.LatestRoot | cgatc/audit/committer.py:44-48 | the reversed scan finds the agent's newest commitment |
| Committer.LatestIsNewest | cgatc/audit/committer.py:44-48 | the latest root is that of the agent's newest commitment, and there is none only if it has never committed |
| Committer.RootFixesEvents | cgatc/audit/committer.py:59-68 | logs that commit to the same root have the same event bytes at every index |
| Committer.ProofAgainstCommitment | cgatc/audit/committer.py:59-68 | against a commitment's root and count exactly the event of the claimed record is accepted |
| Committer.RootIgnoresEnvelopes | cgatc/audit/committer.py:60-61 | the root does not depend on envelopes or signatures |
| Chain.SessionChainTracker.Accept | cgatc/messaging/chain.py:42-70 | which envelopes are refused and why, and the heads after an attempt |
| Delivery.TakenIffLinked | cgatc/messaging/chain.py:59-70 | over every run an envelope is taken if and only if its number is larger than that of the last one taken of its key, however much, and it names that one's digest, or genesis; and which of the two errors refuses it |
| Delivery.HistoryIsLinkedSubsequence | cgatc/messaging/chain.py:59-70 | the history that the tracker keeps is the one told without it: every envelope of the key that links to what came before |
| Delivery.GapsAreTaken | cgatc/messaging/chain.py:59-70 | an input: envelopes with any first number and any gap are taken |
| Envelopes.EnvelopeChecksExactly | cgatc/messaging/envelope.py:178-214 | which of the four checks answers for an envelope, with which exception |
| Exceptions.Severities | cgatc/detection/crypto_detector.py:57-69 | which exceptions share a severity, from 1.0 down to 0.5 |
| Replay.ReplayGuard.CheckAndRecord | cgatc/messaging/replay_guard.py:24-34 | which envelopes are replays, and what is remembered afterwards |
| Replay.RefusedIffRepeats | cgatc/messaging/replay_guard.py:24-34 | over every run of the guard by itself an envelope is refused if and only if one that was let through has the same number in the same session from the same sender, or the same digest |
| Replay.OfferedAgainIsRefused | cgatc/messaging/replay_guard.py:24-34 | whatever has been offered before is refused, whether it was let through then or not |
| Delivery.GuardOfRun | cgatc/a2a_integration/middleware.py:154-156 | over every run the guard behind the tracker has been offered exactly the envelopes that the tracker has taken, in order |
| Delivery.HistoriesAreLinked | cgatc/messaging/chain.py:59-70 | over every run the chain-accepted envelopes of a key have increasing numbers, each names the digest of its predecessor, and the tracker holds the head of exactly this history |
| Delivery.SameHeadSameHistory | cgatc/messaging/chain.py:59-70 | equal heads, across runs, receivers and keys, imply equal histories |
| Delivery.ReplayNeverFires | cgatc/messaging/replay_guard.py:24-34 | after `chain.accept` has succeeded the guard never finds a replay, on any run |
| RiskScore.RiskScoreUpdater.AddScore | cgatc/detection/risk_score.py:80-90 | the severity is added to one pending score of one agent |
| RiskScore.RiskScoreUpdater.Tick | cgatc/detection/risk_score.py:95-107 | the recurrence is applied to one agent and its pending scores are cleared |
| RiskScore.ClosedForm | cgatc/detection/risk_score.py:98-107 | n ticks give decay^n R0 plus the decayed sum of the contributions |
| RiskScore.RiskOfRun | cgatc/detection/risk_score.py:80-113 | after any interleaving of additions, ticks and resets of any agents an agent's risk is the recurrence over its own contributions |
| RiskScore.TickOfRun | cgatc/detection/risk_score.py:80-107 | after any interleaving a tick decays the risk once and adds what each layer was given since the last tick or reset, with that layer's weight |
| RiskScore.RiskBounded | cgatc/detection/risk_score.py:98-107 | contributions of at most M and a decay factor below 1 keep the risk at most max(R0, M / (1 - decay)) |
| RiskScore.GoalReached | cgatc/detection/risk_score.py:98-107 | constant contributions that outweigh the decay at a goal reach it after finitely many ticks |
| ScopeReduction.ScopeReducer.Evaluate | cgatc/containment/scope_reducer.py:85-98 | the level is raised to that of the risk and never lowered, and is returned |
| ScopeReduction.LevelReached | cgatc/containment/scope_reducer.py:64-80 | for all strictly increasing thresholds a level is reached if and only if the risk is at least the level's onset |
| ScopeReduction.LevelMonotone | cgatc/containment/scope_reducer.py:64-80 | a higher risk never has a lower level |
| ScopeReduction.CurrentIsLevelOfPeak | cgatc/containment/scope_reducer.py:85-106 | after any interleaving of evaluations and resets an agent's level is that of its highest evaluated risk since its last reset |
| Impact.ImpactGraph.RecordSend | cgatc/containment/impact_radius.py:39-40 | exactly one edge is added |
| Impact.ImpactGraph.ImpactSet | cgatc/containment/impact_radius.py:48-64 | the breadth-first search ends on every graph and finds the layered ball without its centre, in whatever order neighbours come |
| Impact.ImpactIsReachability | cgatc/containment/impact_radius.py:48-64 | the result holds exactly the other agents at the end of a walk of 1 to r edges |
| Impact.ImpactMonotone | cgatc/containment/impact_radius.py:39-64 | it grows with the radius and with recorded messages |
| Impact.ContainmentShrinksImpact | cgatc/containment/impact_radius.py:67-74 | a higher containment level never widens it, isolation empties it |
| Impact.RadiusExactly | cgatc/containment/impact_radius.py:67-74 | three hops up to the level before the prohibition of delegation, one up to read-only, none in isolation |
| Glob.MatchComposes | cgatc/policy/evaluator.py:42-43 | a star pattern that matches the text of a pattern matches everything that pattern matches |
| GlobMeanings.MatchIsCut | cgatc/policy/evaluator.py:42-43 | a text matches if and only if it can be cut into one piece for every token of the pattern: any text for a star, one character for a question mark, itself for an ordinary character, an admitted one for a bracket expression |
| GlobMeanings.ReadBracket | cgatc/policy/evaluator.py:42-43 | a bracket that is closed behind a nonempty body makes one expression, an unclosed one is an ordinary character |
| GlobMeanings.ReadCharacter | cgatc/policy/evaluator.py:42-43 | what every other character of a pattern stands for |
| Glob.AttenuatesIffNoQuestionMark | cgatc/policy/evaluator.py:42-50 | a bracket-free role pattern bounds all bracket-free scopes granted under it if and only if it has no question mark |
| Glob.AttenuateTogetherIff | cgatc/policy/evaluator.py:42-50 | several bracket-free patterns together bound all bracket-free patterns granted under them if and only if they admit whatever one of them admits with its question marks widened to stars |
| Glob.StarCoversQuestionMark | cgatc/policy/evaluator.py:42-50 | an input: a pattern with a question mark that does not bound its grants alone does so beside a star |
| GlobBrackets.BoundsAllIff | cgatc/policy/evaluator.py:42-50 | under any one reading of brackets in which `[ab...]` admits `a`, a bracket-free role pattern bounds every scope granted under it, bracketed or not, if and only if it has no question mark, nothing between two stars, and no closing bracket after a star |
| GlobBrackets.BoundsUnderAllReadingsIff | cgatc/policy/evaluator.py:42-50 | and the same condition decides whether it does so under every reading of brackets |
| GlobBrackets.AnchoredBounds | cgatc/policy/evaluator.py:42-50 | in particular patterns such as `tools.*` bound all scopes, for every reading of brackets |
| GlobBrackets.BracketScopesEscape | cgatc/policy/evaluator.py:42-50 | an input where a requested scope with a bracket escapes a star pattern |
| Capabilities.IntersectExercise | cgatc/policy/evaluator.py:48-50 | the granted scopes are exactly the requested ones that the role matches |
| Capabilities.IntersectKeepsOrder | cgatc/policy/evaluator.py:48-50 | order and repetitions of the request are kept |
| Capabilities.IssuedToken | cgatc/policy/evaluator.py:52-70 | every field of an issued token, its ten minutes, and its signature; and exactly when none is issued |
| Capabilities.CheckExactly | cgatc/capability/enforcer.py:54-131 | the check allows an action if and only if a trusted key signed the capability, the time is in its window, subject, audience and task agree, some scope matches as a pattern, and every constraint holds, delegation included; and which exception refuses it |
| Capabilities.IssuedAdmitsExactly | cgatc/capability/enforcer.py:54-131 | under an issued capability of a trusted authority exactly those actions pass whose scope is matched by a requested scope within the role, and that otherwise agree with it |
| Capabilities.RoleBoundsItsGrants | cgatc/policy/evaluator.py:48-50 | a role with neither brackets nor question marks in its patterns bounds everything it grants if its patterns are anchored or the requested scopes have no brackets |
| Capabilities.RoleBoundsGrantsIff | cgatc/policy/evaluator.py:42-50 | for every role of bracket-free patterns: whatever bracket-free scopes are requested, what the grant admits the role admits, if and only if the role admits what its patterns admit with question marks widened to stars |
| Capabilities.GrantedScopeStaysInRole | cgatc/capability/enforcer.py:128-131 | if every granted scope is plain text or granted by a pattern that bounds it, what is admitted under the grant the role's own patterns admit |
| Capabilities.CapabilityBoundsActions | cgatc/capability/enforcer.py:54-116 | every action that passes the check under an issued capability is the named subject's, on the named audience, for the task, within its lifetime, within the granted scopes, and a delegation only if permitted; and inside the role's `may_exercise` if the role bounds what it grants |
| Capabilities.IssuedScopesAreUsable | cgatc/policy/evaluator.py:52-70 | whatever a requested scope within the role matches as a pattern passes the check under the issued capability, delegations included where they are permitted |
| Capabilities.GrantedLiterally | cgatc/policy/evaluator.py:48-50 | a bracket-free requested scope within the role matches itself, so it is usable as it was requested |
| Middlewares.Middleware.constructor | cgatc/a2a_integration/middleware.py:74-102 | given parts are used and missing ones created fresh; a given log without records is replaced |
| Middlewares.Middleware.HandleInbound | cgatc/a2a_integration/middleware.py:119-238 | outcome and every field of the new state are those of the specification `Handle` |
| Verdicts.VerdictExactly | cgatc/a2a_integration/middleware.py:119-238 | every call reaches exactly the verdict that the first objection to its message deserves, told from the message and the state before it; an accepted message carries its payload, every verdict the level and risk after the call |
| Verdicts.HeadOfRun | cgatc/a2a_integration/middleware.py:154-156 | over every run the head that a message must name is the last of the linked envelopes that reached the tracker |
| Verdicts.CrowdOfRun | cgatc/a2a_integration/middleware.py:188-191 | over every run a payload is remembered with exactly the senders whose messages passed all checks before it |
| AuditTrails.CallIsLogged | cgatc/a2a_integration/middleware.py:119-295 | every returned call writes one record that tells its verdict: the event with sender, layer, exception and severity, number of presenters, or task, scope and level; the time; the encoded envelope and signature of an accepted message, and none otherwise; hashed onto the old head |
| AuditTrails.LogTellsRun | cgatc/a2a_integration/middleware.py:119-295 | over every run record k is that of the k-th returned call |
| AuditTrails.ReturnedCallsExactly | cgatc/a2a_integration/middleware.py:119-238 | these calls are all that return, in order |
| AuditTrails.CallIsCharged | cgatc/a2a_integration/middleware.py:260-295 | over every run a returned call decays the sender's risk once and adds the charge of its verdict, in numbers |
| Middlewares.Middleware.CanSend | cgatc/a2a_integration/middleware.py:243-255 | true if and only if `MaySend`: level, radius and impact set allow the receiver |
| MiddlewareRuns.CallSettles | cgatc/a2a_integration/middleware.py:135-295 | a call raises exactly on a known peer's correctly signed envelope with another payload hash, and then changes nothing; otherwise it appends one record, keeps an intact log intact, ticks the sender's risk once with its charge, evaluates its level, and touches no other agent |
| MiddlewareRuns.CallHasEffect | cgatc/a2a_integration/middleware.py:135-238 | exactly when a call changes the chain and replay state, records a fingerprint, adds an impact edge, and what acceptance and each refusal behind the gate imply |
| MiddlewareRuns.LogCountsCalls | cgatc/a2a_integration/middleware.py:260-295 | over every run the log passes its verification and holds one record per returned call |
| MiddlewareRuns.GateOfRun | cgatc/a2a_integration/middleware.py:154-161 | the chain and replay state of a run is that of the envelopes that reached the chain, in order |
| MiddlewareRuns.AcceptedInOrder | cgatc/a2a_integration/middleware.py:154-238 | over every run two accepted messages of one session and sender have increasing sequence numbers, so none is accepted twice, whatever the hash |
| MiddlewareRuns.ReplayErrorNeverReported | cgatc/a2a_integration/middleware.py:155-161 | over every run no call reports a ReplayError |
| MiddlewareRuns.HeadsFixHistories | cgatc/a2a_integration/middleware.py:154-161 | equal heads in two runs of two receivers imply identical, linked histories |
| MiddlewareRuns.ReasonsExactly | cgatc/a2a_integration/middleware.py:135-183 | exactly which messages are refused with the name of a capability error and which with that of a signature error: a missing capability gives neither, a capability that no trusted authority has signed gives the latter |
| ContainmentRuns.FanoutBounded | cgatc/a2a_integration/middleware.py:188-205 | over every run one payload is accepted from fewer senders than the threshold |
| ContainmentRuns.FanoutFinal | cgatc/a2a_integration/middleware.py:188-205 | once threshold-many senders have presented a payload it is never accepted again |
| ContainmentRuns.RiskOfSender | cgatc/a2a_integration/middleware.py:260-295 | over every run a sender's risk is the recurrence over the charges of its own calls |
| ContainmentRuns.LevelIsLevelOfPeak | cgatc/a2a_integration/middleware.py:199-209 | over every run a sender's level is that of the highest risk its calls have reported |
| ContainmentRuns.RiskStaysBelowGoal | cgatc/a2a_integration/middleware.py:260-295 | if the largest charge does not outweigh the decay at a positive goal, no run reaches it; for all weights, decay factors 0 and 1 included |
| Isolation.IsolationPossibleIff | cgatc/a2a_integration/middleware.py:207-219 | some run isolates someone if and only if tau_4 is not out of reach: not positive, or outweighed by one full charge after decay; where the charge alpha does not reach it and beta does, this supposes that known peers can push a payload as many times as beta needs |
| Isolation.IsolationWithoutPushesIff | cgatc/a2a_integration/middleware.py:188-219 | where no run lets a message with too many presenters get as far as the fingerprint check, some run isolates someone if and only if tau_4 is not out of reach of alpha alone |
| Isolation.FanoutExactly | cgatc/a2a_integration/middleware.py:188-205 | exactly which messages are refused as fan-out, and so charged with beta |
| Isolation.PushersIsolate | cgatc/a2a_integration/middleware.py:188-219 | in every run in which enough senders have presented a payload, a sender who then alone pushes it often enough for beta to reach tau_4 is isolated at the end, whatever happened before |
| ContainmentRuns.DefaultsNeverIsolate | cgatc/a2a_integration/middleware.py:207-219 | with the defaults every run keeps every risk strictly below 10, every level at READ_ONLY or less, and never drops a message as isolated |
| ContainmentRuns.AcceptedExactly | cgatc/a2a_integration/middleware.py:135-238 | over every run of a receiver whose isolation threshold is out of reach, the default one included, a message is accepted if and only if it passes the gate, carries a capability for its action, and its payload has fewer presenters than the threshold |
| ContainmentRuns.EdgesLeadToReceiver | cgatc/a2a_integration/middleware.py:221-222 | over every run the graph has an edge to the receiver for each accepted sender and no other edge |
| ContainmentRuns.MaySendExactly | cgatc/a2a_integration/middleware.py:243-255 | on any graph: nobody in isolation, otherwise those reached within the radius of the level, and anyone while these are fewer than the radius |
| ContainmentRuns.OutboundLimitNeverBinds | cgatc/a2a_integration/middleware.py:243-255 | over every run `can_send` allows everyone if and only if the receiver itself is not isolated |
| Materialize.MessageBuilder.Build | benchmarks/materialize.py:261-315 | the envelope built, and the sender state afterwards with and without overrides; unknown names give a KeyError and change nothing |
| Materialize.LockStep | benchmarks/materialize.py:287-315 | a sender in step meets no chain fault, and a message that reaches the chain keeps the receiver's sequence number and head equal to the sender's, whatever the capability gate decides |
| Materialize.HonestTrafficPasses | benchmarks/materialize.py:287-315 | for every interleaving, as long as none of its messages is missed, a sender stays in step and its next message passes `chain.accept`, whatever happens to other senders' messages |
| Materialize.HonestTrafficIsNoReplay | benchmarks/materialize.py:287-315 | and if it reaches a receiver that started fresh, it passes the replay guard, too |
| Materialize.PassesIffNoneMissed | benchmarks/materialize.py:287-315 | for every interleaving a message passes `chain.accept` if and only if every earlier message of its own sender reached the chain |
| Materialize.MissIsPermanent | cgatc/messaging/chain.py:63-70 | out of step, every further message of the sender meets a chain fault and leaves it out of step |
| Materialize.MissedMessageSilencesSender | benchmarks/materialize.py:310-315 | after one message that was lost, or refused before the chain, no later message of that sender is ever accepted, whatever others send |
| EndToEnd.HonestTrafficIsAcceptedIff | benchmarks/materialize.py:287-315 | for every interleaving of honest senders, the message of a sender whose messages so far all arrived fresh and well signed is accepted if and only if it carries a capability for its action and its payload has fewer presenters than the threshold |
| EndToEnd.HonestMessageIsAccepted | cgatc/a2a_integration/middleware.py:135-238 | and it is accepted if its capability was issued by a trusted authority for its sender, receiver and task, one of its scopes matches the message's, delegations only where permitted, and fewer members of the crew than the threshold have sent its payload |
| Pushers.CrewPushes | cgatc/a2a_integration/middleware.py:188-205 | honest senders, all of whose messages arrive fresh, well signed and with a capability and carry one payload, show that the last of them can push it as often as it sends |
| BetaExample.BetaIsolates | cgatc/a2a_integration/middleware.py:188-219 | an input: with the defaults but a beta of 2 alpha does not reach tau_4, and three senders of one payload, the third of them insistent, get it isolated |
| BetaExample.TrustDecides | cgatc/a2a_integration/middleware.py:163-219 | the same receiver without its trusted key isolates nobody, although beta reaches tau_4 |
| Receivers.CGATCReceiver.ReceiveMessage | benchmarks/baselines/cg_atc.py:105-299 | decision, every field of the new state, and the reported level and flags are those of the specifications `Receive` and `ReportOf` |
| ReceiverDecisions.DecisionExactly | benchmarks/baselines/cg_atc.py:106-299 | the decision on every message, told from the message and the state before it: the refusals, all findings in order, and the risk in numbers |
| ReceiverDecisions.AcceptsExactly | benchmarks/baselines/cg_atc.py:106-299 | accepted if and only if the pipeline accepts, the sender is not in quarantine, and none of ten findings, each written out, is made |
| ReceiverDecisions.ReportExactly | benchmarks/baselines/cg_atc.py:136-299 | when there is a report, and what it says of acceptance, policy, audit and level |
| ReceiverLedgers.CountersOfRun | benchmarks/baselines/cg_atc.py:168-215 | over every run the counters hold exactly the senders, receivers, delegations and claimants of the verified messages, claims of quarantined senders excepted |
| ReceiverLedgers.MemoryOfRun | benchmarks/baselines/cg_atc.py:156-166 | over every run the memory holds under every key exactly what the last verified write left there, with its sender, time, capability, label, hash and digest |
| ReceiverLedgers.TriggerExactly | benchmarks/baselines/cg_atc.py:230-237 | over every run a stored object is held against the message it triggers if and only if the last verified write under its key was confidential or its sender is in quarantine by then |
| ReceiverLedgers.PoisonedMemoryNeverTriggers | benchmarks/baselines/cg_atc.py:230-281 | and then that message is not accepted and its sender not blamed |
| ReceiverRuns.ReceiveStep | benchmarks/baselines/cg_atc.py:150-290 | one message never shrinks a counter set, and an accepted one is within every limit at once |
| ReceiverLedgers.QuarantineExactly | benchmarks/baselines/cg_atc.py:150-281 | the quarantine gains the sender exactly when its message is verified, a finding names the sender as the attacker, and no poisoned object triggered it; and nobody else |
| ReceiverRuns.QuarantineIsFinal | benchmarks/baselines/cg_atc.py:199-206 | over every run the quarantine only grows and a quarantined sender is never accepted again by any receiver |
| ReceiverRuns.OnePayloadOneSender | benchmarks/baselines/cg_atc.py:168-172 | over every run one claimed `payload_hash`, a string of the message that nothing ties to its payload, is accepted from at most one sender, across all receivers |
| ReceiverRuns.ClaimsFromTwo | benchmarks/baselines/cg_atc.py:208-215 | over every run a claim other than "investigating" is accepted from at most two senders |
| ReceiverRuns.AudienceBounded | benchmarks/baselines/cg_atc.py:174-178 | over every run a sender without broadcast authorisation is accepted by at most five receivers |
| ReceiverRuns.DelegationsBounded | benchmarks/baselines/cg_atc.py:180-186 | over every run at most three delegations of one task are accepted |
| ReceiverRuns.TaintedMemoryNeverTriggers | benchmarks/baselines/cg_atc.py:230-237 | an object with a quarantined writer or a sensitive label never triggers an accepted action |
| ReceiverRuns.FlagsExactly | benchmarks/baselines/cg_atc.py:106-148 | for every message that gets a report, exactly when it says capability-valid and crypto-valid: in terms of the message, the pipeline before it and the trusted keys |
| ReceiverRuns.CapabilityReport | benchmarks/baselines/cg_atc.py:132-148 | a message that fails at the capability gate is reported as capability-valid if and only if it had no capability, or one that no trusted authority has signed |
| ReceiverRuns.ForgedCapabilityReportedValid | benchmarks/baselines/cg_atc.py:132-148 | inputs where the report misleads: a message with a forged capability is refused and reported as capability-valid and not crypto-valid |
| ReceiverPipelines.PipelineIsRun | benchmarks/baselines/cg_atc.py:80-131 | over every run each receiver's pipeline is in the state that registering the crew and its own calls, in order, lead to |
| ReceiverPipelines.AcceptedInOrder | benchmarks/baselines/cg_atc.py:120-131 | inside the full receiver, too, two accepted messages to one receiver with one session and sender id have increasing sequence numbers |
| ReceiverPipelines.OnePayloadOneAgent | benchmarks/baselines/cg_atc.py:97-98 | with the payload threshold of two one payload is accepted by one receiver from one agent only |
| ReceiverPipelines.PipelineLogsAreIntact | benchmarks/baselines/cg_atc.py:125-131 | each pipeline's log passes its verification and holds one record per returned call |
| ThresholdSignatures.Authorize | cgatc/crypto/threshold.py:103-128 | succeeds if and only if at least k distinct signers have a valid share, reports their number otherwise; the result holds the first valid shares of the first k signers, in order, and verifies |
| ThresholdSignatures.Verify | cgatc/crypto/threshold.py:130-146 | true if and only if the parameters agree and at least k shares, all valid, have pairwise distinct indices |
| ThresholdSignatures.VerifiesExactly | cgatc/crypto/threshold.py:130-146 | what it takes to verify, share by share: index, registered key, valid signature, no index twice |
| ThresholdSignatures.FewerThanKNeverVerify | cgatc/crypto/threshold.py:130-146 | if fewer than k signers have any valid signature on a digest, nothing on it verifies |
| ThresholdSignatures.OnlyGoodSignersMatter | cgatc/crypto/threshold.py:103-128 | order, repetition and invalid shares do not influence whether authorisation succeeds |
| ThresholdSignatures.VerifiedByKKeys | cgatc/crypto/threshold.py:130-146 | with pairwise different keys among those who can sign a verified signature carries k different keys |
| ThresholdSignatures.NeedsKKeysIff | cgatc/crypto/threshold.py:130-146 | every verified signature on a digest carries k different keys if and only if k is one, or fewer than k signers can sign it, or those who can have pairwise different keys |
| ThresholdSignatures.KeysCountedOnceIff | cgatc/crypto/threshold.py:61-69 | where every signer can sign: if and only if k is one or no key is registered twice |
| ThresholdSignatures.RepeatedKeyCountsTwice | cgatc/crypto/threshold.py:61-69 | an input where it fails: a key registered twice lets one signature satisfy a 2-of-2 authority |
| Vrf.ShuffleInPlace | cgatc/crypto/vrf.py:64-68 | the loop that swaps array elements in place, drawing each choice from the hash, leaves the shuffle of the old contents by these choices |
| Vrf.SelectCommittee | cgatc/crypto/vrf.py:46-69 | shuffling and sorting return the sorted first k of `Shuffle` on the drawn choices; errors for k > n and for counters beyond 32 bits |
| VrfDraws.ChoiceExactly | cgatc/crypto/vrf.py:65-67 | the choice for i is the remainder by i + 1 of the first four bytes, most significant first, of the hash of the output and the four bytes of i |
| VrfDraws.ReadBack | cgatc/crypto/vrf.py:66-67 | a number that fits is read back from its big-endian bytes |
| VrfDraws.PackInjective | cgatc/crypto/vrf.py:66 | different counters below 2^32 are packed differently |
| VrfDraws.EveryChoiceIsDrawn | cgatc/crypto/vrf.py:64-68 | for every choice vector some hash draws exactly it, from every output |
| VrfDraws.EveryCommitteeIsDrawn | cgatc/crypto/vrf.py:64-69 | every set of candidates is the committee under some hash |
| Vrf.ShufflePermutes | cgatc/crypto/vrf.py:64-68 | the shuffle only permutes |
| Vrf.ShuffleSettles | cgatc/crypto/vrf.py:64-68 | positions above i are settled and position i receives the chosen element |
| Vrf.ShuffleInjective | cgatc/crypto/vrf.py:64-68 | different choices give different orders |
| Vrf.ShuffleSurjective | cgatc/crypto/vrf.py:64-68 | every order is the result of some choices |
| Vrf.ChoicesAreOrders | cgatc/crypto/vrf.py:64-68 | for n candidates choice vectors and orders correspond one to one |
| Vrf.CommitteeIsSet | cgatc/crypto/vrf.py:46-69 | a committee is strictly increasing, in range, of exactly k members (for a negative k, as many as the slice keeps), and its proof verifies |
| Behavior.Trim | cgatc/detection/behavioral_detector.py:78-81 | the loop drops the leading stale entries |
| Behavior.TrimIsExactIff | cgatc/detection/behavioral_detector.py:78-81 | trimming keeps exactly the recent entries if and only if no stale entry follows a recent one |
| Behavior.WindowIsRecent | cgatc/detection/behavioral_detector.py:78-118 | for nondecreasing times a window holds exactly the observations of the last `window` seconds |
| Behavior.WindowsSeparate | cgatc/detection/behavioral_detector.py:75-118 | after any interleaving of counted observations and card observations of any agents an agent's window is that over its own times of that kind, and its card state that over its own cards |
| Behavior.Verdict | cgatc/detection/behavioral_detector.py:96-99 | reports above a positive threshold and only there, with a severity above 0.5 and at most 1; divides by zero exactly for a zero threshold and a nonempty window |
| Behavior.BehavioralDetector.Observe | cgatc/detection/behavioral_detector.py:91-99 | new window, new state and reported anomaly of one counted observation, here of a delegation; `observe_high_priv_probe` and `observe_memory_write` are the same with another window |
| Behavior.BehavioralDetector.ObserveCardChange | cgatc/detection/behavioral_detector.py:101-108 | new state and reported anomaly of one card observation |
| Behavior.CardChangesCountDifferences | cgatc/detection/behavioral_detector.py:101-108 | what is counted is how many observed cards differ from the first |
| Behavior.CountsChangesIff | cgatc/detection/behavioral_detector.py:101-108 | the count is the number of changes after every observation if and only if each observation after a card other than the first differs from that card and from the first |
| Behavior.OneChangeCountedThrice | cgatc/detection/behavioral_detector.py:101-108 | an input where the count is wrong: one change, counted three times |

## Left out

- Ed25519, SHA-256 and key handling: abstract, as described above; keys and hex strings are assumed well formed.
- JSON, pydantic and header encodings: the canonical bytes of an event and of an envelope are given by arbitrary functions; a message that does not parse, or whose capability does not parse, is a message without envelope.
- Wall clocks and random nonces: parameters of each call. Floating-point rounding: all scores, thresholds and times are real numbers.
- Glob.FnMatch: membership in a bracket expression is an arbitrary predicate; its boundaries are parsed as the library does.
- GlobBrackets.BoundsAllIff: for single patterns without brackets, and readings of brackets in which an expression that begins with two lower-case letters admits the first; for roles of several patterns and scopes with brackets there is only the sufficient condition of `RoleBoundsItsGrants`.
- RiskScore.RiskScoreUpdater.AddScore: the four `add_*` methods are one method with the kind of score as a parameter.
- Behavior.BehavioralDetector.Observe: the three methods that count observations in a window are one method; `observe_send`, `observe_unsafe_forward`, `observe_amplification` and `observe_mutual_claim` are not modelled, nor is the detector inside the pipeline, which never calls it.
- Middlewares.Middleware.HandleInbound: the end of the method, from the fingerprint check on, is split off into helper methods; the parts are separate objects, so parts shared between two pipelines are not covered by the theorems over runs, which start from fresh parts.
- Merkle.BuildProof: one round of its outer loop, and the shuffle loop and the single draw of `Vrf.SelectCommittee`, are methods of their own; the shuffle takes the drawn choices as a ghost argument that only its proof uses.
- Receivers.CGATCReceiver.ReceiveMessage: the policy is split into helper methods; the pipelines of the receivers are values in a map rather than shared objects; which texts contain a suspicious phrase is an arbitrary predicate; the latency is not modelled.
- Materialize.MessageBuilder.Build: only the envelope and the chain state; tokens, nonces and capabilities of the built message are arbitrary in the theorems. Sessions and tasks are arbitrary functions of the sender, and senders are assumed not to share a session and id.
- Isolation.IsolationPossibleIff: where beta reaches tau_4 and alpha does not, it supposes that known peers can push often enough, because that depends on which signatures, capabilities and different digests there are; what a mixture of both charges reaches when they cannot is not determined. Where tau_4 is out of reach, or in reach of alpha, nothing is supposed.
- Vrf.SelectCommittee: that signing and hashing make the choice unpredictable is a cryptographic property and not modelled.
- `restrict_scopes` and `HighRiskAuthorizer`: easy members; the former is not monotone in the level.
- `ImpactGraph.reset`, `SessionChainTracker.snapshot`, `is_acceptable`, `is_allowed`, `make_share`: easy members.
- Agent cards, the other baseline receivers, workload generators, the ASGI adapter and network code: glue without a state machine of its own.
