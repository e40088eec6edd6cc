# SovereignEdge-TEE-Agent: verified model

A Dafny model of the parts of SovereignEdge whose correctness spans several calls or several
parties, with machine-checked proofs. `dafny verify dfyconfig.toml` checks everything. It takes up
where the Lean files under `verification/` stop: whole runs, more than one party, ill-formed input,
and the floating-point cast.

## What is modelled

**The post-quantum channel** (`Octets`, `HybridKem`, `PqcSession`, `PqcManager`, `PqcNetwork`,
`PqcReplay`, `PqcActivity`, `PqcChannel`, `PqcProgress`, `PqcExactSafety`). `HybridKem`,
`PqcSession` and `PqcManager` follow the Rust code method by method: local 64-byte buffers, counters
updated in place, the session list. `PqcNetwork` puts any number of such sessions on a network that may drop,
reorder, duplicate, reflect, relabel and forge frames, hand an encapsulation over again or with its
X25519 key encoded differently, and take part in key exchanges of its own; `PqcReplay.Replay`
carries out any run of it on manager and session objects.

Cryptographic outputs are symbolic. A digest is 32 octets that remember what was hashed, so SHA-256
is injective. A public X25519 key is a byte string, and X25519 does not tell all byte strings apart:
bit 255 is masked and large values are reduced (section 5 of RFC 7748), low-order components vanish,
and keys of low order give zeros; apart from that the shared secret is a symmetric function of the
two scalars (section 6.1) and, for one secret, tells different points apart. ML-KEM decapsulation
returns the agreed secret for ciphertexts made to its key and an implicit-rejection value for others
(sections 7.2 and 7.3 of FIPS 203). A sealed frame is a term carrying key, nonce, associated data
and plaintext. The byte layouts are concrete: the low 12 bytes of the little-endian counter, the
8-byte frame id, and shared key, label and zero padding.

What the network cannot do is seal under a key when one of the two secrets behind it is hidden from
it: an honest draw encapsulated to an ML-KEM key whose seed it lacks, or X25519 between an honest
ephemeral scalar and a static one it lacks. Which principals' X25519 secrets and which principals'
ML-KEM seeds it lacks is a parameter (`Secrets`) of every theorem, so each holds with one of the two
key exchanges broken altogether.

**Locking of the session list** (`ManagerLocks`): every call as lock acquisitions and releases, any
number of threads.

**The policy evaluator and its gate** (`F64`, `CastCompare`, `Policy`, `PolicyLaws`,
`ProofGenerator`). The cast `i64 as f64` is roundTiesToEven to 53 bits (section 4.3.1 of
IEEE 754-2019), defined on integers; thresholds are binary64 data including NaN and the infinities.

**The edge agent and its context buffer** (`ContextBuffer`, `AgentHistory`, `Trimming`, `EdgeAgent`).
Classes with the fields of the source; what they must hold, and every result handed back, is read off
the history of events.

**The printed logs and the gateway's accounting** (`TextCodec`, `ExecutionLog`, `ProofLog`,
`Gateway`). Text is the sequence of its UTF-8 bytes (in `Trimming`, of its scalar values); the decoders
are specification.

## Where a property needs a condition, or code and documentation differ

- `accept_session` takes an ML-KEM ciphertext it has accepted before. Both resulting sessions seal
  from counter 0 under one key, so an AES-GCM nonce is reused (against section 8 of NIST SP 800-38D),
  and the initiator accepts the second session's frames as the first one's. Refusing an encapsulation
  equal byte for byte to an earlier one does not help: with bit 255 of the X25519 key flipped it is a
  different one that leads to the same key (`ReplayReusesNonce`, `ReplayConfusesInitiator`). Reuse
  happens exactly when one principal accepted one ciphertext twice with X25519 keys that give it the
  same secret, and sent on both sessions (`NonceReusedIffReplayUsed`); from any point on the
  initiator's direction is safe exactly if there is one acceptor in that sense
  (`SafeIffSoleAcceptor`). A caller that refuses a repeated ML-KEM ciphertext is safe
  (`NoReplayIsSafe`, `ChannelSafety`). The comment at crates/pqc-transport/src/lib.rs:119-121 claims
  uniqueness for one session only, and that holds.
- Beyond 2^53 a threshold answer can be wrong (`StrictComparisonCanReject`,
  `LaxComparisonCanAccept`), always in the same direction for each operator and only when rounding
  lands on the threshold (`CastComparisons`).
- `==` also accepts some thresholds that are not equal: those strictly within 2^-52 of -1, 0 or 1
  when the metric rounds to that number (`EqualityOperator`, `EqualityCanAccept`).
- An execution log entry fails to determine its record exactly if the text `|ACTION:` occurs in the
  model name or in the action (`AmbiguousIffSeparatorInside`, with `TwoRecordsOneEntry`).
- Re-registering a policy whose circuit setup fails keeps the previous key, and proofs are then
  issued for the new policy under the old key (`FailedSetupKeepsOldKey`). Key and policy belong
  together exactly if the setup of the latest registration succeeded (`KeyBelongsToPolicyIff`). Every
  issued proof has the id `zk-proof-1`, because the proof counter is never advanced.
- The context buffer is documented as evicting by least recent use; the code evicts the oldest frame.
  Its documentation asks callers to respect two preconditions; the window it keeps is characterised
  here without them, and `CapsHoldIffNewestFits` says what each is needed for.
- `accept_session` does not tell who encapsulated: safety is of pairs whose initiator established to a
  key with a hidden half, and `StrangerIsHeard` shows an acceptor taking frames from nobody it knows.
- In `process_frame` of the edge agent the local fallback of the degraded mode and the buffering of
  the transitioning mode are unreachable between public calls.

## Model

| member | source | states |
|---|---|---|
| HybridKems.BothSidesAgree | crates/pqc-transport/src/lib.rs:220-283 | Whoever holds the key encapsulated to derives the sender's shared key, for all keys and randomness |
| HybridKems.HybridKem.EncapsulateToPeer | crates/pqc-transport/src/lib.rs:249-283 | The buffer-filling code computes the digest of X25519 secret then ML-KEM secret; an invalid ML-KEM key is the only error |
| HybridKems.HybridKem.DecapsulateFromPeer | crates/pqc-transport/src/lib.rs:220-244 | The receiver's buffer holds the same two secrets in the same order, the X25519 key taken in whatever encoding it arrives; a ciphertext of wrong length is the only error |
| HybridKems.DeriveDirectionKey | crates/pqc-transport/src/lib.rs:362-371 | The zeroed 64-byte buffer with key and label copied in is exactly the key material that is hashed |
| HybridKems.DirectionKeyInjective | crates/pqc-transport/src/lib.rs:362-371 | Keys differ between directions and between shared keys: the SEND/RECV layout loses nothing |
| HybridKems.DirectionKeyMaterial | crates/pqc-transport/src/lib.rs:362-371 | What is hashed: 32 bytes of shared key, the four letters SEND or RECV, 28 zeros |
| PqcSessions.SessionKeys | crates/pqc-transport/src/lib.rs:362-406 | The initiator seals under the SEND hash and opens with the RECV hash, the responder the reverse, both from number 0 |
| HybridKems.SharedKeyInjective | crates/pqc-transport/src/lib.rs:270-280 | A shared key determines both secrets it was made of |
| HybridKems.SharedKeyMaterial | crates/pqc-transport/src/lib.rs:270-277 | What is hashed: the X25519 secret in the first 32 bytes, the ML-KEM secret in the last 32 |
| HybridKems.ExchangeFailsIff | crates/pqc-transport/src/lib.rs:220-330 | Encapsulation fails iff the ML-KEM key is invalid, decapsulation iff the ciphertext has the wrong length, each with InvalidMlKemKey; what is sent otherwise |
| Octets.SameSharedIffAlike | crates/pqc-transport/src/lib.rs:286-291 | With one secret, two received X25519 keys lead to the same shared bytes exactly if they encode one point or are both of low order |
| Octets.NonceInjective | crates/pqc-transport/src/lib.rs:129-130 | Truncating the u128 counter to 12 bytes loses nothing below 2^64 |
| Octets.NonceReadBack | crates/pqc-transport/src/lib.rs:129-130 | Below 2^64 the twelve nonce bytes read least significant first are the counter |
| Octets.FrameAadInjective | crates/pqc-transport/src/lib.rs:426 | The associated data determines the frame id |
| Octets.FrameAadReadBack | crates/pqc-transport/src/lib.rs:426 | The eight bytes read least significant first are the frame id |
| PqcSessions.PqcSession.Encrypt | crates/pqc-transport/src/lib.rs:122-146 | Succeeds iff the counter is below 2^64 and the plaintext within the cipher limit; a success seals under the counter, advances it by one and refreshes the activity time, a failure changes nothing; which error |
| PqcSessions.PqcSession.Decrypt | crates/pqc-transport/src/lib.rs:148-173 | Succeeds iff the counter is below 2^64 and the ciphertext is what was sealed under that number with that data; a success advances the counter by one and refreshes the activity time, a failure changes nothing; which error |
| PqcSessions.InOrderTransfer | crates/pqc-transport/src/lib.rs:122-173 | Frames handed over in order all decrypt to what was sent, counters in lockstep, up to 2^64 messages |
| PqcSessions.SenderExhausted | crates/pqc-transport/src/lib.rs:123-127 | After 2^64 messages no further send does anything |
| PqcSessions.ReceiverExhausted | crates/pqc-transport/src/lib.rs:149-153 | After 2^64 messages no further delivery does anything |
| PqcSessions.GapBlocks | crates/pqc-transport/src/lib.rs:148-173 | Of the frames a sender made, any selection in any order, repeated and relabelled, changes nothing in the receiver while the first it lacks is left out |
| PqcManagers.PqcTransportManager.EstablishSession | crates/pqc-transport/src/lib.rs:355-383 | One new session with SEND/RECV keys joins the list, or the key exchange error and nothing changes |
| PqcManagers.PqcTransportManager.AcceptSession | crates/pqc-transport/src/lib.rs:387-416 | The same with the directions swapped |
| PqcManagers.PqcTransportManager.EncryptFrame | crates/pqc-transport/src/lib.rs:419-435 | The frame id is bound as associated data and sent alongside |
| PqcManagers.PqcTransportManager.DecryptFrame | crates/pqc-transport/src/lib.rs:438-446 | Opens with the received frame id as associated data |
| PqcManagers.PqcTransportManager.CleanupExpired | crates/pqc-transport/src/lib.rs:449-458 | The list keeps exactly the unexpired sessions in order, and the count returned is what went |
| PqcManagers.CleanupConfluent | crates/pqc-transport/src/lib.rs:449-458 | Two cleanups, in either order of their times, leave what one at the later time leaves; counts add up |
| PqcManagers.KeptIffActive | crates/pqc-transport/src/lib.rs:175-178 | A session survives exactly if listed and active within the timeout, even when the clock steps back |
| PqcActivity.ActivityIsLastUse | crates/pqc-transport/src/lib.rs:108-170 | In every run the activity time of a session is that of the step that opened it or last sent or accepted something on it |
| PqcActivity.CleanupKeepsUsed | crates/pqc-transport/src/lib.rs:449-458 | A cleanup after any run keeps a session iff that step lies within the timeout |
| PqcActivity.CleanupKeepsRecent | crates/pqc-transport/src/lib.rs:449-458 | With a clock that does not run backwards: iff its opening or some successful use of it lies within the timeout |
| PqcNetwork.RunKeepsInv | crates/pqc-transport/src/lib.rs:355-446 | Over every run: counters match what was sent and accepted, keys match origins, honest draws are fresh, and whatever was accepted under a guarded key was sent in that position |
| PqcNetwork.SentIsOnWire | crates/pqc-transport/src/lib.rs:419-435 | The frame `encrypt_frame` returns is the one the run counts as sent, with its number |
| PqcReplay.Replay | crates/pqc-transport/src/lib.rs:355-446 | A manager that carries out the calls of any run has its session objects in the states the run computes, and has sent and accepted what the run says |
| PqcChannel.SendKeyOwner | crates/pqc-transport/src/lib.rs:362-406 | Two sessions seal under one key exactly if they are one session, or acceptances by one principal of one ciphertext with X25519 keys that give it the same secret |
| PqcChannel.PairedKeysMirror | crates/pqc-transport/src/lib.rs:362-406 | The ends of a session hold mirrored keys, under which the network cannot seal as long as the X25519 secret or the ML-KEM seed of the key established to is hidden |
| PqcChannel.PairedIffSameKey | crates/pqc-transport/src/lib.rs:220-283 | A session established to a key with a hidden half and an accepted one derive the same key exactly if ML-KEM owner and ciphertext match and the X25519 secrets agree |
| PqcChannel.DeliveredIsPaired | crates/pqc-transport/src/lib.rs:355-416 | An encapsulation delivered as sent to the principal it was made for makes such a pair |
| PqcChannel.ResponderAcceptsPrefix | crates/pqc-transport/src/lib.rs:419-446 | In every run the (frame id, payload) pairs the responder accepted are a prefix of those the initiator sent |
| PqcChannel.InitiatorAcceptsPrefix | crates/pqc-transport/src/lib.rs:419-446 | The same in the other direction when no other session of that principal accepted the same ciphertext with an X25519 key giving the same secret |
| PqcChannel.ReflectionRejected | crates/pqc-transport/src/lib.rs:394-404 | No session accepts a frame it sent itself, under any frame id |
| PqcChannel.NonceReusedIffReplayUsed | crates/pqc-transport/src/lib.rs:122-146 | Across all sessions and directions a (key, nonce) pair is used twice iff a principal accepted one ciphertext twice, with X25519 keys that give it the same secret, and sent on both sessions |
| PqcChannel.NoReplayIsSafe | crates/pqc-transport/src/lib.rs:387-392 | If no principal accepts an ML-KEM ciphertext twice, no nonce is reused and every acceptor is the only one |
| PqcChannel.ChannelSafety | crates/pqc-transport/src/lib.rs:355-446 | Under that guard both directions are safe in every run |
| PqcExactSafety.SafeIffSoleAcceptor | crates/pqc-transport/src/lib.rs:387-446 | From any reachable point, with room in the counters and the exchange not accepted again, the initiator accepts only what its peer sent iff the peer is the sole acceptor, re-encoded keys included |
| PqcExactSafety.SecondAcceptorBreaks | crates/pqc-transport/src/lib.rs:387-446 | Another session sealing under the key the initiator opens with always leads, by sends and deliveries alone, to a run where the prefix fails |
| PqcProgress.CatchUp | crates/pqc-transport/src/lib.rs:419-446 | After any run, delivering the missing frames in order completes the stream |
| PqcProgress.PairCanCatchUp | crates/pqc-transport/src/lib.rs:419-446 | With a sole acceptor, both directions of a session can be completed without further sends |
| PqcProgress.MissingFrameBlocks | crates/pqc-transport/src/lib.rs:148-173 | In every continuation of every run the responder moves past the frame number it awaits iff it is handed the frame the initiator sent under that number, with its own frame id |
| PqcProgress.MissingAnswerBlocks | crates/pqc-transport/src/lib.rs:148-173 | The same for the initiator, with a sole acceptor |
| PqcProgress.ReplayReusesNonce | crates/pqc-transport/src/lib.rs:286-291 | Accepting an encapsulation and then the same one in any encoding of its X25519 key reuses key and nonce; refusing only equal encapsulations lets every re-encoding through |
| PqcProgress.ReplayConfusesInitiator | crates/pqc-transport/src/lib.rs:387-446 | After such a replay the initiator accepts the second session's frame in place of the first one's |
| PqcProgress.StrangerIsHeard | crates/pqc-transport/src/lib.rs:387-416 | The initiator is not authenticated: with every secret hidden an acceptor takes any message from a stranger, though no session sent it |
| ManagerLocks.MutualExclusion | crates/pqc-transport/src/lib.rs:375-458 | Over every run at most one thread holds any lock, and a cleanup visits exactly the list it prunes |
| ManagerLocks.CriticalSections | crates/pqc-transport/src/lib.rs:375-463 | Over every run no two threads are inside one session (frame call, id for the log, expiry check) and no two inside the list (push, pruning, count) |
| ManagerLocks.StepFollowsProgram | crates/pqc-transport/src/lib.rs:375-463 | Every step makes the next lock operation of its call: which locks each call takes and gives back, in which order |
| ManagerLocks.OpenedStaysListed | crates/pqc-transport/src/lib.rs:376-409 | Over every run a session that was opened stays listed until some cleanup finishes |
| ManagerLocks.ListedWasOpened | crates/pqc-transport/src/lib.rs:376-409 | Whatever is listed was pushed by an opening before |
| ManagerLocks.DeadlockFree | crates/pqc-transport/src/lib.rs:449-458 | For any number of threads and sessions, some unfinished thread can always take a step |
| ManagerLocks.AllCallsFinish | crates/pqc-transport/src/lib.rs:408-458 | Every schedule of the calls under way is finite, and ends with all of them done |
| F64.RoundIsNearestTiesToEven | crates/zk-proofs/src/lib.rs:322-326 | The cast gives a representable value, none is nearer, ties go to the even significand |
| F64.RoundMonotone | crates/zk-proofs/src/lib.rs:322-326 | The cast is monotone across binades and zero |
| F64.RoundFixesRepresentable | crates/zk-proofs/src/lib.rs:322-326 | The cast fixes every representable value |
| F64.RoundErrorAtMost512 | crates/zk-proofs/src/lib.rs:322-326 | Over i64 the cast moves a value by at most 512 |
| F64.RoundExactBelowTwo53 | crates/zk-proofs/src/lib.rs:322-326 | Up to 2^53 in size the cast is exact |
| CastCompare.CastComparisons | crates/zk-proofs/src/lib.rs:321-325 | `>` and `<` never accept what is exactly false, `>=` and `<=` never reject what is exactly true; each is wrong iff rounding lands on the threshold from the other side |
| CastCompare.OrderIsExact | crates/zk-proofs/src/lib.rs:322-325 | The four comparisons are the order of the real numbers m * 2^e, infinities outermost, NaN unordered |
| CastCompare.WrongOnlyNearThreshold | crates/zk-proofs/src/lib.rs:321-325 | A wrong answer needs a finite threshold within 512 and a metric beyond 2^53 |
| CastCompare.ExactForEveryThreshold | crates/zk-proofs/src/lib.rs:321-325 | For which metrics each operator is exact against all thresholds, both directions |
| CastCompare.StrictComparisonCanReject | crates/zk-proofs/src/lib.rs:322-324 | Metrics beyond the threshold that `>` and `<` reject |
| CastCompare.LaxComparisonCanAccept | crates/zk-proofs/src/lib.rs:323-325 | Metrics beyond the threshold that `<=` and `>=` accept |
| CastCompare.EqualityOperator | crates/zk-proofs/src/lib.rs:326 | Exactly when `==` accepts, with the subtraction rounded too |
| CastCompare.NearIsReal | crates/zk-proofs/src/lib.rs:326 | The epsilon condition is a distance below 2^-52 between real numbers |
| CastCompare.EqualityCanAccept | crates/zk-proofs/src/lib.rs:326 | Unequal numbers that `==` accepts, by rounding the metric and by the epsilon |
| Policy.EvaluatorIsWalk | crates/zk-proofs/src/lib.rs:304-347 | The recursive evaluator is the walk of a decision tree over its leaves, verdicts and errors alike |
| Policy.ErrorIsFirstConsulted | crates/zk-proofs/src/lib.rs:304-347 | There is an error iff the last leaf consulted has an absent field or an operator that is none of the five, and no earlier one has; the absent field wins |
| Policy.ConsultedLeftToRight | crates/zk-proofs/src/lib.rs:330-345 | The leaves consulted are a subsequence of the leaves as written |
| Policy.OutcomeDependsOnConsulted | crates/zk-proofs/src/lib.rs:330-345 | Data that agree on the consulted leaves give the same outcome: leaves behind a decision never matter |
| Policy.VerdictStableUnderExtension | crates/zk-proofs/src/lib.rs:131-133 | Adding fields to the data never changes a verdict |
| Policy.VerdictIsSound | crates/zk-proofs/src/lib.rs:304-347 | A verdict is the two-valued meaning however the unevaluable leaves are read; no well-formedness assumed |
| PolicyLaws.ThresholdOutcome | crates/zk-proofs/src/lib.rs:312-329 | The outcome of every threshold on every data: missing field, invalid operator, or for each of the five operators the answer in terms of the exact order and of the rounded metric meeting the threshold |
| PolicyLaws.RangeOutcome | crates/zk-proofs/src/lib.rs:306-311 | The outcome of every range: both ends included |
| PolicyLaws.OutcomesAtTwo53 | crates/zk-proofs/src/lib.rs:321-326 | How the evaluator decides 2^53 + 1 against 2^53 under each operator |
| PolicyLaws.VerdictMeaning | crates/zk-proofs/src/lib.rs:304-347 | Every verdict, whatever the operators, is And and Or over those answers |
| PolicyLaws.FlattenPreservesOutcome | crates/zk-proofs/src/lib.rs:330-345 | Flattening nested And and Or everywhere keeps verdict, error and the leaves asked, and reaches normal form |
| PolicyLaws.StrictPolicyNeverOverAccepts | crates/zk-proofs/src/lib.rs:304-347 | A policy of ranges and strict thresholds accepts only what holds in exact arithmetic |
| PolicyLaws.LaxPolicyNeverOverRejects | crates/zk-proofs/src/lib.rs:304-347 | A policy of ranges, non-strict thresholds and `==` rejects only what fails in exact arithmetic |
| PolicyLaws.SmallMetricsDecidedExactly | crates/zk-proofs/src/lib.rs:304-347 | With metrics up to 2^53 verdicts are exact, whatever the operators, unless `==` meets a threshold within 2^-52 of -1, 0 or 1 |
| ProofGenerator.ZkProofGenerator.RegisterPolicy | crates/zk-proofs/src/lib.rs:192-223 | Both maps always answer with the latest policy and the latest successful setup of the history |
| ProofGenerator.ZkProofGenerator.VerifyConstraints | crates/zk-proofs/src/lib.rs:291-302 | The early-return loop decides the conjunction, errors included |
| ProofGenerator.ZkProofGenerator.GenerateProof | crates/zk-proofs/src/lib.rs:226-289 | A proof is issued iff the latest policy of the id holds and some setup succeeded; otherwise which check failed first |
| ProofGenerator.ZkProofGenerator.ExportExecutionLog | crates/zk-proofs/src/lib.rs:372-382 | The accumulated text is the export of the list |
| ProofGenerator.LatestPolicyIsLast | crates/zk-proofs/src/lib.rs:222 | The policy under an id is that of the last registration under it, whatever was registered before |
| ProofGenerator.LatestKeyIsLastSetup | crates/zk-proofs/src/lib.rs:203-215 | The key under an id is that of the last registration under it whose setup succeeded |
| ProofGenerator.KeyBelongsToPolicyIff | crates/zk-proofs/src/lib.rs:192-223 | For every history and id the key comes from the registration of the policy in force iff that setup succeeded, otherwise from an earlier one |
| ProofGenerator.FailedSetupKeepsOldKey | crates/zk-proofs/src/lib.rs:203-222 | A proof is issued for a policy whose own setup failed, under the key of the one before |
| ProofGenerator.IssuedProofMeansStrictPolicyHolds | crates/zk-proofs/src/lib.rs:226-248 | What a proof issued after any registrations says: every constraint of the policy registered last holds by the answers of its leaves, those of ranges and strict thresholds in exact arithmetic, and whose key it carries |
| ProofLog.DecodeLogIffExported | crates/zk-proofs/src/lib.rs:372-382 | The decoder inverts the export exactly on lists whose ids and key hashes have no '\|' |
| ProofLog.LineText | crates/zk-proofs/src/lib.rs:375-379 | The text of a line, written out |
| Context.ContextBuffer.Push | crates/common/src/lib.rs:129-146 | Both eviction loops together leave the longest suffix of everything pushed that fits the caps, or the newest frame alone, with no precondition; evicted and kept frames make up the history in order |
| Context.ContextBuffer.EvictOldest | crates/common/src/lib.rs:134-135 | The byte count stays exact: the saturating subtraction never saturates |
| Context.ContextBuffer.GetRecent | crates/common/src/lib.rs:148-150 | The latest frames pushed, newest first |
| Context.WindowUnique | crates/common/src/lib.rs:129-146 | The window of a history is unique |
| Context.CapsHoldIffNewestFits | crates/common/src/lib.rs:107-111 | Which caps hold: the byte cap iff the newest frame fits it, the frame cap iff it is not zero |
| AgentHistory.RunMeansHistory | crates/edge-agent/src/lib.rs:157-252 | After any events: mode from the latest quality, each counter the number of matching positions, the spool the frames since the last transition into Online |
| AgentHistory.ModeInNumbers | crates/common/src/lib.rs:45-52 | After any history when the agent is offline, degraded and online, in numbers, NaN and the infinities included |
| AgentHistory.OnlineBeforeAnyUpdate | crates/edge-agent/src/lib.rs:79-91 | Before any update the agent is online with a network of zeros |
| AgentHistory.FramesNumbered | crates/edge-agent/src/lib.rs:215-216 | Buffered frames carry consecutive numbers, the first ever being 1 |
| AgentHistory.RoutingConservation | crates/edge-agent/src/lib.rs:222-251 | Every frame is offloaded or handled locally, never both |
| AgentHistory.TransitionsChain | crates/edge-agent/src/lib.rs:181-211 | The transitions link up from Online to the present mode, each a real change |
| AgentHistory.CallbackSeesSuffix | crates/edge-agent/src/lib.rs:208-210 | The callback is told the transitions made since it was installed, all of them if installed first |
| AgentHistory.WorseNetworkNeverOffloadsMore | crates/edge-agent/src/lib.rs:157-179 | On the same interleaving the agent with the worse network is never in a milder mode, never offloads more, never handles less locally |
| EdgeAgents.EdgeAgent.UpdateNetworkQuality | crates/edge-agent/src/lib.rs:157-165 | New state of the agent, with a transition only on a change of class |
| EdgeAgents.EdgeAgent.TransitionMode | crates/edge-agent/src/lib.rs:181-211 | Mode, last mode, counter, callback and the clearing of the buffer on entering Online |
| EdgeAgents.EdgeAgent.Route | crates/edge-agent/src/lib.rs:222-251 | Which counter moves and what result each mode gives, unreachable modes included: the cloud answer, the trimmed text of the backend, its failure, or a buffered frame |
| EdgeAgents.EdgeAgent.ProcessFrame | crates/edge-agent/src/lib.rs:214-252 | New state, and the result: local iff offline, then the trimmed text of the backend or its failure; the cloud answer otherwise; never a buffered frame |
| EdgeAgents.Replay | crates/edge-agent/src/lib.rs:157-252 | Any sequence of calls leaves the agent in the state its history determines and hands back the results it determines, as many from each source as the counters say |
| EdgeAgents.ResultsAreCounted | crates/edge-agent/src/lib.rs:222-251 | Over any history, cloud results and offloads agree in number, and local results and local inferences |
| Trimming.TrimIs | crates/edge-agent/src/lib.rs:290 | Trimming leaves the one trimmed part with only Unicode white space around it |
| EdgeAgents.BufferIsWindowOfSpool | crates/edge-agent/src/lib.rs:220 | The buffer is the window, for 100 frames and 10485760 bytes, of the frames received since the last return to Online |
| EdgeAgents.RestingState | crates/edge-agent/src/lib.rs:157-256 | Between calls: mode as classified, frames_processed = frame_counter = offloads + locals, last mode as in the transition chain |
| TextCodec.NumberIffDecimal | crates/tee-gateway/src/lib.rs:428-434 | Reading a decimal accepts exactly what printing one produces |
| TextCodec.HexIff | crates/tee-gateway/src/lib.rs:438 | Reading lower-case hexadecimal, most significant digit first, accepts exactly what printing bytes produces |
| ExecutionLog.DecodeIffGenerated | crates/tee-gateway/src/lib.rs:427-439 | The decoder, which reads the digest back digit by digit, recovers all four fields of an entry and accepts nothing else, for any action text and '\|'-free model name; the last field spells the digest of the text before it |
| ExecutionLog.EntryText | crates/tee-gateway/src/lib.rs:428-438 | The text of an entry, written out |
| ExecutionLog.LogEntriesUnique | crates/tee-gateway/src/lib.rs:427-439 | Among records with '\|'-free model names no two print the same entry |
| ExecutionLog.SameEntryIff | crates/tee-gateway/src/lib.rs:427-439 | Two records print the same entry iff frame id and tokens agree and model and action read the same around the action label |
| ExecutionLog.AmbiguousIffSeparatorInside | crates/tee-gateway/src/lib.rs:428-434 | Another record prints the same entry iff `\|ACTION:` occurs in the model name or in the action |
| ExecutionLog.TwoRecordsOneEntry | crates/tee-gateway/src/lib.rs:428-434 | Two different records with one entry |
| ExecutionLog.HashFieldInjective | crates/tee-gateway/src/lib.rs:436-438 | The printed hex digits determine the digest |
| Gateway.TeeGateway.ProcessFrame | crates/tee-gateway/src/lib.rs:273-296 | Counts per source are its occurrences and add up to all frames, and a source was last active when its latest frame came, whether or not the model call fails |
| Gateway.TeeGateway.Stats | crates/tee-gateway/src/lib.rs:442-449 | Active sessions are the distinct sources seen |
| Gateway.TeeGateway.GenerateExecutionLog | crates/tee-gateway/src/lib.rs:427-439 | The text of the entry written out; it decodes to the response's fields if the model name has no '\|', and no other record has it if neither text holds the action label |

## Left out

- AES-GCM, X25519, ML-KEM and SHA-256 internals: abstract operations with the laws named above; a collision or a forgery against them is outside the model.
- Leaks of an honest party's one-time randomness, and secrets lost in the middle of a run: what the network lacks is fixed for a run.
- Refusing traffic on expired sessions: the source never does, expiry only prunes the list.
- The zero `nonce` and `tag` fields of an encrypted frame, which carry nothing.
- `ManagerLocks` has the locks of a single manager, and leaves open which sessions a finished sweep drops; which ones is stated by `CleanupExpired`.
- Groth16 setup and proving, `serialize_proof`, `verify_proof`: foreign code, or a test for non-emptiness; setup outcome, proof bytes and trace hash are inputs.
- Network probing, wall clock, randomness, threads that only sleep, tracing and mutex poisoning: inputs, or omitted.
- Local inference and the model call are arbitrary inputs; prompts, HTTP and JSON are not modelled.
- Result metadata, confidences and time stamps of the edge agent, and the frame fields no modelled code reads.
- Machine overflow of `usize` sums, of the u64 counters and of the timeout in nanoseconds: integers are unbounded.
- TEE sealing, packet capture, hardware detection, command-line programs: easy members or input and output.
