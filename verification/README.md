# KyberPipe, verified

A Dafny model of the parts of KyberPipe where a mistake would be silent: the double
ratchet that encrypts every message, the recovery of a ratchet that has fallen behind,
the sharing of the master secret, the rollback guard and the crash-safe store of session
snapshots, the registry of key handles, the wire codec, the pairing code and the image
rotations of the QR scanner.  `dafny verify dfyconfig.toml` checks all of it.

## How the files fit together

| files | part |
|---|---|
| `Symbolic` | Keys as terms, ideal sealing, and a key encapsulation that rejects implicitly. |
| `RatchetSpec`, `RatchetRuns`, `Receiving` | What each ratchet operation does to a session value; runs of operations; the two receive paths as one. |
| `Ratchet` | The same operations as methods of an object, with their loops, proved equal to those functions. |
| `SkipCache`, `Generations`, `AtMostOnce`, `ChainRefinement`, `PreviousGeneration`, `ReplayWindow`, `SendAlignment`, `NoDesync`, `Handoff`, `AckLog`, `LateAck`, `RekeyRace`, `ConfirmQueue`, `RekeySlots`, `RekeyBookkeeping` | What holds of the ratchet over one call, one generation, two peers and every run. |
| `SyncSpec`, `SyncBudget`, `SyncRecovery`, `LinkRecovery`, `Sync` | Synchronize processing: functions, the budget over runs, recovery, and the object. |
| `Gf256`, `Gf256Source`, `Polynomial`, `Shamir`, `ShamirTheorems`, `ShamirMeta` | The field from its tables, polynomials over it, splitting and reconstruction. |
| `Watermark`, `StoreSpec`, `StoreCrash`, `StoreDamage`, `Store` | Rollback marks, the persist sequence with its crash points, restore. |
| `HandleSpec`, `HandleTheorems`, `HandleOrder`, `Handles` | The handle registry. |
| `TlvSpec`, `TlvTheorems`, `Tlv`, `Sas`, `Rotate` | Codec, pairing code, rotations. |

## Reading the model

Cryptography is symbolic.  Chain keys, roots and message keys are terms, so derivation is
injective.  A ciphertext opens under exactly the key, nonce and associated data it was
sealed with.  Decapsulation with the wrong key pair yields an unrelated secret instead of
an error, as `core-crypto/src/crypto/kem.rs` does.  Hashes, tags and fingerprints are
arbitrary functions; where a result needs injectivity, the statement asks for it.
Randomness, clocks and the success of foreign calls are parameters, so every statement is
for all of their values.

Where the code does not keep what its comments promise, the code is modelled as it is, and
the exact condition is proved: `DirectionWorksExactly`, `ReusedNumberExactly`,
`StrayExactly`, `AckSafeExactly` with the run of `LateAckCommits`, `NextMessageArrives`,
`CrossGenerationRecoversExactly`, `WideGapRecoversExactly`,
`RaceSettledExactly`, `NewProposalStaleExactly`, `HistoryNeverConsulted`, `RefusalExactly`,
`RecognisedExactly`, `SnapshotAfterRekeyRefused`, `NeverFallsExactly`, `CurrentExactly`,
`EmptyRestoreExactly`, `DamageAfterTwoPersists`, `ReportedCountExactly`, `CreateExactly`, `EvictionForgetsExactly`,
`MetaRoundTrip`, `OneShareTampered`, `RoundTripExactly`, `ReencodeExactly`.  In
particular a refused import counts as restored, the eviction precedes the duplicate check
of a creation, and a send moves its counter before the steps that may fail.

## Model

| member | source | states |
|---|---|---|
| `Gf256.MulComm` | core-crypto/src/crypto/shamir.rs:150-158 | Multiplication by log and exp tables is commutative, for any tables whose entries step by a linear generator. |
| `Gf256.MulAssoc` | core-crypto/src/crypto/shamir.rs:150-158 | It is associative. |
| `Gf256.MulDistrib` | core-crypto/src/crypto/shamir.rs:150-158 | It distributes over the field addition. |
| `Gf256.MulOne` | core-crypto/src/crypto/shamir.rs:150-158 | The first exp entry is its unit. |
| `Gf256.MulInv` | core-crypto/src/crypto/shamir.rs:161-168 | The table inverse of a nonzero element is its inverse. |
| `Gf256.MulZero` | core-crypto/src/crypto/shamir.rs:150-158 | A product is zero exactly when a factor is. |
| `Gf256Source.SourceValid` | core-crypto/src/crypto/shamir.rs:171-207 | The repository's 256-entry tables, entry by entry, are such tables for the generator 3 with xor as addition. |
| `Gf256Source.SourceMulIsPolynomialProduct` | core-crypto/src/crypto/shamir.rs:150-158 | The table product of any two bytes equals shift-and-add multiplication modulo x^8+x^4+x^3+x+1. |
| `Polynomial.TooManyRoots` | core-crypto/src/crypto/shamir.rs:210-216 | A polynomial with as many distinct roots as coefficients is zero everywhere. |
| `Polynomial.InterpolateAtPoint` | core-crypto/src/crypto/shamir.rs:219-235 | Lagrange interpolation through distinct points takes the given value at each of them. |
| `Polynomial.InterpolationTheorem` | core-crypto/src/crypto/shamir.rs:219-235 | From the values at at least as many distinct points as coefficients, interpolation yields the polynomial's value everywhere. |
| `Polynomial.UniquePolynomial` | core-crypto/src/crypto/shamir.rs:219-235 | Any values at n distinct points are taken by exactly one polynomial with n coefficients. |
| `Shamir.EvalLoop` | core-crypto/src/crypto/shamir.rs:210-216 | The Horner loop computes the polynomial's value. |
| `Shamir.InterpolateLoop` | core-crypto/src/crypto/shamir.rs:219-235 | The two nested loops compute the Lagrange sum. |
| `Shamir.SplitSecret` | core-crypto/src/crypto/shamir.rs:241-265 | Accepts exactly 1 <= k <= n <= 255; share i then holds its coordinate, k and the value of every byte's polynomial there. |
| `Shamir.ReconstructSecret` | core-crypto/src/crypto/shamir.rs:268-309 | Every error in the code's order, ragged shares among them, the underflow panic on a share shorter than two bytes, and otherwise the interpolation at 0 of every byte. |
| `Shamir.Sort` | core-crypto/src/crypto/shamir.rs:286-295 | The coordinates sorted for the duplicate check: sorted and a permutation. |
| `ShamirTheorems.RoundTrip` | core-crypto/src/crypto/shamir.rs:241-309 | Any k or more shares at distinct coordinates rebuild exactly the secret, for every k, n, secret and choice of coefficients. |
| `ShamirTheorems.RepositoryRoundTrip` | core-crypto/src/crypto/shamir.rs:241-309 | The round trip for the repository's own tables. |
| `ShamirTheorems.ThresholdExact` | core-crypto/src/crypto/shamir.rs:253-263 | For any k-1 shares and any candidate byte exactly one choice of the random coefficients produces those shares. |
| `ShamirTheorems.OneShareTampered` | core-crypto/src/crypto/shamir.rs:219-235 | Changing one used value changes the recovered byte if and only if no other used coordinate is 0. |
| `ShamirTheorems.ReconstructVerdict` | core-crypto/src/crypto/shamir.rs:268-309 | On every input: when a secret comes back and which complaint is made otherwise. |
| `ShamirMeta.SplitWithMeta` | core-crypto/src/crypto/shamir.rs:316-349 | Shares carry index, threshold, total, tag, verify key and secret hash of one split. |
| `ShamirMeta.ReconstructWithMeta` | core-crypto/src/crypto/shamir.rs:395-444 | The first complaint in share order, or the reconstruction behind the secret-hash check. |
| `ShamirMeta.MetaRoundTrip` | core-crypto/src/crypto/shamir.rs:316-444 | Genuine shares pass the consistency check if and only if neither the verify key nor the hash is the all-zero legacy value, and then rebuild the secret. |
| `ShamirMeta.ConsistentExactly` | core-crypto/src/crypto/shamir.rs:359-427 | Shares are accepted if and only if all name one split, hash and key are not zero, each starts with the coordinate of its index and each tag is the MAC of the share's own fields. |
| `ShamirMeta.ChangedTagRefused` | core-crypto/src/crypto/shamir.rs:371-427 | One changed tag among genuine shares ends in the integrity error. |
| `ShamirMeta.ChangedShareRefused` | core-crypto/src/crypto/shamir.rs:395-444 | Whatever else is changed in one share under its old tag, reconstruction fails. |
| `ShamirMeta.MixedSharesRefused` | core-crypto/src/crypto/shamir.rs:407-424 | Shares of different splits, or with other parameters, are refused as such. |
| `ShamirMeta.HeadersAgree` | core-crypto/src/crypto/shamir.rs:316-349 | Header bytes and metadata of a genuine share say the same. |
| `ShamirMeta.NeverWrongSecret` | core-crypto/src/crypto/shamir.rs:428-444 | With an injective hash the metadata path never returns another secret. |
| `ShamirMeta.TamperedValueVisible` | core-crypto/src/crypto/shamir.rs:298-307 | Changing the value bytes of one used share changes the recovered secret. |
| `ShamirMeta.TamperedShareRefused` | core-crypto/src/crypto/shamir.rs:395-444 | So a share changed that way, even with a fresh valid tag, ends in the hash mismatch error. |
| `Ratchet.AdvanceReceivingChain` | core-crypto/src/crypto/ratchet/resync.rs:37-75 | The chain key behind the target and the message key of every position passed over, or the gap error. |
| `Ratchet.DeriveTentativeMsgKey` | core-crypto/src/crypto/ratchet/derive.rs:25-53 | The message key of the target position, or the gap error; numbers below the counter select the current key. |
| `Ratchet.PruneSkipKeys` | core-crypto/src/crypto/ratchet/resync.rs:79-94 | Keeps exactly the newest keys, up to the budget, of the current and the previous generation. |
| `Ratchet.RecordDelivery` | core-crypto/src/crypto/ratchet/state.rs:179-209 | Whole generations are dropped, oldest first, until the cap holds. |
| `Ratchet.CaptureWatermark` | core-crypto/src/crypto/ratchet/state.rs:495-512 | The highest delivered position at the moment a generation is left. |
| `Ratchet.EvictDueCarriers` | core-crypto/src/crypto/ratchet/encrypt.rs:57-74 | The carriers still fresh, in order, and the first one due for a re-send. |
| `Ratchet.DecapsulateWithRetained` | core-crypto/src/crypto/ratchet/decrypt.rs:334-353 | The first decapsulation that succeeds over the current and the retained pairs. |
| `Ratchet.OpenOnPrevious` | core-crypto/src/crypto/ratchet/previous_generation.rs:76-117 | The verdict of the retained chain: replay, out of range, authentication failure, or text, next key and skipped keys. |
| `Ratchet.DoubleRatchetState.constructor` | core-crypto/src/crypto/ratchet/state.rs:392-474 | A fresh session with the chains of its role. |
| `Ratchet.DoubleRatchetState.CancelPendingIncomingRekey` | core-crypto/src/crypto/ratchet/state.rs:670-680 | Clears the incoming slot and every stamp except the monotonic one. |
| `Ratchet.DoubleRatchetState.AdoptChains` | core-crypto/src/crypto/ratchet/state.rs:481-537 | Retains the receiving chain and its watermark, switches root and chains, bumps the generation, resets counters and window. |
| `Ratchet.DoubleRatchetState.CommitPendingRekey` | core-crypto/src/crypto/ratchet/state.rs:559-598 | The whole state after adopting the peer's proposal. |
| `Ratchet.DoubleRatchetState.CommitPendingRekeyWithRaceResolution` | core-crypto/src/crypto/ratchet/state.rs:548-553 | The same, with an own outgoing proposal cancelled first. |
| `Ratchet.DoubleRatchetState.CommitOutgoingRekey` | core-crypto/src/crypto/ratchet/state.rs:614-649 | The whole state after adopting our own acknowledged proposal. |
| `Ratchet.DoubleRatchetState.ProcessRekeyAck` | core-crypto/src/crypto/ratchet/state.rs:749-761 | Commits exactly when the number names a queued carrier. |
| `Ratchet.DoubleRatchetState.AttachRekey` | core-crypto/src/crypto/ratchet/encrypt.rs:57-188 | Re-send, new proposal, or nothing: the queue, the slot and the payload of one send. |
| `Ratchet.DoubleRatchetState.RatchetEncrypt` | core-crypto/src/crypto/ratchet/encrypt.rs:25-221 | The whole state and the message of one send, error paths included. |
| `Ratchet.DoubleRatchetState.DhRatchetRekey` | core-crypto/src/crypto/ratchet/derive.rs:74-144 | The whole state after an explicit rekey request. |
| `Ratchet.DoubleRatchetState.TryDecryptWithCachedKey` | core-crypto/src/crypto/ratchet/resync.rs:112-127 | A cached key is removed only after it has opened the message. |
| `Ratchet.DoubleRatchetState.TryDecryptWithChain` | core-crypto/src/crypto/ratchet/decrypt.rs:160-227 | Tentative derivation; chain, window and cache move only after the message opened. |
| `Ratchet.DoubleRatchetState.TryDecryptPreviousGeneration` | core-crypto/src/crypto/ratchet/previous_generation.rs:19-137 | Late messages of the previous generation, from the cache or the retained chain. |
| `Ratchet.DoubleRatchetState.TryDecryptWithPendingChain` | core-crypto/src/crypto/ratchet/decrypt.rs:457-498 | Opens on the pending chain at position 0 and, only on success, commits and advances. |
| `Ratchet.DoubleRatchetState.CommitAndAdvance` | core-crypto/src/crypto/ratchet/decrypt.rs:475-495 | The chain advance after the commit cannot fail: the tentative derivation has checked the same bound. |
| `Ratchet.DoubleRatchetState.RatchetDecrypt` | core-crypto/src/crypto/ratchet/decrypt.rs:57-156 | The whole state and result of the plain receive path. |
| `Ratchet.DoubleRatchetState.StageIncoming` | core-crypto/src/crypto/ratchet/decrypt.rs:313-399 | Phase 1: which carriers are dropped, which supersede, and the proposal derived with swapped chains. |
| `Ratchet.DoubleRatchetState.ResolveRekeyRaceAndAck` | core-crypto/src/crypto/ratchet/decrypt.rs:551-588 | The tie-break and the acknowledgement after an authenticated carrier. |
| `Ratchet.DoubleRatchetState.OpenStaged` | core-crypto/src/crypto/ratchet/decrypt.rs:413-505 | Phase 2: cached key, current chain, pending chain, with the outcome reported. |
| `Ratchet.DoubleRatchetState.RatchetDecryptWithRekey` | core-crypto/src/crypto/ratchet/decrypt.rs:241-506 | The whole state, text and outcome of the rekey-aware path. |
| `Ratchet.DoubleRatchetState.ResyncReceivingChain` | core-crypto/src/crypto/ratchet/resync.rs:142-231 | Stale proposals are evicted, fresh ones refuse, then the jump. |
| `Ratchet.DoubleRatchetState.JumpForward` | core-crypto/src/crypto/ratchet/resync.rs:186-230 | The bounded forward jump and its three refusals. |
| `SkipCache.PruneBounded` | core-crypto/src/crypto/ratchet/resync.rs:79-94 | After pruning the cache holds at most its budget. |
| `SkipCache.KeptByPrune` | core-crypto/src/crypto/ratchet/resync.rs:79-94 | No key of the last 2 * max_skip positions is pruned. |
| `SkipCache.PruneKeepsNewest` | core-crypto/src/crypto/ratchet/resync.rs:79-94 | What pruning keeps is of the current or the previous generation, and with a key every newer one. |
| `AtMostOnce.OpKeeps` | core-crypto/src/crypto/ratchet/decrypt.rs:86-227 | Every operation keeps the invariant and delivers only under a key never used before. |
| `AtMostOnce.NeverDeliveredTwice` | core-crypto/src/crypto/ratchet/decrypt.rs:95-226 | In every run of a session, against any sender who knows any keys, no message key and no ciphertext is delivered twice. |
| `AtMostOnce.NumberDeliveredOnce` | core-crypto/src/crypto/ratchet/decrypt.rs:86-227 | If what arrives seals each (generation, number) under one key, no (generation, number) is delivered twice in any run, even after the seen-set has been pruned. |
| `ChainRefinement.FreshAligned` | core-crypto/src/crypto/ratchet/state.rs:428-451 | A fresh session starts on its peer's sending chain. |
| `ChainRefinement.OwnCommitAligned` | core-crypto/src/crypto/ratchet/state.rs:614-649 | Committing an own offer starts on the new receiving chain. |
| `ChainRefinement.PeerCommitAligned` | core-crypto/src/crypto/ratchet/decrypt.rs:475-495 | Committing the peer's offer on message n leaves exactly n delivered and everything before it cached. |
| `ChainRefinement.ArrivalExact` | core-crypto/src/crypto/ratchet/decrypt.rs:241-506 | Message i as sent, plain or a carrier, whatever is staged: accepted if and only if its number is not remembered, its key is cached or at most max_skip ahead, and its offer can be staged; a refusal changes at most the slot. |
| `ChainRefinement.WindowAlwaysAccepted` | core-crypto/src/crypto/ratchet/decrypt.rs:86-227 | No undelivered message, plain or a carrier, at most 2 * max_skip behind or max_skip ahead is ever refused. |
| `ChainRefinement.ArrivalError` | core-crypto/src/crypto/ratchet/decrypt.rs:241-506 | A refused message of the stream is a replay if its number is remembered, a failed decapsulation if its offer is malformed, out of reach if beyond the window, and not authentic otherwise. |
| `ChainRefinement.OlderKeepsAligned` | core-crypto/src/crypto/ratchet/decrypt.rs:86-156 | A late message of an earlier generation, accepted or not, takes no key and no number of the current one. |
| `ChainRefinement.OwnStepsKeepAligned` | core-crypto/src/crypto/ratchet/encrypt.rs:25-221 | Nor do the receiver's own sends and acknowledgements. |
| `ChainRefinement.RunRefinesChain` | core-crypto/src/crypto/ratchet/decrypt.rs:57-506 | Over every run of losses, reorderings, duplicates, relabellings, swapped rekey fields, forgeries, late messages of earlier generations and own sends the receiver sits on the pure chain, every cached key is that of its position, and each number is delivered at most once with the text sent there. |
| `ChainRefinement.ReusedNumberExactly` | core-crypto/src/crypto/ratchet/decrypt.rs:182-217 | A delivered number, sealed anew under the key at the head of the chain, is delivered again if and only if the window has forgotten it, and the counter falls back behind it. |
| `PreviousGeneration.OwnCommitRetains` | core-crypto/src/crypto/ratchet/state.rs:560-649 | Committing an own offer retains the stream just left where it stood, with the watermark right below it. |
| `PreviousGeneration.PeerCommitRetains` | core-crypto/src/crypto/ratchet/decrypt.rs:475-497 | So does committing the peer's offer on any message. |
| `PreviousGeneration.PassedOverCached` | core-crypto/src/crypto/ratchet/previous_generation.rs:112-134 | A position the retained chain passes over is cached if and only if the budget, after the keys of the current generation and the newer positions, still covers it. |
| `PreviousGeneration.LateExact` | core-crypto/src/crypto/ratchet/previous_generation.rs:19-136 | A message of the previous generation, plain or a carrier, is accepted, with its text, if and only if its key is cached, or it is at or above the anchor, at most max_skip ahead and above the watermark; the retained chain then sits right behind it on the stream, with the positions in between cached as far as the budget goes; a refusal changes nothing. |
| `PreviousGeneration.LateError` | core-crypto/src/crypto/ratchet/previous_generation.rs:75-103 | A refusal is a replay for a remembered number or one at or below the watermark, and out of reach otherwise. |
| `PreviousGeneration.RunDeliversBoth` | core-crypto/src/crypto/ratchet/previous_generation.rs:19-136 | Over every run after a rekey with messages of both generations, copies, relabellings and forgeries in any order: every delivery is the text sent at its number of its stream, and no number of either is delivered twice. |
| `ReplayWindow.RecordedExactly` | core-crypto/src/crypto/ratchet/state.rs:179-207 | A delivered number is recorded if and only if its generation and all later ones fit under the cap. |
| `ReplayWindow.RecordsBounded` | core-crypto/src/crypto/ratchet/state.rs:179-207 | The set never exceeds 4096 entries. |
| `ReplayWindow.DeliveryRecorded` | core-crypto/src/crypto/ratchet/decrypt.rs:66-506 | On every path, in every session under the cap, a delivery leaves its number recorded. |
| `ReplayWindow.CommitRecalls` | core-crypto/src/crypto/ratchet/decrypt.rs:475-497 | Entering a generation starts with exactly the message that brought the receiver in recorded. |
| `ReplayWindow.RunRecalls` | core-crypto/src/crypto/ratchet/decrypt.rs:182-217 | Over every run of arrivals each delivered number of the last 2 * max_skip positions stays recorded, and the cap never reaches the current generation. |
| `ReplayWindow.ReplayAlwaysRefused` | core-crypto/src/crypto/ratchet/decrypt.rs:620-625 | So whatever arrives under such a number, the same bytes, other rekey fields or another body, is refused as a replay and changes nothing. |
| `SendAlignment.SendExactly` | core-crypto/src/crypto/ratchet/encrypt.rs:25-221 | A send fails if and only if an offer is due and its encapsulation fails, or the generations are used up; a failure leaves the chain one key further behind, a success seals under the lagging key. |
| `SendAlignment.SendRunExactly` | core-crypto/src/crypto/ratchet/encrypt.rs:29-210 | Over every run of sends, a message is sealed under the key of its number less the failures before it. |
| `SendAlignment.LaggingRefused` | core-crypto/src/crypto/ratchet/decrypt.rs:160-227 | No aligned receiver ever accepts a lagging message, plain or a carrier. |
| `SendAlignment.DirectionWorksExactly` | core-crypto/src/crypto/ratchet/encrypt.rs:29-122 | The direction works exactly as long as no send has failed: before that the receiver decides by its window, from then on it refuses everything. |
| `Generations.RunKeepsGenerations` | core-crypto/src/crypto/ratchet/decrypt.rs:590-629 | In every run nothing of a generation not yet entered is cached or remembered, and the retained generation is older. |
| `Receiving.DispatchUnified` | core-crypto/src/crypto/ratchet/decrypt.rs:57-506 | Both receive paths are one: validate, previous generation, stage, open. |
| `Receiving.StagedSlotOnly` | core-crypto/src/crypto/ratchet/decrypt.rs:313-399 | Phase 1 touches the incoming slot only, and fails exactly on a current offer with a malformed ciphertext. |
| `Receiving.HistoryNeverConsulted` | core-crypto/src/crypto/ratchet/decrypt.rs:334-353 | The retained key pairs never decide a decapsulation: the current pair's answer is always the answer. |
| `Receiving.MisfitError` | core-crypto/src/crypto/ratchet/decrypt.rs:241-506 | A current, unseen message that is not what it claims to be is reported as out of reach beyond the window and as not authentic otherwise. |
| `NoDesync.ChainAcceptsExactly` | core-crypto/src/crypto/ratchet/decrypt.rs:160-227 | A message of the stream opens on the chain if and only if its number is in the window above the counter. |
| `NoDesync.CommitLandsOnChain` | core-crypto/src/crypto/ratchet/decrypt.rs:475-497 | A commit at number n puts the receiver at n + 1 of the pending chain with every earlier position cached. |
| `NoDesync.SendKeepsLink` | core-crypto/src/crypto/ratchet/encrypt.rs:25-221 | Sending, with or without a new or repeated offer, keeps the two peers linked. |
| `NoDesync.AckKeepsLink` | core-crypto/src/crypto/ratchet/state.rs:749-761 | Moving to the new chains on an acknowledgement keeps them linked. |
| `NoDesync.DeliverCurrent` | core-crypto/src/crypto/ratchet/decrypt.rs:241-453 | A current-generation message is accepted exactly from the cache or within the window, and keeps the link. |
| `NoDesync.DeliverNext` | core-crypto/src/crypto/ratchet/decrypt.rs:454-505 | The first plain message of the next generation up to max_skip brings the receiver into it. |
| `NoDesync.CarrierRepairs` | core-crypto/src/crypto/ratchet/decrypt.rs:313-453 | Whatever a stray of the receiver's own generation has staged, the next carrier of that generation it has not seen, accepted or not, restores the link. |
| `NoDesync.StrayExactly` | core-crypto/src/crypto/ratchet/decrypt.rs:313-399 | A forged body, or a genuine one under another header or with other rekey fields, is refused; it keeps the link if and only if its offer does not reach the slot, or is of the receiver's generation and leads to the very proposal that belongs there. |
| `NoDesync.RunKeepsLink` | core-crypto/src/crypto/ratchet/decrypt.rs:241-506 | Over any number of messages, losses, duplicates, reorderings and rekeys, and any strays that StrayExactly calls harmless, the peers stay linked. |
| `NoDesync.PeersStayLinked` | core-crypto/src/crypto/ratchet/state.rs:392-474 | So from a pairing on, in every run. |
| `Handoff.EarlyCarrierLosesHandoff` | core-crypto/src/crypto/ratchet/decrypt.rs:313-399 | If the first message of a generation to arrive is itself a carrier with a secret of its own, the receiver refuses it and every message of that generation, however many arrive. |
| `Handoff.EarlyCarrierExactly` | core-crypto/src/crypto/ratchet/decrypt.rs:313-505 | Such a carrier brings the receiver in, and keeps the link, if and only if its number is within max_skip and its secret is that of the offer before. |
| `Handoff.StrayHandoffExactly` | core-crypto/src/crypto/ratchet/decrypt.rs:313-505 | After a stray whose offer reaches the slot, while the handoff is still to be made, the first plain message of the new generation within max_skip is accepted if and only if that offer leads to the sender's new chain. |
| `Handoff.StrayLosesHandoff` | core-crypto/src/crypto/ratchet/decrypt.rs:313-505 | If it leads elsewhere, the receiver refuses every message of the new generation, however many arrive, as long as a further offer has a secret of its own. |
| `NoDesync.EarlyCarrierSameSecret` | core-crypto/src/crypto/ratchet/decrypt.rs:313-505 | With the same secret in both offers it brings the receiver in, and keeps the link, exactly up to max_skip. |
| `Handoff.NextMessageArrives` | core-crypto/src/crypto/ratchet/decrypt.rs:241-506 | In every linked state the next message is accepted, with its text, if and only if it is within max_skip and does not enter a generation on a carrier with a secret of its own. |
| `Handoff.AckSafeExactly` | core-crypto/src/crypto/ratchet/state.rs:749-761 | Committing on an acknowledgement is safe if and only if the peer holds the offer: then it follows on any plain message up to max_skip and the link is kept; otherwise it refuses everything sent on the new chain, but for carriers that reuse the offered ciphertext. |
| `Handoff.ReusedCiphertextExactly` | core-crypto/src/crypto/ratchet/decrypt.rs:334-505 | A carrier of the new chain that reuses the offered ciphertext is then accepted if and only if the receiver is in the generation just left and the number is within max_skip. |
| `Handoff.LateCarrierRepairs` | core-crypto/src/crypto/ratchet/decrypt.rs:313-453 | After a premature commit, a late carrier of the old generation that the receiver has not seen restores the link. |
| `AckLog.AckExactly` | core-crypto/src/crypto/ratchet/state.rs:749-761 | In every linked state an arriving acknowledgement number keeps the link if and only if the sender does not wait for it or the receiver holds the offer. |
| `AckLog.HandedOutAckExactly` | core-crypto/src/crypto/ratchet/state.rs:734-761 | A number the receiver has handed out is always safe in the generation of the offer it is for; later, if and only if it is not awaited or the newer offer is staged as well. |
| `AckLog.AcksAnyTime` | core-crypto/src/crypto/ratchet/state.rs:734-761 | From a pairing on, with numbers handed out and arriving in any order, any number of times, each in the generation of its offer or later where it is not awaited, the peers stay linked. |
| `LateAck.LateAckCommits` | core-crypto/src/crypto/ratchet/state.rs:749-761 | A run from pairing in which a delayed acknowledgement of number 100 of one generation commits the offer on number 100 of the next, which the peer has never seen; the link is gone and the peer refuses everything sent on the new chain, but for carriers that reuse the offered ciphertext. |
| `RekeyRace.PkTrichotomy` | core-crypto/src/crypto/ratchet/decrypt.rs:551-588 | The comparison of public keys is a strict total order. |
| `RekeyRace.PkLessExactly` | core-crypto/src/crypto/ratchet/decrypt.rs:551-570 | The order is decided where the X25519 halves first differ, by the smaller byte or the shorter half, and only between equal X25519 halves by the ML-KEM halves. |
| `RekeyRace.LargerKeyWins` | core-crypto/src/crypto/ratchet/decrypt.rs:551-588 | Of two crossing offers the one whose public key is larger in that sense survives on both sides. |
| `RekeyRace.UnrivalledOfferStands` | core-crypto/src/crypto/ratchet/decrypt.rs:551-588 | Without a rival in the slot the own offer stands and nothing is acknowledged. |
| `RekeyRace.RaceSettledExactly` | core-crypto/src/crypto/ratchet/decrypt.rs:313-399 | Both sides of a race keep the same offer if and only if the offered keys differ; only the loser cancels and queues an acknowledgement. |
| `RekeyRace.SettledRaceHandsOff` | core-crypto/src/crypto/ratchet/decrypt.rs:454-505 | After the acknowledgement any first message up to max_skip leaves the two sides with the same root and crossed chains. |
| `RekeyRace.RunReachable` | core-crypto/src/crypto/ratchet/state.rs:392-474 | Every run of a session, whatever the operations, keeps the key discipline and the order of generations a race relies on. |
| `RekeyRace.RaceEndsCrossed` | core-crypto/src/crypto/ratchet/decrypt.rs:313-588 | A whole race between two sessions with that discipline, from the crossing offers to the crossed chains. |
| `RekeyRace.RacesInRunsEndCrossed` | core-crypto/src/crypto/ratchet/decrypt.rs:313-588 | So for any two runs of the two sides of a pairing that meet in a race. |
| `ConfirmQueue.OpStep` | core-crypto/src/crypto/ratchet/encrypt.rs:57-161 | No operation stages a second offer, drops the carrier of a live one, or rewrites its first stamp. |
| `ConfirmQueue.RunKeepsOneCarrier` | core-crypto/src/crypto/ratchet/encrypt.rs:57-161 | In every run the confirm queue holds at most one carrier and its payload is the staged offer. |
| `ConfirmQueue.ResendsKeepOffer` | core-crypto/src/crypto/ratchet/encrypt.rs:90-114 | Any number of re-sends preserves the offer, its payload and its first-attached stamps. |
| `ConfirmQueue.ResendsDoNotRejuvenate` | core-crypto/src/crypto/ratchet/policy.rs:119-129 | So re-sending never makes an unacknowledged offer look fresh to the resync path. |
| `RekeyBookkeeping.ResendExactly` | core-crypto/src/crypto/ratchet/encrypt.rs:57-161 | While an offer waits, a send carries it again if and only if fifteen seconds have passed on either clock since it was last attached; it then rides on that number. |
| `RekeyBookkeeping.FirstDueExactly` | core-crypto/src/crypto/ratchet/encrypt.rs:57-100 | Of any queue the first carrier that is due is the one attached. |
| `RekeyBookkeeping.FreshStayInOrder` | core-crypto/src/crypto/ratchet/encrypt.rs:57-100 | The carriers not due stay, in order. |
| `RekeyBookkeeping.ExplicitOfferWaits` | core-crypto/src/crypto/ratchet/derive.rs:119-134 | An explicitly requested offer waits under the provisional number 0. |
| `RekeyBookkeeping.ResentProposalAges` | core-crypto/src/crypto/ratchet/state.rs:670-723 | However often the peer re-sends a proposal in its generation, it is stale exactly sixty seconds, on either clock, after its first carrier. |
| `RekeyBookkeeping.SupersedingProposalIsFresh` | core-crypto/src/crypto/ratchet/decrypt.rs:357-373 | A proposal of a later generation that replaces it starts its lifetime anew. |
| `RekeyBookkeeping.OutdatedCarrierIgnored` | core-crypto/src/crypto/ratchet/decrypt.rs:300-325 | A carrier of an earlier generation than the session's or the pending proposal's never touches the slot. |
| `RekeyBookkeeping.AckOwedOnce` | core-crypto/src/crypto/ratchet/state.rs:725-742 | A commit owes the acknowledgement of its carrier unless it has been handed out, and then none. |
| `RekeyBookkeeping.OutcomeExactly` | core-crypto/src/crypto/ratchet/decrypt.rs:400-506 | What a delivery is reported as: a derived proposal, a skipped message or a commit. |
| `RekeyBookkeeping.ExhaustedRefusesAll` | core-crypto/src/crypto/ratchet/decrypt.rs:590-612 | In the last generation nothing is sent or received. |
| `RekeyBookkeeping.LateDeliveryRaisesMark` | core-crypto/src/crypto/ratchet/previous_generation.rs:66-75 | The watermark of the retained chain covers every late delivery and never falls. |
| `RekeyBookkeeping.LastThreePairsRetained` | core-crypto/src/crypto/ratchet/state.rs:614-649 | Over every run exactly the last three key pairs replaced are retained. |
| `RekeyBookkeeping.JumpsBounded` | core-crypto/src/crypto/ratchet/resync.rs:154-232 | Over its whole life, whatever is asked of it, a session jumps over at most 20000 positions. |
| `RekeySlots.PlainFailureAtomic` | core-crypto/src/crypto/ratchet/decrypt.rs:66-156 | A failing plain receive leaves the whole session unchanged. |
| `RekeySlots.RekeyFailureTouchesSlotOnly` | core-crypto/src/crypto/ratchet/decrypt.rs:313-505 | A failing rekey-aware receive changes at most the incoming slot, and replaces it exactly when the offer is complete, current and well-formed. |
| `RekeySlots.StrayTouchesSlotExactly` | core-crypto/src/crypto/ratchet/decrypt.rs:241-505 | On either receive path, a message that is not what it claims to be is refused and changes at most the slot, exactly when its offer is complete, current and well-formed. |
| `RekeySlots.OfferToOldKeyStagesUnrelatedChains` | core-crypto/src/crypto/ratchet/decrypt.rs:334-388 | An offer made to a replaced key is staged with chains other than the offered ones. |
| `RekeySlots.NewProposalStaleExactly` | core-crypto/src/crypto/ratchet/state.rs:670-723 | A newly staged proposal is stale on arrival if and only if a monotonic stamp of an earlier one, older than the lifetime, is left over. |
| `RekeySlots.NewProposalBornStale` | core-crypto/src/crypto/ratchet/state.rs:670-723 | A concrete proposal that is stale on arrival. |
| `RekeySlots.ExplicitRekeyUncrossesKeys` | core-crypto/src/crypto/ratchet/derive.rs:74-144 | An offer of the explicit request carries the receiver's own key, so the receiver's next offer is encapsulated to itself. |
| `Sync.OpenPacket` | core-crypto/src/ratchet_ffi/sync.rs:196-222 | The session and text of opening a packet by the path its fields call for. |
| `Sync.OpenOnTrial` | core-crypto/src/ratchet_ffi/sync.rs:254-259 | The live session becomes the clone only for a Synchronize that names its own position. |
| `Sync.ApplySynchronize` | core-crypto/src/ratchet_ffi/sync.rs:194-303 | The live session and result of all three branches. |
| `Sync.SyncGate.AlreadyApplied` | core-crypto/src/ratchet_ffi/sync.rs:66-73 | Expires the peer's cache and looks the digest up; other peers untouched. |
| `Sync.SyncGate.RecordAppliedSync` | core-crypto/src/ratchet_ffi/sync.rs:76-86 | Expires, appends and caps the peer's cache. |
| `Sync.SyncGate.SyncRateLimited` | core-crypto/src/ratchet_ffi/sync.rs:91-97 | Expires the peer's stamps and compares with the burst. |
| `Sync.SyncGate.ProcessSynchronize` | core-crypto/src/ratchet_ffi/sync.rs:130-317 | Ledger, live session and verdict of one call, in the code's order of checks; no other peer's ledger changes. |
| `SyncBudget.BurstNeverExceeded` | core-crypto/src/ratchet_ffi/sync.rs:91-106 | In every run with a clock that does not go back, an applied sync comes at least 15 seconds after the third one before it. |
| `SyncBudget.WindowHoldsThree` | core-crypto/src/ratchet_ffi/sync.rs:91-106 | No 15-second window, wherever it starts, holds more than three applied syncs. |
| `SyncBudget.LimitedExactly` | core-crypto/src/ratchet_ffi/sync.rs:91-97 | The pruned queue limits a packet if and only if the whole history would. |
| `SyncBudget.RecognisedExactly` | core-crypto/src/ratchet_ffi/sync.rs:66-86 | A re-sent packet is recognised if and only if its digest is younger than 120 seconds and among the last sixteen applied. |
| `SyncBudget.RejectionInvisible` | core-crypto/src/ratchet_ffi/sync.rs:174-192 | A packet that is not applied leaves budget and cache as they were, up to expiry. |
| `SyncRecovery.RefusalExactly` | core-crypto/src/ratchet_ffi/sync.rs:246-302 | A refusal in the large-gap or cross-generation branch leaves the live ratchet unchanged; in the third branch a packet that authenticated has been consumed, and any other changes at most the slot, and only if its offer reaches it. |
| `SyncRecovery.MisdirectedMessageIsLost` | core-crypto/src/ratchet_ffi/sync.rs:295-302 | An authentic message, plain or a carrier, that is no Synchronize is refused there and can never be delivered afterwards. |
| `SyncRecovery.SyncRecoversExactly` | core-crypto/src/ratchet_ffi/sync.rs:248-259 | A genuine Synchronize beyond the window is accepted if and only if no fresh offer of either side is pending and both jump budgets allow it; the receiver then sits right behind it, on the sender's chain, with the window cached. |
| `SyncRecovery.ResyncExactly` | core-crypto/src/crypto/ratchet/resync.rs:140-232 | For every target: a jump is made if and only if it goes forward, no fresh offer is pending and both budgets allow it; otherwise the error names the first obstacle. |
| `SyncRecovery.FarGenerationRefused` | core-crypto/src/ratchet_ffi/sync.rs:260-294 | A packet of a generation beyond the next is a cross-generation error and touches nothing. |
| `SyncRecovery.AcceptedNamesItself` | core-crypto/src/ratchet_ffi/sync.rs:225-244 | In every state and on every branch only an authentic Synchronize that names its own position is accepted. |
| `SyncRecovery.TurnedAwayUntouched` | core-crypto/src/ratchet_ffi/sync.rs:156-194 | Unreadable, recognised and over-budget packets are reported exactly as such and never reach the session. |
| `SyncRecovery.RefusedCallExactly` | core-crypto/src/ratchet_ffi/sync.rs:246-302 | What a refused call leaves of the live session, per branch. |
| `SyncRecovery.AcceptedCallRecovers` | core-crypto/src/ratchet_ffi/sync.rs:156-329 | A genuine Synchronize handed in as a packet is accepted if and only if it is neither recognised nor over the budget and can be applied; the live session is then on the sender's chain with that packet delivered, right behind it unless it came from the cache, and the number reported is what was jumped. |
| `LinkRecovery.CrossGenerationRecoversExactly` | core-crypto/src/ratchet_ffi/sync.rs:260-294 | In every linked state a Synchronize of the next generation, plain or a carrier, is applied if and only if its number is within max_skip and it is not a carrier with a secret of its own; otherwise it is a cross-generation error and the live ratchet is untouched; either way the peers stay linked. |
| `LinkRecovery.EvictionKeepsLinkExactly` | core-crypto/src/crypto/ratchet/resync.rs:154-169 | Dropping a staged offer keeps the link if and only if the sender has not moved on with it. |
| `LinkRecovery.WideGapRecoversExactly` | core-crypto/src/ratchet_ffi/sync.rs:248-259 | In every linked state a Synchronize beyond the window is applied if and only if no fresh offer is staged and both budgets allow it; with a stale offer evicted, the peers stay linked if and only if the sender has not moved on or the packet carries the offer again. |
| `LinkRecovery.CrossGenerationCall` | core-crypto/src/ratchet_ffi/sync.rs:156-329 | The whole call across a rekey: verdict, live session and link. |
| `Watermark.MergeIsJoin` | desktop-app/src-tauri/src/ratchet_store.rs:296-336 | Merging is the least upper bound of the mark order; the rollback and advance tests are its two sides. |
| `Watermark.GuardsAgreeExactly` | core-crypto/src/ratchet_ffi/registry.rs:420-469 | The store's and the registry's guards agree if and only if the snapshot is not from a later pairing. |
| `Watermark.AcceptedExactly` | desktop-app/src-tauri/src/ratchet_store.rs:314-322 | A snapshot passes the accumulated mark if and only if it is at or above every mark recorded. |
| `Watermark.JoinIgnoresOrder` | desktop-app/src-tauri/src/ratchet_store.rs:296-307 | The order in which marks are recorded does not matter. |
| `Watermark.JustSavedAcceptedExactly` | desktop-app/src-tauri/src/ratchet_store.rs:479-487 | The snapshot just written passes the next restore if and only if it is at or above the mark recorded before it. |
| `Watermark.SendRaisesMark` | core-crypto/src/crypto/ratchet/encrypt.rs:25-40 | Every send, failed or not, moves the sending component of the mark and no other. |
| `Watermark.SnapshotAfterRekeyRefused` | desktop-app/src-tauri/src/ratchet_store.rs:703-712 | The snapshot written right after committing an own offer is refused if and only if a message was counted before it. |
| `Watermark.SnapshotAfterPeerRekeyRefused` | desktop-app/src-tauri/src/ratchet_store.rs:703-712 | The one written right after entering a generation on message n of the peer is refused if and only if a message was sent before, or more were received than n + 1. |
| `Watermark.NeverFallsExactly` | desktop-app/src-tauri/src/ratchet_store.rs:426-461 | The marks a reader sees never fall over a save, except exactly when both writes fail and the file was ahead of the keyring. |
| `Watermark.SavedThenLoaded` | desktop-app/src-tauri/src/ratchet_store.rs:400-461 | A durable save is read back as exactly what was saved. |
| `Watermark.RunLoadsJoin` | desktop-app/src-tauri/src/ratchet_store.rs:400-461 | Over every run that loses no marks a reader sees exactly the join of all durable saves. |
| `Watermark.RestoreAcceptsExactly` | desktop-app/src-tauri/src/ratchet_store.rs:696-716 | Restore then accepts exactly the snapshots at or above every mark saved durably. |
| `Store.MergeTier` | desktop-app/src-tauri/src/ratchet_store.rs:406-409 | The loop that merges one tier is the map join. |
| `Store.ImportAll` | desktop-app/src-tauri/src/ratchet_store.rs:683-718 | The sessions after a restore and the number it counts. |
| `Store.RatchetStore.LoadWatermarks` | desktop-app/src-tauri/src/ratchet_store.rs:400-423 | The join of the two tiers. |
| `Store.RatchetStore.SaveWatermarks` | desktop-app/src-tauri/src/ratchet_store.rs:426-461 | The tiers after a save, and the states visited on the way. |
| `Store.RatchetStore.SwapStore` | desktop-app/src-tauri/src/ratchet_store.rs:525-541 | Rotation, placing and fallback. |
| `Store.RatchetStore.PersistAll` | desktop-app/src-tauri/src/ratchet_store.rs:468-548 | The disk after a persist, and that every intermediate disk is a step of the crash model. |
| `Store.RatchetStore.RestoreAll` | desktop-app/src-tauri/src/ratchet_store.rs:649-720 | The sessions and the count of a restore, with recovery from the rotated store. |
| `StoreCrash.CurrentExactly` | desktop-app/src-tauri/src/ratchet_store.rs:509-547 | From every disk, the store path missing or not: at every crash point the store stands for the new map once placed and for the old one before, except exactly after a stale fallback. |
| `StoreCrash.TemporaryExactly` | desktop-app/src-tauri/src/ratchet_store.rs:509-547 | What the temporary file holds at every crash point. |
| `StoreCrash.MissingExactly` | desktop-app/src-tauri/src/ratchet_store.rs:524-541 | Whether the store path is missing at a crash point follows from the calls alone. |
| `StoreCrash.StoreKeepsLastPlaced` | desktop-app/src-tauri/src/ratchet_store.rs:509-547 | Over any number of persists interrupted anywhere, without a stale fallback, the store, or its predecessor while the path is missing, holds exactly the map placed last. |
| `StoreCrash.StoreSurvives` | desktop-app/src-tauri/src/ratchet_store.rs:509-547 | With stale fallbacks too, a complete map is left. |
| `StoreCrash.EmptyRestoreExactly` | desktop-app/src-tauri/src/ratchet_store.rs:649-680 | A restore after a run comes back empty-handed if and only if a function of the calls says so. |
| `StoreCrash.RestoreReadsLastPlaced` | desktop-app/src-tauri/src/ratchet_store.rs:649-680 | Otherwise it reads exactly the map placed last. |
| `StoreCrash.MarksBehindStore` | desktop-app/src-tauri/src/ratchet_store.rs:529-535 | The marks move only once the new map is in place. |
| `StoreCrash.CompletedPersistHeals` | desktop-app/src-tauri/src/ratchet_store.rs:524-535 | Every later completed persist brings the store path back. |
| `StoreCrash.RestoreNeverRollsBack` | desktop-app/src-tauri/src/ratchet_store.rs:696-716 | A restore never moves a live session back and imports nothing below a recorded mark. |
| `StoreCrash.PersistThenRestoreExactly` | desktop-app/src-tauri/src/ratchet_store.rs:468-548 | After an uninterrupted persist and a restart a session comes back if and only if its mark does not regress the marks recorded before. |
| `StoreCrash.ReportedCountExactly` | desktop-app/src-tauri/src/ratchet_store.rs:714-716 | The reported number is the number imported if and only if the registry refuses none of the admitted entries. |
| `StoreDamage.DamagedStoreFallsBack` | desktop-app/src-tauri/src/ratchet_store.rs:649-720 | A store that parses is what is restored, a damaged one is replaced by its predecessor; every entry that passes the marks replaces a session that is not ahead of it, and nothing else changes. |
| `StoreDamage.EmptyRestartExactly` | desktop-app/src-tauri/src/ratchet_store.rs:649-720 | On every disk a restart comes back without any session if and only if the store is missing, or what is read of it or of the predecessor holds no entry that passes the marks. |
| `StoreDamage.NothingReadExactly` | desktop-app/src-tauri/src/ratchet_store.rs:649-680 | After every run of interrupted persists and damaged files, torn ones from the start included, a restore finds nothing to read if and only if a function of the calls and the damage says so. |
| `StoreDamage.DamageAfterTwoPersists` | desktop-app/src-tauri/src/ratchet_store.rs:649-716 | When the store is damaged after two completed persists, exactly the sessions of the first come back that are at or above all earlier marks and have not moved in between. |
| `Handles.SessionRegistry.EvictLru` | core-crypto/src/session_handle.rs:54-64 | Pops the order up to the first handle that is not pinned and drops that one's key. |
| `Handles.SessionRegistry.CreateHandle` | core-crypto/src/session_handle.rs:89-137 | The registry and the verdict of a creation. |
| `HandleTheorems.AlwaysValid` | core-crypto/src/session_handle.rs:89-192 | After every sequence of calls: at most 256 keys, fingerprints of the same handles and pairwise distinct, the order free of duplicates and within the keys, pins within the keys. |
| `HandleTheorems.NeverReissued` | core-crypto/src/session_handle.rs:132-135 | A handle once issued never names another key, and one that is gone never comes back. |
| `HandleTheorems.HandleNamesItsKey` | core-crypto/src/session_handle.rs:89-149 | A handle gives back the bytes it was created for, after any sequence of calls, or nothing once it is gone. |
| `HandleTheorems.DestroyedIsGone` | core-crypto/src/session_handle.rs:152-192 | A destroyed handle gives nothing and cannot be pinned, whatever follows. |
| `HandleTheorems.PinnedSurvives` | core-crypto/src/session_handle.rs:54-64 | A handle that stays pinned leaves only by an explicit destroy. |
| `HandleTheorems.CreateExactly` | core-crypto/src/session_handle.rs:109-136 | The verdict of a creation and the fate of every other key; a creation refused as a duplicate still costs a full registry its victim. |
| `HandleTheorems.EvictionForgetsExactly` | core-crypto/src/session_handle.rs:54-64 | A creation in a full registry drops exactly the pinned handles older than the victim from the order. |
| `HandleTheorems.ForgottenHandleStays` | core-crypto/src/session_handle.rs:54-64 | A handle missing from the order is never evicted again, pinned or not. |
| `HandleTheorems.RefusesThoughOneIsFree` | core-crypto/src/session_handle.rs:109-116 | From every full registry whose oldest handle is pinned a registry is reached that refuses to create although it holds an unpinned handle. |
| `HandleOrder.RunByUse` | core-crypto/src/session_handle.rs:66-71 | Over every sequence of calls the order is sorted by the last creation or successful get. |
| `HandleOrder.VictimIsLeastRecentlyUsed` | core-crypto/src/session_handle.rs:54-71 | The key a full registry gives up is that of the least recently used handle among those listed and not pinned. |
| `Tlv.ToBinary` | core-crypto/src/crypto/ratchet/tlv.rs:38-71 | The buffer the encoder builds, or the partial-set error. |
| `Tlv.FromBinary` | core-crypto/src/crypto/ratchet/tlv.rs:73-121 | The message, the bytes it took, or the error. |
| `TlvTheorems.RoundTripExactly` | core-crypto/src/crypto/ratchet/tlv.rs:38-121 | Decoding inverts encoding if and only if the lengths fit 32 bits and the rekey fields are not empty. |
| `TlvTheorems.CutExactly` | core-crypto/src/crypto/ratchet/tlv.rs:73-121 | A message is read from a beginning of the input if and only if that beginning holds all its bytes. |
| `TlvTheorems.PrefixFree` | core-crypto/src/crypto/ratchet/tlv.rs:38-121 | Every proper prefix of an encoded message is refused as truncated. |
| `TlvTheorems.RefusalNamed` | core-crypto/src/crypto/ratchet/tlv.rs:73-121 | Another version is named as such, however the rest looks. |
| `TlvTheorems.ReencodeExactly` | core-crypto/src/crypto/ratchet/tlv.rs:91-120 | What decodes re-encodes to the bytes it was read from if and only if its rekey flag is 0 or 1. |
| `TlvTheorems.NonceRoundTrip` | core-crypto/src/crypto/aead.rs:85-96 | Generation and message number come back from the twelve bytes. |
| `TlvTheorems.MostSignificantFirst` | core-crypto/src/crypto/ratchet/tlv.rs:55 | Numbers are written with the most significant byte first. |
| `TlvTheorems.NonceOrder` | core-crypto/src/crypto/aead.rs:85-96 | Nonces read as numbers grow with the generation first and the message number second. |
| `TlvTheorems.AadBindsOffer` | core-crypto/src/crypto/ratchet/state.rs:321-347 | For public keys of equal lengths the associated data determines the offer. |
| `Sas.ExtractIndices` | core-crypto/src/crypto/sas.rs:45-72 | For every key length and code length, index i is bits 5i to 5i+4 of the zero-padded stream, taken with at most twelve bits buffered. |
| `Sas.GenerateCode` | core-crypto/src/crypto/sas.rs:45-74 | The code is the letters of the windows of the key's own bits. |
| `Sas.BitsOfSpells` | core-crypto/src/crypto/sas.rs:57 | The stream is the key byte after byte, most significant bit first, with zeros behind it. |
| `Sas.RegisterWindow` | core-crypto/src/crypto/sas.rs:57-69 | Bits that have left the 64-bit register do not reach the window. |
| `Sas.SameCodeExactly` | core-crypto/src/crypto/sas.rs:28-74 | Two streams show the same code if and only if they agree on all the bits it is made of. |
| `Sas.RepositoryAlphabet` | core-crypto/src/crypto/sas.rs:28 | The character set has 32 different letters. |
| `Rotate.Cell` | core-crypto/src/qr_scanner.rs:19 | Pixel indices are in bounds and no two pixels share one. |
| `Rotate.Located` | core-crypto/src/qr_scanner.rs:15-22 | Every index of the image is that of a pixel. |
| `Rotate.Rotate90Into` | core-crypto/src/qr_scanner.rs:15-22 | Every pixel lands where a quarter turn puts it; nothing beyond the image is written. |
| `Rotate.Rotate180Into` | core-crypto/src/qr_scanner.rs:31-38 | Every pixel lands opposite to its place. |
| `Rotate.Rotate270Into` | core-crypto/src/qr_scanner.rs:47-54 | Every pixel lands where a three-quarter turn puts it. |
| `Rotate.QuarterUndoesThree` | core-crypto/src/qr_scanner.rs:15-54 | A quarter turn after a three-quarter turn is the identity. |
| `Rotate.ThreeUndoesQuarter` | core-crypto/src/qr_scanner.rs:15-54 | And the other way round. |
| `Rotate.TwoQuartersAreHalf` | core-crypto/src/qr_scanner.rs:15-38 | Two quarter turns equal the single-pass half turn. |
| `Rotate.TurnsClockwise` | core-crypto/src/qr_scanner.rs:15-54 | The quarter turn is clockwise: the first row becomes the last column; three quarters make it the first column, upwards. |

## Left out

- Real cryptography: HKDF, ChaCha20-Poly1305, ML-KEM, X25519, SHA-256 and HMAC are ideal symbolic functions.
- 64-bit counter overflow of message numbers: a session cannot send that many messages; the 32-bit generation limit is modelled.
- Instants of proposal stamps are whole seconds, as the staleness tests use them; those of the sync budget are nanoseconds.
- Concurrency: sessions and registries are modelled behind their locks, as sequences of calls; poisoned locks are not modelled.
- The packet digest of the applied-sync cache is any number given with the packet, so that collisions are covered; its FNV loop is not modelled.
- JSON: a Synchronize, an acknowledgement and other data are constructors of a plaintext; a snapshot is its mark and an identity.
- NoDesync.RunKeepsLink: one peer proposes and the other receives; offers crossing in both directions are the subject of RekeyRace, for one round.  Acknowledgements arrive once the offer is staged; AckLog has them arrive at any time.  Sends that fail are the subject of SendAlignment.
- NoDesync.PeersStayLinked: as for RunKeepsLink.
- Ratchet.DoubleRatchetState.constructor: the pairing epoch of a session is kept beside it, in the watermark; the role flag is used at creation only and not stored; the cached acknowledgement packet is not modelled.
- Snapshot conversion field by field, and acknowledgement packets on the wire.
- `clear_ratchet_store` and `remove_ratchet_session_for_peer`: they delete entries and marks and would add only easy members.
- StoreSpec.Trail: a keyring write is atomic, and a keyring or file that cannot be read for a while counts as missing.
- Encryption with a key handle, self-destruct, zeroisation and constant-time comparison.
- QUIC, TLS, STUN, beacons, UniFFI bindings, the desktop and phone user interfaces, padding, clipboard and authorization code.
