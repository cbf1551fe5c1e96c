# Verified model of the transparency-log and proof-of-possession code

This project models the part of the ANS SDK that decides whom to trust, and proves what that part promises.

- **Inclusion proofs.** `MerkleTree` holds the tree hash and audit path of RFC 9162 (sections 2.1.1 and 2.1.3.1)
  as recursive definitions. `InclusionWalk` and `Merkle` hold the shift loop that walks a proof bottom-up, shown
  equal to the recursion, complete, sound and binding. The hash is an arbitrary function. Where a proof could
  only be fooled by a hash collision, the two colliding byte strings are computed (`Merkle.DivergingInputs`), so
  nothing is assumed about collisions.
- **Receipts and checkpoints.** `Receipt` verifies a signed event with its inclusion proof. `Base64`, `NoteText`,
  `SignedNote` and `Checkpoint` parse, print and verify signed tree heads in the C2SP tlog-checkpoint and
  signed-note formats. `CoveredReceipts` joins the two.
- **Single use of proofs.** `ReplayCache` is the cache with its two indexes. `ReplayRuns` compares whole runs of it
  with a map that never forgets, and `GenerationBound` bounds its expiry generations. `Proof` and `Caller` are the
  two entry points that check a possession proof, and `SingleUse` composes them with the cache over whole runs;
  `Occupancy` is about the slots such runs take.
- **Keys and headers under concurrency.** `RootKeys`, `RefreshableKeyStore` and `HeaderSupplier` hold the trusted
  keys, their gated refresh and the published artifact pairs. The last two are classes for the lock-protected
  code and state machines whose atomic steps are the critical sections, clock reads and fetches; with `Steps` each
  method is shown to be the machine's run in which nobody else moves.
- **Caches.** `FifoCache` is the bounded first-in-first-out cache that receipts and status tokens share.
  `BadgeCache` and `BadgeVerifier` are the badge cache and the verification and failure policy that use it.
- **Names.** `Text` and `Names` parse and print versions, domain names and ANS names, the keys and canonical forms
  that the caches and the identity binding compare.

Clock instants are integers (nanoseconds, or Unix seconds where the code uses those). A Go string whose bytes
matter is a string with one character per byte. Decoders, signature checks, hashes and case folding are function
parameters; the theorems hold for every choice of them, except that one of them assumes the folding idempotent.

## Where the code differs from what one might expect

- `Merkle.CapSparesIff`: the 63-element cap spares the well-formed proofs of a leaf if and only if the tree has at
  most 2^63 leaves, or some ancestor of the leaf is the last of its level without a partner. So in a larger tree it
  rejects every well-formed proof of one of the first 2^63 leaves (`Merkle.CapAgainstTreeSize`).
- `GenerationBound.CeilBoundHoldsIff`: ceil(retention / bucket width) + 1 bounds the number of generations after a
  call except when the call records an expiry whose own generation has already passed and the instant leaves no
  generation to spare. The entry points never do that while a commit lags less than the grace behind its check.
- `SingleUse.SingleUseHoldsIff`: single use needs two things of the callers, and exactly these: every commit happens
  soon after the instant its freshness was checked, and the skews chosen per call lie close together. With skews
  from lo to hi it holds of all runs whose commits lag less than a bound if and only if that bound is at most
  max(0, `replayGrace` - (hi - lo)). `SingleUse.ReplayedIsAcceptedTwice` is the run that fails; when hi - lo
  exceeds the grace, it fails with every commit at the very instant of its check.
- `Occupancy.SlotOutlastsIff`: the sizing comment at `pop/replay.go:24` counts one skew and the grace per accepted
  proof. But a slot is taken until the generation of the retention ends, so it outlasts one skew and the grace past
  the check if and only if that end less a nanosecond does; issue instant, check and skew decide, and a proof issued
  before its check may do it too. `Occupancy.OneProofTakesSlot` has the runs, for every skew and every instant of a
  proof's window: at the default skew a proof issued at 1 s and checked at 1 s refuses every other key of a one-slot
  cache until 130 s, not 126 s. The most is two skews, the grace and one bucket width (`Occupancy.SlotEndsWithin`),
  which some proof reaches when the skew is in whole seconds; and a request is refused as full only if as many proofs as the capacity were accepted within that time before it
  (`Occupancy.RefusedOnlyAfterManyAccepted`).
- `RefreshableKeyStore.KindsAreSpacedIff`: the cooldown spaces pairs of on-demand refreshes and no other pairs: a
  direct refresh can complete together with one before it or after it, on-demand or direct.
- `SignedNote.SplitReassembles` and `Checkpoint.AcceptsIff`: the signature loop by itself passes an empty list;
  that no key is needed then is harmless because a note never splits into an empty list.
- `ReplayRuns.RefusalIsOfLiveEntriesIff`: a full cache is "full of still-live entries", as the comment at
  `pop/replay.go:154` has it, if and only if no entry held before the call, other than the caller's own, has expired
  within a generation that has not passed. `ReplayRuns.DeadEntryRefuses` has, for every instant, a run in which one
  entry that has just expired refuses a new key.
- `Checkpoint.KeyIdIsStableIff`: acceptance never depends on line order, but the reported key does, unless all
  verifying lines name one key.
- `BadgeCache.SurvivesIff`: an insertion over capacity may evict the entry it has just added. Over every run an entry
  is sure to survive an insertion if and only if it is within stale retention and the survivors of the purge fit the
  cap; for a versioned entry, if the versioned ones do.
- `BadgeCache.StaleHitsAreWithinIff`: `verify/policy.go:22` describes `MaxStaleness` as a maximum age. The code counts
  it from the expiry. For a configuration that can hold an entry and a `MaxStaleness` of at least zero, every stale
  hit of every run is at most that old if and only if the lifetime is not positive; `BadgeCache.OldestStaleHit` has
  the hit as old as both together, which `BadgeCache.BadgeAgeIsBounded` shows to be the most.
- `BadgeCache.RefreshCanIntroduceIff`: the background refresh lets go of the lock between collecting names and
  inserting badges, so it can put back a name that has gone meanwhile. A configuration has a run under one clock in
  which it does if and only if it can hold an entry at all: a cap of at least one, and lifetime plus stale retention
  not negative. `BadgeCache.RefreshBringsBack` is that run, without clearing and with a single name.
- `BadgeVerifier.JudgedIff` and `BadgeVerifier.DaneRejectedIff`: the DANE check, which `verify/verify.go:156` says can reject
  even if badge verification passed, is made of fetched badges only. A hit that settles the verification is reported with its
  own verdict, whatever DANE would say.
- `Base64.DecodeIff`: the decoder takes any bits where the padding leaves some over, and skips line breaks, so a signature
  line has several spellings; what is verified is the bytes.

## Model

| member | source | states |
|---|---|---|
| `MerkleTree.TreeHashLevelUp` | verify/scitt/merkle.go:54-70 | Hashing a list of nodes pairwise, level by level, gives the same root as the recursion at the largest power of two below the size. |
| `MerkleTree.AuditPathLevelUp` | verify/scitt/merkle.go:54-70 | The audit path of a leaf is its sibling on this level, if it has one, followed by the audit path of its parent on the next. |
| `InclusionWalk.WalkSucceedsByLength` | verify/scitt/merkle.go:46-76 | A walk reaches the root if and only if the path has the length that position and size determine. |
| `InclusionWalk.WalkOfAuditPath` | verify/scitt/merkle.go:46-79 | Walking the audit path of any leaf gives the recursive tree hash. |
| `InclusionWalk.WalkBinds` | verify/scitt/merkle.go:46-79 | Two walks from one position to one root start from the same hash with the same path, or part ways at a computed node. |
| `InclusionWalk.DivergenceIsClash` | verify/scitt/merkle.go:24-34 | Where they part ways, two different pairs of children hash to the same node. |
| `Merkle.WalkInclusionPath` | verify/scitt/merkle.go:36-79 | The shift loop returns the error of the first rule that applies, otherwise the root of the level-by-level walk. |
| `Merkle.InclusionPathLen` | pop/bench_test.go:47-62 | The mirrored counter computes the one path length that fits. |
| `Merkle.WalkSucceedsIffExactLength` | verify/scitt/merkle.go:36-79 | The walk succeeds if and only if the leaf is in the tree and the path has the length of its position and at most 63 elements. |
| `Merkle.AcceptedIff` | verify/scitt/merkle.go:84-98 | A proof is accepted if and only if the leaf is in the tree and the path, of at most 63 elements, walks to the root; one that walks to another root is a mismatch. |
| `Merkle.RejectedIff` | verify/scitt/merkle.go:36-79 | The guards come first; then elements are in excess if and only if a proper prefix of the path reaches the root, and insufficient if and only if some longer path does. |
| `Merkle.CapAgainstTreeSize` | verify/scitt/merkle.go:46-49 | Up to 2^63 leaves the required length is at most 63; beyond, every leaf of the left half requires 64. |
| `Merkle.CapSparesIff` | verify/scitt/merkle.go:9-11 | The required length is at most 63 if and only if the tree has at most 2^63 leaves or some ancestor of the leaf is an unpaired last node. |
| `Merkle.InclusionComplete` | verify/scitt/merkle.go:36-79 | For every list below 2^64 entries, each entry's own audit path walks to the recursive tree head, or is refused as too long exactly beyond 2^63 entries for an entry without a lone ancestor. |
| `Merkle.InclusionBinds` | verify/scitt/merkle.go:36-79 | Two proofs of one position that walk to one root carry the same event and path, or the two named inputs collide. |
| `Merkle.InclusionSound` | verify/scitt/merkle.go:84-98 | A proof accepted against the tree head of a list proves the entry at its index by its audit path, or the two named inputs collide. |
| `Receipt.ExtractVdp` | verify/scitt/receipt.go:158-253 | The loop over the path computes the extraction that the next row characterises. |
| `Receipt.ExtractedIff` | verify/scitt/receipt.go:158-253 | Extraction returns a proof if and only if the map holds exactly its tree size, its leaf index and its 32-byte path elements in order, a missing path being empty. |
| `Receipt.VerifiedIff` | verify/scitt/receipt.go:60-97 | A receipt verifies to a result if and only if a trusted key signed its fields under a matching issuer, and the map's own size, index and path walk from the signed event to that root. |
| `Receipt.RejectedIff` | verify/scitt/receipt.go:38-58 | Each rejection means that every earlier rule passed and its own did not: signature before issuer, both before the unsigned map. |
| `Receipt.NotIncludedIff` | verify/scitt/receipt.go:60-97 | A signed receipt whose map holds a proof is rejected with exactly what is wrong with that proof's walk. |
| `Receipt.VerifiedMeansWalked` | verify/scitt/receipt.go:60-97 | A verified receipt's root is the walk of its path from its event, and the receipt's own signature, by a trusted key under a matching issuer, covers that event and its protected header. |
| `CoveredReceipts.CoveredReceiptsAgree` | verify/scitt/checkpoint.go:72-86 | Two verified receipts covered by one checkpoint at one leaf index carry the same event, or the two named inputs collide. |
| `CoveredReceipts.CoveredReceiptIsAnEntry` | verify/scitt/checkpoint.go:72-86 | A receipt covered by the head of a list of entries carries the entry at its index, or the two named inputs collide. |
| `CoveredReceipts.HonestReceiptIsCovered` | verify/scitt/checkpoint.go:72-86 | A signed receipt for an entry with its RFC 9162 audit path verifies, and is covered by exactly the checkpoint of that size and head; another size and another root are told apart. |
| `ReplayCache.PassedMeansExpired` | pop/replay.go:161-208 | A generation ends after every expiry filed in it, less than one width later, or two for a negative expiry; so a passed generation holds only expired entries, and an unpassed one none older than that. |
| `ReplayCache.MemoryReplayCache.CheckAndStore` | pop/replay.go:138-159 | One call does to index and answer what the specification on the index alone says, and keeps the second index, no empty bucket and the size bound. |
| `ReplayCache.MemoryReplayCache.AddLocked` | pop/replay.go:165-174 | Adds one key to the index and files it in the generation of its expiry. |
| `ReplayCache.MemoryReplayCache.RemoveLocked` | pop/replay.go:177-186 | Removes one key from both indexes, with its generation when that becomes empty. |
| `ReplayCache.MemoryReplayCache.EvictLocked` | pop/replay.go:191-208 | In any iteration order, keeps exactly the entries whose generation has not passed. |
| `ReplayCache.MemoryReplayCache.Sweep` | pop/replay.go:217-232 | The janitor's tick evicts and nothing else. |
| `ReplayRuns.BoundedCacheAnswersLikeUnboundedMap` | pop/replay.go:138-208 | Over every run with a non-decreasing clock, each call answers what a map that never evicts answers, capacity refusals apart. |
| `ReplayRuns.SeenIffRecordedAndLive` | pop/replay.go:138-159 | A call answers seen if and only if an earlier call recorded its key with an expiry later than now. |
| `ReplayRuns.RunRemembers` | pop/replay.go:138-208 | The cache remembers everything recorded that has not expired, and nothing that was not recorded. |
| `ReplayRuns.HeldExactlyUntilEnd` | pop/replay.go:138-208 | Over every run, a recorded key not touched again is held at an instant if and only if the generation of its expiry has not ended. |
| `ReplayRuns.RefusalsAreAtCapacity` | pop/replay.go:153-156 | A call is refused only when its key is not live and the cache is full of keys recorded earlier in generations that have not passed. |
| `ReplayRuns.RefusalIsOfLiveEntriesIff` | pop/replay.go:153-156 | A refusal is of live entries only if and only if no other entry held before the call has expired within a generation that has not passed. |
| `ReplayRuns.DeadEntryRefuses` | pop/replay.go:153-156 | At every instant, a run in which one entry that has just expired refuses a new key. |
| `ReplayRuns.SizeIsBounded` | pop/replay.go:153-157 | The cache never holds more than its capacity. |
| `GenerationBound.EvictedEntriesAreRecent` | pop/replay.go:191-208 | After an eviction in a run at non-negative times every entry expires later than one bucket width before now. |
| `GenerationBound.GenerationsAfterCheck` | pop/replay.go:162-208 | After a call there is at most one generation per current id, plus one for an expiry already passed when recorded. |
| `GenerationBound.StaleExpiryAddsOne` | pop/replay.go:162-208 | A run that reaches that extra generation, for every instant and every such expiry. |
| `GenerationBound.CeilBoundHoldsIff` | pop/replay.go:162-208 | The bound of ceil(retention / width) + 1 holds of calls at an instant with an expiry if and only if the expiry's generation has not passed or a generation is to spare. |
| `Proof.CheckTokenBinding` | pop/verify.go:261-276 | The binding passes if and only if the claim is the hash of the presented token, or absent when none was presented. |
| `Proof.ProfilePassesIff` | pop/proof.go:97-126 | An absent revision and revision 1 pass; the decimal form of another positive integer is unsupported, and anything else malformed. |
| `Proof.FreshnessWindow` | pop/verify.go:279-292 | A verified proof was issued within the skew of the check and is retained from the grace to two skews and the grace past it. |
| `Proof.HeaderRejections` | pop/verify.go:138-180 | Up to the signature, the first rule that a proof breaks decides its error: client, size and form, algorithm, key, certificate, validity, signature. |
| `Proof.ClaimsDecide` | pop/verify.go:138-221 | A proof whose header and signature hold is judged by its claims, under the skew given or 120 seconds when none is. |
| `Proof.ClaimRejections` | pop/verify.go:181-221 | Of the claims, the first that does not hold decides the error: profile, digest, request, token, time, identifier. |
| `Proof.ProofDeterminesResult` | pop/verify.go:138-221 | One proof verifies to one result at all times, for all requests and skews, but for the retention, which differs as the skews do. |
| `Proof.CommitReplay` | pop/verify.go:301-315 | The commit is one cache call for the hashed identifier until the retention instant; seen is a replay, a full cache an error. |
| `Proof.VerifyProof` | pop/verify.go:96-115 | All checks first, then content, then the commit: an unvouched proof leaves the cache as it was. |
| `Proof.VouchedByProofIff` | pop/verify.go:96-115 | The entry point vouches for a proof if and only if it verifies and the hash of the content presented is the digest it carries. |
| `Proof.ContentIsComparedLast` | pop/verify.go:96-115 | A proof that fails is rejected for its own reason whatever the content; of one that verifies, unreadable and differing content are told apart. |
| `Proof.SettledIff` | pop/verify.go:301-315 | A vouched proof is a replay if and only if its key has a live record, finds the cache full if and only if not and the unpassed other entries fill it, and is accepted otherwise. |
| `Caller.WithAllowedAnsNames` | pop/caller.go:85-118 | The pins are the canonical forms of the names that parse; an unparseable name or no name at all makes the configuration unusable. |
| `Caller.BindingIffOneAgent` | pop/caller.go:304-348 | The binding accepts if and only if the certificate is vouched, the first URI SAN that is an ANS name, token and receipt name one version and host and one agent id, and the pins allow it. |
| `Caller.BindingErrors` | pop/caller.go:304-348 | An agent that only the pins exclude is an unexpected peer, an unreadable or two-named leaf event makes the receipt invalid, anything else of two agents fails to bind. |
| `Caller.ReceiptNamesAgentIff` | pop/caller.go:390-418 | A leaf event passes if and only if each agent id it gives is the token's and its name parses to the token's name. |
| `Caller.VerifyCaller` | pop/caller.go:224-300 | The pipeline in order with the commit last; a missing cache or key lookup is a misconfiguration. |
| `Caller.VouchedIffOneAgent` | pop/caller.go:224-300 | A caller reaches the commit if and only if the call is complete and its verified proof, token, receipt when required, and content are all of one agent; the identity returned is that agent's. |
| `Caller.NotPresentableIff` | pop/caller.go:224-260 | What is refused before any artifact is verified, and why: a gone client, a misconfiguration, missing headers, in that order. |
| `Caller.ArtifactErrors` | pop/caller.go:262-285 | The first artifact that does not verify decides the error: proof, then token, then receipt. |
| `Caller.ContentIsReadLast` | pop/caller.go:286-296 | Until the caller is bound to one agent, the verdict does not depend on the request content. |
| `SingleUse.EventIsOperation` | pop/verify.go:301-315 | Each request through either entry point is one cache call when vouched and no cache access otherwise; accepted means recorded. |
| `SingleUse.AcceptedProofIsSeen` | pop/verify.go:96-115 | A proof presented again while fresh is answered as seen if its commit lags less behind its check than the grace, reduced by what its skew exceeds the first one's. |
| `SingleUse.NoProofIsAcceptedTwice` | pop/verify.go:138-221 | Over every run in clock order, with any skews per call: no two events in that relation, in particular none with a second skew at most the first and a lag below the grace, both accept one proof, through either entry point. |
| `SingleUse.RetentionsOfOneKeyAreDisjoint` | pop/replay.go:138-159 | Whatever the bytes of the proofs (an ECDSA signature has a second form that verifies too), of two acceptances of one key the first is no longer retained when the second commits. |
| `SingleUse.SingleUseHoldsIff` | pop/verify.go:26-29 | For skews from lo to hi, single use holds of all runs whose commits lag less than a bound if and only if that bound is at most max(0, grace - (hi - lo)). |
| `SingleUse.ReplayedIsAcceptedTwice` | pop/verify.go:26-29 | The run that fails, for every lo and hi: one proof accepted under lo, then again under hi with a lag of exactly max(0, grace - (hi - lo)). |
| `SingleUse.RejectedAddsNothing` | pop/caller.go:290-300 | A rejected request adds no key, and one that nothing vouches for changes nothing. |
| `SingleUse.AcceptedIsOverItsContent` | pop/verify.go:96-115 | Over every run and through either entry point, an accepted event presented content that hashes to its verified proof's digest. |
| `SingleUse.HeldKeysAreVouched` | pop/caller.go:224-300 | Over every run in clock order, every key held was recorded by an accepted request over its proof's own content; one through the caller check, by a request for one agent within the pins of its own configuration. |
| `SingleUse.GenerationsOfRun` | pop/replay.go:162-208 | After every event of a run with skews up to hi and lags below the grace there are at most ceil((2 hi + grace) / width) + 1 generations, 50 at the defaults. |
| `Occupancy.SlotOutlastsIff` | pop/replay.go:21-28 | Over every run, an accepted proof still takes its slot at some instant later than one skew and the grace past its check, and no earlier than the last event, if and only if the generation of issue + skew + grace ends later than the first such instant. |
| `Occupancy.SlotEndsWithin` | pop/replay.go:29-41 | No accepted proof takes its slot for two skews, the grace and one bucket width past its check, or longer. |
| `Occupancy.OneProofTakesSlot` | pop/replay.go:21-28 | For every issue second, skew and check within the window, a run in which one accepted proof refuses every other key exactly until that end; with the most reached by a proof issued a whole skew after its check. |
| `Occupancy.RefusedOnlyAfterManyAccepted` | pop/replay.go:21-28 | Over every run, a request is refused as full only if at least as many proofs as the capacity were accepted within two of the largest skew, the grace and one bucket width before it. |
| `RootKeys.NewKeyStore` | verify/scitt/root_keys.go:39-58 | The strict constructor fails at the first string that is no key or repeats a key id. |
| `RootKeys.BuildFailsIff` | verify/scitt/root_keys.go:39-58 | The build fails if and only if some string is no key or names the id of an earlier one, and with the error of the first such string. |
| `RootKeys.MergeFrom` | verify/scitt/root_keys.go:199-229 | The loop computes the keys and the counters of merging the strings one after the other. |
| `RootKeys.MergeIsMonotone` | verify/scitt/root_keys.go:195-229 | A merge keeps every binding, adds exactly the ids the strings name, and binds a new id to the first string that names it. |
| `RootKeys.MergeAccounts` | verify/scitt/root_keys.go:187-193 | Added and skipped add up to the inputs, the store grows by added, collisions are among the duplicates. |
| `RootKeys.MergeCounts` | verify/scitt/root_keys.go:199-229 | The counters count the strings that are no keys and those whose id is taken, and the collisions list, in order, the ids offered under another name than their bound one. |
| `RootKeys.MergeIsIdempotent` | verify/scitt/root_keys.go:195-229 | Merging the same strings again adds and changes nothing. |
| `RootKeys.BuildAgreesWithMerge` | verify/scitt/root_keys.go:39-58 | The strict constructor succeeds exactly when a merge into an empty store skips nothing, and with the same keys. |
| `RootKeys.MergeKeepsWellKeyed` | verify/scitt/root_keys.go:199-229 | Every key stays filed under its own id. |
| `RootKeys.BuiltIsWellKeyed` | verify/scitt/root_keys.go:39-58 | The strict constructor files every key under its own id. |
| `RefreshableKeyStore.Store.DoRefresh` | verify/scitt/refreshable_key_store.go:111-158 | A failed fetch changes nothing; a successful one is merged and stamped; without a client nothing happens. |
| `RefreshableKeyStore.Store.RefreshIfCooldownElapsed` | verify/scitt/refreshable_key_store.go:164-201 | Refused exactly when either reading of the clock lies within the cooldown; true exactly when a refresh was performed. |
| `RefreshableKeyStore.OnDemandGoesThroughIff` | verify/scitt/refreshable_key_store.go:164-201 | An on-demand refresh is refused if and only if one of its two clock readings comes less than the cooldown after the last refresh; otherwise the fetch decides. |
| `RefreshableKeyStore.OnDemandRefreshesAreSpaced` | verify/scitt/refreshable_key_store.go:164-201 | In every interleaving of on-demand and direct refreshes, successful on-demand ones complete at least the cooldown apart. |
| `RefreshableKeyStore.OnDemandRefreshGoesThrough` | verify/scitt/refreshable_key_store.go:164-201 | From every reachable state with the gate free, an idle goroutine can complete an on-demand refresh at any instant at least the cooldown past the last refresh. |
| `RefreshableKeyStore.SpacingIsTight` | verify/scitt/refreshable_key_store.go:164-201 | A run in which two on-demand refreshes complete exactly the cooldown apart. |
| `RefreshableKeyStore.KindsAreSpacedIff` | verify/scitt/refreshable_key_store.go:111-201 | For each order of kinds, all completions of those kinds in all runs are at least the cooldown apart if and only if both are on-demand, or the cooldown is not positive. |
| `RefreshableKeyStore.TrustOnlyGrows` | verify/scitt/refreshable_key_store.go:129-136 | In every interleaving no key id is unbound or rebound, and every fetched key of every completed refresh stays trusted. |
| `RefreshableKeyStore.FoundStaysFound` | verify/scitt/refreshable_key_store.go:81-85 | A key that a lookup finds once in a run is found with the same value ever after. |
| `RefreshableKeyStore.RunKeepsInv` | verify/scitt/refreshable_key_store.go:111-201 | What every step keeps: the gate has one holder, completions are stamped in order, the holder has seen the cooldown pass. |
| `RefreshableKeyStore.DirectRefreshNeverWaits` | verify/scitt/refreshable_key_store.go:111-158 | From every reachable state an idle goroutine can complete a direct refresh at the current instant. |
| `RefreshableKeyStore.DirectRefreshIgnoresCooldown` | verify/scitt/refreshable_key_store.go:203-220 | A run in which a direct refresh completes within the cooldown of an on-demand one. |
| `RefreshableKeyStore.DirectIsDoRefresh` | verify/scitt/refreshable_key_store.go:111-158 | From every state, the steps of a direct refresh that nobody disturbs leave what the method leaves. |
| `RefreshableKeyStore.OnDemandIsRefreshIfCooldownElapsed` | verify/scitt/refreshable_key_store.go:164-201 | From every state with the gate free, the steps of an on-demand refresh that nobody disturbs leave what the method leaves. |
| `HeaderSupplier.Supplier.FetchAndVerify` | verify/scitt/supplier.go:248-289 | A verified fetch publishes receipt, token and expiry together; a failure records its error and touches none of them. |
| `HeaderSupplier.Supplier.InitOnce` | verify/scitt/supplier.go:210-244 | Initialization happens once and is retried after a failure. |
| `HeaderSupplier.Supplier.CurrentHeaders` | verify/scitt/supplier.go:148-178 | Emits the published receipt, and the token only while its expiry lies ahead of the clock reading. |
| `HeaderSupplier.Supplier.AutoRefresh` | verify/scitt/supplier.go:291-313 | A turn of the refresh loop fetches and verifies, and initializes the supplier when that succeeds. |
| `HeaderSupplier.RunPublishesConsistentPairs` | verify/scitt/supplier.go:148-314 | In every interleaving the three fields are all absent or from one verified fetch, and initialized implies present. |
| `HeaderSupplier.EmittedHeadersAreConsistent` | verify/scitt/supplier.go:148-178 | Whatever is emitted in any interleaving stems from one verified fetch, and an emitted token expires after the reading that guards it. |
| `HeaderSupplier.ArtifactsStandUntilPublished` | verify/scitt/supplier.go:248-289 | In every interleaving, between two publications the three fields stay as they are, whatever fetches fail. |
| `HeaderSupplier.InitializationHappensOnce` | verify/scitt/supplier.go:206-244 | In every interleaving of calls, refreshes and the refresh loop at most one lazy initialization completes. |
| `HeaderSupplier.CompletedIsHealthy` | verify/scitt/supplier.go:203-244 | Completing a lazy initialization leaves the supplier healthy; a turn of the loop keeps an error recorded meanwhile. |
| `HeaderSupplier.CallerGetsHeaders` | verify/scitt/supplier.go:145-178 | From every reachable state with the gate free an idle goroutine's call can emit the published receipt, or the one its initialization fetches, and the token whenever its expiry lies ahead. |
| `HeaderSupplier.FirstCallerGetsHeaders` | verify/scitt/supplier.go:145-178 | A run in which the first caller gets both headers of a successful fetch. |
| `HeaderSupplier.RefreshIsFetchAndVerify` | verify/scitt/supplier.go:182-184 | From every state, the steps of a RefreshNow that nobody disturbs leave what the fetch method leaves. |
| `HeaderSupplier.TickIsAutoRefresh` | verify/scitt/supplier.go:291-313 | From every state, the steps of a turn of the refresh loop that nobody disturbs leave what the method leaves. |
| `HeaderSupplier.CallIsCurrentHeaders` | verify/scitt/supplier.go:148-178 | From every state with the gate free, the steps of a CurrentHeaders call that nobody disturbs leave and emit what the method does. |
| `FifoCache.BoundedCache.Insert` | verify/scitt/cache.go:70-83 | Overwrites in place or appends, then keeps the newest that fit, as the bounded queue does. |
| `FifoCache.BoundedCache.Invalidate` | verify/scitt/cache.go:86-94 | Removes exactly the named key and keeps the order of the others. |
| `FifoCache.BoundedCache.Get` | verify/scitt/cache.go:52-66 | Returns the queued value unless it has expired. |
| `FifoCache.BoundedCache.EvictLocked` | verify/scitt/cache.go:106-117 | Keeps the newest max(0, maxEntries) entries, also for a negative limit. |
| `FifoCache.BoundedCache.RemoveFromOrderLocked` | verify/scitt/cache.go:121-128 | Removes the first occurrence from the order. |
| `FifoCache.RunIsBounded` | verify/scitt/cache.go:183-241 | After any sequence of inserts and invalidations the keys are distinct and at most max(0, maxEntries). |
| `FifoCache.HeldIsLatest` | verify/scitt/cache.go:183-207 | Whatever is held for a key is what the last operation on that key inserted. |
| `FifoCache.HitIff` | verify/scitt/cache.go:52-66 | Over every run a lookup hits exactly what is held and has not expired. |
| `FifoCache.InsertIsFifo` | verify/scitt/cache.go:70-117 | Over every run overwriting keeps a key's place, and a new key goes to the back at the cost of the one at the front when the cache is full. |
| `FifoCache.InsertHoldsIff` | verify/scitt/cache.go:70-83 | After an insertion the new entry and the old ones whose key is still listed are held, and nothing else. |
| `FifoCache.InvalidateHoldsIff` | verify/scitt/cache.go:86-94 | After an invalidation everything but its key's entry is held. |
| `FifoCache.HitIsLatestInsert` | verify/scitt/cache.go:164-178 | A hit is the unexpired value of the last operation on its key, which is an insert. |
| `FifoCache.ReceiptHitIsYoung` | verify/scitt/cache.go:52-83 | A receipt that is returned was inserted at most one lifetime ago. |
| `BadgeCache.BadgeCache.Insert` | verify/cache.go:140-160 | Adds one entry stamped with its lifetime, then cleans up. |
| `BadgeCache.BadgeCache.InsertForVersion` | verify/cache.go:163-183 | The same for a name and version. |
| `BadgeCache.BadgeCache.CleanupLocked` | verify/cache.go:281-323 | Purges what is past stale retention, then takes exactly the excess, from the names first, in any iteration order. |
| `BadgeCache.CleanedTotal` | verify/cache.go:302-322 | An insert leaves min(survivors of the purge, max(0, MaxEntries)) entries. |
| `BadgeCache.BadgeCache.GetByFqdn` | verify/cache.go:104-119 | Returns the entry held for the name unless it has expired. |
| `BadgeCache.BadgeCache.GetByFqdnVersion` | verify/cache.go:122-137 | Returns the entry held for the name and version unless it has expired. |
| `BadgeCache.BadgeCache.GetStaleByFqdn` | verify/cache.go:187-202 | Returns the entry for the name up to maxStaleness past its expiry. |
| `BadgeCache.BadgeCache.GetStaleByFqdnVersion` | verify/cache.go:206-220 | Returns the entry for the name and version up to maxStaleness past its expiry. |
| `BadgeCache.BadgeCache.Clear` | verify/cache.go:223-229 | Empties both maps. |
| `BadgeCache.BadgeCache.CollectExpiring` | verify/cache.go:254-262 | The read-locked section returns exactly the names within the threshold of their expiry, each by its own reading of the clock. |
| `BadgeCache.BadgeCache.RefreshOne` | verify/cache.go:264-275 | One turn of the loop, whatever happened since the collection: an error leaves the cache alone, a badge is inserted under the collected name, which is always valid. |
| `BadgeCache.BadgeCache.RefreshExpiring` | verify/cache.go:253-276 | The whole refresh when nobody else uses the cache meanwhile introduces no key. |
| `BadgeCache.HeldIsLatestInsert` | verify/cache.go:140-183 | Over every run, whatever is held for a name and version is its last insertion; other names and versions never share its key. |
| `BadgeCache.HitIff` | verify/cache.go:104-220 | Over every run, what is held for a name and version is the badge of its last insertion, returned as fresh exactly through one lifetime after it and as stale exactly through a lifetime and maxStaleness. |
| `BadgeCache.BadgeAgeIsBounded` | verify/cache.go:104-220 | A hit was inserted at most a lifetime ago, and a stale hit at most a lifetime and maxStaleness ago. |
| `BadgeCache.CollectedIff` | verify/cache.go:253-262 | Over every run, a collection takes a held name if and only if its clock reading is later than its last insertion, plus the lifetime, less the threshold. |
| `BadgeCache.RefreshCanIntroduceIff` | verify/cache.go:253-276 | Some run under one clock has a refresh insertion that adds a name not held just before if and only if the configuration can hold an entry. |
| `BadgeCache.RefreshBringsBack` | verify/cache.go:253-276 | For every such configuration, name and version, the run without clearing: the name is collected, purged as too stale by another insertion, and brought back by its refresh. |
| `BadgeCache.StaleHitsAreWithinIff` | verify/cache.go:187-220 | Every stale hit of every run is at most maxStaleness old if and only if the lifetime is not positive, or lifetime and maxStaleness together are negative, or the configuration can hold no entry. |
| `BadgeCache.OldestStaleHit` | verify/cache.go:187-202 | The stale hit as old as the lifetime and maxStaleness together. |
| `BadgeCache.SurvivesIff` | verify/cache.go:281-323 | Over every run, an entry survives a further insertion under every iteration order if and only if it is within stale retention and the survivors of the purge, or for a version the versioned ones, fit the cap. |
| `BadgeVerifier.Verify` | verify/verify.go:118-162 | Cache, fetch, insert, judge and DANE in order; inserts exactly the badges it had to fetch. |
| `BadgeVerifier.ApplyFailurePolicy` | verify/verify.go:33-62 | What each failure policy makes of a failed lookup. |
| `BadgeVerifier.JudgedIff` | verify/verify.go:118-162 | A badge is reported with its verdict if and only if it is the hit that settles, or was fetched and DANE does not reject what it verifies. |
| `BadgeVerifier.DaneRejectedIff` | verify/verify.go:155-159 | A badge is reported as rejected by DANE if and only if no hit settles, it was fetched, it is judged verified, and DANE rejects it. |
| `BadgeVerifier.UnjudgedIff` | verify/verify.go:118-162 | Without a settling hit, no record means no ANS agent and a refused URL an invalid one, and nothing else means so. |
| `BadgeVerifier.FailureIff` | verify/verify.go:33-62 | A failed lookup is reported if and only if the policy is fail-closed or the cache has no stale badge to offer; it passes with that badge, or with none under fail-open, otherwise. |
| `BadgeVerifier.FetchedIsCached` | verify/verify.go:141-150 | Over every run, a badge that had to be fetched becomes the latest insertion for its name and version, stamped with its clock reading; any other verification leaves the cache as it was. |
| `BadgeVerifier.OutcomeBadgeIsRecent` | verify/verify.go:33-162 | Over every run, with any operations between the fresh and the stale lookup, an outcome's badge was just fetched, or is the latest insertion at its lookup within its age bound; the server side reports a mismatch only of a fetched badge; fail-closed lets nothing through. |
| `NoteText.ValidateNoteText` | verify/scitt/checkpoint.go:215-224 | The scan passes exactly the texts of whole runes without control characters. |
| `NoteText.ValidIffEncoded` | verify/scitt/checkpoint.go:215-224 | Those are exactly the UTF-8 encodings (RFC 3629) of characters that are no controls, newline apart. |
| `Base64.RoundTrip` | verify/scitt/checkpoint.go:261-268 | Every byte sequence survives encoding and decoding. |
| `Base64.DecodeIff` | verify/scitt/checkpoint.go:261-268 | A text decodes to some bytes if and only if, line breaks apart, it spells them in base64 with any value in the bits the padding leaves over. |
| `Base64.SymbolCode` | verify/scitt/checkpoint.go:261-268 | The symbols are those of the standard alphabet. |
| `Base64.QuantumIsBigEndian` | verify/scitt/checkpoint.go:261-268 | Four symbols stand for three bytes exactly when both are one 24-bit number, most significant bits first. |
| `Base64.BreaksAreSkipped` | verify/scitt/checkpoint.go:261-268 | A line break makes no difference to what a text decodes to, wherever it stands. |
| `SignedNote.ParsesIffShaped` | verify/scitt/checkpoint.go:251-275 | A signature line parses if and only if it is an em dash, a name without space and the base64 of a 4-byte key hash and a signature. |
| `SignedNote.SplitCheckpointNote` | verify/scitt/checkpoint.go:229-249 | Splits at the first blank line and parses every signature line or fails. |
| `SignedNote.SplitReassembles` | verify/scitt/checkpoint.go:229-249 | Body, newline and block are the note, the body ends in its newline, and there is at least one signature. |
| `SignedNote.SplitAtFirstBlank` | verify/scitt/checkpoint.go:229-249 | The body holds no blank line: the split is at the first one. |
| `SignedNote.SplitIff` | verify/scitt/checkpoint.go:229-249 | A note splits if and only if it is a body of lines without a blank one, a blank line, and one or more newline-terminated lines that all parse; and into exactly these. |
| `SignedNote.BodyIff` | verify/scitt/checkpoint.go:280-314 | A body of lines parses to its first three as origin, size below 2^64 and 32-byte root, and the first of them that is wrong names the error. |
| `SignedNote.BodyHasNoEmptyLine` | verify/scitt/checkpoint.go:229-286 | No line of a body that parses is empty. |
| `SignedNote.NoteRoundTrip` | verify/scitt/checkpoint.go:96-105 | Printing any origin, 64-bit size, root, extension lines and signatures in the documented format, then splitting and parsing, returns them. |
| `Checkpoint.VerifyCheckpointSignatures` | verify/scitt/checkpoint.go:161-210 | The loop's error and key are those of the first offending, verifying or unknown line. |
| `Checkpoint.AcceptsIff` | verify/scitt/checkpoint.go:107-131 | Accepted if and only if every known-key line verifies and binds or is an envelope and one line verifies, or there are no lines. |
| `Checkpoint.OffendingLineRejects` | verify/scitt/checkpoint.go:161-190 | The first line that is not tolerated rejects the note, wherever a good one stands, as an issuer mismatch if it verifies and as an invalid signature otherwise. |
| `Checkpoint.NothingVerifies` | verify/scitt/checkpoint.go:199-210 | When nothing verifies the first unknown key id is reported, or else the first line's invalid signature. |
| `Checkpoint.AcceptanceIgnoresOrderAndUnknownKeys` | verify/scitt/checkpoint.go:157-160 | Acceptance depends only on the set of known-key lines. |
| `Checkpoint.AcceptanceIgnoresPermutation` | verify/scitt/checkpoint.go:157-160 | Acceptance is the same under every permutation of the lines. |
| `Checkpoint.KeyIdIsFirstVerifying` | verify/scitt/checkpoint.go:191-198 | The key reported is that of the first verifying line, which names the key and the origin. |
| `Checkpoint.KeyIdIsStableIff` | verify/scitt/checkpoint.go:191-198 | The reported key is the same under every permutation if and only if all verifying lines name one key. |
| `Checkpoint.VerifyCheckpoint` | verify/scitt/checkpoint.go:132-155 | Size, text, structure, head and signatures in order, with the error of the first that fails. |
| `Checkpoint.StructureFirst` | verify/scitt/checkpoint.go:132-155 | Structural problems are reported before any signature is examined: size, text, shape, then head. |
| `Checkpoint.AcceptedIsSigned` | verify/scitt/checkpoint.go:132-155 | An accepted note is a body without empty lines, a blank line and a block, and a trusted key named as the origin verified exactly that body. |
| `Checkpoint.AcceptedUnderBuiltKeys` | verify/scitt/checkpoint.go:132-155 | Under keys built strictly and merged into, an accepted note reports the key id that its verifying line carries. |
| `Checkpoint.PrintedNoteVerifies` | verify/scitt/checkpoint.go:96-155 | A printed note is verified on exactly the head, body and signatures it was printed from. |
| `Names.ParseVersionIff` | models/version.go:23-57 | Exactly three dotted numerals below 2^32 parse, with or without a leading v, and to those numbers. |
| `Names.VersionRoundTrip` | models/version.go:23-62 | Every version triple survives printing and parsing. |
| `Names.NewFqdnIff` | models/fqdn.go:18-51 | A name is accepted if and only if it is dotted labels of 1 to 63 letters, digits and inner hyphens, with or without a final dot; its value is in lower case without the dot. |
| `Names.FqdnRejectedIff` | models/fqdn.go:18-51 | A name is rejected for the rule that its first bad label breaks: length, characters, then hyphens at its ends. |
| `Names.FqdnIgnoresCase` | models/fqdn.go:18-51 | Spellings that differ in ASCII case are judged alike and have one value, without capital letters. |
| `Names.FqdnIsCanonical` | models/fqdn.go:18-51 | Validating a validated name changes nothing, and it holds no colon. |
| `Names.FqdnVersionKeyInjective` | verify/cache.go:99-101 | Cache keys are equal only for the same domain name and version. |
| `Names.ParseAnsNameIff` | verify/cert.go:101-137 | Exactly the prefix, v, three dotted numerals and a host parse as an ANS name, and to those numbers and the folded host. |
| `Names.ParseOfCanonical` | pop/caller.go:98-100 | Parsing a canonical form gives back the version, and the host folded. |
| `Names.CanonicalIsStable` | verify/cert.go:101-137 | A parsed name's canonical form parses to the same name, when folding twice is folding once. |
| `Names.CanonicalIffSame` | pop/caller.go:95-100 | Canonical forms are equal if and only if version and folded host are, whatever the folding. |
| `Names.CertAnsNameIff` | verify/cert.go:228-237 | A certificate's ANS name is that of the first URI SAN which is one, wherever it stands. |
| `Names.NoCertAnsNameIff` | verify/cert.go:228-237 | It has none if and only if no URI SAN parses. |

## Left out

- SHA-256, ECDSA, X.509, CBOR, JSON and URL normalisation are parameters; decoded records stand for their results.
- The key-string parser of verify/scitt/root_keys.go:61 is a parameter, since its substance is PKIX decoding.
- Integers are unbounded: the range of 64-bit nanosecond clocks and of `time.Unix`, and their wrap-around, are not modelled.
- The case folding of ANS hosts is a parameter, as Go folds letters beyond ASCII; `Names.CanonicalIsStable` alone assumes that it is idempotent.
- One verification sees one state of the key store; that two lookups of one call may straddle a refresh is not modelled.
- Status-token verification is a parameter of the caller check; its steps are straight-line.
- Badge judging and DANE are parameters of a verification; each is settled by reading its branches.
- SCITT headers beside the badge path, prefetching and warnings on deprecated badges are not part of the model.
- BadgeCache.BadgeCache.RefreshExpiring: the call that nobody disturbs; what others can do between collection and insertions is in BadgeCache.RefreshCanIntroduceIff.
- BadgeVerifier.Verify: one call with nobody else at the cache between its lookups and its insertion; BadgeVerifier.OutcomeBadgeIsRecent covers the others. The reading of domain name and ANS name from a client certificate comes before it and is left out.
- RefreshableKeyStore.Store.RefreshIfCooldownElapsed: one undisturbed call; interference between its reads is in the state machine, whose undisturbed steps agree with it.
- HeaderSupplier.Supplier.InitOnce: one undisturbed call, as above.
- HeaderSupplier.Supplier.CurrentHeaders: one undisturbed call, as above.
- A zero-length artifact in the header supplier is treated as present, where the code encodes it to an absent header.
- HTTP clients, DNS, tickers, contexts, jitter, logging, error texts and the ordering of versions are left out.
