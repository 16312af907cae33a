# A verified model of the reliquary protocol

Reliquary is a market in which miners generate groups of model rollouts on a public random stream, and
validators check them, batch them, score the miners and keep an archive. This project models the parts
where an index, an order or an interleaving decides whether honest work is accepted, and proves what the
code and its documentation promise of them. Constants of the protocol (batch size, group size, top-k,
top-p, horizon, alpha, pruning threshold) are parameters, constrained only as the code needs.

| module | subject |
|---|---|
| `ForcedSampling`, `SamplingFacts` | the forced-seed sampler, its fast forms, the seed-consistency check |
| `Generation`, `Bft`, `BftProperties`, `ForcedDraw` | two-phase generation with left padding, the assembler, teacher-forced replay |
| `ForcedRows` | the device-resident batch processor |
| `Framing`, `Merkle` | signed framings, the seed preimage, the rollout tree |
| `Cooldown`, `BatchSelection`, `Batcher`, `Scores`, `Service` | the validator's window market, its scores and its restart |
| `OrderedDicts`, `ParquetIndex`, `ParquetCache`, `ParquetThreads` | the lazy dataset: index, cache, threads |
| `ExpansionBound` | the bounded algebra grader |
| `Apportionment`, `MixController` | slot allocation and baking |
| `Compose`, `FireLoop`, `FireRuns` | composing a submission, the fire-as-ready scheduler |
| `Sorting`, `Reals`, `Wrappers` | a stable sort and its theory; powers and finite sums; Option and Result |

Modelling choices. Logits are reals or minus infinity; softmax is normalisation of a strictly monotone
positive weight; sorts are stable; `torch.topk` is any answer its documentation allows. The sampler enters
generation as an abstract draw from a context and a coordinate (`Generation.Draw`), and `ForcedDraw` plugs
the modelled sampler in. Hashes are injective constructors, and a tiebreak digest is an arbitrary function.
The checks of a submission that run the model are one verdict with a reject reason. A raised exception is
`None` or `Err`. Locks are modelled by taking each section that holds one without waiting as one step.

Three limits of the code, each with its exact condition:

- `target_slots` promises a proportional allocation with floors. It does not promise that of two environments the
  one with the higher yield never gets fewer slots: weights are clamped from below at 1e-9, so two yields under the
  clamp tie, floors above the budget give an even split that ignores yields, and both favour the environment listed
  first. `MixController.HigherYieldExactly` shows that "never fewer" holds exactly when the environment is listed
  first, or the floors fit the budget and its yield is above the least weight. `TinyYieldsTie` and `OverSubscribed`
  are the failing inputs, and `ClampIsReachable` reaches the first of them by recording verdicts.
- Fire loop: submission counters are kept for 64 windows, meant to be well beyond any realistic rollback of the
  state. `FireRuns.CapHoldsExactly` shows that the per-window cap holds in all runs exactly if windows never roll
  back by more than 64.
- Single-prompt phase 2 pads on the right, with the smallest EOS or with 0 when there is none, and leaves it to the
  caller that a row without EOS is the longest. `BftProperties.PaddingHarmlessExactly` gives the exact condition
  under which padding changes nothing, `PaddingCanMatter` an input outside it. The batched path does not pad.

A further detail: the v3 envelope reads a missing protocol version as 0, so `Framing.PreimageBindsMessage` binds
a message up to that reading.

## Model

| member | source | states |
|---|---|---|
| `SamplingFacts.KthValueUnique` | reliquary/environment/forced_sampling.py:16-29 | whatever order top-k breaks ties in, its last value is the same, so the reference mask is well defined |
| `SamplingFacts.TopKMeaning` | reliquary/environment/forced_sampling.py:16-29 | a logit survives top-k exactly if fewer than k logits are strictly above it (ties at the boundary all survive) |
| `SamplingFacts.TopPMeaning` | reliquary/environment/forced_sampling.py:16-29 | a probability survives top-p exactly if the mass ranked ahead of it, ties by token id, is below the threshold |
| `SamplingFacts.WarpFastEqualsWarp` | reliquary/environment/forced_sampling.py:32-64 | the fast warp returns the same distribution as the reference for all logits and parameters |
| `SamplingFacts.WarpMeaning` | reliquary/environment/forced_sampling.py:16-29 | each kept token has the softmax weight of its raw logit over the temperature, divided by the kept total, the others 0; kept are the unmasked tokens within the top k of the raw logits that have less than the top-p share of the weight ahead of them |
| `SamplingFacts.WarpOdds` | reliquary/environment/forced_sampling.py:16-29 | two kept tokens are as likely as the softmax weights of their raw logits divided by the temperature |
| `SamplingFacts.WarpSumsToOne` | reliquary/environment/forced_sampling.py:16-29 | the warped row is a probability distribution |
| `SamplingFacts.PickRestricted` | reliquary/environment/forced_sampling.py:127-175 | searching the CDF of the survivors alone, in ascending token id, finds the token of the full CDF search |
| `SamplingFacts.PickIsInverseCdf` | reliquary/environment/forced_sampling.py:67-72 | for u < 1 the pick is exactly the token whose slice of [0, 1) holds u |
| `SamplingFacts.FastRowEquals` | reliquary/environment/forced_sampling.py:127-175 | without ties the k-survivor path of one row gives the reference token |
| `SamplingFacts.ForceRowsFastEqualsReference` | reliquary/environment/forced_sampling.py:75-175 | on every row and every u >= 0 the fast batch returns the reference batch's token, tie fallback and overflow to the last token included |
| `SamplingFacts.ForcedTokenIsKept` | reliquary/environment/forced_sampling.py:67-124 | for u < 1 the forced token is one that survived top-k and top-p |
| `SamplingFacts.ForceRowsMeaning` | reliquary/environment/forced_sampling.py:75-124 | in the batch each row's token is the one whose slice of that row's own distribution holds that row's own u |
| `SamplingFacts.SeedConsistencyHonest` | reliquary/environment/forced_sampling.py:219-241 | n_match = n_stoch if and only if every checked stochastic position holds the forced token |
| `SamplingFacts.SeedConsistencyCounts` | reliquary/environment/forced_sampling.py:219-241 | n_stoch counts the positions where no token is as likely as the threshold, n_match those of them that hold the forced token, over the shortest of the three lists |
| `Framing.SeedPreimageBindsInput` | reliquary/environment/forced_sampling.py:178-198 | for a fixed domain equal seed preimages mean the same randomness, prompt, checkpoint, rollout and position, and conversely |
| `Framing.SeedLayout` | reliquary/environment/forced_sampling.py:178-198 | after the domain come length-prefixed randomness, prompt index, length-prefixed checkpoint, rollout index and position, with widths 2, 8, 2, 4 and 4, big-endian |
| `Framing.UniformExactly` | reliquary/environment/forced_sampling.py:182-198 | the uniform times 2^64 is the number the first eight digest bytes spell, first byte heaviest |
| `Framing.UniformInRange` | reliquary/environment/forced_sampling.py:182-198 | the uniform read off a digest lies in [0, 1) |
| `Generation.FirstEosIndex` | reliquary/shared/modeling.py:147-151 | the loop returns the first position holding an EOS, or none |
| `Generation.TruncateAtFirstEos` | reliquary/miner/engine.py:449-465 | the loop cuts just after the first EOS and changes nothing without one |
| `Generation.TerminationMeaning` | reliquary/miner/engine.py:427-446 | the validator's rule asks for an EOS in last position and none before it |
| `Generation.CutMeetsTheRule` | reliquary/miner/engine.py:427-465 | a cut completion meets the validator's termination rule exactly if the original contains an EOS |
| `Generation.UnpadLeft` | reliquary/miner/bft.py:110-150 | removing masked positions from a left-padded row gives the row back |
| `Generation.DecodeStep` | reliquary/miner/forced_seed_sampler.py:96-118 | one decoding step extends each row by the draw for its own unpadded context at its own coordinate, finished rows by the pad |
| `Generation.Generate` | reliquary/miner/forced_seed_sampler.py:96-118 | every row of a padded batch continues its own stream from its own offset, independently of the other rows, up to its stop |
| `Generation.GeneratedCut` | reliquary/miner/bft.py:140-156 | cutting a generated tail at its first EOS gives the row's stream cut at its first EOS |
| `Bft.PadLeft` | reliquary/miner/bft.py:120-140 | the width is the longest row's, every row is its padding followed by itself, and the mask is set exactly on the row |
| `Bft.PlanFinishes` | reliquary/miner/bft.py:102-122 | a row is finished exactly if its completion holds an EOS, and what is kept of it meets the validator's termination rule |
| `Bft.PlanContinues` | reliquary/miner/bft.py:102-122 | any other row continues as it is if it closed its thinking, otherwise with the force ids exactly in its span, right after what it has |
| `Bft.Phase2` | reliquary/miner/bft.py:110-150 | each unfinished row's answer is its own stream resumed at its base offset |
| `Bft.AssembleRollouts` | reliquary/miner/bft.py:66-156 | the assembler returns, row by row, what that row becomes on its own, whatever rows it travels with |
| `Bft.RolloutsFromCompletions` | reliquary/miner/bft.py:38-63 | the single-prompt path right-pads to the longest completion and assembles each row; an empty list is an error |
| `Bft.RolloutsFromCompletionsMulti` | reliquary/miner/bft.py:159-279 | the batched path returns for each group and row what that row becomes on its own with its own prompt |
| `BftProperties.AssembledReplays` | reliquary/miner/bft.py:98-156 | if phase 1 followed its stream, every completion token outside the force span is the draw for its own prefix at (prompt, rollout, t) |
| `BftProperties.AssembledShape` | reliquary/miner/bft.py:98-156 | the prompt prefix is kept, a forced row's span holds exactly the force ids right after phase 1, an unforced row has no span |
| `BftProperties.AssembledForced` | reliquary/miner/bft.py:98-156 | a row is forced exactly if it has neither an EOS nor a closed thinking |
| `BftProperties.AssembledStops` | reliquary/miner/bft.py:98-156 | a row is forced exactly if it stays open up to the end of phase 1, never exceeds its budget, and is exactly as long as that when it holds no EOS |
| `BftProperties.AssembledTermination` | reliquary/miner/bft.py:98-156 | with EOS-free force ids a completion holds at most one EOS, in last position |
| `BftProperties.PaddingHarmless` | reliquary/miner/bft.py:38-63 | a row that has an EOS or is the longest assembles the same padded or not |
| `BftProperties.PaddingHarmlessExactly` | reliquary/miner/bft.py:38-63 | padded and unpadded assembly agree if and only if the row finished, is at the cap, or there are EOS ids and it closed its thinking with the pad as next draw; no EOS ids at all are included |
| `BftProperties.PaddingCanMatter` | reliquary/miner/bft.py:38-63 | a short row without EOS whose padded and unpadded assembly differ, whatever the draws |
| `BftProperties.MultiRefinesSingle` | reliquary/miner/bft.py:159-279 | batching phase 2 over prompts gives each row what its group run alone gives it, when every completion without EOS has its group's length |
| `BftProperties.GenerateMRollouts` | reliquary/miner/engine.py:2594-2646 | the in-process path returns m rollouts that replay and keep the prompt; with budget forcing a forced span is exactly the force ids at prompt length plus thinking budget, without it no completion is longer than max_new_tokens and one without EOS is exactly as long |
| `BftProperties.GoodIsUnique` | reliquary/miner/engine.py:2501-2646 | what the paths promise of a rollout leaves exactly one rollout, when the force ids hold no EOS |
| `BftProperties.FinishBackend` | reliquary/miner/engine.py:2574-2592 | completions of another engine that followed their streams are cut at their first EOS and become rollouts with the guarantees of `GenerateMRollouts` |
| `BftProperties.FinishGroups` | reliquary/miner/bft.py:159-279 | every rollout of every group of a mixed batch replays under its own prompt index and rollout index, keeps its own prompt, has its span right after its own completion, and holds no EOS before the last token if the force ids hold none |
| `ForcedDraw.ProcessorCall` | reliquary/miner/forced_seed_sampler.py:96-118 | behind the one-hot scores of a call after any number of steps, the argmax of each row is exactly the draw for its context at its base offset plus the steps |
| `ForcedDraw.ReplayingRolloutIsConsistent` | reliquary/environment/forced_sampling.py:219-241 | a rollout that replays scores n_match = n_stoch at any completion positions outside its force span |
| `ForcedDraw.MaskedListIsConsistent` | reliquary/miner/vllm_forced_seed.py:51-89 | a token list decoded greedily behind the mask matches at every stochastic position |
| `ForcedRows.GreedyEmitsForcedToken` | reliquary/miner/vllm_forced_seed.py:51-70 | behind the mask of a row the argmax is the forced token and no other |
| `ForcedRows.MaskRows` | reliquary/miner/vllm_forced_seed.py:94-124 | in place, exactly the listed rows become one-hot at their forced token, computed from the old logits |
| `ForcedRows.BatchedForceMask` | reliquary/miner/vllm_forced_seed.py:94-124 | the stateless form masks exactly the entries' rows, each with its own u |
| `ForcedRows.ForcedRowsState.Rebuild` | reliquary/miner/vllm_forced_seed.py:149-166 | after a batch change the tracked requests are the forced ones in ascending row order, each once; the capacity never shrinks and no other buffer is touched |
| `ForcedRows.ForcedRowsState.Stage` | reliquary/miner/vllm_forced_seed.py:168-188 | the staged uniforms are those at base offset plus number of output tokens of each tracked request; stale entries are left alone |
| `ForcedRows.ForcedRowsState.Apply` | reliquary/miner/vllm_forced_seed.py:168-188 | over any history each step changes exactly the forced rows, each to the per-row mask at its base offset plus number of output tokens |
| `Merkle.ComputeRolloutsMerkleRoot` | reliquary/protocol/merkle.py:30-67 | the level-by-level loop computes the tree's root and refuses an empty list |
| `Merkle.RootIsTree` | reliquary/protocol/merkle.py:58-67 | pairing level by level gives the perfect binary tree of the least depth that has room for the leaves, with the left subtree repeated where none are left |
| `Merkle.FrontierIndices` | reliquary/protocol/merkle.py:37-67 | frontier position j of the root carries index j exactly for the real leaves, duplicates carry an earlier index |
| `Merkle.LongerIsDifferent` | reliquary/protocol/merkle.py:37-67 | lists of different length have different roots in spite of odd-leaf duplication |
| `Merkle.RootBindsRollouts` | reliquary/protocol/merkle.py:30-67 | two non-empty lists have equal roots if and only if they are equal |
| `Framing.UnframeFrame` | reliquary/protocol/signatures.py:71-89 | a sequence of length-prefixed fields decodes to those fields |
| `Framing.BuildBinding` | reliquary/protocol/signatures.py:141-247 | the hashing loop is fed the domain tag and the framed fields, out-of-range numbers raise |
| `Framing.TagLayout` | reliquary/protocol/signatures.py:141-396 | which domain tag opens which kind of message |
| `Framing.CommitLayout` | reliquary/protocol/signatures.py:58-89 | the five fields of a commit in order, the layer as a signed number of four bytes |
| `Framing.EnvelopeLayout` | reliquary/protocol/signatures.py:141-247 | the place of every field of an envelope in its three versions |
| `Framing.VersionLayout` | reliquary/protocol/signatures.py:141-247 | the place of the protocol version in the second and third envelope version |
| `Framing.PrecommitLayout` | reliquary/protocol/signatures.py:339-396 | the place of every field of an upload precommit in its two versions |
| `Framing.DecodePreimage` | reliquary/protocol/signatures.py:58-89 | every commit, envelope and precommit preimage decodes to the message it was built from, version included |
| `Framing.PreimageBindsMessage` | reliquary/protocol/signatures.py:339-396 | across all six domains equal preimages mean the same domain and the same fields, and conversely |
| `Cooldown.CooldownMap.RecordBatched` | reliquary/validator/cooldown.py:27-33 | records the window, refusing negative arguments |
| `Cooldown.CooldownMap.CurrentCooldownSet` | reliquary/validator/cooldown.py:44-51 | the set holds exactly the prompts the predicate blocks |
| `Cooldown.CooldownMap.RebuildFromHistory` | reliquary/validator/cooldown.py:97-121 | from archives in any order the map holds exactly each prompt's latest window above the horizon's limit |
| `Cooldown.RestartEquivalence` | reliquary/validator/service.py:653-673 | after a restart at window c the rebuilt map answers as the live map for every prompt and every window from c on |
| `Cooldown.ListRecentCovers` | reliquary/infrastructure/storage.py:224-268 | the startup download reaches back far enough, whatever order it comes in |
| `Cooldown.ListRecentIsSuffix` | reliquary/infrastructure/storage.py:224-268 | of archives in window order the download is the suffix of the last n window numbers |
| `Cooldown.RecordKeeps` | reliquary/validator/batcher.py:360-370 | sealing a later window keeps the map right, live or rebuilt |
| `Cooldown.SpacingKept` | reliquary/validator/batcher.py:360-370 | batching only prompts out of cooldown keeps batches of one prompt at least the horizon apart |
| `BatchSelection.SelectBatch` | reliquary/validator/batch_selection.py:43-92 | the greedy loop over the sorted submissions returns the specified selection |
| `BatchSelection.SelectMeaning` | reliquary/validator/batch_selection.py:43-92 | the batch has min(b, eligible prompts) members with distinct prompts, in order of arrival time and at equal times of digest; each arrived no later than every other submission for its prompt and than every open submission left out |
| `BatchSelection.SelectOrderIndependent` | reliquary/validator/batch_selection.py:29-92 | with distinct keys the batch depends only on the multiset of submissions |
| `Batcher.GrpoWindowBatcher.Accept` | reliquary/validator/batcher.py:175-348 | a request is accepted exactly if window, checkpoint, prompt range, cooldown, claim and verdict all allow it; otherwise only the counter of its first failing check, in that order, grows; the window's invariant holds |
| `Batcher.GrpoWindowBatcher.Claim` | reliquary/validator/batcher.py:315-348 | claimed prompts stay those of the valid list, all distinct, and the seal flag says whether at least b are valid |
| `Batcher.GrpoWindowBatcher.Reject` | reliquary/validator/batcher.py:350-352 | one more reject under that reason and nothing else |
| `Batcher.GrpoWindowBatcher.SealBatch` | reliquary/validator/batcher.py:360-370 | the batch is the selection, its prompts enter cooldown, and before a first seal it is full exactly if the flag is set |
| `Batcher.GrpoWindowBatcher.DistinctEligible` | reliquary/validator/batcher.py:337-342 | the count of distinct valid prompts out of cooldown, which before the seal is the number of valid submissions |
| `Batcher.AdmittedMeaning` | reliquary/validator/batcher.py:175-348 | over any sequence of requests the accepted prompts are exactly those with a passing request, once each |
| `Batcher.AdmittedExactly` | reliquary/validator/batcher.py:175-348 | the accepted submissions are the first passing requests for their prompts, with hotkey, prompt and root of the request and the time of its acceptance |
| `Batcher.SelectServes` | reliquary/validator/batch_selection.py:43-92 | every batch member is the first passing request for its prompt, members are in order of time, and none was accepted later than a first passing request left out |
| `Batcher.NobodyOvertakes` | reliquary/validator/batch_selection.py:43-92 | with a clock that does not run backwards no passing request whose prompt missed the batch came before a member |
| `Batcher.TotalBump` | reliquary/validator/batcher.py:350-352 | a reject adds exactly one to the total over all reasons |
| `Scores.UpdateScores` | reliquary/validator/service.py:195-221 | the hotkey-by-hotkey loop with pruning computes one exact moving-average step |
| `Scores.BlendMeaning` | reliquary/validator/service.py:212-216 | alpha times the share of the slots plus one minus alpha times the old score |
| `Scores.StepMeaning` | reliquary/validator/service.py:195-221 | a miner is in the table after a window exactly if it was there or in the batch and its score blended with its number of batch entries is above the threshold |
| `Scores.CountContributions` | reliquary/validator/service.py:208-210 | the loop counts each hotkey's entries in the batch |
| `Scores.ReplayEma` | reliquary/validator/weight_only.py:92-104 | both validators' replay loops compute the fold over the archives sorted by window |
| `Scores.ReplayEqualsOnline` | reliquary/validator/service.py:635-651 | replaying a run's archives in any order gives the live scores |
| `Scores.RecentReplayIsClose` | reliquary/validator/service.py:621-651 | replaying only the last n archives gives at most the full score and less by at most (1 - alpha)^n + prune / alpha |
| `Scores.FoldBounded` | reliquary/validator/service.py:195-221 | over any run every score stays between 0 and 1 |
| `Scores.Conservation` | reliquary/validator/service.py:195-221 | over any run scores stay non-negative and their total stays at most 1 |
| `Scores.SubmitWeights` | reliquary/validator/service.py:697-729 | the vector has exactly one entry for each registered miner with a positive score, that score under its uid, and one for a positive burn; total score and burn add up to 1 |
| `Service.ValidationService.Recover` | reliquary/validator/service.py:593-673 | startup takes the largest archived window, or 0, as counter and rebuilds scores and cooldown from the archives into a valid state that agrees with the whole history |
| `Service.LargestWindow` | reliquary/validator/service.py:598-606 | the largest window among the archives, 0 without any |
| `Service.ValidationService.RunWindow` | reliquary/validator/service.py:289-388 | a window admits, seals, credits and archives; its batch is first come, first served on the arrivals' own times, has min(b, prompts with a passing request) members, and training happens exactly when there are at least b of those |
| `Service.ValidationService.TakeSubmissions` | reliquary/validator/batcher.py:168-173 | after any list of arrivals the batcher's valid list is exactly what first-come-first-served admits, and every call is counted |
| `Service.SealAgrees` | reliquary/validator/service.py:329-388 | one more sealed window keeps scores, cooldown map, spacing and history in agreement |
| `Service.BlockedMeaning` | reliquary/validator/cooldown.py:35-42 | a map that looks far enough back blocks exactly the prompts batched less than the horizon ago |
| `Service.SameCooldown` | reliquary/validator/service.py:653-673 | two validators over the same archives, restarted at any times, agree on every prompt and later window |
| `Service.SameBatch` | reliquary/validator/service.py:653-673 | given the same submissions they seal the same batch |
| `Service.CloseScores` | reliquary/validator/service.py:621-633 | their scores differ by at most (1 - alpha)^n + prune / alpha, the later starter being lower |
| `Service.Submit` | reliquary/validator/service.py:697-729 | in every reachable state total score plus burn is exactly 1, and each registered positive score is sent once, to its miner's uid |
| `OrderedDicts.RecencyMeaning` | reliquary/environment/virtual_parquet.py:116-134 | the recency list holds each accessed key once, ordered by last access |
| `OrderedDicts.AccessKeepsLru` | reliquary/environment/virtual_parquet.py:116-134 | a hit that moves to the end and a miss that appends and evicts both keep exactly the cap most recent keys |
| `OrderedDicts.Trim` | reliquary/environment/virtual_parquet.py:132-133 | the eviction loop keeps the last cap entries |
| `ParquetIndex.FilesOrderIndependent` | reliquary/environment/virtual_parquet.py:75-81 | the file list does not depend on the order the directory is listed in |
| `ParquetIndex.FilesListed` | reliquary/environment/virtual_parquet.py:75-81 | the files are exactly the listed ones whose path ends in .parquet, as often as listed, in character order of their paths |
| `ParquetIndex.BuildManifest` | reliquary/environment/virtual_parquet.py:82-93 | the nested loops build the specified manifest |
| `ParquetIndex.ManifestDescribes` | reliquary/environment/virtual_parquet.py:82-93 | each listed group lies at its start in the concatenated table, the next one where it ends, and the total is the table's length |
| `ParquetIndex.ManifestListsGroups` | reliquary/environment/virtual_parquet.py:82-93 | the manifest lists every row group of every file once, file by file and group by group |
| `ParquetIndex.BisectRight` | reliquary/environment/virtual_parquet.py:114 | binary search finds the end of the entries at most x |
| `ParquetIndex.LocateRight` | reliquary/environment/virtual_parquet.py:112-119 | looking an index up and reading the group gives the table's row, empty groups included |
| `ParquetCache.VirtualParquetDataset.GetRow` | reliquary/environment/virtual_parquet.py:104-134 | returns row idx mod length of the flat table of the files in path order whatever is cached, raising exactly when there is none |
| `ParquetCache.VirtualParquetDataset.RowGroup` | reliquary/environment/virtual_parquet.py:116-134 | the cache stays coherent and holds the cap most recently used groups in order of use; a cached group reads no file |
| `ParquetCache.VirtualParquetDataset.ParquetFile` | reliquary/environment/virtual_parquet.py:141-157 | the open files are the four most recently read |
| `ParquetCache.VirtualParquetDataset.EnsureManifest` | reliquary/environment/virtual_parquet.py:67-94 | builds the manifest once, failing exactly when there is no parquet file |
| `ParquetCache.VirtualParquetDataset.Length` | reliquary/environment/virtual_parquet.py:96-99 | the length is the flat table's |
| `ParquetCache.InsertedMeaning` | reliquary/environment/virtual_parquet.py:129-133 | inserting a fetched group and evicting keeps the cache coherent and within its cap |
| `ParquetThreads.HappenKeeps` | reliquary/environment/virtual_parquet.py:67-134 | every step of every thread keeps the invariant: manifest fields right, cache coherent, one lock holder, each thread's key and offset those of the row it wants |
| `ParquetThreads.EveryInterleaving` | reliquary/environment/virtual_parquet.py:67-134 | in every interleaving of any number of threads answers are the rows of the table of the files in path order, the cache is coherent and within its cap, and only absent groups are fetched, one at a time |
| `ParquetThreads.Progress` | reliquary/environment/virtual_parquet.py:67-134 | there is never a deadlock, and each step brings its thread closer to its answer |
| `ExpansionBound.CombFactorial` | reliquary/environment/openmathinstruct.py:271-276 | the binomial coefficient is the factorial quotient |
| `ExpansionBound.KFoldSize` | reliquary/environment/openmathinstruct.py:271-276 | the k-fold products of b monomials are at most C(b + k - 1, k) |
| `ExpansionBound.KFoldAttained` | reliquary/environment/openmathinstruct.py:271-276 | when all monomials but one have a factor of their own, their k-fold products are exactly C(b + k - 1, k) |
| `ExpansionBound.ExpandPreservesValue` | reliquary/environment/openmathinstruct.py:280-317 | the full expansion has the value of the expression in every commutative semiring |
| `ExpansionBound.FullBoundSound` | reliquary/environment/openmathinstruct.py:235-277 | the unsaturated bound is at least the number of distinct monomials of the full expansion |
| `ExpansionBound.FullBoundAttained` | reliquary/environment/openmathinstruct.py:235-277 | for expressions in which nothing is collected the unsaturated bound is exactly the number of monomials |
| `ExpansionBound.PowerOfSum` | reliquary/environment/openmathinstruct.py:235-277 | the k-th power of a sum of n distinct symbols is such an expression and has exactly C(n + k - 1, k) monomials |
| `ExpansionBound.ExpandTermBound` | reliquary/environment/openmathinstruct.py:235-277 | the result never exceeds cap + 1 and a result within cap bounds the number of monomials; without empty sums cap + 1 is returned exactly when the full bound exceeds the cap, and where nothing is collected the result is the number of monomials itself, or cap + 1 beyond the cap |
| `ExpansionBound.AddBound` | reliquary/environment/openmathinstruct.py:247-253 | the summing loop with its early exit saturates soundly |
| `ExpansionBound.MulBound` | reliquary/environment/openmathinstruct.py:254-260 | the multiplying loop with its early exit saturates soundly |
| `ExpansionBound.PowBound` | reliquary/environment/openmathinstruct.py:261-276 | only non-negative integer exponents expand, by the multiset count; that count is attained (`KFoldAttained`) |
| `ExpansionBound.ExprIsSafeMeaning` | reliquary/environment/openmathinstruct.py:144-176 | the guard accepts exactly the trees of whitelisted nodes within the remaining height |
| `ExpansionBound.FreeSymbolMeaning` | reliquary/environment/openmathinstruct.py:307-308 | an expression has a free symbol exactly if substituting for some symbol changes it |
| `ExpansionBound.SymbolicGate` | reliquary/environment/openmathinstruct.py:280-317 | two answers reach the expansion only if admissible and within the cap, and then their difference has at most 4000 monomials; where nothing is collected they reach it exactly if admissible with at most 2000 monomials each |
| `Sorting.SortStable` | reliquary/miner/mix_controller.py:60 | the modelled sort is stable: the elements of a class whose members tie keep their order |
| `Apportionment.SlotsSum` | reliquary/miner/mix_controller.py:38-62 | for every yield history, total and floor the slots add up to the total |
| `Apportionment.SlotsRounded` | reliquary/miner/mix_controller.py:51-62 | when the floors fit each environment gets its floor plus its quota rounded down or up |
| `Apportionment.MoreWeightMoreSlots` | reliquary/miner/mix_controller.py:51-62 | a strictly larger weight never gets fewer slots |
| `Apportionment.FavouredHasRemainder` | reliquary/miner/mix_controller.py:57-61 | only a quota with a fraction is rounded up |
| `Apportionment.FavouredFirst` | reliquary/miner/mix_controller.py:57-61 | a larger remainder is rounded up before a smaller one |
| `Apportionment.EarlierFavoured` | reliquary/miner/mix_controller.py:57-61 | of equal remainders the one listed first is rounded up first |
| `Apportionment.OverBudgetEven` | reliquary/miner/mix_controller.py:43-50 | with floors above the budget no two environments differ by more than one slot |
| `MixController.MixController.RecordOutcome` | reliquary/miner/mix_controller.py:26-32 | one environment's average moves, others and unknown names do not, and averages stay between 0 and 1 |
| `MixController.BlendMeaning` | reliquary/miner/mix_controller.py:26-32 | the first outcome is the average, a later one moves it by alpha of the way to 1 or to 0 |
| `MixController.MixController.TargetSlots` | reliquary/miner/mix_controller.py:38-62 | the loops over the environments compute the specified slots, which sum to the total |
| `MixController.SlotsProportional` | reliquary/miner/mix_controller.py:34-62 | when the floors fit, slots beyond the floor are the rest in proportion to the yields, 0.5 before the first outcome and at least 1e-9, rounded down or up |
| `MixController.HigherYieldExactly` | reliquary/miner/mix_controller.py:38-62 | a higher yield never gets fewer slots, over every setting, if and only if its environment is listed first, or the floors fit the budget and it is above the least weight |
| `MixController.TinyYieldsTie` | reliquary/miner/mix_controller.py:51-62 | two yields under the least weight tie, and the odd slot goes to the one listed first |
| `MixController.OverSubscribed` | reliquary/miner/mix_controller.py:43-50 | with floors above the budget the odd slot goes to the one listed first, whatever the yields |
| `Apportionment.ListedFirstNoFewer` | reliquary/miner/mix_controller.py:38-62 | with equal weights or floors above the budget the environment listed first gets no fewer slots |
| `MixController.MixController.ApplyVerdicts` | reliquary/miner/engine.py:1005-1027 | the averages after a list of verdicts are the fold of the recorded outcomes |
| `MixController.ClampIsReachable` | reliquary/miner/mix_controller.py:26-62 | for every rate strictly between 0 and 1 there is a list of verdicts after which the higher of two yields gets fewer slots |
| `MixController.PickBakeEnv` | reliquary/miner/mix_controller.py:68-94 | the running maximum with ties picks the environment whose turn it is among the deepest deficits of count below target, and takes a ticket exactly on a tie |
| `MixController.FindTied` | reliquary/miner/mix_controller.py:84-91 | the loop collects the environments with the deepest deficit, in order |
| `MixController.TiedMeaning` | reliquary/miner/mix_controller.py:84-91 | the tied environments are exactly those with no deeper deficit than theirs |
| `MixController.BakingFills` | reliquary/miner/mix_controller.py:68-94 | from counts within the targets baking never overfills, and the targets are met exactly after the missing number of bakes, whatever the tickets |
| `MixController.RotationIsFair` | reliquary/miner/mix_controller.py:65-94 | while deficits stand still, as many picks as there are ties take each tied environment exactly once |
| `Compose.DropDuplicates` | reliquary/miner/engine.py:3272-3297 | the loop keeps the first rollout of each token list |
| `Compose.DedupMeaning` | reliquary/miner/engine.py:3272-3297 | afterwards every token list occurs exactly once and nothing is added |
| `Compose.DedupFirst` | reliquary/miner/engine.py:3272-3297 | of the rollouts with one token list the first is the one that stays |
| `Compose.KeptMeaning` | reliquary/miner/engine.py:3258-3314 | kept rollouts have distinct tokens, ended with EOS where answers are not forced, and are at or above the local floors that are on; nothing else is dropped after the duplicates |
| `Compose.ChosenIsGroup` | reliquary/miner/engine.py:3356-3390 | an accepted choice for k is a valid group with k correct |
| `Compose.GroupIsAccepted` | reliquary/miner/engine.py:3356-3390 | if any valid group with k correct exists among the kept rollouts, the greedy choice for k is accepted |
| `Compose.ChosenNonBt` | reliquary/miner/engine.py:3356-3390 | the choice uses exactly as many untrusted rollouts as the shortage of trusted ones |
| `Compose.ChosenPreferred` | reliquary/miner/engine.py:3340-3382 | nobody left out is preferred to a chosen rollout of the same reward: trusted first, then local quantile and stop probability; untrusted by EOS and stop probability |
| `Compose.Choose` | reliquary/miner/engine.py:3369-3389 | the body of the loop over k returns the choice exactly if it is accepted |
| `Compose.FirstAccepted` | reliquary/miner/engine.py:3352-3390 | the loop returns the accepted k nearest the middle, or none is accepted in the band |
| `Compose.KOrderFacts` | reliquary/miner/engine.py:3352-3355 | the order visits exactly the band, by distance from its middle, the smaller k first on ties |
| `Compose.TrySelect` | reliquary/miner/engine.py:3245-3390 | sound, complete, choosing the feasible k nearest the middle of the band and the preferred rollouts for it; with a band within 2..6 the validator's zone accepts it |
| `Compose.BinaryVariance` | reliquary/validator/verifier.py:171-184 | the variance of eight binary rewards is k (8 - k) / 64 |
| `Compose.ZoneForEight` | reliquary/miner/engine.py:533-576 | of eight rollouts a group is in the zone exactly if two to six are correct |
| `FireLoop.DrainPool` | reliquary/miner/engine.py:1798-1823 | the draining loop splits the pool into fired, kept and dropped as specified |
| `FireLoop.DrainSplits` | reliquary/miner/engine.py:1798-1823 | a drain loses and invents nothing, keeps pool order and takes as many eligible entries as the budget allows |
| `FireLoop.DrainMeaning` | reliquary/miner/engine.py:1798-1823 | fired or kept are exactly the entries out of cooldown and inside the slice of their environment if it has one |
| `FireLoop.Decide` | reliquary/miner/engine.py:1867-1897 | the loop over the outcomes puts each entry on the requeue or the drop list |
| `FireLoop.AnsweredMeaning` | reliquary/miner/engine.py:1852-1897 | put back are exactly the entries rejected as stale_round, batch_filled, rate_limited, future_round or registration_unavailable, every other outcome drops |
| `FireLoop.AnsweredPartition` | reliquary/miner/engine.py:1852-1929 | every fired entry is put back or dropped, never both and never neither |
| `FireLoop.MiningEngine.TriggerTick` | reliquary/miner/engine.py:1699-1764 | a tick schedules one fire with the remaining budget exactly if the window is open with randomness, budget and pool are not empty and no fire is alive, and drops the counters more than 64 windows back |
| `FireLoop.MiningEngine.StartFire` | reliquary/miner/engine.py:1796-1823 | under the pool lock a fire drains within its budget and counts at once |
| `FireLoop.MiningEngine.FinishFire` | reliquary/miner/engine.py:1852-1929 | retryable entries go back to the end of the pool, the fire is over |
| `FireLoop.MiningEngine.AppendEntry` | reliquary/miner/engine.py:2409-2410 | a baked group goes to the end of the pool |
| `FireLoop.MiningEngine.FlushPool` | reliquary/miner/engine.py:1600-1602 | the pool is emptied, fires in flight and counters are left alone |
| `FireLoop.MiningEngine.DiscardFire` | reliquary/miner/engine.py:1723-1726 | a finished fire leaves the set of fires in flight |
| `FireRuns.EveryRunIsWhole` | reliquary/miner/engine.py:1699-1929 | in every interleaving at most one fire is alive, and every entry that came in is in the pool, in flight or gone, as often as it came in |
| `FireRuns.CapHoldsExactly` | reliquary/miner/engine.py:1715-1764 | no window is drained beyond the cap in any run, if and only if windows never roll back by more than 64 |

## Left out

- Floating-point rounding, GPU reduction order, NaN and infinite values other than masked logits: numbers are exact reals, so "bit-exact" claims are proved as equalities of real numbers.
- Forward passes, sketches, log-prob and distribution checks: one verdict per request in the batcher, an arbitrary function in generation.
- Parsing and normalising answers, `evalf`, `sympy.expand` itself and the code sandbox: the expression tree is the input, and the expansion is the project's own.
- Canonical JSON, hex cleaning of the digests, key signatures: the framings start from byte strings, the tree's leaves from values.
- HTTP, storage, chain, drand, checkpoint publishing and the training step: foreign calls; an archive upload that fails after sealing is not modelled.
- Exceptions in the training step after a batch is sealed: then scores and cooldown advance without an archive, and a restart does not see that window.
- The legacy burst path for unarmed windows and the conditions under which a window is armed: the fire loop is the fire-as-ready one.
- The continuous-reward branch of subset selection: a heuristic whose result is not the maximum-variance subset in general.
- Pool entries agreeing with the current window's randomness: it depends on await points inside generation.
- Capacity growth policy of the staging buffers beyond what `Rebuild` states, and device transfers.
- Concurrency inside the batcher and the service: their methods run under one lock and are modelled one call at a time.
- Learning rate schedule, prompt prediction, command line, operations scripts.
- Scores.SubmitWeights: the chain's own normalisation of the vector is not modelled.
- ParquetThreads.EveryInterleaving: says nothing of recency across threads, since the second look at the cache under the I/O lock does not count as a use; one thread alone gets exact recency in `ParquetCache`.
- Compose.TrySelect: a band that reaches below 0 or above the group size, which the environment variables do not rule out, is not modelled.
- MixController.MixController.TargetSlots: environment names are distinct and there is at least one.
