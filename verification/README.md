# Verified models of the benchmark, evaluation and release scripts

Dafny models of the scripts that contain whole algorithms: speculative greedy decoding with a rolled-back cache, draft
and verify rounds with two kinds of cache, the vision merge and strip tools, the INT4 matrix kernels, the resumable
mirror, the grading of tool calls, and the alias sweep. Each program that changes state is a method on arrays or
objects, proved against a specification function; what the program is for is then proved about that specification, for
all inputs and all runs.

`dafny verify dfyconfig.toml` checks everything.

| files | subject |
|---|---|
| `GreedyModel`, `SuffixDecoding` | greedy decoding, and draft / verify / trim decoding on a key-value cache |
| `RunCounts`, `MtpRounds`, `ParseRounds` | multi-token-prediction rounds, and the statistics recovered from a yield stream |
| `Snapshot`, `VisionStrip`, `VisionMerge`, `VisionProperties` | in-place rewriting of shards, weight index and config |
| `QuantMatrix`, `QuantKernels` | packed INT4 matrices and the Metal kernels over them |
| `PublicUrl`, `Mirror`, `MirrorProperties` | percent-encoded URLs, the mirror program, sequences of aborted runs |
| `ToolCalls`, `FuzzyArgs`, `ParallelCalls` | assembling streamed tool calls and matching them against expected ones |
| `AliasSweep`, `FileSweep` | the alias rewriting scanner, and the sweep over files |
| `Wrappers` | what several files share |

A language model is an arbitrary function from contexts to tokens, and a forward pass returns its value after every
input position. Drafters and draft heads are arbitrary functions too, so nothing is assumed about their proposals.
Kernel arithmetic is over the reals with an arbitrary positive exponential. A file store, an object store and a source
tree are maps. Faults of a mirror run are an arbitrary function of the file's position.

## Where the code and its description differ

The models follow the code. For each difference one lemma states exactly when the described property holds, and
another gives an input on which it does not.

- `scripts/bench_suffix_decoding.py` promises equal outputs, and ignores whether its cache could be rolled back. The
  outputs are equal for every model, drafter, prompt, stop set and budget if and only if it always can
  (`SuffixDecoding.LosslessIffRollsBack`, `SuffixDecoding.RejectedStays`).
- Even then the stop flag is not part of that: a stop token that the drafter proposed for the very last position of the
  budget is reported by the speculative decoder only. The flags agree for every drafter if and only if no stop token
  lands exactly on the budget (`SuffixDecoding.StopFlagsAgree`, `SuffixDecoding.StopFlagsCanDiffer`; for one given
  drafter `SuffixDecoding.CompareRuns`).
- `bench/bench_mtp_accept_k3.py:8` says that acceptance rates at depth one are accurate. With a layer that can never be
  trimmed, no layer is stale if and only if no draft was rejected, at depth one too
  (`MtpRounds.RecurrentLayerStale`), and then the rate can differ (`MtpRounds.DepthOneRatesDiffer`).
- `bench/bench_mtp_k3.py:127-130` says that every verification round attempts every position. A round that rejects its
  first draft leaves the same stream as a round without a draft, and is not counted
  (`ParseRounds.AttemptsAsDocumented`, `ParseRounds.RejectionsLeaveNoTrace`).
- `scripts/tmax_merge_vision.py:37-38` says that by default existing vision keys win. When a key is missing, every key
  that the base has is written to the dedicated shard and linked there, so the index leads to the base's copy of
  tensors that were already there, in whatever shard. All of them survive if and only if nothing is written or the base
  agrees with them (`VisionProperties.ExistingTensorsWin`; within the dedicated shard `VisionProperties.OwnTensorsWin`).
  `VisionProperties.DefaultMergeReplaces` and `VisionProperties.DefaultMergeRelinks` are inputs for the two places.
- A forced merge can leave index entries whose tensor is gone (`VisionProperties.MergeCoherence`,
  `VisionProperties.ForcedMergeDangles`).
- A merge fails after it has written the shard when another index entry names a missing file. The next run reports
  success and leaves the index as it is (`VisionProperties.FailedMergeIsNotRepaired`,
  `VisionProperties.MergeFailsForGood`).
- Strip after merge restores the configuration exactly when the snapshot had declared an architecture, and keeps all
  text tensors exactly when the merge did not write or the dedicated shard had none
  (`VisionProperties.StripUndoesMerge`, `VisionProperties.MergeAndStripLose`).
- A completed mirror run stores every file correctly exactly when no stored object passes the skip test without being
  the file with its checksum record (`MirrorProperties.CompletedRunCorrects`), and with the right bytes exactly when no
  other bytes pass that test (`MirrorProperties.CompletedRunStoresContent`, `MirrorProperties.LookalikeStays`). Files of unknown size are
  uploaded by every run (`MirrorProperties.SecondRunUploads`).
- In the fuzzy argument score a missing argument reads as the empty text, which earns full credit for an expected text.
  Missing arguments earn nothing if and only if no expected text is among them or there are no arguments at all
  (`FuzzyArgs.MissingArgumentsEarnNothing`, `FuzzyArgs.NothingRightScoresFull`).
- The rewriting of aliases is idempotent exactly when every target is left alone by it
  (`AliasSweep.RewriteIdempotent`, `AliasSweep.ChainedNames`).
- `scripts/sweep_alias_refs.py:117-118` sorts longer alternatives first so that a name is not taken for its beginning.
  The order is irrelevant if and only if no key is a proper beginning of another that goes on with something else than
  a name character (`AliasSweep.OrderIrrelevantIff`, `AliasSweep.OrderMatters`), so it is irrelevant for names
  (`AliasSweep.NamesNeverConflict`).

## Model

| member | source | states |
|---|---|---|
| SuffixDecoding.KvCache.Extend | scripts/bench_suffix_decoding.py:295-296 | a forward appends its inputs to the cache and keeps what was there, also when the buffer has to grow over stale positions |
| SuffixDecoding.KvCache.Trim | scripts/bench_suffix_decoding.py:344-346 | trimming removes exactly the last positions, or nothing when the cache cannot be rolled back in its present state |
| SuffixDecoding.KvCache.Forward | scripts/bench_suffix_decoding.py:295-303 | a causal pass: prediction i is the model's choice after the cache and the inputs up to i; the cache counts its passes |
| GreedyModel.DecodeCharacterised | scripts/bench_suffix_decoding.py:207-223 | the vanilla output is the one sequence in which every token is the model's choice, only the last can be a stop token, and that is not shorter than the budget unless it ends in a stop token; both directions |
| GreedyModel.SmallerBudgetIsPrefix | scripts/bench_suffix_decoding.py:216-223 | a smaller token budget cuts the output short and changes no token |
| GreedyModel.FinalStep | scripts/bench_suffix_decoding.py:307-318 | emitting the token the model would choose, wherever it came from, leaves the output the run ends with unchanged |
| GreedyModel.GreedyRun | bench/bench_mtp_accept_k3.py:104-144 | tokens that each agree with the model after the ones before them are its greedy continuation |
| SuffixDecoding.RunVanilla | scripts/bench_suffix_decoding.py:196-236 | one token per forward produces the specified output, with as many forward passes as tokens; its stop flag is set exactly for a stop token that comes first or before the budget is spent |
| SuffixDecoding.AcceptDraft | scripts/bench_suffix_decoding.py:305-323 | the accepted drafts are the longest prefix that agrees with the model on what the cache holds, cut after a stop token or at the budget; the drafter has seen exactly the prompt and the output |
| SuffixDecoding.AcceptedExactly | scripts/bench_suffix_decoding.py:305-321 | the number of kept drafts is the one for which they agree with the model, none before the last is a stop token, they fit, and the next one disagrees unless a stop token or the budget ended them; both directions |
| SuffixDecoding.VerifyRound | scripts/bench_suffix_decoding.py:291-346 | what a verification round emits and what it leaves in the cache, whether or not that can be rolled back |
| SuffixDecoding.CacheRestored | scripts/bench_suffix_decoding.py:336-346 | with a roll-back the cache is again prompt and output without the last token: rejected drafts are gone and no accepted position is lost |
| SuffixDecoding.PlainRound | scripts/bench_suffix_decoding.py:282-289 | a round without a draft is one vanilla step |
| SuffixDecoding.Round | scripts/bench_suffix_decoding.py:276-346 | every iteration with a forward emits at least one token within the budget, keeps the run's ending, and restores the loop's view of the history and, with a roll-back, of the cache |
| SuffixDecoding.RunSuffix | scripts/bench_suffix_decoding.py:239-360 | for every model, drafter, cache, prompt, stop set and budget the specified ending; the vanilla output if the cache can be rolled back; at most as many forward passes as tokens; the exact condition for its stop flag |
| SuffixDecoding.AcceptedIsGreedy | scripts/bench_suffix_decoding.py:305-321 | the drafts a round accepts are what the model would have emitted, so the output the run ends with is unchanged |
| SuffixDecoding.SpeculateIsFinal | scripts/bench_suffix_decoding.py:276-346 | from any point of the loop, a run on a cache that can be rolled back ends with the vanilla output |
| SuffixDecoding.LosslessIffRollsBack | scripts/bench_suffix_decoding.py:344-346 | speculation changes no token for every model, drafter, prompt, stop set and budget if and only if the cache can always be rolled back |
| SuffixDecoding.RejectedStays | scripts/bench_suffix_decoding.py:344-346 | for any cache contents that cannot be rolled back, a run whose output differs from the vanilla one |
| SuffixDecoding.CompareRuns | scripts/bench_suffix_decoding.py:396-420 | the reported differences are the number of disagreeing positions within the common length; with a roll-back the outputs are equal, speculation never makes more forward passes, and the two stop flags agree exactly when no drafted stop token lands on the budget |
| SuffixDecoding.StopFlagsAgree | scripts/bench_suffix_decoding.py:312-327 | the two stop flags agree for every drafter if and only if the vanilla output does not put a stop token exactly on the budget |
| SuffixDecoding.OwnContinuationAccepted | scripts/bench_suffix_decoding.py:305-321 | a draft that is the model's own continuation is accepted as a whole |
| SuffixDecoding.ShortOutputStoppedOnEos | scripts/bench_suffix_decoding.py:207-223 | the output has at most the budget's tokens (or one), each is the model's choice after the ones before it, one shorter than the budget ends in a stop token that both paths report, and a stop token occurs only at the end |
| SuffixDecoding.StopFlagsCanDiffer | scripts/bench_suffix_decoding.py:312-327 | the two stop flags really differ for some model and drafter |
| MtpRounds.CacheList.Trim | bench/bench_mtp_accept_k3.py:124-132 | every layer that can be trimmed in its present state forgets its last tokens, every other layer is as before |
| MtpRounds.CacheList.Forward | bench/bench_mtp_accept_k3.py:66-67 | all layers consume the inputs, and a prediction depends on every layer's state |
| MtpRounds.Prefill | bench/bench_mtp_accept_k3.py:39-55 | for every prompt length and chunk size of at least two the backbone consumes all but the last prompt token, and the drafter caches consume these without the first of every chunk |
| MtpRounds.ChunkTailsAt | bench/bench_mtp_accept_k3.py:53-54 | where each of these tokens stands in the drafter caches |
| MtpRounds.ChunkTailsLength | bench/bench_mtp_accept_k3.py:53-54 | one token is missing per chunk |
| MtpRounds.ChunksClosedForm | bench/bench_mtp_accept_k3.py:40-50 | the number of chunks fed is the length without the last token, divided by the chunk size and rounded up |
| MtpRounds.DraftTokens | bench/bench_mtp_accept_k3.py:72-88 | the drafter caches grow by the main token and all drafts but the last |
| MtpRounds.ShownAre | bench/bench_mtp_accept_k3.py:72-88 | the drafts are the head's tokens of this round, and what it is shown for them is the main token and the drafts but the last |
| MtpRounds.CheckDrafts | bench/bench_mtp_accept_k3.py:104-119 | the accepted count is the length of the agreeing prefix, and the lazily created counters stay exact |
| MtpRounds.Round | bench/bench_mtp_accept_k3.py:64-144 | a round's main token, accepted drafts and next token are the model's choices; layers that can be trimmed then keep two tokens more than were accepted, others everything |
| MtpRounds.RoundContinues | bench/bench_mtp_accept_k3.py:64-144 | on layers that agree, a round is the greedy continuation by the accepted count and two |
| MtpRounds.GreedyStateStep | bench/bench_mtp_accept_k3.py:121-144 | a round that leaves no rejected token in any layer keeps all layers and the pending token on the greedy continuation of the prompt |
| MtpRounds.StaleIsNotGreedy | bench/bench_mtp_accept_k3.py:124-132 | a layer that still contains a rejected token is off the greedy continuation |
| MtpRounds.MeasureAcceptAtK | bench/bench_mtp_accept_k3.py:32-146 | a trace of all rounds from the prefilled caches to the final ones, each with the head's drafts of that very round, the backbone's verdict on them and the growth of both kinds of cache; the totals and counters are those of the trace; the layers and the pending token are the greedy continuation if and only if no layer contains a rejected token, with every layer's exact length |
| MtpRounds.RecurrentLayerStale | bench/bench_mtp_accept_k3.py:4-10 | with a layer that can never be trimmed, no layer is stale if and only if no draft was rejected, at any depth |
| MtpRounds.DepthOneRatesDiffer | bench/bench_mtp_accept_k3.py:8 | an input on which such a layer changes the acceptance at depth one |
| MtpRounds.CountersTelescope | bench/bench_mtp_accept_k3.py:105-122 | position one is looked at once a round, a later position once per acceptance of the one before, and the acceptances add up to the total |
| ParseRounds.CountRun | bench/bench_mtp_k3.py:134-140 | a finished run is added to the statistics, an empty one not at all |
| ParseRounds.Parse | bench/bench_mtp_k3.py:117-151 | the statistics are those of the runs of the stream, including an unfinished last one |
| ParseRounds.RunsOfStream | bench/bench_mtp_k3.py:120-125 | parsing inverts emission: the yield stream of any rounds, cut off anywhere, gives back their accepted counts |
| ParseRounds.ParsedStatistics | bench/bench_mtp_k3.py:127-151 | neighbouring accepted counts differ by the number of rounds with exactly that many accepts, attempts equal the non-empty runs, and the accepted counts add up to the capped run lengths |
| ParseRounds.MissedAttempts | bench/bench_mtp_k3.py:134-136 | the uncounted verification rounds are exactly those that rejected their first draft |
| ParseRounds.VerificationsAre | bench/bench_mtp_k3.py:127-130 | the documented number of attempts is the number of verification rounds |
| ParseRounds.AttemptsAsDocumented | bench/bench_mtp_k3.py:123-130 | on any stream, cut off anywhere, the documented number of attempts comes out if and only if no verification round rejected its first draft |
| ParseRounds.RejectionsLeaveNoTrace | bench/bench_mtp_k3.py:120-123 | different rounds yield the same stream, so the missing attempts cannot be recovered |
| RunCounts.DoubleCounting | bench/bench_mtp_k3.py:137-140 | counting accepted drafts by position and by run gives the same sum |
| ParseRounds.MatchesWithinOverlap | bench/bench_mtp_k3.py:228-232 | the matching positions never exceed the multiset overlap |
| ParseRounds.AllMatch | bench/bench_mtp_k3.py:228-230 | all positions match if and only if the streams are equal |
| ParseRounds.MatchesAre | bench/bench_mtp_k3.py:228-230 | the matches are the number of positions with equal tokens |
| ParseRounds.OverlapIsAttained | bench/bench_mtp_k3.py:231-232 | the overlap is the largest number of positions that can match after rearranging one stream |
| ParseRounds.OverlapIsPermutation | bench/bench_mtp_k3.py:231-232 | the overlap is complete if and only if the streams are permutations of each other |
| Snapshot.TotalSize | scripts/tmax_merge_vision.py:151-160 | the size of all distinct referenced shards, failing exactly when one does not exist |
| Snapshot.SizeSumRemove | scripts/tmax_strip_vision.py:125-131 | the order in which shards are added up does not matter |
| Snapshot.VisionPrefixIs | scripts/tmax_merge_vision.py:74-75 | a key has a vision prefix if and only if it is one of the prefixes with something behind it |
| VisionStrip.DropKeys | scripts/tmax_strip_vision.py:58-61 | exactly the listed entries go, and a change is reported exactly when there were any |
| VisionStrip.StripConfig | scripts/tmax_strip_vision.py:55-78 | the rewritten config, and a change is reported exactly when it differs |
| VisionStrip.StripShard | scripts/tmax_strip_vision.py:85-114 | exactly the tensors without a vision prefix stay, with exact counts |
| VisionStrip.StripShards | scripts/tmax_strip_vision.py:149-157 | every shard is stripped in place, none appears or disappears |
| VisionStrip.PruneIndex | scripts/tmax_strip_vision.py:117-136 | vision entries go and the size is recomputed, or nothing is written when none go or a file is missing |
| VisionStrip.Strip | scripts/tmax_strip_vision.py:139-165 | the whole directory after the tool, and exactly when it fails |
| VisionStrip.StrippedConfigIs | scripts/tmax_strip_vision.py:55-78 | strip drops exactly the five vision entries and the flag, keeps all others, and replaces the multimodal architecture by the text one position by position |
| VisionStrip.NoVisionArchitecture | scripts/tmax_strip_vision.py:62-71 | the multimodal architecture does not occur afterwards |
| VisionStrip.StrippedShardsAre | scripts/tmax_strip_vision.py:85-114 | every shard keeps exactly its tensors without a vision prefix, unchanged |
| VisionStrip.StripFailsExactly | scripts/tmax_strip_vision.py:117-136 | strip fails if and only if it drops an entry and keeps one that names a missing file |
| VisionStrip.StrippedIndexIs | scripts/tmax_strip_vision.py:117-136 | otherwise the index keeps exactly its entries without a vision prefix, with the size of their shards if any entry went |
| VisionStrip.StripIdempotent | scripts/tmax_strip_vision.py:139-165 | stripping twice is stripping once |
| VisionStrip.StripKeepsCoherence | scripts/tmax_strip_vision.py:117-136 | stripping never fails on a coherent index, and leaves every entry naming a shard that holds its key |
| VisionMerge.CollectVision | scripts/tmax_merge_vision.py:100-108 | all vision tensors of the base, later shards replacing earlier ones |
| VisionMerge.CollectedAre | scripts/tmax_merge_vision.py:100-108 | a key is offered if and only if it has a vision prefix and is in some shard of the base, with the tensor of the last one |
| VisionMerge.SnapshotVisionKeys | scripts/tmax_merge_vision.py:83-97 | the vision keys of the snapshot, with the name test that skips the tool's own shard |
| VisionMerge.ExistingAre | scripts/tmax_merge_vision.py:83-97 | a key exists if and only if it has a vision prefix and is in a shard that is the tool's own or does not contain that name in its own |
| VisionMerge.CopyEntries | scripts/tmax_merge_vision.py:117-120 | base entries that differ are copied, and a change is reported exactly when there were any |
| VisionMerge.RestoreConfig | scripts/tmax_merge_vision.py:111-137 | the topped-up config, and a change is reported exactly when it differs |
| VisionMerge.LinkKeys | scripts/tmax_merge_vision.py:146-150 | exactly the merged keys point at the dedicated shard, and a change is reported exactly when one pointed elsewhere |
| VisionMerge.UpdateIndex | scripts/tmax_merge_vision.py:140-165 | the linked index with its recomputed size; exactly when it fails and exactly when it reports a change |
| VisionMerge.Merge | scripts/tmax_merge_vision.py:168-234 | the whole directory and status after the tool, in both modes and on failure |
| VisionProperties.WroteExactly | scripts/tmax_merge_vision.py:189-194 | the tool writes if and only if the base has a vision tensor, and it is forced or one is missing |
| VisionProperties.StatusExactly | scripts/tmax_merge_vision.py:183-187 | what each status means |
| VisionProperties.RestoredEntriesAre | scripts/tmax_merge_vision.py:117-120 | the config has the base's value at each of the five vision keys that the base has, its own at all others, and no `language_model_only` |
| VisionProperties.RestoredArchitecturesAre | scripts/tmax_merge_vision.py:121-131 | the text architecture becomes the multimodal one position by position, and an empty list declares it |
| VisionProperties.MergedParts | scripts/tmax_merge_vision.py:183-231 | which of shards, config and index a merge changes |
| VisionProperties.MergedIndexIs | scripts/tmax_merge_vision.py:140-150 | after a write the written keys lead to the dedicated shard and all other entries are as before |
| VisionProperties.MergeCoherence | scripts/tmax_merge_vision.py:193-231 | the index stays coherent if and only if no write leaves an entry at a dedicated-shard key that is not rewritten |
| VisionProperties.ForcedMergeDangles | scripts/tmax_merge_vision.py:195-200 | an input on which a forced merge leaves an index entry without its tensor |
| VisionProperties.DefaultMergeKeepsCoherence | scripts/tmax_merge_vision.py:201-210 | by default, with a dedicated shard that holds only vision tensors, the index stays coherent |
| VisionProperties.MergedTotalSize | scripts/tmax_merge_vision.py:151-164 | unless the tool fails, the size recorded by a write is that of the distinct referenced shards |
| VisionProperties.DedicatedShardAfterMerge | scripts/tmax_merge_vision.py:193-213 | whose copy of which tensor the dedicated shard holds, and that no other shard is touched |
| VisionProperties.MergeKeepsTextTensors | scripts/tmax_merge_vision.py:193-213 | all text tensors stay in place if and only if the merge does not write or the dedicated shard has none |
| VisionProperties.OwnTensorsWin | scripts/tmax_merge_vision.py:37-38 | the vision tensors of the dedicated shard survive a default merge if and only if nothing is missing or the base agrees with them |
| VisionProperties.ExistingTensorsWin | scripts/tmax_merge_vision.py:37-38 | all vision tensors that the index leads to, in any shard, are what it leads to after a default merge if and only if that does not write or the base agrees with every one that is taken from it |
| VisionProperties.DefaultMergeRelinks | scripts/tmax_merge_vision.py:146-150 | an input on which a default merge replaces a tensor of an ordinary shard |
| VisionProperties.DefaultMergeReplaces | scripts/tmax_merge_vision.py:198-210 | an input on which a default merge replaces an existing tensor |
| VisionProperties.MergeIdempotent | scripts/tmax_merge_vision.py:168-234 | merging twice is merging once, in either mode and whatever happened the first time |
| VisionProperties.NothingMissingAfterWrite | scripts/tmax_merge_vision.py:189-193 | after a write the key scan finds every vision tensor of the base |
| VisionProperties.WriteFails | scripts/tmax_merge_vision.py:151-160 | a writing merge fails if and only if an index entry for another key names a file that is neither there nor the dedicated shard |
| VisionProperties.WriteIsLinked | scripts/tmax_merge_vision.py:193-231 | after a write the index lists every written tensor if and only if it did before, there is no index, or no other entry names a missing file |
| VisionProperties.FailedMergeIsNotRepaired | scripts/tmax_merge_vision.py:193-231 | the run after any write reports that all is merged and changes nothing; for the index that is true exactly under the condition of the row above |
| VisionProperties.MergeFailsForGood | scripts/tmax_merge_vision.py:193-231 | an input on which the failed merge is never repaired |
| VisionProperties.StripAfterRestore | scripts/tmax_merge_vision.py:111-137 | stripping undoes the config rewrite if and only if an architecture was declared |
| VisionProperties.StripAfterMergeShards | scripts/tmax_strip_vision.py:85-114 | stripping undoes the shard rewrite up to an empty dedicated shard |
| VisionProperties.StripAfterMergeIndex | scripts/tmax_strip_vision.py:117-136 | strip leaves the same weight map with and without the merge, unless strip alone fails over the dedicated shard that the merge supplies |
| VisionProperties.StripUndoesMerge | scripts/tmax_strip_vision.py:139-165 | strip after merge against strip alone, on every snapshot: shards up to an emptied dedicated shard, with exact conditions for the text tensors, the weight map and the config |
| VisionProperties.MergeAndStripLose | scripts/tmax_strip_vision.py:139-165 | an input whose config and text tensor are not restored |
| VisionProperties.MergeCanRepairStrip | scripts/tmax_strip_vision.py:125-136 | an input on which strip alone fails and strip after merge does not |
| QuantMatrix.LittleEndian | bench/bench_verify_qmv.py:35-37 | a word is the sum of its four bytes times powers of 256, the lowest address first |
| QuantMatrix.WordIsNibbles | bench/bench_verify_qmv.py:54-63 | a word is the sum of its eight stored values times powers of 16, the first column lowest |
| QuantMatrix.HalfNibbles | bench/bench_verify_qmv.py:35-37 | the masked shifts of a 16-bit half of the little-endian byte view are the stored values |
| QuantMatrix.LinearOfUnit | bench/bench_verify_qmv.py:46-67 | the reference applied to a unit input is scale times stored value plus bias, of the column's group |
| QuantMatrix.LinearIsLinear | bench/bench_verify_qmv.py:46-67 | the reference is linear, so its values on unit inputs determine it |
| QuantMatrix.GroupFactored | bench/bench_verify_qmv.py:46-67 | factoring scale and bias out of a group gives the dequantise-then-multiply value |
| QuantMatrix.FourColumns | bench/bench_verify_qmv.py:53-65 | one inner step adds exactly four columns of the factored sums |
| QuantKernels.ReadHalf | bench/bench_verify_qmv.py:35-54 | the byte-pointer read of a half in the flat buffer is the half of that row |
| QuantKernels.RowStands | bench/bench_verify_qmv.py:39-49 | where the words, scales and biases of a row stand in the flat buffers, a missing bias reading as zero |
| QuantKernels.AccumulateGroup | bench/bench_verify_qmv.py:50-65 | the inner loop computes the nibble dot product and the input sum of its group |
| QuantKernels.MatVec | bench/bench_verify_qmv.py:39-67 | the main loop computes the dequantise-then-multiply product |
| QuantKernels.MatVecThread | bench/bench_verify_qmv.py:29-69 | a thread writes its one cell, with the reference value, and no other |
| QuantKernels.CellsOneToOne | bench/bench_verify_qmv.py:30-33 | the threads of the grid and the output cells correspond one to one |
| QuantKernels.LaunchMatVec | bench/bench_verify_qmv.py:188-194 | after threads have run in any order, exactly their cells hold the reference values |
| QuantKernels.GridComputesAll | bench/bench_verify_qmv.py:188-194 | once every thread has run, every output is the reference value |
| QuantKernels.AccumulateBoth | bench/bench_fused_mlp.py:65-84 | one pass over the inputs gives both matrices' group sums |
| QuantKernels.FusedMatVec | bench/bench_fused_mlp.py:48-87 | the fused loop computes both projections |
| QuantKernels.FusedThread | bench/bench_fused_mlp.py:35-94 | a thread writes the activated gate times the up projection into its own cell only |
| QuantKernels.LaunchFused | bench/bench_fused_mlp.py:34-105 | the first launch, in any thread order |
| QuantKernels.FusedMlp | bench/bench_fused_mlp.py:112-152 | the two-kernel pipeline equals down(silu(gate(x)) * up(x)) in every cell, whatever the thread orders |
| QuantKernels.StockMlpIs | bench/bench_fused_mlp.py:199-203 | the stock layer spelled out: the down projection of gate times sigmoid of gate times up |
| QuantKernels.HiddenVector | bench/bench_fused_mlp.py:199-203 | the first launch leaves exactly the stock layer's hidden vectors |
| PublicUrl.UnquoteQuote | scripts/mirror_to_r2.py:339-341 | percent-decoding inverts percent-encoding on all byte strings |
| PublicUrl.QuoteBytes | scripts/mirror_to_r2.py:339-341 | bytes are encoded one by one: unreserved ones stay, others become a percent sign and two digits |
| PublicUrl.Characters | scripts/mirror_to_r2.py:339-341 | the unreserved characters and the upper-case digits |
| PublicUrl.BaseStem | scripts/mirror_to_r2.py:342 | exactly the trailing slashes of the base go |
| PublicUrl.JoinSplit | scripts/mirror_to_r2.py:339-341 | joining the pieces of a key with slashes gives back the key, and no piece has a slash |
| PublicUrl.SplitJoin | scripts/mirror_to_r2.py:339-341 | splitting joined slash-free pieces gives back the pieces |
| PublicUrl.UrlRoundTrip | scripts/mirror_to_r2.py:328-342 | for every base, the URL is the base without its trailing slashes, one slash and a path; splitting that path and decoding each piece gives exactly the key's non-empty segments |
| PublicUrl.EveryBase | scripts/mirror_to_r2.py:342 | every base is of the form that law speaks of |
| PublicUrl.PathIs | scripts/mirror_to_r2.py:339-341 | the path is the encoded non-empty segments joined by slashes |
| PublicUrl.NonEmptySnoc | scripts/mirror_to_r2.py:340 | the non-empty pieces are kept one by one |
| PublicUrl.SameUrl | scripts/mirror_to_r2.py:328-342 | two keys share a URL if and only if they have the same non-empty segments |
| PublicUrl.UrlInjective | scripts/mirror_to_r2.py:328-342 | on keys without empty segments the URL determines the key |
| PublicUrl.PathIsPlain | scripts/mirror_to_r2.py:331-337 | the path holds nothing but unreserved characters, percent signs and slashes |
| Mirror.Transfer | scripts/mirror_to_r2.py:479-501 | one download, upload and clean-up: what each fault leaves in store and scratch |
| Mirror.UploadAll | scripts/mirror_to_r2.py:441-524 | the loop's effect on the store, its counts, an emptied scratch directory, and at most one local file at a time |
| Mirror.VerifyAll | scripts/mirror_to_r2.py:530-563 | an error of the store ends the pass with an exception; otherwise the failed keys are exactly those of files that are missing, of the wrong size or not readable |
| MirrorProperties.RefusedExactly | scripts/mirror_to_r2.py:532-560 | a file is refused if and only if it is missing, has another size than the known one, or the probe of its URL is not answered by 200 |
| Mirror.MirrorRepo | scripts/mirror_to_r2.py:390-583 | the store after a run and the exact meaning of its exit code |
| MirrorProperties.PassOnFile | scripts/mirror_to_r2.py:441-519 | at any point of a run, aborted or not, a file is untouched or was uploaded exactly once, and only if it was not skippable |
| MirrorProperties.SkipsExactly | scripts/mirror_to_r2.py:212-261 | a file is skipped if and only if its size is known, the object has that size, and it is recorded with the checksum if that is known |
| MirrorProperties.AbortedExactly | scripts/mirror_to_r2.py:441-519 | a run is aborted if and only if a look-up fails, or a transfer of a file that is not skipped |
| MirrorProperties.LandsExactly | scripts/mirror_to_r2.py:441-519 | which uploads of a run land, for every fault at every step |
| MirrorProperties.CorrectFilesOnlyGrow | scripts/mirror_to_r2.py:441-519 | a correctly stored file stays so through any sequence of runs, however they abort |
| MirrorProperties.KnownSizeUploadedAtMostOnce | scripts/mirror_to_r2.py:212-261 | over any sequence of runs a file of known size is uploaded at most once |
| MirrorProperties.NothingLeftToUpload | scripts/mirror_to_r2.py:441-475 | after a completed run later runs upload no file of known size |
| MirrorProperties.SecondRunUploads | scripts/mirror_to_r2.py:235-240 | a second completed run uploads a file if and only if its size is unknown |
| MirrorProperties.CompletedRunCorrects | scripts/mirror_to_r2.py:221-229 | a completed run leaves a file correctly stored if and only if the store held no lookalike of it |
| MirrorProperties.CompletedRunStoresContent | scripts/mirror_to_r2.py:221-229 | a completed run leaves a file with the right bytes if and only if the store held no other bytes that pass the skip test |
| MirrorProperties.LookalikeStays | scripts/mirror_to_r2.py:244-261 | an input on which a completed run leaves a same-size object with other content |
| MirrorProperties.ShardsHaveNoLookalikes | scripts/mirror_to_r2.py:256-260 | with honest checksums the skip test is never fooled on a weight shard |
| MirrorProperties.CompletedRunVerifies | scripts/mirror_to_r2.py:530-563 | a completed run on a readable bucket passes its own verification |
| MirrorProperties.DryRunChangesNothing | scripts/mirror_to_r2.py:464-471 | a dry run changes nothing, whatever faults occur |
| ToolCalls.MergeDeltas | evals/run_eval.py:383-399 | the map under construction describes exactly each index's own deltas |
| ToolCalls.Assemble | evals/run_eval.py:352-402 | one call per distinct index, in index order, each described by its own deltas |
| ToolCalls.DescribedSnoc | evals/run_eval.py:385-399 | what one more delta does to the call that its index describes |
| ToolCalls.NameIs | evals/run_eval.py:396-397 | the assembled name is the last one of the index's own deltas that is not empty |
| ToolCalls.IdIs | evals/run_eval.py:386-394 | the assembled id is the last usable one; without any, what the first delta gives, or the default |
| ToolCalls.ArgumentsAre | evals/run_eval.py:398-399 | the assembled argument text is all of them in order |
| ToolCalls.OnlyOwnDeltasMatter | evals/run_eval.py:383-402 | streams whose deltas describe the same call for every index assemble to the same calls |
| ToolCalls.RechunkedOwn | evals/run_eval.py:398-399 | cutting the argument text of a delta in two changes nothing that its index describes |
| ToolCalls.DeliveryIsInvisible | evals/run_eval.py:352-402 | any series of cuts, joins and swaps across indices leaves the assembled calls as they are: neither the chunking of argument text nor the interleaving matters |
| FuzzyArgs.FuzzyMatchArgs | evals/run_eval.py:490-513 | the score is the average credit, lies between zero and one, and does not depend on the order of the arguments |
| FuzzyArgs.CreditIs | evals/run_eval.py:497-511 | full credit if one lower-cased text is part of the other or equal non-texts meet, otherwise the share of expected words that are shared |
| FuzzyArgs.PresentCredit | evals/run_eval.py:496-497 | an argument that is there is credited against its own value |
| FuzzyArgs.ContainsAllIs | evals/run_eval.py:592-598 | containment looks for the expected texts in the actual ones |
| FuzzyArgs.TotalRemove | evals/run_eval.py:496-512 | credits add up to the same total in any order |
| FuzzyArgs.MissingCredit | evals/run_eval.py:497-511 | a missing argument earns full credit if a text was expected and none otherwise |
| FuzzyArgs.ScoreWithMissing | evals/run_eval.py:490-513 | the score is the credit of the arguments that are there plus one per missing text, on average |
| FuzzyArgs.MissingArgumentsEarnNothing | evals/run_eval.py:490-513 | missing arguments earn nothing if and only if there are no arguments at all or no expected text is missing |
| FuzzyArgs.MissingTextScoresFull | evals/run_eval.py:497-503 | any non-empty arguments that miss all expected texts score one |
| FuzzyArgs.NothingRightScoresFull | evals/run_eval.py:497-503 | an input with nothing right that scores one |
| ParallelCalls.FindBest | evals/run_eval.py:584-607 | the best unused call of the right name, or an exception exactly when a candidate cannot be scored |
| ParallelCalls.ChosenExactly | evals/run_eval.py:587-605 | which call that is: it scores at least one half, more than every candidate before it and no less than every one behind |
| ParallelCalls.ScoreIs | evals/run_eval.py:589-601 | what each mode scores, for arguments that are an object and for others, and when it raises an exception |
| ParallelCalls.CheckParallelCalls | evals/run_eval.py:555-623 | the grade is that of the greedy matching, with the exact meaning of each flag; an exception exactly when some expected call has a candidate whose arguments are no object and must be looked into |
| ParallelCalls.GreedyIsValid | evals/run_eval.py:577-607 | the pairs are injective, agree in name and score at least one half, and their number is the reported one |
| ParallelCalls.GreedyIsMaximal | evals/run_eval.py:577-607 | of any admissible pair at least one side is matched |
| ParallelCalls.GreedyIsHalfOptimal | evals/run_eval.py:577-607 | no valid matching has more than twice as many pairs |
| ParallelCalls.GreedyUnique | evals/run_eval.py:577-607 | the choices are determined by the inputs |
| ParallelCalls.GreedyCanMissHalf | evals/run_eval.py:577-607 | an instance in which the greedy matching is half of the best one, so the factor cannot be improved |
| AliasSweep.FirstMatch | scripts/sweep_alias_refs.py:124-127 | the first alternative in order that matches, or none does |
| AliasSweep.PreparedAre | scripts/sweep_alias_refs.py:159-174 | exactly the entries with a non-empty target stay, with that target, but not the hand-handled name |
| AliasSweep.NameCharacters | scripts/sweep_alias_refs.py:121-127 | the name alphabet |
| AliasSweep.MatchIsRun | scripts/sweep_alias_refs.py:121-127 | at the start of a run the only name that can match is the whole run |
| AliasSweep.Substitute | scripts/sweep_alias_refs.py:190-197 | the scan over any keys, empty ones and an empty rename map included |
| AliasSweep.NamesScanned | scripts/sweep_alias_refs.py:121-127 | from any position on, the scan maps the whole runs of name characters, whatever the order of the alternatives |
| AliasSweep.RewriteIsMapped | scripts/sweep_alias_refs.py:114-127 | with names as keys the substitution replaces exactly the whole runs that are names, and counts them; an empty rename map raises an exception on exactly the texts with a position that has no name character on either side |
| AliasSweep.OrderIrrelevantIff | scripts/sweep_alias_refs.py:117-120 | for any set of keys, the order of the alternatives is irrelevant for all texts and targets if and only if no key is a proper beginning of another that goes on with something else than a name character |
| AliasSweep.NamesNeverConflict | scripts/sweep_alias_refs.py:121-127 | names meet that condition |
| AliasSweep.OrderMatters | scripts/sweep_alias_refs.py:117-120 | a set of keys for which the order matters |
| AliasSweep.MappedConcat | scripts/sweep_alias_refs.py:121-127 | the rewrite works piece by piece wherever no run is cut |
| AliasSweep.SettledName | scripts/sweep_alias_refs.py:159-161 | a target that is a name is left alone if and only if it is no source or maps to itself |
| AliasSweep.RewriteIdempotent | scripts/sweep_alias_refs.py:197-202 | the rewrite is idempotent on all texts if and only if it leaves every target alone |
| AliasSweep.ChainedNames | scripts/sweep_alias_refs.py:197-202 | a chain of names on which the rewrite is not idempotent |
| AliasSweep.HandHandledStay | scripts/sweep_alias_refs.py:162-174 | a hand-handled name stays as it is wherever it stands as a whole run, and the text around it is rewritten as if alone |
| FileSweep.Sweep | scripts/sweep_alias_refs.py:176-202 | for any keys, every file before the first exception is rewritten unless in a dry run, and the reported files and counts are those of the changed texts |
| FileSweep.SweepOfNames | scripts/sweep_alias_refs.py:176-202 | with names as keys every listed file ends up mapped and reported; an exception exactly for an empty rename map and a file with a position that has no name character on either side |
| FileSweep.ReportIsComplete | scripts/sweep_alias_refs.py:198-200 | the report names a file with a count if and only if its text changes and that many names were replaced in it |
| FileSweep.SweepTwice | scripts/sweep_alias_refs.py:181-202 | a second sweep changes no file, and reports none, if and only if the first has settled them |
| FileSweep.SettledTargets | scripts/sweep_alias_refs.py:181-202 | it has, with names as keys and every target left alone |

## Left out

- The production engine: the drafter, the MTP generator and the checkpoint store are not part of this model; drafters
  and models are arbitrary functions.
- Floating-point rounding, bf16 conversion and `mx.quantize`; kernel values are reals.
- 32-bit wrap-around of the kernels' `uint` index arithmetic; indices are unbounded.
- The fallback bias array of `bench/bench_verify_qmv.py:173-177`, which is shorter than what the kernel reads; a bias
  array has one entry per group, or is absent.
- MtpRounds.CacheList.Forward: a cache is modelled by the tokens it has consumed, not by tensors, and the
  `n_confirmed` argument of the verification pass is not modelled.
- SuffixDecoding.KvCache.Trim: whether a cache can be rolled back is an arbitrary function of its contents, asked for
  all layers together.
- MtpRounds.CacheList.Trim: whether a layer can be trimmed is an arbitrary function of the layer and its state.
- MtpRounds.CacheList: the layer caches of a model are entries of one list object, so two entries are never the same
  object.
- MtpRounds.DraftTokens: the draft head's token is an arbitrary function of the round and the depth, and its hidden
  states are not modelled.
- GreedyModel: text encoding and decoding, and timing, are left out; prompts are non-empty token sequences.
- VisionMerge.Merge: the base directory and the snapshot directory are different; a null `architectures` entry equals
  an absent one, and an index without a weight map equals one with an empty weight map. The temporary file and the
  details of the report are left out.
- VisionStrip.StripShard: `scripts/tmax_strip_vision.py:99` iterates over an opened shard, which
  `scripts/tmax_merge_vision.py:105` says cannot be iterated over; the model takes it to yield the shard's keys.
- Snapshot.TotalSize: a shard's size is an arbitrary function of its contents.
- Mirror.MirrorRepo: a killed process leaves in the store what an abort at the same step leaves; that it returns no
  exit code and does not empty the scratch directory is not modelled.
- Mirror.UploadAll: the byte count, content types and messages are left out, and so is a local file whose deletion
  fails.
- Mirror.VerifyAll: which requests of the pass fail, and the HTTP status of a probe, are parameters.
- FuzzyArgs.Credit: lower-casing, the word split and `str` are arbitrary functions, and values other than text are
  compared as opaque values.
- ParallelCalls.CheckParallelCalls: the rounding to two digits, which acts on the binary floating-point quotient, is an
  arbitrary function.
- ToolCalls.Assemble: HTTP, JSON lines, text content and the time to the first token of the streaming client are left
  out.
- FileSweep.Sweep: which paths are skipped or unreadable is decided before the list of files is given.
- The simple classifiers, gates, score cards, answer extraction, report rendering, argument parsing and server handling
  of the other scripts.
