# Iterative refinement of a knowledge state, modelled in Dafny

The system refines a *knowledge state*. The state holds:
- claims, each with an id, a text, an evidence list, a section and a confidence;
- relationship lists keyed by claim id;
- a metadata dictionary that doubles as an audit log.

Refinement is a fixed-point loop. `IterativeRefinementEngine.refine` applies an ordered list of *improvement operators* pass after pass, for at most `max_iterations` passes. It stops at the first pass in which no operator's modification was accepted by `verify_invariants`: a modification the check rejects does not count. Every candidate state goes through the operator contract `verify_invariants` first. That check rejects a candidate that has fewer claims when its metadata has no `'merges'` key. A rejected candidate is discarded. An accepted one is adopted even when it reports no change. `analyze_stability` summarises the metrics record that `refine` returns.

The three rule-based operators are modelled:
- `NormalizeEvidence` replaces each evidence list by `sorted(set(evidence))`.
- `MergeDuplicateClaims` compares claims pairwise in dictionary order. It uses the overlap-over-smaller-set similarity, and the kept claim's evidence is the evidence that earlier merges in the same pass have already grown. A merge:
  - unions the evidence and takes the larger confidence;
  - logs a `{kept, removed, similarity}` record under `'merges'`;
  - deletes the absorbed claim and its relationship entry.
- `RemoveWeakClaims` keeps the claims at or above a confidence threshold. It logs the removed ids under `'weak_removals'` and deletes their relationship entries.

`RemoveWeakClaims` never writes `'merges'`. So when it removes something, the engine keeps the result only if the metadata already has a `'merges'` key, whether an earlier merge created it or the initial state carried it (`RuleBased.RemoveWeakGate`). The model reproduces this as it is.

## Modules

- `common.dfy` (`Common`): optional values, the element set of a sequence and an order-preserving filter.
- `lex_order.dfy` (`LexOrder`): Python's ordering on `str`, which is lexicographic by code point with a proper prefix sorting first. It also has `sorted(set(xs))` and its uniqueness.
- `knowledge_state.dfy` (`Knowledge`): `Claim`, `KnowledgeState`, `Claim.__hash__` and `to_dict`.
  - Claims are an ordered sequence of records with distinct ids. This is the dictionary's insertion order, which drives the merge pass.
  - The metadata holds the two audit lists as optional values. An absent value means the key is missing.
  - `to_dict` produces a small JSON-like `Value` type, and reading values back shows that nothing is lost.
- `base.dfy` (`OperatorBase`): `verify_invariants`.
- `rule_based.dfy` (`RuleBased`): the three operators and what they do to claims, relationships and metadata.
- `engine.dfy` (`Engine`): the operator dispatch, one operator step, one pass, the operator counters, `refine` and `analyze_stability`.
  - The loop is written over an arbitrary pass function.
  - `Engine.StateAfter` is an independent reference definition: "the state after `k` passes".
  - The recorded run is proved equal to that reference, iteration by iteration.
- `demo.dfy` (`Demo`): the demo driver's sample run, worked out pass by pass.
  - The run is stated for any five claims with the sample's ids, confidences and evidence pattern, and then instantiated with the sample itself.
  - `Demo.DemoRun` states the result: convergence at iteration 1, three operator applications, claims `c1`, `c3` and `c5` left, and the stability summary.

The repository holds two line-shifted copies of the operators: `operators.py:35-163` and `src/operators/rule_based.py:8-136`. It also holds two identical copies of the data model: `knowledge_state.py` and `src/knowledge_state.py`. The model follows the one shared semantics and cites the `src/` copies.

Python floats are modelled as `real`. The `'merges'` list's presence in the metadata is what the invariant check reads.

## Model

| member | source | states |
|---|---|---|
| LexOrder.SortDedup | src/operators/rule_based.py:24-25 | `sorted(set(xs))` is strictly increasing in Python's string order and holds exactly the elements of `xs` |
| LexOrder.StrictlyIncreasingUnique | src/operators/rule_based.py:24-25 | two strictly increasing lists with the same elements are equal, so the sorted duplicate-free form of a list is unique |
| LexOrder.SortDedupFixedPoint | src/operators/rule_based.py:27 | `sorted(set(xs)) == xs` holds exactly when `xs` is already sorted and duplicate-free |
| Knowledge.SameIdSameHash | src/knowledge_state.py:16-17 | two claims with the same id hash equally, whatever their other fields |
| Knowledge.ToDict | src/knowledge_state.py:27-32 | `to_dict()` has exactly the keys `claims`, `relationships`, `metadata`; the `claims` entry is keyed by exactly the state's claim ids |
| Knowledge.ToDictClaims | src/knowledge_state.py:29 | with distinct ids, each claim's entry in `to_dict()['claims']` is its five-field map, and that map reads back as the same claim |
| Knowledge.ClaimRoundTrip | src/knowledge_state.py:29 | `asdict(claim)` loses nothing: the claim can be rebuilt from the field map |
| Knowledge.ToDictPassThrough | src/knowledge_state.py:30-31 | relationships and metadata pass through `to_dict()` unchanged; `'merges'` / `'weak_removals'` are keys exactly when the audit lists are present |
| Knowledge.FilterOutCount | src/operators/rule_based.py:93-94 | deleting the ids of a set from a duplicate-free claim list shortens it by the number of those ids it holds |
| Knowledge.DistinctIdsFilter | src/operators/rule_based.py:119-121 | keeping some claims of a duplicate-free list keeps the ids distinct |
| OperatorBase.VerifyInvariantsKeyPresence | src/operators/base.py:22-32 | the check fails exactly when the claim count drops and `'merges'` is not a key of the new metadata dictionary; a non-decreasing count always passes, and an empty `'merges'` list is enough |
| OperatorBase.VerifyInvariantsConsultsOnlyCounts | src/operators/base.py:29-30 | the verdict depends only on the two claim counts and on whether the new metadata has `'merges'`: which ids are present and the old metadata are irrelevant |
| RuleBased.NormalizeClaims | src/operators/rule_based.py:23-37 | the per-claim loop: same length; each claim keeps all fields but evidence; each evidence list is sorted, duplicate-free and has the same elements; the flag holds iff some list was not already in that form |
| RuleBased.Normalize | src/operators/rule_based.py:14-40 | `NormalizeEvidenceOperator.apply`: ids, order, text, section, confidence, relationships and metadata unchanged; evidence normalised over the same elements; `modified` iff some evidence list was not sorted and duplicate-free |
| RuleBased.NormalizeUnmodifiedIsIdentity | src/operators/rule_based.py:27-28 | when Normalize reports no modification, its result is the input state itself |
| RuleBased.NormalizeIdempotent | src/operators/rule_based.py:24-28 | a second Normalize reports `modified = false` and returns the state it was given |
| RuleBased.Similarity | src/operators/rule_based.py:75-76 | overlap over the smaller size lies in [0, 1]; it is 1 when one set contains the other and 0 when they are disjoint |
| RuleBased.TryMerge | src/operators/rule_based.py:69-80 | a pair merges iff both evidence sets are non-empty and the similarity reaches the threshold; the kept claim then has the union of the two evidence sets, no duplicates, the larger confidence and unchanged id, text and section |
| RuleBased.MergeInto | src/operators/rule_based.py:65-91 | the inner loop, which compares the grown kept claim with each later claim: every record names it as kept; each removed id is a later claim's id, not removed before, and logged once; no merge leaves the claim unchanged |
| RuleBased.MergeFrom | src/operators/rule_based.py:60-91 | the outer loop: ids and order unchanged; entries before the start untouched; removed ids are fresh, one per record, and come from the scanned suffix; every record meets the threshold; no record means no change |
| RuleBased.LogMerges | src/operators/rule_based.py:82-88 | the new records are appended after the old `'merges'` list, which is kept as a prefix; the key is created only when there is a first record |
| RuleBased.Survivors | src/operators/rule_based.py:93-94 | deleting the removed ids keeps the other ids in their original order |
| RuleBased.Merge | src/operators/rule_based.py:50-99 | `MergeDuplicateClaimsOperator.apply`: old `'merges'` is a prefix of the new one; `modified` iff records were appended; the surviving ids are the old ones minus the removed ids, in order; those ids' relationship entries are gone; no merge means the state is returned unchanged |
| RuleBased.MergeIntoAbsorbs | src/operators/rule_based.py:65-80 | the claim the inner loop keeps is the original one having absorbed exactly the claims it removed: evidence is the union of all their evidence sets, confidence the largest of theirs |
| RuleBased.MergeFromAbsorbs | src/operators/rule_based.py:60-91 | no record keeps a claim that is marked removed, and every entry from the start index is its original having absorbed exactly the claims the records credit to it |
| RuleBased.MergeContents | src/operators/rule_based.py:50-99 | after Merge: ids stay distinct; the count drops by exactly the number of new records; each record's kept claim survives and its removed claim is gone; each survivor has absorbed exactly the claims its records name, taking their evidence union and maximum confidence |
| RuleBased.MergeIntoNone | src/operators/rule_based.py:65-80 | a claim that merges with none of the later claims keeps its own fields, removes nothing and logs nothing |
| RuleBased.MergeFromNone | src/operators/rule_based.py:60-91 | when no pair of claims from the start index on reaches the threshold, the outer loop leaves the list as it is and records nothing |
| RuleBased.MergeNone | src/operators/rule_based.py:50-99 | when no pair of claims reaches the threshold, Merge reports no modification and returns the state it was given |
| RuleBased.AbsorbOnly | src/operators/rule_based.py:65-91 | a claim that absorbs the first later claim and then none of the rest ends the scan as the merged claim, with that one id removed and one record logged |
| RuleBased.MergeFromFirst | src/operators/rule_based.py:60-91 | when the first claim absorbs the second and no other pair reaches the threshold, the outer loop replaces the first claim, marks only the second removed and logs one record |
| RuleBased.MergeFirstOnly | src/operators/rule_based.py:50-99 | in that case Merge drops exactly the second claim and its relationship key, keeps the grown first claim in place, and appends one record to `'merges'` |
| RuleBased.MergeIntoLast | src/operators/rule_based.py:65-91 | the recursive scan agrees with the inner loop run front to back: scanning all later claims is scanning all but the last, then one loop iteration that skips an id already in `claims_to_remove`, merges exactly when `TryMerge` allows against the claim as grown so far, and logs that comparison's similarity |
| RuleBased.MergeIntoGrows | src/operators/rule_based.py:65-91 | the scan of a prefix of the later claims removed a subset of the ids, and logged a prefix of the records, of the whole scan, since the loop only adds to both |
| RuleBased.MergeIntoMisses | src/operators/rule_based.py:65-80 | every later claim that was not removed before the scan and that the scan did not absorb fails `TryMerge` against the claim as grown up to that point |
| RuleBased.MergeIntoHits | src/operators/rule_based.py:65-91 | every later claim that is not yet removed when the loop reaches it and passes `TryMerge` against the grown claim is absorbed; its record names the kept claim and carries exactly that similarity |
| RuleBased.MergeIntoFinds | src/operators/rule_based.py:65-91 | if any later claim not yet removed would merge with the claim as given, the scan logs at least one record |
| RuleBased.MergeFromFinds | src/operators/rule_based.py:60-91 | if two claims from the start index on, neither yet removed, reach the threshold with the earlier one first, the outer loop logs at least one record |
| RuleBased.MergeModifiedIff | src/operators/rule_based.py:57-91 | Merge reports `modified` exactly when some pair of claims, the earlier one first, passes `TryMerge` |
| RuleBased.Partition | src/operators/rule_based.py:119-124 | one pass splits the claims into those at or above the threshold, in order, and the ids of the others, in order |
| RuleBased.RemoveWeak | src/operators/rule_based.py:109-136 | `RemoveWeakClaimsOperator.apply`: keeps exactly the claims with confidence ≥ threshold, in order; `modified` iff some claim is below it, iff the count drops; removed ids leave the relationships; `'weak_removals'` is extended in claim order only when modified; otherwise the state is unchanged |
| RuleBased.RemoveWeakGate | src/operators/rule_based.py:130-133 | the engine accepts RemoveWeak's result exactly when it removed nothing or the input metadata already had `'merges'` |
| Engine.Apply | engine.py:41 | no operator adds claims or drops an existing `'merges'` entry, and an unmodified result is the given state |
| Engine.ApplyPreservesValid | engine.py:41 | every operator keeps claim ids distinct and the audit keys out of the free-form metadata |
| Engine.Step | engine.py:40-57 | a modification is logged iff the operator reports one and the check accepts; the log records the operator's name and the claim counts before and after; a rejected candidate is discarded; the adopted state always passes the check |
| Engine.RunPass | engine.py:39-57 | a pass logs no more entries than there are operators; a pass that logs nothing returns its input; claims never grow; `'merges'` is never lost; a pass that lost claims leaves `'merges'` present |
| Engine.RunPassLog | engine.py:48-55 | every logged entry names an operator of the list and records a claim count that did not grow |
| Engine.RunPassPreservesValid | engine.py:39-57 | a pass keeps a valid state valid |
| Engine.Increment | engine.py:50 | `operators_applied[name] += 1` raises that counter and the total by one and leaves every other counter as it was |
| Engine.IncrementDistinct | engine.py:50 | the counter table keeps one entry per operator name |
| Engine.TallyAllCounts | engine.py:48-55 | after counting a run's entries, each operator's counter has grown by the number of its entries and the total by the number of entries |
| Engine.RefineFrom | engine.py:30-65 | the outer loop only appends iteration records, at most one per remaining budget step |
| Engine.RefineFromStops | engine.py:59-65 | the loop ends at the first pass with no modifications, which it records as the convergence iteration, or else after exactly the budget |
| Engine.RefineFromTraces | engine.py:30-59 | iteration `k` records the state after `k` passes and that pass's modifications, and the final state is the state after all recorded passes |
| Engine.Refine | engine.py:17-70 | at most `max_iterations` iterations are recorded |
| Engine.RefineSpec | engine.py:17-70 | `refine`: records are numbered by position; each holds the claim count at the start of its pass and that pass's modifications; the convergence iteration is set iff a pass modified nothing and is then the last record, else the budget is used up; the final state is the state after the recorded passes; `total_applications` = sum of the counters = number of modification entries |
| Engine.RefineNoBudget | engine.py:22-30 | with `max_iterations ≤ 0`: no iterations, no convergence, zero applications, no counters, and the initial state returned |
| Engine.RefineInvariant | engine.py:39-57 | the final state never has more claims than the initial one, has `'merges'` whenever it has fewer, and is valid when the initial state is |
| Engine.ConvergedIsFixedPoint | engine.py:59-65 | after convergence, one more pass would log nothing and return the final state: it is a fixed point of the operator list |
| Engine.AnalyzeStability | engine.py:72-92 | `converged` iff a convergence iteration is set; `is_monotonic` iff the claim counts are non-increasing over all pairs; total modifications = number of entries; reduction and final count from the first and last records, 0 when there are none; `convergence_speed` is the convergence iteration when it is set and non-zero, and otherwise, by the truthiness test, the number of records |
| Engine.MonotonicAllPairs | engine.py:77-78 | the adjacent-pairs test equals non-increase over all pairs |
| Engine.SumChangesIsAllMods | engine.py:83-89 | summing the per-iteration modification counts gives the number of all modification entries |
| Engine.TracedClaimCounts | engine.py:31-35 | along a run, recorded claim counts never increase, the first is the initial count, and after convergence the last equals the final state's count |
| Engine.StabilityOfRefine | engine.py:72-92 | on any `refine` result: monotonic; total modifications = `total_applications`; reduction = initial count − final count ≥ 0; after convergence the final count is the final state's; convergence at iteration 0 gives speed 1, at `c > 0` speed `c`, and none gives the budget |
| Demo.NormalizeSample | examples/demo.py:15-34 | normalising the sample collapses `c5`'s evidence `['paper4:sec2', 'paper4:sec2']` to one entry, leaves the other claims unchanged and reports a modification |
| Demo.MergeFirstPair | src/operators/rule_based.py:69-80 | two claims with evidence `[a, b]` and `[a, c]` have similarity 0.5, so they merge at threshold 0.5; the first keeps `[a, b, c]` and its own, larger confidence |
| Demo.MergeSample | examples/demo.py:15-34 | merging the normalised sample at 0.5: `c1` absorbs `c2` at similarity 0.5; no other pair shares evidence; `c2` and its relationship key go; one merge record is logged |
| Demo.RemoveSample | examples/demo.py:24-25 | removing claims below 0.5 from the merged sample drops only `c4` (confidence 0.4) and logs it under `'weak_removals'` |
| Demo.FirstPassSample | examples/demo.py:44-51 | the first pass logs all three operators: normalise 5→5 claims, merge 5→4, remove 4→3 |
| Demo.SecondPassSample | examples/demo.py:44-51 | the second pass, on the three remaining claims, logs nothing and returns its input |
| Demo.RefineSample | examples/demo.py:44-51 | `refine` with budget 50 records two iterations, at 5 and 3 claims, converges at iteration 1, and counts each operator once, for 3 applications |
| Demo.StabilitySample | examples/demo.py:53 | `analyze_stability` of that run: monotonic, converged, speed 1, 3 modifications, reduction 2, final count 3 |
| Demo.DemoRun | examples/demo.py:15-53 | on the literal sample: convergence at iteration 1 after 3 applications; survivors `c1` (with `c2`'s evidence added), `c3` and `c5`; `'merges'` holds `c1`/`c2`/0.5 and `'weak_removals'` holds `c4`; relationships unchanged, as no removed id is a key |

## Left out

- The LLM-backed operators (`LLMMergeDuplicateClaimsOperator`, `LLMExtractImplicitAssumptionsOperator`) and the extractor script make network calls and parse model output. They are not part of this model.
- The `print` diagnostics of `refine` (`verbose`) are output only.
- The per-operator `applications` counter is not modelled. It is incremented on every `apply`, including rejected ones, and nothing reads it.
- The engine's unused `history` field is not modelled.
- Shallow-copy aliasing is not modelled. In Python, Merge mutates the input state's `Claim` objects, and Merge and RemoveWeak append to audit lists that the old metadata shares. The model uses immutable values, so the input state is never changed. One consequence visible to a caller is lost: when the engine rejects RemoveWeak's candidate, Python has already extended a pre-existing `'weak_removals'` list, and the retained state shares that list, so the rejected removals still show up in its log. In the model the retained state's log is unchanged.
- RuleBased.MergeFrom: the outer loop's completeness is stated only as `RuleBased.MergeFromFinds`: a qualifying pair of claims not yet removed produces a record. Completeness per claim is stated for each scan by `RuleBased.MergeIntoMisses` and `RuleBased.MergeIntoHits`. No lemma restates the outer loop iteration by iteration, because `MergeFrom` is itself written as that loop.
- RuleBased.TryMerge: the order of `list(evidence1 | evidence2)` is unspecified in Python. The model uses the sorted order, and the contract states only the element set and duplicate-freedom. When Python happens to leave a merged evidence list unsorted, the consequence depends on where Normalize stands in the operator list:
  - if Normalize precedes Merge, Python re-normalises that list, and logs the modification, one pass later than the model, which can delay convergence by one pass;
  - if Normalize follows Merge, Python logs an extra `normalize_evidence` modification in the same pass, which the model does not. That pass's `modifications`, the `normalize_evidence` counter and `total_applications` then differ, but convergence is not delayed.
- IEEE floating point is not modelled. Similarity, confidence and thresholds are `real`, with exact division and comparison.
- Claims are an ordered sequence whose dictionary key is assumed to equal the claim's id (`Knowledge.Valid`). States whose keys differ from the claims' ids are not modelled.
- Metadata keys other than `'merges'` and `'weak_removals'` are kept as opaque strings. The operators never read them.
- Constructor defaults are not modelled. Every operation takes its setting as a parameter, so the defaults `similarity_threshold=0.8`, `min_confidence=0.3` and `max_iterations=100` never apply implicitly.
- `operators_applied`, a `defaultdict`, is modelled as a list of `(name, count)` pairs in first-use order.
- Engine.StabilityOfRefine: `convergence_speed` follows the code, which tests the truthiness of `convergence_iteration`. So convergence at iteration 0 gives speed 1, the number of recorded iterations, not 0.
- Engine.AnalyzeStability: `final_claim_count` is, as in the code, the claim count at the start of the last recorded iteration. After a run that used up its budget, it can be larger than the final state's count.
- Demo.DemoRun: the run is stated for the model's sorted evidence union. In Python, `list(e1 | e2)` may leave `c1`'s merged evidence unsorted. The second pass would then re-normalise it and log a modification, and the run would converge at iteration 2.
- The demo driver's `print` output and the LLM demo script are not modelled.
