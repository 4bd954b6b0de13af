# Verification of SynthLC

A Dafny model of the parts of SynthLC that decide something, with proofs about every
input and every run. `dafny verify dfyconfig.toml` checks all of it.

## What is modelled

**The live cache** replays the loads and stores of a program on a set-associative LRU
cache. `CacheCore` and `LiveCache` are classes over arrays: lines, and pointers to lines
that lookups and fills shift in place. A line pointer is an index into the line array.
`LineSet` gives one set as a list of line values, `Layout` the blocks of all sets in one
pointer array, `Tracking` the state of the whole cache as a function of the run so far,
and `Recency` the LRU set in its simplest form. The main results are the stack-distance
law (`Tracking.RunHits`), the counters as numbers of positions of the run
(`Tracking.RunCounters`) and the invariant of every run (`Tracking.RunSet`); the concrete
`Read` and `Write` are proved to follow the run. `MergeSort` and `Traversal` are the
in-place sort and the listing of resident lines, `Bits` and `Words` the index arithmetic
on numbers and on 32-bit words. Empty lines start with arbitrary stamps
and flags. A miss on tag 0 runs into an assertion in the code; `Accepted` excludes exactly
that. A hit on tag 0 is possible, because empty lines have tag 0.

**Happens-before synthesis** turns proven orders of events into timing constraints.
`Traces` has signals, history registers and the properties written over them. `Graph` has
closure, saturation with concurrent pairs, and reduction. `Solver` has the constraints and
the push/pop search; satisfiability is "some assignment of integers satisfies all", and
the decision procedure is a parameter that decides exactly that. `ConstructPaths`,
`PathBuilder` and `Execution` follow one candidate path from the execution of a design to
the verdict of the solver: saturation, reduction, cycle test and solver lose no timing of
which the facts hold (`Execution.RunIsKept`), and what is kept is consistent
(`ConstructPaths.KeptIsObeyed`). `CandidateTiming` says what that means for the cycles
themselves, without the graph. `Classify` sorts verdicts into facts between entries.
`Leaving` has the assertions about final cycles, and `LeavingFacts` says when they are the
orders that path construction takes them for, and so which executions are kept
(`LeavingFacts.ProvenRunIsKept`). `Synthesis` puts the chain together, from verdicts to the
candidates that are kept.
`CollectReEval` and `PairsTodo` find the orders that the asserted constraints leave open,
exactly; `RunOrders` says which executions satisfy these constraints, `OrderLists` which
find their own combination of orders in the product, and `LostOrders` has executions that
do not.

**Pruned enumerations**: `SubsetGen`, `Powersets` and `SubsetCount` relate a backtracking
generator of sets to a brute-force filter; `StateEnum` decodes state indices with real division;
`FollowerSets` keeps the maximal follower sets.

## Where the code falls short

- A final cycle proven to come before an entry, or to coincide with one, is an edge or a
  pair of the graph without condition. What is proven speaks only of visits of two or more
  cycles, and for strict orders only if the second location, where it can, stays for two.
  An execution with a one-cycle stay can so be rejected (`LostOrders.OneCycleLeaveLost`).
  `LeavingFacts.ProvenRunObeys` has the exact condition.
- Saturation is sound in `xConstructPaths`, where the stay of a location is not an edge.
  In `xCollectReEval` it is an edge of length zero or more, and saturation copies it as a
  strict one. `LostOrders.OneCycleStayLost` shows an execution that is lost;
  `CollectReEval.StaySaturationExact` says exactly which timings are.
- `xCollectReEval` also asserts a distance of exactly one cycle along every reduced edge
  within one register, which no fact gives; `xConstructPaths` asserts only the order there.
  An order that a real execution has can so be skipped as impossible
  (`LostOrders.OrderLost`). `RunOrders.RunModels` says exactly which executions satisfy the
  constraints, and `RunOrders.UnlistedIsEntailed` that of these nothing is skipped that the
  constraints do not force.
- The list of a pair has a strict order only in the direction of a dataflow edge. An
  execution with the opposite order has no combination in the product
  (`LostOrders.AgainstEdgeLost`); `OrderLists.OwnInProduct` has the exact condition.
- With nothing to choose, the search emits the empty combination even from an
  unsatisfiable base; `Solver.SearchMembers` has this as its exact condition.
- `GenComb` enforces an undetermined implication only if its conclusion comes later, and
  does not see a location that excludes itself. What it emits is therefore more than the
  filter keeps; `SubsetCount.EmittedSurvives` has the exact condition and
  `SubsetCount.EmittedAndPruned` a case; for relations as in
  `SubsetCount.GeneratorIsFilter` both agree.
- The listing of the cache leaves out the line whose only access was the first of the
  run, because its stamp is 0 (`Traversal.FirstAccessUnlisted`); `Traversal.VisitedTags`
  has the exact condition.

## Model

| member | source | states |
|---|---|---|
| `Tracking.RunHits` | cva6/corev_apu/tb/dromajo/src/LiveCacheCore.h:495-622 | stack distance: after every run of reads and writes, an access hits if and only if its tag was accessed before (tag 0 counts as such) and fewer than `assoc` distinct other tags of its set were accessed since |
| `Tracking.RunSet` | cva6/corev_apu/tb/dromajo/src/LiveCacheCore.h:495-622 | invariant of every run: a set shows exactly its recency list, no nonzero tag twice, only tags of that set, array position strictly decreasing in order stamp, and every touched line carries the position of its last access and whether it was written since it was brought in |
| `Tracking.RunCounters` | cva6/corev_apu/tb/dromajo/src/LiveCache.cpp:98-126 | each of the four counters is the number of positions of the run with that kind of access and that stack-distance outcome |
| `Tracking.StoredIsDirty` | cva6/corev_apu/tb/dromajo/src/LiveCache.cpp:98-126 | the store flag by positions: some write of the tag after which every access to it was near enough to hit |
| `Tracking.LineAtSet` | cva6/corev_apu/tb/dromajo/src/LiveCacheCore.h:495-622 | every nonzero tag anywhere in the pointer array is a resident tag of its own set, at the position its recency gives it |
| `Tracking.LinesDiffer` | cva6/corev_apu/tb/dromajo/src/LiveCacheCore.h:495-622 | no nonzero tag is held twice in the whole cache |
| `Tracking.Next` | cva6/corev_apu/tb/dromajo/src/LiveCache.cpp:98-126 | one more access keeps the state equal to what the whole run makes of the empty sets, and counts the access by kind and by outcome |
| `LineSet.HitIffStackDistance` | cva6/corev_apu/tb/dromajo/src/LiveCacheCore.h:495-622 | the stack-distance law for one set of lines, from arbitrary stamps and flags in the empty lines |
| `LineSet.BlockShowsResident` | cva6/corev_apu/tb/dromajo/src/LiveCacheCore.h:495-622 | over every run the lines of a set refine the recency list of a pure LRU set |
| `LineSet.BlockFaithful` | cva6/corev_apu/tb/dromajo/src/LiveCache.cpp:98-126 | over every run, order is the position of the last access and the store flag tells whether a write happened since the tag came in |
| `LineSet.BlockDescending` | cva6/corev_apu/tb/dromajo/src/LiveCacheCore.h:524-533 | among touched lines of a set, an earlier position means a later stamp |
| `LineSet.DirtyStep` | cva6/corev_apu/tb/dromajo/src/LiveCache.cpp:98-126 | a read miss clears the store flag, a write sets it, a read hit keeps it: the recursive law of "written since brought in" |
| `Recency.StackDistance` | cva6/corev_apu/tb/dromajo/src/LiveCacheCore.h:495-622 | the law for the recency list itself, both for hits and for residency |
| `Recency.ResidentIsStackPrefix` | cva6/corev_apu/tb/dromajo/src/LiveCacheCore.h:539-622 | LRU inclusion: `ways` ways hold the top `ways` entries of the unbounded recency stack |
| `Layout.Promote` | cva6/corev_apu/tb/dromajo/src/LiveCacheCore.h:524-533 | moving way k to the front keeps the pointers a permutation of the lines in which every set keeps its own lines |
| `Layout.OwnSetSteps` | cva6/corev_apu/tb/dromajo/src/LiveCacheCore.h:524-533 | shifting pointers and stamping the first line is a step of the accessed set |
| `Layout.OtherSetsKeep` | cva6/corev_apu/tb/dromajo/src/LiveCacheCore.h:611-618 | and leaves the lines of every other set as they were |
| `Layout.BlocksDisjoint` | cva6/corev_apu/tb/dromajo/src/LiveCacheCore.h:289-301 | blocks of different sets do not overlap |
| `Layout.BaseIsShift` | cva6/corev_apu/tb/dromajo/src/LiveCacheCore.h:299-300 | the block of set s starts at s shifted left by log2 of the ways |
| `CacheCore.CacheAssoc.constructor` | cva6/corev_apu/tb/dromajo/src/LiveCacheCore.h:462-493 | every line has tag 0 and every pointer points at its own line; sizes, sets and shifts as computed from the arguments |
| `CacheCore.OddWaysOverrun` | cva6/corev_apu/tb/dromajo/src/LiveCacheCore.h:152-165 | ways that are no power of two, with more sets than ways, put the block of the last set past the end of the lines |
| `CacheCore.CacheAssoc.CalcIndex4Tag` | cva6/corev_apu/tb/dromajo/src/LiveCacheCore.h:289-301 | the index is the start of the block of the set of the tag, and the whole block is in bounds; which set that is, is stated by `Bits.SetIndexBits` and `Bits.SetIndexIsRemainder` |
| `CacheCore.CacheAssoc.CalcTag` | cva6/corev_apu/tb/dromajo/src/LiveCacheCore.h:279-281 | the tag is the address divided by the line size |
| `CacheCore.CacheAssoc.Search` | cva6/corev_apu/tb/dromajo/src/LiveCacheCore.h:499-519 | finds the first way that shows the tag |
| `CacheCore.CacheAssoc.ShiftPointers` | cva6/corev_apu/tb/dromajo/src/LiveCacheCore.h:524-533 | the in-place shift puts the hit pointer first and moves those before it up by one |
| `CacheCore.CacheAssoc.FindLine` | cva6/corev_apu/tb/dromajo/src/LiveCacheCore.h:495-537 | found exactly when some way of the set shows the tag; then its line is returned and is first in its set, else nothing changes |
| `CacheCore.CacheAssoc.WayToReplace` | cva6/corev_apu/tb/dromajo/src/LiveCacheCore.h:546-601 | the way that shows the tag, else the oldest |
| `CacheCore.CacheAssoc.FindLine2Replace` | cva6/corev_apu/tb/dromajo/src/LiveCacheCore.h:539-622 | returns that line and puts it first in its set |
| `CacheCore.CacheAssoc.FillLine` | cva6/corev_apu/tb/dromajo/src/LiveCacheCore.h:231-237 | the line gets the tag and nothing else changes |
| `LiveCache.LiveCache.constructor` | cva6/corev_apu/tb/dromajo/src/LiveCache.cpp:59-75 | a fresh cache of 16 ways and 64-byte lines with an empty run and zero counters; with a power of two of sets, the set of a tag is its remainder |
| `LiveCache.LiveCache.Read` | cva6/corev_apu/tb/dromajo/src/LiveCache.cpp:98-110 | the concrete state, stamps, flags and counters are those of the run extended by a read of line `addr / 64` |
| `LiveCache.LiveCache.Write` | cva6/corev_apu/tb/dromajo/src/LiveCache.cpp:112-126 | the concrete state, stamps, flags and counters are those of the run extended by a write of line `addr / 64` |
| `LiveCache.LiveCache.Traverse` | cva6/corev_apu/tb/dromajo/src/LiveCache.cpp:128-159 | lists, in increasing order of last access, every resident line whose tag is not 0 and whose last access was not the first of the run, as its address plus one if it was stored to since it came in, and nothing else |
| `Traversal.Traverse` | cva6/corev_apu/tb/dromajo/src/LiveCache.cpp:128-159 | collect, sort and emit: the entries of the lines with nonzero stamp and tag, sorted by stamp |
| `Traversal.VisitedMembers` | cva6/corev_apu/tb/dromajo/src/LiveCache.cpp:130-147 | a line is listed if and only if its tag and its stamp are nonzero |
| `Traversal.VisitedInOrder` | cva6/corev_apu/tb/dromajo/src/LiveCache.cpp:138-147 | the listing is in strictly increasing order of last access |
| `Traversal.VisitedTags` | cva6/corev_apu/tb/dromajo/src/LiveCache.cpp:130-147 | a nonzero tag is listed if and only if it is resident and its last access was not the very first of the run, whose stamp is 0 |
| `Traversal.FirstAccessUnlisted` | cva6/corev_apu/tb/dromajo/src/LiveCache.cpp:128-147 | after a single read of a fresh cache the tag hits and is not listed |
| `Traversal.EntryDecodes` | cva6/corev_apu/tb/dromajo/src/LiveCache.cpp:147-152 | an entry is the tag times the line size, plus one for a store: both are recovered by division |
| `Traversal.ListingInOrder` | cva6/corev_apu/tb/dromajo/src/LiveCache.cpp:138-159 | the listed addresses are in increasing order of the last access to their lines |
| `Traversal.ListingComplete` | cva6/corev_apu/tb/dromajo/src/LiveCache.cpp:128-159 | every resident tag but 0 whose last access was not the first is listed |
| `MergeSort.SortKeeps` | cva6/corev_apu/tb/dromajo/src/LiveCache.cpp:161-200 | the sort permutes its input |
| `MergeSort.SortRanked` | cva6/corev_apu/tb/dromajo/src/LiveCache.cpp:161-200 | the result is in order of stamp, and pointers of equal stamp stay in their order |
| `MergeSort.SortPointers` | cva6/corev_apu/tb/dromajo/src/LiveCache.cpp:161-200 | the in-place recursive sort computes that permutation |
| `MergeSort.MergeInto` | cva6/corev_apu/tb/dromajo/src/LiveCache.cpp:188-199 | the merge loop computes the merge of the two halves |
| `Words.RoundUpIsLeast` | cva6/corev_apu/tb/dromajo/src/LiveCacheCore.h:76-87 | least power of two not below x for 1 <= x <= 2^31, and 0 otherwise, in 32-bit arithmetic |
| `Words.Log2i` | cva6/corev_apu/tb/dromajo/src/LiveCacheCore.h:89-106 | the ceiling of the logarithm and the exponent of the rounded value for 1 <= n <= 2^31, else 0, with a terminating loop |
| `Words.OrderIsValue` | cva6/corev_apu/tb/dromajo/src/LiveCacheCore.h:76-106 | the order of 32-bit words is that of their values |
| `Bits.CeilLog2OfPow2` | cva6/corev_apu/tb/dromajo/src/LiveCacheCore.h:89-106 | the logarithm of a power of two is its exponent |
| `Bits.MaskIsRemainder` | cva6/corev_apu/tb/dromajo/src/LiveCacheCore.h:289-301 | masking with 2^k - 1 is the remainder modulo 2^k, so a set index is in range |
| `Bits.SetIndexIsRemainder` | cva6/corev_apu/tb/dromajo/src/LiveCacheCore.h:289-301 | with 2^k sets the set is the remainder of the tag, or of the tag exclusive-or its quotient by 2^k if asked for |
| `Bits.SetIndexBits` | cva6/corev_apu/tb/dromajo/src/LiveCacheCore.h:289-301 | for any number of sets, bit by bit: the bit of the tag, exclusive-or the bit log2 of the sets above it if asked for, under the mask |
| `Traces.HpnIsPast` | fv/synthlc/src/HB_template.py:124-132 | the clocked history register is high exactly if the signal was high in an earlier cycle |
| `Traces.EntersIffFirst` | fv/synthlc/src/HB_template.py:134-149 | the signal with its register low marks exactly the first cycle of a visit |
| `Traces.HbMeans` | fv/synthlc/src/HB_template.py:189-190 | HB holds of a trace if and only if first entries are in strict order wherever both locations are visited |
| `Traces.WhbMeans` | fv/synthlc/src/HB_template.py:193 | WHB holds if and only if they are in weak order |
| `Traces.ConcurMeans` | fv/synthlc/src/HB_template.py:194 | WHB_CONCUR holds if and only if a visit of the first means both are entered in the same cycle |
| `Traces.CoverMeans` | fv/synthlc/src/HB_template.py:47-52 | on a trace that visits the whole set, exactly one of the three covers of a pair is hit, the one of its order of first entry |
| `Traces.AssumedIffOrder` | fv/synthlc/src/HB_template.py:20-26 | the assumptions of an order hold exactly on traces with that order |
| `Traces.Partition` | fv/synthlc/src/HB_template.py:20-26 | every trace that visits all locations satisfies the assumption templates of exactly one choice of before, after or together for each pair |
| `Traces.LeaveOrder` | fv/synthlc/xCollectReEval/aggregate_cyccnt_comp.py:227-231 | exclusive, contiguous visits: entering a before b, or before b is left, puts the last cycle of a before the first of b |
| `Classify.Collect` | fv/synthlc/xHBPerfG_dfg_v3_div/xHBPerf_dfg_v3.py:91-139 | which pairs end up strictly ordered, weakly ordered or proven concurrent, in terms of the verdicts |
| `Classify.Split` | fv/synthlc/xHBPerfG_dfg_v3_div/xHBPerf_dfg_v3.py:147-161 | a pair weakly ordered both ways or proven concurrent is concurrent, and leaves the weak list |
| `Classify.Postprocess` | fv/synthlc/xHBPerfG_dfg_v3_div/xHBPerf_dfg_v3.py:81-161 | the three written lists as functions of the verdicts; every pair listed is an edge between reachable locations of one set, and every such edge with a proven verdict is listed |
| `Classify.IsConsidered` | fv/synthlc/xHBPerfG_dfg_v3_div/xHBPerf_dfg_v3.py:92-99 | the loop over the sets finds whether both locations are reachable and in one set |
| `Classify.ListsMeanOrder` | fv/synthlc/xHBPerfG_dfg_v3_div/xHBPerf_dfg_v3.py:119-161 | if proven verdicts are right about a trace, strict pairs enter in order, concurrent pairs in the same cycle, weak pairs not out of order |
| `Graph.ClosureLeast` | fv/synthlc/xConstructPaths/aggregate_cyccnt_comp_final.py:502-509 | the closure is contained in every transitive relation that contains the edges |
| `Graph.ClosureTransitive` | fv/synthlc/xConstructPaths/aggregate_cyccnt_comp_final.py:509 | the closure is transitive |
| `Graph.TimingOrdersClosure` | fv/synthlc/xConstructPaths/aggregate_cyccnt_comp_final.py:502-506 | a timing that orders the edges orders the closure, so a cycle or self-loop means there is none |
| `Graph.SaturationSound` | fv/synthlc/xConstructPaths/aggregate_cyccnt_comp_final.py:468-500 | for a timing that respects the concurrent pairs, ordering the saturated graph and ordering the original one are the same |
| `Graph.ClosureStep` | fv/synthlc/xConstructPaths/aggregate_cyccnt_comp_final.py:508 | a closure pair with nothing in between is an edge of the reduction |
| `Graph.ReductionKeepsClosure` | fv/synthlc/xConstructPaths/aggregate_cyccnt_comp_final.py:508-509 | on an acyclic graph the reduced edges have the same closure as all edges |
| `Graph.ReductionMinimal` | fv/synthlc/xConstructPaths/aggregate_cyccnt_comp_final.py:508 | no reduced edge can be spared: the others do not reach its target |
| `Graph.ReductionEntails` | fv/synthlc/xCollectReEval/aggregate_cyccnt_comp.py:289-299 | on an acyclic graph, respecting the reduced edges orders every closure pair strictly, except a reduced stay edge |
| `Solver.MySolver.constructor` | fv/synthlc/xConstructPaths/solver.py:10-38 | nothing asserted, nothing pushed |
| `Solver.MySolver.CheckHbPossibility` | fv/synthlc/xConstructPaths/solver.py:85-92 | true exactly if some model has the strict order; the assertion stack is restored |
| `Solver.MySolver.CheckImpHb` | fv/synthlc/xConstructPaths/solver.py:94-102 | true exactly if the constraints entail the strict order; the stack is restored |
| `Solver.MySolver.CheckImpConcur` | fv/synthlc/xConstructPaths/solver.py:103-112 | true exactly if the constraints entail equality; the stack is restored |
| `Solver.MySolver.GetAllCombination` | fv/synthlc/xConstructPaths/solver.py:227-259 | appends exactly what the pruned search emits, and restores the prefix and the stack on every return |
| `Solver.MySolver.Gen` | fv/synthlc/xConstructPaths/solver.py:221-225 | the result list has exactly the members of the product whose every pair some model of the constraints has in the chosen order, in lexicographic order; with nothing to choose and no model, the empty combination |
| `Solver.SearchExact` | fv/synthlc/xConstructPaths/solver.py:227-259 | the pruned search equals the filter of the whole product by joint satisfiability, as lists |
| `Solver.SearchMembers` | fv/synthlc/xConstructPaths/solver.py:221-259 | the emitted combinations are exactly the members of the product of which some model of the base has every pair in the chosen order, <, > or ==, if and only if the base is satisfiable or there is something to choose |
| `Solver.FeasibleMeans` | fv/synthlc/xConstructPaths/solver.py:227-259 | asserting the choices is satisfiable exactly if some model has each pair in its chosen order |
| `Solver.SearchInOrder` | fv/synthlc/xConstructPaths/solver.py:236-237 | lexicographic order, hence no repeats when each list of choices has none |
| `Solver.AllMember` | fv/synthlc/xConstructPaths/solver.py:227-238 | the unpruned enumeration is the product |
| `ConstructPaths.ObeyedIsKept` | fv/synthlc/xConstructPaths/aggregate_cyccnt_comp_final.py:468-523 | a candidate that some timing obeys is rejected neither as cyclic nor as unsatisfiable |
| `ConstructPaths.KeptIsObeyed` | fv/synthlc/xConstructPaths/aggregate_cyccnt_comp_final.py:502-523 | the model of a kept candidate respects every edge of the saturated graph, the concurrent pairs, the weak orders and the limits of reduced stays, although only the reduction was emitted |
| `CandidateTiming.ConsistentMeets` | fv/synthlc/xConstructPaths/aggregate_cyccnt_comp_final.py:362-523 | such a model, on the cycles: every proven order inside the set, every choice as <, > or ==, every weak order and concurrent pair, no stay ending before it starts, and one location of a register left before the next is entered |
| `CandidateTiming.MeetsObeys` | fv/synthlc/xConstructPaths/aggregate_cyccnt_comp_final.py:362-523 | conversely, for candidates about two events of two locations of the set each, a timing that has all this and keeps the limits obeys the candidate |
| `Execution.RunObeys` | fv/synthlc/xConstructPaths/aggregate_cyccnt_comp_final.py:362-500 | for an execution that makes the choices and of which the facts between entries hold, its first and last cycles obey every edge, also the implied and saturated ones, if and only if its final cycles are in the order of the facts about them |
| `Execution.RunIsKept` | fv/synthlc/xConstructPaths/aggregate_cyccnt_comp_final.py:362-523 | if all facts hold, those about final cycles as orders of cycles, the combination of the execution survives cycle test and solver |
| `Leaving.LeavingEnterMeans` | fv/synthlc/src/HB_template.py:222-236 | for visits in consecutive cycles, HB_LEAVING and WHB_CONCUR_LEAVING put the final cycle of the first before, or at, the entry of the second if and only if the first stays longer than one cycle implies it |
| `Leaving.EnterLeavingMeans` | fv/synthlc/src/HB_template.py:249-263 | what the assertions between an entry and a final cycle say of such visits, both directions, with the register read one cycle late |
| `Leaving.LeavingLeavingMeans` | fv/synthlc/src/HB_template.py:275-288 | the assertions between two final cycles likewise |
| `Leaving.StaysTwoIs` | fv/synthlc/src/HB_template.py:218-221 | the assumption holds exactly of visits of two or more cycles |
| `LeavingFacts.LeavingExact` | fv/synthlc/xHBPerfG_leaving/xHBPerfG_leaving.py:376-491 | if the verdicts on these assertions are right about an execution, its final cycles are in the order taken for proven if and only if this is so of the pairs of which the assertions say nothing |
| `LeavingFacts.LeaveThenEnterExact` | fv/synthlc/src/HB_template.py:222-227 | with HB_LEAVING, the final cycle of x is before the entry of y if and only if x stays longer than one cycle or is entered before y |
| `LeavingFacts.ProvenRunObeys` | fv/synthlc/xConstructPaths/aggregate_cyccnt_comp_final.py:362-500 | from right verdicts: the cycles of an execution obey its candidate if and only if no pair of which the assertions say nothing is out of order |
| `LeavingFacts.ProvenRunIsKept` | fv/synthlc/xConstructPaths/aggregate_cyccnt_comp_final.py:362-523 | end to end from what was proven of the design: then the combination survives cycle test and solver |
| `LostOrders.OneCycleLeaveLost` | fv/synthlc/xConstructPaths/aggregate_cyccnt_comp_final.py:461-506 | an execution of which every proven assertion holds, with a one-cycle stay whose final cycle was proven to come before an entry in the same cycle; its combination is rejected as cyclic or unsatisfiable |
| `Execution.ImpliedGood` | fv/synthlc/xConstructPaths/aggregate_cyccnt_comp_final.py:412-418 | the edge from the final cycle of a location to the entry of the next of its register holds in every execution |
| `PathBuilder.DiGraph.SaturateAll` | fv/synthlc/xConstructPaths/aggregate_cyccnt_comp_final.py:468-500 | the in-place loops over in- and out-edges compute the saturation |
| `PathBuilder.AddChoices` | fv/synthlc/xConstructPaths/aggregate_cyccnt_comp_final.py:367-385 | chosen orders become edges, "=" becomes a concurrent pair; what this means for the cycles is stated by `PathBuilder.Decide` |
| `PathBuilder.AddLocations` | fv/synthlc/xConstructPaths/aggregate_cyccnt_comp_final.py:397-421 | nodes, final nodes and implied edges of the set |
| `PathBuilder.BuildUnsaturated` | fv/synthlc/xConstructPaths/aggregate_cyccnt_comp_final.py:362-463 | the graph before saturation and its concurrent pairs |
| `PathBuilder.BuildSaturated` | fv/synthlc/xConstructPaths/aggregate_cyccnt_comp_final.py:362-500 | the saturated graph |
| `PathBuilder.AddConstraints` | fv/synthlc/xConstructPaths/solver.py:114-218 | asserts exactly the constraints of the reduced edges, weak orders and pairs, and checks them |
| `PathBuilder.Decide` | fv/synthlc/xConstructPaths/aggregate_cyccnt_comp_final.py:362-523 | kept if some timing obeys the candidate; kept only if some timing is consistent with it; exactly if some timing obeys it when no stay is an edge. On the cycles: a kept candidate has a timing with every choice, proven order, weak order, pair, shared register and reduced stay as it should be, and a proper candidate with a timing that also keeps all limits is kept |
| `Synthesis.VerdictsAreFacts` | fv/synthlc/xHBPerfG_dfg_v3_div/xHBPerf_dfg_v3.py:119-161 | if the proven verdicts are right about an execution, the facts between entries hold of it, and all facts do if and only if no pair of which the assertions about final cycles say nothing is out of order |
| `Synthesis.OwnCombination` | fv/synthlc/src/HB_template.py:20-26 | of the combinations over given pairs of entries, the assumptions of exactly the one in its own orders of first entry hold of an execution |
| `Synthesis.RunIsFound` | fv/synthlc/xConstructPaths/solver.py:227-259 | the pruned search emits every product member that is in the order of an execution whose cycles satisfy the base |
| `Synthesis.OwnCombinationKept` | fv/synthlc/xConstructPaths/aggregate_cyccnt_comp_final.py:359-525 | the combination of an execution that satisfies the constraints and goes along dataflow edges is in the product of covered relations and passes cycle test and solver, with every choice of final orders that the execution makes |
| `Synthesis.KeepCandidates` | fv/synthlc/xConstructPaths/aggregate_cyccnt_comp_final.py:359-525 | over all candidates: what some timing obeys, in particular what some execution does, is kept; whatever is kept is consistent with all facts and choices and has a timing with each of them in order; none is kept more often than it came |
| `CollectReEval.BuildWeighted` | fv/synthlc/xCollectReEval/aggregate_cyccnt_comp.py:200-287 | the graph with an edge for every stay, and for every chosen order where there are choices, saturated; its pairs and implied edges |
| `CollectReEval.StaySaturationExact` | fv/synthlc/xCollectReEval/aggregate_cyccnt_comp.py:264-287 | where stays are edges, saturation keeps a timing if and only if it gives no stay touched by a concurrent pair length zero |
| `LostOrders.OneCycleStayLost` | fv/synthlc/xCollectReEval/aggregate_cyccnt_comp.py:264-287 | an execution of which all facts hold, with a one-cycle stay of a location always entered together with another, respects neither the saturated graph nor any constraints the code asserts |
| `RunOrders.RunModels` | fv/synthlc/xCollectReEval/solver.py:98-149 | an execution of which the facts hold, and which makes the choices if there are any, satisfies the constraints if and only if no stay touched by a concurrent pair has one cycle and every reduced edge within one register, other than a stay, is one cycle long |
| `RunOrders.RunPassesAgain` | fv/synthlc/xCollectReEvalLeaveOrder/aggregate_cyccnt_comp.py:287-442 | when the graph is built again with the orders of entry of such an execution, it has no cycle and the constraints, which the code asserts to be satisfiable, are |
| `RunOrders.RespectedIsAcyclic` | fv/synthlc/xCollectReEvalLeaveOrder/aggregate_cyccnt_comp.py:429-431 | stays of length zero never make a cycle: two are never consecutive |
| `RunOrders.AllRunsModel` | fv/synthlc/xCollectReEval/solver.py:98-149 | where there is no such stay and no such edge, every execution of which the facts hold satisfies the constraints |
| `RunOrders.UnlistedIsEntailed` | fv/synthlc/xCollectReEval/aggregate_cyccnt_comp.py:304-335 | an order along a dataflow edge that an execution of that kind has goes unlisted only if the constraints entail it |
| `LostOrders.DetourSkipped` | fv/synthlc/xCollectReEval/solver.py:121-129 | with entries a before b and a before c proven, a and b in one register, and nothing else known, "c before b" is skipped as ruled out, although the constraints are satisfiable |
| `LostOrders.OrderLost` | fv/synthlc/xCollectReEval/solver.py:121-129 | all these facts hold of an execution that enters c before b |
| `OrderLists.OwnOrderListed` | fv/synthlc/xCollectReEval/aggregate_cyccnt_comp.py:325-335 | for an execution that satisfies the constraints, its own order of a listed pair is on the list if and only if it enters both together or in the direction of a dataflow edge |
| `OrderLists.CoversOwnOrder` | fv/synthlc/xCollectReEval/aggregate_cyccnt_comp.py:391-403 | an execution hits the cover property of a relation exactly if that is its own order |
| `OrderLists.CollectRelations` | fv/synthlc/xCollectReEvalLeaveOrder/aggregate_cyccnt_comp.py:218-275 | one factor for each line with a covered relation, in the order of the lines, and no other; it has the covered relations of the line, each once |
| `OrderLists.ChoiceListsFactors` | fv/synthlc/xCollectReEvalLeaveOrder/aggregate_cyccnt_comp.py:265-275 | the same of the lists of choices as a function of the verdicts |
| `OrderLists.OwnInProduct` | fv/synthlc/xCollectReEvalLeaveOrder/aggregate_cyccnt_comp.py:218-279 | the product of covered relations has a combination in the order of an execution if and only if the execution orders every pair with a covered relation along a dataflow edge |
| `OrderLists.OwnUnique` | fv/synthlc/xCollectReEvalLeaveOrder/aggregate_cyccnt_comp.py:270-279 | no second combination of the product is in the order of the execution |
| `LostOrders.AgainstEdgeLost` | fv/synthlc/xCollectReEval/aggregate_cyccnt_comp.py:325-335 | an execution of which all facts and constraints hold, and what it covers was found covered, but which enters a pair against the only dataflow edge, has no combination in the product |
| `CollectReEval.TouchedIsStrict` | fv/synthlc/xCollectReEval/aggregate_cyccnt_comp.py:264-287 | every timing of the saturated graph gives such a stay positive length |
| `PairsTodo.AddFacts` | fv/synthlc/xCollectReEval/solver.py:98-155 | asserts exactly the weighted, +1, strict, weak and equality constraints |
| `PairsTodo.ModelsMeetCycles` | fv/synthlc/xCollectReEval/solver.py:98-155 | the models are exactly the timings with every reduced stay below its limit, every other reduced edge within a register one cycle long, every other reduced edge strict, and all weak orders and pairs |
| `PairsTodo.WeightedMember` | fv/synthlc/xCollectReEval/aggregate_cyccnt_comp.py:200-262 | the edges before saturation: proven inside the set, chosen, implied by a shared register, proven with final cycles, and the stays |
| `PairsTodo.ModelMeets` | fv/synthlc/xCollectReEval/solver.py:98-155 | every model has the proven orders, choices, weak orders, pairs and stays in order, although only the reduction was asserted |
| `PairsTodo.ClosureEntailed` | fv/synthlc/xCollectReEval/aggregate_cyccnt_comp.py:308-310 | the constraints entail strict order for every closure pair of entries |
| `PairsTodo.ConcurrentEntailed` | fv/synthlc/xCollectReEval/aggregate_cyccnt_comp.py:313-315 | the constraints entail equality for every concurrent pair of the set |
| `PairsTodo.IsOpen` | fv/synthlc/xCollectReEval/aggregate_cyccnt_comp.py:304-324 | an edge is skipped exactly if the constraints force its order or rule it out |
| `PairsTodo.ListOpen` | fv/synthlc/xCollectReEval/aggregate_cyccnt_comp.py:303-335 | the strict order of a dataflow edge is listed if and only if it is undecided; each list also has "=", and with distinct edges no relation comes twice |
| `PairsTodo.ReEval` | fv/synthlc/xCollectReEval/aggregate_cyccnt_comp.py:196-335 | the whole pass over one set: cyclic facts, facts that no cycles meet, or a list that has, under the smaller name and the larger, "before" and "after" for exactly the dataflow edges whose order some cycles have and others have not, and "=" with either |
| `PairsTodo.LessIsLexicographic` | fv/synthlc/xCollectReEval/aggregate_cyccnt_comp.py:325-335 | the order of names is lexicographic |
| `SubsetGen.GenComb.GetAllCombination` | fv/synthlc/xPerfLocSubsetDiv/xPerfLocSubsetDiv.py:59-116 | appends exactly what the search emits below the prefix, and restores the prefix |
| `SubsetGen.EmittedExact` | fv/synthlc/xPerfLocSubsetDiv/xPerfLocSubsetDiv.py:59-116 | a list is emitted if and only if it is the ordered subset of its members and the relations allow these |
| `SubsetGen.EmittedOnce` | fv/synthlc/xPerfLocSubsetDiv/xPerfLocSubsetDiv.py:59-116 | no subset is emitted twice |
| `SubsetGen.EmittedInOrder` | fv/synthlc/xPerfLocSubsetDiv/xPerfLocSubsetDiv.py:59-116 | of two emitted sets, the one without the first location in which they differ comes first |
| `SubsetGen.GenComb.MayTake` | fv/synthlc/xPerfLocSubsetDiv/xPerfLocSubsetDiv.py:70-91 | the checks before a location is taken |
| `SubsetGen.GenComb.MaySkip` | fv/synthlc/xPerfLocSubsetDiv/xPerfLocSubsetDiv.py:97-113 | the checks before a location is skipped |
| `SubsetCount.Gen` | fv/synthlc/xPerfLocSubsetDiv/xPerfLocSubsetDiv.py:124-136 | exactly the non-empty ordered subsets that the relations allow, in that order |
| `SubsetCount.Postprocess` | fv/synthlc/xPerfLocSubsetDiv/xPerfLocSubsetDiv.py:162-191 | the checked sets split by verdict |
| `Powersets.CandidatesExact` | fv/synthlc/xPerfLocSubsetDiv/xPerfLocSubsetDiv.py:397 | the powerset lists exactly the non-empty ordered subsets |
| `Powersets.CandidateCount` | fv/synthlc/xPerfLocSubsetDiv/xPerfLocSubsetDiv.py:397-414 | there are 2^n - 1 of them |
| `Powersets.PowersetOnce` | fv/synthlc/xPerfLocSubsetDiv/xPerfLocSubsetDiv.py:397 | none of them comes twice |
| `SubsetCount.SurvivorEmitted` | fv/synthlc/xPerfLocSubsetDiv/xPerfLocSubsetDiv.py:413-456 | whatever survives the brute-force filter was emitted by the pruned generator |
| `SubsetCount.EmittedSurvives` | fv/synthlc/xPerfLocSubsetDiv/xPerfLocSubsetDiv.py:413-456 | the exact condition under which an emitted set is pruned by the filter |
| `SubsetCount.GeneratorIsFilter` | fv/synthlc/xPerfLocSubsetDiv/xPerfLocSubsetDiv.py:50-456 | if what is always reached is coverable, no coverable location excludes itself, and undetermined conclusions come after their premises, the non-empty emitted sets are exactly the survivors of the powerset |
| `SubsetCount.EmittedAndPruned` | fv/synthlc/xPerfLocSubsetDiv/xPerfLocSubsetDiv.py:97-113 | a concrete set that is emitted and pruned |
| `SubsetCount.ClassesAddUp` | fv/synthlc/xPerfLocSubsetDiv/xPerfLocSubsetDiv.py:400-471 | every candidate is in exactly one class |
| `SubsetCount.CountSets` | fv/synthlc/xPerfLocSubsetDiv/xPerfLocSubsetDiv.py:391-471 | the final assertion is passed if and only if every non-empty subset that fits all relations is on a list of checked sets; then the five counts are the sizes of the sets of those that break a proven relation, those that break only an undetermined one, and those that fit all by the first list they are on, and add up to 2^n - 1 |
| `SubsetCount.Pipeline` | fv/synthlc/xPerfLocSubsetDiv/xPerfLocSubsetDiv.py:124-471 | generator, verdicts and count in a row never reach the final assertion, whatever the verdicts; each count is the number of subsets that fit all relations and have that verdict, or that break a relation |
| `StateEnum.CountStates` | fv/xDUVPLs/gen.py:50-55 | the number of valuations of the free fields |
| `StateEnum.RealSteps` | fv/xDUVPLs/gen.py:65-66 | real remainder and quotient, truncated, are the integer ones |
| `StateEnum.Decode` | fv/xDUVPLs/gen.py:61-69 | the printed values are the mixed-radix digits of the index |
| `StateEnum.Postprocess` | fv/xDUVPLs/gen.py:60-78 | state i of the block, for every i from 1 up to the total: a free field has i divided by the number of states of the fields after it, modulo 2^width, a fixed field its value |
| `StateEnum.DigitAt` | fv/xDUVPLs/gen.py:61-69 | the value of each field in closed form, first field most significant |
| `StateEnum.DigitsRoundTrip` | fv/xDUVPLs/gen.py:60-69 | every index is recovered from its values, which are a valuation |
| `StateEnum.NumberRoundTrip` | fv/xDUVPLs/gen.py:60-69 | every valuation is that of an index |
| `StateEnum.StatesExact` | fv/xDUVPLs/gen.py:60-69 | indices from 1 up stand one to one for the valuations other than all free fields zero |
| `StateEnum.StatesExclude` | fv/xDUVPLs/gen.py:74-76 | two states of a block never hold in the same cycle |
| `FollowerSets.ReadLines` | synthlc_full/src/util.py:12-38 | the tables hold for each named location exactly the sets listed under it, once each, and their union; fails exactly where a set comes first |
| `FollowerSets.Prune` | synthlc_full/src/util.py:42-53 | the kept sets, in order |
| `FollowerSets.KeptMember` | synthlc_full/src/util.py:44-53 | a set is kept if and only if it is empty or in no other set |
| `FollowerSets.KeptOnce` | synthlc_full/src/util.py:44-53 | and once, if it was read once |
| `FollowerSets.ReadUnderIs` | synthlc_full/src/util.py:12-38 | a set belongs to the last location named before it |
| `FollowerSets.KeptAntichain` | synthlc_full/src/util.py:44-53 | non-empty kept sets do not contain one another, and the empty set is kept if and only if it was read |
| `FollowerSets.KeptCovers` | synthlc_full/src/util.py:44-53 | every non-empty set is contained in a kept one |
| `FollowerSets.KeptUnion` | synthlc_full/src/util.py:41-55 | the kept sets still add up to all followers |
| `FollowerSets.GetDecisions` | synthlc_full/src/util.py:7-55 | for every named location the maximal sets listed below its name, each once, and all its followers; fails exactly where a set comes before any name |

## Left out

- 64-bit wrap-around of order stamps, counters and addresses: all are unbounded naturals.
- Rounding of floating point in `StateEnum`: division is that of reals, so indices of 2^53 and above, where Python rounds, are not covered as Python computes them.
- CacheCore.CacheAssoc.FindLine: takes the tag, not the address; `LiveCache.Read` and `LiveCache.Write` compute it.
- CacheCore.CacheAssoc.constructor: requires the ways to be a power of two, as the comment at line 164 of `LiveCacheCore.h` demands and the code does not check; `CacheCore.OddWaysOverrun` shows what happens otherwise.
- Execution.RunIsKept: takes chosen orders that involve a final cycle as given, because the assumption templates for final cycles are not complements of each other. Proven facts about final cycles are derived in `LeavingFacts`.
- Synthesis.OwnCombinationKept: does not cover that path construction passes over combinations without open final orders, and those for which the cover property of the set was not found covered (`aggregate_cyccnt_comp_final.py`, lines 280-292 and 344-346).
- PathBuilder.Decide: without the condition on stays the two directions have different timings, because the code bounds a stay only where it is an edge of the reduction.
- The direct-mapped cache and the RANDOM and LRUp policies, which `LiveCache` never selects.
- The statistics that the destructor of the cache prints.
- The assumption, cover and one-cycle templates for final cycles in `HB_template.py`; of the weak orders of final cycles, which no graph uses, nothing is stated. Before the first cycle signals are taken to be low and registers clear.
- OrderLists.CollectRelations: builds a list where the code fills a dictionary by pair; the pairs of the file are distinct. The relations that involve final cycles, which the code lists and collects in the same way, are not modelled.
- The internals of cvc5 and networkx: satisfiability is a parameter, closure and reduction are by definition. The temporary variables of the stay constraints are eliminated.
- The bookkeeping of solver variables, and a stay limit of zero, on which the code asserts: the model has an unsatisfiable constraint there.
- `edge_weight_single`, which is always empty, and node colours.
- A coverable location with a proven implication whose conclusion is not coverable, on which `GenComb` raises a KeyError; `WellFormed` excludes it.
- The names and signal lists of states, and the assertion text written for them.
- Splitting of lines and of the `___final` suffix in follower files, and the per-line format of `get_decision_dic_pp_file`; `get_decision_dic_iso` differs only in a renaming.
- The isomorphic count in `xPerfLocSubsetDiv`, and the copies of the graph builder in `xSummarize`.
- All files, tables, plots, process pools and calls of the model checker: their results are inputs.
