# Verified models of carmel, forest-em, gextract, sblm, utf8 and util

The project models the algorithms of the toolkit that make claims about whole sets of paths, derivations, samples or texts, and
proves those claims for all inputs. Programs that change things in place are methods over arrays, or over class fields that hold
sequences and maps; each is proved against a specification, and the lemmas are about the specification. Weights are non-negative
reals unless said otherwise, a path is the sequence of positions of its arcs in the arc lists, so that parallel arcs stay
distinct, and hash tables are maps.

- **Composition** (`Filter`, `Composition`, `Worklist`, `Compose`, `Finals`). The filter is a system of moves between keys: a
  triple (state of a, state of b, filter state), a mediate state, or the sink. A composed transducer is complete if the arcs of
  each state are exactly those of its key's moves. `Compose` is the worklist with its three index branches and the -a branch; it
  makes complete compositions. `Composition` and `Filter` prove that in any complete composition the accepting paths are, one to
  one, the matching pairs of accepting paths of a and b, with a's input, b's output and the product of the weights. This holds
  for both filters, so the two agree path for path; the doubt noted at carmel/src/compose.cc:225 does not come from composition.
- **Cascades** (`Chains`, `Cascades`, `Reweighing`, `Recomposing`, `CascadeRuns`). Chains of original arcs behind composed arcs:
  weights after composing, the counts handed back to the originals, and weights after update() against composing again, through
  the program's own loop, which reduces each result and drops the chains no longer in use.
- **Derivation forests** (`Forests`, `ForestSums`, `ForestLists`, `ForestOutside`, `ForestEm`, `ForestViterbi`, `ForestWriting`).
  Derivations are trees. Inside, outside, expected counts with the spill table, Viterbi and sampling are proved against sums, maxima and
  membership over the exact, duplicate-free list of derivations. `ForestText`, `ForestParse` and `ForestReaders` print and read.
- **Derivation lattices** (`Lattices`, `Walks`, `Derivations`, `Pruning`). The depth-first product of input, transducer and output, whose
  marks are sound while successors may still be on the stack, and the in-place pruning.
- **Clean-up** (`GraphSearch`, `Trimming`, `Reducing`, `PathPruning`) and the **permutation lattice** (`Permutations`).
- **GHKM frontier and Gibbs bookkeeping** (`Frontier`, `Translations`, `RuleCounts`, `ClosureSpans`).
- **Alias table** (`AliasTable`), **back-off n-grams** (`SetSums`, `Ngrams`, `NgramTraining`, `NgramUndoing`), **UTF-8 and UTF-16**
  (`Utf8Core`, `Utf8`, `Utf8Texts`, `Utf16`; RFC 3629 and RFC 2781), **union-find** (`UnionFind`).

Where the code keeps less than one might expect, the model follows the code, and the exact condition is proved:

- `prunePaths` prunes nothing, whatever the ratio, if no accepting path has a weight other than 0: the best cost is then infinite
  and nothing is above it (`PathPruning.UnreachedStays` is such a run). It leaves only what is on an accepting path within the
  ratio exactly if there is an accepting path of another weight, or all states and arcs are on accepting paths anyway
  (`PathPruning.OnlyGoodKeptExactly`).
- With epsilon cycles the lattice's "removed" marks miss states that cannot reach the goal, and a pruned lattice can keep them
  (`Derivations.DeadLoopStays`). The marks are exactly the states that reach neither the goal nor a cycle
  (`Derivations.MarksExactly`), and those are exactly the states that pruning takes out (`Derivations.Derivation.Compute`).
- `uninterp` fails if a context was entered with count 0 above the unigrams (`NgramUndoing.ContextMissing` is such a run): after
  training it succeeds exactly if each gram of order 2 and up was counted and so was each context of two words or more (`NgramUndoing.TrainAndUndo`),
  as is always so when texts are counted from their start (`NgramUndoing.TextsAreUndone`).
- The two forest readers differ. The first one keeps the end of its space in node 0, so that closing a parenthesis opened there
  ends the space: it fails on every text in which two parentheses open node 0 (`ForestReaders.RootTwiceDiffers`), and on "()1"
  (`ForestReaders.EmptyParensDiffer`). On all texts without empty parentheses its result is given exactly
  (`ForestReaders.ReadersAgree`); printed texts are among those on which the two agree.
- `indexBy` keeps an index of either direction. `Compose.SetCompose` assumes that the operands have none of the wrong one, as
  when they are two objects that were not composed the other way round before, and as the program asserts
  (carmel/src/compose.cc:284, 304, 356, 368). With one object as both operands a match is lost (`Compose.SharedIndexLoses`);
  `Compose.OtherIndexServes` says exactly when it does not matter.
- `replace_invalid` throws where the text ends in a sequence that is cut short (`Utf8Texts.ReturnsExactly`).

`dafny verify dfyconfig.toml` checks the project.

## Model

| member | source | states |
|---|---|---|
| `Compose.SetCompose` | carmel/src/compose.cc:163-533 | Where an arc found in an index under a letter reads it, as asserted at lines 284, 304, 356 and 368 (no state of a has an index by input from before, and none of b one by output): the result is usable exactly if some accepting path of a writes what some accepting path of b reads; then every state has exactly the arcs that the filter allows, with their labels, weights and groups (from which the path theorems follow). An unusable operand makes it unusable. Chains already recorded stay |
| `Composition.CompositionSound` | carmel/src/compose.cc:315-529 | Every accepting path of the result comes from one accepting path of a and one of b, the first writing what the second reads; it reads what the first reads, writes what the second writes and weighs their product |
| `Composition.CompositionComplete` | carmel/src/compose.cc:315-529 | Every matching pair of accepting paths gives an accepting path of the result |
| `Composition.CompositionUnique` | carmel/src/compose.cc:317-323 | ... and only one: the filter lets each pair through in a single way |
| `Composition.CompositionsAgree` | carmel/src/compose.cc:219-225 | Composing with the 2-state filter and shared mediate states and composing with the 3-state filter give, path for path, the same strings and weights; so does any other pair of runs, whatever index branches they took and whether finals were joined |
| `Composition.StatesBounded` | carmel/src/compose.cc:190-191 | The 3-state filter makes at most three states for each pair of states, and perhaps a sink |
| `Filter.RunMatches` | carmel/src/compose.cc:315-323 | Along any run of either filter, what a writes is what b reads, but for the letter that a mediate state still hides |
| `Filter.RunWeights` | carmel/src/compose.cc:340-373 | The weights of the composed arcs multiply to the product of the weights of the two paths |
| `Filter.RunIsMerge` | carmel/src/compose.cc:317-323 | An accepting run is the one that the filter makes of the two paths it projects to: no second run has the same projections |
| `Filter.MergeAccepts` | carmel/src/compose.cc:317-323 | For every matching pair that the filter state does not forbid, that run exists and is accepting |
| `Compose.ComputeMap` | graehl/shared/strhash.h:253-256 | Each symbol of one alphabet gets the index of the same symbol in the other, or ~0 if there is none |
| `Compose.IndexBy` | carmel/src/state.h:158-199 | A state that has an index keeps it, whichever direction it is for; otherwise the index lists, under each label, exactly the positions of the arcs that carry it, each once |
| `Compose.OtherIndexServes` | carmel/src/state.h:165-186 | An index kept from the other direction serves exactly if every arc of the state reads what it writes |
| `Compose.SharedIndexLoses` | carmel/src/state.h:165-186 | One object as both operands, indexed by output and then asked for an index by input: an arc that matches is not listed under the letter, and the one that is listed does not match |
| `Compose.Composer.ComposeArc` | carmel/src/compose.cc:128-141 | One more arc, in front, for one more allowed move of the source; a triple not met before gets the next number and is queued; all that was built stays right |
| `Compose.Composer.ExpandPlain` | carmel/src/compose.cc:445-497 | Without an index: afterwards the state has an arc for each allowed pairing and for nothing else |
| `Compose.Composer.ExpandIndexRight` | carmel/src/compose.cc:338-389 | With the right state indexed: exactly the same arcs |
| `Compose.Composer.ExpandIndexLeft` | carmel/src/compose.cc:390-443 | With the left state indexed: exactly the same arcs |
| `Compose.Composer.Expand` | carmel/src/compose.cc:329-337 | Whichever branch the sizes select, the state gets exactly the arcs that the filter allows |
| `Compose.Composer.HalfArc` | carmel/src/compose.cc:261-296 | A first half of a matched pair goes to the mediate state of its destination and letter, made and filled if there is none yet |
| `Compose.Composer.FillMediate` | carmel/src/compose.cc:275-289 | A new mediate state gets exactly the arcs of b that read its letter |
| `Compose.Composer.ExpandGroups` | carmel/src/compose.cc:235-312 | The -a branch: a triple gets exactly the arcs that the 2-state filter allows |
| `Compose.Composer.RunWorklist` | carmel/src/compose.cc:324-499 | The worklist ends, and then every state that was reached has all its arcs |
| `Compose.Composer.TriosBounded` | carmel/src/compose.cc:190-191 | The triples that were named are among the three there are for each pair of states, which is why the worklist ends |
| `Compose.MergeFinals` | carmel/src/compose.cc:503-529 | With no filter final there is no matching pair and the result is invalid; one becomes the final state; several get an empty arc of weight 1 and locked group to a new one; what remains is a complete composition |
| `Finals.NoFinalNoPair` | carmel/src/compose.cc:515-518 | If no final triple was reached, no pair of accepting paths matches |
| `Finals.FinalHasPair` | carmel/src/compose.cc:503-514 | A final triple that was reached shows a matching pair |
| `Finals.OneFinal` | carmel/src/compose.cc:508-514 | With a single filter final as final state, the composition is complete |
| `Finals.ManyFinals` | carmel/src/compose.cc:519-528 | Joining the filter finals to a sink keeps the composition complete: no path is lost or doubled |
| `Finals.ManyFinalsGrouped` | carmel/src/compose.cc:526-527 | The joining arcs have the group whose chain is empty, so that training cannot change them |
| `Cascades.Cascade.ConsChain` | carmel/src/cascade.h:511-559 | The chain of a pair is the operands' chains, joined in the order the associativity gives; an original locked with weight 1 adds nothing |
| `Cascades.Cascade.RecordEps` | carmel/src/cascade.h:573-586 | An arc taken alone gets a chain id whose chain is the arc's own; the hash of such arcs only ever gives that id; chains already made stay |
| `Cascades.Cascade.Record` | carmel/src/cascade.h:588-599 | A pair gets a chain id whose chain joins those of both |
| `Cascades.Cascade.LockedOneGroup` | carmel/src/cascade.h:567 | The group of joining arcs has the empty chain |
| `Cascades.Cascade.CalculateChainWeights` | carmel/src/cascade.h:420-433 | Each chain's weight is the product of the current weights along it |
| `Cascades.Cascade.Update` | carmel/src/cascade.h:466-479 | Every composed arc gets the product of the current weights over its chain; nothing else about the composed transducer changes; nothing happens to a trivial cascade |
| `Cascades.Cascade.ClearCounts` | carmel/src/cascade.h:281-284 | Unlocked originals go to 0, locked ones keep their weights |
| `Cascades.Cascade.DistributeCounts` | carmel/src/cascade.h:286-325 | Each unlocked original ends with the sum, over the composed arcs, of count times the number of times the original is in the arc's chain, which is 0 where no arc has a count; locked ones keep their weights |
| `Cascades.DistributeMore` | carmel/src/cascade.h:312-325 | Two runs that differ by d in the count of any one arc: each unlocked original differs by d times its multiplicity in the chain of that arc |
| `Reweighing.OneCountsMore` | carmel/src/cascade.h:312-325 | ... as a law of the sum over all arcs of all states |
| `Reweighing.ChainCountIsMultiplicity` | carmel/src/cascade.h:286-295 | What one chain gives to an original is its count times the multiplicity of the original in it |
| `Reweighing.ChainWeightJoined` | carmel/src/cascade.h:544-559 | Joining two chains multiplies their weights, in whatever order the arcs were consed |
| `Reweighing.MoveChainWeight` | carmel/src/cascade.h:414-433 | The weight that composing again gives an arc, with new weights in the originals, is the product over the old chain |
| `Reweighing.UpdateRealizes` | carmel/src/cascade.h:466-479 | One level: the updated transducer is a complete composition of the reweighted operands |
| `Cascades.FindUsed` | carmel/src/cascade.h:605-615 | Removed are exactly the chains, other than the nil chain, that no composed arc has |
| `Pruning.DoMoves` | graehl/shared/indices_after.hpp:200-209 | What is kept moves down to its new place, in place and in order, and the rest is cut off |
| `Cascades.Cascade.CompressChains` | carmel/src/cascade.h:634-645 | Every composed arc keeps its chain, and all else but the number of the chain; no chain is left, but for the nil chain, that no arc has |
| `Cascades.Cascade.DoneComposing` | carmel/src/cascade.h:660-665 | Every arc of the composed transducer has the chain it had, whether or not chains are compressed; a trivial cascade takes it as it is |
| `Recomposing.ComposedWeightIsChainProduct` | carmel/src/cascade.h:544-599 | After any nesting of compositions, with states and arcs taken out and chains compressed in between, each composed arc's weight is the product over its chain |
| `Recomposing.UpdateIsRecompose` | carmel/src/cascade.h:466-479 | Whole cascade: updating after reweighting the unlocked originals gives, at every level, what composing again from those originals and taking out the same states and arcs gives |
| `Recomposing.UpdatedIsRecomposed` | carmel/src/cascade.h:466-479 | ... also for the transducer at hand, whose chains have been compressed since |
| `CascadeRuns.ComposeNext` | carmel/src/cascade.h:489-504 | One more transducer composed on the left or on the right: the cascade of those done so far grows by it, or nothing matches it and the cascade stays |
| `CascadeRuns.Shrink` | carmel/src/carmel.cc:665-684 | What is left of a transducer that accepts something is never nothing: exactly its useful states and arcs, or all of it with -d, accepting the same pairs of strings; whether the numbers of states or arcs changed |
| `CascadeRuns.NumArcsCounts` | carmel/src/fst.h:1156-1161 | The number of arcs is the number of pairs of a state and a position in its list |
| `CascadeRuns.ComposeTurn` | carmel/src/carmel.cc:1306-1354 | One turn of the main loop, composing, shrinking and perhaps compressing: the cascade grows by one transducer, or nothing matches it |
| `CascadeRuns.ComposeCascade` | carmel/src/carmel.cc:1300-1356 | The main loop, left- or right-associated: its result is the top of a cascade whose leaves are the transducers in order and from which only what no accepting path uses, and empty loops, has been taken out; or it stops where nothing matches |
| `CascadeRuns.UpdateCascade` | carmel/src/cascade.h:466-479 | After the loop and any retraining of the originals, update() gives the transducer that the loop gives from the retrained originals, up to the numbers of chains |
| `ForestEm.Forest.InsideRec` | forest-em/forest.hpp:636-697 | Each node below gets the sum over its derivations of the products of their rule weights; the links to children are queued below-first |
| `ForestEm.Forest.ComputeInside` | forest-em/forest.hpp:339-344 | ... for the whole forest |
| `ForestSums.InsideNode` | forest-em/forest.hpp:642-679 | The sum over derivations, and the sum of weight times uses of a rule, at a reference, an OR and an AND node in terms of the children's |
| `ForestLists.DerivsExact` | forest-em/forest.hpp:636-697 | The list summed over holds the derivations of the node and nothing else |
| `ForestLists.DerivsDistinct` | forest-em/forest.hpp:636-697 | ... each of them once |
| `Forests.UsesCountsRules` | forest-em/forest.hpp:425-438 | The uses of a rule are its multiplicity among the rules of the derivation |
| `Forests.WeightIsProduct` | forest-em/forest.hpp:642-679 | The weight of a derivation is the product of the weights of its rules |
| `ForestEm.Forest.RecordLinks` | forest-em/forest.hpp:680-694 | The links of one parent, references resolved, are queued in order |
| `ForestOutside.OrderIsOk` | forest-em/forest.hpp:501-505 | The recorded links are sorted by parents that close in order, and each child closes before its parent |
| `ForestOutside.OrderTopological` | forest-em/forest.hpp:501-505 | Read backwards the order is topological: no later link leaves a node whose outside value was already passed on |
| `ForestOutside.PotentialStep` | forest-em/forest.hpp:459-486 | Passing one link's share on keeps the potential: outside times the uses of a rule that are still to be passed on, summed over all nodes |
| `ForestOutside.PotentialStart` | forest-em/forest.hpp:452-456 | At the start the potential, times the inside weight of the root, is the sum over derivations of weight times uses |
| `ForestOutside.PotentialEnd` | forest-em/forest.hpp:425-438 | At the end the potential is what the nodes of the rule contribute: inside times outside |
| `ForestEm.Forest.ComputeNormOutside` | forest-em/forest.hpp:439-491 | Fails, changing nothing, exactly when the root has no inside weight; otherwise every rule's expected uses are accounted for by inside times outside |
| `ForestEm.Forest.Accumulate` | forest-em/forest.hpp:378-394 | A count and what spilled over from it together grow by exactly the product, whether or not the count is near its limit; other rules' do not change |
| `ForestEm.Forest.VisitInsideNormOutside` | forest-em/forest.hpp:425-438 | Every AND node adds inside times outside to its own rule, and nothing else is added |
| `ForestEm.Forest.CollectCounts` | forest-em/forest.hpp:416-419 | inside[0] times the count collected for a rule is the sum over all derivations of weight times uses of the rule |
| `ForestEm.Forest.FinishCounts` | forest-em/forest.hpp:402-406 | Spilled counts go back where they came from, and none is left |
| `ForestEm.Forest.ExpectedCounts` | forest-em/forest.hpp:401-491 | All passes together: the weight of the forest times what is added to a rule's count is the sum over the derivations of weight times uses, with sharing, repeated children and zero weights; a forest without weight changes no count |
| `ForestViterbi.BestIsBound` | forest-em/forest.hpp:514-574 | No derivation outweighs the best weight |
| `ForestViterbi.Viterbi.ComputeViterbi` | forest-em/forest.hpp:513-574 | inside[j] is the greatest weight of a derivation of j, and viterbi[j] a child of an OR node that has it |
| `ForestViterbi.Viterbi.ViterbiRec` | forest-em/forest.hpp:514-574 | ... for one subforest, leaving the rest alone |
| `ForestViterbi.Viterbi.WriteViterbi` | forest-em/forest.hpp:586-633 | What is written is inside[0], a blank, and the text of a derivation of that weight that no derivation outweighs: the rule numbers in the text are the rules of the derivation in preorder, and reading the text gives the rules back with their bracketing |
| `ForestWriting.ShownIds` | forest-em/forest.hpp:603-633 | The rule numbers in the text of a derivation are its rules in preorder |
| `ForestWriting.ShownReadsBack` | forest-em/forest.hpp:603-633 | The text determines the rules of the derivation and how they are bracketed: reading it gives both back |
| `ForestViterbi.Viterbi.ChooseRandom` | forest-em/forest.hpp:726-758 | Whatever the draws, the rules recorded are the preorder rules of some derivation of the node |
| `ForestText.AssignBackrefIds` | forest-em/forest.hpp:246-254 | Nodes that are referred to get distinct positive ids, others 0 |
| `ForestText.Print` | forest-em/forest.hpp:270-322 | The text of the forest: marks, parentheses, labels and references, a parenthesis closing where its node ends |
| `ForestParse.SpaceReader.Read` | forest-em/forest.hpp:115-128 | Reads into the space what the reading function says, node for node, or fails where it fails. The space ends where node 0 says, and a parenthesis that is closed at node 0 moves that; a full space and truncated text are failures |
| `ForestParse.SpaceReader.Turn` | forest-em/forest.hpp:158-234 | One turn of the loop, on the state of the reader: the same branches, the same failures |
| `ForestParse.SpaceRoundTrip` | forest-em/forest.hpp:135-322 | Whatever was in the space, all of it to be used, reading a printed forest gives back its nodes: labels, ends and reference targets; one unused node is needed |
| `ForestReaders.Read` | forest-em/forest.hpp:924-1034 | The reader that takes nodes from an allocator, the same way |
| `ForestReaders.AllocRoundTrip` | forest-em/forest.hpp:924-1034 | It, too, gives back every printed forest |
| `ForestReaders.ReadersAgree` | forest-em/forest.hpp:135-242 | The exact result of the first reader on every text without empty parentheses: what the other one reads, if one parenthesis at most opens node 0 and a node is left over (or the forest is a single number); otherwise it fails |
| `ForestReaders.RootTwiceFails` | forest-em/forest.hpp:159-163 | If two parentheses open node 0 the first reader fails, whatever the text |
| `ForestReaders.RootTwiceDiffers` | forest-em/forest.hpp:224-227 | On ((1)2), in any space, it fails, and the other one finds two nodes |
| `ForestReaders.TextFilled` | forest-em/forest.hpp:270-322 | Printed text never has empty parentheses |
| `ForestReaders.EmptyParensDiffer` | forest-em/forest.hpp:224-227 | On ()1, in any space, the first reader fails, and the other is done with no nodes |
| `Derivations.BuildIndex` | carmel/src/derivations.h:142-155 | Per state and pair of labels, the ids of exactly the arcs that leave it with them, in order |
| `Lattices.ReachesIsYield` | carmel/src/derivations.h:640-676 | Product paths to the goal are exactly the transducer's accepting paths that read and write what is left of the two strings |
| `Lattices.LatticeIsYields` | carmel/src/derivations.h:479-513 | The start-to-goal paths of an exact lattice are, one for one, the transducer's accepting paths that yield the two strings |
| `Walks.AliveGoesOn` | carmel/src/derivations.h:686-700 | States that each have an arc to another of them, or are the goal, lead to the goal or round a cycle |
| `Derivations.Derivation.AddArcs` | carmel/src/derivations.h:678-704 | After trying one class of arcs, each of them is stored, or ends in a state marked removed; "reached" says whether any was stored |
| `Derivations.Derivation.Derive` | carmel/src/derivations.h:640-676 | Entering a state explores it once; if the goal can be reached from it, it is never marked removed, unless it is still on the stack |
| `Derivations.RemovedIsHopeless` | carmel/src/derivations.h:669-675 | A state marked removed cannot reach the goal, by any path, epsilon cycles included |
| `Derivations.FinishedArcs` | carmel/src/derivations.h:686-700 | No stored arc ends in a state marked removed, and removed states are those with no arcs other than the goal |
| `Derivations.FinishedExact` | carmel/src/derivations.h:640-704 | Before pruning: start-to-goal paths of the lattice are exactly those of the product, arc for arc |
| `Derivations.GoalIsMet` | carmel/src/derivations.h:493-494 | The goal has a number if it can be reached from a state that was met |
| `Derivations.GoalIsReached` | carmel/src/derivations.h:493-494 | The goal has a number exactly if some path yields the two strings |
| `Derivations.MarksExactly` | carmel/src/derivations.h:669-675 | A state is marked removed exactly if it can reach neither the goal nor a cycle |
| `Derivations.AcyclicMarksExactly` | carmel/src/derivations.h:669-675 | Where no cycle is ahead, and so on acyclic products, removed is exactly unable to reach the goal |
| `Derivations.NamesExact` | carmel/src/derivations.h:640-676 | The search meets exactly the product states that walks from the start lead to |
| `Derivations.TightExactly` | carmel/src/derivations.h:572-629 | After pruning every state reaches the goal, exactly if no state that is met and cannot reach it leads to a cycle |
| `Derivations.DeadLoopStays` | carmel/src/derivations.h:479-513 | A run of compute, with the goal reached, whose pruned lattice keeps a state that cannot reach it: one with an empty arc to itself |
| `Derivations.Derivation.Compute` | carmel/src/derivations.h:479-513 | True exactly if some path yields the strings; then the lattice, pruned or not, has exactly the product's paths to the goal; its states are exactly those that walks from the start lead to, less, if pruned, those that reach neither the goal nor a cycle; pruned, only the goal has no arcs; otherwise the lattice is empty |
| `Derivations.Derivation.Prune` | carmel/src/derivations.h:572-629 | Exactly the states that reach neither the goal nor a cycle go; no path is lost, and no state but the goal is left without arcs |
| `Pruning.NewIndices` | graehl/shared/indices_after.hpp:76-93 | Kept states are numbered in order, others get -1; the number kept is returned |
| `Pruning.Rewrite` | graehl/shared/graph.h:328-344 | Arcs into dropped states go, the others are renumbered |
| `Pruning.ShuffleRemoving` | graehl/shared/array.hpp:70-92 | In place, by swaps: the kept states in order, rewritten |
| `Pruning.PrunedExact` | carmel/src/derivations.h:612-628 | Pruning marked states that no arc ends in keeps the lattice exact |
| `Pruning.PrunedArcs` | carmel/src/derivations.h:612-628 | ... and leaves no state but the goal without arcs |
| `Reducing.RenumberDestinations` | carmel/src/state.h:300-311 | Arcs into removed states go, the others are renumbered, order kept |
| `Reducing.RemoveMarkedSwap` | graehl/shared/array.hpp:53-68 | In place, by swaps: the unmarked states, in order |
| `Reducing.RemoveMarkedStates` | carmel/src/fst.cc:530-545 | The unmarked states in order, their arcs to unmarked states renumbered; the final state is renumbered or becomes invalid |
| `Reducing.RemoveEpsilonsTo` | carmel/src/state.h:278-287 | Exactly the arcs that read nothing, write nothing and lead back go, and the others stay as often as they occur |
| `GraphSearch.ReverseGraph` | graehl/shared/graph.cc:40-72 | An arc from r to q exactly where there was one from q to r |
| `GraphSearch.DfsRec` | graehl/shared/graph.cc:78-90 | Marks the state; marks only states that it leads to; what is newly marked has its successors marked |
| `GraphSearch.DepthFirstSearch` | graehl/shared/graph.cc:31-38 | From no marks: exactly the states that the start leads to are marked |
| `Reducing.Reduce` | carmel/src/fst.cc:468-524 | Something is left exactly if the transducer accepts something; then exactly the states on some accepting path and their arcs to such states, without those that read and write nothing and lead back; for all strings x and y, what is left reads x and writes y exactly if the transducer did |
| `Reducing.UsefulEnds` | carmel/src/fst.cc:491-496 | Start and final state are on an accepting path exactly if there is one; else nothing is |
| `Reducing.ReductionKeepsPaths` | carmel/src/fst.cc:468-524 | An accepting path is kept exactly if it takes no empty loop |
| `Reducing.ReductionKeepsStrings` | carmel/src/fst.cc:468-524 | Some accepting path of what is left reads x and writes y exactly if some accepting path did before |
| `Reducing.ErasedLoops` | carmel/src/state.h:278-287 | Of the arcs between states that stay, exactly those are erased that read and write nothing and return to their own state |
| `Trimming.ImageIsPath` | carmel/src/fst.cc:530-545 | A path of kept arcs is still a path after renumbering, with its ends, strings and weights |
| `Trimming.ImageDetermines` | carmel/src/fst.cc:530-545 | Distinct kept paths stay distinct |
| `Trimming.PathHasOrigin` | carmel/src/fst.cc:530-545 | Every path that is left comes from a kept one |
| `Trimming.TrimmedPaths` | carmel/src/fst.cc:530-545 | One to one, with strings and weights: accepting paths of kept arcs, and accepting paths of what is left |
| `PathPruning.EraseArcs` | carmel/src/fst.cc:434-441 | Exactly the arcs go whose best path costs more than allowed; order kept |
| `PathPruning.MarkAndErase` | carmel/src/fst.cc:422-448 | A state is marked exactly if its best path costs more than allowed; the arcs of the others are erased as above |
| `PathPruning.PrunePaths` | carmel/src/fst.cc:382-466 | The states and arcs left are exactly those whose best paths are within the ratio of the best |
| `PathPruning.PruningKeepsGoodPaths` | carmel/src/fst.cc:382-466 | Every accepting path within the ratio of the best is kept |
| `PathPruning.KeptIsOnGoodPath` | carmel/src/fst.cc:382-466 | If some accepting path has a weight other than 0, every state and every arc that is left is on an accepting path within the ratio |
| `PathPruning.NothingAcceptedNothingPruned` | carmel/src/fst.cc:408-409 | The best cost is finite exactly in that case; in the other case no state and no arc is pruned at all |
| `PathPruning.OnlyGoodKeptExactly` | carmel/src/fst.cc:382-466 | Only states and arcs on accepting paths within the ratio are left, exactly if some accepting path has a weight other than 0 or every state and every arc is on an accepting path |
| `PathPruning.UnreachedStays` | carmel/src/fst.cc:382-466 | A run on two states without arcs, the second one final: both are left, though no path reaches the second |
| `PathPruning.SameBest` | carmel/src/fst.cc:410 | The asserted equality: the best cost is the same from either end |
| `PathPruning.NowhereIsFree` | carmel/src/fst.cc:406-407 | Where shortest distances exist, going nowhere costs 0 |
| `PathPruning.OneArcCost` | carmel/src/fst.cc:403-406 | A path of one arc costs what the arc does, an empty one nothing |
| `PathPruning.JoinCost` | carmel/src/fst.cc:403-406 | Costs add along a path |
| `Permutations.PermutationLattice` | carmel/src/wfstio.cc:233-247 | 2^n states, the last of them final and bare; each other mask has one arc for each distinct word not in it |
| `Permutations.StateArcs` | carmel/src/wfstio.cc:237-246 | The arcs of one mask: each takes an untaken word, and each untaken word is taken by one arc, repeats by the first only |
| `Permutations.FreeIsBit` | carmel/src/wfstio.cc:243 | The division that the program does tests whether a word is in the mask |
| `Permutations.PathTakesRest` | carmel/src/wfstio.cc:233-247 | A path to the final state takes exactly the words, with multiplicity, that are not in the mask |
| `Permutations.RestHasPath` | carmel/src/wfstio.cc:233-247 | Every ordering of those words labels such a path |
| `Permutations.LabelsDetermine` | carmel/src/wfstio.cc:242-246 | Paths with the same words are the same path |
| `Permutations.AcceptsReorderingsOnce` | carmel/src/wfstio.cc:233-247 | The lattice accepts exactly the reorderings of the line, repeats allowed, each by exactly one path, of weight 1 |
| `Frontier.SpanCover` | gextract/graehl.py:1725-1731 | The span covers both of its arguments |
| `Frontier.CoverIsLeast` | gextract/graehl.py:1725-1731 | ... and is within every span that does |
| `Frontier.ChildrenCovered` | gextract/gextract.py:525-531 | The span folded over n children reaches from their least start to their greatest end |
| `Frontier.HullIsLeast` | gextract/graehl.py:1725-1731 | ... so that it covers each of them and lies within every span that does |
| `Frontier.SpanIsWordsHull` | gextract/gextract.py:520-532 | Every node has the span from the least to the greatest foreign position of the words under it |
| `Frontier.WordsInOrder` | gextract/gextract.py:522-531 | Words go to the leaves from left to right |
| `Frontier.WordHasLeaf` | gextract/gextract.py:522-531 | ... and each word to one |
| `Translations.Translation.SetSpans` | gextract/gextract.py:520-532 | Below the node every leaf has its word's span and every other node the least cover of its children's; the position after the node's words is returned |
| `Frontier.SpansNest` | gextract/gextract.py:520-532 | Such spans nest |
| `Frontier.ClearIsUncrossed` | gextract/gextract.py:533-563 | Siblings of a node and of its ancestors miss the node's span exactly if every node unrelated to it does |
| `Translations.Translation.FindFrontier` | gextract/gextract.py:533-563 | The counters come back as they were; below the node, spans are kept exactly where no unrelated node covers any position |
| `Translations.Translation.FindBelow` | gextract/gextract.py:533-563 | The same, for the descendants |
| `Translations.Translation.Ghkm` | gextract/gextract.py:564-570 | From the whole sentence: a node has its span exactly if no node that is neither its ancestor nor its descendant covers any of it, and leaves only if wanted |
| `Translations.Translation.ClearLeaves` | gextract/gextract.py:568-570 | Leaves lose their spans, and nothing else changes |
| `RuleCounts.Counts.Get` | gextract/gextract.py:223-232 | The Count object that the table has for the text, and then nothing changes; else a new one with count 0 for exactly this rule and its group, whose norm is there, alpha if it is new; the tally stays right |
| `RuleCounts.Counts.CountForNode` | gextract/gextract.py:387-393 | None for a node without a span, else the rule's Count object, found or made as by get |
| `RuleCounts.Counts.Add` | gextract/gextract.py:307-318 | The Count and the norm of its group change by exactly d, and nothing else does; for a node that gets a rule, or that had it, counts and norms stay right for all nodes |
| `RuleCounts.Counts.Expand` | gextract/gextract.py:394-459 | Whatever is drawn: each rule's count is again the number of nodes that hold it, the norm of each group has changed by what the two nodes held and hold and by nothing else, and a node has a count exactly if it has a span; where rules of one text are asked for with one group, the two nodes hold exactly the rules of the candidate chosen, group included |
| `RuleCounts.Counts.Consider` | gextract/gextract.py:423-431 | Trying a candidate span leaves all counts as they were |
| `RuleCounts.Counts.Swap` | gextract/gextract.py:338-385 | The same for an exchange of spans and its three nodes, kept or undone, even where old and new rules coincide; nothing happens if neither node has a span |
| `RuleCounts.Counts.SwapBack` | gextract/gextract.py:371-377 | Undoing restores the tally, though the old rules are counted again before the new ones are taken back |
| `RuleCounts.Counts.DelZeroCount` | gextract/gextract.py:239-249 | Exactly the rules that no node holds leave the table; how many did, and how many there were, is returned |
| `RuleCounts.GroupIsSum` | gextract/gextract.py:888-901 | Summing a group's counts is counting the nodes with its rules |
| `ClosureSpans.Spans.SetClosureSpans` | gextract/gextract.py:787-798 | In postorder: every closure span below covers exactly what the children show |
| `ClosureSpans.CoverIsHull` | gextract/gextract.py:787-793 | What covers n children reaches from the least start to the greatest end of what they show |
| `ClosureSpans.ClosureEncloses` | gextract/gextract.py:787-798 | A right closure span is the smallest that encloses the spans below that have no other span between them and the node |
| `ClosureSpans.CurrentIsUnique` | gextract/gextract.py:787-798 | There is only one way for all closure spans to be right for given spans |
| `ClosureSpans.Spans.RecomputeAll` | gextract/gextract.py:795-798 | When all are right, the full recompute changes none |
| `ClosureSpans.Spans.UpdateSpan` | gextract/gextract.py:801-834 | Stopping where nothing changes, or below a node with its own span, leaves every closure span right |
| `ClosureSpans.Spans.SetSpan` | gextract/gextract.py:457-462 | After expand sets a span, all closure spans are what the full recompute gives |
| `ClosureSpans.Spans.SwapSpans` | gextract/gextract.py:380-384 | After a swap, kept or undone, too |
| `AliasTable.CompileChoosep` | gextract/graehl.py:107-141 | For N non-negative numbers that sum to 1: exactly N cells, shares in [0, 1], and the cells hold each item's probability; neither rounding fallback is taken |
| `AliasTable.NeverStuck` | gextract/graehl.py:118-141 | Something slight is pending whenever something is overfull, and nothing is pending at the end: why the fallbacks are not needed |
| `AliasTable.SelectChoosep` | gextract/graehl.py:143-153 | Picks the low or the high item of the cell that the value falls in; nothing from no cells, the last low item for exactly 1 |
| `AliasTable.SelectedInCell` | gextract/graehl.py:143-153 | Which cell, and which part of it, for every value |
| `AliasTable.PickedIntervals` | gextract/graehl.py:143-153 | The values below k cells that pick an item are disjoint intervals whose lengths sum to its share of them |
| `AliasTable.PickedInProportion` | gextract/graehl.py:107-153 | The values in [0, 1) that pick an item are disjoint intervals whose total length is the item's probability |
| `NgramTraining.Ngram.CountWord` | sblm/ngram.py:227-230 | The gram of each order that ends at the word is counted once more, and no other; every gram's shorter gram stays counted |
| `NgramTraining.SumCounts` | sblm/ngram.py:76-82 | Per context, the number of grams and the sum of their counts |
| `NgramTraining.WittenBellBos` | sblm/ngram.py:74-87 | A context's back-off, times the number of grams after it plus the sum of their counts, is that number, for exactly the contexts of the counted grams |
| `NgramTraining.ToProbs` | sblm/ngram.py:101-107 | Each gram's share, times the sum of the counts after its context, is its count; it is 0 where that sum is |
| `NgramTraining.Ngram.Backoffs` | sblm/ngram.py:318-326 | Back-offs for all orders from the highest down, contexts that were not counted entered with count 0; counted words keep their counts |
| `NgramTraining.Ngram.TrainLm` | sblm/ngram.py:318-331 | After training: shares sum to 1 after each context unless its back-off is 1, every gram has a shorter gram and a back-off; back-offs and shares are those of the counts with their contexts entered; with interpolation, every probability is the mix of the shorter gram's and its own share |
| `NgramTraining.InterpOrder` | sblm/ngram.py:160-168 | One order mixed with the one below |
| `NgramTraining.Ngram.Interp` | sblm/ngram.py:160-168 | All orders, each mixed with the already mixed one below |
| `NgramTraining.UninterpOrder` | sblm/ngram.py:169-182 | Undoes one order, failing exactly where a back-off is 1 or a share is 0 |
| `NgramTraining.Ngram.Uninterp` | sblm/ngram.py:169-182 | Gives back what interp overwrote, exactly if nowhere a back-off is 1 and nowhere a share is 0 (for counts, see below); otherwise it fails |
| `NgramTraining.Ngram.CountText` | sblm/ngram.py:212-226 | Every gram of each order gains the number of places, from i on and with pre and post added, at which it ends in the text |
| `NgramTraining.OccursAtPlaces` | sblm/ngram.py:212-230 | ... counted as a set of places |
| `NgramUndoing.UndoableExactly` | sblm/ngram.py:169-182 | After training, a gram can be undone exactly if its count is positive |
| `NgramUndoing.UndoableIfComplete` | sblm/ngram.py:318-331 | All of them can, exactly if before training every gram of order 2 and up had a positive count and every context of two words or more was itself among the grams |
| `NgramUndoing.TrainAndUndo` | sblm/ngram.py:169-182 | Training with interpolation and then uninterp: it succeeds exactly in that case, and then gives the shares back |
| `NgramUndoing.CountingKeepsComplete` | sblm/ngram.py:212-226 | Counting a whole text keeps the counts so |
| `NgramUndoing.TextsAreUndone` | sblm/ngram.py:212-226 | So after any texts counted from their start, with or without markers, uninterp succeeds |
| `NgramUndoing.ContextMissing` | sblm/ngram.py:227-230 | A run in which it fails: the last word alone of a text of three is counted, so that training enters its context with count 0 |
| `Ngrams.ScoreWord` | sblm/ngram.py:233-253 | First the probability of the longest gram there is that ends with the word, or that of unknown words; apart from it the product of the back-offs of the longer contexts; their product is the recursive back-off score |
| `Ngrams.ScoresSumToOne` | sblm/ngram.py:233-253 | After any context, seen or unseen, of any length, the scores of the unigram vocabulary sum to 1 |
| `Utf8Core.ValidateNext` | utf8/core.h:212-262 | Success exactly on a well-formed sequence, then past it with its code point; on error the iterator stays, and the error is the first that decoding meets |
| `Utf8Core.DecodesExactlyGrammar` | utf8/core.h:98-262 | A sequence is accepted exactly if it is a UTF8-char of section 4 of RFC 3629 |
| `Utf8.Append` | utf8/checked.h:114-139 | Appends the 1 to 4 octets of a valid code point, throws for others |
| `Utf8.Next` | utf8/checked.h:141-159 | Returns the code point and steps past it, or throws the exception of the error, with its octet, and stays |
| `Utf8.DecodesEncoded` | utf8/checked.h:114-159 | next undoes append: decoding the octets of any valid code point gives it back and uses them all |
| `Utf8.EncodesDecoded` | utf8/checked.h:114-159 | append undoes next: whatever decodes is the encoding of a valid code point |
| `Utf8.TextIsEncoded` | utf8/core.h:98-262 | Well-formed text is the encoding of its code points |
| `Utf8.EncodedIsText` | utf8/core.h:98-262 | The encoding of valid code points is well-formed and decodes to them |
| `Utf8Texts.FindInvalid` | utf8/core.h:277-287 | The end of the longest well-formed text that the range starts with |
| `Utf8Texts.IsValid` | utf8/core.h:289-293 | True exactly for well-formed text |
| `Utf8Texts.ReplaceInvalid` | utf8/checked.h:75-104 | What replacing from left to right gives, or the exception it ends in; if it returns, the input is cut into pieces, well-formed sequences, which are copied, and bad pieces, each of which gives one replacement, in order |
| `Utf8Texts.ReplacedInPieces` | utf8/checked.h:75-104 | ... with bad pieces as long as they can be: one octet that cannot start a sequence, or one that starts a sequence that does not decode with all trail octets after it |
| `Utf8Texts.PiecesDetermine` | utf8/checked.h:75-104 | Whatever is put together from pieces like that is what it returns |
| `Utf8Texts.ReturnsExactly` | utf8/checked.h:75-104 | It returns exactly if no sequence is cut short by the end of the text, and the text is well-formed or the replacement valid; it throws not_enough_room exactly if one is, and nothing before needs replacing or the replacement is valid; otherwise it throws for the replacement |
| `Utf8Texts.ReplacedIsWellFormed` | utf8/checked.h:75-104 | Whenever it returns, the output is well-formed |
| `Utf8Texts.ReplacedKeepsText` | utf8/checked.h:75-104 | Well-formed input comes out unchanged, whatever the replacement |
| `Utf8Texts.ReplaceIsIdempotent` | utf8/checked.h:75-104 | Replacing again changes nothing, whatever the second replacement |
| `Utf8Texts.Prior` | utf8/checked.h:167-180 | Goes back to the last octet that is not a trail octet and decodes, or throws, what is from there to where it was; throws at the start, and where there is no such octet |
| `Utf8Texts.PriorUndoesNext` | utf8/checked.h:141-180 | prior undoes next at the end of every well-formed sequence |
| `Utf16.Decodes16Encoded` | utf8/checked.h:211-251 | A code point's words, under 32-bit wrap-around, decode to it (sections 2.1 and 2.2 of RFC 2781) |
| `Utf16.Encodes16Decoded` | utf8/checked.h:211-251 | Words that decode are the encoding of a valid code point |
| `Utf16.Utf16to8` | utf8/checked.h:211-236 | Succeeds exactly on well-formed words, and gives the UTF-8 encoding of their code points; otherwise it throws, with the word at which reading stops |
| `Utf16.Utf8to16` | utf8/checked.h:238-251 | Succeeds exactly on well-formed octets, and gives the UTF-16 encoding of their code points; otherwise it throws what next throws after the well-formed part |
| `Utf16.To8UndoesTo16` | utf8/checked.h:211-251 | utf16to8 undoes utf8to16 on well-formed octets |
| `Utf16.To16UndoesTo8` | utf8/checked.h:211-251 | utf8to16 undoes utf16to8 on well-formed words |
| `Utf16.UncheckedNext` | utf8/unchecked.h:60-89 | Agrees with the checked decoder on all that the latter accepts |
| `Utf16.UncheckedPrior` | utf8/unchecked.h:97-103 | Steps back over the well-formed sequence that ends here, and gives its code point |
| `Utf16.UncheckedAppend` | utf8/unchecked.h:37-58 | The octets of the code point |
| `Utf16.UncheckedUtf16to8` | utf8/unchecked.h:129-142 | Agrees with the checked form on well-formed words |
| `Utf16.UncheckedUtf8to16` | utf8/unchecked.h:144-157 | Agrees with the checked form on well-formed octets |
| `UnionFind.Pool.Repr` | util/unionfind.hh:9-13 | Returns the root, which the node then points to; no node's root changes |
| `UnionFind.Pool.Merge` | util/unionfind.hh:14-16 | Exactly the two classes become one, whose root is one of the two roots |
| `UnionFind.Pool.MergeRoots` | util/unionfind.hh:23-32 | ... for two roots, by rank; ranks rise strictly along parents and 2^rank never exceeds the class size |
| `UnionFind.DepthIsLogarithmic` | util/unionfind.hh:9-32 | 2 to the length of any parent chain is at most the size of the class, hence of the pool |

## Left out

- Weights in the log domain and all rounding: weights are exact reals, and `nearLimit` (when a count can no longer be added to
  precisely) is an arbitrary predicate. digamma scaling is not modelled.
- Random draws are arbitrary, except for the alias table; the annealing power of forest sampling is not modelled (it is not passed
  through references).
- State names and their tables, debug output, statistics, I/O, command lines, GraphViz, disk caches.
- `Compose.IndexBy`: an index made during composition is made again at the next visit of the state, where the program keeps it:
  the two are equal. Lists in an index are sequences of positions, not of pointers.
- `Compose.Composer.RunWorklist`: the order in which `queue.pop` takes triples is that of a stack; numbers of states are unbounded.
- `CascadeRuns.ComposeCascade`: of the options that shrink a result, -d and the two for compressing chains are modelled; consolidating
  parallel arcs, pruning and minimizing by openfst between compositions, which are off unless asked for, are not (what
  `Recomposing.UpdateIsRecompose` says of taking states and arcs out holds for pruning too). Operands come without indexes.
- `Cascades.Cascade`: arcs are known by an identity in place of their address; priors, normalization groups, random restarts and
  saved weights are not modelled. Neither is `WFST::normalize`, whose own comment concedes that it misallocates with tied arcs.
- `State::reduce`, which merges parallel arcs, would only add sums over one arc list.
- `ForestText`, `ForestParse`, `ForestReaders`: a number is one token and white space one token; a reference to an id that was
  never defined, and a parenthesis that closes nothing, are errors (the program reads an unset entry); the stack of open
  parentheses is unbounded (MAX_FOREST_DEPTH); the space has room for at least one node.
- `ForestEm.Forest`: overflow statistics; several forests sharing one set of arrays. `ForestEm.Forest.ExpectedCounts` is for one
  forest and starts with an empty spill table; `ForestEm.Forest.CollectCounts` does not.
- `Derivations.Derivation.Compute`: strings are without epsilons, as at the program's call; names are kept so that states can be
  spoken of after the search; forward and backward sums over the lattice and its caches are not modelled.
- `PathPruning.PrunePaths`: shortest distances and arc costs are given, as exact numbers with an infinity; the limit on the number
  of states, and with it the sort, is not modelled. With an infinite ratio and no limit the program returns at once.
- `Permutations.PermutationLattice`: `pow2` on 32 bits, so lines of 32 words or more; reading the words; the branch for
  `permuteNumbers` false.
- `RuleCounts.Counts.Expand`: the candidates' rules are given; which spans are candidates and which node each foreign word belongs
  to (`f2enode`) are not modelled. Building the text of a rule and its base probability is not modelled; a rule is its text and
  its group.
- `ClosureSpans.Spans.UpdateSpan`: the node has a parent and some node above it has a span, as at the program's calls, where the
  root keeps its span.
- `Translations.Translation`: reading trees and alignments; `set_spans` is given each word's span, the cover of its alignments.
- `NgramTraining`: Witten-Bell training only, in probabilities rather than logarithms, probability 0 for log10 of 0; no files, no
  Kneser-Ney, closed vocabularies or unknown-word mapping.
- Iterator classes over text, byte-order marks, UTF-32 conversions and `distance`.
- `UnionFind.Pool`: nodes are positions in a pool; the data field is not modelled.
