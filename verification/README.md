# A verified model of qlean-mini

qlean-mini is a client for Lean Ethereum consensus (3SF-mini). This project models its deterministic
core in Dafny and proves what that core promises over whole runs: the state transition function, the
fork choice, the block tree with its database index, the wire codecs, and the cache of orphan blocks.

## How it is organised

| part | files | main results |
|---|---|---|
| State transition | `justifiable`, `window`, `root_order`, `aggregation_bits`, `vote_table`, `stf` | The code, with its loops as methods and its error returns, exceptions and failed assertions as results. |
| Reference machine | `ledger` | A chain as its history and the log of all counted votes: no bitfield window, no flat lists, no pruning. |
| Refinement | `refinement`, `chain` | Every accepted chain agrees with its ledger and no partial look-up fails. Exact acceptance, exact justification, finality safety, the hash chain. |
| Block tree | `forest`, `cached_tree`, `block_storage`, `tree_view`, `block_tree` | Cache, slot index and leaf list always agree with the plain parent-link tree. |
| Fork choice | `lmd_ghost`, `safe_target`, `attestation_target`, `proof_pool` | Weights, head, safe target, attestation target, conservation of voters. |
| Composition | `fork_choice_store`, `tree_fork_choice`, `import_block`, `pruned_blocks`, `lost_justified`, `client` | The votes, the fork choice on the block tree, and the client: `onBlock`, gossip, head, safe target and attestation target on every run from genesis, for blocks and votes in any order. |
| Codecs | `rlp`, `rlp_codec`, `enr`, `snappy_framing` | Decoders undo encoders on all inputs. |
| Orphans | `orphan_cache` | Draining delivers exactly the waiting descendants, once each, parent first. |

Conventions:

- A root is a natural number: zero is the zero hash, and the order of numbers is the lexicographic order of hashes.
- Hash functions, signature schemes, base64, the varint and the inner Snappy codec are function parameters.
- `Err(AssertionFailed)` is the assertion of `isJustifiableSlot`, which a debug build checks and a release build does
  not. It can be met on a run from genesis; `Chains.AssertionFailsExactly` says when.
- `Err(Fault)` stands for everything else the C++ code treats as impossible: `value()` of an empty optional, `at()`
  out of range, the other assertions, a subtraction that would wrap around. `Refinement.RunRefinesLedger` and
  `Chains.AcceptanceIsExact` prove that no run from genesis meets it.
- Code that updates objects is a class, a loop is a method with invariants. Each such method is proved against a
  specification that is a function of the old state, and the laws are proved about that specification.

Three assumptions about hashing appear as named predicates. `Refinement.CollisionFree` says that header hashes do
not collide. `Chains.NonZeroStates` says that a state never hashes to the zero root. `Chains.NonZeroHeaders` says the
same of headers; only the examples that start from genesis need it.

## Findings

Properties that the code does not have, each with an input and the exact condition under which it holds.

| property | fails on | holds exactly when |
|---|---|---|
| The transition function never fails an assertion (`src/blockchain/is_justifiable_slot.hpp:17`, asked from `src/blockchain/state_transition_function.cpp:447-448`; both presets in `CMakePresets.json` are debug builds) | `Chains.AssertionIsReachable` | `Chains.AssertionFailsExactly`: no vote of the block completes two thirds with a source more than one slot below finality. `Ledgers.BuildsAgree`: a release build is not affected. |
| The justified slot of a chain does not decrease (`src/blockchain/state_transition_function.cpp:439-442`) | `Chains.JustifiedGoesBack` | `Chains.JustifiedGoesBackExactly`: no vote of the block completes two thirds, or the last one that does has its target at the justified slot or later. |
| The head is a leaf of the tree, whatever stored block the walk starts from (`src/blockchain/impl/block_tree_impl.cpp:735-738` looks for a child in the next slot only) | `LmdGhost.WalkStopsAtAGap`, `TreeForkChoice.StoredJustifiedExample` | `LmdGhost.WalkEndsAtLeaf`: the block is cached, or no slot is empty between it and the finalized one. `BlockImports.Importer.OnBlock` keeps to such starts. |
| The safe target is the deepest block with two-thirds support, whatever stored block is justified (the same lines) | `SafeTargets.SafeTargetStopsAtAGap` | `SafeTargets.SafeTargetIsDeepestSupported`: no supported block comes after an empty slot above the finalized block. |
| `updateHead` succeeds (`src/blockchain/fork_choice.cpp:213-248`) | `TreeForkChoice.PrunedHeadExample` | `Clients.Client.UpdateHead`: the old head is still stored, so finality has not pruned its fork. |
| The justified block of the tree follows the chain (`src/blockchain/impl/block_tree_impl.cpp:350-397`, called at `src/blockchain/fork_choice.cpp:938-942`) | `LostJustified.JustifiedIsLost` | `BlockTrees.JustifiedFollowsExactly`: it is the newly justified block already, or a cached ancestor of it in an earlier slot. `PrunedBlocks.LostJustifiedStays`: once finality has pruned it, it never moves again. |
| `getAttestationTarget` finds a target (`src/blockchain/fork_choice.cpp:336-373`) | `Clients.TargetBelowFinality` | `AttestationTargets.TargetIsFoundExactly`: the head is cached, and the limit is not below finality or the head is three blocks below the finalized one. `Clients.Client.ChooseTarget` has this on every run. |
| The known vote of a validator is its latest (`src/blockchain/fork_choice.cpp:257-265` overwrites, and `src/blockchain/fork_choice.cpp:761-781` compares with pending votes alone) | `ForkChoiceStores.KnownVoteGoesBack` | `ForkChoiceStores.AcceptKeepsLatest`: no pending vote is older than the known one. `ForkChoiceStores.NotOlderExactly`: which votes keep that so. |
| A block of a finalized slot is ignored without harm (`src/modules/networking/networking.cpp:867-875` goes on from an entry that draining has erased) | `OrphanCaches.ErasedEntryExample` | `OrphanCaches.OrphanCache.ReceiveBlock`: no cached block waits for it. |
| `removeLeaf` keeps the tree consistent (`src/blockchain/impl/block_tree_impl.cpp:167-193`) | `BlockTrees.CrowdedRoot` | `BlockTrees.BlockTree.RemoveLeaf`: the block is not the finalized one, or nothing else is cached. |
| A reader consumes the message it reads (`src/serde/snappy.hpp:167-199`) | every empty message | `SnappyFraming.MessageIsConsumed`: the message is not empty. |

## Model

| member | source | states |
|---|---|---|
| Justifiable.ScanBetween | src/blockchain/state_transition_function.cpp:446-452 | the loop asks slot by slot and stops at the first justifiable one, or at the failed assertion for a slot below finality |
| Justifiable.ScanMeaning | src/blockchain/state_transition_function.cpp:446-452 | the scan fails its assertion exactly in a debug build with a first slot below finality; otherwise, in either build and whatever a release build answers below finality, it finds a justifiable slot strictly between source and target exactly when there is one |
| Justifiable.ScanAcrossFinality | src/blockchain/state_transition_function.cpp:446-452 | between a source below finality and a target above it there always is one, the finalized slot itself, so such a source never finalizes |
| Justifiable.JustifiableForms | src/blockchain/is_justifiable_slot.hpp:16-24 | every square and every pronic number is a justifiable distance |
| Justifiable.JustifiableWithinIsqrt | src/blockchain/is_justifiable_slot.hpp:16-24 | every distance d with integer square root x has a justifiable distance in [d - x, d] |
| Justifiable.GapBelowASquareIsFull | src/blockchain/is_justifiable_slot.hpp:16-24 | that bound is tight just below every square from 16 on |
| JustifiedWindow.ExtendToSlot | src/blockchain/state_transition_function.cpp:34-46 | growing the bitfield changes the status of no slot at all and makes the target slot readable |
| JustifiedWindow.IsSlotJustified | src/blockchain/state_transition_function.cpp:52-63 | has a value exactly up to the end of the window, and then answers membership in the unbounded set of justified slots |
| JustifiedWindow.WithJustified | src/blockchain/state_transition_function.cpp:69-77 | succeeds exactly inside the window and then adds exactly one slot to that set |
| JustifiedWindow.ShiftKeepsStatus | src/blockchain/state_transition_function.cpp:79-82 | rebasing by the finality advance keeps the status of every slot above the new boundary |
| JustifiedWindow.NeverUnjustified | src/blockchain/state_transition_function.cpp:34-82 | none of the three updates takes the justification of a slot away |
| RootOrder.SortRoots | src/blockchain/state_transition_function.cpp:99-112 | iterating the ordered map lists its keys strictly sorted |
| RootOrder.SortedIsUnique | src/blockchain/state_transition_function.cpp:99-112 | a strictly sorted list is determined by its elements |
| AggregationBits.ContainsIsMembership | src/types/aggregation_bits.hpp:20-29 | `contains` is membership in the set that `iter` lists |
| AggregationBits.Add | src/types/aggregation_bits.hpp:31-36 | `add` adds exactly one validator, growing the list when needed |
| AggregationBits.AddAll | src/blockchain/fork_choice.cpp:1413-1426 | adding bit by bit gives the union of the two voter sets |
| AggregationBits.IsSubset | src/blockchain/fork_choice.cpp:1351-1372 | decides inclusion of voter sets of bit lists of different lengths |
| VoteTable.CountVotes | src/blockchain/state_transition_function.cpp:431 | counts the distinct voters of a row |
| VoteTable.RecordVotes | src/blockchain/state_transition_function.cpp:415-429 | fails exactly when a voter is not a validator, else gives the union of voters |
| VoteTable.RebuildTable | src/blockchain/state_transition_function.cpp:319-335 | cuts the flat list by offset into one row per root |
| VoteTable.FlattenTable | src/blockchain/state_transition_function.cpp:99-112 | succeeds exactly when every row has one bit per validator, and lists roots in order with their rows concatenated |
| VoteTable.RebuildAfterFlatten | src/blockchain/state_transition_function.cpp:99-112 | pending votes survive a block boundary: rebuilding a flattened table gives the same table |
| VoteTable.FlattenAfterRebuild | src/blockchain/state_transition_function.cpp:319-335 | the stored form is canonical: flattening a rebuilt table gives the same two lists |
| StateTransition.ProcessSlots | src/blockchain/state_transition_function.cpp:168-202 | advances slot by slot as specified, rejects a slot that is not in the future |
| StateTransition.ProcessBlockHeader | src/blockchain/state_transition_function.cpp:213-286 | the header outcome: the four errors in order, then history, checkpoints and bitfield after the block |
| StateTransition.RootToSlotIsLast | src/blockchain/state_transition_function.cpp:345-351 | the index knows exactly the roots above finality, each with its last slot |
| StateTransition.IndexRoots | src/blockchain/state_transition_function.cpp:345-351 | the loop builds that index |
| StateTransition.RetainAbove | src/blockchain/state_transition_function.cpp:467-469 | fails exactly when a pending root is unknown, else keeps the rows above finality |
| StateTransition.ProcessAttestation | src/blockchain/state_transition_function.cpp:365-412 | the verdict on one attestation: two range errors, the filters in order, or the tally with its failed assertion |
| StateTransition.TallyVote | src/blockchain/state_transition_function.cpp:415-471 | records a counted vote, justifies at two thirds, scans with the assertion of a debug build, finalizes over an empty scan, prunes |
| StateTransition.ProcessEach | src/blockchain/state_transition_function.cpp:354-474 | the loop is the fold of the verdicts and stops at the first error |
| StateTransition.ProcessAttestations | src/blockchain/state_transition_function.cpp:296-492 | rebuild, index, loop and write back together |
| StateTransition.ApplyBlock | src/blockchain/state_transition_function.cpp:149-166 | the whole transition of one block with its errors in order |
| Ledgers.SupportersAreTheVoters | src/blockchain/state_transition_function.cpp:415-440 | a validator supports a root exactly when some counted vote for it names the validator |
| Ledgers.CountAdvancesFinality | src/blockchain/state_transition_function.cpp:446-471 | counting any vote never lowers the finalized slot |
| Ledgers.CountKeepsSound | src/blockchain/state_transition_function.cpp:415-471 | counting a vote keeps checkpoints on the chain, ordered and backed by quorums, and justified slots justified |
| Ledgers.ExtendKeepsSound | src/blockchain/state_transition_function.cpp:242-277 | so does a new block on top, across empty slots |
| Ledgers.QuorumsOverlap | src/blockchain/state_transition_function.cpp:439 | two justified roots of a chain share at least a third of the validators |
| Ledgers.AssertsExactly | src/blockchain/state_transition_function.cpp:446-452 | with assertions on, the votes of a block are fatal exactly when one of them, reached and countable, completes two thirds with a source more than one slot below finality at that point |
| Ledgers.BuildsAgree | src/blockchain/state_transition_function.cpp:354-474 | short of that assertion, debug and release builds give the same ledger or the same error |
| Ledgers.VotesThatScanBelow | src/blockchain/state_transition_function.cpp:446-452 | three votes of a lone validator that do it |
| Ledgers.LastDecides | src/blockchain/state_transition_function.cpp:439-442 | of the votes of a block, the last one that completes two thirds decides the justified checkpoint; without one it stays |
| Refinement.AdvanceWindow | src/blockchain/state_transition_function.cpp:464-466 | after finality moves, the shifted bits are again the justified slots of the ledger |
| Refinement.AdvancePending | src/blockchain/state_transition_function.cpp:464-470 | after finality moves, every pending root is in the index and the rows kept are those still awaiting justification |
| Refinement.FilterRefines | src/blockchain/state_transition_function.cpp:365-412 | the chain of filters lets through exactly the countable votes of the ledger |
| Refinement.CountRefines | src/blockchain/state_transition_function.cpp:415-471 | a countable vote has the same effect on tally and ledger, or the same error, the failed assertion included |
| Refinement.AttestAllRefines | src/blockchain/state_transition_function.cpp:354-474 | so do all attestations of a block, even after the boundary moved in the middle of the loop |
| Refinement.HeaderRefines | src/blockchain/state_transition_function.cpp:213-286 | an accepted header extends the ledger and keeps the relation |
| Refinement.AttestationsRefine | src/blockchain/state_transition_function.cpp:296-492 | the attestations of a block give the verdict of the ledger, the failed assertion of the scan included, and no other fault |
| Refinement.GenesisMatches | src/blockchain/state_transition_function.cpp:114-137 | the genesis state is the empty ledger |
| Refinement.TransitionRefines | src/blockchain/state_transition_function.cpp:149-166 | one accepted block is one ledger step, and no transition from a related state meets a fault other than that assertion |
| Refinement.RunRefinesLedger | src/blockchain/state_transition_function.cpp:149-492 | on every chain of accepted blocks from genesis the state agrees with the ledger of that chain, and no partial look-up ever fails |
| Chains.ReachedShape | src/blockchain/state_transition_function.cpp:259-277 | in every reached state: history length is the header slot, window length is header slot - 1 - finalized slot, flat length is roots times validators, every pending root is in the history above finality |
| Chains.ExactJustification | src/blockchain/state_transition_function.cpp:354-442 | a slot above finality is justified exactly when the distinct counted voters for its block over the whole chain are two thirds; every pending row holds exactly its counted voters and is strictly below |
| Chains.CheckpointsOnChain | src/blockchain/state_transition_function.cpp:242-250 | finalized is not after justified, both are the history entries at their slots, both have a quorum above genesis |
| Chains.FinalizedHasAJustifiedSuccessor | src/blockchain/state_transition_function.cpp:446-471 | the ledger of the chain holds a counted vote from the finalized checkpoint to a later block of the chain; both blocks have a quorum |
| Chains.JustifiedRootIsABlock | src/blockchain/state_transition_function.cpp:389-402 | a justified checkpoint above genesis never names an empty slot |
| Chains.FinalityIsMonotone | src/blockchain/state_transition_function.cpp:439-471 | between any two points of a chain the finalized slot does not decrease, the checkpoint at it does not change, history is a prefix, no slot loses its justification |
| Chains.PostStateIgnoresStateRoot | src/blockchain/fork_choice.cpp:419-431 | the post-state does not depend on the state root that the block claims |
| Chains.ProducedBlockIsAccepted | src/blockchain/fork_choice.cpp:419-431 | a block built with a placeholder root and given the computed one passes verification |
| Chains.ChildNamesItsParent | src/blockchain/state_transition_function.cpp:168-238 | across any number of empty slots, the parent root that a child must carry is the hash of the accepted block itself |
| Chains.FirstBlockNamesGenesis | src/blockchain/state_transition_function.cpp:139-147 | the same for the first block and the genesis block |
| Chains.AcceptanceIsExact | src/blockchain/state_transition_function.cpp:149-286 | on every reached state the outcome for a candidate block, error by error, is what the ledger says of a child of the last block: later slot, proposer in turn, the parent's own hash, votes in range from known validators and no fatal scan; then the claimed state root alone decides |
| Chains.HistoryIsTheChain | src/blockchain/state_transition_function.cpp:252-264 | the history is exactly the block hashes of the chain at their slots, zero in empty slots |
| Chains.HistoryLast | src/blockchain/state_transition_function.cpp:252-264 | the history of a block is its parent's history, the parent's hash at the parent's slot, and zeros |
| Chains.AssertionFailsExactly | src/blockchain/state_transition_function.cpp:149-166 | on every reached state a block makes the transition fail its assertion exactly in a debug build, when it is well placed and one of its votes completes two thirds from more than one slot below finality at that point |
| Chains.EmptyBlock | src/blockchain/state_transition_function.cpp:149-166 | every reached state has an accepted child without votes at every later slot |
| Chains.AssertionIsReachable | src/blockchain/is_justifiable_slot.hpp:17 | three empty blocks from genesis and a fourth with three votes of one validator, on which a debug build aborts |
| Chains.NextBlock | src/blockchain/fork_choice.cpp:419-431 | every reached state has an accepted child, at every later slot, with any votes that the ledger accepts |
| Chains.JustifiedGoesBackExactly | src/blockchain/state_transition_function.cpp:439-442 | on every reached state an accepted block moves the justified slot back if and only if some vote of it completes two thirds and the last one that does has its target before the justified slot |
| Chains.JustifiedGoesBack | src/blockchain/state_transition_function.cpp:439-442 | four blocks from genesis that justify slot 3, and a fifth that justifies slot 2 |
| Forests.Descend | src/blockchain/impl/cached_tree.cpp:60-73 | succeeds exactly for an ancestor-or-self, and then visits exactly the path to it |
| Forests.CanDescend | src/blockchain/impl/cached_tree.cpp:75-78 | holds exactly when the second block is an ancestor-or-self of the first |
| Forests.ComputeReorg | src/blockchain/impl/cached_tree.cpp:41-58 | terminates with the lowest common ancestor, the path up to it and the path down from it |
| Forests.LcaUnique | src/blockchain/impl/cached_tree.cpp:41-58 | two blocks have one lowest common ancestor |
| Forests.ReorgUnique | src/blockchain/impl/cached_tree.cpp:41-58 | a reorganisation is determined by its two ends |
| CachedTrees.CachedTree.constructor | src/blockchain/impl/cached_tree.cpp:127-133 | a tree of one block satisfies the invariant |
| CachedTrees.CachedTree.Add | src/blockchain/impl/cached_tree.cpp:211-233 | adds exactly the new block, keeps the invariant (child lists mirror parents, leaves are the childless, best is a latest block), and reports the reorganisation exactly when best changes |
| CachedTrees.LatestLeafIsDeepest | src/blockchain/impl/cached_tree.cpp:100-125 | a block as late as every leaf is as late as every block, so refreshing over leaves is enough |
| CachedTrees.CachedTree.RefreshBest | src/blockchain/impl/cached_tree.cpp:100-125 | best becomes the root or a later leaf, and no leaf is later |
| CachedTrees.CachedTree.EraseAncestors | src/blockchain/impl/cached_tree.cpp:246-259 | the walk up erases exactly the proper ancestors and queues their other children |
| CachedTrees.CachedTree.EraseCut | src/blockchain/impl/cached_tree.cpp:260-272 | the queue loop erases exactly the queued blocks and everything below them, parents first |
| CachedTrees.CutComplete | src/blockchain/impl/cached_tree.cpp:260-272 | a drained queue has taken every block that is neither ancestor nor descendant of the new root |
| CachedTrees.PruneListFromCut | src/blockchain/impl/cached_tree.hpp:27-34 | the reversed list is a prune list: each cut-off block once, children before parents |
| CachedTrees.CachedTree.Finalize | src/blockchain/impl/cached_tree.cpp:235-290 | afterwards the nodes are exactly the descendants-or-self of the new root; the prune list is exact; best is a latest block and moves exactly when it was cut off, with the right reorganisation |
| CachedTrees.CachedTree.MoveBest | src/blockchain/impl/cached_tree.cpp:276-288 | the reorganisation composed over the new root is the one from the old best to the new best |
| CachedTrees.CachedTree.RemoveLeaf | src/blockchain/impl/cached_tree.cpp:297-323 | removes exactly that leaf, keeps the invariant, reports a reorganisation exactly when it was best |
| BlockStorages.CanonicalMeaning | src/blockchain/impl/block_storage_impl.cpp:100-108 | looking up a slot gives exactly the ancestor-or-self of the best block at that slot |
| BlockStorages.CanonicalSingletons | src/blockchain/impl/block_storage_impl.cpp:69-98 | no slot of the index holds two blocks |
| BlockStorages.ReorgMovesIndex | src/blockchain/impl/block_tree_impl.cpp:780-798 | deassigning the reverted and assigning the applied blocks turns the index of one chain into the index of the other |
| BlockStorages.BlockStorage.SetBlockTreeLeaves | src/blockchain/impl/block_storage_impl.cpp:50-67 | stores exactly the leaves, sorted, and keeps the cached copy equal to the stored one |
| BlockStorages.BlockStorage.AssignHashToSlot | src/blockchain/impl/block_storage_impl.cpp:69-80 | the index with the block at its slot, unchanged when it is there |
| BlockStorages.BlockStorage.DeassignHashToSlot | src/blockchain/impl/block_storage_impl.cpp:82-98 | the index without the block, and without the slot when nothing is left |
| BlockStorages.BlockStorage.ApplyReorg | src/blockchain/impl/block_tree_impl.cpp:780-798 | the loops move the index from the chain of the old best block to that of the new one |
| BlockStorages.BlockStorage.RemoveBlock | src/blockchain/impl/block_storage_impl.cpp:294-381 | removes the header, and the index entry exactly when it holds this block alone |
| BlockStorages.BlockStorage.RemoveBlocks | src/blockchain/impl/block_tree_impl.cpp:780-798 | pruning blocks off the best chain never touches the index |
| BlockTrees.StoredAncestor | src/blockchain/impl/block_tree_impl.cpp:497-539 | stored ancestry is cached ancestry or ancestry of the cached root |
| BlockTrees.BlockTree.constructor | src/blockchain/impl/block_tree_impl.cpp:28-71 | a tree over one stored block satisfies the invariant below |
| BlockTrees.BlockTree.ReorgAndPruneStorage | src/blockchain/impl/block_tree_impl.cpp:780-798 | afterwards the leaf list is the leaves, the index is the chain of the best block, the pruned headers are gone |
| BlockTrees.BlockTree.AddBlock | src/blockchain/impl/block_tree_impl.cpp:120-165 | fails exactly without a cached parent; keeps the invariant: index = chain of best, leaf list = leaves, stored blocks = cached blocks and the finalized chain below |
| BlockTrees.BlockTree.Finalize | src/blockchain/impl/block_tree_impl.cpp:302-348 | keeps the invariant; cached blocks become the descendants-or-self, exactly the cut-off blocks leave the database; unknown and older blocks give the right result and change nothing |
| BlockTrees.BlockTree.SetJustified | src/blockchain/impl/block_tree_impl.cpp:350-397 | moves the justified block exactly to a cached proper descendant of it, with every other result determined, and touches neither tree nor database |
| BlockTrees.NotAboveFinalized | src/blockchain/fork_choice.cpp:938-948 | when a block comes to be finalized, the justified block is not properly above it, because the justified block is moved first |
| BlockTrees.JustifiedSurvives | src/blockchain/fork_choice.cpp:938-948 | finalizing such a block leaves the justified block cached or gone from the database |
| BlockTrees.BlockTree.UpdateCheckpoints | src/blockchain/fork_choice.cpp:938-948 | following the checkpoints of a state, in that order: it fails exactly for a later justified block that is stored and not cached, and finalizes nothing then; otherwise a later finalized block becomes the root, with exactly its descendants cached and the blocks it cuts off gone. The justified block stays cached or absent |
| BlockTrees.FailureMeansPruned | src/blockchain/fork_choice.cpp:938-948 | that failure needs a justified block that finality has pruned |
| BlockTrees.JustifiedFollowsExactly | src/blockchain/fork_choice.cpp:938-942 | the justified block of the tree becomes the one of a state if and only if it is that block already, or a cached ancestor of it in an earlier slot |
| BlockTrees.BlockTree.RemoveLeaf | src/blockchain/impl/block_tree_impl.cpp:167-193 | every result exactly; a leaf goes from cache and database and the invariant stays; for the finalized block the tree restarts at its parent, and the invariant stays exactly when nothing else was cached |
| BlockTrees.LoneRoot | src/blockchain/impl/block_tree_impl.cpp:167-193 | removing a finalized block without cached descendants gives a valid tree of its parent |
| BlockTrees.CrowdedRoot | src/blockchain/impl/block_tree_impl.cpp:167-193 | with cached descendants their headers stay stored outside the tree, and the invariant fails |
| BlockTrees.ClimbCached | src/blockchain/impl/block_tree_impl.cpp:497-539 | what the cached part of the climb collected, followed by the stored ancestors of where it stopped, is the stored ancestor chain |
| BlockTrees.BlockTree.GetDescendingChain | src/blockchain/impl/block_tree_impl.cpp:497-539 | the first entries of the plain ancestor chain, however it is split between cache and database |
| BlockTrees.ViewFromTree | src/blockchain/impl/block_tree_impl.cpp:722-740 | in every tree that satisfies the invariant, `getChildren` answers the children of a cached block, each once, and the child in the next slot of a block that is only stored |
| TreeViews.KidsAreLater | src/blockchain/impl/block_tree_impl.cpp:722-740 | what `getChildren` answers is always in a later slot, and for a cached block is its children |
| TreeViews.NextEntry | src/blockchain/impl/block_tree_impl.cpp:735-738 | the index entry of the slot after a block of the best chain is its child there, if it has one |
| TreeViews.GaplessStep | src/blockchain/impl/block_tree_impl.cpp:735-738 | how an empty slot above the finalized block shows one block further down |
| LmdGhost.Climb | src/blockchain/fork_choice.cpp:1205-1233 | one vote adds one to exactly the ancestors-or-self of its head above the start slot |
| LmdGhost.CollectWeights | src/blockchain/fork_choice.cpp:1205-1233 | the table gives every block above the start slot the number of votes for it or a descendant, in any order of the votes |
| LmdGhost.WeightIsDirectPlusChildren | src/blockchain/fork_choice.cpp:1205-1233 | the weight of every stored block is its direct votes plus the weights of its children, cached or not |
| LmdGhost.SiblingsShareNoVoter | src/blockchain/fork_choice.cpp:1205-1233 | a voter supports at most one of two siblings |
| LmdGhost.FilterKids | src/blockchain/fork_choice.cpp:1246-1254 | keeps exactly the children with the minimum weight |
| LmdGhost.PickHeaviest | src/blockchain/fork_choice.cpp:1256-1268 | the greatest child by weight, then by hash |
| LmdGhost.ComputeHead | src/blockchain/fork_choice.cpp:1182-1270 | terminates with the walk from the anchor, which is the given block or the finalized one |
| LmdGhost.WalkDescends | src/blockchain/fork_choice.cpp:1235-1269 | from every stored block the head descends from it and has no eligible child |
| LmdGhost.StoredEligible | src/blockchain/impl/block_tree_impl.cpp:735-738 | from a block that is only stored, the walk can go to one child alone, and only in the next slot |
| LmdGhost.WalkEndsAtLeaf | src/blockchain/fork_choice.cpp:1182-1270 | for minimum weight zero the walk from a stored block ends at a leaf of the tree if and only if the block is cached or no slot is empty between it and the finalized block |
| LmdGhost.HeadIsLeaf | src/blockchain/fork_choice.cpp:1182-1203 | a justified block that is cached, or no longer stored, makes the head a leaf below a cached anchor |
| LmdGhost.WalkStopsAtAGap | src/blockchain/impl/block_tree_impl.cpp:735-738 | a stored block whose only child is two slots later, where the walk stays although the child is a leaf |
| LmdGhost.WalkIsGreedy | src/blockchain/fork_choice.cpp:1235-1269 | from every stored block, every block on the way is the heaviest eligible child of its parent |
| LmdGhost.GreedyHeadIsUnique | src/blockchain/fork_choice.cpp:1235-1269 | only one block fits that description |
| LmdGhost.ChildOrderDoesNotMatter | src/blockchain/fork_choice.cpp:1235-1269 | child lists in any order give the same head |
| SafeTargets.ScoreIsTwoThirds | src/utils/ceil_div.hpp:12-14 | the minimum weight ceil(2n/3) is the threshold 3 * count >= 2 * n of the transition function |
| SafeTargets.SupportGrowsUp | src/blockchain/fork_choice.cpp:1205-1233 | every supporter of a block supports its ancestors |
| SafeTargets.SupportedAreComparable | src/blockchain/fork_choice.cpp:175-195 | two blocks with two-thirds support lie on one path |
| SafeTargets.OneSupportedChild | src/blockchain/fork_choice.cpp:1246-1254 | at most one child passes the filter |
| SafeTargets.SafeTargetIsDeepestSupported | src/blockchain/fork_choice.cpp:175-195 | the blocks between a stored anchor and the safe target are exactly those below the anchor with two-thirds support if and only if no such block comes after an empty slot above the finalized block; a cached anchor always meets the condition |
| SafeTargets.SafeTargetStopsAtAGap | src/blockchain/impl/block_tree_impl.cpp:735-738 | a justified block that is only stored, where the safe target stays although a block below has all the support |
| SafeTargets.SafeTargetMovesForward | src/blockchain/fork_choice.cpp:175-195 | from every stored anchor, votes of new validators move it only to a descendant-or-self |
| SafeTargets.TooManyVotersBreakUniqueness | src/blockchain/fork_choice.cpp:175-195 | with more voters than validators two siblings can both pass, so the bound on voters is needed |
| ForkChoiceStores.ForkChoiceStore.UpdateSafeTarget | src/blockchain/fork_choice.cpp:175-195 | fails exactly without the state of the head, else the safe target is the walk over pending votes with the two-thirds filter, with its slot |
| SafeTargets.DetectReorg | src/blockchain/fork_choice.cpp:213-248 | the lifting loop terminates; it fails exactly when the old head is no longer stored, and else tells whether the new head does not descend from the old one |
| ForkChoiceStores.ForkChoiceStore.OnAttestation | src/blockchain/fork_choice.cpp:678-784 | the exact error, or the exact new votes: a vote from a block is known and replaces pending ones that are not later, a gossiped vote is pending |
| ForkChoiceStores.ForkChoiceStore.OnAggregated | src/blockchain/fork_choice.cpp:655-676 | one vote of many validators counts for all participants or for none of them |
| ForkChoiceStores.ForkChoiceStore.OnBody | src/blockchain/fork_choice.cpp:969-975 | the attestations of a body count in order up to the first failure |
| ForkChoiceStores.CastOneMore | src/blockchain/fork_choice.cpp:655-676 | voters can be taken one by one |
| ForkChoiceStores.NotOlderExactly | src/blockchain/fork_choice.cpp:761-781 | a vote from a block leaves no pending vote older than the known one of its validator; a gossiped vote does exactly unless it becomes the pending vote of a validator whose known vote is later |
| ForkChoiceStores.AcceptKeepsLatest | src/blockchain/fork_choice.cpp:257-265 | accepting pending votes takes no validator back to an earlier vote if and only if no pending vote is older than the known one |
| ForkChoiceStores.KnownVoteGoesBack | src/blockchain/fork_choice.cpp:257-265 | two valid votes of one validator after which the earlier one is the known one |
| ForkChoiceStores.ForkChoiceStore.UpdateHead | src/blockchain/fork_choice.cpp:197-255 | succeeds exactly while the old head is stored, and then the head is the walk over known votes without a filter, with its slot |
| ForkChoiceStores.ForkChoiceStore.AcceptPending | src/blockchain/fork_choice.cpp:257-265 | every pending vote replaces the known one of its validator, and none is left pending |
| TreeForkChoice.RefreshHead | src/blockchain/fork_choice.cpp:197-255 | on every valid tree whose justified block is cached or absent: `updateHead` fails exactly when the old head is gone, and else the head is the walk over known votes, a leaf of the tree below the anchor |
| TreeForkChoice.RefreshSafeTarget | src/blockchain/fork_choice.cpp:175-195 | on every such tree `updateSafeTarget` fails exactly without the state of the head, and else the safe target is the unique deepest block with two-thirds support |
| TreeForkChoice.StoredJustifiedExample | src/blockchain/fork_choice.cpp:938-948 | finalizing without justifying first leads to a justified block that is only stored, from which the walk reaches no leaf |
| TreeForkChoice.PrunedHeadExample | src/blockchain/fork_choice.cpp:213-248 | a fork whose head finality prunes: `updateHead` fails |
| BlockImports.PrefixIsAncestor | src/blockchain/fork_choice.cpp:888-928 | every prefix of the chain of a stored block ends in a stored ancestor of it |
| BlockImports.HistoryEntry | src/blockchain/state_transition_function.cpp:252-264 | a root in a state's history is the hash of a block of its chain, at its slot |
| BlockImports.CheckpointsAreStored | src/blockchain/fork_choice.cpp:938-948 | the justified and finalized checkpoints of a stored block's state are stored under their slots, finalized above justified: what following them asks for |
| BlockImports.Importer.constructor | src/blockchain/state_transition_function.cpp:114-147 | a client with the genesis block alone satisfies the import invariant |
| BlockImports.Importer.OnBlock | src/blockchain/fork_choice.cpp:888-954 | for every block, in any order: each answer exactly, the failure of following the checkpoints included, and the exact new database, states, tree and checkpoints. Every stored block keeps the state that the transition function reached on its own chain from genesis, is later than its parent, and the justified block stays cached or absent |
| BlockImports.AnswerIsExact | src/blockchain/fork_choice.cpp:888-948 | the answer is a function of the block and of what is stored |
| PrunedBlocks.PrunedIsLost | src/blockchain/fork_choice.cpp:944-948 | every block that an import removes hangs, by a path of removed blocks, off a stored block that is not cached |
| PrunedBlocks.LostStaysLost | src/blockchain/fork_choice.cpp:888-948 | whatever block arrives, no block of such a path is stored again: what finality prunes never comes back |
| PrunedBlocks.LostJustifiedStays | src/blockchain/fork_choice.cpp:938-942 | a justified block that was pruned stays the justified block of the tree for good |
| PrunedBlocks.JustifiedIsCachedOrLost | src/blockchain/fork_choice.cpp:938-948 | an import leaves the justified block cached or pruned for good |
| LostJustified.JustifiedIsLost | src/blockchain/fork_choice.cpp:938-948 | six blocks from genesis, on two forks, after which the justified block of the tree is pruned while the chain justifies on |
| LostJustified.BlocksDetermineRun | src/blockchain/fork_choice.cpp:888-948 | the blocks determine the run |
| Clients.Start | src/blockchain/fork_choice.cpp:91-111 | a client from genesis satisfies the invariant, with head and safe target at the genesis block after its first updates |
| Clients.ValidateSignatures | src/blockchain/fork_choice.cpp:786-886 | holds exactly with one proof for each attestation, participants among the validators, and valid signatures |
| Clients.Client.OnBlock | src/blockchain/fork_choice.cpp:888-983 | `onBlock` as a whole, on every run and for every block: the exact answer, database, states, tree, checkpoints and votes, and the head; each step happens exactly when the ones before it succeeded. No condition on the head is asked |
| Clients.Client.UpdateHead | src/blockchain/fork_choice.cpp:197-255 | on every run the head moves to a leaf of the tree, under its slot, exactly while the old head is stored |
| Clients.Client.UpdateSafeTarget | src/blockchain/fork_choice.cpp:175-195 | on every run it fails exactly when the head is no longer stored, and else the safe target is the unique deepest block with two-thirds support; voters are never more than validators |
| Clients.Client.OnGossipAggregated | src/blockchain/fork_choice.cpp:637-653 | each answer exactly, and the exact pending votes; only validators of the chain are kept |
| Clients.Client.AcceptNewAttestations | src/blockchain/fork_choice.cpp:257-266 | pending votes become known, and the head follows exactly while the old one is stored |
| Clients.Client.ChooseTarget | src/blockchain/fork_choice.cpp:317-374 | on every run the target is the nearest justifiable block whenever the client can vote, so in particular while head and justified block are cached; otherwise a header is missing or `isJustifiableSlot` is asked below finality |
| Clients.TargetBelowFinality | src/blockchain/fork_choice.cpp:348-368 | a head at the finalized block with a limit below it, where a debug build aborts |
| AttestationTargets.GetAttestationTarget | src/blockchain/fork_choice.cpp:317-374 | both loops together find the specified target; they fail exactly when a header is missing on the way or the assertion of `isJustifiableSlot` fails |
| AttestationTargets.LookBackStops | src/blockchain/fork_choice.cpp:348-356 | the first walk ends at an ancestor, after the given number of parents or at the first slot not above the limit |
| AttestationTargets.NearestIsFound | src/blockchain/fork_choice.cpp:361-368 | the second walk finds the nearest ancestor-or-self at a justifiable distance, never before finality |
| AttestationTargets.TargetIsNearestJustifiable | src/blockchain/fork_choice.cpp:317-374 | for a head above finality no header is missing and no assertion fails, at most three parents are skipped, and the target is the nearest justifiable ancestor of that stop |
| AttestationTargets.TargetIsFoundExactly | src/blockchain/fork_choice.cpp:336-373 | on the answers of every block tree, a debug build finds a target if and only if the head is cached and the limit is not below finality or the head is at least three blocks below the finalized one |
| AttestationTargets.CachedCanVote | src/blockchain/fork_choice.cpp:336-373 | a cached head and a cached justified block meet that condition |
| AttestationTargets.NearestSkipsNothing | src/blockchain/fork_choice.cpp:361-368 | no later justifiable block on the path is passed over |
| AttestationTargets.TargetIsCloseWithoutGaps | src/blockchain/fork_choice.cpp:361-368 | without empty slots the target is at most isqrt(d) slots behind a stop at distance d |
| ProofPools.ProofCoverage | src/blockchain/fork_choice.cpp:1344-1381 | after adding a proof the covered voters are exactly the old ones and its participants; proofs stay incomparable and disjoint from raw signatures |
| ProofPools.SameProofAgain | src/blockchain/fork_choice.cpp:655-676 | adding the same proof again changes nothing |
| ProofPools.SignatureCoverage | src/blockchain/fork_choice.cpp:1328-1342 | after adding a signature the batch speaks for exactly one more voter, at most |
| ProofPools.AggregateCoverage | src/blockchain/fork_choice.cpp:1394-1451 | aggregation covers exactly everyone the batch spoke for |
| ProofPools.NoVoterIsLostOrInvented | src/blockchain/fork_choice.cpp:1328-1451 | after any sequence of these operations a batch speaks for exactly the voters that were brought in |
| ProofPools.PutSignature | src/blockchain/fork_choice.cpp:1328-1342 | keeps a signature unless a proof covers its validator |
| ProofPools.PutProof | src/blockchain/fork_choice.cpp:1344-1381 | drops proofs strictly inside the new one, stores it unless the rest covers it, drops its raw signatures |
| ProofPools.MergeBatch | src/blockchain/fork_choice.cpp:1400-1449 | throws exactly when the target state lacks a voter, else one proof for everyone and no raw signatures |
| ProofPools.ProofPool.AddSignature | src/blockchain/fork_choice.cpp:1328-1342 | changes exactly the batch of that vote, unless its target is below finality |
| ProofPools.ProofPool.AddProof | src/blockchain/fork_choice.cpp:1344-1381 | the same for a proof, keeping every batch well formed and under its own key |
| ProofPools.ProofPool.AddForEachParticipant | src/blockchain/fork_choice.cpp:655-676 | adding the proof once per participant is adding it once, or not at all without participants |
| ProofPools.ProofPool.AggregateSignatures | src/blockchain/fork_choice.cpp:1394-1451 | throws exactly when a batch to be merged names a validator unknown to its target state; otherwise exactly the batches with a known target state and something to merge become one proof each, which is returned. No batch ever loses or gains a voter |
| Rlp.BigEndianRoundTrip | src/serde/enr.cpp:61-71 | folding the digits of a number gives the number |
| Rlp.BytesRoundTrip | src/serde/enr.cpp:103-114 | every encoded byte string is read back and exactly the unread suffix is left |
| Rlp.ListRoundTrip | src/serde/enr.cpp:95-101 | every encoded list is read back and exactly the unread suffix is left |
| Rlp.UintRoundTrip | src/serde/enr.cpp:139-143 | every encoded 64-bit number is read back at every width that fits it, and the suffix is left |
| Rlp.BoolRoundTrip | src/serde/enr.cpp:145-154 | both booleans are read back and the suffix is left |
| Rlp.RestIsSuffix | src/serde/enr.cpp:156-163 | whatever the input, a read leaves a suffix of it, and a successful one consumes something |
| Rlp.KeyValuesRoundTrip | src/serde/enr.cpp:165-179 | the key-value loop recovers every pair of any list, the first of a repeated key |
| RlpCodec.DigitCount | src/serde/enr.cpp:192-200 | the digit count taken from leading zeros is the length of the big-endian form |
| RlpCodec.DigitAt | src/serde/enr.cpp:192-200 | a shifted and truncated number is its digit at that place |
| RlpCodec.EncodeBuffer.Uint | src/serde/enr.cpp:192-200 | the loop fills the nine-byte buffer with the prefix and the big-endian digits |
| RlpCodec.EncodeBuffer.LengthOf | src/serde/enr.cpp:201-209 | short and long length prefixes |
| RlpCodec.Encoder.Uint | src/serde/enr.cpp:212-221 | appends exactly the encoding of the number |
| RlpCodec.Encoder.PutBytes | src/serde/enr.cpp:223-232 | appends exactly the encoding of the byte string, a small single byte as itself |
| RlpCodec.Encoder.List | src/serde/enr.cpp:234-269 | wraps everything written so far in a list |
| RlpCodec.Decoder.Take | src/serde/enr.cpp:52-59 | consumes exactly that many bytes or fails and consumes none |
| RlpCodec.Decoder.Payload | src/serde/enr.cpp:73-89 | result and unread rest are those of the specification, in every error case too |
| RlpCodec.Decoder.List | src/serde/enr.cpp:95-101 | for every input, malformed ones too, result and unread rest are those that ListRoundTrip is about |
| RlpCodec.Decoder.GetBytes | src/serde/enr.cpp:103-114 | the same for BytesRoundTrip |
| RlpCodec.Decoder.GetBytesN | src/serde/enr.cpp:116-127 | fails exactly on a failed read or another length, and consumes what the read consumed |
| RlpCodec.Decoder.GetUint | src/serde/enr.cpp:139-143 | for every input and width, result and unread rest are those that UintRoundTrip is about |
| RlpCodec.Decoder.GetBool | src/serde/enr.cpp:145-154 | the same for BoolRoundTrip, with overflow for every other number |
| RlpCodec.Decoder.Skip | src/serde/enr.cpp:156-163 | skips exactly one item, list or byte string, in the sense of RestIsSuffix |
| RlpCodec.Decoder.KeyValues | src/serde/enr.cpp:165-179 | terminates, with the map and the rest of the specification |
| RlpCodec.ReadUint | src/serde/enr.cpp:61-71 | folds the digits, or reports overflow exactly when they are too many |
| EnrRecords.EncodeContent | src/serde/enr.cpp:338-352 | throws exactly without address or port, else writes the sequence number and the fields in key order |
| EnrRecords.GetSignable | src/serde/enr.cpp:354-358 | throws exactly there, else the signed payload of the record |
| EnrRecords.Encode | src/serde/enr.cpp:421-453 | the error for another key type or key size, a signing failure, or the text of the record signed over its own payload |
| EnrRecords.DecodeFields | src/serde/enr.cpp:377-407 | the fields of the key-value map, or the first failing one in source order |
| EnrRecords.DecodeRecord | src/serde/enr.cpp:367-419 | the record, or the first error in source order, a failure of the signature scheme itself included |
| EnrRecords.DecodeText | src/serde/enr.cpp:360-419 | the same behind the prefix and base64, whose failure is an exception |
| EnrRecords.FieldsRoundTrip | src/serde/enr.cpp:377-407 | every field is recovered from the map of the encoded fields |
| EnrRecords.SignedPayloadIsRebuilt | src/serde/enr.cpp:371-373 | the payload that decoding verifies is byte for byte the one that was signed |
| EnrRecords.RecordRoundTrip | src/serde/enr.cpp:360-419 | every record with address and port comes back with all its fields |
| EnrRecords.TextRoundTrip | src/serde/enr.cpp:360-453 | `decode` undoes `encode` through the text form |
| EnrRecords.PublishedIsRead | src/serde/enr.cpp:360-453 | whatever `encode` publishes is read back with the key, address, port and flag it was given |
| SnappyFraming.CompressFramed | src/serde/snappy.hpp:96-116 | the loop writes the identifier frame and one frame per block |
| SnappyFraming.FrameSplits | src/serde/snappy.hpp:118-123 | the decoder splits off exactly one frame, whatever follows |
| SnappyFraming.UncompressFramed | src/serde/snappy.hpp:125-165 | the loop gives the result of the specification, in every error case too |
| SnappyFraming.FramedRoundTrip | src/serde/snappy.hpp:96-165 | decoding an encoded input gives it back exactly when it is within the size limit, else reports that it is too long |
| SnappyFraming.ReadFramed | src/serde/snappy.hpp:167-189 | the announced size, its limit and the stream loop give the result of the specification and the unread stream |
| SnappyFraming.StreamAgreesWithDecoder | src/serde/snappy.hpp:125-189 | reading frame by frame gives the same bytes as decoding at once and leaves what follows the message |
| SnappyFraming.WriteFramed | src/serde/snappy.hpp:191-199 | what the writer puts on the stream is what MessageRoundTrip is about |
| SnappyFraming.MessageRoundTrip | src/serde/snappy.hpp:167-199 | the reader gives back every message within the limit, whatever follows it on the stream |
| SnappyFraming.MessageIsConsumed | src/serde/snappy.hpp:167-199 | it leaves exactly what follows the message if and only if the message is not empty |
| OrphanCaches.OrphanCache.Insert | src/modules/networking/networking.cpp:878-883 | adds exactly one block and keeps the child multimap in bijection with the blocks |
| OrphanCaches.OrphanCache.Remove | src/modules/networking/networking.cpp:1133-1135 | takes out exactly one block and its edge |
| OrphanCaches.OrphanCache.ReceiveVote | src/modules/networking/networking.cpp:576-644 | a vote for a known head is handed on, one for a head of a finalized slot is dropped, any other waits under its head; what waits stays later than the finalized slot |
| OrphanCaches.OrphanCache.KidsOf | src/modules/networking/networking.cpp:1145-1149 | lists each cached child of a block once |
| OrphanCaches.OrphanCache.Drain | src/modules/networking/networking.cpp:1122-1151 | terminates without meeting an inconsistent block; delivers each block once, after its parent and with the parent's verdict, with exactly its waiting votes; nothing waiting for a delivered block is left |
| OrphanCaches.DrainIsLeast | src/modules/networking/networking.cpp:1122-1151 | nothing else is delivered: the delivered set is inside every set that contains the start and is closed under waiting children |
| OrphanCaches.OrphanCache.Prune | src/modules/networking/networking.cpp:1101-1120 | forgets exactly what is not after the finalized slot, in all three containers, keeps the bijection, and leaves only later blocks and votes |
| OrphanCaches.OrphanCache.ForgetChildren | src/modules/networking/networking.cpp:867-875 | the walk over the children of a finalized-slot block meets an erased entry exactly when a cached block waits for it |
| OrphanCaches.OrphanCache.ReceiveBlock | src/modules/networking/networking.cpp:831-943 | the whole effect of a received block, case by case and each exactly: ignored, an erased entry, waiting, or drained and pruned |
| OrphanCaches.ErasedEntryExample | src/modules/networking/networking.cpp:867-875 | a waiting child followed by its parent at a finalized slot |

## Left out

- XMSS, secp256k1, SHA and Keccak, SSZ, base64, varints, RocksDB, libp2p, HTTP, configuration, metrics and logging: parameters of the model or absent.
- Threads and mutexes: the core runs under one exclusive lock, so the model is sequential.
- 64-bit wrap-around: slots, counts and indexes are unbounded, except that a subtraction the code relies on is a fault when it would be negative.
- Floating point in `isJustifiableSlot`: the model has the intended integer predicate. What a release build answers below finality is a parameter, and no result depends on it.
- A chain with no validators: the proposer computation divides by their number, so run theorems take at least one.
- Accountable safety across forks: the tally is keyed by target root alone, so votes with different sources are pooled.
- `getProposalAttestations` and the fixed point of block production, the slot clock and `onTick`, which runs the operations of the client in turn, and the depth that `updateHead` reports for a reorganisation.
- The anchor blocks that `getBlockSlot` and `validateAttestation` consult before the block tree: the model reads the tree.
- `bestWith`, the `reverted` flag and the stored depth of tree nodes, `SmallLruCache`, `BlockTreeInitializer`, `removeUnfinalized`, and events such as the list of retired blocks sent on finalization.
- Bodies, signatures and attestations in the block database: only headers, states, slot index and leaf list are modelled.
- Snappy data frames shorter than the checksum: a fault in the model.
- Peers, back-off and `requestBlock`.
- BlockImports.Importer.OnBlock: the outcome of signature validation is an argument, a state is always stored, and the state cache holds what the database holds.
- Clients.Client.OnBlock: the signature scheme and the current slot are arguments; the proofs that `onBlock` adds to the pool of `proof_pool`, and the pruning of that pool, are not part of the client.
- CachedTrees.CachedTree.Add: nodes are named by their hash, so objects that were detached and are still referenced elsewhere are not modelled; the child slot is after the parent slot, which `BlockImports.Importer.OnBlock` establishes for every imported block.
- BlockTrees.BlockTree.AddBlock: takes the child slot to be after the parent slot and equal hashes to have equal headers; `BlockImports.Importer.OnBlock` establishes both.
- BlockTrees.BlockTree.constructor: starts from one stored block whose parent is not stored, not from an existing database.
- SafeTargets.SafeTargetIsDeepestSupported: takes at least one validator and at most as many voters as validators. `Clients.Client.UpdateSafeTarget` establishes both on every run, because only validators of the chain are kept as voters, one vote each; `TooManyVotersBreakUniqueness` shows that the bound is needed.
- RlpCodec.Encoder.PutBytes: lengths are below 2^64, as they are in memory.
