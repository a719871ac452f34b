# Verified models of the consensus-spec tooling

The repository generates executable consensus specifications and the tests for them. This project models the
parts of that tooling that compute something non-trivial, and proves what they are for.

- **Trusted setup** (`Modular`, `Group`, `Fft`, `Lagrange`, `Kzg`): the recursive transform over group elements is the
  discrete Fourier transform, and the Lagrange form of a setup commits to the same polynomials as the setup itself.
  Points are any module over the residues of the scalar field. The modulus `m` is a parameter; two facts about it are
  hypotheses (`Kzg.FieldFacts`): 7 is not a square modulo `m`, and `2^(m-1) = 1` modulo `m`. `BLS_MODULUS` is the
  number they are meant for; which lengths it admits is computed with the number itself (`Kzg.RootExists`).
- **Merkle trees** (`Bits`, `Merkle`, `GeneralizedIndex`): the streaming algorithm, the level-by-level builder and the
  padded full tree have the same roots; branches are complete and unique; generalized indices are paths. The pair hash
  is any function, injective where that is stated. `get_merkle_root` truncates the logarithm of its padding and
  `merkleize_chunks` rounds it up, so the heights of the two trees agree exactly on powers of two; elsewhere the
  streaming root is one level higher, unless the floating-point logarithm was already rounded up
  (`Merkle.RootsCompared`).
- **Dependency ordering** (`Ordering`, `DependencyOrder`): the in-place reshuffling of a dictionary, repeated until
  nothing changes, sorts an acyclic relation within the number of passes that its longest chain needs.
- **Message scheduler** (`Scheduling`, `SchedulingRuns`, `Scheduler`): termination of the mutually recursive retry
  queue, what every run keeps, and that it skips nothing: every message, also inside an accepted block, is handed to
  its handler, and every slot on the way to a time is ticked. The comparison in `is_early_message` is modelled as it
  is written. It sorts messages of past slots as early and messages of coming slots as not early, and lemmas state
  what follows: the former are never delivered once queued (`ChildWaitsForever` is such a run), the latter are refused
  and not kept.
- **Fork transitions** (`Slots`, `ForkTransition`): crossing any number of forks on the way to a slot.
- **Mutated test vectors** (`Mutation`): random mutation runs, and the conversion to events and back.
- **Light client data** (`BlockTree`, `BetterUpdate`, `LightClientData`, `LightClientInvariant`, `LightClientSetup`,
  `LightClientBlock`, `LightClientHead`, `LightClientFinality`, `LightClientRun`, `LightClientViews`,
  `LightClientBootstraps`, `LightClientCommittees`, `LightClientExamples`, `LightClientWrongCommittee`,
  `LightClient`): an incrementally maintained cache over a tree of blocks that is reorganized and pruned. Every cached
  value is the result of a full scan, and both views are functions of the selected chain and of the finalized headers
  that were looked up. The functions of `LightClientData` are the code on values; `LightClient.DataCollection` is the
  object that the code updates in place. New blocks are assumed to have a fresh root, which is not the one that the
  first block names as its parent, and a fresh post-state, and to extend a block that is not below the finalized slot;
  heads, and the blocks they finalize, to descend from the latest finalized block. Runs under these assumptions can
  still fail: building an update looks up the block that the attested block's post-state finalizes, and that block may
  have been pruned (`PrunedHeader`), or not have been recorded. `RunIsSafe` proves that a legal run fails exactly
  there, and that nothing else in it can fail. The condition, `LightClientInvariant.HeaderAvailable`, can be read off
  the object before the call: the cached finalized slot of the attested block is at or above the latest finalized
  slot, or the last block recorded at or before it is the one at slot 0. Setup is modelled for every state, and fails
  on one that is older than Altair. A tail slot above the first block, as in `StaleView`, needs a first state of a
  post-Altair specification whose configured Altair epoch is still to come; with an epoch that has come, every head is
  at or after the tail slot. The run theorem starts from genesis, where the slot of the finalized epoch and the slot
  of the state agree; from a later state no header can ever be looked up for the first block (`OnlyFromGenesis`).
  Updates are compared by an arbitrary predicate; `BetterUpdate` shows that the comparison of the sync protocol is a
  strict weak order. Two limits of the views are stated exactly: a head below the tail slot is ignored (`HeadIsShown`,
  `StaleView`), and a period without a block is given an older period's best update (`CommitShows`). An update need
  not carry the header of the attested block's own checkpoint: `OtherHeader` is a run in which it does not, and
  `HeaderIsCheckpoint` says exactly when the header that is fixed is that one. `RunBootstraps` says which blocks have
  a bootstrap at the end of any run, and `EntryIsTaken` which committee they are served with. A committee can be that
  of a later period: one finalization goes through its periods from the latest back, and advances the recorded state
  of the block that it takes a committee from, so that a second period with the same block finds the state too far
  ahead. This happens exactly if nothing is finalized between the slots that the two periods' committees are meant
  for, the earlier period's first slot and the later one's, which `finalized_block_roots` shows (`ServedAsMeant`);
  `WrongCommittee` is such a run. Of advancing a state it is assumed that it arrives at the slot, and that a stop on
  the way makes no difference (`LawfulAdvance`). In the two runs in which a header goes wrong every slot has a block,
  so that the finalized checkpoints are those that full participation leads to.

Python exceptions and failed assertions become `None` or a `false` result. Where code works in place, a class or an
array does so here, and each method is proved against a function of the old state; the lemmas are about those
functions. `dfyconfig.toml` lists the files for `dafny verify`.

## Model

| member | source | states |
|---|---|---|
| Fft.Butterfly | tests/core/pyspec/eth2spec/utils/kzg.py:42-48 | a polynomial with point coefficients is its even part at `x^2` plus `x` times its odd part at `x^2`: the identity behind one round |
| Fft.Round | tests/core/pyspec/eth2spec/utils/kzg.py:45-48 | positions `i` and `half + i` of one round hold the values at the two opposite points of the domain |
| Fft.Transform | tests/core/pyspec/eth2spec/utils/kzg.py:34-49 | on every domain that halves, output `k` of the recursive transform is the value at `domain[k]` of the polynomial with coefficients `vals` |
| Fft.PowersFormDomain | tests/core/pyspec/eth2spec/utils/kzg.py:42-43 | the powers of a root with `w^(n/2) = -1` are such a domain for every power of two n, and so are their even positions |
| Fft.EvaluationIsDft | tests/core/pyspec/eth2spec/utils/kzg.py:34-49 | over the powers of `w`, for every vector, output `k` is the sum over j of `w^(j*k) * vals[j]` |
| Lagrange.Orthogonality | tests/core/pyspec/eth2spec/utils/kzg.py:81-88 | the powers of `w^k` sum to n when n divides k and to zero otherwise |
| Lagrange.RecombineValues | tests/core/pyspec/eth2spec/utils/kzg.py:85-88 | evaluating at the powers of one scalar and recombining with the powers of another gathers one geometric sum per coefficient |
| Lagrange.TransformInverts | tests/core/pyspec/eth2spec/utils/kzg.py:85-88 | transforming the reversed, scaled output of the transform gives back every point of the setup |
| Lagrange.LagrangeBasis | tests/core/pyspec/eth2spec/utils/kzg.py:77-89 | for every polynomial of degree below the length, its evaluations combined with the Lagrange points equal its coefficients combined with the setup |
| Lagrange.CombinePowersOfSecret | tests/core/pyspec/eth2spec/utils/kzg.py:22-31 | coefficients combined with the powers of the secret are the value at the secret, times the generator |
| Kzg.GenerateSetup | tests/core/pyspec/eth2spec/utils/kzg.py:22-31 | the loop starts at the generator and multiplies the previous point by the secret; a length of zero still yields one point |
| Kzg.SetupPoint | tests/core/pyspec/eth2spec/utils/kzg.py:22-31 | point i of a setup is `secret^i` times the generator |
| Kzg.RootHasOrder | tests/core/pyspec/eth2spec/utils/kzg.py:52-57 | the root satisfies `w^length = 1`, for every length that divides the group order minus one |
| Kzg.RootsNest | tests/core/pyspec/eth2spec/utils/kzg.py:52-57 | the root for a multiple `k * n` of a length, taken to the k-th power, is the root for n, and the root for the whole group is 7: together with being reduced this fixes every root |
| Kzg.RootMakesHalfTurn | tests/core/pyspec/eth2spec/utils/kzg.py:52-57 | for a power-of-two length, `w^(length/2) = -1` |
| Kzg.RootExists | tests/core/pyspec/eth2spec/utils/kzg.py:56 | for the field of the source, a power-of-two length passes the assertion exactly up to 2^32 |
| Kzg.LengthInverse | tests/core/pyspec/eth2spec/utils/kzg.py:86 | `pow(length, m - 2, m)` is the inverse of a power-of-two length |
| Kzg.ComputeRootsOfUnity | tests/core/pyspec/eth2spec/utils/kzg.py:60-74 | the running product lists the reduced powers of the root; it fails exactly when the count does not divide the order minus one |
| Kzg.RootsAreDistinct | tests/core/pyspec/eth2spec/utils/kzg.py:60-74 | the roots of a power-of-two count are pairwise different residues |
| Kzg.ReversedOutput | tests/core/pyspec/eth2spec/utils/kzg.py:87-89 | index `-i` of the output is the value at the i-th power of the inverse root |
| Kzg.GetLagrange | tests/core/pyspec/eth2spec/utils/kzg.py:77-89 | the result is an inverse transform: its discrete Fourier transform is the setup; it fails exactly when the length does not divide the order minus one |
| Kzg.EvalPolyInCoeffForm | tests/core/pyspec/eth2spec/test/helpers/blob.py:59-66 | the Horner loop with reduction computes the value of the polynomial modulo m |
| Kzg.CommitmentsAgree | tests/core/pyspec/eth2spec/utils/kzg.py:22-89 | committing to the evaluations in the Lagrange basis, or to the coefficients in the powers of the secret, is the value at the secret times the generator |
| Merkle.PaddedRoot | tests/core/pyspec/eth2spec/utils/merkle_minimal.py:12-20 | numbering nodes level by level gives the root of the full tree over the leaves padded with zeros |
| Merkle.EmptyNode | tests/core/pyspec/eth2spec/utils/merkle_minimal.py:16-17 | a node that covers no chunk is the zero hash of its level |
| Merkle.BuildZeroHashes | tests/core/pyspec/eth2spec/utils/merkle_minimal.py:5-9 | entry k of the table is the root of an all-zero tree of height k, for one hundred levels |
| Merkle.CalcMerkleTreeFromLeaves | tests/core/pyspec/eth2spec/utils/merkle_minimal.py:12-20 | layer k holds exactly the nodes of height k that cover at least one leaf |
| Merkle.GetMerkleRoot | tests/core/pyspec/eth2spec/utils/merkle_minimal.py:30-36 | the root of the padded tree whose height is `int(log2(pad_to))`, however the platform rounds that logarithm; the zero leaf for `pad_to = 0` |
| Merkle.Merge | tests/core/pyspec/eth2spec/utils/merkle_minimal.py:64-77 | carrying a node along the set bits of the counter keeps, for every set bit, the root of one complete subtree; the padding call leaves the root at `depth` |
| Merkle.MerkleizeChunks | tests/core/pyspec/eth2spec/utils/merkle_minimal.py:47-91 | streaming stays inside its buffer and returns the root of the padded tree whose height is the logarithm of the limit rounded up; it fails exactly when the chunks exceed the limit |
| Merkle.TreeDepthIsCeiling | tests/core/pyspec/eth2spec/utils/merkle_minimal.py:60-61 | that height is the least one with room for the limit |
| Merkle.RootsCompared | tests/core/pyspec/eth2spec/utils/merkle_minimal.py:30-36 | for every limit and every rounding of the logarithm: the roots are equal exactly if the heights are, or the hash of the two nodes below the higher root happens to be the first of them; rounding down, the heights are equal exactly on powers of two |
| Merkle.HeightsCompared | tests/core/pyspec/eth2spec/utils/merkle_minimal.py:60-61 | the logarithm rounded up is one more than the logarithm rounded down, except on powers of two |
| Merkle.GetMerkleProof | tests/core/pyspec/eth2spec/utils/merkle_minimal.py:39-44 | element i is the sibling of the i-th node on the path from the leaf, read from the tree or from the zero hashes |
| Merkle.IsValidMerkleBranch | specs/phase0/beacon-chain.md:796-808 | the loop accepts exactly if folding the first `depth` elements of the branch gives the root |
| Merkle.BranchFoldsFrom | tests/core/pyspec/eth2spec/utils/merkle_minimal.py:39-44 | cut at any height, a branch folds the node there to the root |
| Merkle.BranchIsComplete | tests/core/pyspec/eth2spec/utils/merkle_minimal.py:39-44 | the branch of any position, filled or empty, folds to the root |
| Merkle.BranchIsUnique | specs/phase0/beacon-chain.md:796-808 | under an injective pair hash no other leaf or branch of that length folds to the same root at that index |
| Merkle.DepositProof | tests/core/pyspec/eth2spec/test/helpers/deposits.py:67-79 | the proof is a branch of 32 siblings in the padded tree, then the node of the list length; it folds to the root of the deposit list mixed with its length, so the assertion of the source holds |
| Merkle.DepositRootParts | tests/core/pyspec/eth2spec/test/helpers/deposits.py:67-79 | that root is the hash of two parts: the root of the full tree of height 32 over the padded deposits, and the length node |
| Merkle.TwoLeaves | tests/core/pyspec/eth2spec/utils/merkle_minimal.py:12-20 | in the smallest trees the first leaf stands on the left, a missing one is the zero leaf, and the bit of the index says on which side the sibling is hashed |
| GeneralizedIndex.BuildProof | tests/core/pyspec/eth2spec/test/helpers/merkle.py:4-21 | walking down and reversing yields the siblings of the path, nearest first; it fails exactly when the path leaves the tree, and is empty for the indices 0 and 1 |
| GeneralizedIndex.CalculateMerkleRoot | ssz/merkle-proofs.md:344-351 | folding along the bits of the index; it fails exactly on a wrong proof length |
| GeneralizedIndex.ProofFoldsToRoot | tests/core/pyspec/eth2spec/test/helpers/merkle.py:4-21 | for any tree and any generalized index inside it, the built proof folds back to the root |
| GeneralizedIndex.SiblingsExtend | tests/core/pyspec/eth2spec/test/helpers/merkle.py:11-19 | descending along two paths composes, and the proof grows at its front |
| GeneralizedIndex.IndexOfPath | tests/core/pyspec/eth2spec/test/helpers/merkle.py:10-11 | a generalized index is determined by its path |
| GeneralizedIndex.Children | tests/core/pyspec/eth2spec/test/helpers/merkle.py:4-21 | index 2 leads to the left part of a pair and index 3 to the right one, which are hashed in this order |
| GeneralizedIndex.BitFloorBounds | specs/_features/eip7732/beacon-chain.md:304-310 | the largest power of two not above the argument |
| GeneralizedIndex.ConcatGeneralizedIndices | pysetup/spec_builders/eip7732.py:17-21 | the accumulator loop computes the left fold of the single step |
| GeneralizedIndex.ConcatPath | pysetup/spec_builders/eip7732.py:20 | the arithmetic of one step concatenates the two paths |
| GeneralizedIndex.ConcatAllPath | pysetup/spec_builders/eip7732.py:17-21 | the result for any list leads where its members lead one after the other |
| GeneralizedIndex.ConcatMonoid | pysetup/spec_builders/eip7732.py:17-21 | concatenation is associative with identity 1 |
| GeneralizedIndex.ProofOfConcat | pysetup/spec_builders/eip7732.py:17-21 | the proof at a concatenation is the proof of b inside node a, followed by the proof of a |
| Ordering.SourceMove | pysetup/helpers.py:328-330 | the pops and reinsertions for one dependency amount to one move: a key before its dependency goes right behind it, otherwise nothing changes |
| Ordering.RotateBlock | pysetup/helpers.py:329-330 | reinserting a block of keys one by one rotates it past what follows |
| Ordering.MoveKeepsBefore | pysetup/helpers.py:328-330 | a move only carries its key to the right; every other pair keeps its order |
| Ordering.MoveEstablishes | pysetup/helpers.py:328-330 | afterwards the dependency precedes the key |
| Ordering.MovedRightBehind | pysetup/helpers.py:328-330 | a key that stood before its dependency ends right behind it, a key behind it stays, and all others keep their order |
| DependencyOrder.OrderedDict.Pop | pysetup/helpers.py:330 | removes a key and keeps the order of the others |
| DependencyOrder.OrderedDict.Put | pysetup/helpers.py:330 | a new key goes to the end, a known one keeps its place |
| DependencyOrder.OrderOne | pysetup/helpers.py:327-330 | the inner loop on the dictionary is that one move |
| DependencyOrder.OrderKey | pysetup/helpers.py:327-330 | all dependencies of one key, in order |
| DependencyOrder.KeyBehindLast | pysetup/helpers.py:327-330 | the inner loop moves no other key; its own ends behind all its dependencies, right behind one of them if it moved at all, and it stays if none stood behind it |
| DependencyOrder.PassUsesInOrder | pysetup/helpers.py:306-330 | a pass looks at the keys in the order of its snapshot, and at the dependencies of each in their own order |
| DependencyOrder.DependencyOrderClassObjects | pysetup/helpers.py:306-330 | one call on the dictionary is one pass over the keys and dependencies of its snapshot, and changes no value |
| DependencyOrder.PassKeeps | pysetup/helpers.py:306-330 | a pass permutes the keys |
| DependencyOrder.LeastMover | pysetup/helpers.py:327-330 | a moved key of least rank ends behind a key that it started before |
| DependencyOrder.MovesNeverCancel | setup.py:105-110 | on an acyclic relation a pass ends in the order it started from exactly if it moved nothing |
| DependencyOrder.FixpointIsSorted | setup.py:103-110 | an order is a fixpoint exactly if every dependency precedes its user |
| DependencyOrder.SortedIsAcyclic | setup.py:103-110 | only an acyclic relation has such an order: the position is a rank |
| DependencyOrder.SettledStays | setup.py:105-110 | settled ranks stay settled, and no key of such a rank moves again |
| DependencyOrder.PassSettles | setup.py:105-110 | each pass settles one more rank |
| DependencyOrder.SettledNext | setup.py:105-110 | with r ranks settled, one more is settled after a pass, and none of their keys moves in it |
| DependencyOrder.NeverMovesAgain | setup.py:105-110 | after pass r no key of rank r or less ever moves again: not in the pass that follows q passes, for every q from r on |
| DependencyOrder.AllSettled | setup.py:105-110 | once all ranks are settled a pass changes nothing |
| DependencyOrder.OrderToFixpoint | setup.py:103-110 | the loop ends after at most D + 1 passes for any bound D on the ranks, with the same items, every dependency before its user |
| DependencyOrder.CycleStopsUnsorted | setup.py:103-110 | on a cycle of two keys both move and the pass still ends in the order it started from: the loop stops unsorted |
| Scheduling.ProcessItems | tests/generators/compliance_runners/fork_choice/instantiators/scheduler.py:49-64 | every round that reports an update has taken one block item out for good, and quiescence of the queue is kept |
| Scheduling.ProcessQueue | tests/generators/compliance_runners/fork_choice/instantiators/scheduler.py:49-64 | terminates on the number of queued block items; afterwards every queued item is early |
| Scheduling.PurgeQueue | tests/generators/compliance_runners/fork_choice/instantiators/scheduler.py:66-74 | terminates, and leaves only early items |
| Scheduling.ProcessBlock | tests/generators/compliance_runners/fork_choice/instantiators/scheduler.py:117-131 | an accepted block is among its own events, which is the assertion in the queue loop; a refused one changes neither the store nor the log |
| Scheduling.ProcessTick | tests/generators/compliance_runners/fork_choice/instantiators/scheduler.py:76-91 | fails exactly when time runs backwards, and keeps quiescence |
| Scheduling.SlotAfterTick | tests/generators/compliance_runners/fork_choice/instantiators/scheduler.py:81-86 | each tick moves the clock by exactly one slot, so the loop ends |
| Scheduling.ItemsStep | tests/generators/compliance_runners/fork_choice/instantiators/scheduler.py:49-64 | draining accounts for every drained item: accepted, queued again, or refused when not early; the log replays |
| Scheduling.PurgeStep | tests/generators/compliance_runners/fork_choice/instantiators/scheduler.py:66-74 | the same for the retry loop |
| Scheduling.BlockStep | tests/generators/compliance_runners/fork_choice/instantiators/scheduler.py:117-131 | the same for a block and the attestations it carries |
| Scheduling.TickStep | tests/generators/compliance_runners/fork_choice/instantiators/scheduler.py:76-91 | the same for a tick |
| Scheduling.RunIsSafe | tests/generators/compliance_runners/fork_choice/instantiators/scheduler.py:27-131 | after any operations: every queued item is early; every message received was accepted, is queued, or was refused when not early; and replaying the logged ticks and blocks accepts each one and reaches the same blocks, clock and chain |
| Scheduling.ReplayIsTopological | tests/generators/compliance_runners/fork_choice/instantiators/scheduler.py:49-91 | in a log that replays each block comes after its parent, and the blocks gained are exactly the logged ones |
| Scheduling.OneRoundIsEnough | tests/generators/compliance_runners/fork_choice/instantiators/scheduler.py:66-74 | the second round of the retry loop never finds work: one call of `process_queue` already retries everything |
| Scheduling.StaleMessagesWaitForever | tests/generators/compliance_runners/fork_choice/instantiators/scheduler.py:33-37 | with the comparison as written, a queued item whose slot has passed stays queued in every later run |
| Scheduling.ChildWaitsForever | tests/generators/compliance_runners/fork_choice/instantiators/scheduler.py:33-37 | a run from an empty queue that queues such an item: at slot 3 a block of slot 2 arrives before its parent of slot 1; the parent is accepted, the block then meets what the handler asks for, and it is never delivered |
| Scheduling.QueueIsMade | tests/generators/compliance_runners/fork_choice/instantiators/scheduler.py:93-131 | in every run each queued item waits for the slot and the roots of its message |
| Scheduling.TurnDecides | tests/generators/compliance_runners/fork_choice/instantiators/scheduler.py:49-64 | the converse: a drain gives every item one turn, in queue order; an item that is early at its turn goes back to the end of the queue and nothing else changes, any other gets its outcome there and then, which no later step takes back |
| Scheduling.RefusedBlock | tests/generators/compliance_runners/fork_choice/instantiators/scheduler.py:117-131 | a block that the handler refuses is kept exactly if its parent is unknown or its slot has passed, and nothing else happens |
| Scheduling.RefusedAttestation | tests/generators/compliance_runners/fork_choice/instantiators/scheduler.py:93-101 | a refused attestation is kept exactly if one of its two roots is unknown or the slot after its own has passed |
| Scheduling.FutureBlocksAreRefused | tests/generators/compliance_runners/fork_choice/instantiators/scheduler.py:33-37 | and a block from a coming slot whose parent is known is refused for good, not kept |
| SchedulingRuns.RunReceives | tests/generators/compliance_runners/fork_choice/instantiators/scheduler.py:93-131 | after any operations the messages received are those that were submitted and the attestations of every block that was accepted, each as often as it occurs: none is skipped |
| SchedulingRuns.AcceptedBlock | tests/generators/compliance_runners/fork_choice/instantiators/scheduler.py:110-131 | the whole effect of an accepted block: the store of the handler, the purge, then its attestations in order, each marked as coming from a block and given the votes that the one before left, and last its slashings |
| SchedulingRuns.AttestationEffect | tests/generators/compliance_runners/fork_choice/instantiators/scheduler.py:93-101 | the votes that the handler returns are kept whatever its verdict; a refused early attestation is queued, any other gets its outcome |
| SchedulingRuns.TickIsExact | tests/generators/compliance_runners/fork_choice/instantiators/scheduler.py:76-91 | for a time that does not run backwards, the clock ends in the slot of that time, and exactly the slots passed are ticked, each at its first second and in order, the recovery mark missing on the last one alone |
| SchedulingRuns.TickReaches | tests/generators/compliance_runners/fork_choice/instantiators/scheduler.py:81-90 | the loop ends in the target slot, or stays where it is if that has come, with those ticks |
| SchedulingRuns.OnlyTicksMoveTheClock | tests/generators/compliance_runners/fork_choice/instantiators/scheduler.py:93-131 | no other operation changes the time |
| SchedulingRuns.BlockRetries | tests/generators/compliance_runners/fork_choice/instantiators/scheduler.py:117-131 | the first event of an accepted block is its own, with the mark it was given; every event behind it is a retried block or attestation with the recovery mark |
| SchedulingRuns.PerformLogs | tests/generators/compliance_runners/fork_choice/instantiators/scheduler.py:49-131 | every operation logs exactly the messages it accepts, in the order of acceptance, except an attestation that is handed in directly, which its caller logs |
| Scheduler.MessageScheduler.constructor | tests/generators/compliance_runners/fork_choice/instantiators/scheduler.py:28-31 | an empty queue over the given store |
| Scheduler.MessageScheduler.DrainQueue | tests/generators/compliance_runners/fork_choice/instantiators/scheduler.py:42-47 | returns the queued items and empties the queue |
| Scheduler.MessageScheduler.ProcessQueue | tests/generators/compliance_runners/fork_choice/instantiators/scheduler.py:49-64 | the object after the loop is the state of the function of that name, with the same result and log |
| Scheduler.MessageScheduler.PurgeQueue | tests/generators/compliance_runners/fork_choice/instantiators/scheduler.py:66-74 | likewise for the retry loop |
| Scheduler.MessageScheduler.ProcessTick | tests/generators/compliance_runners/fork_choice/instantiators/scheduler.py:76-91 | likewise for the loop over slot boundaries; on a failure nothing changes |
| Scheduler.MessageScheduler.ProcessAttestation | tests/generators/compliance_runners/fork_choice/instantiators/scheduler.py:93-101 | likewise: applied, queued when early, or refused |
| Scheduler.MessageScheduler.ProcessSlashing | tests/generators/compliance_runners/fork_choice/instantiators/scheduler.py:103-108 | likewise |
| Scheduler.MessageScheduler.ProcessBlockMessages | tests/generators/compliance_runners/fork_choice/instantiators/scheduler.py:110-115 | likewise for the attestations and slashings of a block |
| Scheduler.MessageScheduler.ProcessBlock | tests/generators/compliance_runners/fork_choice/instantiators/scheduler.py:117-131 | likewise, with the purge before the block's own messages |
| ForkTransition.NextForkIsFirst | tests/core/pyspec/eth2spec/test/helpers/forks.py:79-84 | the fork found is the first listed one whose predecessor is the current fork |
| ForkTransition.NextFork | tests/core/pyspec/eth2spec/test/helpers/forks.py:79-84 | there is none exactly if no listed fork has the current one as its predecessor |
| ForkTransition.BeaconState.TransitionTo | tests/core/pyspec/eth2spec/test/helpers/state.py:33-40 | arrives exactly at the target, or fails when it lies behind |
| ForkTransition.BeaconState.UpgradeTo | tests/core/pyspec/eth2spec/test/helpers/fork_transition.py:182-191 | records the new fork, its predecessor and the current epoch |
| ForkTransition.DoFork | tests/core/pyspec/eth2spec/test/helpers/fork_transition.py:194-224 | its assertions hold exactly if the next slot is the first of the fork epoch and the fork follows the current one; then the state is upgraded once, at that slot, and the fork record names the fork before |
| ForkTransition.TransitionUntilFork | tests/core/pyspec/eth2spec/test/helpers/fork_transition.py:264-266 | arrives at the last slot before the fork, or fails when the fork slot is not ahead |
| ForkTransition.EndsUnstuck | tests/core/pyspec/eth2spec/test/helpers/fork_transition.py:280-303 | where the loop ends it was never stuck before, and it ends in one place only |
| ForkTransition.IncreasingNeverSticks | tests/core/pyspec/eth2spec/test/helpers/forks.py:79-84 | if the epochs increase as far as the epoch of the target, the assertion that the next fork is not due yet can fail for the first fork only |
| ForkTransition.EndsAtLastDue | tests/core/pyspec/eth2spec/test/helpers/fork_transition.py:280-303 | and then all forks up to the one the loop ends under are due at the target, and the next one is not |
| ForkTransition.CrossedAreDue | tests/core/pyspec/eth2spec/test/helpers/fork_transition.py:280-303 | if moreover the epochs never decrease, the forks crossed are exactly those that are due at the target |
| ForkTransition.Cross | tests/core/pyspec/eth2spec/test/helpers/fork_transition.py:292-303 | one crossing ends at the first slot of the fork epoch under the new fork, with a block exactly if that is the target and a block was asked for |
| ForkTransition.TransitionAcrossForks | tests/core/pyspec/eth2spec/test/helpers/fork_transition.py:274-304 | for any fork epochs: it fails exactly when the target is not ahead, or after some number of crossings the next fork is already due; otherwise it ends at the target where no further fork is to be crossed, each crossed fork applied once, in order, at the first slot of its epoch; a block is returned exactly if one was asked for and the target is the slot after the start, the first slot of the last crossed fork, or the slot after that, and it is at the target under the last fork; the fork record is that of the last upgrade |
| ForkTransition.BlockMade | tests/core/pyspec/eth2spec/test/helpers/fork_transition.py:284-302 | the same rule for the block, from the upgrades made |
| Mutation.SortSorts | tests/generators/compliance_runners/fork_choice/instantiators/mutation_operators.py:8 | the sort orders by time |
| Mutation.SortIsStable | tests/generators/compliance_runners/fork_choice/instantiators/mutation_operators.py:8 | messages of equal time keep their order |
| Mutation.MutationKeepsSorted | tests/generators/compliance_runners/fork_choice/instantiators/mutation_operators.py:4-34 | a shift, drop or duplicate that does not reach before the start time keeps the vector sorted and after it, never returns an index, and changes exactly one entry |
| Mutation.MutationPerTime | tests/generators/compliance_runners/fork_choice/instantiators/mutation_operators.py:4-34 | the messages of any one time after a mutation, in order: a dropped one is gone, a shifted one keeps its place among those of its new time, a duplicate stands behind them |
| Mutation.IndexMeansNegative | tests/generators/compliance_runners/fork_choice/instantiators/mutation_operators.py:4-34 | an index is returned exactly for a shift to before time zero, and it is the one given |
| Mutation.MutationOps.RandShift | tests/generators/compliance_runners/fork_choice/instantiators/mutation_operators.py:103-111 | the shift is the one that two draws pick: a coin, then a number from the range before or the range after the message, cut off at the start time; it does not reach before the start time and stays within the bounds |
| Mutation.MutationOps.RandMutation | tests/generators/compliance_runners/fork_choice/instantiators/mutation_operators.py:113-121 | the mutation is the one that the draws pick, and it is producible: it names a message and does not shift before the start time |
| Mutation.MutationOps.DrawnIsDrawable | tests/generators/compliance_runners/fork_choice/instantiators/mutation_operators.py:103-121 | every mutation drawn names a message, with a shift within the bounds of the source |
| Mutation.MutationOps.EveryMutationIsDrawn | tests/generators/compliance_runners/fork_choice/instantiators/mutation_operators.py:103-121 | the converse: every such mutation is drawn for some random numbers, namely these |
| Mutation.MutationOps.EveryRunIsDrawn | tests/generators/compliance_runners/fork_choice/instantiators/mutation_operators.py:123-131 | and so is every list of them in which each applies to what the ones before leave |
| Mutation.MutationKeepsPayloads | tests/generators/compliance_runners/fork_choice/instantiators/mutation_operators.py:4-34 | a mutation invents no message: every payload was there before |
| Mutation.MutationOps.RandMutations | tests/generators/compliance_runners/fork_choice/instantiators/mutation_operators.py:123-131 | every random run ends in a sorted vector after the start time whose payloads are among the given ones, and the recorded mutations reproduce it |
| Mutation.EventsToTestVector | tests/generators/compliance_runners/fork_choice/instantiators/test_case.py:148-165 | each message gets the time of the last tick; fails exactly on an unknown kind |
| Mutation.VectorEntries | tests/generators/compliance_runners/fork_choice/instantiators/test_case.py:148-165 | for all events: entry i is the i-th message, whatever its mark, with the time of the last tick before it, and there is an entry for every message |
| Mutation.TestVectorToEvents | tests/generators/compliance_runners/fork_choice/instantiators/test_case.py:168-176 | a tick whenever the time changes |
| Mutation.VectorRoundTrip | tests/generators/compliance_runners/fork_choice/instantiators/test_case.py:148-176 | from a vector to events and back is the identity |
| Mutation.EventsRoundTrip | tests/generators/compliance_runners/fork_choice/instantiators/test_case.py:148-176 | from events to a vector and back is the identity exactly on events without redundant ticks and marks |
| Mutation.MutateAndConvert | tests/generators/compliance_runners/fork_choice/instantiators/test_case.py:128-145 | the result of every random run, converted to events, converts back to that result |
| BlockTree.AncestorAtIsLast | tests/core/pyspec/eth2spec/test/helpers/light_client_data_collection.py:181-190 | the block found at a slot is the last one of the chain up to there |
| BlockTree.FoldBestIsBest | tests/core/pyspec/eth2spec/test/helpers/light_client_data_collection.py:413-421 | under a strict weak order the fold finds a best update, the oldest among equals |
| BetterUpdate.IsStrictWeakOrder | specs/altair/light-client/sync-protocol.md:220-270 | the cascade of tie breaks is a strict weak order on updates, whatever the facts about each update are |
| BetterUpdate.ComparesMerits | specs/altair/light-client/sync-protocol.md:220-270 | the cascade compares eight merits lexicographically: supermajority, participation without one, relevant committee, finality, finality in the same period, participation, earlier attested slot, earlier signature slot |
| LightClientData.FoundBelow | tests/core/pyspec/eth2spec/test/helpers/light_client_data_collection.py:193-199 | the search returns the last recorded block at or before a slot, or there is none |
| LightClientData.NextBoundary | tests/core/pyspec/eth2spec/test/helpers/light_client_data_collection.py:27-31 | the boundary lies at or after the slot, less than an epoch ahead, so the finalization loop ends |
| LightClientInvariant.HeaderExact | tests/core/pyspec/eth2spec/test/helpers/light_client_data_collection.py:298-314 | the lookup of the finalized header for a retained, cached block succeeds exactly if the cached finalized slot is not below the latest finalized slot, or the last block recorded at or before it is the one at slot 0; it then finds the latest finalized block, or the empty header |
| LightClientSetup.InitialInv | tests/core/pyspec/eth2spec/test/helpers/light_client_data_collection.py:580-637 | from a genesis state setup succeeds exactly if the state is not older than Altair, and the state after it satisfies the invariant, with the tail slot at the start of the Altair epoch, the first block finalized, and no updates |
| LightClientSetup.OnlyFromGenesis | tests/core/pyspec/eth2spec/test/helpers/light_client_data_collection.py:580-637 | after a setup from a genesis state, or from one whose finalized epoch starts before it, a header can be looked up for the first block exactly if the state is at slot 0 |
| LightClientBlock.SameHeader | tests/core/pyspec/eth2spec/test/helpers/light_client_data_collection.py:303-307 | once a header has been looked up for a block, every later successful lookup finds the same one, at the slot that was written back |
| LightClientBlock.PinKeeps | tests/core/pyspec/eth2spec/test/helpers/light_client_data_collection.py:298-314 | a lookup with its write-back keeps the invariant |
| LightClientBlock.ScanStep | tests/core/pyspec/eth2spec/test/helpers/light_client_data_collection.py:357-428 | the incremental rule for a block computes what a scan of its whole chain computes |
| LightClientBlock.AddedData | tests/core/pyspec/eth2spec/test/helpers/light_client_data_collection.py:662-698 | adding a legal block fails exactly if the header for its update is not available, and otherwise caches exactly the recomputed data |
| LightClientBlock.AddBlockKeeps | tests/core/pyspec/eth2spec/test/helpers/light_client_data_collection.py:662-698 | a legal new block succeeds exactly if it makes no update or the header for it is available, and then keeps the invariant: every cached entry equals its recomputation, every retained block from the tail and finalized slots on has one, the finalized roots are the finalized chain, and the views are those of one head |
| LightClientHead.FindInRetained | tests/core/pyspec/eth2spec/test/helpers/light_client_data_collection.py:181-190 | from a descendant of the finalized block, the walk over the retained blocks finds what a walk over all blocks would, down to the finalized slot, and nothing further back |
| LightClientHead.CommitShows | tests/core/pyspec/eth2spec/test/helpers/light_client_data_collection.py:463-481 | the commit loop finds every cache entry it asks for, and leaves for each period exactly the best update of the last block in or before it, if that block is recent enough; a period without a block gets an older period's best |
| LightClientHead.LatestShows | tests/core/pyspec/eth2spec/test/helpers/light_client_data_collection.py:483-501 | the three walks find the most recent sufficiently signed block and its parent; building the update fails exactly if its header is not available, and nothing is shown exactly when the parent is below the low slot |
| LightClientHead.HeadChangeShows | tests/core/pyspec/eth2spec/test/helpers/light_client_data_collection.py:457-501 | a head change succeeds exactly if the head is below the tail slot or the header for the latest update is available; it touches only the two views and the looked-up slot, and shows the new chain; a head below the tail slot changes nothing |
| LightClientFinality.RecordsChain | tests/core/pyspec/eth2spec/test/helpers/light_client_data_collection.py:715-723 | the recording loop never misses a parent or a state, adds exactly the chain above the finalized slot, leaves the older entries alone, and adds exactly the post-states of the blocks that are last before an epoch boundary |
| LightClientFinality.ChainMoves | tests/core/pyspec/eth2spec/test/helpers/light_client_data_collection.py:715-723 | afterwards the finalized roots are exactly the chain from the first block to the newly finalized one |
| LightClientFinality.BootstrapsExact | tests/core/pyspec/eth2spec/test/helpers/light_client_data_collection.py:512-525 | the loop picks exactly the recorded blocks between its bounds with no later one at or before their next epoch boundary |
| LightClientFinality.CommitteeServed | tests/core/pyspec/eth2spec/test/helpers/light_client_data_collection.py:202-223 | for every newly finalized slot the committee of its period is known, or can be taken from a block that is retained and a checkpoint state that is recorded: both lookups succeed |
| LightClientFinality.BootstrapsStored | tests/core/pyspec/eth2spec/test/helpers/light_client_data_collection.py:431-443 | creating bootstraps for recorded, retained and cached blocks whose committees can be had never fails, stores the header and the branch of each, and changes no other header or branch, and no committee that is there; which committees are added is the matter of `LightClientCommittees` |
| LightClientFinality.FinalizeBootstraps | tests/core/pyspec/eth2spec/test/helpers/light_client_data_collection.py:504-525 | after finalization a newly finalized block from the tail slot on has a bootstrap that can be served exactly if no later finalized block lies at or before its next epoch boundary |
| LightClientFinality.FinalizeKeeps | tests/core/pyspec/eth2spec/test/helpers/light_client_data_collection.py:706-739 | finalizing a descendant of the finalized block never fails, keeps the invariant and leaves the views as they are; a block that is not higher changes nothing |
| LightClientRun.SelectHeadKeeps | tests/core/pyspec/eth2spec/test/helpers/light_client_data_collection.py:701-739 | selecting a legal head succeeds exactly if its latest update can be built, and then keeps the invariant, now for the new head; the latest finalized block and epoch become those of the head's post-state exactly if that finalizes a higher block than before |
| LightClientRun.HeadIsShown | tests/core/pyspec/eth2spec/test/helpers/light_client_data_collection.py:457-501 | after a successful switch the views show the requested head exactly if it is not below the tail slot, or there was no latest update before |
| LightClientRun.RunKeeps | tests/core/pyspec/eth2spec/test/helpers/light_client_data_collection.py:662-739 | from any state that satisfies the invariant, a legal run of new blocks and head switches fails exactly at the first event whose finalized header is not available; without one its end satisfies the invariant |
| LightClientRun.RunIsSafe | tests/core/pyspec/eth2spec/test/helpers/light_client_data_collection.py:580-739 | the same for every run from a setup at genesis, which itself fails exactly on a state older than Altair |
| LightClientRun.LatestDependsOnChain | tests/core/pyspec/eth2spec/test/helpers/light_client_data_collection.py:483-501 | two runs that show the same head from the same low slot on agree on attested block, signature slot and participation of the latest update, whatever else they saw |
| LightClientRun.ViewsDependOnChain | tests/core/pyspec/eth2spec/test/helpers/light_client_data_collection.py:457-501 | if they also agree on the headers both have looked up, they agree on the latest update, and on the best update of every period in which the chain has a block from there on |
| LightClientRun.HeaderIsCheckpoint | tests/core/pyspec/eth2spec/test/helpers/light_client_data_collection.py:303-307 | the header that a first lookup fixes is that of the last block of the attested block's own chain at or before its finalized slot exactly if that block does not lie after the latest finalized one |
| LightClientViews.PeriodIsQuotient | specs/altair/light-client/sync-protocol.md:318-319 | the period of a slot counts the full spans of `epochsPerPeriod * slotsPerEpoch` slots before it |
| LightClientViews.LastSignedIsLast | tests/core/pyspec/eth2spec/test/helpers/light_client_data_collection.py:380-412 | the signature slot of a chain is that of its last block which is signed by enough and whose parent is not before the tail slot; there is none exactly if no block of the chain is of that kind |
| LightClientViews.ScanMembers | tests/core/pyspec/eth2spec/test/helpers/light_client_data_collection.py:357-428 | the updates of a period on a chain are exactly those that such blocks make of parents in the same period, each with the header that was looked up for the parent, in the order of their slots |
| LightClientViews.BestIsBest | tests/core/pyspec/eth2spec/test/helpers/light_client_data_collection.py:413-421 | under a strict weak order, the best update of a block is one of its period on its chain; none of these is better, and all older ones are worse |
| LightClientViews.CachedBest | tests/core/pyspec/eth2spec/test/helpers/light_client_data_collection.py:357-428 | in every state with the invariant the cache entry of a block from the tail and finalized slots on holds that update, that signature slot and the branch of its own state |
| LightClientViews.SwitchShows | tests/core/pyspec/eth2spec/test/helpers/light_client_data_collection.py:457-501 | everything that a switch shows: the entries of the periods from the low slot's to the head's become the best update of the last block of the chain before the next period, unless that block is below the low slot, and all others stay; the latest update is the one of the last signing block, unless its parent is below the low slot; the low slot is the later one of the tail slot and the finalized slot before |
| LightClientBootstraps.FinalizeAccounts | tests/core/pyspec/eth2spec/test/helpers/light_client_data_collection.py:504-525 | a finalization keeps the account of bootstraps: those of the blocks finalized before stay as they are, whatever is recorded now |
| LightClientBootstraps.RunBootstraps | tests/core/pyspec/eth2spec/test/helpers/light_client_data_collection.py:504-525 | after any run from genesis, a block has a bootstrap, which can be served, exactly if it is the first block, or a finalized block from the tail slot on such that between it and each finalized block after it, up to its next epoch boundary, some finalization ended |
| LightClientBootstraps.CheckpointsSeparate | tests/core/pyspec/eth2spec/test/helpers/light_client_data_collection.py:512-525 | if all finalizations ended at a last block at or before the start of an epoch, that condition is that no finalized block lies between the block and its next epoch boundary |
| LightClientCommittees.FoundIsAncestor | tests/core/pyspec/eth2spec/test/helpers/light_client_data_collection.py:193-199 | the walk over recorded slots finds the block that the finalized chain has at or before the slot |
| LightClientCommittees.SourceTouched | tests/core/pyspec/eth2spec/test/helpers/light_client_data_collection.py:202-223 | taking the committee of one more period from a block leaves its recorded state advanced to the slot of the latest period taken from it, and yields the committee of that state |
| LightClientCommittees.ProgressAll | tests/core/pyspec/eth2spec/test/helpers/light_client_data_collection.py:512-525 | the loop over bootstraps, latest first: every period it adds gets the committee of the post-state of its source block, at the slot of the last of the added periods with the same source |
| LightClientCommittees.FinalizeCommittees | tests/core/pyspec/eth2spec/test/helpers/light_client_data_collection.py:504-525 | one finalization keeps the account of committees: the old entries stay as they are, the new ones are of that kind |
| LightClientCommittees.RunCommittees | tests/core/pyspec/eth2spec/test/helpers/light_client_data_collection.py:202-223 | after any run from genesis every stored period has, before the tail slot's period, no committee, and otherwise one that is accounted for in this way, given that advancing a state in two steps is advancing it in one |
| LightClientCommittees.EntryIsTaken | tests/core/pyspec/eth2spec/test/helpers/light_client_data_collection.py:202-223 | the entry of a period, over the finalized chain and the post-states: the committee of the last block at or before the slot the period is meant for, its post-state advanced to the slot of the last period that was made by the same finalization with nothing finalized between the two slots; setup's entry comes from the first block |
| LightClientCommittees.ServedAsMeant | tests/core/pyspec/eth2spec/test/helpers/light_client_data_collection.py:202-223 | a period has the committee that is meant for it, at its own slot, if no later period was made by the same finalization with nothing finalized between their slots; and only then, if different periods have different committees |
| LightClientCommittees.SharedSource | tests/core/pyspec/eth2spec/test/helpers/light_client_data_collection.py:202-223 | two periods made by one finalization have the same source block exactly if nothing is finalized between their slots |
| LightClientExamples.PrunedHeader | tests/core/pyspec/eth2spec/test/helpers/light_client_data_collection.py:314 | a legal run from genesis that fails: with a block at every slot up to 48, a switch that finalizes slot 32, and a signed block on the retained block at slot 32, whose own finalized block, at slot 16, has been pruned |
| LightClientExamples.OtherHeader | tests/core/pyspec/eth2spec/test/helpers/light_client_data_collection.py:303-307 | a legal run from genesis in which an update is stored with the header of another block than the attested one's own checkpoint: a signed block on the block at slot 32, whose state finalizes slot 16, before any switch; the header is the empty one |
| LightClientExamples.StaleView | tests/core/pyspec/eth2spec/test/helpers/light_client_data_collection.py:460-461 | a legal run from genesis, with the tail slot at the first slot of epoch 1, after which a switch to a head below the tail slot has left the latest update of another head |
| LightClientWrongCommittee.WrongCommittee | tests/core/pyspec/eth2spec/test/helpers/light_client_data_collection.py:216-223 | a legal run from genesis, with blocks at slots 1 to 32 and 65 to 88 and one switch at the end, after which the bootstrap of the block at slot 32, where period 1 starts, is served with the committee of period 2 |
| LightClient.SetUp | tests/core/pyspec/eth2spec/test/helpers/light_client_data_collection.py:580-637 | the object after setup is the store the function gives, or setup fails where the function does; from a genesis state it fails exactly if the state is older than Altair, and otherwise satisfies the invariant |
| LightClient.DataCollection.constructor | tests/core/pyspec/eth2spec/test/helpers/light_client_data_collection.py:583-633 | the state before the first bootstrap |
| LightClient.DataCollection.GetAncestorOfBlockId | tests/core/pyspec/eth2spec/test/helpers/light_client_data_collection.py:181-190 | the walk ends, and finds what the function of that name on stores finds |
| LightClient.DataCollection.BlockIdAtFinalizedSlot | tests/core/pyspec/eth2spec/test/helpers/light_client_data_collection.py:193-199 | likewise for the downward search |
| LightClient.DataCollection.CacheLcData | tests/core/pyspec/eth2spec/test/helpers/light_client_data_collection.py:259-289 | adds an entry, or fails on a redundant call and changes nothing |
| LightClient.DataCollection.LookUpHeader | tests/core/pyspec/eth2spec/test/helpers/light_client_data_collection.py:298-328 | likewise for the finalized header, with the slot written back to the cached entry; fails on a pruned or missing block |
| LightClient.DataCollection.CreateLcUpdate | tests/core/pyspec/eth2spec/test/helpers/light_client_data_collection.py:357-428 | the object after the call is the store the function gives, or the call fails where the function does |
| LightClient.DataCollection.AddNewBlock | tests/core/pyspec/eth2spec/test/helpers/light_client_data_collection.py:662-698 | likewise; for a legal block it succeeds exactly if a header is available for the update it makes, and keeps the invariant |
| LightClient.DataCollection.CommitBestUpdates | tests/core/pyspec/eth2spec/test/helpers/light_client_data_collection.py:463-481 | likewise for the loop over periods |
| LightClient.DataCollection.UpdateLatest | tests/core/pyspec/eth2spec/test/helpers/light_client_data_collection.py:483-501 | likewise for the latest update, which may fail on its header |
| LightClient.DataCollection.ProcessHeadChange | tests/core/pyspec/eth2spec/test/helpers/light_client_data_collection.py:457-501 | likewise for both views |
| LightClient.DataCollection.GetCommitteeForPeriod | tests/core/pyspec/eth2spec/test/helpers/light_client_data_collection.py:202-223 | likewise for the committee; what the committees are over whole runs is the matter of `EntryIsTaken` |
| LightClient.DataCollection.CreateLcBootstrap | tests/core/pyspec/eth2spec/test/helpers/light_client_data_collection.py:431-443 | stores header, branch and, for a new period, the committee; fails on a missing block, state or entry; what is stored is the matter of `RunBootstraps` and `EntryIsTaken` |
| LightClient.DataCollection.CreateLcBootstraps | tests/core/pyspec/eth2spec/test/helpers/light_client_data_collection.py:512-525 | likewise for the loop over boundaries |
| LightClient.DataCollection.ProcessFinalization | tests/core/pyspec/eth2spec/test/helpers/light_client_data_collection.py:504-534 | likewise, with the cache pruned |
| LightClient.DataCollection.RecordFinalizedChain | tests/core/pyspec/eth2spec/test/helpers/light_client_data_collection.py:715-723 | likewise for the recording loop |
| LightClient.DataCollection.Finalize | tests/core/pyspec/eth2spec/test/helpers/light_client_data_collection.py:709-739 | likewise, with blocks and states pruned |
| LightClient.DataCollection.SelectNewHead | tests/core/pyspec/eth2spec/test/helpers/light_client_data_collection.py:701-739 | likewise; for a legal head it succeeds exactly if the latest update can be built, and keeps the invariant |

## Left out

- Kzg.GetLagrange: does not serialize the points, and takes the two facts about the modulus as hypotheses instead of
  deriving them for the number.
- Merkle.MerkleizeChunks, Merkle.CalcMerkleTreeFromLeaves, Merkle.GetMerkleRoot, Merkle.GetMerkleProof: a height
  beyond the table of one hundred zero hashes is excluded; there the source fails on the lookup.
- `get_merkle_tree`: it returns a single hash instead of a tree for an empty list, and no claim is made about it.
- DependencyOrder.DependencyOrderClassObjects: takes the dependencies of a value as a function of it; their extraction
  by regular expressions, and the filtering of constants and custom types, are not modelled. Every dependency is
  assumed to be a key, as `key_list.index` demands.
- DependencyOrder.OrderToFixpoint: requires an acyclic relation; `CycleStopsUnsorted` shows what a cycle can do.
- Scheduling.ProcessBlock: `on_block`, `on_tick`, `on_attestation` and `on_attester_slashing` are total functions that
  change nothing on failure. The first needs a known parent and a slot that has come, and adds the block; no handler
  for blocks looks at votes.
- Scheduling.RunIsSafe: the replay compares blocks, clock and chain, not votes, since a block's own attestations are
  applied after the messages it releases; a retried attestation no longer counts as one from a block.
- ForkTransition.DoFork: upgrades, block production and slot processing beyond the slot, the fork record and the list
  of upgrades are not modelled; fork versions are the forks themselves.
- Mutation.MutationOps.RandMutations: random numbers come from an arbitrary function; `mut_shift`, `mut_drop` and
  `mutate_test_vector` are not part of this model.
- LightClientRun.RunIsSafe, LightClientBootstraps.RunBootstraps: runs that start from a later state than genesis are
  not covered; `OnlyFromGenesis` says what goes wrong with them.
- LightClient.DataCollection.CreateLcUpdate: an update is its attested block, signature slot, participation and
  finalized header, and a header is the block it is made from; the next sync committee, branches of finality, upgrades
  of headers between forks and the YAML steps are not modelled. The checks for Altair behind setup cannot fail once
  setup has succeeded, since a state never returns to an earlier fork. Of the cached branches one is kept, named by
  its state.
- LightClient.DataCollection.GetCommitteeForPeriod: the committee of a state is a number, and advancing a state a
  function, lawful where committees over runs are concerned. A checkpoint state that is also among the retained states
  is the same object in the source; here only the checkpoint is advanced, and the retained copy is dropped by the same
  finalization.
- LightClient.DataCollection.AddNewBlock: starts when the block is built; the state transition that builds it is not
  part of this model.
- LightClient.DataCollection.SelectNewHead: after a failure the fields are not described.
- LightClientRun.ViewsDependOnChain: says nothing about periods without a block on the chain.
- Integer widths: slots, epochs and times are unbounded; the 64-bit overflow of the specification types is not
  modelled.
- Decorators, randomizers, generator runners and the per-feature tests: they hold no algorithm.
