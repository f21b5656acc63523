# Verification of the hard parts of Renaissance

A Dafny model of the parts of the Renaissance benchmark suite with the most intricate state, and proofs about it.

## What is modelled

**The STMBench7 design.** `DesignObjects` has the assemblies, composite parts, documents, atomic parts and connections as
objects with the fields and methods of the original; `IdPools` the FIFO pools. `AssemblyTrees` and `TreeEdits` name the tree
that the assemblies form and say what it means that the heap has that shape and what one change of the children of one
assembly does to it. `AssemblyBuilding`, `AtomicPartBuilding`, `Connections` and `CompositePartBuilding` are the four
builders, with recursive creation, roll-back and removal; `ComponentBags` is the many-to-many relation between base
assemblies and composite parts. `DesignSetup` puts them together: `Setup.Valid` is the invariant of the whole design,
`CreateSetup` establishes it and SM1 to SM8 keep it, successful or not. `DesignInvariants` draws from it the statements
that the original's own invariant tests make. `PartTraversals`, `DesignTraversals` and `DesignQueries` are T1, T3a, T3b,
T3c, ST3, ST5 and Q6 on such a design. The constants of the benchmark are parameters: any fan-out from 1, any number of
levels from 2, any number of atomic parts from 1, any number of connections, any pool sizes.

**The medium-grained locking protocol.** `LockTable` is the lock list of each operation, the documented order and what each
operation may touch. `LockProtocol` is a step relation for any number of threads in which every lock call, every access to
shared state and every unlock is a step of its own; operation bodies are arbitrary deterministic programs that keep to their
footprint, so random draws are part of the program. `Serializability` and `DeadlockFreedom` are about all runs of it.
`LockExecutor` is the executor itself, seen from one thread. `OperationBodies` has the five operations that lock complex
levels in their bodies (OP6, OP12, ST3, ST8 and Q6) as such programs, `PartWalkBodies` T1 and T3, and both show that they keep
to their footprints. `SiblingVisits` (OP6, OP12), `AncestorClimbs` (ST3, ST8), `TreeChecks` (Q6) and `PartWalks` (T1, T3) say
what they return and change, alone and, by `MachineRuns`, in any run; `StoredDesign` is the design as they find it in the store.

**Self-contained algorithms.** `KMeans` and `Lloyd` are the fork/join k-means over the reals, `Mnemonics` the search for
phone mnemonics, `NodeStreams` and `StreamMerge` the functions `l`, `c` and `j` of highlight.js, with `MergeOrder` and
`MergeTags` on the order of the merged events and their tags and `MarkupReading` on the resulting string, `RingBuffer` the circular
buffer of the reactors debugger, `Harness` and `HarnessBrackets` the driver of the benchmark harness with its three policies
and its event dispatcher.

Objects that the original changes in place are classes with the same fields; lists and maps they own are fields of type
`seq` and `map`. `SmallSetImpl` and `BagImpl` are lists in the original and sequences here. Sets that the original finds by
id are sets of objects, with the search by id spelled out where two objects could share one. Random draws are parameters or
arbitrary choices. A thrown `OperationFailedException` is an outcome: `None`, or `false`.

## Where code and comments disagree, or a promise has a condition

- Forking never ends for k-means data of more than 2729 dimensions, because the threshold then drops below 2
  (`KMeans.DimensionLimit`).
- The comment on `createConnections` calls its termination likely; connections have identity equality, so each call adds
  one and the loop always ends (`Connections.CreateConnections`).
- The comment on the structure lock says that operations that change an index take it in write mode. T3 and OP15 change the
  index by build date under the write lock of the atomic parts; the model counts that index among what this lock guards.
- The overflow callback of the circular buffer is meant for values that are about to be overwritten. On a push it gets just
  those if and only if the buffer was full and no more values came than it has slots (`RingBuffer.PushReportsLostIff`), on an
  unshift if and only if no more values came than slots and the lost ones do not lie across the last slot
  (`RingBuffer.UnshiftReportsLostIff`).
- Whole turns, as of one value with capacity 1, make `unshift` move `start` or `end` behind the last slot
  (`RingBuffer.BackStaysIff`, `RingBuffer.CBuffer.Unshift`); rotating an empty buffer pushes an undefined value
  (`RingBuffer.RotationsCancelIff`).
- `h` of highlight.js drops newlines when breaks are used, and then the offsets of `c` do not fit
  (`NodeStreams.OffsetsFitTextIff`); the merge then still nests and still gives the whole text (`StreamMerge.MergeStreams`).
- `j` opens an element twice not only where two elements overlap but also where a highlighter's element around an original
  one begins or ends together with it (`MergeOrder.CrossIff`, `StreamMerge.MergeStreams`).
- A `run` that throws leaves the operation-level brackets open: tear-down listeners of the operation are not notified
  (`HarnessBrackets.AllBracketsMatchIff`).
- `translate` recurses without end on a dictionary with the empty word (`Mnemonics.TranslateReturnsIff`).

## Model

| member | source | states |
|---|---|---|
| `AssemblyBuilding.AssemblyBuilder.CreateAndRegisterAssembly` | benchmarks/scala-stm/stmbench7/src/main/java/stmbench7/core/AssemblyBuilder.java:32-38 | Creating a subtree is all or nothing: it succeeds exactly when both pools hold the ids of a complete subtree of that height; the new tree then is complete, of new objects, registered under ids that were free, and hangs last below its parent; otherwise tree, both indexes and both sets of free ids are as before |
| `AssemblyBuilding.AssemblyBuilder.CreateAndRegisterComplexAssembly` | benchmarks/scala-stm/stmbench7/src/main/java/stmbench7/core/AssemblyBuilder.java:96-120 | The same for a complex assembly, through the loop that creates the children and the handler that undoes a half-made one |
| `AssemblyBuilding.AssemblyBuilder.CreateAndRegisterBaseAssembly` | benchmarks/scala-stm/stmbench7/src/main/java/stmbench7/core/AssemblyBuilder.java:82-94 | One free id decides; on success the new assembly is registered under it, unused, below its parent; on failure nothing has changed |
| `AssemblyBuilding.AssemblyBuilder.CreateSubAssemblies` | benchmarks/scala-stm/stmbench7/src/main/java/stmbench7/core/AssemblyBuilder.java:103-106 | The loop is complete exactly when the pools suffice for all children together; wherever it stops, the children so far are complete subtrees of different objects whose ids have left the pools |
| `AssemblyBuilding.AssemblyBuilder.RollBack` | benchmarks/scala-stm/stmbench7/src/main/java/stmbench7/core/AssemblyBuilder.java:107-113 | Whatever number of children had been made, the handler gives back exactly the registered assemblies and the free ids from before the attempt, and touches no composite part |
| `AssemblyBuilding.CompleteTreeSize` | benchmarks/scala-stm/stmbench7/src/main/java/stmbench7/core/AssemblyBuilder.java:96-120 | The pools a creation at level L needs: k^(L-1) base ids and 1 + k + ... + k^(L-2) complex ids, for every fan-out k |
| `AssemblyBuilding.AddedThenRemoved` | benchmarks/scala-stm/stmbench7/src/main/java/stmbench7/core/AssemblyBuilder.java:103-113 | When only registered assemblies use parts, removing the assemblies that were just added is the identity on registered assemblies, free ids and the users of all parts |
| `AssemblyBuilding.SameEntriesSameIndexes` | benchmarks/scala-stm/stmbench7/src/main/java/stmbench7/core/AssemblyBuilder.java:107-113 | Two pairs of id indexes with the same entries are equal, so restoring the entries restores both indexes |
| `AssemblyBuilding.AssemblyBuilder.UnregisterAndRecycleBaseAssembly` | benchmarks/scala-stm/stmbench7/src/main/java/stmbench7/core/AssemblyBuilder.java:46-58 | Exactly this assembly leaves index, parent and the user bag of every composite part (all occurrences, the others in order), and its id returns to the pool |
| `AssemblyBuilding.AssemblyBuilder.UnregisterAndRecycleAssembly` | benchmarks/scala-stm/stmbench7/src/main/java/stmbench7/core/AssemblyBuilder.java:40-44 | The dispatching removal takes out exactly the assemblies of the subtree: from indexes, from the parent's children and from all bags of users, with all their ids back in the pools |
| `AssemblyBuilding.AssemblyBuilder.UnregisterAndRecycleComplexAssembly` | benchmarks/scala-stm/stmbench7/src/main/java/stmbench7/core/AssemblyBuilder.java:60-80 | The recursive removal of a whole subtree, over a copy of the children that its own recursion empties |
| `AssemblyBuilding.AssemblyBuilder.UnregisterSubAssemblies` | benchmarks/scala-stm/stmbench7/src/main/java/stmbench7/core/AssemblyBuilder.java:69-73 | The loop over the copied children removes all of them and everything below, and leaves the parent without children |
| `AssemblyBuilding.UnlinkComponents` | benchmarks/scala-stm/stmbench7/src/main/java/stmbench7/core/AssemblyBuilder.java:52-54 | The loop over the copied components empties the bag and takes every occurrence of the assembly out of the parts' bags of users, in step with each other |
| `TreeEdits.EditSplits` | benchmarks/scala-stm/stmbench7/src/main/java/stmbench7/core/AssemblyBuilder.java:46-80 | Replacing the children of one assembly of a tree changes the list of its assemblies in one stretch only, all other assemblies keep their place |
| `TreeEdits.EditShape` | benchmarks/scala-stm/stmbench7/src/main/java/stmbench7/core/AssemblyBuilder.java:46-121 | If the fields change only as one edit of the children of one assembly says, the heap has the shape of the edited tree: parents, levels and child lists agree everywhere |
| `DesignSetup.CreateSetup` | benchmarks/scala-stm/stmbench7/src/main/java/stmbench7/core/ModuleBuilder.java:29-41 | There is a design exactly when the pools hold its first complete tree, and then it satisfies the whole design invariant: shape, indexes, pools, bags, parts and dates |
| `DesignSetup.Setup.StructuralModification1` | benchmarks/scala-stm/stmbench7/src/main/java/stmbench7/operations/StructuralModification1.java:21-26 | Keeps the design invariant; succeeds exactly when a composite part id is free, and then there is one new part, unused and fully connected, and no other; otherwise the indexes are the same |
| `DesignSetup.Setup.StructuralModification2` | benchmarks/scala-stm/stmbench7/src/main/java/stmbench7/operations/StructuralModification2.java:26-35 | Keeps the design invariant; succeeds exactly for an id in the index, which is then free; every base assembly keeps its components but for that part, in order, and all other parts keep their users |
| `DesignSetup.Setup.StructuralModification3` | benchmarks/scala-stm/stmbench7/src/main/java/stmbench7/operations/StructuralModification3.java:28-41 | Keeps the design invariant; succeeds exactly when both ids are in their indexes, and then adds one use on both sides and leaves all other bags as they are |
| `DesignSetup.Setup.StructuralModification4` | benchmarks/scala-stm/stmbench7/src/main/java/stmbench7/operations/StructuralModification4.java:27-50 | Keeps the design invariant; succeeds exactly when the assembly exists and has a component; the first use of the part that was drawn is gone on both sides, and all other bags are as before |
| `DesignSetup.Setup.StructuralModification5` | benchmarks/scala-stm/stmbench7/src/main/java/stmbench7/operations/StructuralModification5.java:31-42 | Keeps the design invariant; succeeds exactly when the sibling exists and a base id is free, and then the tree has one more subtree below the sibling's parent; otherwise the tree is the same |
| `DesignSetup.Setup.StructuralModification6` | benchmarks/scala-stm/stmbench7/src/main/java/stmbench7/operations/StructuralModification6.java:25-40 | Keeps the design invariant, in particular at least one child below every complex assembly; succeeds exactly when the base assembly exists and has a sibling, and then the tree is pruned there and nowhere else; the assemblies that stay keep their components, and each part loses the removed user, all its occurrences and no other |
| `DesignSetup.Setup.StructuralModification7` | benchmarks/scala-stm/stmbench7/src/main/java/stmbench7/operations/StructuralModification7.java:30-40 | Keeps the design invariant; succeeds exactly when the parent exists and the pools hold a complete subtree one level below it, which is then grafted there; otherwise the tree is the same |
| `DesignSetup.Setup.StructuralModification8` | benchmarks/scala-stm/stmbench7/src/main/java/stmbench7/operations/StructuralModification8.java:21-37 | Keeps the design invariant; succeeds exactly when the assembly exists, is not the root and has a sibling; then its whole subtree is pruned and nothing else; the assemblies that stay keep their components, and each part loses the removed users and no other |
| `DesignInvariants.IndexesHoldTheTree` | benchmarks/scala-stm/stmbench7/src/main/java/stmbench7/correctness/invariants/IndexTest.java:27-47 | In every state that satisfies the design invariant an assembly is in the tree if and only if the id index holds it under its own id |
| `DesignInvariants.ReachableFromTheRoot` | benchmarks/scala-stm/stmbench7/src/main/java/stmbench7/correctness/invariants/ComplexAssemblyTest.java:18-42 | The assemblies of the tree are exactly those that can be reached from the design root: the least set that holds it and the children of its members |
| `DesignInvariants.ChildrenFit` | benchmarks/scala-stm/stmbench7/src/main/java/stmbench7/correctness/invariants/ComplexAssemblyTest.java:18-42 | Children name their parent and stand one level lower, above level 2 they are complex and at level 2 base assemblies, and there is always one |
| `DesignInvariants.BaseIdsArePartitioned` | benchmarks/scala-stm/stmbench7/src/main/java/stmbench7/impl/backend/IdPoolImpl.java:17-35 | Each id from 1 to the maximum is free or in the index, never both, never twice in the pool, and there are no others |
| `DesignInvariants.ComplexIdsArePartitioned` | benchmarks/scala-stm/stmbench7/src/main/java/stmbench7/impl/backend/IdPoolImpl.java:17-35 | The same for complex assemblies |
| `DesignInvariants.PartIdsArePartitioned` | benchmarks/scala-stm/stmbench7/src/main/java/stmbench7/Parameters.java:41-44 | The same for composite parts, documents and atomic parts; and the three pools are in step: as many free document ids as composite part ids, and N times as many atomic part ids |
| `DesignInvariants.UsesAreSymmetric` | benchmarks/scala-stm/stmbench7/src/main/java/stmbench7/correctness/invariants/CompositePartTest.java:43-50 | For every base assembly of the tree and every registered part, the part is a component as often as the assembly is a user |
| `DesignInvariants.DatesAreInRange` | benchmarks/scala-stm/stmbench7/src/main/java/stmbench7/correctness/invariants/DesignObjTest.java:22-28 | In every such state base assemblies are dated 1000 to 1999, composite parts 0 to 999 or 2000 to 2999, and atomic parts at most one beyond 1000 to 1999 |
| `IdPools.IdPool.GetId` | benchmarks/scala-stm/stmbench7/src/main/java/stmbench7/impl/backend/IdPoolImpl.java:25-31 | First in, first out; fails exactly on an empty pool and then changes nothing |
| `IdPools.IdPool.PutUnusedId` | benchmarks/scala-stm/stmbench7/src/main/java/stmbench7/impl/backend/IdPoolImpl.java:33-35 | The id goes to the end, behind all others |
| `IdPools.PartitionTake` | benchmarks/scala-stm/stmbench7/src/main/java/stmbench7/impl/backend/IdPoolImpl.java:25-31 | Taking an id keeps free and used ids a partition of 1..max, and the id was not in use |
| `IdPools.PartitionPut` | benchmarks/scala-stm/stmbench7/src/main/java/stmbench7/impl/backend/IdPoolImpl.java:33-35 | So does giving a used id back |
| `IdPools.FreeCount` | benchmarks/scala-stm/stmbench7/src/main/java/stmbench7/impl/backend/IdPoolImpl.java:17-35 | Free and used ids together always count max |
| `DesignObjects.BaseAssembly.AddComponent` | benchmarks/scala-stm/stmbench7/src/main/java/stmbench7/impl/core/BaseAssemblyImpl.java:28-31 | Both sides of the bag relation get one more occurrence at the end |
| `DesignObjects.BaseAssembly.RemoveComponent` | benchmarks/scala-stm/stmbench7/src/main/java/stmbench7/impl/core/BaseAssemblyImpl.java:33-39 | The first component with the part's id goes, and then the first user with the assembly's id; if there is none, neither side changes |
| `DesignObjects.ComplexAssembly.AddSubAssembly` | benchmarks/scala-stm/stmbench7/src/main/java/stmbench7/impl/core/ComplexAssemblyImpl.java:35-41 | A child is added exactly when no child of the same kind has its id |
| `DesignObjects.ComplexAssembly.RemoveSubAssembly` | benchmarks/scala-stm/stmbench7/src/main/java/stmbench7/impl/core/ComplexAssemblyImpl.java:43-45 | The first child of the same kind and id goes, the others keep their order |
| `DesignObjects.CompositePart.AddPart` | benchmarks/scala-stm/stmbench7/src/main/java/stmbench7/impl/core/CompositePartImpl.java:42-50 | A part is taken exactly when its id is new, and the first part taken becomes the root |
| `DesignObjects.AtomicPart.ConnectTo` | benchmarks/scala-stm/stmbench7/src/main/java/stmbench7/impl/core/AtomicPartImpl.java:36-44 | A new connection at the end of `to` here and its reverse at the end of `from` there, also when a part is connected to itself |
| `ComponentBags.RemoveOneUse` | benchmarks/scala-stm/stmbench7/src/main/java/stmbench7/impl/core/CompositePartImpl.java:68-70 | Removing by id takes out one occurrence of that very assembly, as long as no two users share an id |
| `ComponentBags.RemoveWhilePresent` | benchmarks/scala-stm/stmbench7/src/main/java/stmbench7/core/CompositePartBuilder.java:86-88 | `while (removeComponent)` ends with every occurrence gone on the assembly's side and as many taken from the part's side, the other components in order |
| `ComponentBags.RemoveFromOwners` | benchmarks/scala-stm/stmbench7/src/main/java/stmbench7/core/CompositePartBuilder.java:85-88 | The nested loops over a copy of the users, with its repetitions, leave the part without users and no assembly with the part as a component |
| `ComponentBags.AfterPurge` | benchmarks/scala-stm/stmbench7/src/main/java/stmbench7/core/AssemblyBuilder.java:46-58 | The relation stays symmetric when assemblies are gone from the bags of all parts |
| `ComponentBags.AfterDrop` | benchmarks/scala-stm/stmbench7/src/main/java/stmbench7/core/CompositePartBuilder.java:76-92 | The relation stays symmetric when a part is gone from the components of all assemblies |
| `ComponentBags.PairAdded` | benchmarks/scala-stm/stmbench7/src/main/java/stmbench7/operations/StructuralModification3.java:38-40 | Adding a use on both sides keeps all multiplicities equal |
| `ComponentBags.PairRemoved` | benchmarks/scala-stm/stmbench7/src/main/java/stmbench7/operations/StructuralModification4.java:41-47 | Removing by id on both sides keeps them equal, and removes one use of exactly that part |
| `Connections.CreateConnections` | benchmarks/scala-stm/stmbench7/src/main/java/stmbench7/core/CompositePartBuilder.java:108-130 | Starting from unconnected parts: a ring in order of creation, each part with its full number of connections (one if the number is 0), none leaving the composite part, and `to` on one side matching `from` on the other for every pair |
| `Connections.Connect` | benchmarks/scala-stm/stmbench7/src/main/java/stmbench7/impl/core/AtomicPartImpl.java:36-44 | One more connection keeps `to` and `from` matching and comes last |
| `CompositePartBuilding.CompositePartBuilder.CreateAndRegisterCompositePart` | benchmarks/scala-stm/stmbench7/src/main/java/stmbench7/core/CompositePartBuilder.java:41-74 | All or nothing over three pools: it succeeds exactly when each pool has what one part needs, and then one new part with N atomic parts, its document and a connected graph with the full number of connections is registered; otherwise every index, the one by build date included, holds what it held |
| `CompositePartBuilding.CompositePartBuilder.PoolsInStep` | benchmarks/scala-stm/stmbench7/src/main/java/stmbench7/Parameters.java:41-44 | Between operations the three pools are in step, so one free composite part id is enough and the handler of a failed creation is never reached |
| `CompositePartBuilding.CompositePartBuilder.UndoComponent` | benchmarks/scala-stm/stmbench7/src/main/java/stmbench7/core/CompositePartBuilder.java:58-64 | The handler puts documents and atomic parts back to what they were, however many parts had been made |
| `CompositePartBuilding.CompositePartBuilder.UnregisterAndRecycleCompositePart` | benchmarks/scala-stm/stmbench7/src/main/java/stmbench7/core/CompositePartBuilder.java:76-92 | The part leaves its index and every base assembly, its document and atomic parts leave theirs, all ids return, and everything else stays consistent |
| `CompositePartBuilding.CreateAtomicParts` | benchmarks/scala-stm/stmbench7/src/main/java/stmbench7/core/CompositePartBuilder.java:97-103 | The loop is complete exactly when the pool has N ids; wherever it stops, the parts made are registered, different, new and unconnected |
| `CompositePartBuilding.RemoveAtomicParts` | benchmarks/scala-stm/stmbench7/src/main/java/stmbench7/core/CompositePartBuilder.java:60-61 | Exactly these parts are no longer live, and all other parts keep index and dates consistent |
| `CompositePartBuilding.PartsCount` | benchmarks/scala-stm/stmbench7/src/main/java/stmbench7/Parameters.java:41-44 | There are N times as many live atomic parts as composite parts |
| `CompositePartBuilding.DocumentBuilder.CreateAndRegisterDocument` | benchmarks/scala-stm/stmbench7/src/main/java/stmbench7/core/DocumentBuilder.java:25-35 | Fails exactly on an empty pool and then changes nothing; else a new document stands under its part's title |
| `CompositePartBuilding.DocumentBuilder.UnregisterAndRecycleDocument` | benchmarks/scala-stm/stmbench7/src/main/java/stmbench7/core/DocumentBuilder.java:37-42 | The document leaves the title index and its id returns; ids in use and free remain a partition |
| `AtomicPartBuilding.AtomicPartBuilder.CreateAndRegisterAtomicPart` | benchmarks/scala-stm/stmbench7/src/main/java/stmbench7/core/AtomicPartBuilder.java:33-46 | Fails exactly on an empty pool and then changes nothing; else a part under an unused id, in both indexes, with its date in the allowed interval |
| `AtomicPartBuilding.AtomicPartBuilder.UnregisterAndRecycleAtomicPart` | benchmarks/scala-stm/stmbench7/src/main/java/stmbench7/core/AtomicPartBuilder.java:48-56 | The part leaves both indexes, the others stay where they are, and its id returns |
| `AtomicPartBuilding.AtomicPartBuilder.UpdateBuildDate` | benchmarks/scala-stm/stmbench7/src/main/java/stmbench7/operations/Traversal3a.java:43-47 | Remove, update, add: afterwards the index by date again agrees with the dates of all live parts |
| `AtomicPartBuilding.AtomicPartBuilder.AddAtomicPartToBuildDateIndex` | benchmarks/scala-stm/stmbench7/src/main/java/stmbench7/operations/BaseOperation.java:33-41 | The part stands under its date exactly when no part of its id stood there; no other entry changes |
| `AtomicPartBuilding.AtomicPartBuilder.RemoveAtomicPartFromBuildDateIndex` | benchmarks/scala-stm/stmbench7/src/main/java/stmbench7/operations/BaseOperation.java:48-53 | The entry with the part's id under its date is gone, and no other |
| `AtomicPartBuilding.ToggledTwice` | benchmarks/scala-stm/stmbench7/src/main/java/stmbench7/impl/core/DesignObjImpl.java:36-41 | A second update undoes the first, an update always changes the date, and none leaves the interval widened to odd and even bounds |
| `AtomicPartBuilding.AgreementIsUnique` | benchmarks/scala-stm/stmbench7/src/main/java/stmbench7/correctness/invariants/IndexTest.java:86-100 | The parts and their dates determine what the index holds under every date |
| `PartTraversals.Traverse` | benchmarks/scala-stm/stmbench7/src/main/java/stmbench7/operations/Traversal1.java:66-78 | The recursive walk with a visited set terminates on any graph, visits only new parts, each once, is closed under connections when it returns, and counts and dates what it newly visited |
| `PartTraversals.RingIsReached` | benchmarks/scala-stm/stmbench7/src/main/java/stmbench7/core/CompositePartBuilder.java:110-116 | A set that holds the first part of the ring and is closed under connections holds every part |
| `PartTraversals.TraverseComponent` | benchmarks/scala-stm/stmbench7/src/main/java/stmbench7/operations/Traversal1.java:59-64 | From the root part each of the N parts is visited exactly once, whatever the further connections are |
| `PartTraversals.PerformOperationInAtomicPart` | benchmarks/scala-stm/stmbench7/src/main/java/stmbench7/operations/Traversal3a.java:32-41 | What one visit returns and does to the date, for T1, T3a (first part only), T3b and T3c (four updates that cancel out) |
| `DesignTraversals.TraverseComplexAssembly` | benchmarks/scala-stm/stmbench7/src/main/java/stmbench7/operations/Traversal1.java:41-48 | Over the children and everything below: the sum is what one use counts times the number of uses below |
| `DesignTraversals.TraverseAssembly` | benchmarks/scala-stm/stmbench7/src/main/java/stmbench7/operations/Traversal1.java:36-39 | The same for either kind of assembly |
| `DesignTraversals.PerformTraversal` | benchmarks/scala-stm/stmbench7/src/main/java/stmbench7/operations/Traversal1.java:31-64 | On the whole design, with u component occurrences over all base assemblies, T1 and T3b return N * u, T3a returns u and T3c 4 * N * u; T3b updates each live part as often as its composite part has users, T3a only the root parts, T1 and T3c leave every date and what stands under it as it was; the design invariant survives all four |
| `DesignTraversals.UsesOfPart` | benchmarks/scala-stm/stmbench7/src/main/java/stmbench7/impl/core/BaseAssemblyImpl.java:28-39 | Counted over the components of all base assemblies, a part occurs as often as it has users, and nothing but parts occurs |
| `DesignQueries.TraverseUp` | benchmarks/scala-stm/stmbench7/src/main/java/stmbench7/operations/Traversal7.java:51-60 | Stopping at the first visited assembly is sound: the visited set is closed under parents again, contains nothing beyond the least closed set, and grows by exactly the number returned |
| `DesignQueries.TraverseOwners` | benchmarks/scala-stm/stmbench7/src/main/java/stmbench7/operations/Traversal7.java:40-49 | The result is the size of the least set that holds all users of the part and is closed under parents, whatever the order and repetitions in the bag |
| `DesignQueries.ShortTraversal3` | benchmarks/scala-stm/stmbench7/src/main/java/stmbench7/operations/Traversal7.java:32-38 | On the whole design; it fails exactly for an id that no atomic part has |
| `DesignQueries.CheckBaseAssembly` | benchmarks/scala-stm/stmbench7/src/main/java/stmbench7/operations/Query5.java:35-46 | 1 if one of the components is younger than the assembly, in spite of the early return, else 0 |
| `DesignQueries.Query5` | benchmarks/scala-stm/stmbench7/src/main/java/stmbench7/operations/Query5.java:25-33 | The sum over the index, in any order of its entries, is the number of outdated base assemblies of the tree |
| `DesignQueries.CheckComplexAssembly` | benchmarks/scala-stm/stmbench7/src/main/java/stmbench7/operations/Query6.java:38-49 | Counting from below gives the outdated base assemblies plus the complex assemblies above at least one of them, each once |
| `DesignQueries.QueriesCompared` | benchmarks/scala-stm/stmbench7/src/main/java/stmbench7/operations/Query6.java:27-49 | On every valid design Q6 returns what ST5 returns plus the number of complex assemblies with an outdated base assembly below them |
| `LockTable.TableFollowsLockingOrder` | benchmarks/scala-stm/stmbench7/src/main/java/stmbench7/locking/MGLockingOperationExecutor.java:24-35 | The lock list of every operation climbs strictly in the documented order, so it names no lock twice |
| `LockTable.RankIsTheOrder` | benchmarks/scala-stm/stmbench7/src/main/java/stmbench7/locking/MGLockingOperationExecutor.java:24-35 | The rank is the documented order: the structure, the manual, base assemblies, composite parts, documents, atomic parts, and complex assemblies from the highest level down |
| `LockTable.TableCoversFootprint` | benchmarks/scala-stm/stmbench7/src/main/java/stmbench7/locking/MGLockingOperationExecutor.java:165-286 | Whatever an operation's body may read or write by its class is covered by its lock list in the mode it needs |
| `LockTable.TableTakesNoMore` | benchmarks/scala-stm/stmbench7/src/main/java/stmbench7/locking/MGLockingOperationExecutor.java:165-286 | And no operation takes a lock, or takes one in write mode, that no body of its class needs |
| `LockTable.LevelLocksReentrantOrAlone` | benchmarks/scala-stm/stmbench7/src/main/java/stmbench7/locking/MGLockingOperationExecutor.java:222-232 | A complex level that a body locks by itself is on its list in that mode already, or the operation (OP6, OP12, which keep to one level) has only the structure lock besides |
| `LockProtocol.StepKeepsBalance` | benchmarks/scala-stm/stmbench7/src/main/java/stmbench7/locking/MGLockingOperationExecutor.java:136-159 | After any step of any thread every hold count is what the threads' positions and flags say |
| `LockProtocol.StepKeepsExclusive` | benchmarks/scala-stm/stmbench7/src/main/java/stmbench7/locking/MGLockingOperationExecutor.java:288-311 | A thread that holds a write lock stays the only holder of that lock |
| `LockProtocol.NextThreadCounts` | benchmarks/scala-stm/stmbench7/src/main/java/stmbench7/locking/MGLockingOperationExecutor.java:288-311 | Each step of `execute` changes the hold counts by exactly the lock or unlock call it makes, flags and lists included |
| `Serializability.TimestampOrderIsSerial` | benchmarks/scala-stm/stmbench7/src/main/java/stmbench7/locking/MGLockingOperationExecutor.java:288-311 | For any number of threads and any interleaving from an initial state: re-running the completed operations one by one in timestamp order gives each its recorded outcome, and when no body is running the shared store is that of the sequential run |
| `Serializability.RunConsistent` | benchmarks/scala-stm/stmbench7/src/main/java/stmbench7/locking/MGLockingOperationExecutor.java:288-311 | In between, the store is the sequential one overlaid with the writes of the running bodies, and each of those has seen only what it would have seen alone |
| `Serializability.NoConflict` | benchmarks/scala-stm/stmbench7/src/main/java/stmbench7/locking/MGLockingOperationExecutor.java:165-286 | Two bodies that run at the same time never may access the same location if one of them may write it |
| `Serializability.AccessIsLocked` | benchmarks/scala-stm/stmbench7/src/main/java/stmbench7/locking/MGLockingOperationExecutor.java:165-286 | Whatever a running body has accessed so far or is about to access, it holds the lock for, in the mode needed |
| `Serializability.RunAloneFrame` | benchmarks/scala-stm/stmbench7/src/main/java/stmbench7/locking/MGLockingOperationExecutor.java:288-311 | A body cannot tell apart two stores that agree on all it reads |
| `Serializability.FinishIsStable` | benchmarks/scala-stm/stmbench7/src/main/java/stmbench7/locking/MGLockingOperationExecutor.java:288-292 | The outcome of a body run alone does not depend on how long it is run past its end |
| `DeadlockFreedom.NoDeadlock` | benchmarks/scala-stm/stmbench7/src/main/java/stmbench7/locking/MGLockingOperationExecutor.java:24-35 | In every reachable state with an unfinished operation some thread can take its next step |
| `DeadlockFreedom.ReentrantIsGranted` | benchmarks/scala-stm/stmbench7/src/main/java/stmbench7/locking/MGLockingOperationExecutor.java:222-232 | A lock call that repeats a mode already held is granted at once |
| `DeadlockFreedom.BlockedClimbs` | benchmarks/scala-stm/stmbench7/src/main/java/stmbench7/locking/MGLockingOperationExecutor.java:24-35 | A thread that must wait holds only locks of a lower rank than the one it waits for |
| `DeadlockFreedom.FinishedHoldsNothing` | benchmarks/scala-stm/stmbench7/src/main/java/stmbench7/locking/MGLockingOperationExecutor.java:293-310 | In every reachable state a thread between operations holds no lock and has no flag set, and no unlock call fails |
| `LockExecutor.MGLockingOperationExecutor.constructor` | benchmarks/scala-stm/stmbench7/src/main/java/stmbench7/locking/MGLockingOperationExecutor.java:165-286 | The list is the table's for the operation, and empty for an operation without an id |
| `LockExecutor.MGLockingOperationExecutor.Execute` | benchmarks/scala-stm/stmbench7/src/main/java/stmbench7/locking/MGLockingOperationExecutor.java:288-311 | On normal and exceptional exit alike every hold count is what it was and all flags are clear; while the body runs the thread holds its list and, exactly once, every level the body asked for |
| `LockExecutor.MGLockingOperationExecutor.ReadLockAssemblyLevel` | benchmarks/scala-stm/stmbench7/src/main/java/stmbench7/locking/MGLockingOperationExecutor.java:136-145 | Afterwards the level may be read, and it is held once more exactly when no flag was set before |
| `LockExecutor.MGLockingOperationExecutor.WriteLockAssemblyLevel` | benchmarks/scala-stm/stmbench7/src/main/java/stmbench7/locking/MGLockingOperationExecutor.java:151-159 | Afterwards the level may be written, and a level already flagged for writing is not locked again |
| `LockExecutor.MGLockingOperationExecutor.ReleaseLevels` | benchmarks/scala-stm/stmbench7/src/main/java/stmbench7/locking/MGLockingOperationExecutor.java:301-306 | Gives back exactly the flagged levels, each once, whatever else the thread holds |
| `OperationBodies.SiblingsConform` | benchmarks/scala-stm/stmbench7/src/main/java/stmbench7/operations/Operation6.java:28-50 | The bodies of OP6 and OP12, lookup, parent pointer, root case and failure included, stay within their footprint and keep to one level, whatever they read: OP12 write-locks a level before it touches a date there |
| `OperationBodies.AncestorsConform` | benchmarks/scala-stm/stmbench7/src/main/java/stmbench7/operations/Traversal7.java:32-64 | The bodies of ST3 and ST8 ask for levels only in the mode that was pre-locked, and ST8 before it updates a date there, whatever they read |
| `OperationBodies.CheckingConforms` | benchmarks/scala-stm/stmbench7/src/main/java/stmbench7/operations/Query6.java:27-49 | The recursive body of Q6 reads only what its locks guard and asks only for levels in read mode, whatever it reads |
| `SiblingVisits.SiblingsAlone` | benchmarks/scala-stm/stmbench7/src/main/java/stmbench7/operations/Operation6.java:28-46 | Run alone on any design, OP6 and OP12 fail exactly for an unknown id, else return the number of siblings, 1 for the root; OP12 updates the date of each once, and nothing else changes |
| `SiblingVisits.SiblingsInAnyRun` | benchmarks/scala-stm/stmbench7/src/main/java/stmbench7/operations/Operation12.java:20-29 | In any run of any number of threads they report and change just that, on the store that the operations with earlier timestamps leave behind |
| `MachineRuns.MachineInAnyRun` | benchmarks/scala-stm/stmbench7/src/main/java/stmbench7/locking/MGLockingOperationExecutor.java:288-311 | What a body reaches alone, on the store that the operations with earlier timestamps leave behind, it reports and leaves behind in any run of any number of threads |
| `AncestorClimbs.AncestorsAlone` | benchmarks/scala-stm/stmbench7/src/main/java/stmbench7/operations/Traversal7.java:32-64 | Run alone, ST3 and ST8 fail exactly for an unknown id, else return the size of the least set closed under parents that holds the users of the owner; ST8 updates the date of each member once, at whatever level |
| `AncestorClimbs.AncestorsInAnyRun` | benchmarks/scala-stm/stmbench7/src/main/java/stmbench7/operations/ShortTraversal8.java:20-29 | In any run of any number of threads ST3 and ST8 report and change just that, and nothing else |
| `TreeChecks.CheckingAlone` | benchmarks/scala-stm/stmbench7/src/main/java/stmbench7/operations/Query6.java:27-49 | Run alone, Q6 returns the number of base assemblies of the tree with a younger component plus the number of complex assemblies above one, and writes nothing |
| `TreeChecks.CheckingInAnyRun` | benchmarks/scala-stm/stmbench7/src/main/java/stmbench7/operations/Query6.java:27-49 | In any run of any number of threads Q6 reports just that of the store that the operations with earlier timestamps leave behind, and leaves that store as it is |
| `PartWalkBodies.WalksConform` | benchmarks/scala-stm/stmbench7/src/main/java/stmbench7/operations/Traversal1.java:31-83 | The recursive bodies of T1, T3a, T3b and T3c, with their visited sets and date updates, stay within their footprint, whatever they read |
| `PartWalks.WalkAlone` | benchmarks/scala-stm/stmbench7/src/main/java/stmbench7/operations/Traversal1.java:31-83 | Run alone on any graphs of parts, the result and the new dates are those of one visit, for every use of a component in the tree, of each part that every closed set with its root part holds; T3a updates root parts only, T3c each part four times |
| `PartWalks.WalkInAnyRun` | benchmarks/scala-stm/stmbench7/src/main/java/stmbench7/operations/Traversal3a.java:27-47 | In any run of any number of threads T1 and T3 report and change just that, the sets of the build-date index included, and nothing else |
| `PartWalks.IndexStillAgrees` | benchmarks/scala-stm/stmbench7/src/main/java/stmbench7/operations/Traversal3c.java:19-26 | After T1 and T3 each part is in the index under its date and nowhere else; T1 and T3c leave the whole store as it was |
| `KMeans.NearestIsMinimal` | benchmarks/jdk-concurrent/src/main/java/org/renaissance/jdk/concurrent/JavaKMeans.java:222-240 | The chosen centroid is nearest, and it is the first of the nearest |
| `KMeans.FindNearestTo` | benchmarks/jdk-concurrent/src/main/java/org/renaissance/jdk/concurrent/JavaKMeans.java:222-240 | The loop finds that centroid |
| `KMeans.CollectClusters` | benchmarks/jdk-concurrent/src/main/java/org/renaissance/jdk/concurrent/JavaKMeans.java:208-220 | The map has each used centroid with its points in data order |
| `KMeans.Merge` | benchmarks/jdk-concurrent/src/main/java/org/renaissance/jdk/concurrent/JavaKMeans.java:103-121 | Whatever the order of the map, lists of the same key are joined left before right and other entries are kept |
| `KMeans.MergedClusters` | benchmarks/jdk-concurrent/src/main/java/org/renaissance/jdk/concurrent/JavaKMeans.java:103-121 | Merging the clusterings of two adjacent ranges is the clustering of the joined range, lists in data order |
| `KMeans.AssignmentTask` | benchmarks/jdk-concurrent/src/main/java/org/renaissance/jdk/concurrent/JavaKMeans.java:144-203 | However the range is forked, the result is the clustering of one direct pass |
| `KMeans.UnusedHasNoMembers` | benchmarks/jdk-concurrent/src/main/java/org/renaissance/jdk/concurrent/JavaKMeans.java:208-220 | A centroid is a key exactly when some point is nearest to it |
| `KMeans.ForkingTerminatesIff` | benchmarks/jdk-concurrent/src/main/java/org/renaissance/jdk/concurrent/JavaKMeans.java:144-168 | Forking terminates exactly for a threshold of at least 2 or a range shorter than the threshold |
| `KMeans.DimensionLimit` | benchmarks/jdk-concurrent/src/main/java/org/renaissance/jdk/concurrent/JavaKMeans.java:38-44 | With the constructor's threshold and any data that means: exactly for at most 2729 dimensions |
| `KMeans.OneDimensionTooMany` | benchmarks/jdk-concurrent/src/main/java/org/renaissance/jdk/concurrent/JavaKMeans.java:144-168 | An input for which forking never ends: one point of 2730 dimensions |
| `Lloyd.CostNeverRises` | benchmarks/jdk-concurrent/src/main/java/org/renaissance/jdk/concurrent/JavaKMeans.java:47-64 | Replacing the centroids by the means of their clusters never raises the sum of squared distances to the nearest centroid, although unused centroids drop out |
| `Lloyd.MeanMinimisesCoordinate` | benchmarks/jdk-concurrent/src/main/java/org/renaissance/jdk/concurrent/JavaKMeans.java:331-345 | The mean minimises the sum of squared differences, among all reals |
| `Lloyd.VectorSumTask` | benchmarks/jdk-concurrent/src/main/java/org/renaissance/jdk/concurrent/JavaKMeans.java:394-437 | However the range is forked, the sum is that of the range in every coordinate |
| `Lloyd.Average` | benchmarks/jdk-concurrent/src/main/java/org/renaissance/jdk/concurrent/JavaKMeans.java:331-345 | The average is the mean in every coordinate |
| `Lloyd.UpdateTask` | benchmarks/jdk-concurrent/src/main/java/org/renaissance/jdk/concurrent/JavaKMeans.java:308-324 | However the clusters are forked, each has its mean as a new key and keeps its points |
| `Lloyd.Iterate` | benchmarks/jdk-concurrent/src/main/java/org/renaissance/jdk/concurrent/JavaKMeans.java:54-60 | One round makes exactly one new centroid for each cluster that is not empty, its mean, and none besides; it keeps the dimension and does not raise the cost |
| `Lloyd.Run` | benchmarks/jdk-concurrent/src/main/java/org/renaissance/jdk/concurrent/JavaKMeans.java:47-64 | The result comes from the sample by exactly the given number of rounds, each of which takes the means of the non-empty clusters of the one before; whatever is drawn, the cost is at most that of the sample |
| `Mnemonics.CharCodeInvertsMnemonics` | benchmarks/jdk-streams/src/main/java/org/renaissance/jdk/streams/MnemonicsCoderWithStream.java:16-32 | The inverted map codes a letter by a digit exactly when that digit lists the letter |
| `Mnemonics.WordsForNumGroups` | benchmarks/jdk-streams/src/main/java/org/renaissance/jdk/streams/MnemonicsCoderWithStream.java:43-45 | Grouping keeps every word as often as it occurs, under its own code and no other, and makes no empty group |
| `Mnemonics.EncodeIsExact` | benchmarks/jdk-streams/src/main/java/org/renaissance/jdk/streams/MnemonicsCoderWithStream.java:58-76 | For any dictionary without the empty word and any string of digits: exactly the phrases of dictionary words that spell the number, whatever had been translated before |
| `Mnemonics.TranslateIsExact` | benchmarks/jdk-streams/src/main/java/org/renaissance/jdk/streams/MnemonicsCoderWithStream.java:79-113 | Both `translate` and `parallelTranslate` return exactly these, so they agree, for any order of the grouping |
| `Mnemonics.TranslationsAreTyped` | benchmarks/jdk-streams/src/main/java/org/renaissance/jdk/streams/MnemonicsCoderWithStream.java:16-81 | In terms of keys and letters: a number is translated to exactly the phrases of dictionary words, apart by one blank, whose letters in either case stand one by one on the keys of its digits |
| `Mnemonics.CodeIsKeys` | benchmarks/jdk-streams/src/main/java/org/renaissance/jdk/streams/MnemonicsCoderWithStream.java:35-39 | A word has a code of digits exactly when each of its letters, in either case, stands on the key of the digit |
| `Mnemonics.KeysHoldTheAlphabet` | benchmarks/jdk-streams/src/main/java/org/renaissance/jdk/streams/MnemonicsCoderWithStream.java:16-25 | The keys 2 to 9 hold the capitals in alphabetic order, 3, 3, 3, 3, 3, 4, 3 and 4 of them |
| `Mnemonics.CapitalOnOneKey` | benchmarks/jdk-streams/src/main/java/org/renaissance/jdk/streams/MnemonicsCoderWithStream.java:27-32 | Every capital stands on exactly one key |
| `Mnemonics.CaseIsIgnored` | benchmarks/jdk-streams/src/main/java/org/renaissance/jdk/streams/MnemonicsCoderWithStream.java:35-39 | Words that differ only in the case of their letters have the same code |
| `Mnemonics.JoinOneMore` | benchmarks/jdk-streams/src/main/java/org/renaissance/jdk/streams/MnemonicsCoderWithStream.java:72 | The words of a phrase are joined by one blank |
| `Mnemonics.TranslateReturnsIff` | benchmarks/jdk-streams/src/main/java/org/renaissance/jdk/streams/MnemonicsCoderWithStream.java:58-81 | For any input at all, `translate` returns exactly when the dictionary lacks the empty word |
| `Mnemonics.EmptyWordNeverReturns` | benchmarks/jdk-streams/src/main/java/org/renaissance/jdk/streams/MnemonicsCoderWithStream.java:58-81 | An input for which it does not: the number 2 and a dictionary of the empty word |
| `Mnemonics.DigitCodeIsAlphabetic` | benchmarks/jdk-streams/src/main/java/org/renaissance/jdk/streams/MnemonicsCoderWithStream.java:35-39 | Words with any other character never match a number, because their code holds the text `null` |
| `Mnemonics.JoinIsInjective` | benchmarks/jdk-streams/src/main/java/org/renaissance/jdk/streams/MnemonicsCoderWithStream.java:72 | Different sequences of words without a space give different phrases |
| `Mnemonics.SpellingIsUnique` | benchmarks/jdk-streams/src/main/java/org/renaissance/jdk/streams/MnemonicsCoderWithStream.java:58-76 | So each translation has one spelling |
| `NodeStreams.EscapeOne` | website/resources/js/highlight.pack.js:1 | The three replacements in a row escape each character once; the ampersands they bring in are not escaped again |
| `NodeStreams.EscapeConcat` | website/resources/js/highlight.pack.js:1 | Escaping piece by piece is escaping the whole |
| `NodeStreams.CollectEvents` | website/resources/js/highlight.pack.js:1 | The recursive walk of `c`, with its shared list and running offset, appends the tree's events and returns the offset behind its text |
| `NodeStreams.NodeStreamIsWellFormed` | website/resources/js/highlight.pack.js:1 | The stream of any tree of different elements nests, has offsets that do not decrease and stay within the text, and starts each element once |
| `NodeStreams.OffsetsFitTextIff` | website/resources/js/highlight.pack.js:1 | The offsets of `c` fit the text of `h` exactly when `h` drops no newline |
| `NodeStreams.NewlineShiftsOffsets` | website/resources/js/highlight.pack.js:1 | An input for which they do not: a text of one newline, with breaks in use |
| `StreamMerge.MergeStreams` | website/resources/js/highlight.pack.js:1 | For any text and any two well-formed streams, whose offsets may reach past its end: `j` finds what it closes, the output is well nested, is exactly the escaped text once the tags are out, and each piece of text lies inside exactly the elements around it in either stream. At one offset the first stops of the second stream come before the tags of the first stream and all its other tags after them; and no element is opened twice if and only if no two elements of the streams cross |
| `StreamMerge.MergeTrees` | website/resources/js/highlight.pack.js:1 | The same from two trees and any text, through `c` and then `j` |
| `MergeOrder.NestsIff` | website/resources/js/highlight.pack.js:1 | The events taken in the order of `t` nest if and only if no element of the one stream crosses one of the other |
| `MergeOrder.CrossIff` | website/resources/js/highlight.pack.js:1 | Elements that are not empty do not cross exactly when they lie beside each other, the highlighter's inside the original's, or the original's inside with room on both sides |
| `StreamMerge.FirstIsOuter` | website/resources/js/highlight.pack.js:1 | Of two elements over the same text the original's is the outer one |
| `StreamMerge.TagHasAttribute` | website/resources/js/highlight.pack.js:1 | An opening tag names its element and then each attribute, in order, the value escaped |
| `MarkupReading.ReadsBack` | website/resources/js/highlight.pack.js:1 | Reading the output back, what stands between angle brackets are exactly the tags, in order, and the rest is exactly the escaped text, when no name has an angle bracket |
| `StreamMerge.OpenIsSpanning` | website/resources/js/highlight.pack.js:1 | Between two consumed events the open elements are those that contain the text there |
| `NodeStreams.StopIsOpen` | website/resources/js/highlight.pack.js:1 | The search down the stack always finds the element that stops |
| `StreamMerge.EmitEvent` | website/resources/js/highlight.pack.js:1 | A stop closes the tags above its element and opens them again around it, so that exactly that element is gone from the stack |
| `StreamMerge.TextIsWhole` | website/resources/js/highlight.pack.js:1 | Contiguous pieces from the start of the text give its escaped prefix |
| `RingBuffer.CBuffer.Push` | benchmarks/actors-reactors/reactors/reactors-debugger/src/main/resources/io/reactors/debugger/lib/cbuffer/cbuffer.js:54-79 | Any number of values, even more than fit: the last `capacity` values of contents and arguments remain, in order; the overflow callback, if one is set, gets the slots behind the last value, and these are the lost values exactly when `PushReportsLost` holds before |
| `RingBuffer.CBuffer.Pop` | benchmarks/actors-reactors/reactors/reactors-debugger/src/main/resources/io/reactors/debugger/lib/cbuffer/cbuffer.js:43-52 | Takes off the last value, or yields nothing from an empty buffer |
| `RingBuffer.CBuffer.Shift` | benchmarks/actors-reactors/reactors/reactors-debugger/src/main/resources/io/reactors/debugger/lib/cbuffer/cbuffer.js:110-121 | Takes off the first value, or yields nothing from an empty buffer |
| `RingBuffer.CBuffer.Unshift` | benchmarks/actors-reactors/reactors/reactors-debugger/src/main/resources/io/reactors/debugger/lib/cbuffer/cbuffer.js:130-153 | Any number of values before the first, the last of all dropped where they do not fit; exactly when whole turns lead `start` or `end` out of the slots is the buffer no longer valid, never for fewer values than slots; and what its callback gets |
| `RingBuffer.CBuffer.Reverse` | benchmarks/actors-reactors/reactors/reactors-debugger/src/main/resources/io/reactors/debugger/lib/cbuffer/cbuffer.js:81-90 | Swapping inwards across the wrap reverses the contents |
| `RingBuffer.CBuffer.RotateLeft` | benchmarks/actors-reactors/reactors/reactors-debugger/src/main/resources/io/reactors/debugger/lib/cbuffer/cbuffer.js:92-99 | As often as asked: the first value goes to the end |
| `RingBuffer.LeftByAt` | benchmarks/actors-reactors/reactors/reactors-debugger/src/main/resources/io/reactors/debugger/lib/cbuffer/cbuffer.js:92-99 | In closed form: each value of a buffer that is not empty moves down by the count, around the end |
| `RingBuffer.KeptParts` | benchmarks/actors-reactors/reactors/reactors-debugger/src/main/resources/io/reactors/debugger/lib/cbuffer/cbuffer.js:54-79 | What a push keeps is the end of contents and arguments, and what an unshift keeps is their beginning, as long as there is room |
| `RingBuffer.ReversedTwice` | benchmarks/actors-reactors/reactors/reactors-debugger/src/main/resources/io/reactors/debugger/lib/cbuffer/cbuffer.js:81-90 | The reversed list has each value at the mirrored place, and reversing twice is the identity |
| `RingBuffer.CBuffer.RotateRight` | benchmarks/actors-reactors/reactors/reactors-debugger/src/main/resources/io/reactors/debugger/lib/cbuffer/cbuffer.js:101-108 | As often as asked the last value goes to the front, at any capacity; with capacity 1 the buffer is valid afterwards exactly for an even number of turns |
| `RingBuffer.PushedWindow` | benchmarks/actors-reactors/reactors/reactors-debugger/src/main/resources/io/reactors/debugger/lib/cbuffer/cbuffer.js:67-77 | Writing behind the window, with wrap-around, is appending and keeping the last that fit |
| `RingBuffer.RotationsCancelIff` | benchmarks/actors-reactors/reactors/reactors-debugger/src/main/resources/io/reactors/debugger/lib/cbuffer/cbuffer.js:92-108 | Rotating left and then right by the same count is the identity exactly when the buffer is not empty or the count is 0 |
| `RingBuffer.PushReportsLostIff` | benchmarks/actors-reactors/reactors/reactors-debugger/src/main/resources/io/reactors/debugger/lib/cbuffer/cbuffer.js:54-66 | When a push loses values, its callback gets just those, whatever the slots hold, exactly when the buffer was full and no more values came than it has slots |
| `RingBuffer.PushReportsOneTwice` | benchmarks/actors-reactors/reactors/reactors-debugger/src/main/resources/io/reactors/debugger/lib/cbuffer/cbuffer.js:54-66 | An input for which it does not: three values pushed to a full buffer of two report the first twice |
| `RingBuffer.PushReportsShifted` | benchmarks/actors-reactors/reactors/reactors-debugger/src/main/resources/io/reactors/debugger/lib/cbuffer/cbuffer.js:54-66 | Another one: two values behind the single one in a buffer of two report what had been shifted out |
| `RingBuffer.UnshiftReportsLostIff` | benchmarks/actors-reactors/reactors/reactors-debugger/src/main/resources/io/reactors/debugger/lib/cbuffer/cbuffer.js:130-138 | When an unshift loses values, its callback gets just those, whatever the slots hold, exactly when no more values came than there are slots and the lost ones do not lie across the last slot |
| `RingBuffer.BackStaysIff` | benchmarks/actors-reactors/reactors/reactors-debugger/src/main/resources/io/reactors/debugger/lib/cbuffer/cbuffer.js:142-151 | A position that goes back stays in the slots unless it goes whole turns below 0 |
| `RingBuffer.CapacityOneLeaves` | benchmarks/actors-reactors/reactors/reactors-debugger/src/main/resources/io/reactors/debugger/lib/cbuffer/cbuffer.js:150-151 | An input for which it does not: one value before the first with capacity 1 |
| `Harness.Builder.WithPlugin` | renaissance-harness/src/main/java/org/renaissance/harness/EventDispatcher.java:178-212 | In all eleven lists: listeners of tear-down events stand in the reverse order of the plugins, all others in their order |
| `Harness.ExecuteOperation` | renaissance-harness/src/main/java/org/renaissance/harness/ExecutionDriver.java:121-154 | The notifications of one operation, results included, whichever of its methods throws; `isLast` is asked exactly when the set-up succeeded, and answers from the state before the operation |
| `Harness.NotesOfOperation` | renaissance-harness/src/main/java/org/renaissance/harness/ExecutionDriver.java:121-154 | Each listener is told of an operation's set-up and tear-down once, as far as it gets, and of its results twice if it succeeds, for each time its plugin was registered |
| `Harness.ExecuteOperations` | renaissance-harness/src/main/java/org/renaissance/harness/ExecutionDriver.java:90-97 | Exactly the operations run that the policy allows: the given number, or all up to the one after the time was up, by the clock or by the sum of the durations; `isLast` is true of an operation exactly when no other would follow, so in a loop that stops for the final one only; the loop throws exactly when an operation does |
| `Harness.ExecuteBenchmark` | renaissance-harness/src/main/java/org/renaissance/harness/ExecutionDriver.java:78-119 | The notifications of a whole run for any pattern of exceptions, with exactly the operations that the policy allows; they run until the first that throws, and an exception leaves exactly when one was thrown |
| `HarnessBrackets.BenchmarkBracketsMatch` | renaissance-harness/src/main/java/org/renaissance/harness/ExecutionDriver.java:78-119 | Whatever throws, the benchmark-level notifications are matched brackets, later plugins inside earlier ones |
| `HarnessBrackets.AllBracketsMatchIff` | renaissance-harness/src/main/java/org/renaissance/harness/ExecutionDriver.java:121-154 | With the operation-level ones they match if and only if the last `run` did not throw or no plugin listens to both events of an operation |
| `HarnessBrackets.ThrowingRunLeavesBracket` | renaissance-harness/src/main/java/org/renaissance/harness/ExecutionDriver.java:121-154 | An input for which they do not: one plugin around operations and one `run` that throws |
| `HarnessBrackets.OperationsMatch` | renaissance-harness/src/main/java/org/renaissance/harness/ExecutionDriver.java:121-154 | All operations but the last are matched; the last leaves open what its exception left open |

## Left out

- Design: the module and the manual, object types, document texts and all pointers to the module; they are not looked at by any operation of the model.
- Design: the title of a document is represented by the id of its composite part, from which the original builds it.
- Design: `SetupDataStructure` itself; the constructor of `Setup` gives the first tree and SM1 and SM3 are the steps with which the original then fills it.
- Design: build dates of assemblies and composite parts after creation; of the operations that update them, OP12 and ST8 are programs of the lock protocol and OP13 and OP14 appear only through their locks.
- Design: the coordinates of atomic parts after creation (T2, OP9 and others), which only swap two fields.
- Design: the order in which the ids of removed atomic parts return to their pool; the model fixes which ids are free.
- Design: the copies the loops walk over are sequences; the two loops that remove children, one by level and one by kind, are one method; clearing a pointer to a collection empties it.
- Design: the level of an assembly is a `short` in the original; no overflow is modelled.
- Design: the array of new atomic parts of a composite part grows in the model, where the original fills a fixed array.
- DesignTraversals.TraverseComplexAssembly: its result is an `int` in the original; no overflow is modelled.
- Locking: the operations without an id (setting up and checking the structure) take no locks; they run alone and are not part of the protocol.
- Locking: wrap-around of the timestamp counter, fairness and scheduling; a thread that can step is not promised to do so.
- LockTable.TableCoversFootprint: the footprints of T1, T3, Q6, ST3, ST8, OP6 and OP12 are derived from programs; those of the others, which lock no level and only look up and touch one kind of object, are read off their classes. The protocol's results hold for all bodies within them.
- OperationBodies: a level outside the tree, or siblings at different levels, end a body as a failure; no design has them.
- PartWalkBodies: the recursion's sums are kept as one; a set that the build-date index holds is a number for each of its parts.
- Locking: the coarse-grained executor, whose readers share a counter without exclusion.
- KMeans: floating point; distances and means are exact reals, and `Double.MAX_VALUE` is the minimum of no distances.
- KMeans: an empty data set and zero clusters, for which the original throws; thread pools; centroids are told apart by an id in place of object identity.
- Mnemonics: numbers with other characters than digits, except for `TranslateReturnsIff`; a character outside the basic plane is one character here and two in the original.
- StreamMerge: the language grammars and the highlighting engine; the text and the two trees are given.
- RingBuffer: `sum`, `sort`, `sortedIndex`, the read-only iteration, overflow callbacks that change the buffer, and capacity 0.
- Harness: overflow of the policies' `long` times, printing, the values of results, further results that publishers send, module loading and the listeners' own actions; listeners do not throw.
- Other benchmarks of the suite: wrappers around libraries that are not part of the repository, and user interface code.
