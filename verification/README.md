# Verified model of the Java language server's class index

The server answers every question from a class index: buckets of classes edited in place,
archive readers built once, views that stack them and walk inheritance, protocols that keep the
index fresh while editors, file watchers and build imports race, and a few codecs the index and
the editor protocol rely on. This project models those parts in Dafny and proves what they
promise. `dafny verify dfyconfig.toml` checks everything.

How it is laid out:

- **Vocabulary.** `Seqs` (keep-the-first filtering behind every `if seen.insert(..) { push }`),
  `Rows` (where in a list of lists the survivors sit), `BreadthFirst` (the queue-and-seen-set walk,
  proved to list exactly the reachable nodes, each once, nearest first and along the edges in order,
  on cyclic graphs too), `Sorting` and `TextOrder`.
- **Classes and codecs.** `ClassModel`, `JvmTypes`, `Descriptors`, `ArchiveStubs`.
- **Bucket.** `BucketSpec` is the meaning (one finite map from internal name to class, plus
  declaration ranges), `BucketSlots` and `BucketStates` the bookkeeping of slots, free list and
  inverted indexes, `BucketOrder` the order in which the indexes list classes, `Bucket` the class whose methods edit those fields in place, `BucketLaws`
  what follows for runs of operations, `HierarchyCache` what is left of the cache's coherence when
  collections and edits interleave.
- **Reader and view.** `ArtifactReader` (one archive), `ViewSpec` and `ViewLookup` (which class a
  name stands for; listing and lookup agree), `ViewMembers` (three ways to see inherited members
  agree), `MemberLaws` (which members those are, said of the fields of classes and stubs), `View` (the class with its caches), `ViewQueries` (queries by key against the full listing), `ViewBuckets` (a bucket nobody edits is a layer).
- **Scopes.** `ScopeLayers` builds the layers of an analysis context, `ScopeLaws` says what they are; `ScopeCache` is the
  version-tagged snapshot cache raced by mutators.
- **Protocols.** `IndexHandle`, `ReindexGuard`, `ReloadLoop`, and the disk watcher in `WatchSpec`,
  `WatchLaws`, `ModuleRegistry` and `SourceWatcher`.
- **Editor side.** `ChainParser` with its printer `ChainPrinter`, `Positions`, `SemanticTokens`,
  `CandidateDedup`.

Conventions. A class whose source updates fields in place is a Dafny class; its methods are
proved against functions on values (`ensures Contents() == Update(old(Contents()), ..)`), and the
laws are lemmas about those functions. Strings are sequences of Unicode scalar values. Hash maps
are maps; where their iteration order reaches a result the model takes an arbitrary list. Atomics
are sequentially consistent counters that do not wrap. A panic is a `None` where it matters.

Results that differ from what one might expect of the code, each pinned by a lemma:

- An update whose classes are all blocked by archive entries, or that has no class at all, leaves
  the file's stale classes in the bucket (`BucketLaws.UpdateMirrors`,
  `BucketLaws.EmptiedFileKeepsStaleClass`). Upserting a file gets it in step if and only if it
  yields an unblocked class or the index held none of its classes (`WatchSpec.UpsertSettlesExactly`);
  the disk-resync results assume one of the two of every followed file.
- A removed file leaves its Java module descriptor on record, because the upsert that put it there
  let go of the query input that the removal would have cleaned up with
  (`ModuleRegistry.VanishedFileKeepsDescriptor`). After any run the descriptor on record is the last
  one declared, unless a later removal let go of an input retained since
  (`ModuleRegistry.DescriptorAfterRun`).
- A rescan removes a tracked file under the roots that the scan skips, even while it is on disk
  (`WatchLaws.SkippedFileSettlesExactly`).
- Seeing the reindex counter at zero in the wait loop does not exclude an undetected overlap
  (`ReindexGuard.IdleWaitIsNotEnough`). An apply can slip past an overlapping reindex if and only if,
  when it reads the first serial, some reindex has been announced and neither published nor dropped
  (`ReindexGuard.SlipsExactlyWhenLooming`). A counter of zero at that read is enough to exclude it,
  though not necessary (`ReindexGuard.IdleMeansQuiet`, `ReindexGuard.CountedIsQuiet`).
- The rescan after an overlap that was noticed is not checked again: until it ends, a reindex that
  begins meanwhile can always discard it, and afterwards exactly a reindex that scanned before its end
  can (`ReindexGuard.LostExactlyWhen`, `ReindexGuard.NoticedAndLost`).
- A member collection takes the lock once for every class it visits and once more to store its
  result. As soon as it has visited a class, one edit can leave a stale entry in a bucket's hierarchy
  cache, and before that none can (`HierarchyCache.OneEditExactly`, with runs in
  `HierarchyCache.EditBeforeStoreIsStale` and `HierarchyCache.EditMidWalkIsStale`); without a clearing
  edit since its first visit the entry is coherent (`HierarchyCache.CoherentUnlessOvertaken`).
- When the archive that wins a name repeats it, the listing and the lookup of a view disagree on that
  name; a repetition that another layer hides does no harm. On layers whose archives have one origin
  precedence each the two agree on every name if and only if every name sits in one slot of the
  layer that wins it (`ViewLookup.ListingAgreesExactlyWhen`).
- A view's query by key can answer with a class that its full listing does not show, when the class
  shown under that internal name lacks the key (`ViewQueries.QueryAgreesExactlyWhen`,
  `ViewQueries.HiddenClassAnswers`).
- Materialising an archive stub panics when a one-byte slice of its descriptor splits a character,
  even where the restored text would be right (`ArchiveStubs.PanickingDescriptor`).
- A source update whose root is unknown lands in the module-level bucket, which no context sees as
  soon as it sees any source root (`ScopeLayers.UpdateIsVisible`,
  `ScopeLayers.UnknownRootIsInvisible`).
- A method descriptor whose class names contain `)` does not survive printing and parsing
  (`Descriptors.DescriptorRoundTrip`, `Descriptors.ParenthesisEndsParameters`).

## Model

| member | source | states |
|---|---|---|
| BreadthFirst.WalkIsNearestFirst | src/index/view.rs:157-190 | on every graph, cycles and dangling edges included, the queue walk lists exactly the nodes reachable through resolvable nodes, each once, and never one before a strictly nearer one |
| BreadthFirst.WalkIsByDiscovery | src/index/view.rs:157-190 | the order is the root and then the edges of each listed node, node by node and in the order of the edges, unresolvable nodes left out and each node kept where it is first met |
| BreadthFirst.LoopTurn | src/index/bucket.rs:376-411 | one turn of the queue loop, in each of its three branches, keeps the pushed order plus the rest of the walk equal to the whole walk and shrinks the measure |
| Seqs.KeepFirstPositions | src/index/bucket.rs:388-399 | what survives `if seen.insert(key) { push }` sits at increasing positions, exactly those no earlier position shares a key with |
| Seqs.KeepFirstKeys | src/index/bucket.rs:388-399 | the survivors carry every key of the input, each exactly once |
| Rows.KeptSpots | src/index/bucket.rs:388-399 | of a list of lists, what survives sits at increasing spots, exactly those no earlier row and no earlier slot of the same row has the same item at |
| Seqs.AppendUnseen | src/index/bucket.rs:388-399 | the loop over one class's members extends the survivors and the seen set as if all members so far had been filtered at once |
| Seqs.RetainUnseen | src/index/view.rs:206-211 | `retain` with a shared seen set keeps exactly what one class adds to the survivors of all earlier ones |
| JvmTypes.ParseSignature | src/semantic/types/generics.rs:16-134 | parsing the signature of any well-formed type gives the type and the untouched rest, through arrays, wildcards and nested type arguments |
| JvmTypes.LettersParse | src/semantic/types/generics.rs:51-59 | each of the letters V, B, C, D, F, I, J, S, Z is a whole type, `*` a wildcard, and a text beginning with any other letter that no constructor has is none |
| JvmTypes.MalformedSignatures | src/semantic/types/generics.rs:16-60 | an unterminated class name is still read, with or without type arguments; unclosed type arguments, an unterminated type variable, and an array or bound of nothing are not |
| ClassModel.RenderDesc | src/index.rs:683-703 | the buffer loop renders `(` parameters `)` return type, with `V` for none |
| ClassModel.TargetsRead | src/index.rs:193-219 | targets come from the first `java/lang/annotation/Target`: its constant, or the constants of its array in order, else none |
| ClassModel.RetentionRead | src/index.rs:222-232 | the retention is the constant of the first `java/lang/annotation/Retention`, else none |
| Descriptors.ConsumeOne | src/jvm/descriptor.rs:1-19 | it cuts off exactly one descriptor's length, and panics exactly where a one-byte slice would split a multi-byte character |
| Descriptors.SplitParamDescriptors | src/jvm/descriptor.rs:23-42 | the pieces of the text between the first parentheses, or a panic exactly when the closing one comes first or a slice would split a character |
| Descriptors.FromMethodDescriptor | src/index.rs:559-581 | the same pieces as unnamed parameters, with the same panics |
| Descriptors.FromDescriptorAndNames | src/index.rs:584-592 | names are filled in by position and missing ones stay empty |
| Descriptors.NamesByPosition | src/index.rs:584-592 | each piece gets the name at its position and the empty name where there is none |
| Descriptors.PiecesConcatenate | src/jvm/descriptor.rs:1-42 | for every text the non-empty pieces concatenate back to it |
| Descriptors.AsciiSliceable | src/jvm/descriptor.rs:1-42 | on ASCII text the splitter never panics |
| Descriptors.PiecesOfFieldTypes | src/jvm/descriptor.rs:1-42 | a list of field descriptors splits into exactly that list (section 4.3.2 of the JVM Specification) |
| Descriptors.DescriptorRoundTrip | src/index.rs:559-581 | parsing a printed method descriptor gives its parameters back if and only if none of them contains `)` |
| Descriptors.ParenthesisEndsParameters | src/index.rs:559-581 | a class named `a)b` comes back as the parameter `La` |
| Descriptors.ReturnTypeRoundTrip | src/semantic/types.rs:2452-2489 | the return type comes back, `V` as none |
| Descriptors.ReturnLetter | src/semantic/types.rs:2452-2489 | a return type of one letter reads as itself for B, C, D, F, I, J, S, Z and as none for V and for letters that begin no type |
| Descriptors.MalformedDescriptors | src/jvm/descriptor.rs:1-42 | an unterminated class name takes the rest of the text, a text without both parentheses has no parameters, one without the closing one no return type |
| ArchiveStubs.DescSurvives | src/index/archive_stub.rs:44-58 | materialising a stub returns and gives back the stub's own descriptor if and only if that descriptor has the printed shape: sliceable, parameters between the first parentheses, a canonical return type |
| ArchiveStubs.RestubMethod | src/index/archive_stub.rs:31-58 | materialising a method stub returns and re-stubbing the result is the identity if and only if the stub is well formed |
| ArchiveStubs.PanickingDescriptor | src/jvm/descriptor.rs:14-19 | a stub that would print its own descriptor again although materialising it panics |
| ArchiveStubs.AnnotationsSurvive | src/index/archive_stub.rs:170-213 | the annotations made up by materialising read back as the stub's targets and retention |
| ArchiveStubs.MadeUpAnnotations | src/index/archive_stub.rs:170-213 | the made-up annotations literally: names, visibility, one constant for one target and an array for several |
| ArchiveStubs.RestubClass | src/index/archive_stub.rs:116-168 | materialising a class stub returns and re-stubbing the result is the identity if and only if all its method stubs are well formed |
| ArchiveStubs.MaterializedFields | src/index/archive_stub.rs:139-168 | materialising carries every field of the class, its methods and its fields over under its own name |
| ArchiveStubs.StubbedFields | src/index/archive_stub.rs:116-137 | stubbing does the same, keeping of the parameters the descriptors and names |
| ArchiveStubs.TypedMethodSurvives | src/index/archive_stub.rs:31-58 | stubbing and materialising a method with field-descriptor parameters returns and keeps descriptor, parameter names and return type, and its stub is a fixed point |
| BucketSlots.PushExact | src/index/bucket.rs:628-646 | listing a filled slot under its key keeps an index exact: the live ids of each key, once each, no empty entries |
| BucketSlots.TrimExact | src/index/bucket.rs:748-760 | trimming an emptied slot's id keeps an index exact and drops entries that become empty |
| BucketSlots.PopFree | src/index/bucket.rs:618-626 | the reused slot is empty, and the free list is again exactly the empty slots |
| BucketStates.DetachedCore | src/index/bucket.rs:668-686 | detaching an id removes that class and its ranges from the meaning and keeps names, free list, three indexes and ranges exact |
| BucketStates.InsertedLinked | src/index/bucket.rs:602-650 | inserting a record replaces the class of that name and its ranges, keeping every index exact |
| BucketStates.OriginRemovedLinked | src/index/bucket.rs:545-558 | dropping the origin entry and detaching its ids removes exactly that origin's classes |
| BucketStates.SortedComparison | src/index/bucket.rs:560-588 | comparing both sides sorted by internal name is comparing them as multisets |
| BucketStates.SlashedExactly | src/index/bucket.rs:299-307 | dots become slashes and nothing else changes |
| BucketOrder.StayersBeforeBatch | src/index/bucket.rs:137-158 | classes that stay keep their order in front of an added batch |
| BucketOrder.InsertedInOrder | src/index/bucket.rs:602-650 | inserting a record keeps every name index in order of arrival and moves the class to the end, whichever slot it reuses |
| BucketOrder.OriginRemovedInOrder | src/index/bucket.rs:545-558 | dropping an origin keeps the other classes in their order of arrival |
| Bucket.BucketIndex.constructor | src/index/bucket.rs:114-135 | a new bucket is well formed and empty |
| Bucket.BucketIndex.Detach | src/index/bucket.rs:668-686 | the in-place edit of slots, free list, names, ranges and three indexes is the value-level detach |
| Bucket.BucketIndex.RemoveById | src/index/bucket.rs:652-666 | detach, then the origin index trimmed; tells whether a class was there |
| Bucket.BucketIndex.TakeSlot | src/index/bucket.rs:618-626 | the most recently freed slot is reused, else the array grows |
| Bucket.BucketIndex.InsertRecord | src/index/bucket.rs:602-650 | the whole in-place insertion is the value-level insertion |
| Bucket.BucketIndex.InsertDeclarations | src/index/bucket.rs:688-728 | exactly the batch's ranges of the class and of members it declares are overlaid |
| Bucket.BucketIndex.RemoveDeclarations | src/index/bucket.rs:730-746 | exactly the ranges of the class and its declared members go |
| Bucket.BucketIndex.AddClasses | src/index/bucket.rs:137-158 | well-formedness is kept, the meaning is the old map with the classes inserted in order, and they arrive in that order |
| Bucket.BucketIndex.AddArchiveClasses | src/index/bucket.rs:160-170 | likewise for classes stored as stubs |
| Bucket.BucketIndex.RemoveByOrigin | src/index/bucket.rs:545-558 | the meaning loses exactly that origin's classes and ranges, the rest keeps its order; true exactly when there were any |
| Bucket.BucketIndex.SameClassesForOrigin | src/index/bucket.rs:560-588 | true exactly when the origin's classes and the incoming ones are equal as multisets and not empty |
| Bucket.BucketIndex.UpdateSource | src/index/bucket.rs:184-215 | false leaves the meaning alone; true gives the old map minus the origin overlaid by the unblocked classes, which arrive behind the rest |
| Bucket.BucketIndex.GetClass | src/index/bucket.rs:247-255 | the class of the map, if any |
| Bucket.BucketIndex.GetClassesBySimpleName | src/index/bucket.rs:267-274 | exactly the classes of the map with that simple name, once each, in order of arrival |
| Bucket.BucketIndex.DirectInnerClasses | src/index/bucket.rs:280-287 | exactly the classes of the map with that owner, once each, in order of arrival |
| Bucket.BucketIndex.ClassesInPackage | src/index/bucket.rs:299-307 | exactly the classes of the map in that package, dots read as slashes, once each, in order of arrival |
| Bucket.BucketIndex.WalkMembers | src/index/bucket.rs:372-414 | the queue loop computes the breadth-first, first-of-its-key members of the current map |
| Bucket.BucketIndex.CollectInheritedMembers | src/index/bucket.rs:361-421 | cached or not, the answer is a fresh recomputation on the current classes; the cache stays coherent, never holds more than 1024 entries and loses one only when full |
| Bucket.BucketIndex.Mro | src/index/bucket.rs:423-450 | the classes of the map along the walk |
| BucketLaws.RangesStayDeclared | src/index/bucket.rs:688-746 | after any run of operations every range belongs to a live class and a member it declares |
| BucketLaws.RangesAfterInsert | src/index/bucket.rs:688-746 | after an insertion the ranges of the class are exactly those the batch gives for it and the members it declares, all other classes keep theirs |
| BucketLaws.RangesAfterBatch | src/index/bucket.rs:137-158 | a batch of distinctly named classes leaves each of them with exactly its own ranges of the batch |
| BucketLaws.RangesAfterRemoval | src/index/bucket.rs:545-558 | removing an origin takes exactly the ranges of the classes that go |
| BucketLaws.RemovalUndone | src/index/bucket.rs:545-558 | putting a removed origin's classes back, in any order, restores exactly the old class map, so removal takes away those classes and nothing else |
| BucketLaws.SourceEditsKeepJarEntries | src/index/bucket.rs:192-202 | no run of source-file updates and removals changes or deletes an archive's class |
| BucketLaws.UpdateMeaning | src/index/bucket.rs:184-215 | what an update leaves under every single name, later classes of a batch winning |
| BucketLaws.ChangesExactly | src/index/bucket.rs:192-211 | an update changes the bucket if and only if some class of the batch is not held by an archive and those that are not differ, as multisets, from what the origin has |
| BucketLaws.UpdateMirrors | src/index/bucket.rs:204-214 | after an update the origin holds exactly the unblocked classes if and only if there are any or it held none before |
| BucketLaws.EmptiedFileKeepsStaleClass | src/index/bucket.rs:204-206 | a concrete bucket that keeps the class of an emptied file |
| BucketLaws.HierarchyNearestFirst | src/index/bucket.rs:376-411 | the bucket's walk lists the reachable classes nearest first and, within a depth, along the edges in order |
| BucketLaws.EdgesExactly | src/index/bucket.rs:402-411 | the edges of a class lead to its superclass, then to its interfaces in declared order, empty names dropped, and nowhere else |
| BucketLaws.ParentsAreWalked | src/index/bucket.rs:402-411 | a superclass or interface of a class on the walk is on the walk if the bucket has it |
| BucketLaws.MroExactly | src/index/bucket.rs:423-450 | one class for every name on the walk, in its order |
| BucketLaws.InheritedExactly | src/index/bucket.rs:388-399 | class by class along the walk, a method is inherited if and only if none met before has its name and descriptor, a field if and only if none met before has its name, and order is kept |
| BucketLaws.ParentMembersInherited | src/index/bucket.rs:376-411 | every method and field of a direct superclass or interface in the bucket has its key among the inherited members |
| HierarchyCache.CoherentUnlessOvertaken | src/index/bucket.rs:361-421 | with every visit of a class and the store as steps of their own, a cached entry, and a finished collection about to be stored, is a fresh recomputation on the current classes in every run, unless a clearing edit has come since its collection's first visit |
| HierarchyCache.OneEditExactly | src/index/bucket.rs:376-421 | in every run and for every collection under way, one clearing edit now and none after can make the entry it stores stale if and only if it has visited a class |
| HierarchyCache.EditBeforeStoreIsStale | src/index/bucket.rs:414-421 | a run in which an edit between the last visit and the store leaves a stale entry in the cache |
| HierarchyCache.EditMidWalkIsStale | src/index/bucket.rs:376-411 | a run in which an edit between the visits of two classes does |
| ArtifactReader.LastNamedIsLast | src/index/artifact_reader.rs:87-89 | a name answers with its last slot, and with none exactly when no slot has it |
| ArtifactReader.EveryNameFindsItsSlot | src/index/artifact_reader.rs:87-89 | every slot is found under its own name if and only if names are distinct |
| ArtifactReader.IndexListsSlots | src/index/artifact_reader.rs:90-106 | one pass leaves each index listing exactly the slots of every key, in order, without empty entries |
| ArtifactReader.ArtifactScopeReader.FromArchive | src/index/artifact_reader.rs:80-125 | the reader built by the loop indexes exactly the archive |
| ArtifactReader.ArtifactScopeReader.GetClassHandle | src/index/artifact_reader.rs:131-139 | the handle of the last slot with the name |
| ArtifactReader.ArtifactScopeReader.GetClass | src/index/artifact_reader.rs:141-149 | the first use materialises, every use answers with the materialised stub, foreign handles with none |
| ArtifactReader.ArtifactScopeReader.ClassHandlesBySimpleName | src/index/artifact_reader.rs:340-351 | exactly the handles of classes with the simple name, in slot order |
| ArtifactReader.ArtifactScopeReader.DirectInnerClassHandles | src/index/artifact_reader.rs:367-378 | exactly the handles of classes with the owner, in slot order |
| ViewSpec.BestWins | src/index/view.rs:133-155 | the reference of a name has the highest origin precedence of all layers and, among equals, the earliest layer; none exactly when no layer offers one |
| ViewSpec.NamesAreResolvable | src/index/view.rs:1048-1075 | a name resolves if and only if it is in the name table, to a class of that name |
| ViewSpec.PrependedOverlay | src/index/scope_snapshot.rs:90-102 | a prepended overlay answers for its own names unless its class is no source file while another layer has a source file of that name |
| ViewLookup.MergeKeepsBest | src/index/view.rs:79-101 | merging lists names in order of first appearance, each with the best reference offered under it |
| MemberLaws.ListingInOrder | src/index/view.rs:79-101 | the listing names the classes layer by layer and slot by slot, each where it first appears |
| ViewLookup.ListingAgreesWithLookup | src/index/view.rs:1008-1013 | on layers with distinct names every visible name is listed once, as exactly the class its lookup answers, and the listed names are the name table |
| ViewLookup.AgreeExactlyWhen | src/index/view.rs:79-101 | on any layers, listing and lookup agree on a name if and only if the slot shown, in the layer the listing shows the name from, is the one that layer's own lookup finds |
| ViewLookup.ListingAgreesExactlyWhen | src/index/view.rs:1008-1013 | on layers whose archives have one origin precedence each, listing and lookup agree on every name if and only if every name sits in one slot of the layer that wins it |
| ViewLookup.RepeatedNameDisagrees | src/index/artifact_reader.rs:87-89 | on such layers, whenever the layer that wins a name holds it in several slots, listing and lookup disagree on it |
| ViewLookup.TwoSlotsDisagree | src/index/artifact_reader.rs:87-89 | of two slots with one name the listing shows the first and the lookup the last |
| ViewLookup.HierarchyIsNearestFirst | src/index/view.rs:157-190 | the hierarchy order lists the best references of exactly the classes reachable through resolvable, non-empty parent names, each once, nearest first |
| MemberLaws.ViewEdgesExactly | src/index/view.rs:157-190 | the edges of a name lead to the superclass and interfaces of the class or stub its best reference stands for, in declared order, empty names dropped, and nowhere else |
| MemberLaws.ViewHierarchyByDiscovery | src/index/view.rs:157-190 | the view's walk follows these edges in order |
| ViewLookup.RepeatedLayerChangesNothing | src/index/view.rs:133-155 | repeating a layer later changes no lookup, no resolved class and no name |
| ViewLookup.RepeatedLayerKeepsHierarchy | src/index/view.rs:157-190 | nor any inheritance walk |
| ViewLookup.RepeatedLayerKeepsListing | src/index/view.rs:79-101 | nor the listing, order included |
| ViewQueries.QueryAgreesExactlyWhen | src/index/view.rs:79-101 | a query by key answers with exactly the listed classes that have the key if and only if no name whose listed class lacks the key has another class with it; each name at most once, with its best matching reference |
| ViewQueries.KeyOfNameAgrees | src/index/view.rs:1015-1025 | queries by a key that the internal name determines always agree with the listing |
| ViewQueries.HiddenClassAnswers | src/index/view.rs:449-465 | two buckets with one internal name and two simple names: the listing shows the first class, the query by the second simple name the second |
| ViewBuckets.FrozenBucketAnswers | src/index/bucket.rs:514-521 | the slot-order listing of a well-formed bucket repeats no name and answers like the bucket's class map |
| ViewBuckets.FrozenInOrder | src/index/bucket.rs:514-521 | the listing of a bucket is its filled slots in slot order |
| ViewMembers.ProjectedMembers | src/index/view.rs:192-216 | the members of the projected classes, one class after the other, are the collected members |
| MemberLaws.CollectedExactly | src/index/view.rs:626-682 | class by class along the walk, a method is collected if and only if none met before has its name and the same text, the text being the generic signature if there is one and the descriptor otherwise; a field, if and only if none met before has its name |
| MemberLaws.LookedUpExactly | src/index/view.rs:877-916 | looking a name up selects exactly the collected methods of that name, and the collected field of that name |
| MemberLaws.ProjectedEach | src/index/view.rs:192-216 | one projected class for every class met, its own but for hidden members |
| ViewMembers.ShadowKeySurvives | src/index/view.rs:735-747 | materialising a stub returns a method of the shadow key read off the stub if and only if the descriptor is sliceable and the stub has a generic signature or a descriptor of the printed shape |
| ViewMembers.MethodRefsAgree | src/index/view.rs:689-766 | materialising every method reference gives exactly the eagerly collected methods of that name, in order, over mixed layers whose classes repeat no name and descriptor (section 4.6 of the JVM Specification) |
| MemberLaws.MethodRefsExactly | src/index/view.rs:689-766 | the references handed out are those of the kept declarations of that name, kept by the same rule on names and texts read off source methods and archive stubs, each with the declaration's own owner, descriptor, flags and slot |
| ViewMembers.FieldRefsAgree | src/index/view.rs:768-812 | materialising the field reference gives exactly the eagerly collected field, or both are none |
| MemberLaws.FieldRefExactly | src/index/view.rs:768-812 | the field reference is to the first class met that declares the field, its first slot there, with that field's own type, flags and owner; none only when no class met declares it |
| View.IndexView.constructor | src/index/view.rs:260-266 | a fresh view remembers nothing |
| View.IndexView.GetClassRef | src/index/view.rs:133-155 | cached or computed over the layers, the best reference |
| View.IndexView.MergeClassRefs | src/index/view.rs:79-101 | the position-map loop computes the merge of whatever the layers fetch |
| View.IndexView.MergeRef | src/index/view.rs:86-98 | one fetched reference, with the position map kept exact |
| View.IndexView.IterAllClasses | src/index/view.rs:1008-1013 | cached or computed, the merged listing resolved |
| View.IndexView.BuildNameTable | src/index/scope_snapshot.rs:104-133 | cached or computed, the union of the layers' names |
| View.IndexView.WalkHierarchy | src/index/view.rs:157-190 | the queue loop over cached lookups computes the references along the breadth-first walk |
| View.IndexView.HierarchyOrder | src/index/view.rs:157-190 | the same through its cache |
| View.IndexView.ProjectHierarchyClasses | src/index/view.rs:192-216 | the retain loops compute the projected classes |
| View.IndexView.Mro | src/index/view.rs:684-687 | the projected classes of the hierarchy |
| View.IndexView.CollectInheritedMembers | src/index/view.rs:626-682 | the first-of-its-key members along the hierarchy, archive members materialised from their stubs |
| View.IndexView.LookupMethods | src/index/view.rs:877-897 | cached or computed, the collected methods of that name |
| View.IndexView.LookupField | src/index/view.rs:899-916 | cached or computed, the collected field of that name |
| View.IndexView.LookupMethodRefs | src/index/view.rs:689-766 | cached or computed, the references along the walk filtered by the keys read off stubs and classes |
| View.IndexView.LookupFieldRef | src/index/view.rs:768-812 | cached or computed, the first class along the walk that declares the field |
| View.IndexView.MaterializeMethodRef | src/index/view.rs:304-319 | the stub's method, or the owner's first method with that name and descriptor |
| View.FindMethod | src/index/view.rs:314-318 | the first method with that name and descriptor |
| View.SelectNamed | src/index/view.rs:887-892 | the methods of that name, in order |
| View.HandOverlayMethods | src/index/view.rs:714-732 | the loop over an overlay class's methods extends the handed-out references and the seen keys |
| View.HandArtifactMethods | src/index/view.rs:734-758 | the loop over an archive class's stubs does the same with keys read off the stubs |
| ScopeLayers.VisibleExactly | src/index/module_index.rs:208-270 | visible are exactly the preferred root and the roots on a classpath the context sees, each once, the preferred one first whatever its classpath |
| ScopeLayers.VisibleInOrder | src/index/module_index.rs:239-262 | behind the preferred root the roots of the tests come before those of Main, each in the table's order |
| ScopeLayers.SourcesExactly | src/index/module_index.rs:264-270 | the buckets of the visible roots, or the module's own when there is none |
| ScopeLayers.UpdateIsVisible | src/index/module_index.rs:127-157 | the bucket an update goes to is visible to a context preferring its root if and only if the root is known or the context sees no source root |
| ScopeLayers.UnknownRootIsInvisible | src/index/module_index.rs:127-157 | a module with one Main root: an update under an unknown root lands in a bucket neither classpath sees |
| ScopeLayers.ScopeVisitsReachableOnce | src/index/workspace_index.rs:547-566 | the modules after the context's own are exactly the others it transitively depends on, each once, nearest first |
| ScopeLayers.UnreachedDependencies | src/index/workspace_index.rs:547-566 | new dependencies of a module change the modules of a context, or their order, only where the context reaches that module |
| ScopeLaws.ModulesByDiscovery | src/index/workspace_index.rs:547-566 | the context's module, then the declared dependencies module by module, each module where it is first met |
| ScopeLaws.ScopeContents | src/index/workspace_index.rs:533-570 | a scope is the visible sources and the entries of the requested classpath of its own module, the Main sources and Main entries of every other module of the order, and the JDK's artifact or else overlay, in this order |
| ScopeLaws.SetThenBuild | src/index/workspace_index.rs:533-570 | entries set for the tests of a module stand directly behind its sources in a test context |
| ScopeLayers.ModuleTable.EnsureModule | src/index/workspace_index.rs:95-104 | an unknown module comes into being empty, every other module is untouched |
| ScopeLayers.ModuleTable.SetDeps | src/index/module_graph.rs:18-21 | the module's dependencies are replaced, and every context that does not reach the module keeps its modules and their order |
| ScopeLayers.ModuleTable.SetClasspath | src/index/module_index.rs:174-184 | one classpath of one module is replaced, nothing else |
| ScopeLayers.ModuleTable.VisibleSourceLayers | src/index/module_index.rs:208-270 | the loops with their seen set compute the visible source buckets |
| ScopeLayers.ModuleTable.BuildScopeLayers | src/index/workspace_index.rs:533-570 | terminates on every graph with the module's own layers, then the Main layers of each other reachable module, then the JDK |
| ScopeLayers.JdkLayer | src/index/workspace_index.rs:623-630 | the JDK artifact if there is one, else the overlay if there is one, else no layer |
| ScopeCache.ReadersSeeEarlierBumps | src/index/workspace_index.rs:381-401 | in every interleaving the snapshot a reader returns, and its lazily built name table, is complete and shows every mutation whose bump came before that reader's version read |
| ScopeCache.InvHolds | src/index/workspace_index.rs:84-93 | every cached snapshot covers the version it is tagged with, in every reachable state |
| ScopeCache.StaleIsNotShared | src/index/workspace_index.rs:381-401 | a reader that sees another version at its second check does not share its snapshot, and only a snapshot of the version asked for is taken from the cache |
| IndexHandle.WritesSerialise | src/index/handle.rs:49-83 | however writers and readers interleave, memory is what the committed operations leave one after the other |
| IndexHandle.SeriallyExactly | src/index/handle.rs:49-83 | what each operation does by itself: an update records in one index, the others publish; a new model leaves the index |
| IndexHandle.SnapshotsAreConsistent | src/index/handle.rs:36-39 | every pair a reader loads is the one published by the operations committed before the load, and loads never go back |
| ReindexGuard.NoUndetectedOverlap | src/fs_watcher.rs:271-313 | in every run, with no reindex announced, unpublished and undropped at the first serial read and equal serials, no reindex read the disk before the apply ended and published after it began |
| ReindexGuard.SlipsExactlyWhenLooming | src/fs_watcher.rs:271-313 | after any run and the first serial read, some continuation lets the apply slip past an overlapping reindex if and only if a reindex was announced, unpublished and undropped at that read |
| ReindexGuard.IdleMeansQuiet | src/workspace.rs:262-314 | in every reachable state a counter of zero means no such reindex |
| ReindexGuard.CountedIsQuiet | src/workspace.rs:262-314 | a run with a nonzero counter and no such reindex |
| ReindexGuard.UpdatesAreRescanned | src/workspace.rs:262-314 | whichever reindex replaces an index such an apply updated has scanned the disk after the apply |
| ReindexGuard.IdleWaitIsNotEnough | src/fs_watcher.rs:282-283 | a run in which the wait saw zero, both reads agree, and a reindex overlaps all the same |
| ReindexGuard.LostExactlyWhen | src/fs_watcher.rs:298-309 | at any moment after the second wait, some continuation discards the rescan if and only if it has not ended, or a reindex has discarded it or scanned before its end and still can publish |
| ReindexGuard.NoticedAndLost | src/fs_watcher.rs:298-309 | a run in which an overlap is noticed and waited for, and the rescan is discarded all the same |
| ReindexGuard.InvHolds | src/workspace.rs:262-306 | the counter counts the reindexes in progress and the serial separates them from applies, in every reachable state |
| ReindexGuard.SerialCounts | src/workspace.rs:262-314 | the serial counts the beginnings and the ends of reindexes, published or not, the counter those in progress |
| ReindexGuard.EndsAreNoticed | src/workspace.rs:262-314 | a reindex announced or dropped between two reads of the serial makes them differ |
| ReindexGuard.WaitedForIdle | src/fs_watcher.rs:282-299 | no apply and no rescan begins before its wait has seen the counter at zero |
| ReloadLoop.ReachableLoopHeads | src/build_integration/reload.rs:117-290 | at every reachable loop head: dirty with a deadline, importing with one import in flight, debouncing when dirty with none; rounds are numbered without gaps and applied generations strictly increase |
| ReloadLoop.StatusTellsLastEffort | src/build_integration/reload.rs:148-286 | in every reachable state the status shows how the last debounce or import ended: failed or not, the tool in charge, and with no trigger pending the state it left behind |
| ReloadLoop.DeadlineExactly | src/build_integration/reload.rs:148-284 | a pending trigger waits exactly 900 ms from the last trigger or from the end of an import since |
| ReloadLoop.TriggerIsServed | src/build_integration/reload.rs:148-174 | every trigger is followed by a round of larger generation, started at least the debounce period after it, before the loop can rest |
| ReloadLoop.WorkRunsOut | src/build_integration/reload.rs:166-289 | once triggers stop, at most three more rounds and imports happen |
| ReloadLoop.NotStuck | src/build_integration/reload.rs:138-224 | a loop that is not quiescent can always go on once time has passed |
| ReloadLoop.Service.OnTrigger | src/build_integration/reload.rs:148-164 | the arm's edit of the locals and the status is the transition |
| ReloadLoop.Service.OnDebounceOver | src/build_integration/reload.rs:166-223 | likewise, with the not-dirty and the nothing-detected exits |
| ReloadLoop.Service.OnImportDone | src/build_integration/reload.rs:224-286 | likewise, for applied, failed to apply and failed imports |
| WatchSpec.UpsertIsStep | src/workspace.rs:1666-1768 | upserting a followed file makes the index hold exactly its unblocked classes |
| WatchSpec.UpsertSettlesExactly | src/workspace.rs:1666-1768 | upserting a file whose classes have distinct names and its own origin gets it in step if and only if it yields an unblocked class or the index held none of its classes, and always records its module descriptor |
| WatchSpec.StepKeeps | src/workspace.rs:1666-1796 | a step on one path leaves every other settled file settled and every open document's classes alone |
| WatchSpec.SettledUpsertUnchanged | src/workspace.rs:1749-1767 | upserting a file already in step reports no change and leaves its bucket as it is |
| WatchLaws.ApplyResyncs | src/workspace.rs:1087-1133 | after applying any change list every file it covers is in step, unmentioned files stay in step, and open documents keep their classes |
| WatchLaws.OrderDoesNotMatter | src/workspace.rs:1095-1108 | lists with the same changes, in any order and however often repeated, do exactly the same |
| WatchLaws.SummaryCounts | src/workspace.rs:1110-1132 | removals count the removed closed files whose classes were in the index, skips the open documents of either half, each path once however often it is listed |
| WatchLaws.UpsertOutcome | src/workspace.rs:1666-1768 | each outcome of an upsert by what a caller sees: applied if and only if the classes held for the file or its module descriptor changed, or a vanished file had classes |
| WatchLaws.AppliedExactly | src/workspace.rs:1110-1132 | applied counts the removals and exactly the upserts that change something, each at its own turn |
| WatchLaws.UpsertStoresRanges | src/workspace.rs:1749-1757 | an upsert that changes the classes stores exactly the file's own declaration ranges for them |
| WatchLaws.DiffResyncs | src/fs_watcher.rs:526-551 | from an index in step with the previous snapshot, applying the diff brings every followed file in step with the current one and leaves open documents untouched |
| WatchLaws.RescanGetsInStep | src/workspace.rs:1153-1182 | a rescan brings every followed file found in step, empties every other followed file under the roots, and leaves none of those tracked |
| WatchLaws.SkippedFileSettlesExactly | src/workspace.rs:1164-1182 | a followed file under the roots that the scan does not find, on disk or not, is untracked, and in step if and only if it would yield nothing |
| WatchLaws.SecondRescanIdle | src/workspace.rs:1153-1182 | rescanning again right away applies nothing |
| WatchLaws.ApplyKeepsTracking | src/workspace.rs:1785-1804 | every followed file with classes in the index stays tracked |
| ModuleRegistry.DescriptorAfterRun | src/workspace.rs:1753-1795 | after any run of applies, rescans and document analyses, a file's module descriptor on record is the last one declared, unless a later event let go of a query input retained at that moment |
| ModuleRegistry.VanishedFileKeepsDescriptor | src/workspace.rs:1753-1795 | upserting a followed file and removing it after it vanished leaves exactly its descriptor on record, untracked and without classes |
| SourceWatcher.Workspace.RemovePath | src/workspace.rs:1770-1796 | the in-place removal from the file's bucket and the tracked set is the value-level step |
| SourceWatcher.Workspace.RetainSalsaFile | src/workspace.rs:1186-1206 | the file's query input is retained, nothing else changes |
| SourceWatcher.Workspace.RemoveSalsaFile | src/workspace.rs:1419-1436 | a retained query input goes and takes the module descriptor with it; without one nothing changes |
| SourceWatcher.Workspace.RefreshModule | src/workspace.rs:1234-1252 | the descriptor of the file is replaced or dropped; true exactly when that changes anything |
| SourceWatcher.Workspace.UpsertPath | src/workspace.rs:1666-1768 | the in-place upsert with all its early exits, the module descriptor refresh included, is the value-level step; it reports Applied exactly when the classes change or the descriptor differs from the one on record once a retained query input is released |
| SourceWatcher.Workspace.ApplyFilesystemChanges | src/workspace.rs:1087-1133 | partition, sort, dedup, removals, upserts and all three counts of the summary are the value-level apply |
| SourceWatcher.Workspace.RescanWatchedRoots | src/workspace.rs:1153-1182 | removes exactly the tracked closed files under the roots that the scan did not find, on disk or not, and upserts exactly the files found |
| SourceWatcher.DiffSnapshots | src/fs_watcher.rs:526-551 | a removal for exactly the vanished paths, then an upsert for exactly the new ones and those with another fingerprint, each half sorted by path |
| ChainParser.ParseChainFromExpr | src/completion/parser.rs:3-105 | the one-pass loop with its offsets computes the step-by-step scan |
| ChainPrinter.ParseUndoesPrint | src/completion/parser.rs:3-128 | parsing a printed chain of identifiers, calls and indexes, with blanks and line breaks around its parts, gives back the same segments and argument texts, names trimmed and type-argument lists dropped |
| ChainPrinter.ExactArguments | src/completion/parser.rs:35-68 | trimmed, non-blank arguments come back as they are, with their number |
| ChainPrinter.ArgTextsExactly | src/completion/parser.rs:35-68 | every argument but a blank last one counts, trimmed |
| ChainPrinter.SegmentTells | src/completion/parser.rs:35-100 | a call's segment has its name, argument texts and their number, any other segment no number |
| ChainPrinter.UnclosedCallIsDropped | src/completion/parser.rs:97-104 | a call that is never closed is left out with everything in it |
| ChainPrinter.StrayClosers | src/completion/parser.rs:14-96 | outside calls a stray `)` disappears, a stray `>` or `]` is part of the name |
| ChainPrinter.TrimExactly | src/completion/parser.rs:36-105 | trimming takes exactly the blanks at both ends |
| ChainPrinter.SpacesExactly | src/completion/parser.rs:36-105 | blanks are the white space of the Unicode Character Database |
| Positions.LineColToOffset | src/language/rope_utils.rs:4-25 | the counting loop stops behind the fewest characters of the line that reach the column, and answers none beyond the last line |
| Positions.ReachingIsLeast | src/language/rope_utils.rs:4-25 | that number is the least whose UTF-16 units reach the column |
| Positions.ReachingBoundary | src/language/rope_utils.rs:4-25 | a boundary's column resolves to it, a column inside a surrogate pair to the boundary behind the pair |
| Positions.EncodedLengths | src/language/rope_utils.rs:19-22 | UTF-8 and UTF-16 lengths of a character (section 3.9 of the Unicode Standard) |
| Positions.OffsetInsideCharacter | src/language/rope_utils.rs:32-34 | an offset inside a character means that character |
| Positions.OffsetBehindText | src/language/rope_utils.rs:32-34 | an offset behind the text means its end |
| Positions.LineOfCharacter | src/language/rope_utils.rs:34-35 | a character belongs to the line it stands on, the start of a line not to the end of the one before |
| Positions.OffsetRoundTrip | src/language/rope_utils.rs:4-42 | byte offset to line and character and back is the identity on character boundaries |
| Positions.PositionsIncrease | src/language/rope_utils.rs:32-42 | later boundaries have lexicographically later positions |
| SemanticTokens.TokenCollector.PushToken | src/language.rs:475-522 | one node's line, UTF-16 column and length are appended relative to the last token |
| SemanticTokens.TokenCollector.Collect | src/language.rs:536-548 | the recursion pushes the classified nodes under a node in pre-order |
| SemanticTokens.TokenCollector.CollectRange | src/language.rs:560-585 | the pruned recursion pushes those of the pruned walk |
| SemanticTokens.WalkIsPreOrder | src/language.rs:536-548 | the walk visits every node below, at every depth, exactly once and in pre-order |
| SemanticTokens.PlaceIsPosition | src/language.rs:484-505 | a token's line and column are the editor position of its first character |
| SemanticTokens.LengthReachesEnd | src/language.rs:499-505 | on one line, column plus length is the column of the node's end |
| SemanticTokens.TokensDecode | src/language.rs:475-548 | for every properly nested tree decoding the deltas recovers every absolute line, column and length, so no saturating subtraction truncates |
| SemanticTokens.TokensTellKinds | src/language.rs:475-548 | the decoded tokens are the classified nodes of the walk in order, each with its own type and modifiers |
| SemanticTokens.RangeIsFiltered | src/language.rs:560-585 | the pruned walk visits exactly the nodes of the full walk that meet the byte range |
| SemanticTokens.RangeTokensDecode | src/language.rs:560-585 | the deltas of a range collection decode to the places of just those nodes |
| CandidateDedup.SameThingMeansSameKey | src/completion/post_processor.rs:71-98 | the duplicate test is equality of label, kind and descriptor, or detail and import |
| CandidateDedup.DuplicatesShareKey | src/completion/post_processor.rs:71-98 | duplicates have one label and one kind, methods, static methods and constructors one descriptor, classes one detail and import |
| TextOrder.LeExactly | src/workspace.rs:1104-1108 | texts compare by code point: a prefix first, else the first difference decides |
| CandidateDedup.IsDuplicate | src/completion/post_processor.rs:67-98 | looking back over the run of equal labels finds a duplicate if and only if one was kept anywhere |
| CandidateDedup.Dedup | src/completion/post_processor.rs:46-106 | no two survivors are duplicates; every candidate has a surviving duplicate with no later source, no import where it has none, and no lower score; nothing is invented; by label, and within a label no candidate before a better one, whatever the unstable sort did with ties |
| CandidateDedup.Process | src/completion/post_processor.rs:6-36 | whatever the score after the additions, rounding included, the same of the rescored candidates, by descending score and then label |

## Left out

- Bucket.BucketIndex.CollectInheritedMembers: operations of a bucket are atomic here; `HierarchyCache` takes them apart. Which entry the LRU cache evicts is arbitrary.
- Bucket.BucketIndex.UpdateSource: blocked-class filtering, comparison and replacement happen in one atomic step here, in three lock acquisitions in the code; updates of a published index are serialised by the handle's write lock (`src/index/handle.rs:49-53`).
- ArtifactReader.ArtifactScopeReader.GetClass: describes calls that return; on a stub whose descriptor cannot be sliced the code panics, which `ArchiveStubs` states. The same holds of buckets filled by `AddArchiveClasses` and of the members a view materialises.
- ViewMembers.FieldRefsAgree: the eager side materialises whole classes and so panics on a stub whose method descriptor cannot be sliced, where the field reference does not.
- Positions.OffsetRoundTrip: for texts below 4 GiB, because lines and columns are cast to 32 bits; how a text splits into lines is taken as given.
- SemanticTokens.TokensDecode: likewise below 4 GiB; classification of nodes and cancellation are inputs.
- ScopeLayers.ModuleTable.VisibleSourceLayers: a hash map's iteration order is an arbitrary list of roots with distinct ids; `set_source_roots` itself is not modelled.
- SourceWatcher.Workspace.ApplyFilesystemChanges: the disk does not change during an apply, every file can be read, paths and URIs correspond one to one, and paths are sorted as texts rather than by component.
- SourceWatcher.Workspace.UpsertPath: the classes and the module descriptor of a file are functions of path and content; the dependence of extraction on the view and the memoised queries behind it are not part of this model.
- ModuleRegistry.DescriptorAfterRun: a full reindex, which replaces the whole registry and lets go of the inputs of closed documents, is not an event of these runs; the registry's inverse index by module name is left out.
- View.IndexView.MergeClassRefs: the caches of the queries by simple name, package, owner and annotation flag are not fields of this class; what those queries answer is in `ViewQueries`.
- ChainParser.ParseChainFromExpr: depth counters are unbounded.
- CandidateDedup.Process: scores are finite and ordered as numbers; infinities and NaN, and the fuzzy scorer, are not part of this model.
- Descriptors.ReturnTypeRoundTrip: for types whose class names contain neither `<` nor `;`, since those characters structure the parser's input.
- ReloadLoop.TriggerIsServed: fairness of the scheduler is not modelled; `NotStuck` says what it could still run.
- ScopeCache.ReadersSeeEarlierBumps: what a build reads is an arbitrary function of what it has read; reads of one cell are atomic.
- String interning, vector capacity, request cancellation, parallel loops and metrics: no effect on the stated meanings.
- `find_declaring_method_owner`, member-type lookup, scoped inner classes, navigation targets, import resolution and fuzzy search over a view.
- Event mapping and batching of the file watcher, watched-path synchronisation, polling.
- Tree-sitter parsing, class-file decoding, archive storage, build-tool importers, decompilers, the editor connection.
