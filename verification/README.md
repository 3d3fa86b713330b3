# Verified models of the HACKT compiler front end

HACKT compiles and simulates asynchronous circuits.  This project models four areas of it
and two smaller pieces, and proves what they promise.

**Process numbering and its cache** (`Footprints`, `Numbering`, `Frames`, `TreeCache`,
`ContextCache`, `ContextQueries`, `Listings`, `EntryDumper`, `ListingMeaning`).  A footprint
is the allocated shape of a process type.  Everything it owns, directly or through private
subprocesses, has a global id per meta-type; a process numbers its own private entries first
and the blocks of its private subprocesses follow.  `Footprints` builds and searches the
sorted map of these blocks,
`Numbering` proves that ids and places in the hierarchy correspond one to one, `Frames`
proves that local-to-global frames built step by step agree with resolving an id from
scratch.  `TreeCache` and `ContextCache` hold the memoised frames in heap nodes with a
two-entry cache in front; `ContextQueries` runs arbitrary interleavings of queries, descents
and halvings against them.  `EntryDumper` is the traversal that goes the other way, from the
hierarchy to ids with running offsets; `Listings` says which lines it prints and
`ListingMeaning` what they mean and when they agree with the cache.

The footprint at the top of a module has its port counts cleared after its maps were built.
A footprint therefore records how many processes its maps leave out, and the results about
the cache are about any footprint that a module can have there, its maps complete or not;
the results about the traversal are about any footprint, ports or not.

**Index and reference expansion** (`RangeExpansion`, `ReferenceExpansion`).  Constant ranges
are expanded into index tuples and references such as `a[0..1].b[2..4]` into a flat list.

**Expression lowering** (`PrsLowering`, `RteLowering`, `MetaExpr`, `MetaTyping`, `MetaLaws`).
Production-rule guards and atomic run-time expressions are flattened in place into n-ary
nodes; meta-language expressions are typed and folded.  `MetaTyping` says exactly which of
them check, and `MetaLaws` what their arithmetic is.

**Scope trees** (`ScopeTrees`, `ScopeMeaning`, `ScopeErrors`, `UnrollLaws`, `ScopeBuilder`).
One walk over nested loops and conditionals builds three trees: instances, production rules
and spec directives.  `ScopeTrees` says what the trees are and when they have everything that
is written, `ScopeMeaning` when they unroll to the right projections of the source,
`ScopeErrors` which sources are refused, and `UnrollLaws` what loops and conditionals mean.
`ScopeBuilder` is the walk itself, with its parse context, over heap nodes that are pushed
before they are filled and popped if they stay empty.

**Smaller pieces** (`ChpBody`, `BitFields`): the partition of a CHP body after its forever
loops, and bit-field extraction.  `Options`, `Sequences` and `LoopBounds` are shared helpers.

Where the source changes things in place the model does too: contexts, cache nodes, the
traversal, n-ary nodes and the parse context are classes, and their methods are proved
against functions on values about which the main theorems are stated.

## What does not hold

The code is modelled as it is; where it falls short of its promise, the exact condition is
proved.

- A module made from a type with process ports has its ports cleared after its maps were
  built, so the maps leave those processes out.  Every process has an id exactly if they have
  no processes of their own (`Numbering.ModuleHasIdsExactly`, `Numbering.StaleMapExample`);
  cache and traversal agree on an offset exactly if those before it own nothing
  (`ListingMeaning.CacheOffsetExactly`, `ListingMeaning.StaleOffsetExample`); the cache
  decodes the process id on a line of the listing to the process of the line exactly if that
  is local to the top, or none left out before it or around it has processes of its own
  (`ListingMeaning.WalkIdDecodesExactly`, `ListingMeaning.LineDecodes`,
  `ListingMeaning.StaleIdExample`); the same goes for the ids that frames show for processes,
  by `Frames.FrameNames`; and everything
  is listed exactly if the maps count anything, or there is nothing to count
  (`ListingMeaning.ListingComplete`).  Not
  clearing them would be worse (`Numbering.DecodeWorksIffNoTopPorts`).
- The listing of a type for a meta-type of which it has ports repeats ids, exactly if its
  private processes own anything of that meta-type (`ListingMeaning.IdsDistinctExactly`,
  `ListingMeaning.TwiceListedExample`).  The ids of the type's own private entries are wrong
  there, and so are the offsets shown for its private processes exactly if the processes that
  are ports own something (`ListingMeaning.TopLineExactly`).
- A step through a port keeps the parent's offset.  The frame shows the right id for a
  private entry of the process behind the port exactly if both processes have the same offset
  (`Frames.PortPrivatesExactly`, `Frames.PortExample`), that is, if nothing is owned from the
  one up to the other (`Frames.PortPrivatesRight`), so never if both have private entries
  (`Frames.PortPrivatesWrong`).
- Negating an internal node twice is the same as negating it once
  (`PrsLowering.ValueKeptExactly`, `PrsLowering.DoubleNegationExample`), and an AND that is
  absorbed as a right operand loses its precharges (`PrsLowering.PrechargesKeptExactly`,
  `PrsLowering.LostPrechargeExample`).  AND and OR loops are classes apart from
  the n-ary nodes, so they are never absorbed and need no side condition.
- A run-time AND absorbs the operands of an OR on its right, and the reverse
  (`RteLowering.ValueKeptExactly`, `RteLowering.ClashExample`).
- A constant range whose bounds are out of order expands to its lower bound
  (`ReferenceExpansion.ExpansionFaithful`, `ReferenceExpansion.DisorderExample`).
- `!` of an int that is not constant is evaluated as `~` (`MetaExpr.PrefixPreservesExactly`,
  `MetaExpr.OpenBangExactly`, `MetaExpr.OpenBangExample`), and real division takes every
  negative divisor for zero (`MetaExpr.QuotientResolvesExactly`).
- A loop among production rules whose bounds are out of order or whose variable is already in
  scope is reported but skipped, and an error inside a clause of a conditional among rules is
  dropped; the source is still accepted.  The tree of rules has everything that is written
  exactly if neither happens, a skipped loop with nothing in it aside
  (`ScopeTrees.RulesTreeExactly`).  It unrolls to what the source says in exactly the worlds
  in which nothing that comes up is lost (`ScopeMeaning.UnrollsToProjection`,
  `ScopeMeaning.SkippedLoopExample`, `ScopeMeaning.ErrorSwallowed`); bounds out of order lose
  nothing there (`ScopeMeaning.OutOfOrderMeansNothing`).  Errors can leave loops and
  subcircuits behind empty (`ScopeMeaning.BuildCompact`).
- `extract_bits` is undefined above bit 30, because the mask is computed in 32 bits, and for
  negative positions, which are not checked
  (`BitFields.ExtractBitsMeaning`).

## Model

| member | source | states |
|---|---|---|
| `Footprints.ConstructPrivateEntryMap` | src/Object/def/footprint.cc:1055-1093 | The map built by patching the last entry and appending the next one is exactly the list of non-empty blocks of the private processes, in order, followed by a past-the-end entry. |
| `Footprints.UpperBound` | src/Object/inst/instance_pool.tcc:63-68 | The search position of an entry number: everything before it starts at or below the number, it itself starts above. |
| `Footprints.LowerBound` | src/Object/inst/instance_pool.tcc:90-95 | The search position of a process: everything before it names an earlier process, it itself does not. |
| `Footprints.BlocksContiguous` | src/Object/def/footprint.cc:164-184 | The blocks start at zero, each ends where the next begins, none is empty, and each starts at the number of entries owned by earlier processes in the map. |
| `Footprints.BlocksCumulative` | src/Object/inst/instance_pool.tcc:97-112 | For every process in the map, empty ones included, the first block at or after it starts at the number of entries owned by the mapped processes before it. |
| `Footprints.LocatePrivateEntryCorrect` | src/Object/inst/instance_pool.tcc:71-86 | Looking up an entry number finds a private process in bounds whose half-open block contains the number. |
| `Footprints.LocateCumulativeEntryCorrect` | src/Object/inst/instance_pool.tcc:97-112 | Looking up any process, private or not and in the map or not, finds the number of mapped entries before it, whether or not it owns any. |
| `Footprints.ClearingKeepsMaps` | src/Object/def/footprint.cc:1117-1127 | Clearing the port counts leaves the blocks and their sizes as they were built: what was reachable through ports stays out. |
| `Numbering.OwnerIsOwned` | src/Object/def/footprint.tcc:51-76 | The owner found for a global index is a place in the hierarchy reached through the maps, and encoding that place gives the index back. |
| `Numbering.OwnerOfGlobalIndex` | src/Object/def/footprint.tcc:51-76 | Every place reached through the maps has a global index below the total, and looking up its owner gives the place back. |
| `Numbering.OffsetInRange` | src/Object/global_entry_dumper.cc:84-110 | The block of any process in the maps, at any depth, lies inside the total of the whole. |
| `Numbering.BlocksDisjoint` | src/Object/global_entry_dumper.cc:84-110 | Of two processes in the map the earlier one's whole block ends before the later one's begins. |
| `Numbering.PrecedesOffset` | src/Object/global_entry_dumper.cc:84-110 | Of two processes at any depth the one listed first has its private entries numbered before those of the other. |
| `Numbering.PlacesAscend` | src/Object/def/footprint.tcc:51-76 | Places are numbered in the order in which processes are listed, and in order within a process. |
| `Numbering.SameOffsetExactly` | src/Object/global_entry_dumper.cc:84-110 | A process has the same offset as another one that owns something, if and only if it is listed before it and nothing is owned from the one up to the other. |
| `Numbering.IndexSpaceConserved` | src/Object/global_entry_dumper.cc:84-110 | For each meta-type, an index lies in the private range of some process if and only if it is below the total, and then of one process only: the ranges are disjoint and cover everything, at every depth. For the top this takes maps that leave out nothing; every other footprint has such maps. |
| `Numbering.IndexSpaceConservedExactly` | src/Object/def/footprint.cc:1117-1127 | All indices are conserved in this way if and only if the processes left out of the top's maps own nothing of the meta-type. |
| `Numbering.OwnedIsMapped` | src/Object/def/footprint.cc:1055-1093 | Where nothing is left out, every place in the hierarchy is reached through the maps. |
| `Numbering.DecodeFromIsOwner` | src/Object/global_context_cache.cc:205-226 | What the decoding loop walks to is the owner of the id in the process numbering. |
| `Numbering.ProcessPathIsOwned` | src/Object/global_context_cache.cc:203-226 | A path leads to a private process exactly if its last step is an owned entry of the process before it. |
| `Numbering.EncodeDecode` | src/Object/global_context_cache.cc:203-226 | For the top of a module, whatever its maps were built for, decoding any id in range gives a path of private processes that encodes back to the id. |
| `Numbering.DecodeEncode` | src/Object/global_context_cache.cc:203-226 | For the top of a module, every private process that is local to it or reached through its maps has an id in range that decodes back to its path. |
| `Numbering.HasIdExactly` | src/Object/global_context_cache.cc:203-226 | No other process has an id. |
| `Numbering.AllHaveIdsExactly` | src/Object/global_context_cache.cc:203-226 | Every private process has an id that decodes to it if and only if the processes left out of the maps have no processes of their own. |
| `Numbering.ModuleHasIdsExactly` | src/Object/module.cc:368-372 | A module gets its maps first and has its port counts cleared afterwards: every private process then has an id that decodes to it if and only if the processes that were ports have no processes of their own. |
| `Numbering.StaleMapExample` | src/Object/module.cc:368-372 | The module made from a type with one process port that owns a process: a process in it has no id. |
| `Numbering.OffsetsAgreeExactly` | src/Object/inst/instance_pool.tcc:97-112 | The offset that the maps give a process is the one that counts every private process before it, if and only if those left out before it own nothing. |
| `Numbering.CompleteOffsetsAgree` | src/Object/inst/instance_pool.tcc:97-112 | Where nothing is left out, the two offsets agree at every process. |
| `Numbering.DecodeWorksIffNoTopPorts` | src/Object/global_context_cache.cc:208-225 | Were the counts not cleared, every id in range would decode to a private process if and only if there are no process ports: the top counts ports as its own ids and adds them again at the end. This is why modules clear them. |
| `Frames.TranslateActuals` | src/Object/global_entry.cc:60-72 | Each actual of a port map is replaced by the global id that the enclosing frame gives it. |
| `Frames.ConstructGlobalContext` | src/Object/global_entry.cc:102-124 | Port ids are copied, and the remaining entries are numbered consecutively after the offset. |
| `Frames.ProcessContext.ConstructTopGlobalContext` | src/Object/global_entry.cc:81-92 | The top context numbers all its local entries from one and has offset zero. |
| `Frames.ProcessContext.DescendFrame` | src/Object/global_entry.cc:844-876 | Overwrites the context, even its own parent, with the frame and offset of a private child. |
| `Frames.ProcessContext.DescendPort` | src/Object/global_entry.cc:886-912 | Overwrites the context with that of a child reached through a port: frame translated, offset still that of the parent. |
| `Frames.ProcessContext.ConstructFrame` | src/Object/global_entry.cc:866-870 | The frame of a child is its translated port map extended by numbers after the given offset, for every meta-type. |
| `Frames.OffsetSplit` | src/Object/global_entry_dumper.cc:84-110 | Going one process further adds the entries of the enclosing process itself and of the processes before the new one. |
| `Frames.OffsetsCompose` | src/Object/global_entry.cc:855-861 | Along private processes the offset accumulated step by step is the number of entries that precede the process. |
| `Frames.OffsetsWalked` | src/Object/global_entry.cc:844-912 | Along any path, ports included, the running offset is what the private steps add up: the entries of the enclosing process and of those before the one stepped to; a port adds nothing. |
| `Frames.FramesComposeExactly` | src/Object/global_entry.cc:844-912 | At every depth and along every path, through ports included, the frame built step by step shows for a local id the id that climbing the path from scratch gives it, if and only if what the walk adds up on the way to where the climb ends is what precedes the process that is there. |
| `Frames.FramesCompose` | src/Object/global_entry.cc:844-876 | So along private processes every id in every frame is right. |
| `Frames.FrameNames` | src/Object/global_context_cache.cc:203-226 | Decoding the process id that a frame shows for any process, port or not, leads to the private process that it is, if and only if that one is local to the top or reached through its maps. |
| `Frames.PrivateEntryResolves` | src/Object/global_entry.cc:102-124 | The k-th private entry of a private process is numbered k after the process's offset. |
| `Frames.PortPrivatesExactly` | src/Object/global_entry.cc:886-912 | The k-th private entry of the process behind a port has the id k past that process's offset; after the step through the port the frame shows the id k past the offset of the enclosing process, which is right if and only if the two offsets are equal. |
| `Frames.PortPrivatesRight` | src/Object/global_entry.cc:886-912 | In terms of what is owned: the id shown is right if and only if the process behind the port is numbered after the enclosing one, and from the enclosing one up to it nothing of the meta-type is owned. |
| `Frames.PortPrivatesWrong` | src/Object/global_entry.cc:886-912 | It is wrong wherever both the enclosing process and the one behind the port have private entries, with everything in the maps. |
| `Frames.PortExample` | src/Object/global_entry.cc:886-912 | A bool whose id is 1 is shown as 2, the id of the enclosing process's own bool. |
| `TreeCache.FrameCache.constructor` | src/util/tree_cache.tcc:34-39 | A new tree is well linked and consists of its root. |
| `TreeCache.FrameCache.InsertFind` | src/util/tree_cache.tcc:133-150 | Returns the child with the given key: the existing one, leaving the tree as it was, or a fresh node that is the only addition. |
| `TreeCache.FrameCache.Halve` | src/util/tree_cache.tcc:163-197 | The tree stays well linked, the node itself stays, and only nodes strictly below it may disappear. |
| `TreeCache.FrameCache.Evict` | src/util/tree_cache.tcc:173-182 | Erasing a child removes exactly the nodes at or below it. |
| `ContextCache.AskedStep` | src/Object/global_context_cache.cc:108-133 | How asking for an id changes the latest one and the runner-up of the history. |
| `ContextCache.LatestOtherMeaning` | src/Object/global_context_cache.cc:108-133 | The runner-up is the last id of the history before the trailing run of the latest id, if there is one. |
| `ContextCache.HotHit` | src/Object/global_context_cache.cc:109-116 | Naming the slot in which the id was found keeps the slots exactly the two most recently used ids. |
| `ContextCache.HotMiss` | src/Object/global_context_cache.cc:117-131 | Overwriting the other slot with the new id keeps the slots exactly the two most recently used ids, and each still points to a node in the tree for its id. |
| `ContextCache.GlobalContextCache.constructor` | src/Object/global_context_cache.cc:31-45 | A new cache holds the top context in its root and has two empty slots. |
| `ContextCache.GlobalContextCache.LookupLocalFootprintFrameCache` | src/Object/global_context_cache.cc:151-181 | Returns the node one local id further; every node in the tree, old or new, holds the context that the uncached walk along its path builds. |
| `ContextCache.GlobalContextCache.LookupGlobalFootprintFrameCache` | src/Object/global_context_cache.cc:194-227 | Returns the node at the path that the global id decodes to, keeping every node's context right. |
| `ContextCache.GlobalContextCache.LookupOwner` | src/Object/global_context_cache.cc:205-221 | The decoding loop ends at a process and a local id within its bounds that together are the decoded path. |
| `ContextCache.GlobalContextCache.GetGlobalContext` | src/Object/global_context_cache.cc:100-142 | The context returned for an id, from a hot slot or the tree, is the one that the uncached walk from the top builds; the hot slots stay exactly the two latest ids. |
| `ContextCache.GlobalContextCache.ReplaceOther` | src/Object/global_context_cache.cc:117-131 | A miss in both slots overwrites the one used less recently and answers from the tree. |
| `ContextCache.GlobalContextCache.HalveCache` | src/Object/global_context_cache.cc:71-78 | Halving empties the slots, starts the history over, and leaves a tree in which every remaining context is right. |
| `ContextCache.GlobalContextCache.ContextHeld` | src/Object/global_context_cache.cc:144-181 | In a valid cache every node in the tree holds the context of its path. |
| `ContextCache.DescendStep` | src/Object/global_context_cache.cc:168-173 | What a new node computes from its parent is the next step of the uncached walk, for private and port children. |
| `ContextCache.WalkStart` | src/Object/global_context_cache.cc:203-208 | Without top ports the loop starts with the whole id still to decode. |
| `ContextCache.WalkStep` | src/Object/global_context_cache.cc:210-221 | One round: the process found is in bounds, what remains of the id is positive, strictly smaller and within the subprocess's total, and the current footprint has a local process. |
| `ContextCache.WalkEnd` | src/Object/global_context_cache.cc:222-226 | When the loop ends, the remaining id names a local process in bounds that completes the decoded path. |
| `ContextQueries.GlobalProcessContextRef.Descend` | src/Object/global_context_cache.hh:132-138 | A reference moves one local process further inside the cache and records the local id; the cache stays valid. |
| `ContextQueries.NextArrives` | src/Object/global_context_cache.cc:100-142 | Where a query leads, told by the numbering: to a private process local to the top or reached through its maps whose id is the one asked for, to the top for the id 0, one local process further down, or back to the top. |
| `ContextQueries.ArrivesOnce` | src/Object/global_context_cache.cc:100-142 | No other process answers to that description. |
| `ContextQueries.Step` | src/Object/global_context_cache.cc:69-230 | One query of any kind keeps the whole cache valid, moves the reference to the process that answers to that description, and records the id asked for. |
| `ContextQueries.Run` | src/Object/global_context_cache.cc:69-230 | Over any interleaving of global queries, local descents and halvings, every answer is the context that an uncached walk from the top builds for the process that the query leads to: the one that has the id asked for, or one step down from where the query before it ended. |
| `Listings.WalkEntry` | src/Object/global_entry.cc:102-124 | In every frame of the traversal, the private entries follow the running offset. |
| `Listings.LineOfPlace` | src/Object/global_entry_context.tcc:31-49 | The line printed for a private entry is the line of the owner found by decoding its running number. |
| `Listings.SubtreeParts` | src/Object/global_entry_dumper.cc:144-158 | A process that owns nothing of the meta-type, and is not a top with ports of it, contributes no line, so passing it over loses nothing. |
| `EntryDumper.GlobalAllocationDumper.LookupGlobalId` | src/Object/global_entry_context.tcc:31-49 | Below the top the id looked up is the one in the frame of the process; at the top it is the local id itself. |
| `EntryDumper.GlobalAllocationDumper.VisitInstance` | src/Object/global_entry_dumper.cc:54-110 | Prints the line of the place, and for a process leaves the running offset past everything in it. |
| `EntryDumper.GlobalAllocationDumper.VisitLocal` | src/Object/global_entry_context.cc:546-576 | Prints exactly the lines of the private entries of the process, for the top those of the ports as well, in order, and restores frame and offset. |
| `EntryDumper.GlobalAllocationDumper.ListTop` | src/Object/global_entry_context.cc:571-576 | For the top the loop starts with the ports. |
| `EntryDumper.GlobalAllocationDumper.ListPrivates` | src/Object/global_entry_context.cc:571-576 | Elsewhere it starts after the ports, and the lines are consecutive in the numbering. |
| `EntryDumper.GlobalAllocationDumper.VisitNested` | src/Object/global_entry_dumper.cc:41-52 | What is nested is listed under process ids counted from the offset, and then the enclosing count goes on with the next id. |
| `EntryDumper.GlobalAllocationDumper.VisitRecursive` | src/Object/global_entry_context.cc:651-693 | Prints exactly the lines of everything in the private subprocesses and restores frame and offset. |
| `EntryDumper.GlobalAllocationDumper.VisitChild` | src/Object/global_entry_context.cc:676-691 | A subprocess is entered with its own frame, offset and id, and left with the offset of the next one. |
| `EntryDumper.GlobalAllocationDumper.Visit` | src/Object/global_entry_dumper.cc:144-158 | Prints the lines of the whole subtree and advances the process id by one, passed over or not, for a top with ports too. |
| `EntryDumper.DumpAllocation` | src/Object/def/footprint.cc:1916-1935 | For the footprint of any type or module, ports or not: the listing is the lines of the top's own entries, ports included, and then, for every number after the top's private entries up to the total, in order, the line of the owner found by decoding that number. |
| `ListingMeaning.LineMeaning` | src/Object/global_entry_dumper.cc:55-110 | Below the top, the frame of the process on the line maps the line's local id to the line's global id, and a process is shown with its real offset. |
| `ListingMeaning.ProcessLineMeaning` | src/Object/global_entry_dumper.cc:84-110 | The line of a private process shows, for every meta-type: the first entries of its frame, as many as it has ports; where its own entries start; where they end, as many further on as it has private entries; and where everything in it ends. |
| `ListingMeaning.NestedShown` | src/Object/global_entry_dumper.cc:84-110 | The end of its own entries is where the entries of its first private process start. |
| `ListingMeaning.EndShown` | src/Object/global_entry_dumper.cc:84-110 | The end of everything in it is where the entries of the process listed next start. |
| `ListingMeaning.TopLine` | src/Object/global_entry_context.tcc:31-49 | A line of the top, for a port or not, has the local id for the global one, the top as its process, and ranges only if it is for a process. |
| `ListingMeaning.TopProcessLine` | src/Object/global_entry_dumper.cc:84-110 | What lines of the top show of its processes, ports included: the first starts after the private entries of the top, each further one where the one before it ends; its own entries and everything in it take up their counts; and what is passed in through a port of the top is shown as 0. |
| `ListingMeaning.TopLineExactly` | src/Object/global_entry_context.tcc:35-38 | A line for a private entry of the top has the entry's real id if and only if the top has no ports of that meta-type, and a private process there is shown with its real offset if and only if the port processes own nothing of the meta-type. |
| `ListingMeaning.ListedIds` | src/Object/global_entry_dumper.cc:84-110 | The ids listed: 1, 2, ... for the top's own entries, then from the number of its private entries on. |
| `ListingMeaning.IdsDistinctExactly` | src/main/objdump.cc:110-117 | No id is listed twice, if and only if the type listed has no ports of the meta-type or its private processes own nothing of it. |
| `ListingMeaning.TwiceListedExample` | src/main/objdump.cc:110-117 | A type with a bool port, a private bool and a process with a private bool: id 2 is listed twice. |
| `ListingMeaning.ListingComplete` | src/Object/global_entry_dumper.cc:144-158 | Without ports the ids are 1, 2, ... in order, and all private entries of the hierarchy are listed if and only if the total that the maps give is not zero, or there are none. |
| `ListingMeaning.ListedExactly` | src/Object/global_entry_dumper.cc:144-158 | Anything is listed if and only if the top has ports of the meta-type or the total that its maps give is not zero. |
| `ListingMeaning.CacheOffsetExactly` | src/Object/module.cc:368-372 | For a module, per meta-type: the cache gives a process the offset that the traversal gives it, if and only if the processes before it that the maps leave out own nothing of the meta-type. |
| `ListingMeaning.StaleOffsetExample` | src/Object/module.cc:368-372 | A module in which cache and traversal give the second process different offsets. |
| `ListingMeaning.WalkIdDecodesExactly` | src/Object/global_context_cache.cc:203-226 | The id that the traversal gives a process of a module is decoded by the cache to that process, if and only if it is local to the top, or none of the processes left out of the maps, before it or around it, has processes of its own. |
| `ListingMeaning.LineDecodes` | src/Object/global_entry_dumper.cc:55-75 | For any line below the top of any module: the process id on it decodes to the process of the line exactly under that condition, and the cached context of that process gives the line's global id if and only if none of the processes left out of the maps before it owns anything of the meta-type. |
| `ListingMeaning.StaleIdExample` | src/Object/module.cc:368-372 | A module in which the traversal gives a process the id 3, which the cache decodes to another one. |
| `PrsLowering.MergeLeaves` | src/AST/expr.cc:2805-2860 | Joining two operands keeps their references in order. |
| `PrsLowering.MergeValue` | src/AST/expr.cc:2805-2860 | A joined node has the value of the operator applied to its two operands. |
| `PrsLowering.LeavesKept` | src/AST/expr.cc:2780-2872 | Lowering keeps all references, left to right. |
| `PrsLowering.LowerIsFlat` | src/AST/expr.cc:2780-2872 | No AND is directly under an AND nor an OR under an OR (loops excepted), n-ary nodes have two operands at least, and an AND has one precharge place between any two. |
| `PrsLowering.LowerChain` | src/AST/expr.cc:1621-1648 | A chain of negations on an internal node becomes one literal whose flag says only whether there was any. |
| `PrsLowering.ValueKept` | src/AST/expr.cc:2780-2872 | Lowering keeps the Boolean value in every world and under all loop variables, if no internal node carries an even number of negations. |
| `PrsLowering.ValueCollapsed` | src/AST/expr.cc:1621-1648 | For any guard, in every world and under all loop variables: the lowered guard has the value of the source in which every chain of negations on an internal node is cut down to one. |
| `PrsLowering.ValueKeptExactly` | src/AST/expr.cc:1621-1648 | For guards that are not refused and mention each node once, the value is kept in every world if and only if no internal node carries an even number of negations. |
| `PrsLowering.DoubleNegationExample` | src/AST/expr.cc:1621-1648 | A guard that check_prs_expr does not refuse: ~(~@n) becomes ~@n. |
| `PrsLowering.PrechargesKeptExactly` | src/AST/expr.cc:2812-2830 | The precharges of an AND stay between the operands they were written for if and only if every AND absorbed as a right operand, and the operator absorbing it, has none. |
| `PrsLowering.LostPrechargeExample` | src/AST/expr.cc:2812-2830 | The AND of two ANDs, the right one with a precharge between its operands, comes out with none. |
| `PrsLowering.PrsExpr.NegateNode` | src/Object/lang/bool_literal.hh:112-113 | Negating an internal node sets its flag. |
| `PrsLowering.PrsExpr.PushBack` | src/Object/lang/PRS.cc:1549-1552 | Appends an operand and the precharge before it. |
| `PrsLowering.PrsExpr.PushBackPlain` | src/Object/lang/PRS.cc:1556-1562 | Appends an operand with an empty precharge, or with none if it is the first. |
| `PrsLowering.PrsExpr.PushFront` | src/Object/lang/PRS.cc:1512-1526 | Puts an operand, and the precharge after it, in front. |
| `PrsLowering.PrsExpr.Absorb` | src/AST/expr.cc:2817-2820 | Appends the operands of another node one by one, with empty precharges. |
| `PrsLowering.Combine` | src/AST/expr.cc:2805-2860 | Reusing whichever operand is already a node of the operator, in place, gives the joined node. |
| `PrsLowering.NotRefusedExactly` | src/AST/PRS.cc:996-1035 | A guard is not refused if and only if every loop in it has a name that is neither in scope nor that of a loop around it, and bounds that are in order if they are constant. |
| `PrsLowering.LoopValue` | src/Object/lang/PRS.cc:1318-1375 | An AND or OR loop ranges over every index from the lower to the upper bound, both included. |
| `PrsLowering.LoopNodeValue` | src/Object/lang/PRS.cc:1318-1375 | So does the node it becomes. |
| `PrsLowering.JoinedValue` | src/AST/expr.cc:2780-2872 | References joined by AND are true if all of them are, joined by OR if one is; a negation is true if its operand is not. |
| `PrsLowering.CheckPrsExpr` | src/AST/expr.cc:2780-2872 | Building bottom up in place on fresh nodes gives the lowered guard; there is none exactly if some loop has constant bounds out of order, or the name of something in scope or of a loop around it. |
| `RteLowering.MergeValue` | src/AST/expr.cc:2898-2932 | A joined node has the value of the operator applied to its operands, unless the left operand absorbs a node of the other operator. |
| `RteLowering.ValueKept` | src/AST/expr.cc:2898-2932 | Lowering keeps the value in every world if no node is absorbed into one with the other operator. |
| `RteLowering.LowerIsFlat` | src/AST/expr.cc:2898-2932 | Without a wrong absorption no node is directly under one of the same operator, and every node has two operands at least. |
| `RteLowering.NotFlatExample` | src/AST/expr.cc:2913-2919 | With one an AND can end up under an AND. |
| `RteLowering.JoinedValue` | src/AST/expr.cc:2898-2932 | Bools joined by AND are true if all of them are, joined by OR if one is; a negation is true if its operand is not. |
| `RteLowering.UniformValue` | src/AST/expr.cc:2898-2932 | Where all operands agree the value is kept whatever is absorbed. |
| `RteLowering.SpoilerSpoils` | src/AST/expr.cc:2913-2919 | Wherever a node is absorbed into one with the other operator, a certain assignment tells the two values apart. |
| `RteLowering.ValueKeptExactly` | src/AST/expr.cc:2898-2932 | For expressions that mention each bool once, the value is kept in every world if and only if no node is absorbed into one with the other operator. |
| `RteLowering.ClashExample` | src/AST/expr.cc:2913-2919 | An AND of two bools joined with an OR of two others becomes the AND of all four. |
| `RteLowering.LeavesKept` | src/AST/expr.cc:2898-2932 | References stay in order in any case. |
| `RteLowering.RteExpr.PushBack` | src/Object/lang/RTE.cc:800-803 | Appends an operand. |
| `RteLowering.RteExpr.PushFront` | src/Object/lang/RTE.cc:791-797 | Puts an operand in front. |
| `RteLowering.RteExpr.Absorb` | src/AST/expr.cc:2913-2916 | Appends the operands of another node one by one. |
| `RteLowering.Combine` | src/AST/expr.cc:2898-2932 | Reusing an operand in place gives the joined node, wrong absorptions included. |
| `RteLowering.CheckRteExpr` | src/AST/expr.cc:2879-2941 | Building bottom up in place on fresh nodes gives the lowered expression. |
| `RangeExpansion.ExpandRange` | src/AST/range.cc:287-318 | Fails exactly if a bound is not constant; otherwise gives lower, lower + 1, ... upper, or the lower bound alone if the upper one is not above it. |
| `RangeExpansion.IndicesExactly` | src/AST/range.cc:287-318 | An index belongs to a constant range if and only if it is the lower bound or lies between the bounds, the upper one included; indices ascend. |
| `RangeExpansion.ExpandConstIndices` | src/AST/range.cc:679-726 | Fails exactly if some bound is not constant; otherwise the result has, in lexicographic order and once each, exactly the tuples every coordinate of which is selected by its range; tuple k is the mixed-radix decoding of k. |
| `RangeExpansion.Singletons` | src/AST/range.cc:697-705 | The first dimension gives one tuple per index. |
| `RangeExpansion.Suffixed` | src/AST/range.cc:706-724 | A further dimension gives every tuple with every index, the index running fastest. |
| `RangeExpansion.RankOfEntry` | src/AST/range.cc:674-726 | Every entry is a tuple of the cross product, and its rank is its position. |
| `RangeExpansion.EntryOfRank` | src/AST/range.cc:674-726 | Every tuple of the cross product is the entry at its rank. |
| `RangeExpansion.EntriesAscend` | src/AST/range.cc:674-726 | Entries come in lexicographic order and are pairwise distinct. |
| `RangeExpansion.EntriesExactly` | src/AST/range.cc:674-726 | The entries are exactly the tuples every coordinate of which is the lower bound of its range or between its bounds, the upper one included. |
| `ReferenceExpansion.ExpandConstReference` | src/AST/expr.cc:1379-1388 | Together with the member and index cases: fails exactly if some bound is not constant, and otherwise rewrites the vector to the expansion. |
| `ReferenceExpansion.CrossProduct` | src/AST/expr.cc:2117-2133 | Every reference with every index tuple, in order. |
| `ReferenceExpansion.MembersDenoteAll` | src/AST/expr.cc:1893-1903 | Taking a member of every expanded reference takes the member of everything they denote, in order. |
| `ReferenceExpansion.IndexedDenoteAll` | src/AST/expr.cc:2117-2133 | Indexing every expanded reference by every tuple indexes everything they denote, row-major. |
| `ReferenceExpansion.OneDenotes` | src/AST/expr.cc:1889-1892 | What expands to one reference denotes one instance at most, and none only if some range is out of order. |
| `ReferenceExpansion.DenotesExactly` | src/AST/expr.cc:2103-2135 | Which instances a reference denotes, by the bounds: the elements of what its base denotes at the tuples whose coordinates lie within the bounds, upper ones included, and the members of what its owner denotes. |
| `ReferenceExpansion.ElementsInOrder` | src/AST/expr.cc:2117-2133 | They come base by base, and for every base in the order of the tuples. |
| `ReferenceExpansion.SliceDenotes` | src/AST/range.cc:312-315 | a[lo..hi] denotes the elements of a at lo to hi, both included. |
| `ReferenceExpansion.ExpandCopies` | src/AST/expr.cc:2117-2133 | A reference expands to as many references as the product of the sizes of its ranges. |
| `ReferenceExpansion.ExpandScalar` | src/AST/expr.cc:2103-2135 | Every reference in the expansion denotes one instance at most. |
| `ReferenceExpansion.ExpansionFaithful` | src/AST/expr.cc:2103-2135 | The expansion denotes exactly the instances of the original, in row-major order, if and only if no range out of order is expanded where something is denoted; the condition looks only at the ranges and their sizes. |
| `ReferenceExpansion.OrderedIsFaithful` | src/AST/expr.cc:1880-1904 | With all bounds in order, the singleton shortcut included, the denotation is kept. |
| `ReferenceExpansion.DisorderExample` | src/AST/range.cc:287-318 | a[2..1] denotes nothing and expands to a[2]. |
| `MetaExpr.CheckEvaluates` | src/AST/expr.cc:2205-2341 | What any checked expression resolves to, folded or not, in every world: the source evaluated with '!' as the bitwise complement where a parameter occurs in its operand, and with a divisor below the smallest positive number taken for zero. |
| `MetaExpr.CheckPreservesMeaning` | src/AST/expr.cc:2205-2341 | So the term resolves to the source's value at the term's type, and does not resolve where the value is undefined or a nonzero real divisor is below the smallest positive number, in every world in which no '!' comes out wrong: its operand has no parameter in it, is -1 or undefined. |
| `MetaExpr.PrefixPreservesExactly` | src/AST/expr.cc:1450-1548 | A checked prefix operator resolves to the operator applied to what its operand resolves to, folded or not, if and only if it is not '!', or the operand is constant, -1 or undefined. |
| `MetaExpr.IntArithPreserves` | src/AST/expr.cc:2226-2257 | A checked operation on ints resolves to its value on what the operands resolve to, folded or not, and does not resolve for a zero divisor or an undefined shift. |
| `MetaExpr.RealArithPreserves` | src/AST/expr.cc:2258-2288 | A checked operation on reals, or on an int and a real after conversion, resolves to its value, and does not resolve exactly where a divisor is zero or below the smallest positive number. |
| `MetaExpr.BoolArithPreserves` | src/AST/expr.cc:2290-2332 | The bitwise operators that are forgiven on bools resolve to conjunction, disjunction and inequality. |
| `MetaExpr.RelationalPreserves` | src/AST/expr.cc:2455-2531 | A checked comparison of ints, reals or bools resolves to the truth value of the comparison, folded or not. |
| `MetaExpr.LogicalPreserves` | src/AST/expr.cc:2622-2691 | A checked logical operation resolves to its value on bools, and to the bitwise one on ints. |
| `MetaExpr.FoldPreserves` | src/AST/expr.cc:2244-2257 | Folding a constant changes neither value nor type. |
| `MetaExpr.StaticResolve` | src/Object/expr/operators.cc:862-881 | A term that counts as constant resolves to the same value in every world. |
| `MetaExpr.ClosedIsStatic` | src/Object/expr/operators.cc:862-881 | A term counts as constant if and only if no parameter occurs in the source. |
| `MetaExpr.CheckedAsAssigned` | src/AST/expr.cc:2205-2341 | What checks has the type that the language assigns, and what has no type never checks. |
| `MetaTyping.ChecksExactly` | src/AST/expr.cc:1450-2700 | An expression checks if and only if the language assigns it a type, no operator has a second character that is refused, and every part that is folded has a value. |
| `MetaTyping.OutcomeExactly` | src/AST/expr.cc:1450-2700 | What checking comes to for every expression, told from the source: a term, no result, an exception or a failed assertion; an exception or failed assertion in an operand comes first, the left operand before the right. |
| `MetaTyping.ConstantExactly` | src/AST/expr.cc:2226-2257 | An expression that checks comes out as a constant, with the value that the source evaluates to, if and only if it is a literal, or has no parameters and neither mixes an int and a real nor is a logical operation on ints. |
| `MetaTyping.CheckPrefixOutcome` | src/AST/expr.cc:1450-1548 | When a prefix operator is taken, and what becomes of it otherwise. |
| `MetaTyping.CheckArithOutcome` | src/AST/expr.cc:2226-2332 | The same for an arithmetic operator, by the types of its operands. |
| `MetaTyping.CheckRelationalOutcome` | src/AST/expr.cc:2455-2531 | The same for a comparison. |
| `MetaTyping.CheckLogicalOutcome` | src/AST/expr.cc:2622-2691 | The same for a logical operator. |
| `MetaLaws.IntSums` | src/Object/expr/operators.cc:735-795 | Subtraction undoes addition, and addition and multiplication go up step by step. |
| `MetaLaws.IntDivision` | src/Object/expr/operators.cc:735-795 | Quotient and remainder exist but for a zero divisor; they recombine to the dividend, and the remainder is smaller than the divisor and has the sign of the dividend. |
| `MetaLaws.IntShifts` | src/Object/expr/operators.cc:735-795 | Shifting left multiplies and shifting right divides, rounding down, by the power of two. |
| `MetaLaws.IntBits` | src/Object/expr/operators.cc:735-795 | The bitwise operators and the complement, bit by bit. |
| `MetaLaws.RealLaws` | src/Object/expr/operators.cc:1394-1442 | Subtraction undoes addition and multiplication undoes division. |
| `MetaLaws.RealRemainder` | src/Object/expr/operators.cc:1394-1442 | The remainder of a real differs from it by a whole multiple of the divisor, is smaller than that and has the sign of the dividend. |
| `MetaLaws.IntOrder` | src/Object/expr/operators.cc:1085-1136 | Exactly one of less, equal and greater holds, the other comparisons follow, and what is further along is greater. |
| `MetaLaws.RealOrder` | src/Object/expr/operators.cc:1756-1766 | The same for reals. |
| `MetaExpr.OpenBangExactly` | src/Object/expr/operators.cc:246-271 | '!' of an int that is not constant resolves to the right value if and only if the operand is -1, because it is evaluated as the bitwise complement. |
| `MetaExpr.OpenBangExample` | src/Object/expr/operators.cc:246-271 | !n, for an int parameter that is 0, resolves to -1. |
| `MetaExpr.QuotientResolvesExactly` | src/util/numeric/zerodiv_detect.hh:27-36 | A real quotient resolves if and only if the divisor is at least the smallest positive number: negative divisors are reported as zero. |
| `ScopeTrees.FirstTrue` | src/Object/unroll/conditional_scope.cc:76-104 | The clause chosen is the first whose guard holds, an else-clause always holding. |
| `UnrollLaws.LoopMeans` | src/Object/unroll/meta_loop.tcc:66-106 | A loop around items means its body under the lower bound, the next index, and so on up to the upper bound included, one after the other, for constant and other bounds. |
| `UnrollLaws.InstanceRepeats` | src/Object/unroll/meta_loop.tcc:66-106 | An instance in a loop from lo to hi means hi - lo + 1 instances, the k-th under the index lo + k. |
| `UnrollLaws.RuleLoopMeans` | src/Object/unroll/meta_loop.tcc:66-106 | The same for a loop around rules. |
| `UnrollLaws.LoopTreeUnrolls` | src/Object/unroll/meta_loop.tcc:66-106 | The same for the loop in a tree. |
| `UnrollLaws.LeafRepeats` | src/Object/unroll/meta_loop.tcc:66-106 | A leaf in the loop of a tree is unrolled once for every index, both bounds included. |
| `UnrollLaws.ConditionalMeans` | src/Object/unroll/conditional_scope.cc:76-104 | A conditional means its first clause whose guard is true or missing, and nothing if there is none. |
| `UnrollLaws.RuleConditionalMeans` | src/Object/unroll/conditional_scope.cc:76-104 | The same for a conditional among rules. |
| `UnrollLaws.CondTreeUnrolls` | src/Object/unroll/conditional_scope.cc:76-104 | The same for the conditional in a tree. |
| `UnrollLaws.ItemsInTurn` | src/AST/instance.cc:1135-1322 | Items mean what they mean one after the other. |
| `ScopeTrees.ThrewExactly` | src/AST/PRS.cc:755-793 | Checking rules is cut short if and only if an error in them is passed on: one not in a skipped loop nor in a clause of a conditional. |
| `ScopeErrors.EscapesExactly` | src/AST/PRS.cc:567-720 | An error in rules is passed on if and only if some rule in error is in no conditional, and every loop around it has its bounds in order and a name that is neither in scope nor that of a loop around it. |
| `ScopeErrors.AcceptedExactly` | src/AST/instance.cc:1135-1322 | A source is accepted if and only if every item at any depth is fine: a good instance or directive, rules with no error passed on, or a loop with its bounds in order and a name that is neither in scope nor that of a loop around it. |
| `ScopeTrees.RulesBuiltExactly` | src/AST/PRS.cc:567-720 | For all rules, in error or not: the tree has everything that is written if and only if no rule is in error and every loop skipped, for bounds out of order or for reusing a name in scope, has nothing in it; it is never longer, and checking is cut short only by a rule in error. |
| `ScopeTrees.RuleBuiltExactly` | src/AST/PRS.cc:567-720 | The same for a single rule, loop, conditional, nested body or subcircuit. |
| `ScopeTrees.BadNotEmpty` | src/AST/PRS.cc:674-680 | Rules in error would have left something in the tree, so an error dropped always loses something. |
| `ScopeTrees.IdealRulesUnroll` | src/Object/lang/PRS.cc:375-385 | Unrolling everything that is written gives the rules in the order, and under the loop variables, that the source says. |
| `ScopeTrees.IdealItemsUnroll` | src/AST/instance.cc:1135-1322 | The same for rules among items: unrolling everything that is written gives the projection of the source on rules, always. |
| `ScopeTrees.RulesTreeExactly` | src/AST/PRS.cc:567-720 | The whole tree of rules has everything that is written, in an accepted source or not, if and only if no rule is in error and no loop with something in it was skipped. |
| `ScopeTrees.RulesTreeOfItem` | src/AST/PRS.cc:567-720 | The same for a single item. |
| `ScopeMeaning.RulesUnrollExactly` | src/AST/PRS.cc:567-720 | For all rules and in every world: unrolling their tree gives what the source says if and only if nothing that comes up in that world is lost, where of every conditional the clause chosen counts, and of every loop the iterations run. |
| `ScopeMeaning.UnrollsToProjection` | src/AST/instance.cc:1135-1322 | For every valuation of guards and loop bounds, unrolling each of the three trees gives that language's projection of the unrolled source, although empty nodes were removed: for instances and directives always, for rules if and only if none that comes up in that world was lost. It never gives more. |
| `ScopeMeaning.KeptEverywhere` | src/AST/PRS.cc:567-720 | Where the tree of rules has everything that is written, it is right in every world. |
| `ScopeMeaning.ItemUnrolls` | src/AST/instance.cc:1135-1322 | The same for a single item of any kind, also where its tree was left out. |
| `ScopeMeaning.LoopUnrolls` | src/Object/unroll/meta_loop.tcc:66-106 | The same for any part of the range of a loop, also where the loop was removed. |
| `ScopeMeaning.ClausesAligned` | src/AST/instance.cc:1235-1322 | A conditional that survives in a tree has the guards of the source in order, clauses empty in that tree included, so the clause chosen is the same in all three; it is removed exactly if all its clauses are empty. |
| `ScopeMeaning.BuildCompact` | src/AST/instance.cc:1171-1180 | No empty loop or conditional is left anywhere in a tree: for instances and directives always, for rules if and only if no loop or subcircuit has an error passed on before anything was put into it. |
| `ScopeMeaning.FillsExactly` | src/AST/PRS.cc:755-793 | Which rules leave something in the tree, in terms of the source. |
| `ScopeMeaning.RulesCompact` | src/AST/PRS.cc:755-793 | The same for rules alone. |
| `ScopeMeaning.ShallowEmptyIsDeepEmpty` | src/Object/unroll/meta_conditional.tcc:43-50 | In such trees, looking whether a list is empty tells whether there is anything anywhere below. |
| `ScopeMeaning.ErrorSwallowed` | src/AST/PRS.cc:674-680 | An error in a clause of a conditional among rules is not passed on: the rest of the clause is lost, an open loop stays behind empty, and unrolling differs from the source. |
| `ScopeMeaning.SkippedLoopExample` | src/AST/PRS.cc:567-613 | An accepted source in which a loop among rules reuses the name of the loop around it: the source says one rule, and the tree unrolls to none. |
| `ScopeMeaning.OutOfOrderMeansNothing` | src/AST/range.cc:203-211 | A loop among rules that is skipped because its bounds are out of order loses nothing when unrolled. |
| `ScopeBuilder.ParseContext.LookupObject` | src/AST/parse_context.cc:593-631 | A name is found exactly if it is in scope, and a loop variable found is the only enclosing binder of the name. |
| `ScopeBuilder.ParseContext.PushLoopVar` | src/AST/parse_context.cc:1152-1171 | A name that can already be looked up is refused and nothing changes; otherwise it is pushed, and all loop variables stay distinct. |
| `ScopeBuilder.ParseContext.PopLoopVar` | src/AST/parse_context.cc:1174-1177 | Removes the innermost loop variable. |
| `ScopeBuilder.ParseContext.Unwind` | src/AST/parse_context.cc:1392-1395 | Pops the scope stack and restores the saved bodies and flag. |
| `ScopeBuilder.Node.Empty` | src/Object/unroll/meta_conditional.tcc:43-50 | Whether all bodies are empty lists. |
| `ScopeBuilder.Node.AppendGuardedClause` | src/Object/unroll/meta_conditional.tcc:131-135 | Adds a guard and an empty body at the same position. |
| `ScopeBuilder.Finish` | src/AST/instance.cc:1173-1178 | The node taken out is the very one that was put in, and it is taken out exactly if there is nothing in any of its bodies. |
| `ScopeBuilder.CheckRules` | src/AST/PRS.cc:755-793 | Rules are checked in order until one is in error; the context is restored and the current body has exactly the trees of the rules appended. |
| `ScopeBuilder.CheckRule` | src/AST/PRS.cc:488-720 | A single rule of any kind appends exactly its trees, reports exactly whether it was cut short, and restores the context. |
| `ScopeBuilder.CheckRuleLoop` | src/AST/PRS.cc:567-613 | A loop among rules: skipped if its bounds are out of order or its name is in scope, otherwise pushed, filled and removed if empty. |
| `ScopeBuilder.CheckRuleConditional` | src/AST/PRS.cc:707-720 | A conditional among rules: every clause is filled in the node at the end of the current body. |
| `ScopeBuilder.CheckClause` | src/AST/PRS.cc:643-680 | One clause: guard and body are appended, an error in it is swallowed, the saved body is restored. |
| `ScopeBuilder.CheckNested` | src/AST/PRS.cc:905-929 | Rules inside a node of their own, kept if they were cut short by an error. |
| `ScopeBuilder.CheckItems` | src/AST/instance.cc:1135-1322 | Items are checked in order until one is refused; the whole context is restored even then, and on success each of the three current bodies has exactly its language's trees appended. |
| `ScopeBuilder.CheckItem` | src/AST/instance.cc:1135-1322 | A single item appends exactly its trees in each language, or is refused exactly if it is in error; the context is restored. |
| `ScopeBuilder.CheckPrsBody` | src/AST/PRS.cc:803-841 | A body of rules becomes a set of its own, removed if empty; an error refuses it. |
| `ScopeBuilder.CheckSpecBody` | src/AST/SPEC.cc:270-325 | Directives are appended in order; an error refuses the body. |
| `ScopeBuilder.CheckLoop` | src/AST/instance.cc:1135-1183 | A loop is refused exactly if its bounds are out of order, its name is in scope or its body is refused; otherwise the three trees get it where it is not empty. |
| `ScopeBuilder.CheckLoopBody` | src/AST/instance.cc:1156-1180 | With the variable in scope, the three nodes are pushed, filled through the frames, and removed where they stayed empty. |
| `ScopeBuilder.CheckConditional` | src/AST/instance.cc:1292-1324 | A conditional is refused exactly if a clause is; otherwise the three trees get it, with all clauses, where it is not empty. |
| `ScopeBuilder.CheckGuarded` | src/AST/instance.cc:1221-1263 | One clause is appended to the three conditionals at the end of the current bodies, filled, and the context restored, flag included. |
| `ScopeBuilder.CheckBuild` | src/AST/instance.cc:1135-1322 | A whole definition: refused exactly if some item at some depth is not fine; otherwise all frames are unwound, and instances and directives unroll in every world to their projection of the source. The tree of rules has everything that is written if and only if none was lost, and unrolls to its projection in exactly the worlds in which none that comes up was lost. |
| `ChpBody.FindForever` | src/AST/CHP.cc:467-469 | The first forever loop at or after a position, or the end. |
| `ChpBody.AddBodies` | src/AST/CHP.cc:463-481 | The pieces concatenate to the statement list, none is empty, a forever loop occurs only last in a piece, and all but the last piece end in one; a single statement is not grouped. |
| `ChpBody.PiecesCounted` | src/AST/CHP.cc:463-481 | There is one piece for every forever loop, and one for what comes after the last of them. |
| `ChpBody.PartitionUnique` | src/AST/CHP.cc:463-481 | No other list of pieces meets these conditions. |
| `BitFields.ExtractBitsMeaning` | lib/libchpfn/numeric.cc:60-65 | For all positions, negative ones included: extraction is defined exactly from position 0 and for an upper position up to 30, and then gives the value shifted down (rounding down) modulo two to the width. |
| `BitFields.ExtractBitMeaning` | lib/libchpfn/numeric.cc:43-46 | A bit is defined exactly for the positions 0 to 63, and is the parity of the value shifted down. |
| `BitFields.FieldsRecombine` | lib/libchpfn/numeric.cc:60-65 | Adjacent fields recombine: the lower one plus the upper one at its weight is the joint field, for negative values too. |
| `BitFields.FieldIsWeightedSum` | lib/libchpfn/numeric.cc:43-65 | A field is the weighted sum of its bits. |

## Left out

- Eviction weights of the tree cache: which subtrees go when the cache is halved is left open, so the results hold for any choice.
- TreeCache.FrameCache.Halve: does not say which nodes are evicted, because usage counts are not modelled.
- Numbering.DecodeEncode: says nothing of processes below those that the maps leave out; Numbering.HasIdExactly says that they have no id.
- Frames.FramesComposeExactly: takes it that a process port is connected to a process of the same type, as the type checker of connections sees to; that checker is not modelled.
- Frames.PortPrivatesRight: is for two processes that the maps reach; the others are covered by Frames.PortPrivatesExactly.
- Overflow of ids: they are natural numbers; the sentinel of an empty hot slot is larger than the number of processes.
- Frames of structured data (datastructs): compiled out by default, and like the other meta-types.
- Canonical names, type names and attributes on the lines of the listing, and everything else that only dumps or reports.
- References held across a halving of the cache: the run starts over at the top then, because their nodes may be gone.
- PrsLowering.ValueKeptExactly: the direction that finds a differing world is for guards that mention each node once, because with repeated nodes a lost value can be masked; what the value is in any case is in PrsLowering.ValueCollapsed.
- RteLowering.ValueKeptExactly: likewise for expressions that mention each bool once.
- PrsLowering.CheckPrsExpr: does not model literal attributes and sizes, nor the checking of precharge expressions, which are opaque.
- Empty expression loops: unrolling rejects them; the model gives them the neutral value on both sides.
- Normalisation, copying and complementing of production rules after lowering.
- ReferenceExpansion.ExpandConstReference: leaves out groups of references and literals with attributes.
- RangeExpansion.ExpandConstIndices: is for index lists of one dimension at least, which is what the grammar produces.
- `make_explicit_range` and `check_meta_ranges`: they convert N to 0..N-1 and check types, without a hard property.
- MetaExpr.CheckEvaluates: leaves out strings, collections, function calls, non-meta expressions, machine overflow of ints and rounding of reals.
- MetaExpr.IntArithPreserves: takes a shift by a negative amount or by 64 and more not to resolve; the source does not check for it and leaves the result to the machine.
- MetaExpr.CheckPreservesMeaning: in worlds in which some `!` over a parameter comes out wrong, says nothing of the expression around it; what that resolves to then is in MetaExpr.CheckEvaluates.
- Warning counts, and the text and position of error messages.
- Subcircuit boundaries, supply overrides and attributes of rules: only the rules themselves are unrolled.
- Guards and loop bounds that do not resolve, and the checking of the expressions in them; directives that are unknown and ignored.
- ScopeBuilder.ParseContext.LookupObject: names other than loop variables are a fixed set; names declared along the way, namespaces and definitions are not modelled.
- ScopeBuilder.CheckItems: says nothing about the three bodies after the source is refused, beyond the context being restored.
- ScopeBuilder.ParseContext.Unwind: stands for the destructors of the scope, rule and spec frames together; popping an empty loop scope there is part of ScopeBuilder.Finish.
- CHP actions other than the partition, channel CHP bodies, and statements inside loops and conditionals, which are ignored with a warning.
- Other functions of the CHP library, HSE, probabilistic selection, persistence, the lexer and the grammar.
