# SCIM store, filters and PATCH: a verified model

This project models three parts of a Go implementation of SCIM 2.0 (RFC 7643 and RFC 7644) and proves
what they promise. `dafny verify dfyconfig.toml` checks all of it.

**The in-memory store and its optimistic concurrency** (`store_*.dfy`, `memory.dfy`, `service.dfy`, `etag.dfy`).
`StoreSpec` says what create, update and delete do to the stored entries, without any index. `Memory` is the
store itself: a class with its entries, its reverse-link index and its unique-key index, every method of
which keeps both indexes exact and refines the specification. `StoreVersions` follows whole runs: one id
never shows two representations under one entity tag, whatever the clock does. `Service` puts any number of
clients on top, whose reads and commits interleave, and shows that the successful writes are serial. The
clock and each client's change function are arbitrary. `StoreMeaning` says once more, of the stored entries alone,
which documents are taken, what a write or delete leaves behind and what a reader is shown, and `StorePointers`
keeps the references that stay in a body in step with the links.

**The filter grammar** (`filter_*.dfy`). `FilterGrammar` gives the grammar of section 3.4.2.2 of RFC 7644 as
functions on the unread text; `FilterParser` is the backtracking parser over a mutable position, proved to do
the same. `FilterTokens`, `FilterStrings` and `FilterLanguage` describe the language by how its texts are put
together, without any parser, and show that exactly its texts are accepted, with their meaning. Printing and parsing
are inverse to each other, `and` binds tighter than `or`, and the parser is linear although it remembers nothing.
`FilterPath` and `FilterPathLanguage` do the same for the paths of PATCH operations.

**The PATCH engine** (`patch_*.dfy`). `PatchEngine` applies operations, as they are written, to a resource;
`PatchEffect`, `PatchOutcome` and `PatchMembers` prove what it leaves where it points and when it is refused, and
`PatchMutability` what a run may not change. The parts that work in place are modelled in place and
proved equal to their pure form: the folded key index (`PatchKeys`), the hashed set (`PatchSet`), the
substitution that overwrites the array it reads (`PatchSubstitute`), and list adds through indexes that stay
in a cache while operations mutate the shared elements (`PatchIndex`). `PatchTransparency` ties that cache to whole
runs of the engine; `PatchImmutable`, `PatchPromotion` and `PatchPruning` say where its promises end. The order in
which a map is walked, the encoding of a value, what a value filter compiles to, how characters fold into each
other (`folding.dfy`, `text.dfy`) and how texts are read as instants and numbers are arbitrary: the results hold
for all of them.

Four places where the code and what one would expect of it differ, all followed as the code has them:

- The elements of an immutable complex multi-valued attribute can be changed, because the gate on the parent is
  only set for singular attributes (`pkg/patch/merger.go:27-32`). `PatchImmutable.ImmutableKeptExactly` says exactly
  when, for each operation and path. A write does, if its filter selects some object and names no sub-attribute, or
  one that is not immutable or not assigned there. It also does if it only repeats an immutable flag "primary", true
  at an object that the filter selects, while the filter leaves out an object that is primary: that one is demoted
  (`pkg/patch/list_add.go:12-21`). A removal does, with a filter or without, if it names a sub-attribute, neither
  required nor immutable, that some object it reaches holds. Values without a path, writes without a filter and
  removals that name no sub-attribute keep such a list. Since nothing checks the type of what is stored, a value
  that is an object with a flag promotes under any name; the theorem is also stated for resources without such
  values. `PatchExamples` has an input for a write, for a repeat and for a removal.
- An extension whose attributes hold no data is taken out of the resource, and with it attributes that were
  present but blank, readOnly ones included (`pkg/patch/target.go:102-106`). `PatchPruning.BlankStaysExactly` says
  which values stay, `PatchExamples.PrunedExample` shows one that does not.
- An add to a list attribute named "primary" never demotes, since its name is taken for the flag
  (`pkg/patch/primary.go:26-32`). `PatchPromotion.AddDemotesExactly` says that this is the only such name, and
  `PatchExamples.TwoPrimaryExample` ends with two primary values.
- In a value without a path, a readOnly value that repeats what is stored is left out, but it is looked up by its bare
  name in the resource itself (`pkg/patch/patcher.go:114-118`): one of an extension, or a sub-attribute, is refused,
  though it would change nothing. `PatchMembers.ReadOnlyMember` says exactly when, `PatchExamples.RepeatedExample` has
  an input.

## Model

| member | source | states |
|---|---|---|
| `Etag.ParseOfWeak` | internal/etag/etag.go:10-23 | a tag parses back to the time it was made from, exactly when that time is not negative and fits 64 bits of microseconds; any other is refused |
| `Etag.WeakInjective` | internal/etag/etag.go:10-12 | two modification times never share a tag |
| `StoreGraph.ClosedSetBlocks` | internal/memory/entries.go:70-85 | a set of resources closed under the links of one attribute, without the goal in it, proves that the goal is not reachable |
| `StoreGraph.ReachesStep` | internal/memory/entries.go:70-85 | a path goes on at its far end: whoever reaches a resource also reaches the targets of that resource |
| `StoreGraph.ClosesOldCycle` | internal/memory/entries.go:31-45 | a cycle through a resource whose links changed gives a path back from one of the added targets in the graph before the write |
| `StoreGraph.AcyclicStep` | internal/memory/entries.go:31-45 | checking the added hard targets against the old graph is enough to keep the new graph acyclic |
| `StoreGraph.AcyclicSubgraph` | internal/memory/memory.go:52-62 | taking links away cannot make a cycle |
| `StoreTypes.TargetsOfIff` | internal/memory/targets.go:22-29 | with distinct reference names, the lookup by name finds exactly the targets of the links of that name |
| `StoreTypes.SameShape` | pkg/store/encode.go:32-46 | any two link lists of one type agree, name by name, on everything but their targets |
| `StoreSpec.TargetsStored` | internal/memory/memory.go:69-101 | in a sound state no listed target is missing or the resource itself, so rendering never reads an absent entry |
| `StoreSpec.InverseMirrorsForward` | internal/memory/memory.go:68-81 | a user's groups list a group exactly when the group's members list the user and the group is of an allowed type |
| `StoreInvariants.ResolvedTargets` | internal/memory/entries.go:87-97 | resolving links drops only targets that are not stored |
| `StoreInvariants.WriteSkipsItself` | internal/memory/store.go:107-114 | an accepted write never counts its own resource among the changed targets, so its time stays the one the write chose |
| `StoreInvariants.LinkedTargetOk` | internal/memory/entries.go:31-59 | every target of an accepted document is stored with an allowed type, though only the added ones were checked |
| `StoreInvariants.WriteSound` | internal/memory/store.go:81-114 | an accepted write keeps the whole state sound: references resolve, membership is acyclic, unique keys are held once |
| `StoreInvariants.SaveSound` | internal/memory/store.go:81-114 | the same once the changed targets are touched |
| `StoreInvariants.TouchedSound` | internal/memory/entries.go:99-107 | moving modification times forward keeps the state sound |
| `StoreInvariants.UnlinkedTargets` | internal/memory/memory.go:52-62 | unlinking removes the one target from every reference and no other |
| `StoreInvariants.UnlinkedKeys` | pkg/store/unlink.go:10-26 | unlinking a soft reference from a body keeps its unique keys |
| `StoreInvariants.DetachSound` | internal/memory/memory.go:41-50 | the cascade of a delete keeps the state sound |
| `StoreInvariants.RemoveSound` | internal/memory/store.go:58-70 | a delete keeps the state sound and the id is gone |
| `StoreInvariants.CreateSound` | internal/memory/store.go:41-46 | Create keeps the state sound |
| `StoreInvariants.UpdateSound` | internal/memory/store.go:48-56 | Update keeps the state sound |
| `StoreInvariants.DeleteSound` | internal/memory/store.go:58-70 | Delete keeps the state sound, and no link names the deleted id any more |
| `StoreMeaning.KeysFreeExactly` | internal/memory/unique_index.go:8-15 | the keys of a document are free exactly when no other resource of the schema assigns, at a unique field, the same value or, unless case counts there, a text with the same letters |
| `StoreMeaning.UniqueOnce` | pkg/core/attribute.go:132-150 | in every sound state no two resources of one schema share a value of a unique field, however it is spelled |
| `StoreMeaning.AcceptsExactly` | internal/memory/store.go:96-105 | a document is accepted exactly when every target it adds is stored with an allowed type, or not stored at a soft link, when no hard one leads back along links, and when no unique value is taken |
| `StoreMeaning.LinksFollowReferences` | pkg/store/reference.go:38-45 | a resource has one link for each reference that is not derived, of its types, and soft exactly when the reference has one value |
| `StoreMeaning.CreateWrites` | internal/memory/store.go:41-46 | a Create stores schema, body and links as sent, soft links without targets that are not stored, under a new id; of the others exactly the targets get a later time, and nothing else changes |
| `StoreMeaning.UpdateWrites` | internal/memory/store.go:48-56 | an Update does the same in place of the old document, keeps the creation time, moves its own time on and that of exactly the targets it gained or lost |
| `StoreMeaning.UnlinkedDrops` | pkg/store/unlink.go:10-17 | unlinking one reference takes the target from its links and the reference from the body exactly when it has a single value |
| `StoreMeaning.DeleteErases` | internal/memory/store.go:58-70 | after a Delete every other resource has lost each link to the id and each body pointer of a soft link that held it, keeps all else, and has a later time exactly when it was linked with the id |
| `StoreMeaning.RecordShows` | internal/memory/memory.go:64-101 | a record shows the stored body, times and tag; a list shows its targets with their types, a derived reference, as direct, exactly the resources of its types that name this one, and a single reference nothing |
| `StorePointers.UpdateKeepsPointers` | pkg/store/encode.go:48-90 | an Update keeps body and links in step: of the stored resources a body names exactly those that a soft link of the attribute holds |
| `StorePointers.CreateKeepsPointersExactly` | pkg/store/encode.go:48-90 | a Create keeps them in step if and only if no stored body has named the new id before |
| `StorePointers.DeleteUnnames` | pkg/store/unlink.go:10-17 | a Delete keeps them in step, leaves no body that names the deleted id, and takes no other name out of a body |
| `StorePointers.RunKeepsPointers` | pkg/store/encode.go:48-90 | in every state of every run of encoded documents under fresh ids, bodies and soft links name the same stored resources |
| `StorePointers.DeletedIsUnnamed` | internal/memory/memory.go:41-62 | so after a delete, whatever happened before, neither a body nor a link of a stored resource names the deleted id |
| `StoreVersions.SameRender` | internal/memory/memory.go:64-94 | what is rendered for a resource, derived references included, depends on nothing but its own entry and its neighbours |
| `StoreVersions.SaveEvolves` | internal/memory/store.go:107-114 | a write moves the time of every resource whose rendering it changes strictly forward |
| `StoreVersions.RemoveEvolves` | internal/memory/store.go:58-70 | so does a delete, for every resource it detaches or that it was linked to |
| `StoreVersions.StepSound` | internal/memory/store.go:41-70 | every operation keeps the state sound, brings back no used id and lets no version repeat with another rendering |
| `StoreVersions.RunSound` | internal/memory/store.go:41-70 | every state of every run is sound |
| `StoreVersions.RunEvolves` | internal/memory/store.go:41-70 | between any two states of a run, times only grow, and the rendering of an unchanged time is unchanged |
| `StoreVersions.VersionDeterminesRepresentation` | internal/memory/clock.go:5-11 | over a whole run and with any clock, one id never shows two records under one version (section 2.1 of RFC 7232) |
| `StoreVersions.DeletedStaysDeleted` | pkg/server/repository.go:53-58 | an id that was deleted is not stored again, as new ids are always fresh |
| `Service.SystemStepIsStoreStep` | pkg/server/service.go:102-144 | each step of the service is a store operation or leaves the store alone |
| `Service.StepKeepsSystemSound` | pkg/server/service.go:102-144 | what a client has read stays what is stored, unless the version moved on or the resource is gone |
| `Service.CommitReadsCurrent` | pkg/server/repository.go:60-72 | a commit that changes anything overwrites the very record its client read |
| `Service.StepIsAtomic` | pkg/server/service.go:102-131 | a step of the protocol equals one read-modify-write done at once, or no change at all |
| `Service.RunStaysSound` | pkg/server/service.go:84-144 | every reachable system, with any number of clients, is sound |
| `Service.RunIsSerial` | pkg/server/service.go:84-144 | every interleaving equals running the successful requests one at a time, in commit order, each at a moment when the current tag is among its listed versions, if it lists any |
| `Service.CommittedFromCurrent` | pkg/server/service.go:102-131 | every committed Replace or Patch was computed from exactly the record it overwrites |
| `Service.WriterMovesOn` | pkg/server/repository.go:60-72 | a write that changes the store was computed from the version it overwrites, and makes a strictly later one |
| `Service.SystemRunIsStoreRun` | pkg/server/service.go:84-144 | every run of the system, seen from the store, is a run of the store |
| `Service.SecondWriterRefused` | pkg/server/repository.go:60-66 | of two commits of a run, any number of steps apart, whose clients read the same version, the later changes nothing once the earlier has changed the store |
| `Service.ReadStarts` | pkg/server/service.go:133-144 | in every run a read starts its request exactly when the resource is stored with the type and no versions are listed or its current tag is among them; it then shows the record as it is, and changes nothing else |
| `Service.ConditionalCommit` | pkg/server/service.go:133-144 | in every run, whatever happened since the read, a commit of a request with listed versions changes the store only while the current tag of its resource is one of them |
| `Service.WriteCommitExactly` | pkg/server/repository.go:60-66 | a write goes through exactly when nobody changed the resource since it was read and no link or unique value is in the way; it then stores the document as computed, and else nothing |
| `Service.DeleteCommitExactly` | pkg/server/service.go:84-94 | a delete goes through exactly when the resource is stored with the type and, if versions are listed, nobody changed it since it was read |
| `Service.CommitExactly` | pkg/server/service.go:102-131 | every commit of every run does its whole request at once or nothing at all, by those two conditions, and leaves its client idle |
| `StoreIndex.ConflictIsScan` | internal/memory/unique_index.go:8-15 | asking the unique index answers as scanning every other resource would |
| `StoreIndex.UniqueExactDisjoint` | internal/memory/unique_index.go:5-27 | an exact unique index means that no two resources hold one key |
| `StoreIndex.EdgesIntoIff` | internal/memory/inbound.go:37-48 | the edges of a link list into a target are its resource paired with each reference that names the target |
| `StoreIndex.WriteKeepsInbound` | internal/memory/inbound.go:37-48 | relinking leaves the reverse index the exact inverse of the links |
| `StoreIndex.WriteKeepsUnique` | internal/memory/store.go:107-114 | replacing the old keys by the new leaves the unique index exact |
| `StoreIndex.TouchKeepsIndexes` | internal/memory/entries.go:99-107 | touching changes neither index |
| `StoreIndex.DeleteKeepsUnique` | internal/memory/store.go:58-70 | the unique index stays exact through a delete and its cascade |
| `StoreIndex.DeleteKeepsInbound` | internal/memory/memory.go:41-62 | the reverse index stays the exact inverse through a delete and its cascade |
| `Memory.Bumped` | internal/memory/clock.go:5-11 | a new time is strictly later than the one before, whatever the clock says |
| `Memory.Missing` | pkg/store/link.go:16-29 | the ids of one list that are not in the other, each once |
| `Memory.LinkDiff` | pkg/store/link.go:12-14 | what was added and what was removed |
| `Memory.ChangedTargets` | internal/memory/targets.go:5-12 | exactly the targets that some reference gained or lost |
| `Memory.AllTargets` | internal/memory/targets.go:14-20 | exactly the targets of all links |
| `Memory.IndexKeysOf` | internal/memory/index_key.go:18-29 | exactly the unique keys the entry holds |
| `Memory.UniqueKeys` | internal/memory/index_key.go:31-50 | exactly the assigned values of a unique field, where texts that differ only in case are one value unless case counts |
| `Memory.Memory.ReachesGoal` | internal/memory/entries.go:70-85 | the stack and seen-set search ends on any graph and is true exactly when a path exists |
| `Memory.Memory.CheckTargets` | internal/memory/entries.go:47-59 | every id is stored with an allowed type, or the one reported is not |
| `Memory.Memory.CheckAcyclic` | internal/memory/entries.go:61-68 | no target leads back to the source, or the one reported does |
| `Memory.Memory.CheckLinks` | internal/memory/entries.go:31-45 | passes exactly when every added target of every link is acceptable |
| `Memory.Memory.Conflict` | internal/memory/unique_index.go:8-15 | finds a key that another resource holds, if there is one |
| `Memory.Memory.ResolvedLinks` | internal/memory/entries.go:87-97 | soft links lose the targets that are not stored; hard ones keep all |
| `Memory.Memory.AddKeys` | internal/memory/unique_index.go:17-21 | every key points to the resource; other keys stay |
| `Memory.Memory.RemoveKeys` | internal/memory/unique_index.go:23-27 | exactly these keys go |
| `Memory.Memory.AddEdge` | internal/memory/inbound.go:7-12 | one edge more into one target |
| `Memory.Memory.RemoveEdge` | internal/memory/inbound.go:14-16 | one edge less into one target |
| `Memory.Memory.RemoveLinks` | internal/memory/inbound.go:38-42 | every edge of the links goes |
| `Memory.Memory.AddLinks` | internal/memory/inbound.go:43-47 | every edge of the links comes |
| `Memory.Memory.Relink` | internal/memory/inbound.go:37-48 | the edges of the old links go and those of the new come, for every target |
| `Memory.Memory.Touch` | internal/memory/entries.go:99-107 | the named entries get strictly later times; nothing else changes |
| `Memory.Memory.Sources` | internal/memory/inbound.go:18-26 | the resources that link to the target with the attribute, read off the reverse index |
| `Memory.Memory.ListMembers` | internal/memory/memory.go:68-101 | the reverse index yields the same members a scan of all links would |
| `Memory.Memory.RecordFor` | internal/memory/memory.go:64-66 | the record rendered through the indexes is the one the entries define |
| `Memory.Memory.Find` | internal/memory/store.go:31-39 | finds exactly the resources of the type, and shows body, times, tag and references as they are |
| `Memory.Memory.Verify` | internal/memory/store.go:96-105 | passes exactly when the links are acceptable and no other resource holds a key; the error names what is wrong, links first |
| `Memory.Memory.CommitWrite` | internal/memory/store.go:107-114 | an accepted write becomes visible in entries and both indexes, which stay exact |
| `Memory.Memory.Save` | internal/memory/store.go:81-94 | writes exactly when acceptable and returns the new record; a refusal changes nothing |
| `Memory.Memory.Create` | internal/memory/store.go:41-46 | with acceptable links, refused exactly when another resource of the schema holds a unique value of the document, in any spelling that counts as one, and then as not unique; with other links refused for these; else stored as sent, and shown so |
| `Memory.Memory.Locate` | internal/memory/store.go:72-79 | finds the resource of the type at a version, or at any |
| `Memory.Memory.Update` | internal/memory/store.go:48-56 | writes exactly when the version is current and the document acceptable, with a strictly later time, and stores the document as sent; a refusal changes nothing and names its reason |
| `Memory.Memory.Drop` | internal/memory/inbound.go:28-35 | forgets and returns the edges into a target |
| `Memory.Memory.Unlink` | internal/memory/memory.go:52-62 | every link of the one reference loses the target and all other links stay; the reference leaves the body exactly when it has a single value |
| `Memory.Memory.Detach` | internal/memory/memory.go:41-50 | every resource that linked to the target is unlinked, and reported |
| `Memory.Memory.Delete` | internal/memory/store.go:58-70 | deletes exactly when the version matches; every other resource loses its links to the deleted one and the pointer of a soft link that held it, nothing else, and exactly the neighbours get a later time; both indexes stay exact |
| `FilterLexer.UriCut` | pkg/filter/grammar.go:18 | what the URI recogniser takes, it takes whole when read alone |
| `FilterLexer.UriAppend` | pkg/filter/grammar.go:18 | a URI is read the same in front of any text that cannot continue it |
| `FilterJson.StringRoundTrip` | pkg/filter/stringify.go:74-77 | every string, control characters included, decodes from the JSON encoding that the printer writes |
| `FilterJson.SurrogatePairDecodes` | pkg/filter/grammar.go:148-163 | a pair of escaped surrogates, which the printer never writes, decodes to the one character it stands for |
| `FilterJson.EncodedIsToken` | pkg/filter/grammar.go:17 | the JSON encoding of a string is one whole string token, whatever follows |
| `FilterTokens.NameLongest` | pkg/filter/grammar.go:15 | the name recogniser takes the longest prefix that is a letter followed by letters, digits, underscores and hyphens, and nothing when no prefix is |
| `FilterTokens.NumberLongest` | pkg/filter/grammar.go:16 | the number recogniser takes the longest prefix that splits into an optional minus, digits without a leading zero, an optional fraction and an optional exponent, and nothing when no prefix does |
| `FilterTokens.StringLongest` | pkg/filter/grammar.go:17 | the string recogniser takes the longest prefix that is a quoted sequence of plain characters and escapes, and nothing when no prefix is |
| `FilterTokens.UriLongest` | pkg/filter/grammar.go:18 | the URI recogniser takes the longest prefix that is a sequence of segments, each with a colon after it, and nothing when no prefix is |
| `FilterStrings.DecodesExactly` | pkg/filter/grammar.go:157-161 | a text decodes to a string exactly when it is made of plain characters, short escapes and code units that mean the string (section 7 of RFC 7159) |
| `FilterStrings.WrittenIsToken` | pkg/filter/grammar.go:157-161 | every such text between quotes is one string token, whatever stands behind it |
| `FilterLanguage.PhrasesRead` | pkg/filter/grammar.go:89-138 | every filter spelled by the rules of the language, with any token, any case of its words and any spacing, is read whole, as the tree it means |
| `FilterLanguage.FilterTaken` | pkg/filter/grammar.go:37-58 | whatever the parser reads is such a spelling of the tree it builds, followed by what it leaves |
| `FilterLanguage.TreeOfRuns` | pkg/filter/grammar.go:215-226 | the tree of a chain joins each run by "and" and the runs by "or" |
| `FilterLanguage.ParsesExactly` | pkg/filter/grammar.go:60-83 | a text parses to a tree if and only if it is a spelling of a filter that means the tree: the parser accepts exactly the language, with its meaning |
| `FilterPathLanguage.SplitOf` | pkg/filter/attr_path.go:38-45 | an attribute path splits into its URI without the final colon, its name and its sub-attribute |
| `FilterPathLanguage.PathParsesExactly` | pkg/filter/path.go:11-25 | a text is a PATCH path if and only if it is an attribute, or an attribute without sub-attribute, a filter in brackets and perhaps a sub-attribute, and it addresses just these parts |
| `FilterPrint.PathTextBack` | pkg/filter/attr_path.go:20-45 | an attribute path that the grammar can read splits into parts that print back to it |
| `FilterPrint.PathCut` | pkg/filter/grammar.go:165-186 | the path the grammar takes from any text is well formed |
| `FilterPrint.PathAppend` | pkg/filter/grammar.go:165-186 | a well-formed path is read whole in front of any text that does not start with a character of a path |
| `FilterRoundTrip.BracketsRead` | pkg/filter/grammar.go:115-123 | a printed value path is read back as one, however its filter goes on |
| `FilterRoundTrip.PrintReads` | pkg/filter/stringify.go:10-77 | the text of every well-formed filter is read back as that filter, whatever closes it |
| `FilterRoundTrip.ParseOfPrint` | pkg/filter/stringify.go:10-77 | parsing what the printer writes consumes it all and gives the same tree (section 3.4.2.2 of RFC 7644) |
| `FilterRoundTrip.FilterWf` | pkg/filter/grammar.go:37-58 | every tree the grammar builds is well formed: no value path inside a value filter, only paths it can read |
| `FilterRoundTrip.AcceptedRoundTrips` | pkg/filter/grammar.go:60-71 | so printing and parsing again leaves every accepted filter as it is |
| `FilterPath.FilteredPathReads` | pkg/filter/path.go:11-25 | a PATCH path with a value filter and a sub-attribute is read back from its text |
| `FilterPath.AcceptedPathRoundTrips` | pkg/filter/path.go:11-25 | printing and parsing again leaves every accepted PATCH path as it is |
| `FilterPrecedence.PrintedIsOperand` | pkg/filter/stringify.go:10-77 | the text the printer writes for a well-formed filter is an operand |
| `FilterPrecedence.PresenceIsOperand` | pkg/filter/grammar.go:125-131 | so is a presence test with any number of spaces and in any case |
| `FilterPrecedence.NegationIsOperand` | pkg/filter/grammar.go:96-113 | so is a negated group around any chain, with or without spaces after the word, in any case |
| `FilterPrecedence.ChainReads` | pkg/filter/grammar.go:89-94 | a chain of operands, spelled in any way the grammar reads, is read as the disjunction of its runs of "and", in any spelling and spacing of the connectives |
| `FilterPrecedence.TreeMeans` | pkg/filter/grammar.go:215-226 | that tree is true exactly when some run has all its operands true |
| `FilterPrecedence.Precedence` | pkg/filter/grammar.go:89-94 | a parsed chain of any operands means, under every truth assignment, the disjunction over maximal "and" runs of their conjunctions |
| `FilterLinear.StuckAnd` | pkg/filter/grammar.go:228-240 | where an "and" was given up, no "or" matches |
| `FilterLinear.GroupOnly` | pkg/filter/grammar.go:44-46 | an operand that opens a group can be nothing else |
| `FilterLinear.FilterDescends` | pkg/filter/grammar.go:37-58 | within a filter the operand parser is entered at strictly later positions each time, accepted or not |
| `FilterLinear.LinearParsing` | pkg/filter/grammar.go:60-83 | on every text the operand parser is entered at most once per position |
| `FilterParser.Context.Str` | pkg/filter/internal/peg/str.go:3-11 | the literal is taken, or the position stays |
| `FilterParser.Context.Keyword` | pkg/filter/internal/peg/fold.go:5-13 | the word is taken in any case, or the position stays |
| `FilterParser.Context.Space` | pkg/filter/internal/peg/space.go:3-15 | one or more spaces, or the position stays |
| `FilterParser.Context.Match` | pkg/filter/internal/peg/match.go:7-16 | a token of this length is taken, or the position stays |
| `FilterParser.Context.SubAttribute` | pkg/filter/grammar.go:193-207 | what the grammar says of the rest of the text; a dot without a name is given back |
| `FilterParser.Context.Operator` | pkg/filter/grammar.go:140-146 | the first operator that matches, in any case |
| `FilterParser.Context.LiteralValue` | pkg/filter/grammar.go:148-163 | the first kind of literal that matches; a string that does not decode is given back |
| `FilterParser.Context.PresenceExpr` | pkg/filter/grammar.go:125-131 | what the grammar says of the rest of the text |
| `FilterParser.Context.CompareExpr` | pkg/filter/grammar.go:132-136 | what the grammar says of the rest of the text |
| `FilterParser.Context.SkipNot` | pkg/filter/grammar.go:100-102 | the word and the spaces after it are taken, or the position stays |
| `FilterParser.Context.Connective` | pkg/filter/grammar.go:228-233 | spaces, the word and spaces are taken, or the position stays |
| `FilterParser.Context.AttributePath` | pkg/filter/grammar.go:165-186 | what the grammar says of the rest of the text, with the position moved back on failure |
| `FilterParser.Context.AttributeExpr` | pkg/filter/grammar.go:125-139 | the same for an attribute expression |
| `FilterParser.Context.Group` | pkg/filter/grammar.go:96-113 | the same for a group, with every position reset that the parser makes |
| `FilterParser.Context.ValuePathExpr` | pkg/filter/grammar.go:115-123 | the same for a value path |
| `FilterParser.Context.Atom` | pkg/filter/grammar.go:44-46 | the same for ordered choice between the operands; every entry is recorded |
| `FilterParser.Context.Conjunction` | pkg/filter/grammar.go:215-240 | the same for the operands of "and" |
| `FilterParser.Context.Filter` | pkg/filter/grammar.go:215-240 | the same for the operands of "or" |
| `FilterParser.Parse` | pkg/filter/grammar.go:60-83 | reads a whole filter: it returns a tree exactly when the text is a spelling of a filter that means the tree, and is linear in the text |
| `Folding.SameLeast` | pkg/patch/keys.go:43-48 | two characters have the same least cycle member exactly when they share a cycle, whatever the cycles are as long as they are finite |
| `Text.FoldsAgree` | pkg/core/object.go:44 | names whose characters share cycles are exactly those that fold to one string |
| `PatchObject.Key` | pkg/core/object.go:38-52 | the key equals the name under folding, and is the name itself when no key does |
| `PatchObject.KeyIsLeast` | pkg/core/object.go:38-52 | among several keys equal under folding, the least is meant |
| `PatchObject.GetSetSame` | pkg/core/object.go:21-32 | what is set is what is read |
| `PatchObject.GetSetOther` | pkg/core/object.go:21-32 | setting a name leaves every name that differs under folding alone |
| `PatchObject.GetSetFold` | pkg/core/object.go:21-32 | another spelling of a set name reads the new value, or still reads its own old one |
| `PatchObject.GetRemoveOther` | pkg/core/object.go:34-36 | removing a name leaves every name that differs under folding alone |
| `PatchObject.KeyOf` | pkg/core/object.go:38-52 | the search loop finds that key |
| `PatchObject.GetOf` | pkg/core/object.go:21-23 | reads the value under that key, or nothing |
| `PatchValue.EqualReflexive` | internal/value/compare.go:27-32 | every value equals itself, read as its type or not |
| `PatchValue.EqualSharesKey` | internal/value/set.go:95-125 | values that compare equal once read and folded, or are the same all the way down, have one bucket key, which is computed by another case split |
| `PatchValue.EqualTransitive` | internal/value/compare.go:27-32 | equality of values is transitive |
| `PatchValue.EqualBlank` | internal/value/compare.go:27-32 | equal values hold data alike |
| `PatchValue.TextsEqual` | pkg/core/attribute.go:132-150 | two texts of a string attribute are equal exactly when they are the same or, unless case counts, the same character by character in lower case |
| `PatchValue.UserNamesEqual` | pkg/core/attribute.go:138-142 | two prepared user names beyond ASCII are equal exactly when they are prepared to one text |
| `PatchValue.NormalMeans` | internal/value/identity.go:35-46 | the normal form of values as they are compared is the same exactly when they are equal |
| `PatchValue.CompositeMeans` | internal/value/identity.go:35-46 | without a sub-attribute "value", two elements count as one exactly when there are sub-attributes that clients write and read, other than "primary", and all of them are equal |
| `PatchValue.ValueMeans` | internal/value/identity.go:13-33 | with one, exactly when both have a value, the values are equal and, where clients set types, the types are equal or left out both times |
| `PatchValue.PrimaryKeepsIdentity` | internal/value/identity.go:13-46 | changing "primary" never changes which element an element is |
| `PatchValue.IdentityOf` | internal/value/identity.go:13-46 | the identity computed with loops is the one defined |
| `PatchValue.CompositeIdentityOf` | internal/value/identity.go:35-46 | the loop collects the folded identifying sub-attributes, in order |
| `PatchValue.PrimaryOf` | internal/value/value.go:58-61 | whether an element is an object with "primary" true |
| `PatchSet.ObjectsFind` | internal/value/set.go:86-93 | an identity stands for the first element that has it |
| `PatchSet.FoundIsContained` | internal/value/set.go:52-62 | looking an identity up finds what a scan by identity would |
| `PatchSet.BucketIsEnough` | internal/value/set.go:52-58 | searching the one bucket of a value answers as a scan of all elements would |
| `PatchSet.ValueSet.Add` | internal/value/set.go:41-50 | after an add the set is what building it from all elements would yield |
| `PatchSet.ValueSet.AddOne` | internal/value/set.go:41-50 | the same for one element, in either mode |
| `PatchSet.ValueSet.AddObject` | internal/value/set.go:86-93 | an object is stored under its identity, unless an earlier one has it |
| `PatchSet.ValueSet.PromoteFirst` | internal/value/set.go:73-79 | the stored element that is repeated becomes primary if the repeat is; identities stay |
| `PatchSet.ValueSet.Find` | internal/value/set.go:60-62 | the element stored under the identity |
| `PatchSet.ValueSet.Has` | internal/value/set.go:52-58 | answers as a linear scan of the elements, in either mode |
| `PatchSet.ValueSet.Admit` | internal/value/set.go:64-79 | a new element is added; a repeat is not, but passes on its primary flag |
| `PatchSet.UniqueItems` | internal/value/set.go:28-35 | dropping repeats in memory through the set yields what the definition says, writing only to kept elements |
| `PatchSet.UniqueOf` | internal/value/set.go:28-35 | the same on values |
| `PatchSet.FreshOf` | pkg/patch/index.go:29-31 | exactly the candidates a scan does not find, in order |
| `PatchUnique.UniqueKeepsFirsts` | internal/value/set.go:28-35 | the first of every group of repeats stays, in order; at most it becomes primary |
| `PatchUnique.UniqueSameMembers` | internal/value/set.go:28-35 | no repeats are left, and nothing counts as contained that was not before |
| `PatchUnique.UniqueIdempotent` | internal/value/set.go:28-35 | dropping repeats twice is dropping them once |
| `PatchUnique.UniqueKeepsPrimary` | internal/value/set.go:74-79 | whoever was primary still is, or is stood for by an element that now is |
| `PatchUnique.UniqueAddsNoPrimary` | internal/value/set.go:74-79 | nobody becomes primary when nobody was |
| `PatchUnique.FreshExactly` | internal/value/set.go:52-72 | of the candidates exactly those that the list does not hold are left, each as often as it was sent |
| `PatchUnique.FreshOfUnique` | pkg/patch/list_add.go:38-55 | leaving out what a list holds and dropping repeats can be done in either order |
| `PatchKeys.LeastOfCycle` | pkg/patch/keys.go:43-48 | for any function with finite cycles the loop around a cycle ends, at the least member of the cycle |
| `PatchKeys.FoldOf` | pkg/patch/keys.go:40-51 | the nested loop replaces every character by the least of its cycle, however long the cycles are |
| `PatchKeys.Keys.AddKey` | pkg/patch/keys.go:33-38 | the index stays exact, with the least key of every folded name |
| `PatchKeys.Keys.Resolve` | pkg/patch/keys.go:23-31 | the lookup by folded name answers as the linear search that compares names does |
| `PatchKeys.ShapedOf` | pkg/patch/writer.go:9-25 | a value of a multi-valued attribute becomes a list without repeats |
| `PatchKeys.Field` | pkg/patch/merger.go:47-62 | one member is gated and written under its key, or nothing changes |
| `PatchKeys.MergeInto` | pkg/patch/merger.go:34-62 | merging in place through the growing index yields what merging by search does, or fails where it fails |
| `PatchMutability.LocateFinds` | pkg/patch/patcher.go:143-173 | an operation only reaches an attribute that is defined and not readOnly |
| `PatchMutability.RemoveOneKey` | pkg/patch/remover.go:15-70 | so does a removal, or it takes that key away |
| `PatchMutability.MergeKeeps` | pkg/patch/merger.go:34-70 | a merge into a gated object leaves every sub-attribute equal |
| `PatchMutability.WriteKeeps` | pkg/patch/target.go:63-99 | a write that succeeds leaves an assigned immutable attribute equal, if it is singular or has no sub-attributes |
| `PatchMutability.RewriteKeeps` | pkg/patch/replacer.go:54-63 | so does replacing or dropping the values a filter selects |
| `PatchMutability.RemoveKeeps` | pkg/patch/remover.go:24-70 | so does removing inside an assigned immutable attribute of that kind |
| `PatchMutability.RemoveRefused` | pkg/patch/remover.go:44-54 | removing an assigned immutable attribute as a whole is refused |
| `PatchMutability.CarriedSame` | pkg/patch/carryforward.go:11-42 | filling left-out sub-attributes into a list without repeats from that very list changes nothing |
| `PatchMutability.WholeKeepsList` | pkg/patch/target.go:63-92 | a write without a filter that succeeds leaves an assigned immutable list of objects identical |
| `PatchMutability.PutRepeats` | pkg/patch/target.go:85-92 | a write that passes the gate of an assigned immutable sub-attribute, and promotes, repeats the very value that is held |
| `PatchMutability.NobodyDemoted` | pkg/patch/list_add.go:12-21 | a filtered write that opens nothing demotes nobody |
| `PatchMutability.WriteKeepsList` | pkg/patch/target.go:63-99 | a write that does not open an assigned immutable list of objects, as the list is, leaves every element with the same sub-attributes |
| `PatchMutability.RemoveKeepsList` | pkg/patch/remover.go:24-54 | nor does a removal that does not open it change them |
| `PatchMutability.PutBackElsewhere` | pkg/patch/target.go:102-106 | writing one container leaves the attributes of all others as they were |
| `PatchMutability.WriteStep` | pkg/patch/patcher.go:67-73 | one write touches no attribute but its target, no readOnly one, and no assigned immutable one unless it opens it |
| `PatchMutability.RemoveStep` | pkg/patch/patcher.go:75-91 | nor does one removal |
| `PatchMutability.MergeRootStep` | pkg/patch/patcher.go:93-132 | nor does a value without a path, in whatever order its members are walked |
| `PatchMutability.OperationStep` | pkg/patch/patcher.go:33-43 | nor does any operation, as it is written |
| `PatchMutability.RunStep` | pkg/patch/patcher.go:24-31 | nor does any successful run |
| `PatchMutability.ReadOnlySurvives` | pkg/patch/patcher.go:199-204 | a successful run leaves every readOnly attribute as it was, or unassigned with its emptied extension (section 7 of RFC 7643) |
| `PatchPruning.BlankStaysExactly` | pkg/patch/target.go:102-106 | every success of an operation on one attribute leaves this very value of another attribute in the same extension or resource, if and only if it is no extension, the value holds data or is none, or the operation cannot take the extension out |
| `PatchExamples.PrunedExample` | pkg/patch/target.go:102-106 | removing the last value of an extension takes a present, blank readOnly one with it |
| `PatchMutability.ImmutableSurvives` | pkg/patch/merger.go:71-77 | a successful run leaves every assigned immutable attribute equal, sub-attribute by sub-attribute when complex and element by element when a list, if none of its operations may open it (section 7 of RFC 7643) |
| `PatchMutability.ProtectedSurvives` | pkg/patch/merger.go:64-77 | a successful run, whatever its operations are, leaves every assigned immutable attribute equal that is singular or has no sub-attributes |
| `PatchMutability.UntouchedSurvives` | pkg/patch/patcher.go:24-31 | a successful run changes no attribute that none of its operations names |
| `PatchImmutable.ImmutableKeptExactly` | pkg/patch/merger.go:27-32 | for each operation word and path, and for all resources or those that hold simple values in sub-attributes: every success leaves an assigned immutable attribute unchanged, whatever the resource and the value, if and only if the word does not open what the path addresses |
| `PatchImmutable.WriteBreaks` | pkg/patch/filter_state.go:21-29 | where a write opens its target, there is a resource and a value with which the operation succeeds and changes the attribute, or demotes an element that it leaves out |
| `PatchImmutable.RemovalBreaks` | pkg/patch/remover.go:24-54 | where a removal opens its target, there is a resource which it changes |
| `PatchExamples.RemovalExample` | pkg/patch/remover.go:24-54 | removing "x.y" takes y out of the elements of the immutable list x |
| `PatchExamples.ReplacementExample` | pkg/patch/target.go:24-92 | replacing "x[y pr].y" changes y in the elements of the immutable list x |
| `PatchExamples.DemotionExample` | pkg/patch/list_add.go:12-21 | sending an immutable flag "primary" again, as it is, to the one element a filter selects sets the immutable flag of the other to false |
| `PatchImmutable.PlainRemoval` | pkg/patch/target.go:108-136 | a removal of "path.sub" without a filter keeps the list if and only if the sub-attribute is required or immutable |
| `PatchImmutable.PresentWrite` | pkg/patch/matcher.go:89-100 | a replacement at "path[sub pr].sub" keeps the list if and only if sub is immutable and is "primary" itself, or is not called so in any spelling and holds simple values; one at "path[sub pr]" never does |
| `PatchPrimary.WholeDemotes` | pkg/patch/target.go:42-49 | after a write without a filter of a primary value, every element still primary was written by it, unless it is an add to a list called "primary" |
| `PatchPrimary.FilteredDemotes` | pkg/patch/filter_state.go:39-47 | after a promoting write through a value filter, only selected elements are primary |
| `PatchPrimary.PromotionDemotes` | pkg/patch/patcher.go:67-73 | after any successful write of a primary value or of the flag of one, as a whole, through a filter or in an extension, every primary value of the attribute was written by it, unless it is an add to a list called "primary" |
| `PatchPromotion.AddDemotesExactly` | pkg/patch/primary.go:26-32 | adding a primary value to a list leaves nobody else primary, for every resource and value, if and only if the list is not called "primary", or can take no primary value beside another, being immutable or having a readOnly flag |
| `PatchPromotion.ReplaceDemotes` | pkg/patch/filter_state.go:39-47 | a replacement always does, whatever the attribute is called |
| `PatchExamples.TwoPrimaryExample` | pkg/patch/primary.go:26-32 | adding a primary value to a list called "primary" leaves two primary values |
| `PatchSubstitute.SubstitutePlaced` | pkg/patch/replacer.go:65-81 | with the value placed already, the unmatched elements stay, in order |
| `PatchSubstitute.SubstituteAtFirst` | pkg/patch/replacer.go:65-81 | else the value stands where the first match stood |
| `PatchSubstitute.KeepsIn` | pkg/patch/replacer.go:83-90 | whether an unmatched element equals the new value |
| `PatchSubstitute.SubstituteIn` | pkg/patch/replacer.go:65-81 | compacting the very array that is read yields the pure substitution; an immutable attribute keeps its old array |
| `PatchSubstitute.RewriteIn` | pkg/patch/replacer.go:54-63 | the gate after the substitution still compares the values from before |
| `PatchEffect.CarryForwardCarries` | pkg/patch/carryforward.go:11-42 | a replaced list keeps its elements as sent, and each takes over, from the stored element it counts as, exactly the readOnly and immutable sub-attributes that it leaves out and that one has |
| `PatchEffect.PutValueGives` | pkg/patch/target.go:63-92 | a value put under a name is refused exactly when it would change an immutable attribute or a part of one; else the name holds what it is to hold, and every other name what it held |
| `PatchEffect.MergeGives` | pkg/patch/merger.go:34-62 | after a merge each member that was named holds what it is to hold, in whatever order members are walked, and every other name reads as before |
| `PatchEffect.MergeRefused` | pkg/patch/merger.go:34-77 | a merge fails exactly when one of its members would be refused by what the object held at first |
| `PatchEffect.WholeGives` | pkg/patch/target.go:24-53 | a write of a whole attribute puts the value, merges the object, or adds to the list: the elements it held, without the flag exactly when a new one is primary, and then what it gains |
| `PatchEffect.SubGives` | pkg/patch/target.go:108-128 | a write of a sub-attribute needs an object or nothing there, changes that one member, and is refused exactly when it would change what is immutable |
| `PatchEffect.FilteredGives` | pkg/patch/filter_state.go:16-48 | a write through a filter changes exactly the selected objects, each like a write of its own; the others lose the flag exactly when the value takes it over |
| `PatchEffect.FilteredRefused` | pkg/patch/filter_state.go:16-26 | it fails when nothing is selected, and when one selected object would refuse the value |
| `PatchOutcome.StripCleans` | pkg/patch/target.go:184-198 | of what is sent exactly the readOnly members of its objects are taken out |
| `PatchOutcome.LocateExactly` | pkg/patch/patcher.go:143-162 | a path leads to a target exactly when its schema defines the attribute and the sub-attribute, neither is readOnly, and a filter stands at a list only and compiles |
| `PatchOutcome.LookupFirst` | pkg/core/attributes.go:11-18 | of the attributes defined the first whose name is equal under folding is found, and none exactly when there is no such |
| `PatchOutcome.BlankExactly` | internal/value/value.go:10-38 | a value counts as holding no data exactly when no leaf of it is a flag, a number, a text or a list with something in it |
| `PatchOutcome.OperationGives` | pkg/patch/patcher.go:33-73 | every successful add or replace with a path, in the resource or an extension, leaves at that attribute exactly what it is to leave, or nothing when that holds no data and the extension went |
| `PatchOutcome.WriteTakenExactly` | pkg/patch/target.go:85-92 | an add or replace without a filter is refused exactly when something else than an object stands in the way, or when it would change what is immutable |
| `PatchOutcome.SimpleValueReadsBack` | pkg/patch/writer.go:28-37 | a simple value added or put at a singular attribute is what is read there afterwards |
| `PatchOutcome.SimpleMemberReadsBack` | pkg/patch/writer.go:28-37 | the same at a sub-attribute, while every other member of the object reads as before |
| `PatchOutcome.ObjectReadsBack` | pkg/patch/merger.go:34-62 | each member of an object sent to a complex attribute that is not readOnly holds what was sent, or grew by it, and everything else reads as before |
| `PatchOutcome.ObjectTakenExactly` | pkg/patch/merger.go:27-77 | such an object is refused exactly when something else stands in the way or one of these members is refused |
| `PatchOutcome.ListReadsBack` | pkg/patch/target.go:80-82 | a replaced list holds the values sent without repeats, filled up from the elements it held |
| `PatchOutcome.ListGrows` | pkg/patch/list_add.go:12-55 | a list that is added to holds what it held, in order and without the flag exactly when a new value takes it over, and then the values sent that it did not hold, without repeats |
| `PatchOutcome.FilteredTakenExactly` | pkg/patch/filter_state.go:16-26 | a sub-attribute is written through a filter exactly when some element is selected and none of those refuses it |
| `PatchOutcome.ValuesTakenExactly` | pkg/patch/replacer.go:24-81 | selected simple values can only be replaced, by a value of the type, and unless the list is immutable and would change; the others stay in order and the value stands where the first one stood |
| `PatchOutcome.AttributeRemoval` | pkg/patch/remover.go:24-54 | a removed attribute is gone, and refused exactly when it is required or immutable and assigned |
| `PatchOutcome.ElementRemoval` | pkg/patch/remover.go:56-70 | the elements a filter selects go and the others stay in order; refused exactly when the attribute is required and none would stay or it is immutable; selecting none changes nothing |
| `PatchOutcome.MemberRemoval` | pkg/patch/remover.go:24-54 | a sub-attribute goes from the object, or from exactly the objects that are meant, unless one of them needs it |
| `PatchOutcome.RunsInOrder` | pkg/patch/patcher.go:24-31 | operations take effect one after the other, and the first that fails is the last |
| `PatchMembers.MemberIsWritten` | pkg/patch/patcher.go:93-113 | a member of a value without a path, if no other one touches its attribute, has the effect of a write of its own, whenever its turn comes |
| `PatchMembers.ExtensionMemberIsWritten` | pkg/patch/patcher.go:120-132 | so has a member of the object under the URI of a schema |
| `PatchMembers.WrittenReadsBack` | pkg/patch/patcher.go:93-132 | so a simple value in it that is put in place is what is read there afterwards |
| `PatchMembers.ReadOnlyMember` | pkg/patch/patcher.go:114-118 | a readOnly member of such a value is left out exactly when the resource itself, not an extension or a complex attribute, holds an equal value under its bare name, and is refused otherwise |
| `PatchExamples.RepeatedExample` | pkg/patch/patcher.go:114-118 | sending a readOnly value of an extension back as it is, is refused |
| `PatchIndex.CacheKeyInjective` | pkg/patch/index.go:38-45 | names have no colon, so no two lists share a key in the cache |
| `PatchIndex.CacheGrown` | pkg/patch/index.go:38-45 | a list that grows makes its indexes old, never wrong |
| `PatchIndex.CacheDemoted` | pkg/patch/list_add.go:23-35 | demotion in place leaves every kept index exact when elements are told apart by identity |
| `PatchIndex.PrimariesIn` | pkg/patch/index.go:19-27 | exactly the primary elements, in order |
| `PatchIndex.DemoteAll` | pkg/patch/list_add.go:23-27 | demoting the remembered elements demotes every primary element of the list and no other |
| `PatchIndex.Unset` | pkg/patch/primary.go:20-24 | the flag is set to false under the key it has |
| `PatchIndex.PromotesOf` | pkg/patch/primary.go:26-32 | whether any element is primary, for an attribute not named "primary" |
| `PatchIndex.Index.Extend` | pkg/patch/index.go:33-36 | the index is extended to what building it from the longer list would yield |
| `PatchIndex.Lists.Lookup` | pkg/patch/index.go:38-45 | the index found or built is what building it from the elements would yield |
| `PatchIndex.Lists.Begin` | pkg/patch/target.go:85-92 | the values to add and the verdict of the gate, through the index alone |
| `PatchIndex.Lists.RecordNow` | pkg/patch/list_add.go:57-63 | the index is extended by what was stored, and is exact for the list of now |
| `PatchIndex.Lists.DemotePrimaries` | pkg/patch/list_add.go:23-35 | all old primary elements are demoted, and the index knows the new ones |
| `PatchIndex.Lists.Settle` | pkg/patch/list_add.go:57-63 | afterwards every kept index is exact again, or none is kept |
| `PatchIndex.Lists.AddTo` | pkg/patch/target.go:24-53 | an add through cached indexes yields what the list and the values alone say, and is refused exactly when the gate refuses |
| `PatchIndex.Lists.Rewrite` | pkg/patch/replacer.go:54-63 | the step of any other operation: whatever it makes of the lists, no index is kept |
| `PatchIndex.Lists.Prune` | pkg/patch/target.go:102-106 | taking out an extension whose lists are empty leaves the indexes exact |
| `PatchIndex.Lists.Do` | pkg/patch/patcher.go:33-43 | one step comes to what it yields from the lists alone, or is refused |
| `PatchIndex.Lists.Run` | pkg/patch/patcher.go:24-31 | a run of steps over shared elements and cached indexes comes to what rebuilding every index each time would |
| `PatchIndex.AddedIsWritten` | pkg/patch/list_add.go:50-55 | the list an add yields is the one the engine without a cache writes |
| `PatchIndex.OnlyAddedPrimary` | pkg/patch/list_add.go:12-35 | after an add of a primary value whoever is primary came with it, if and only if the list is not called "primary" or held nobody primary |
| `PatchTransparency.ListsAdded` | pkg/patch/target.go:24-53 | a list add changes its one list among all lists of the resource and its extensions |
| `PatchTransparency.ListsPruned` | pkg/patch/target.go:102-106 | if the extension then holds no data, exactly its lists go, all of them empty |
| `PatchTransparency.AddLeads` | pkg/patch/list_add.go:50-63 | a list add of the engine is an add step, followed by a pruning step exactly when the engine took the extension out |
| `PatchTransparency.RootLeads` | pkg/patch/patcher.go:93-132 | a value without a path is the steps of its members, in the order they are walked |
| `PatchTransparency.StepsAreOperations` | pkg/patch/patcher.go:24-31 | the steps of a successful run of operations lead from the lists of the resource to the lists of the result |
| `PatchTransparency.RunOperations` | pkg/patch/patcher.go:24-31 | so the cached indexes, taken through those steps, leave the very lists that the engine without a cache leaves |

## Left out

- Listing, filtering, sorting and paging of the store: mostly one-branch facts.
- The order of listed members: the store sorts them, the model lists them as a bag.
- JSON bytes of a stored body: a body is its plain values and its soft references, so decoding errors and the removal of emptied extensions from a body after an unlink are not modelled.
- How texts are read: PRECIS preparation of user names, lower case, base64, xsd:dateTime and number syntax are arbitrary functions, so nothing is said about which texts they take.
- Unicode's fold table: any function with finite cycles stands for it.
- Native numbers in stored bodies: a number is its spelling, read as its attribute's type when it is compared.
- PatchEffect.MergeGives: says nothing of a member that the same value names twice in different spellings, as which of the two is walked last is left open.
- PatchMembers.MemberIsWritten: for members whose attribute no other member of the same value touches, for the same reason.
- PatchOutcome.AttributeRemoval: reads nothing afterwards if the name was spelled in one way only; of several spellings the removal takes the one that the name stands for.
- StorePointers.CreateKeepsPointersExactly: for documents as the encoder makes them; the form of an id is any predicate on texts.
- The mutex of the store: each operation is one atomic step.
- Validation hooks and schema checks of the service: a client's change is an arbitrary function that may refuse.
- Typed structs and embedding of derived references into bytes: a record is a body with its listings.
- The size cap of filters and byte positions: texts are sequences of characters, of any length, and a parse error carries no position.
- Combinators of the parser as first-class values: each rule is a method or function of its own, with the token values built directly.
- Budgets of PATCH requests: they only refuse.
- PATCH without any schema: it gates nothing.
- What a value filter of a PATCH path compiles to: an arbitrary predicate, or a refusal.
- PatchMutability.ImmutableSurvives: for attributes as section 2.3.8 of RFC 7643 lets them be defined, with no complex attribute inside a complex one except a list in a singular one, on resources that hold an object or a list where the schema says so; inside the elements of a list an unassigned value and none are the same, as section 2.5 of RFC 7643 has it.
- PatchMutability.RunStep: needs names that no extension id equals under folding, and one spelling of each extension id in the resource.
- PatchTransparency.StepsAreOperations: for resources and extensions that spell each name once, which every operation keeps, and attribute names without a character that folds like a colon; a refused operation ends the run there, with nothing said of the lists.
- PatchIndex.Lists.AddTo: looks the index up once where the code does three times, as the later lookups find the same one; names have no colon, as the grammar has it.
- PatchEngine.PutSelected: the values that left-out sub-attributes are filled from are those before the write, where the code sees elements that the same write has changed already (`pkg/patch/target.go:80`); this shows for multi-valued complex sub-attributes only.
- PatchEngine: on values, except for the parts named above; failing operations leave no partial result, as atomicity is left to the caller there too.
- HTTP, authentication, projection, configuration, and the test harnesses.
