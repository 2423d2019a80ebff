# A model of the IEC 61850 client and its proofs

The client sits between Go callers and the C library libiec61850. This project models the parts of it that
have logic of their own, and proves what they promise. Values of the C library (`MmsValue*`) are trees with
scalars, structures, arrays and null children; calls into the library are parameters (what the server answers,
whether an allocation succeeds) or recorded history (what was created, destroyed, sent or requested).

- `Mms.dfy`: values on both sides of the language border.
- `FlatCodec.dfy`, `ReportBridge.dfy`, `ReportBuilder.dfy`: a received report is flattened by C into tokens in a
  malloc'd array and parsed back by Go. A field of a token is undefined until written, and reading an undefined
  one yields a value of its own, so the round trip also shows that nothing uninitialised is read.
- `Resolvers.dfy`: the plain and the optimised decoder of the read path, and the read path against the report path.
- `SclTypes.dfy`, `SchemaCompiler.dfy`, `SchemaReads.dfy`: the memoised type lookup, the compilation of a data
  set into index pairs, and the two interpreters of the result. `CompiledReads.dfy`: compiling and reading together.
- `Subscriptions.dfy`: subscribe, unsubscribe and report callbacks as atomic steps of any number of threads over
  one registry. `CounterWrap.dfy`: the bound on the number of subscriptions is sharp. `IdOwnership.dfy`: an id
  belongs to one thread at a time. `SubscriptionDiscipline.dfy`: the callers' discipline under which no report is
  lost. `SubscriptionLosses.dfy` and `SubscriptionSilences.dfy`: exactly which steps, under any interleaving, leave an
  installed handler without its entry, and an entry without its installed handler. `Retirement.dfy`: once a
  subscription's entry is deleted and no callback holds a copy of it, nothing is delivered under its id again.
  `SubscriptionCalls.dfy`: the calls made one at a time, on a registry object. `SubscriptionRuns.dfy`: such calls
  are runs of the step protocol. `CandidateCalls.dfy`: subscribing with candidates is all or nothing.
- `ControlCache.dfy`: ownership of control clients and their reusable values over runs of operate and clear.
- `Browser.dfy`: the mutually recursive directory browse, its result and its cost. `BrowserPaths.dfy`: every way
  through the result, and the order of the requests.

Methods follow the loops of the source and are proved against functions; the properties are lemmas about those
functions and about runs. The order in which Go visits a map is a parameter. A nil Go slice and an empty one are
one value.

## Where the code does less than its comments say

The model follows the code. Each point is stated exactly, for all inputs.

- `ReadDataSetFlat` unwraps the first element of every structure, not only of one-element ones
  (`iec61850/iec61850_client.go:524-529`), stops at no null element, and looks into arrays. It agrees with the slow
  read exactly on the members of `LeafAgrees`; `LeafReadsDiffer` is a member on which the two differ.
- The key of the type memo is a bare concatenation, so the memo is transparent exactly for the lookups whose keys
  tell them apart; four-character logical node classes and names without a slash are enough. `MemoAnswersWrongly`
  gives two lookups and templates for which it is not.
- The leaves of a data object are numbered by the entry's constraint, the older name search by MX and ST together:
  the names coincide exactly if that constraint is the only one of the two before each attribute that has it.
  `LeafNamedDifferently` is a list of two attributes for which they do not.
- `UnsubscribeReport` removes one entry with the reference, of whatever client comes first: it removes all of them
  exactly when there is at most one (`UnsubscribeLeavesAnEntry` is a run with two), and leaves other clients' reports
  alone exactly when no other client has a handler installed for the block (`SharedBlockLosesReports`). With calls on
  several threads, an installed handler loses its entry exactly when an unsubscribe deletes the entry of an installed
  handler, or a subscribe installs a handler whose entry an unsubscribe has deleted meanwhile.
- The library keeps one C handler per client and block. A subscription whose entry stays registered is silenced
  exactly when a subscribe installs over it, when a roll back uninstalls while it is installed, or when an unsubscribe
  of its client and block ends by deleting another entry; each of them unless a call on another thread is about to
  install it, or is an unsubscribe of its client and block that has yet to delete. This holds under any interleaving.
  A second subscription of a block silences the first one whether the server accepts it
  (`AcceptedResubscriptionSilences`) or refuses it (`RefusedResubscriptionSilences`); two overlapping calls that start
  with no handler installed may leave an entry silent too (`OverlappingRollBackSilences`).
- Hence a candidate call that fails, made without interference, leaves the installed handlers as they were exactly if
  this client has none for any reference tried, whatever the replies; and the registry exactly if none of the next
  ids is in use, which holds in every run until the counter has gone round. The counter itself advances.
- `DirectWithNormalSecurityInt32` operates a control that is no MMS_INTEGER exactly when the control is cached.

## Model

| member | source | states |
|---|---|---|
| Mms.ElementsUntilNull | iec61850/report_bridge.c:102-107 | asking for element after element until one is null visits exactly the members and stops behind the last |
| Mms.Visible | iec61850/iec61850_client.go:325-329 | the elements before the first null one: a prefix without nulls that ends at a null or at the end |
| FlatCodec.RoundTrip | iec61850/iec61850_report.go:203-239 | wherever a value's tokens stand in any token sequence, extraction there yields the value's Go view and leaves the cursor just past them |
| FlatCodec.RoundTripItems | iec61850/iec61850_report.go:226-236 | the tokens of a list of elements followed by an end marker of either kind extract to the views of the non-null elements, the marker consumed |
| FlatCodec.TokenRead | iec61850/iec61850_report.go:203-239 | on any tokens, what is read from a token of each type: numbers as they are, or modulo 2^32, booleans as non-zero, the text of a string and the empty text of a NULL one, nil for every other type; a field never written shows as such |
| FlatCodec.ScalarArrives | iec61850/report_bridge.c:49-91 | every scalar of a member, strings of each kind and NULL ones included, arrives in Go with its own content |
| FlatCodec.ElementsArrive | iec61850/report_bridge.c:71-87 | a structure or array arrives as the list of its non-null elements, in order, each as it would arrive alone |
| FlatCodec.OpenedAreItems | iec61850/iec61850_report.go:226-236 | on any tokens, what a start marker opens is read item by item, each starting where the one before ended, to the first end marker met there or the end |
| FlatCodec.SelfDelimiting | iec61850/report_bridge.c:49-91 | two streams agree exactly if they begin with the same value, null elements aside, and go on alike; then Go sees the same value |
| FlatCodec.TokensTellTheValue | iec61850/report_bridge.c:49-91 | flattening forgets the null elements at every depth and nothing else: equal tokens exactly if equal values without them |
| FlatCodec.ViewIsDeterminate | iec61850/report_bridge.c:53-90 | no view contains a value read from an undefined field; with the round trip, every field the extractor reads was written for that token |
| FlatCodec.Extract | iec61850/iec61850_report.go:203-239 | on every token sequence extraction advances while tokens remain and never passes the end |
| FlatCodec.ExtractIsLocal | iec61850/iec61850_report.go:203-239 | extraction depends only on the tokens it consumes, on every token sequence |
| FlatCodec.MarkerKindsDoNotMatter | iec61850/iec61850_report.go:226-236 | structure and array markers are interchangeable to the extractor on every token sequence, even mismatched ones |
| FlatCodec.EntriesPartition | iec61850/iec61850_report.go:188-195 | however malformed, the tokens are cut into consecutive non-empty spans that cover them, and each entry is what its own span extracts to |
| FlatCodec.EntryValueAt | iec61850/iec61850_report.go:188-195 | the entry values are the extractions at the span starts |
| FlatCodec.EntriesOfMembers | iec61850/iec61850_report.go:188-195 | on the tokens of non-null members the entries are the members' views, one each, in order |
| ReportBridge.CountMmsElements | iec61850/report_bridge.c:35-47 | the counting pass returns the number of tokens the filling pass has to write |
| ReportBridge.FlattenMmsValue | iec61850/report_bridge.c:49-91 | in place: whatever the room, exactly a prefix of the value's tokens is assigned from the cursor on, field by field, nothing else changes, and the cursor ends behind it |
| ReportBridge.FlattenElements | iec61850/report_bridge.c:78-82 | the loop over the elements writes their tokens one after the other |
| ReportBridge.FlattenReportDataSet | iec61850/report_bridge.c:93-131 | the two passes agree: no array exactly if there is no member or malloc fails, otherwise a full array of exactly the members' tokens, none cut off |
| ReportBridge.CountPass | iec61850/report_bridge.c:100-107 | the count is that of the members up to the first null one |
| ReportBridge.FillPass | iec61850/report_bridge.c:120-127 | the same members are written |
| ReportBuilder.ExtractFlatValue | iec61850/iec61850_report.go:203-239 | the cursor-moving extractor computes the extraction function on every token sequence |
| ReportBuilder.BuildEntries | iec61850/iec61850_report.go:184-195 | on any tokens: one entry per span, with reason code number i if the report has reasons |
| ReportBuilder.BuildReport | iec61850/iec61850_report.go:163-198 | from library report to Go report: one entry per member up to the first null one, entry i with member i's value and reason i, however deep the members, and no undefined memory read |
| ReportBuilder.ReportOf | iec61850/iec61850_report.go:163-198 | reference, data set name, sequence number and timestamp, each present or absent, and for each entry the member's value and its own reason code, or 0 without reasons |
| Resolvers.ResolveValue | iec61850/iec61850_client.go:184-219 | the plain decoder computes the resolved value for every tree and either flag |
| Resolvers.DigIntoStructure | iec61850/iec61850_client.go:319-337 | the elements of a structure up to the first null one; nothing of an array |
| Resolvers.ResolveValueInline | iec61850/iec61850_client.go:223-269 | the optimised decoder sets the slot to the same resolved value and keeps its type |
| Resolvers.DigIntoStructureOptimized | iec61850/iec61850_client.go:340-367 | the same members as the plain version, each written into the slot last appended |
| Resolvers.ReadAs | iec61850/iec61850_client.go:184-219 | what a read yields for each kind of value: scalars and strings their content, zero for times and bit strings left out, the typed elements of a structure up to the first null, an empty list for every array |
| Resolvers.ResolvedMemberAt | iec61850/iec61850_client.go:319-337 | member i of the result is element i with its type; the result ends exactly at the first null or the end |
| Resolvers.ReadDataSetValues | iec61850/iec61850_client.go:369-412 | slot i holds the type and resolved value of member i; nothing if the request fails |
| Resolvers.DecodersAgree | iec61850/iec61850_report.go:203-239 | with type tags dropped the read path and the report path give the same value exactly if there is no octet string, nothing after a null element, only nulls in arrays, and no time or bit string left out |
| SclTypes.DataSetDetail.GetDOType | iec61850/scl_xml/scl.go:33-74 | the lookup answers from the cache or by first-match search, and caches what it found |
| SclTypes.LookupIsFirstMatch | iec61850/scl_xml/scl.go:50-73 | of the node types that fit by name or class only the first is searched, in it the first data object of the name counts, and of the types with its id the first is found; an empty id is looked up like any other |
| SclTypes.MemoTransparency | iec61850/scl_xml/scl.go:33-74 | a sequence of lookups is answered as without a cache, for all templates, exactly if the keys tell the queries apart |
| SclTypes.AnswersArePlain | iec61850/scl_xml/scl.go:33-74 | on given templates a sequence of lookups is answered as without a cache exactly if, whenever search finds a type for one, it finds the same for every later one with its key |
| SclTypes.KeyInjective | iec61850/scl_xml/scl.go:36-40 | with four-character classes and slash-free names the concatenated key is injective |
| SclTypes.WellFormedLookups | iec61850/scl_xml/scl.go:33-74 | hence such lookups, in any order from an empty cache, return what the plain search returns |
| SclTypes.Separator | iec61850/scl_xml/scl.go:36-48 | for any two queries with one key some templates hold a type, with any attributes, for the first and none for the second |
| SclTypes.MemoAnswersWrongly | iec61850/scl_xml/scl.go:36-48 | two different queries with one key, and templates under which the second is answered with the first one's type instead of none |
| SchemaCompiler.BuildDataSetSchema | iec61850/iec61850_schema.go:24-59 | the compilation through the stateful lookup produces the compiled leaves and leaves the cache the lookups leave |
| SchemaCompiler.AppendDOLeaves | iec61850/iec61850_schema.go:43-55 | one leaf per attribute with the entry's constraint, numbered 0 to k-1 |
| SchemaCompiler.MatchingSelects | iec61850/iec61850_schema.go:44-55 | the attributes compiled are those with the constraint, each once, in definition order |
| SchemaCompiler.CompiledPath | iec61850/iec61850_schema.go:27-56 | whatever the cache says, a leaf's path is IED name, ldInst, "/", prefix, lnClass, lnInst, ".", doName, "." and a name, the daName if there is one |
| SchemaCompiler.LeafPath | iec61850/iec61850_schema.go:27-56 | by plain search that name is the attribute's at the leaf's place among those of the data object's type that have the entry's constraint |
| SchemaCompiler.LeafIsThere | iec61850/iec61850_schema.go:27-56 | and there is such a leaf for every daName and for every such attribute |
| SchemaCompiler.CompilationIgnoresCache | iec61850/iec61850_schema.go:43 | if cache and keys are sound, the leaves are those of the plain search |
| SchemaCompiler.FreshCompilation | iec61850/iec61850_schema.go:24-59 | from an empty cache the compiled leaves are those of the plain search, under all templates, exactly if the keys tell the looked-up types apart |
| SchemaCompiler.WellFormedCompilation | iec61850/iec61850_schema.go:24-59 | in particular for well-formed entries |
| SchemaCompiler.LeavesAreTheLocations | iec61850/iec61850_schema.go:27-56 | a leaf is produced exactly if it names a whole member, or the DAIdx-th attribute with the entry's constraint |
| SchemaCompiler.LeavesAreSorted | iec61850/iec61850_schema.go:27-56 | leaves come in strictly increasing order of member and attribute index |
| SchemaCompiler.SortedListIsUnique | iec61850/iec61850_schema.go:27-56 | those two facts determine the schema |
| SchemaCompiler.RankSelect | iec61850/iec61850_schema.go:44-55 | the attribute at position i with the constraint is the one numbered by how many come before it |
| SchemaCompiler.FindDAName | iec61850/iec61850_client.go:414-430 | the older search returns the name of the index-th MX or ST attribute, or nothing |
| SchemaCompiler.NameIsOfMeasured | iec61850/iec61850_client.go:414-430 | the older search counts the attributes with constraint MX or ST and no others, and finds nothing beyond them |
| SchemaCompiler.PathsMatchFindDAName | iec61850/iec61850_client.go:414-430 | for attributes with proper distinct names, all leaf paths end in the name the older search gives for their index exactly if, before each attribute with the entry's constraint, that constraint is the only one of MX and ST |
| SchemaCompiler.LeafNamedDifferently | iec61850/iec61850_schema.go:44-55 | attributes a/ST and b/MX compiled for MX: the only leaf is for b, under index 0, and the older search names it a |
| SchemaCompiler.NumberingsAgree | iec61850/iec61850_client.go:414-430 | both numberings yield the same name under every index, those beyond the last included, exactly if the attributes with the constraint are the MX and ST ones |
| SchemaReads.ApplySchema | iec61850/iec61850_schema.go:66-92 | the caller's map after writing, leaf by leaf, the values found |
| SchemaReads.ReadDataSetFlat | iec61850/iec61850_client.go:493-536 | the same for the direct reader; a failed request leaves the map alone |
| SchemaReads.PrimitiveAs | iec61850/iec61850_client.go:540-567 | what the direct reader makes of each kind of value: nil of structures, arrays and octet strings, an unsigned zero of times and bit strings left out |
| SchemaReads.AppliedAs | iec61850/iec61850_schema.go:66-92 | exactly when the slow reader writes for a leaf, and what: only a list of exactly one gives way to its element |
| SchemaReads.FlatAs | iec61850/iec61850_client.go:506-533 | exactly when the fast reader writes for a leaf, and what: the first element of every structure that has one |
| SchemaReads.FilledContent | iec61850/iec61850_schema.go:66-92 | a written path holds the value of its last leaf that has one, every other key is untouched |
| SchemaReads.FilledTwice | iec61850/iec61850_schema.go:66-92 | applying the same values again changes nothing |
| SchemaReads.LeafReads | iec61850/iec61850_client.go:506-533 | for one leaf the fast and the slow reader write the same exactly on the members of LeafAgrees |
| SchemaReads.LeafReadsDiffer | iec61850/iec61850_client.go:524-529 | a member on which they differ: a structure of a structure of two numbers, read as both numbers by one and as the first by the other |
| SchemaReads.FastRefinesSlow | iec61850/iec61850_client.go:493-567 | if all leaves agree, both readers turn any map into the same map, up to the integer type of zeros left out |
| SchemaReads.RefinementIsExact | iec61850/iec61850_client.go:493-567 | and only then, if no two leaves share a path |
| CompiledReads.PathsAreDistinct | iec61850/iec61850_schema.go:28-35 | if dots only separate, the compiled paths are distinct exactly if no attribute of a data object is compiled twice |
| CompiledReads.OnePartApart | iec61850/iec61850_schema.go:28-29 | two dot-free entries that differ in one part only, such as lnInst, have no path in common |
| CompiledReads.AttributeIsElement | iec61850/iec61850_schema.go:66-92 | after compiling through a sound cache, reading and applying, the path of attribute j of entry i holds element j of member i, one level of a one-element structure unwrapped |
| CompiledReads.AttributeIsMember | iec61850/iec61850_schema.go:74-77 | and the path of an entry that names an attribute holds the member itself |
| CompiledReads.WellFormedIsSound | iec61850/scl_xml/scl.go:36-40 | a data set just loaded is sound if its classes have four characters and its names no slash |
| CompiledReads.CompileReadApply | iec61850/test/schema_flat_test.go:213-241 | the three calls in a row fill the caller's map with the compiled leaves of the decoded values, or leave it alone if the request fails; a sound cache stays sound, and with distinct paths every element and member is then found under its path |
| Subscriptions.IdsCollide | iec61850/iec61850_report.go:287 | two draws of the 32-bit counter give one id exactly if they are a multiple of 2^32 apart |
| Subscriptions.IdsAreInt32 | iec61850/iec61850_report.go:139 | every id is a signed 32-bit integer, equal to the count of draws up to a multiple of 2^32 |
| Subscriptions.StepStaysRouted | iec61850/iec61850_report.go:150-161 | every atomic step of every thread keeps the routing facts |
| Subscriptions.ReportsReachTheirSubscriber | iec61850/iec61850_report.go:150-161 | in every run with at most 2^32 subscriptions a report reaches the handler, with the reference, of the one subscription that drew its id, made by this client for this block |
| CounterWrap.OneTooMany | iec61850/iec61850_report.go:287-290 | a run with 2^32 + 1 subscriptions hands a client's report to another subscription's handler |
| IdOwnership.RunStaysOwned | iec61850/iec61850_report.go:285-303 | in every run each id is held by at most one subscribe call, and is absent from the registry while that call has not registered it or has deleted it |
| Retirement.DeletionRetires | iec61850/iec61850_report.go:295-303 | deleting an entry, in a roll back or an unsubscribe, retires its id exactly if no callback has looked it up without having called it yet |
| Retirement.StepStaysRetired | iec61850/iec61850_report.go:285-303 | no step of any thread registers a retired id again or gets hold of its entry |
| Retirement.NothingAfterRetirement | iec61850/iec61850_report.go:150-161 | once an id is off the registry and nobody holds its entry, in no continuation of the run within 2^32 subscriptions is anything delivered under that id |
| SubscriptionDiscipline.StepStaysOrderly | iec61850/iec61850_report.go:285-303 | every disciplined step keeps each block's registered and installed handlers in the shape of the call at work on it |
| SubscriptionDiscipline.InstalledIsRegistered | iec61850/iec61850_report.go:285-303 | in every state of a disciplined run an installed handler is registered for the same block, except between the two steps of its roll back |
| SubscriptionDiscipline.QuietBlocksMatch | iec61850/iec61850_report.go:359-368 | when no call works on a block, its registered and its installed handler are the same, at most one |
| SubscriptionLosses.StepLosesExactly | iec61850/iec61850_report.go:285-303 | from a state with nothing lost, a step of any thread leaves an installed handler without entry exactly if it installs an id that is not registered, or an unsubscribe's deletion hits an installed id |
| SubscriptionLosses.RunLosesExactly | iec61850/iec61850_report.go:359-368 | under any interleaving, no state of a run has lost an entry exactly if no step of the run is one of those two |
| SubscriptionLosses.DisciplinedNeverLose | iec61850/iec61850_report.go:285-303 | runs that keep to the discipline take no such step |
| SubscriptionSilences.StepSilencesExactly | iec61850/iec61850_report.go:285-303 | from a state where every registered id is installed for its client and block, or is about to be, or is being unsubscribed there, a step of any thread ends that exactly if it installs over another registered id, rolls back while a registered id is installed, or ends an unsubscribe by deleting an entry while another of its client and block stays, not installed, each with no other thread to excuse the id |
| SubscriptionSilences.RunSilencesExactly | iec61850/iec61850_report.go:250-306 | under any interleaving, no state of a run has silenced a registered id exactly if no step of the run is one of those three |
| SubscriptionSilences.DisciplinedNeverSilence | iec61850/iec61850_report.go:285-303 | runs that keep to the discipline take no such step |
| SubscriptionSilences.HarmlessRunsMatch | iec61850/iec61850_report.go:359-368 | a run without losing and silencing steps leaves, for each block no call is at work on, exactly the registered ids installed, each for its own client |
| SubscriptionRuns.SharedBlockLosesReports | iec61850/iec61850_report.go:362-367 | without the discipline: two clients on one block, one unsubscribes, and the other's installed handler is left without entry, no call being under way |
| SubscriptionRuns.OverlappingCallsLoseReports | iec61850/iec61850_report.go:285-293 | nor may calls overlap: an unsubscribe between registering and installing leaves an installed handler without entry, no call being under way |
| SubscriptionRuns.RefusedResubscriptionSilences | iec61850/iec61850_report.go:296-302 | nor may a client subscribe twice: a refused second subscription leaves the first one's entry with no handler installed |
| SubscriptionRuns.AcceptedResubscriptionSilences | iec61850/iec61850_report.go:287-293 | an accepted second subscription takes the handler's place: both entries stay, only the second is installed |
| SubscriptionRuns.OverlappingRollBackSilences | iec61850/iec61850_report.go:295-303 | two overlapping calls that start with no handler installed: the refused one's roll back uninstalls the accepted one's handler |
| SubscriptionRuns.UnsubscribeLeavesAnEntry | iec61850/iec61850_report.go:359-368 | a block accepted twice for one client and then unsubscribed: one entry is left, whichever was deleted, and nothing is installed |
| SubscriptionRuns.SubscribeRuns | iec61850/iec61850_report.go:250-306 | a subscribe call made alone is a run of the step protocol with the sequential effect |
| SubscriptionRuns.UnsubscribeRuns | iec61850/iec61850_report.go:345-369 | so is an unsubscribe call, for each of its outcomes |
| SubscriptionRuns.CallbackRuns | iec61850/iec61850_report.go:150-161 | a callback made alone is a run with exactly one delivery, with the registered entry, if the installed id is registered, and none otherwise |
| SubscriptionRuns.LookedUpIsDelivered | iec61850/iec61850_report.go:150-161 | whatever other threads do after the lookup, a report whose id was registered then is delivered with the entry found |
| SubscriptionCalls.ReportRegistry.GoReportCallback | iec61850/iec61850_report.go:150-161 | an unknown id is ignored; a known one calls its handler with the whole report: its entry's reference, data set, sequence number, timestamp and decoded members |
| SubscriptionCalls.ReportRegistry.SubscribeReport | iec61850/iec61850_report.go:250-306 | the effect of one call on counter, registry and installed handlers for each answer of the server |
| SubscriptionCalls.ReportRegistry.UnsubscribeReport | iec61850/iec61850_report.go:345-369 | some one entry with the reference is deleted, the client's handler uninstalled, nothing else |
| SubscriptionCalls.ReportRegistry.SubscribeReportWithCandidates | iec61850/iec61850_report.go:320-341 | base and base+"01" are tried in order, the first accepted is chosen, the attempts before it are rolled back, and the first 20 failures are kept |
| SubscriptionCalls.AttemptsAt | iec61850/iec61850_report.go:326-333 | attempts 2i and 2i+1 are candidate i and candidate i with "01" |
| SubscriptionCalls.FirstTwentyMessages | iec61850/iec61850_report.go:324-336 | the messages kept are those of the first 20 failed attempts, or of all if fewer |
| CandidateCalls.TriesFailBefore | iec61850/iec61850_report.go:326-337 | the attempt chosen is accepted and all before it failed |
| CandidateCalls.AfterFailures | iec61850/iec61850_report.go:295-303 | what failed attempts leave: the counter advanced, the drawn ids and the enabled blocks removed |
| CandidateCalls.NothingOnFailure | iec61850/iec61850_report.go:320-341 | whatever the replies, a failed candidate call leaves the registry as it was exactly if none of the next ids is in use, and the installed handlers exactly if this client has none for any reference tried |
| CandidateCalls.FailureLeavesRegistry | iec61850/iec61850_report.go:320-341 | in every reachable state with room on the counter, a failed candidate call leaves the registry as it was |
| CandidateCalls.SuccessAddsOneEntry | iec61850/iec61850_report.go:320-341 | in every such state a successful one adds exactly one entry, under a free id for the chosen reference, and touches only the installed handlers of the references tried |
| CandidateCalls.AttemptsRun | iec61850/iec61850_report.go:320-341 | the attempts, made without interference, are a run of the step protocol |
| SubscriptionCalls.UnsubscribeKeepsOthers | iec61850/iec61850_report.go:362-367 | an unsubscribe leaves no installed handler without entry, in any map order, exactly if no other client has the block installed |
| SubscriptionCalls.UnsubscribeRemovesAll | iec61850/iec61850_report.go:343-369 | it removes all entries of the block exactly if there is at most one |
| ControlCache.ControlObjects.GetOrCreateControlEntryLocked | iec61850/iec61850_control.go:36-60 | a cached client is reused; else one is created, and cached or, if an integer is required and missing, destroyed |
| ControlCache.ControlObjects.DirectWithNormalSecurity | iec61850/iec61850_control.go:65-144 | what the three operate methods do to cache and library with every early return, exactly when each error is returned, and that otherwise the value asked for is sent with the cached client and value object, or the new ones |
| ControlCache.SendsExactlyWhenGranted | iec61850/iec61850_control.go:36-144 | for every kind of value: a call sends exactly if its client is cached or can be created and passes the integer check, and its value is cached or can be allocated; what is cached is what is used |
| ControlCache.ControlObjects.ClearControlObjectCache | iec61850/iec61850_control.go:17-32 | every cached client and value is destroyed and the cache emptied |
| ControlCache.EverythingIsOwned | iec61850/iec61850_control.go:17-144 | in every run each client and each value ever created is either cached under its reference or destroyed, never both, never destroyed twice |
| ControlCache.ClearLeavesNothing | iec61850/iec61850_control.go:17-32 | after a clear everything ever created has been destroyed exactly once |
| ControlCache.OneLiveClient | iec61850/iec61850_control.go:36-60 | at most one client per reference is alive |
| ControlCache.SendsAreLive | iec61850/iec61850_control.go:79-84 | whatever is operated is a live client of its reference with a live value |
| ControlCache.TypesMatch | iec61850/iec61850_control.go:73-79 | in every run values are set only as their own type exactly if no reference is operated by two methods between two clears |
| ControlCache.IntegerCheckSkippedOnlyOnHits | iec61850/iec61850_control.go:40-55 | in every run, whatever the integer method operates is an integer control unless another method had cached the client |
| ControlCache.IntegerCheckSkipped | iec61850/iec61850_control.go:90-97 | the integer method operates a non-integer control exactly if that control is already cached |
| ControlCache.IntegerCheckSkippedInRun | iec61850/iec61850_control.go:40-42 | a run in which that happens, with a boolean value |
| Browser.IedClient.BrowseDataAttributesSCL | iec61850/iec61850_client.go:649-677 | the attributes found and the requests made, errors included |
| Browser.IedClient.BrowseSDISCL | iec61850/iec61850_client.go:679-707 | the same for sub-elements, each browsed twice |
| Browser.DAIsReproduce | iec61850/iec61850_client.go:649-677 | following the result through attributes first gives the readable subtree |
| Browser.SDIsReproduce | iec61850/iec61850_client.go:679-707 | so does following it through sub-elements only |
| BrowserPaths.EveryWayReproduces | iec61850/iec61850_client.go:649-707 | at every depth and however DAI and SDI elements alternate, a way through the result exists exactly if it leads down the readable directory, never from DAI to DAI, and ends at the node's name; every DAI has the value "SomeValue" |
| BrowserPaths.CallsInOrder | iec61850/iec61850_client.go:649-707 | the directory requests are one for each such way, for the reference of its node, parents first and DAI calls before SDI calls |
| BrowserPaths.RefIsSpelled | iec61850/iec61850_client.go:663 | the reference of a child is its parent's, a dot and its name |
| Browser.RequestsWeigh | iec61850/iec61850_client.go:649-707 | every reference is requested as often as its nodes weigh, a node k levels below the data object weighing Fib(k+1) |
| Browser.NodeRequestedFibTimes | iec61850/iec61850_client.go:649-707 | a node k levels below, alone with its reference, is requested exactly Fib(k+1) times |

## Left out

- C and Go machine integers in counts and indices: `int` counters of tokens, elements and entries are unbounded; the id counter, `int64`, `uint32` and `uint16` payloads have their widths.
- The text of error messages, and the error code of a refused operate request: which error is returned is modelled.
- Resolvers.ReadDataSetValues: does not model a null member, which the code hands to the library unchecked.
- Closing a client while subscriptions are live: the registry keeps their entries; the library's teardown is not part of this model.
- The origin category set before each operate request: always the same constant.
- The report control block's write mask and the server's own state: they do not reach the registry.
- `ExplainDataSetValues`: its keys accumulate across the attributes of a data object, so there is no path it could be compared by; only `findDAName` is modelled.
- `SCL.GetDataSet` and SCL file loading: a nested first-match search and XML input, without lasting state.
- `Connect`, the typed reads, the server and model wrappers, `BrowseModel`, `BrowseDataAttributes` and all printing: calls into the library and console output.
- C string lifetime and the unsafe string conversions: strings are values.
- Floating-point precision: a float is a real number handed through.
- Server directories with infinitely many references below one object: a directory is a finite tree whose nodes answer the same way each time.
