# BLeak core, modelled in Dafny

BLeak finds memory leaks in web applications. It has several parts:

- **A relay.** A mitmproxy add-on (`scripts/proxy.py`) hands each HTTP exchange to BLeak's Node process over a WebSocket, in a small binary frame. The interceptor (`src/lib/mitmproxy_interceptor.ts`) then rewrites the response:
  - JavaScript is rewritten so that closure variables are visible in the heap (the closure-state transformation);
  - the BLeak agent is injected into the `<head>` of every HTML page.
- **A loop over the page.** BLeak drives the page around a user-described loop of steps (`src/lib/bleak_operations.ts`, configured by `src/lib/bleak_config.ts`). After each iteration it takes a heap snapshot and streams it through `HeapSnapshotParser` into a compact `HeapGraph`.
- **Growth tracking.** BLeak merges successive graphs and marks the objects whose property count keeps growing (`src/lib/growth_graph.ts`).
- **Diagnosis.** The agent in the page records stack traces of writes to the growing objects, keeping the traces of array elements in step with the array methods. BLeak compacts these traces into a `BLeakResults` file of leak roots, stack frames and source files, and prints a text report with pretty-printed heap paths.
- **A viewer** for the results. It has a formatter that maps positions between original and pretty-printed source, locations, a stack-trace index, a folder tree of source files and a time log.

This project models that core, one Dafny module per source file:

| source | module |
|---|---|
| the relay's wire frames | `WireFrame` |
| UTF-8 | `Utf8` |
| the metadata encoding | `MetadataJson` |
| HTTP messages and header lists | `HttpMessage` |
| the Python adapter | `ProxyAdapter` |
| the interceptor | `Interceptor` |
| head injection | `HeadInjection` |
| the snapshot parser | `HeapSnapshotParser` |
| integer parsing | `JsonNumbers` |
| the heap graph | `GrowthGraph` |
| graph traversal and metrics | `GrowthTraversal` |
| growth tracking | `GrowthTracker` |
| scope analysis | `ClosureScopes` |
| the statement rewrites | `ClosureRewrites` |
| the agent's value helpers | `BleakAgent` |
| the agent's stack-trace maps | `AgentStacks` |
| event listener lists | `AgentListeners` |
| the eval cache | `EvalCaching` |
| the older deuterium agent | `DeuteriumAgent` |
| the older deuterium agent's stack maps and array wrappers | `DeuteriumStacks` |
| results | `Results` |
| leak roots | `LeakRoots` |
| report records | `ReportTypes` |
| path printing | `PathPrinting` |
| `path2string` | `CommonUtil` |
| the text report | `TextReports` |
| operations | `Operations` |
| configuration | `Configs` |
| the formatter | `Formatter` |
| locations | `Locations` |
| the stack-trace index | `StackTraces` |
| the folder tree | `FileList` |
| the time log | `TimeLogs` |

`Wrappers`, `Sequences`, `JsStrings`, `Bytes` and `SerializedPaths` hold shared definitions.

The model takes the source's own form:

- Code that updates objects in place is a `class` whose methods state the new state, with `modifies` clauses. Examples are the header list, the snapshot parser, the string map, the growth tracker, the scope table, the stack-trace maps, the eval cache, the path stream, results, leak roots, the folder tree, the stack-trace index and the operation state.
- Algorithms with loops are methods with loop invariants, proved against a pure specification function. Examples are graph construction, the breadth-first visitors, `mergeGraphs`, `compact`, the stable sorts, `findAll`, `upperBound` and the ranking-configuration enumeration.
- Code made of expressions is functions with lemmas about them. Examples are frame packing, routing, head injection, scope names and path printing.

## Model

| member | source | states |
|---|---|---|
| CommonUtil.Path2String | src/common/util.ts:29-54 | the loop returns exactly `PathString(p)`: the root's prefix (`<tag>` for a DOM root, `window` for the global root) followed by each edge's fragment in path order |
| CommonUtil.FragmentsAppend | src/common/util.ts:40-52 | rendering distributes over concatenation: the fragments of `a + b` are those of `a` followed by those of `b` |
| CommonUtil.PathStringExtend | src/common/util.ts:39-53 | extending a path by one edge appends exactly that edge's fragment; a path without edges renders as its root prefix alone |
| CommonUtil.PathStringPrefix | src/common/util.ts:29-54 | the text of a path begins with its root's prefix followed by the fragments of any prefix of its edges |
| CommonUtil.FragmentStart | src/common/util.ts:41-51 | every fragment is non-empty and starts with `[` exactly for an index edge and with `.` for closure and named edges |
| TimeLogs.TimeLogEntry.constructor | src/common/time_log.ts:3-6 | an entry holding the given type and start, with no end yet |
| TimeLogs.TimeLog.AddEntry | src/common/time_log.ts:11-13 | the entry goes last and the earlier entries are unchanged |
| TimeLogs.TimeLog.ToJson | src/common/time_log.ts:15-17 | the entries, all of them, in insertion order |
| LeakRoots.LeakRoot.FromJson | src/lib/leak_root.ts:7-9 | a fresh leak root whose serialisation is the record it was built from (round trip) |
| LeakRoots.LeakRoot.AddStackTrace | src/lib/leak_root.ts:18-20 | the stack is appended; the id, paths, scores and earlier stacks, and so the rest of the serialisation, are unchanged |
| LeakRoots.LeakRoot.ToJson | src/lib/leak_root.ts:22-29 | the record carries exactly the root's id, paths, scores and stacks |
| Locations.Url | src/viewer/model/location.ts:22-24 | the file's URL, or `<anonymous>` for a location without a file |
| Locations.KeyInjective | src/viewer/model/location.ts:26-28 | two locations have the same key exactly when their URL, line, column and space agree (the `:` separators cannot be confused with the numbers or the flag) |
| Locations.Key | src/viewer/model/location.ts:26-28 | the key starts with the URL and a colon, and ends in `:true` exactly for an original-space location |
| Locations.LineZeroIndexed | src/viewer/model/location.ts:33-35 | a 1-indexed line gives a non-negative zero-indexed line |
| Locations.ColumnZeroIndexed | src/viewer/model/location.ts:40-42 | a 1-indexed column gives a non-negative zero-indexed column |
| Locations.ZeroIndexedOfPosition | src/viewer/model/location.ts:30-42 | for the location of a position in a text, the zero-indexed line is the number of line endings before the position and the zero-indexed column is its distance from the start of that line |
| Locations.ToAceEditorLocation | src/viewer/model/location.ts:80-88 | the row is the zero-indexed line and the column is the unchanged 1-indexed column |
| Locations.GetFormattedLocation | src/viewer/model/location.ts:44-54 | a formatted-space location is returned unchanged; an original one is mapped into formatted space in the same file; the result is missing exactly for an original-space location without a file |
| Locations.GetOriginalLocation | src/viewer/model/location.ts:56-66 | an original-space or file-less location is returned unchanged; a formatted one with a file is mapped into original space; the file is kept |
| Locations.EqualAsWrittenDiverges | src/viewer/model/location.ts:72-78 | as written, comparing a file-less formatted-space location with an original-space one never returns (the recursion runs out of every fuel bound) |
| Locations.EqualAsWrittenDivergesExample | src/viewer/model/location.ts:72-78 | a concrete pair of anonymous locations on which the source's `equal` does not terminate |
| Locations.Equal | src/viewer/model/location.ts:72-78 | corrected `equal`: same-space locations are equal exactly when file, line and column agree; equal locations share their file |
| Locations.EqualAgrees | src/viewer/model/location.ts:72-78 | wherever the source's `equal` returns, it returns what the corrected `Equal` returns |
| Locations.EqualSymmetricAsWritten | src/viewer/model/location.ts:72-78 | the source's `equal` is symmetric, including in whether it terminates |
| Locations.EqualIsEquivalence | src/viewer/model/location.ts:72-78 | the corrected `Equal` is reflexive and symmetric |
| Formatter.OccurrencesApart | src/viewer/formatter.ts:112-120 | successive reported occurrences do not overlap: each starts at least the needle's length after the previous one |
| Formatter.OccurrencesIncrease | src/viewer/formatter.ts:112-120 | the reported occurrences are strictly increasing |
| Formatter.OccurrencesOfChar | src/viewer/formatter.ts:112-120 | for a one-character needle, a position is reported exactly when it holds that character |
| Formatter.FindAll | src/viewer/formatter.ts:112-120 | the loop returns exactly the specified occurrences: the first occurrence, then each next one searched from just past the previous match |
| Formatter.ComputeLineEndings | src/viewer/formatter.ts:122-126 | returns `LineEndings(str)`: the newline positions followed by the length |
| Formatter.LineEndingsSpec | src/viewer/formatter.ts:122-126 | the line endings are non-empty, strictly increasing, end with the text's length, and before that hold exactly the positions of the newlines |
| Formatter.UpperBound | src/viewer/formatter.ts:132-143 | the result is an index between 0 and the array's length |
| Formatter.UpperBoundSorted | src/viewer/formatter.ts:132-143 | on a sorted array every element before the result is at most `item` and every element from it on is greater |
| Formatter.UpperBoundLoop | src/viewer/formatter.ts:132-143 | the binary-search loop returns `UpperBound(arr, item)` |
| Formatter.LocationToPosition | src/viewer/formatter.ts:146-151 | line 1 gives the column minus one; a later line gives one past the previous line's ending plus the zero-indexed column; no number (NaN) exactly when that line ending does not exist |
| Formatter.PositionRoundTrip | src/viewer/formatter.ts:146-162 | for a text's own line endings, the location of any position in the text is on an existing line with a positive column, and maps back to the same position |
| Formatter.LineEndingsSorted | src/viewer/formatter.ts:122-126 | a text's line endings are sorted and end with its length |
| Formatter.ConvertPositionSpec | src/viewer/formatter.ts:184-191 | with sorted anchors and `k` the last anchor at or before the position, the result keeps the offset from anchor `k`, clamped to the next target anchor |
| Formatter.ConvertBeforeFirstAnchor | src/viewer/formatter.ts:184-191 | a position before the first anchor reads index -1 and gives no number (NaN) |
| Formatter.PositionToLocation | src/viewer/formatter.ts:153-162 | the location lies on an existing line (1 up to one past the number of line endings); on the first line the column is the position plus one |
| Formatter.ConvertPosition | src/viewer/formatter.ts:184-191 | NaN in gives NaN out; without anchors on either side the result is NaN; with a single target anchor the offset from the first source anchor is kept |
| Formatter.OriginalToFormatted | src/viewer/formatter.ts:169-175 | the result lies on an existing line of the formatted text |
| Formatter.FormattedToOriginal | src/viewer/formatter.ts:177-182 | the result lies on an existing line of the original text |
| Formatter.IdentityMapping | src/viewer/formatter.ts:169-182 | with the identity mapping (one anchor at 0, the same line endings), `originalToFormatted` and `formattedToOriginal` send the location of every position of the text to itself |
| StackTraces.LeakOccurrencesStep | src/viewer/model/stack_trace_manager.ts:36-56 | the references visited after one more leak are those before it followed by that leak's stack references |
| StackTraces.CountIsReferences | src/viewer/model/stack_trace_manager.ts:39-43 | a frame's count is the number of references to it (one increment per reference) |
| StackTraces.LeaksAtSound | src/viewer/model/stack_trace_manager.ts:41-43 | a leak listed for a frame has a reference to that frame |
| StackTraces.TaggedFramesSound | src/viewer/model/stack_trace_manager.ts:44-52 | a frame listed for a file is located in that file and has a reference |
| StackTraces.LastAtSpec | src/viewer/model/stack_trace_manager.ts:53 | the frame recorded for a location is located there and has a reference; no frame is recorded exactly when no reference is located there |
| StackTraces.LastAtIsLast | src/viewer/model/stack_trace_manager.ts:53 | the last reference at a location decides the recorded frame (later `set` calls overwrite earlier ones) |
| StackTraces.LeakOccurrencesSound | src/viewer/model/stack_trace_manager.ts:36-38 | every visited reference belongs to one of the leaks and names a frame of one of its stacks |
| StackTraces.StackOccurrencesSound | src/viewer/model/stack_trace_manager.ts:37-38 | every reference of a leak's stacks names that leak and a frame of one of the stacks |
| StackTraces.IndexesStep | src/viewer/model/stack_trace_manager.ts:39-53 | one more reference keeps all four indexes (counts, leak lists, file frames, location map) in agreement with the references seen |
| StackTraces.IndexesEmpty | src/viewer/model/stack_trace_manager.ts:35 | before any reference the zero counts, empty leak lists and empty maps agree with no references |
| StackTraces.StackTraceManager.constructor | src/viewer/model/stack_trace_manager.ts:31-57 | when every frame id is in range: the references of every frame of every stack of every leak, in order, are tallied: each frame's count and distinct leaks, each file's distinct frames (first reference first), each location's last frame |
| StackTraces.New | src/viewer/model/stack_trace_manager.ts:31-57 | `new StackTraceManager` fails exactly when some stack names a frame id past the end of the frames, where the source throws a TypeError; otherwise it is the constructor's tallied manager |
| StackTraces.StackTraceManager.AddLeak | src/viewer/model/stack_trace_manager.ts:36-56 | one leak's stacks are tallied, stack by stack, and the index stays in agreement |
| StackTraces.StackTraceManager.AddStack | src/viewer/model/stack_trace_manager.ts:37-55 | one stack's frames are tallied in order and the index stays in agreement |
| StackTraces.StackTraceManager.AddFrame | src/viewer/model/stack_trace_manager.ts:38-54 | one reference is tallied and the index stays in agreement |
| StackTraces.StackTraceManager.GetFrameForLocation | src/viewer/model/stack_trace_manager.ts:59-61 | a frame is found exactly when the location key is recorded, and the frame found is located there |
| StackTraces.StackTraceManager.GetLeaksForLocation | src/viewer/model/stack_trace_manager.ts:63-66 | a leak list is returned exactly when the location is known (the source fails on an unknown one) |
| StackTraces.StackTraceManager.GetFramesForFile | src/viewer/model/stack_trace_manager.ts:68-74 | no frames for an unknown file; otherwise one frame per recorded id, each located in that file |
| StackTraces.StackTraceManager.GetTracesForLeak | src/viewer/model/stack_trace_manager.ts:76-78 | one trace per stack of the leak, each the frames of that stack |
| StackTraces.LeaksForLocationSound | src/viewer/model/stack_trace_manager.ts:59-66 | a location has leaks exactly when some leak's stack refers to a frame located there, and every leak listed has such a stack |
| StackTraces.FromBLeakResults | src/viewer/model/stack_trace_manager.ts:24-26 | fails exactly when a leak's stack names a frame the results do not hold; otherwise a fresh manager over the results' frames and leaks with every reference tallied |
| FileList.FullPathOf | src/viewer/components/file_list/model/folder.ts:19-29 | the full path is empty exactly for the root, ends in `/` otherwise, and for a plain folder extends the parent path |
| FileList.CompactKeepsFiles | src/viewer/components/file_list/model/folder.ts:51-82 | `compact` keeps every file reachable: `hasFile` gives the same answer for every file before and after |
| FileList.CompactCompacts | src/viewer/components/file_list/model/folder.ts:51-65 | after `compact` no folder of the tree is left to inline, and only a plain folder can be replaced by another kind |
| FileList.FirstNamed | src/viewer/components/file_list/model/folder.ts:38 | the index of the first child with the name, or -1 exactly when no child has it |
| FileList.WithChildIdempotent | src/viewer/components/file_list/model/folder.ts:37-45 | getting a child twice yields the same child and leaves the tree unchanged the second time |
| FileList.Folder.constructor | src/viewer/components/file_list/model/folder.ts:16-30 | a new empty folder whose full path is fixed by its kind, parent path and name |
| FileList.Folder.GetChildFolder | src/viewer/components/file_list/model/folder.ts:37-45 | the first child with the name, or a new child of that kind and name appended whose parent path is this folder's full path |
| FileList.Folder.AppendChild | src/viewer/components/file_list/model/folder.ts:39-42 | a fresh empty folder is appended to the subfolders; nothing else changes |
| FileList.Folder.AddFile | src/viewer/components/file_list/file_list.tsx:32 | the file is appended to this folder's files; nothing else changes |
| FileList.Folder.HasFile | src/viewer/components/file_list/model/folder.ts:71-82 | true exactly when the file is in this folder or one of its descendants |
| FileList.Folder.Compact | src/viewer/components/file_list/model/folder.ts:51-65 | the folder returned holds `CompactTree` of the tree before the call, and lives inside the old tree's objects |
| FileList.Folder.CompactChildren | src/viewer/components/file_list/model/folder.ts:55 | each subfolder is replaced by its compacted form, in order |
| FileList.Folder.CompactEach | src/viewer/components/file_list/model/folder.ts:55 | the `map` step: each subfolder compacted in turn, this folder's own fields untouched |
| ReportTypes.PathSegmentTypeCode | src/common/extensions.ts:22-40 | each segment type has its code from 1 to 7 |
| ReportTypes.PathSegmentTypeCodeInjective | src/common/extensions.ts:22-40 | distinct segment types have distinct codes |
| Results.StackKeyInjective | src/lib/bleak_results.ts:92-94 | two stacks of frame ids have the same `,`-joined key exactly when they are equal, so the duplicate test drops only equal stacks |
| Results.CompactFramesAsWritten | src/lib/bleak_results.ts:73-83 | as written, the kept frames have pairwise distinct `;`-joined keys |
| Results.LookupAsWritten | src/lib/bleak_results.ts:84-87 | as written, `sfLookup` gives the id of a kept frame whose key equals the old frame's key |
| Results.FrameKeyCollision | src/lib/bleak_results.ts:73-75 | two different frames have the same `;`-joined key |
| Results.CompactAsWrittenMisattributes | src/lib/bleak_results.ts:73-87 | as written, compacting the two colliding frames keeps only the first, and a stack that referred to the second now refers to a different frame |
| Results.NewFrameId | src/lib/bleak_results.ts:84-87 | corrected `sfLookup`: the new id names a kept frame equal to the old one |
| Results.RemapStack | src/lib/bleak_results.ts:100 | a remapped stack has the same length and every id names a kept frame |
| Results.RemapStacks | src/lib/bleak_results.ts:99-100 | each stack of the list is remapped, in order |
| Results.FramesOf | src/lib/bleak_results.ts:117-123 | one entry per id: the frame it names, or nothing (undefined) for an id past the end |
| Results.CompactKeepsFrames | src/lib/bleak_results.ts:84-100 | a remapped stack shows the same frames, in the same order, as the original one |
| Results.KeptSourcesSpec | src/lib/bleak_results.ts:76-83 | the kept source files are keyed by exactly the URLs of the frames, each with its old entry (undefined where the old repository has none) |
| Results.KeptSourcesStep | src/lib/bleak_results.ts:76-83 | one more frame extends the kept frames and the kept sources only when that frame is new |
| Results.IndexesFramesStep | src/lib/bleak_results.ts:76-83 | one more frame keeps the frame map in agreement: a frame is mapped exactly when it was seen, each to the index of an equal kept frame |
| Results.CompactFrames | src/lib/bleak_results.ts:76-83 | the first loop of `compact`: the kept frames are the distinct frames, first occurrence first; the map sends each frame to its kept copy; the kept sources are those of the frames' URLs |
| Results.LookupIsNewFrameId | src/lib/bleak_results.ts:84-87 | `sfLookup` through the frame map gives the specified new id |
| Results.CompactStacks | src/lib/bleak_results.ts:95-107 | a leak's stacks are remapped and the repeated ones dropped, first occurrence first |
| Results.StackKeysMember | src/lib/bleak_results.ts:98-106 | a stack's key is in the found set exactly when the stack was already kept; adding a stack adds its key |
| Results.RemapWith | src/lib/bleak_results.ts:84-87 | remapping through the frame map equals the specified remapping |
| Results.BLeakResults.Empty | src/lib/bleak_results.ts:25-29 | with every argument left out: no leaks, frames, files or heap statistics and an empty ranking evaluation |
| Results.BLeakResults.constructor | src/lib/bleak_results.ts:25-29 | the results hold exactly the given parts |
| Results.BLeakResults.AddStackFrame | src/lib/bleak_results.ts:35-38 | the frame goes last and its index is returned; files and leaks are unchanged |
| Results.BLeakResults.AddSourceFile | src/lib/bleak_results.ts:53-58 | the entry for the URL is set or overwritten; every other URL's entry, the frames and the leaks are unchanged |
| Results.BLeakResults.StackToFrames | src/lib/bleak_results.ts:117-123 | each id's frame, in order (nothing for an id past the end) |
| Results.BLeakResults.Compact | src/lib/bleak_results.ts:65-111 | fresh results: the distinct frames, the sources of their URLs, the same heap statistics, an empty ranking evaluation, and for each leak a fresh leak with the same id, paths and scores whose stacks are remapped and deduplicated (corrected, see Findings) |
| Results.BLeakResults.ToJson | src/lib/bleak_results.ts:128-136 | each leak serialised in order, and the frames, files, heap statistics and ranking evaluation unchanged |
| Results.BLeakResults.FromJson | src/lib/bleak_results.ts:21-23 | fresh results whose serialisation is the record they were read from (round trip) |
| AgentListeners.MatchRules | src/lib/bleak_agent.ts:897 | an exact (deuterium-style) match is also a match for the current agent, and a recorded pair matches the call that recorded it under either rule |
| AgentListeners.OptionsMatchAnyCapture | src/lib/bleak_agent.ts:897 | a pair recorded with an options object matches any later `useCapture` for the same listener in the current agent; under exact comparison it matches only the same options object |
| AgentListeners.FirstMatch | src/lib/bleak_agent.ts:896-900 | the position of the first recorded pair matching the call, or the list's length when none matches |
| AgentListeners.WithListenerRecords | src/lib/bleak_agent.ts:887-905 | after `addEventListener` the type has a pair matching the call, no other type changes, and no type is left with an empty list |
| AgentListeners.WithListenerIdempotent | src/lib/bleak_agent.ts:896-900 | registering the same call twice records it once: the second call changes nothing |
| AgentListeners.WithoutListenerKeepsOthers | src/lib/bleak_agent.ts:907-925 | after `removeEventListener` no other type changes and an emptied type is deleted rather than kept empty |
| AgentListeners.AddThenRemove | src/lib/bleak_agent.ts:887-925 | removing a pair just added to a type where nothing matched restores the record exactly |
| AgentListeners.FirstMatchAppend | src/lib/bleak_agent.ts:896-904 | when no recorded pair matches, the appended pair is the first match |
| AgentListeners.EventTargetListeners.AddEventListener | src/lib/bleak_agent.ts:887-905 | the record becomes `WithListener` of the old record: the pair is appended to its type's list unless a recorded pair already matches |
| AgentListeners.EventTargetListeners.RemoveEventListener | src/lib/bleak_agent.ts:907-925 | the record becomes `WithoutListener` of the old record: the first matching pair is removed and an emptied type deleted |
| AgentListeners.FirstMatchBound | src/lib/bleak_agent.ts:913-914 | the first pair matching, found by the removal loop, is the first match |
| AgentListeners.FirstMatchNone | src/lib/bleak_agent.ts:913-922 | when the removal loop finds no match the first match is the list's length |
| AgentStacks.HelpersTouchOneKey | src/lib/bleak_agent.ts:457-504 | `_addStackTrace` adds the trace to the key's set (creating it), `_removeStacks` deletes the key, `_copyStacks` copies only when the source has traces, `_combineStacks` merges only when both have traces; every other key is unchanged |
| AgentStacks.AddRangeLookup | src/lib/bleak_agent.ts:933-936 | adding the trace over a range of indices adds it exactly at those indices |
| AgentStacks.RemoveRangeLookup | src/lib/bleak_agent.ts:1034-1037 | removing a range of indices clears exactly those indices |
| AgentStacks.RefreshLookup | src/lib/bleak_agent.ts:1059-1064 | after the refresh loop every index of the range holds only the call's trace; other keys are unchanged |
| AgentStacks.CopyUpLookup | src/lib/bleak_agent.ts:1040-1046 | copying upward from the top reads every source before it is overwritten: each target gets its source's original traces, when the source had any |
| AgentStacks.CopyDownLookup | src/lib/bleak_agent.ts:1047-1052 | copying downward from the bottom reads every source before it is overwritten |
| AgentStacks.SpliceStart | src/lib/bleak_agent.ts:1007-1024 | the normalised start lies between 0 and the length |
| AgentStacks.SpliceDeleteCount | src/lib/bleak_agent.ts:1025-1033 | the normalised delete count fits between the start and the end |
| AgentStacks.SpliceStartInRange | src/lib/bleak_agent.ts:1007-1024 | a start between minus the length and the length counts from the front or, when negative, from the end |
| AgentStacks.SpliceDeleteCountInRange | src/lib/bleak_agent.ts:1025-1033 | an omitted delete count removes the whole tail, and one that fits is kept as given |
| AgentStacks.Column | src/lib/bleak_agent.ts:457-504 | the traces of the array's indices, in order |
| AgentStacks.Fresh | src/lib/bleak_agent.ts:1059-1064 | the given number of new indices, each holding only the call's trace |
| AgentStacks.ColumnOf | src/lib/bleak_agent.ts:457-504 | a map with no traces past the end whose indices hold given traces has exactly that column |
| AgentStacks.PushLookup | src/lib/bleak_agent.ts:927-943 | after `push` the new indices hold the call's trace and nothing else changes |
| AgentStacks.PushColumn | src/lib/bleak_agent.ts:927-943 | `push` appends the call's trace once per new item; non-index keys keep their traces |
| AgentStacks.PopColumn | src/lib/bleak_agent.ts:968-981 | `pop` on a non-empty array drops the last index's traces and keeps the rest |
| AgentStacks.ShiftLookup | src/lib/bleak_agent.ts:983-1000 | after `shift`, for any map: an index below the last takes the traces of the index above it when that one has traces, and otherwise keeps its own (index 0 was cleared first); the old last index (`-1` on an empty array) is cleared; every other key is unchanged |
| AgentStacks.ShiftSparseKeepsStale | src/lib/bleak_agent.ts:983-1000 | on `[ , b, ]` only index 1 has traces; `shift` copies them to index 0 and index 1 keeps them, because `_copyStacks` skips index 2, which has no traces |
| AgentStacks.ShiftColumn | src/lib/bleak_agent.ts:983-1000 | when every index has traces, `shift` moves every index's traces down by one |
| AgentStacks.UnshiftLookup | src/lib/bleak_agent.ts:945-966 | after the corrected `unshift`, for any map: the new first indices hold the call's trace alone; an index above them takes the traces of the index `count` below when that one has traces, and otherwise keeps its own; every other key is unchanged |
| AgentStacks.UnshiftColumn | src/lib/bleak_agent.ts:945-966 | when every index has traces, the corrected `unshift` puts the call's trace on the new first indices followed by the old column |
| AgentStacks.UnshiftAsWrittenShort | src/lib/bleak_agent.ts:952-955 | for arrays no longer than the number of new items the copy loop as written agrees with the correction |
| AgentStacks.UnshiftAsWrittenLosesTraces | src/lib/bleak_agent.ts:952-955 | on a three-element array and one new item, as written index 2 keeps the traces of the element that moved to index 3 and index 3 has none; corrected, both are right |
| AgentStacks.SpliceColumn | src/lib/bleak_agent.ts:1002-1070 | when every index has traces, `splice` removes the deleted indices' traces, gives the new items the call's trace and moves the tail's traces to their new positions |
| AgentStacks.SpliceLookup | src/lib/bleak_agent.ts:1002-1070 | `splice` key by key, for any map: the new items hold the call's trace alone; the rest is as `MovedLookup` states |
| AgentStacks.MovedLookup | src/lib/bleak_agent.ts:1034-1057 | after the delete and move loops of `splice`, for any map: an index of the moved tail takes the traces of its old position when that position has traces, and otherwise keeps its own; a deleted index that nothing moved into is cleared; when the array shrinks, the vacated end is cleared; every other key is unchanged |
| AgentStacks.GrowthObjectStackTraces.AddStackTrace | src/lib/bleak_agent.ts:457-464 | the map becomes `Added` of the old map |
| AgentStacks.GrowthObjectStackTraces.RemoveStacks | src/lib/bleak_agent.ts:470-474 | the map becomes `Removed` of the old map |
| AgentStacks.GrowthObjectStackTraces.CopyStacks | src/lib/bleak_agent.ts:481-485 | the map becomes `Copied` of the old map |
| AgentStacks.GrowthObjectStackTraces.CombineStacks | src/lib/bleak_agent.ts:493-501 | the map becomes `Combined` of the old map |
| AgentStacks.GrowthObjectStackTraces.Push | src/lib/bleak_agent.ts:927-943 | the map becomes `PushMap` of the old map |
| AgentStacks.GrowthObjectStackTraces.Unshift | src/lib/bleak_agent.ts:945-966 | the map becomes the corrected `UnshiftMap` of the old map |
| AgentStacks.GrowthObjectStackTraces.RefreshStep | src/lib/bleak_agent.ts:1059-1064 | the last loop of `unshift` and `splice`: the map becomes `Refresh` of the old map |
| AgentStacks.GrowthObjectStackTraces.Pop | src/lib/bleak_agent.ts:968-981 | the map becomes `PopMap` of the old map |
| AgentStacks.GrowthObjectStackTraces.Shift | src/lib/bleak_agent.ts:983-1000 | the map becomes `ShiftMap` of the old map |
| AgentStacks.GrowthObjectStackTraces.RemoveStep | src/lib/bleak_agent.ts:1034-1037 | the map becomes `RemoveRange` of the old map |
| AgentStacks.GrowthObjectStackTraces.Splice | src/lib/bleak_agent.ts:1002-1070 | the map becomes `SpliceMap` of the old map at the normalised start and delete count |
| BleakAgent.ProxyStrictEqualsSymmetric | src/lib/bleak_agent.ts:166-175 | `$$$SEQ$$$` is symmetric |
| BleakAgent.ProxyStrictEqualsOwnProxy | src/lib/bleak_agent.ts:166-175 | an object equals its proxy, in both directions |
| BleakAgent.ProxyStrictEqualsWithoutProxies | src/lib/bleak_agent.ts:166-175 | where neither value has a `$$$PROXY$$$` property, `$$$SEQ$$$` is `===` |
| BleakAgent.ProxyStrictEqualsPrimitives | src/lib/bleak_agent.ts:166-175 | values other than objects and functions are compared by `===` alone, so NaN equals nothing |
| BleakAgent.ProxyLooseEqualsExtendsStrict | src/lib/bleak_agent.ts:153-159 | `$$$EQ$$$` holds whenever `$$$SEQ$$$` does and otherwise agrees with `==` |
| BleakAgent.GetProxyStatus | src/lib/bleak_agent.ts:408-418 | no proxy exactly when the value is not proxyable or has no `$$$PROXY$$$`; a proxy exactly when its `$$$PROXY$$$` is itself |
| BleakAgent.HasProxyEqualsItsProxy | src/lib/bleak_agent.ts:166-175 | an original object with a proxy is `$$$SEQ$$$`-equal to that proxy though not `===` to it |
| BleakAgent.IndexOfStart | src/lib/bleak_agent.ts:1075-1084 | a non-negative `fromIndex` is kept as given |
| BleakAgent.IndexOfStartFromEnd | src/lib/bleak_agent.ts:1075-1084 | a negative `fromIndex` of at most the length searches exactly that many last elements; a larger one searches the whole array |
| BleakAgent.IndexOf | src/lib/bleak_agent.ts:1074-1096 | -1, or the first index at or after the normalised start whose element is `$$$SEQ$$$`-equal to the searched value; -1 only when no such index exists |
| BleakAgent.SetFixThenQuery | src/lib/bleak_agent.ts:188-200 | after setting fix `n` to a value, asking for `n` answers that value and every other fix is unchanged |
| BleakAgent.FixSet.ShouldFix | src/lib/bleak_agent.ts:188-200 | with a value: switches the fix on or off and returns nothing; without one: reports whether it is on and changes nothing |
| BleakAgent.Owner | src/lib/bleak_agent.ts:210-219 | the position of the first scope in the chain that owns the key, or the chain's length when none does |
| BleakAgent.ApplyWrite | src/lib/bleak_agent.ts:210-219 | true exactly when some scope of the chain owns the key; only the first such scope gets the value, every other scope is unchanged |
| BleakAgent.CreateScopeObject | src/lib/bleak_agent.ts:130-145 | the scope's prototype is the parent; it has exactly the unmoved, moved and argument names; each moved variable is a writable undefined data property; each argument holds the value at its last position; other unmoved descriptors are kept |
| BleakAgent.DeclareVariables | src/lib/bleak_agent.ts:131-138 | the first loop: every name gets a writable, enumerable, configurable undefined data property, the other descriptors are kept |
| BleakAgent.AssignArguments | src/lib/bleak_agent.ts:141-143 | the second loop computes `Assigned` over all arguments |
| BleakAgent.AssignedDomain | src/lib/bleak_agent.ts:141-143 | the assignments add exactly the argument names |
| BleakAgent.AssignedOther | src/lib/bleak_agent.ts:141-143 | a name that is not an argument keeps its descriptor |
| BleakAgent.AssignedLast | src/lib/bleak_agent.ts:141-143 | a repeated argument name keeps the value of its last position |
| EvalCaching.Without | src/lib/bleak_agent.ts:250-253 | after deleting keys, exactly the keys not deleted remain in the iteration order |
| EvalCaching.WithoutSize | src/lib/bleak_agent.ts:250-253 | deleting present keys from an order without repeats shortens it by their number |
| EvalCaching.WithoutDistinct | src/lib/bleak_agent.ts:250-253 | deleting keys keeps an order without repeats |
| EvalCaching.WithoutUnion | src/lib/bleak_agent.ts:250-253 | deleting two sets of keys in turn is deleting their union |
| EvalCaching.WithoutNothing | src/lib/bleak_agent.ts:250-253 | deleting keys none of which is present changes nothing |
| EvalCaching.Victims | src/lib/bleak_agent.ts:247-255 | the picked entries number `min(10, n)` and are cached keys |
| EvalCaching.TrimAsWrittenKeepsEverything | src/lib/bleak_agent.ts:247-255 | as written, when no rewritten text is itself a cached source, the trim deletes nothing and the cache keeps growing past its limit |
| EvalCaching.TrimEvictsOldest | src/lib/bleak_agent.ts:247-255 | corrected (deleting by key): the trim removes `min(10, n)` entries, none used more recently than any entry kept |
| EvalCaching.VictimsDistinct | src/lib/bleak_agent.ts:247-255 | the picked keys have no repeats |
| EvalCaching.VictimsOldest | src/lib/bleak_agent.ts:247-255 | every picked entry was last used no later than every kept one (the sort by timestamp) |
| EvalCaching.PermutationDistinct | src/lib/bleak_agent.ts:250 | a rearrangement (the sort) of a list without repeats has no repeats |
| EvalCaching.AfterMissBounded | src/lib/bleak_agent.ts:262-276 | with the corrected trim, a cache within its limit of 100 stays within it after a miss |
| EvalCaching.AfterMissDropsNewEntryWhenFull | src/lib/bleak_agent.ts:262-276 | trimming right after the insertion evicts the new entry itself (timestamp 0) when every other entry was used at a positive time |
| EvalCaching.DeleteOneMore | src/lib/bleak_agent.ts:252-254 | one more deletion extends the deleted set by that key |
| EvalCaching.EvalCache.Delete | src/lib/bleak_agent.ts:253 | the key leaves the iteration order and the entries |
| EvalCaching.EvalCache.Trim | src/lib/bleak_agent.ts:247-255 | the picked entries leave the iteration order and the entries (corrected, see Findings) |
| EvalCaching.EvalCache.RewriteEval | src/lib/bleak_agent.ts:262-276 | on a hit the cached text is returned and its entry restamped; on a miss the fetched text is returned and the cache becomes `AfterMiss` |
| EvalCaching.EvalCache.Miss | src/lib/bleak_agent.ts:263-273 | the cache becomes `AfterMiss`: insert with timestamp 0, trim when over the limit, restamp if still present (corrected, see Findings) |
| EvalCaching.EvalCache.Insert | src/lib/bleak_agent.ts:270 | a new key goes last in the iteration order with its entry |
| EvalCaching.EvalCache.Stamp | src/lib/bleak_agent.ts:275 | the entry, when still cached, gets the new timestamp; the order is unchanged |
| ClosureScopes.AncestorOrSelf | src/lib/closure_state_transform.ts:664-667 | a scope above `s` comes before it in the table, so the parent chain ends |
| ClosureScopes.SameKindsAncestors | src/lib/closure_state_transform.ts:655-667 | tables whose scopes have the same kinds have the same ancestor relation, so updating variables never changes the parent chain |
| ClosureScopes.Record | src/lib/closure_state_transform.ts:709 | `_vars.set`: only the entry for the name changes, and a well-formed scope stays well formed |
| ClosureScopes.MarkClosed | src/lib/closure_state_transform.ts:556-558 | `closeOver`: the named variable is closed over with its type kept; every other variable and the order are unchanged |
| ClosureScopes.MarkEval | src/lib/closure_state_transform.ts:754-758 | `evalFound` on one block: every variable is closed over with its type kept, and both flags are set |
| ClosureScopes.Resolver | src/lib/closure_state_transform.ts:737-747 | the scope a name resolves to is on the chain from `s`, declares the name if it is a block, and no nearer block declares it |
| ClosureScopes.ShouldMoveToResolves | src/lib/closure_state_transform.ts:615-621 | `shouldMoveTo` answers for the scope the name resolves to: a block moves it exactly when it is closed over there, a global scope when it declares it, a proxy scope always |
| ClosureScopes.GetTypeResolves | src/lib/closure_state_transform.ts:635-642 | `getType` is the type recorded where the name resolves, and `UNKNOWN` when that is a global or proxy scope reached from a block |
| ClosureScopes.DefinitionScope | src/lib/closure_state_transform.ts:700-704 | a definition lands in `s`, except that a `var` in a block that is not a function's top block climbs to an enclosing scope that is |
| ClosureScopes.Defined | src/lib/closure_state_transform.ts:609-612 | a definition never changes any scope's kind or parent |
| ClosureScopes.DefinedWellFormed | src/lib/closure_state_transform.ts:700-710 | a definition keeps the scope table well formed |
| ClosureScopes.DefinedVisible | src/lib/closure_state_transform.ts:700-710 | after a definition the receiving scope reports the declared type; a global scope moves the name, a block moves it exactly when it has seen `eval` |
| ClosureScopes.EvalThenDefine | src/lib/closure_state_transform.ts:709 | a name defined in a block after `eval` was found there is closed over from the start |
| ClosureScopes.MaybeCloseTarget | src/lib/closure_state_transform.ts:712-722 | the variable marked by a reference is declared by a block strictly above `s` |
| ClosureScopes.CloseTarget | src/lib/closure_state_transform.ts:724-735 | the variable marked by `_closeOverVariable` is declared by a block at or above `s` |
| ClosureScopes.ClosedOver | src/lib/closure_state_transform.ts:726-728 | marking a variable never changes any scope's kind or parent |
| ClosureScopes.ClosedOverWellFormed | src/lib/closure_state_transform.ts:724-735 | marking a variable keeps the scope table well formed |
| ClosureScopes.CloseTargetResolves | src/lib/closure_state_transform.ts:724-735 | `_closeOverVariable` marks exactly the block the name resolves to, and nothing when it resolves to a global or proxy scope |
| ClosureScopes.MaybeCloseTargetResolves | src/lib/closure_state_transform.ts:712-735 | a reference marks the block the name resolves to exactly when a function boundary lies between them; a reference within the declaring function marks nothing |
| ClosureScopes.EvalFoundAt | src/lib/closure_state_transform.ts:754-759 | `evalFound` never changes any scope's kind or parent |
| ClosureScopes.EvalClosesChain | src/lib/closure_state_transform.ts:754-759 | after `evalFound` every name declared by a block on the chain moves into that block's object; scopes off the chain are untouched |
| ClosureScopes.EffectiveParentOf | src/lib/closure_state_transform.ts:692-698 | the effective parent is on the chain, is not a block without closed-over variables, and names the same object as the declared parent |
| ClosureScopes.FinalizedIdentifiers | src/lib/closure_state_transform.ts:761-769 | once every block with closed-over variables has an identifier, no `scopeIdentifier` lookup throws |
| ClosureScopes.NamesStep | src/lib/closure_state_transform.ts:791-807 | each name is appended to the list its variable belongs to, in declaration order |
| ClosureScopes.NamesMembers | src/lib/closure_state_transform.ts:791-807 | a name is in a list exactly when it is declared and its variable belongs there |
| ClosureScopes.ScopeCreationPartition | src/lib/closure_state_transform.ts:791-807 | a closed-over argument goes to the parameters, a closed-over `const` or function to the accessors, a closed-over `let` or `var` to the moved names; a variable not closed over goes nowhere |
| ClosureScopes.AssignmentsFor | src/lib/closure_state_transform.ts:775-783 | one assignment per declared function, in order, each with the same scope object |
| ClosureScopes.ScopeNameInjective | src/lib/closure_state_transform.ts:1763 | different counters give different names `s<k>` |
| ClosureScopes.ScopeNamesCount | src/lib/closure_state_transform.ts:1763 | a run of n counters gives n different names, and only those |
| ClosureScopes.FirstFree | src/lib/closure_state_transform.ts:1760-1767 | the first counter from `at` on whose name is free; every name skipped is taken |
| ClosureScopes.SubsetCount | src/lib/closure_state_transform.ts:1762-1764 | a subset is no larger than its superset (why the search for a free name ends) |
| ClosureScopes.FirstFreeIndex | src/lib/closure_state_transform.ts:1762-1764 | the `do … while` loop stops at the first free name from the counter on |
| ClosureScopes.ScopeNamer.constructor | src/lib/closure_state_transform.ts:1746-1770 | a namer over the program's identifiers, counter at zero, nothing issued |
| ClosureScopes.ScopeNamer.GetNextScope | src/lib/closure_state_transform.ts:1760-1767 | the name returned was not an identifier of the program before, is now taken, and differs from every name issued before; the counter moves past it |
| ClosureScopes.ScopeTable.constructor | src/lib/closure_state_transform.ts:1402-1420 | an empty scope table |
| ClosureScopes.ScopeTable.NewRootScope | src/lib/closure_state_transform.ts:602-607 | a new global or proxy scope with its identifier and no variables goes at the end |
| ClosureScopes.ScopeTable.NewBlockScope | src/lib/closure_state_transform.ts:664-667 | a new empty, unflagged, unnamed block with its parent goes at the end |
| ClosureScopes.ScopeTable.DefineVariable | src/lib/closure_state_transform.ts:609-612 | the table becomes `Defined` and stays well formed |
| ClosureScopes.ScopeTable.MaybeCloseOverVariable | src/lib/closure_state_transform.ts:712-722 | the table becomes `ClosedOver` at `MaybeCloseTarget` and stays well formed |
| ClosureScopes.ScopeTable.CloseOverVariable | src/lib/closure_state_transform.ts:724-735 | the table becomes `ClosedOver` at `CloseTarget` and stays well formed |
| ClosureScopes.ScopeTable.EvalFound | src/lib/closure_state_transform.ts:754-759 | the table becomes `EvalFoundAt` and stays well formed |
| ClosureScopes.ScopeTable.Finalize | src/lib/closure_state_transform.ts:669-673 | a block with closed-over variables and no identifier takes the namer's next name; any other scope and the namer are unchanged; afterwards such a block always has an identifier |
| ClosureScopes.ScopeTable.EffectiveParent | src/lib/closure_state_transform.ts:692-698 | the loop finds `EffectiveParentOf` the parent |
| ClosureScopes.ScopeTable.ScopeAssignments | src/lib/closure_state_transform.ts:775-783 | the loop builds `AssignmentsOf` the scope |
| ClosureScopes.ScopeTable.ScopeCreationStatement | src/lib/closure_state_transform.ts:785-827 | the statement is `ScopeObjectOf` the block |
| ClosureRewrites.NoMultipleSnoc | src/lib/closure_state_transform.ts:856-886 | a list extended by one statement is free of `MultipleStatements` exactly when the list and the statement are |
| ClosureRewrites.FlattenIdentity | src/lib/closure_state_transform.ts:871-885 | when no statement became `MultipleStatements`, the visited list is returned as it is |
| ClosureRewrites.FlattenConcat | src/lib/closure_state_transform.ts:872-881 | splicing distributes over concatenation |
| ClosureRewrites.FlattenOne | src/lib/closure_state_transform.ts:874-879 | one statement contributes its body when it is `MultipleStatements`, and itself otherwise |
| ClosureRewrites.FlattenSplices | src/lib/closure_state_transform.ts:872-881 | each statement's contribution lands in place, between those of the statements before and after it |
| ClosureRewrites.FlattenLeavesNone | src/lib/closure_state_transform.ts:872-881 | when no body holds a `MultipleStatements` itself, the spliced list holds none |
| ClosureRewrites.Visited | src/lib/closure_state_transform.ts:859-866 | the first loop replaces each statement by its visit, position by position |
| ClosureRewrites.NodeArray | src/lib/closure_state_transform.ts:856-886 | the array is overwritten with the visited statements, and the result is their splicing |
| ClosureRewrites.RewriteBinary | src/lib/closure_state_transform.ts:1548-1586 | `===` becomes `$$$SEQ$$$(l, r)`, `==` becomes `$$$EQ$$$(l, r)`, `!==` and `!=` the negation of those; other operators are kept |
| ClosureRewrites.RewriteKeepsMeaning | src/lib/closure_state_transform.ts:1548-1586 | where no proxy stands for either operand, the rewritten comparison has the truth value of the original one |
| ClosureRewrites.RewriteEquatesProxy | src/lib/closure_state_transform.ts:1548-1586 | an object and its proxy differ under the engine's `===`, but the rewritten `===` and `==` find them equal and `!==` and `!=` not different |
| ClosureRewrites.VisitDeclarator | src/lib/closure_state_transform.ts:1835-1860 | a declarator is kept exactly when its name does not move; a moved one becomes an assignment statement, never a bare member expression |
| ClosureRewrites.Results | src/lib/closure_state_transform.ts:1864 | the declarators are visited one by one, in order |
| ClosureRewrites.DeclStoresConcat | src/lib/closure_state_transform.ts:1862-1890 | the stores of consecutive declarators are those of each part in turn |
| ClosureRewrites.StoresOfConcat | src/lib/closure_state_transform.ts:1862-1890 | the stores of consecutive statements are those of each part in turn |
| ClosureRewrites.StoresOfOne | src/lib/closure_state_transform.ts:1862-1890 | a declaration performs its declarators' stores and an assignment statement its one store |
| ClosureRewrites.StepStores | src/lib/closure_state_transform.ts:1868-1883 | each turn of the grouping loop adds exactly the declarator's expected store to what is emitted or pending |
| ClosureRewrites.GroupStateStores | src/lib/closure_state_transform.ts:1864-1884 | after the loop, the emitted and pending statements perform the expected stores of all declarators, in order |
| ClosureRewrites.GroupStateShape | src/lib/closure_state_transform.ts:1864-1890 | nothing is emitted until a declarator moves, and the pending group is the whole declaration exactly when none has moved |
| ClosureRewrites.GroupedStores | src/lib/closure_state_transform.ts:1862-1890 | the statements a declaration becomes perform, in order, the stores of the original declaration, each redirected into the scope object its name moved to, and `undefined` stored for a moved name without initializer |
| ClosureRewrites.GroupedNonEmpty | src/lib/closure_state_transform.ts:1892-1902 | a declaration always yields at least one statement, so the fallback declaration of a fresh name is never built |
| ClosureRewrites.VariableDeclaration | src/lib/closure_state_transform.ts:1862-1911 | one statement is returned as it is, several as `MultipleStatements`, none as a `var` of the namer's next fresh name |
| ClosureRewrites.Assignments | src/lib/closure_state_transform.ts:1785 | one `Object.defineProperty` statement per scope assignment, in order |
| ClosureRewrites.Inserted | src/lib/closure_state_transform.ts:1787-1792 | the inserted statements follow a `"use strict"` directive (or open the block); the rest of the block follows them unchanged, and nothing changes when there is nothing to insert |
| ClosureRewrites.InsertionCases | src/lib/closure_state_transform.ts:1776-1792 | a block that is not the program, has no closed-over variables and declares no function is left as it is; a program always gets its prelude first, right after the directive |
| ClosureRewrites.InsertScopeCreation | src/lib/closure_state_transform.ts:1776-1792 | the block becomes `Inserted` with the prelude, the scope object creation and the function scope assignments |
| DeuteriumAgent.ReplaceAll | src/lib/deuterium_agent.ts:20-22 | a string without the character comes back unchanged |
| DeuteriumAgent.ReplaceBySelf | src/lib/deuterium_agent.ts:15-22 | replacing a character by itself changes nothing |
| DeuteriumAgent.SafeStringIdentity | src/lib/deuterium_agent.ts:15-22 | `safeString` returns its input: the replacement literal `"\'"` is a plain quote, so quotes are not escaped |
| DeuteriumAgent.AccessStringPrefix | src/lib/deuterium_agent.ts:80-104 | the access expression of a path extends that of every prefix of the path |
| DeuteriumAgent.AccessStringsStartAtRoot | src/lib/deuterium_agent.ts:80-104 | both access expressions start at `root`, and are `root` for a path without edges |
| DeuteriumAgent.AccessIsParentThenProperty | src/lib/deuterium_agent.ts:80-104 | the object's expression is its parent's expression followed by the last edge's property access |
| DeuteriumAgent.AccessStep | src/lib/deuterium_agent.ts:94-101 | each edge appends its own segment to the expression |
| DeuteriumAgent.ParentStep | src/lib/deuterium_agent.ts:85-91 | the parent's expression is that of the path without its last edge, followed by `.__scope__` when that edge is a closure edge |
| DeuteriumAgent.SegmentIsProperty | src/lib/deuterium_agent.ts:94-101 | a closure edge's segment is `.__scope__` then the property access; any other edge's is the property access |
| DeuteriumAgent.GetAccessString | src/lib/deuterium_agent.ts:80-104 | the loop builds the object's or the parent's access expression |
| DeuteriumAgent.PossibleRoots | src/lib/deuterium_agent.ts:54-73 | the window exactly for a global root; a tag query exactly for a DOM root whose type is `HTML…Element`; no roots otherwise |
| DeuteriumAgent.DomRootTag | src/lib/deuterium_agent.ts:61-63 | `HTML<x>Element` queries the elements with tag `x` in lower case |
| DeuteriumAgent.DomRootShape | src/lib/deuterium_agent.ts:61-63 | a DOM root is queried by tag exactly when its type has the form `HTML<x>Element` |
| DeuteriumAgent.MapForReuses | src/lib/deuterium_agent.ts:191-198 | the first path's map is stored under it; an existing map is reused with nothing changed; a new one differs from every stored map and only its key is added |
| DeuteriumAgent.MapForIdempotent | src/lib/deuterium_agent.ts:191-198 | instrumenting again from the same first path finds the same map and changes nothing |
| DeuteriumAgent.StackTraceTable.constructor | src/lib/deuterium_agent.ts:106 | an empty table of stack maps |
| DeuteriumAgent.StackTraceTable.InstrumentPath | src/lib/deuterium_agent.ts:191-206 | the table becomes `MapFor` the first path, kept even when the loop throws; each path up to the first one without edges gets its roots, last property name and both access expressions, and the call throws exactly when such a path exists |
| DeuteriumAgent.PlanPaths | src/lib/deuterium_agent.ts:199-205 | the loop computes each path's roots, property name and access expressions, in order, and throws at the first path without edges, where reading its last edge fails |
| DeuteriumAgent.PlanExtend | src/lib/deuterium_agent.ts:199-205 | one more turn of the loop extends the plan by the next path's entry |
| DeuteriumStacks.AddEachLookup | src/lib/deuterium_agent.ts:290-292 | after the adding loop, index `start + i` holds its old traces plus the trace captured by the i-th call; every other key is unchanged |
| DeuteriumStacks.RefreshEachLookup | src/lib/deuterium_agent.ts:311-314 | after the remove-then-add loop, index `start + i` holds only the trace captured by the i-th call; every other key is unchanged |
| DeuteriumStacks.AddEachUniform | src/lib/deuterium_agent.ts:290-292 | when every call captures the same trace, deuterium's adding loop leaves the map the current agent's leaves |
| DeuteriumStacks.RefreshEachUniform | src/lib/deuterium_agent.ts:415-418 | when every call captures the same trace, deuterium's refreshing loop leaves the map the current agent's leaves |
| DeuteriumStacks.WrappersUniform | src/lib/deuterium_agent.ts:284-425 | with one trace for every call, deuterium's `push`, `unshift` (corrected and as written) and `splice` leave the maps the current agent's wrappers leave |
| DeuteriumStacks.Traced | src/lib/deuterium_agent.ts:107-118 | one new index per captured trace, the i-th holding that trace alone |
| DeuteriumStacks.PushEachColumn | src/lib/deuterium_agent.ts:284-299 | `push` appends one index per item, each holding the trace of its own `addStackTrace` call; the old indices and the non-index keys keep their traces |
| DeuteriumStacks.UnshiftEachLookup | src/lib/deuterium_agent.ts:301-321 | after the corrected `unshift`, for any map: the i-th new index holds the i-th captured trace alone; an index above them takes the traces of the index `count` below when that one has traces, and otherwise keeps its own; every other key is unchanged |
| DeuteriumStacks.UnshiftEachColumn | src/lib/deuterium_agent.ts:301-321 | when every index has traces, the corrected `unshift` puts the captured traces on the new first indices, followed by the old column (corrected, see Findings) |
| DeuteriumStacks.UnshiftEachAsWrittenLosesTraces | src/lib/deuterium_agent.ts:308-310 | as written, unshifting one item onto a three-element array leaves index 2 with the traces of the element now at index 3 and index 3 without traces; corrected, both hold the right traces |
| DeuteriumStacks.SpliceEachLookup | src/lib/deuterium_agent.ts:357-425 | `splice` key by key, for any map: the i-th new index holds the i-th captured trace alone; an index of the moved tail takes the traces of its old position when that position has traces, and otherwise keeps its own; a deleted index nothing moved into is cleared, and so is the vacated end of a shrinking array; every other key is unchanged |
| DeuteriumStacks.SpliceEachColumn | src/lib/deuterium_agent.ts:357-425 | when every index has traces, `splice` keeps the head's traces, gives each new item its own call's trace, moves the tail's traces and clears past the new end |
| DeuteriumStacks.DeuteriumStackMap.constructor | src/lib/deuterium_agent.ts:195 | a new stack map is empty |
| DeuteriumStacks.DeuteriumStackMap.AddStackTrace | src/lib/deuterium_agent.ts:107-118 | the captured trace is added to the property's set, which is created when missing; every other key is unchanged |
| DeuteriumStacks.DeuteriumStackMap.RemoveStacks | src/lib/deuterium_agent.ts:119-123 | the property's traces are dropped; every other key is unchanged |
| DeuteriumStacks.DeuteriumStackMap.CopyStacks | src/lib/deuterium_agent.ts:124-128 | the target gets the source property's traces when it has any; otherwise nothing changes |
| DeuteriumStacks.DeuteriumStackMap.Push | src/lib/deuterium_agent.ts:284-299 | the map becomes `PushEach` of the old map, whose meaning `PushEachColumn` gives |
| DeuteriumStacks.DeuteriumStackMap.RefreshStep | src/lib/deuterium_agent.ts:311-314 | the map becomes `RefreshEach` of the old map, whose meaning `RefreshEachLookup` gives |
| DeuteriumStacks.DeuteriumStackMap.Unshift | src/lib/deuterium_agent.ts:301-321 | the map becomes the corrected `UnshiftEach` of the old map: the copy loop runs over every existing index (corrected, see Findings) |
| DeuteriumStacks.DeuteriumStackMap.Pop | src/lib/deuterium_agent.ts:323-336 | the map becomes `PopMap` of the old map: the last index's traces are dropped |
| DeuteriumStacks.DeuteriumStackMap.Shift | src/lib/deuterium_agent.ts:338-355 | the map becomes `ShiftMap` of the old map: every index's traces move down by one and the old last index is cleared |
| DeuteriumStacks.DeuteriumStackMap.MoveStep | src/lib/deuterium_agent.ts:389-412 | the delete and move loops of `splice` leave the map `SpliceMoved` describes, key by key as `MovedLookup` gives it |
| DeuteriumStacks.DeuteriumStackMap.Splice | src/lib/deuterium_agent.ts:357-425 | the map becomes `SpliceEach` of the old map at the normalised start and delete count |
| GrowthGraph.KindOf | src/lib/growth_graph.ts:338-352 | `Edge.type`: element and hidden edges are index edges, a context variable is a closure edge, the other five known types are named edges, and any other type number is unrecognized |
| GrowthGraph.FirstIndex | src/lib/growth_graph.ts:295-303 | the position of the first occurrence of the string, or the length when it does not occur |
| GrowthGraph.InternedIdResolves | src/lib/growth_graph.ts:295-303 | the id `get` returns names the string; a new string gets the next id |
| GrowthGraph.InternedKeepsIds | src/lib/growth_graph.ts:295-303 | interning never changes what an existing id names |
| GrowthGraph.InternedIdStable | src/lib/growth_graph.ts:295-303 | interning never changes the id of any other string |
| GrowthGraph.InternedNoDuplicates | src/lib/growth_graph.ts:295-303 | the string table never holds a string twice |
| GrowthGraph.IdsInjective | src/lib/growth_graph.ts:295-303 | two strings with the same id are the same string |
| GrowthGraph.StringMap.constructor | src/lib/growth_graph.ts:291-293 | an empty string map |
| GrowthGraph.StringMap.Get | src/lib/growth_graph.ts:295-303 | returns the string's first position in the table, appending the string when it is new |
| GrowthGraph.StringMap.FromId | src/lib/growth_graph.ts:305-307 | an id in range names the string stored under it; an id out of range answers nothing (`undefined`) |
| GrowthGraph.PrefixMonotone | src/lib/growth_graph.ts:525-560 | the running sum of edge counts never decreases, so each node's edges start where the previous node's end |
| GrowthGraph.ExtendsResolves | src/lib/growth_graph.ts:295-303 | an id that names a string keeps naming it as the table grows |
| GrowthGraph.ExtendsTransitive | src/lib/growth_graph.ts:295-303 | the table only ever grows at the end |
| GrowthGraph.InternedExtends | src/lib/growth_graph.ts:295-303 | interning only appends to the table |
| GrowthGraph.NodesStoredExtends | src/lib/growth_graph.ts:529-533 | node names already stored stay correct as the string table grows |
| GrowthGraph.EdgesStoredExtends | src/lib/growth_graph.ts:537-556 | edge names already stored stay correct as the string table grows |
| GrowthGraph.NodesStoredUpdate | src/lib/growth_graph.ts:533 | writing a later `firstEdgeIndexes` slot keeps the stored nodes |
| GrowthGraph.PastEdgesUnknown | src/lib/growth_graph.ts:560-564 | a node whose edges run past the edge array reads an edge with no type first, so the "Read past the edge array" error cannot be reached |
| GrowthGraph.UnknownTypeFails | src/lib/growth_graph.ts:550-555 | one unrecognized edge type among the edges the loop reads makes the construction fail |
| GrowthGraph.Zeros | src/lib/growth_graph.ts:501-507 | a new typed array of zeros of the given length |
| GrowthGraph.StoreEdge | src/lib/growth_graph.ts:537-556 | a known edge type is stored with its name interned (named and closure edges) or its index kept; an unknown type is the error `Unrecognized edge type` |
| GrowthGraph.FillEdges | src/lib/growth_graph.ts:535-557 | the inner loop stores every edge of a node, or fails exactly on an unrecognized type |
| GrowthGraph.StoreNode | src/lib/growth_graph.ts:526-533 | one node's name, size, type and first edge are stored |
| GrowthGraph.ConstructNode | src/lib/growth_graph.ts:526-564 | one turn of the outer loop: the node is stored and its edges end at the running sum of edge counts; without error every edge read has a known type |
| GrowthGraph.FillGraph | src/lib/growth_graph.ts:525-565 | the outer loop succeeds exactly when every edge it reads has a known type, and every error is an unrecognized edge type |
| GrowthGraph.Construct | src/lib/growth_graph.ts:493-568 | succeeds exactly when every edge read has a known type, and then stores every node and edge (names interned, targets divided by the node width, the root at `root_index / node width`); every failure is an unrecognized edge type |
| GrowthTraversal.BuiltShape | src/lib/growth_graph.ts:493-568 | a graph built from a consistent snapshot has ordered edge ranges, edge targets among the nodes, and names that resolve in the string table |
| GrowthTraversal.BuiltFirstEdges | src/lib/growth_graph.ts:530-566 | the first-edge table never decreases, so each node's edges form a range |
| GrowthTraversal.IndexOrName | src/lib/growth_graph.ts:327-337 | `indexOrName` is the number exactly for index edges, and the interned name for closure and named edges |
| GrowthTraversal.EdgeTypeTotal | src/lib/growth_graph.ts:338-352 | every edge of a built graph has a recognized type, so `Edge.type` never throws |
| GrowthTraversal.SymbolNotTraversed | src/lib/growth_graph.ts:84-91 | an edge named `<symbol>` is never traversed |
| GrowthTraversal.OrdinaryEdgeTraversed | src/lib/growth_graph.ts:84-106 | an edge that is neither internal nor named `<symbol>` is traversed exactly when its target is not synthetic or is `(Document DOM trees)` |
| GrowthTraversal.IndexEdgeNeverSymbol | src/lib/growth_graph.ts:84-91 | an index edge can never be mistaken for a `<symbol>` property |
| GrowthTraversal.Hash | src/lib/growth_graph.ts:113-119 | the child key is the target's name under a synthetic parent, and the edge's index or name otherwise |
| GrowthTraversal.NumProperties | src/lib/growth_graph.ts:437-484 | the loop computes `PropertyCount`: one per ordinary edge, `size / 8` for a childless `elements` store, the children of `table` and `properties`, nothing for hidden, shortcut and weak edges |
| GrowthTraversal.NoInternalCountsVisible | src/lib/growth_graph.ts:437-484 | without internal edges the count is the number of edges that are not hidden, shortcut or weak |
| GrowthTraversal.SkippedCountNothing | src/lib/growth_graph.ts:474-477 | hidden, shortcut and weak edges count nothing |
| GrowthTraversal.PropertyCountSplit | src/lib/growth_graph.ts:440-481 | the count over a range is the sum of the counts over its two halves |
| GrowthTraversal.PropertyCountFromNonNegative | src/lib/growth_graph.ts:437-484 | the property count is never negative |
| GrowthTraversal.Below | src/lib/growth_graph.ts:798-800 | the node indices below the node count |
| GrowthTraversal.BelowSize | src/lib/growth_graph.ts:798-800 | there are exactly as many of them as nodes |
| GrowthTraversal.DistinctElemsSize | src/lib/growth_graph.ts:798-804 | a queue without repeats has as many members as entries |
| GrowthTraversal.DistinctBound | src/lib/growth_graph.ts:798-804 | a queue without repeats of nodes below n has at most n entries, so the queue array of node-count slots never overflows |
| GrowthTraversal.QueuedReachable | src/lib/growth_graph.ts:798-828 | every queued node is reachable from the initial nodes through accepted edges |
| GrowthTraversal.WalkStaysQueued | src/lib/growth_graph.ts:798-828 | once every queued node's edges are examined, every node a walk of accepted edges reaches is queued |
| GrowthTraversal.QueueIsReachable | src/lib/growth_graph.ts:798-828 | a finished queue holds exactly the nodes reachable from the initial ones |
| GrowthTraversal.EnqueueChild | src/lib/growth_graph.ts:818-825 | enqueuing an unvisited accepted child keeps the queue invariant |
| GrowthTraversal.EdgesQueuedStep | src/lib/growth_graph.ts:818-825 | one more child edge examined keeps every accepted child of the node queued |
| GrowthTraversal.CloseNode | src/lib/growth_graph.ts:812-827 | a node whose edges are all examined moves into the examined part of the queue |
| GrowthTraversal.VisitChildren | src/lib/growth_graph.ts:815-826 | the inner loop queues every unvisited accepted child of the node, leaving earlier entries alone |
| GrowthTraversal.BfsVisitor | src/lib/growth_graph.ts:798-828 | the nodes visited, without repeats and starting with the initial ones, are exactly those reachable from the initial nodes through accepted edges |
| GrowthTraversal.EnqueueEdge | src/lib/growth_graph.ts:747-750 | enqueuing an edge with its predecessor entry keeps the edge queue invariant and never exceeds the edge count |
| GrowthTraversal.ChildEdgesQueuedStep | src/lib/growth_graph.ts:781-787 | one more child edge examined keeps every accepted child edge queued |
| GrowthTraversal.CloseEdge | src/lib/growth_graph.ts:776-788 | an entry whose child edges are all examined moves into the examined part |
| GrowthTraversal.VisitChildEdge | src/lib/growth_graph.ts:782-786 | one child edge is queued when it is unvisited and accepted |
| GrowthTraversal.VisitChildEdges | src/lib/growth_graph.ts:781-787 | the inner loop queues every unvisited accepted child edge of the entry's target |
| GrowthTraversal.BfsEdgeVisitor | src/lib/growth_graph.ts:737-790 | every edge is queued at most once, after its predecessor, each initial edge first with the root link, and every accepted child edge of every queued edge is queued |
| GrowthTraversal.Reverse | src/lib/growth_graph.ts:771 | `reverse()`: the same entries in the opposite order |
| GrowthTraversal.GetPath | src/lib/growth_graph.ts:764-772 | following the predecessor links gives a path that starts at an initial edge, ends at the current edge, and follows accepted edges from each target to the next |
| GrowthTraversal.QueueLink | src/lib/growth_graph.ts:764-772 | each entry's predecessor link points to an earlier entry, to the root link only for initial edges, and to an edge whose target owns it |
| GrowthTraversal.ReverseSnoc | src/lib/growth_graph.ts:768-771 | reversing a list extended at the end puts the new entry first |
| GrowthTraversal.ChainPrepend | src/lib/growth_graph.ts:764-772 | prepending an edge whose target owns the chain's first edge keeps a chain |
| GrowthTraversal.Targets | src/lib/growth_graph.ts:612-622 | the target of each edge, in order |
| GrowthTraversal.UserEdgesFromSpec | src/lib/growth_graph.ts:708-717 | the collected edges are exactly the user-root edges of the range, without repeats |
| GrowthTraversal.UserEdgesSpec | src/lib/growth_graph.ts:708-717 | the initial edges are exactly the root's children that lead to a non-synthetic node or to `(Document DOM trees)` |
| GrowthTraversal.UserRootsSpec | src/lib/growth_graph.ts:612-622 | the user roots are exactly the targets of those edges |
| GrowthTraversal.UserRootIndices | src/lib/growth_graph.ts:612-622 | the loop collects the user roots |
| GrowthTraversal.UserRootEdges | src/lib/growth_graph.ts:708-717 | the loop collects the user-root edges |
| GrowthTraversal.UserEdgesFromStep | src/lib/growth_graph.ts:711-716 | each turn of the loop adds the edge exactly when it is a user-root edge |
| GrowthTraversal.VisitRoot | src/lib/growth_graph.ts:700-702 | the nodes visited are exactly those reachable from the GC root through non-weak edges, the root first |
| GrowthTraversal.VisitUserRoots | src/lib/growth_graph.ts:704-706 | the nodes visited are exactly those reachable from the user roots through non-weak edges |
| GrowthTraversal.VisitUserEdges | src/lib/growth_graph.ts:708-719 | the edge search from the user-root edges through non-weak edges |
| GrowthTraversal.AddNodeSize | src/lib/growth_graph.ts:649-697 | adding a node's size adds it to exactly one per-type total and leaves the node, edge and total counts alone |
| GrowthTraversal.AddNodeSizeIn | src/lib/growth_graph.ts:649-697 | the size goes to the category of the node's type; unresolved and unknown types go to `unknownSize` |
| GrowthTraversal.SummarizeTotals | src/lib/growth_graph.ts:628-699 | the per-type totals add up to the sizes of the visited nodes; `totalSize` stays 0; the node and edge counts are the graph's |
| GrowthTraversal.CalculateSize | src/lib/growth_graph.ts:628-699 | the summary covers exactly the nodes reachable from the user roots through non-weak edges |
| GrowthTracker.KeyMapSpec | src/lib/growth_graph.ts:161-167 | every child's key is in the map, and each key maps to the last child with that key |
| GrowthTracker.KeyMapKeys | src/lib/growth_graph.ts:161-167 | every child's key is in the map of the old node's children |
| GrowthTracker.KeyMapLast | src/lib/growth_graph.ts:161-167 | a key shared by several children maps to the last of them (a later `set` wins) |
| GrowthTracker.OldEdges | src/lib/growth_graph.ts:161-167 | the loop builds the map from each old child's key to its edge |
| GrowthTracker.QueuedPairWalk | src/lib/growth_graph.ts:143-185 | every queued pair is reached from the two roots by walks that follow matching edges in both graphs, both traversable |
| GrowthTracker.EnqueuePair | src/lib/growth_graph.ts:130-133 | enqueuing the targets of a matched pair of edges keeps the queue invariant, and the queue never exceeds the new graph's node count |
| GrowthTracker.ReachedExtend | src/lib/growth_graph.ts:130-133 | enqueuing keeps every earlier pair reached |
| GrowthTracker.ClosedExtend | src/lib/growth_graph.ts:130-133 | enqueuing keeps every examined pair's matches queued |
| GrowthTracker.MatchesQueuedStep | src/lib/growth_graph.ts:170-182 | one more new child examined keeps every matched traversable child queued |
| GrowthTracker.ClosePair | src/lib/growth_graph.ts:143-184 | a pair whose new children are all examined moves into the examined part of the queue |
| GrowthTracker.MatchIsOldChild | src/lib/growth_graph.ts:172 | the old edge found for a key is a child of the old node |
| GrowthTracker.MergedGrowth | src/lib/growth_graph.ts:151-158 | one status per node of the new graph |
| GrowthTracker.MergedGrowthSpec | src/lib/growth_graph.ts:151-158 | a node becomes GROWING exactly when some examined pair holds it and its old partner was NEW or GROWING with strictly fewer properties; otherwise it keeps its status |
| GrowthTracker.MergedGrowthPrefix | src/lib/growth_graph.ts:145-158 | queuing more pairs does not change the statuses set by the pairs already examined |
| GrowthTracker.MergeChild | src/lib/growth_graph.ts:171-181 | one new child: its pair is queued when the old node has a child with the same key, the new target is unvisited and both edges are traversable |
| GrowthTracker.PushPair | src/lib/growth_graph.ts:130-133 | `enqueue` appends the pair and marks the new target visited |
| GrowthTracker.MergeChildren | src/lib/growth_graph.ts:169-183 | the inner loop queues every matched traversable child pair of the current pair |
| GrowthTracker.UpdateGrowth | src/lib/growth_graph.ts:151-158 | the current pair's status update, as `MergedGrowth` describes it |
| GrowthTracker.MergePair | src/lib/growth_graph.ts:145-184 | one turn of the outer loop: status update and child pairs queued |
| GrowthTracker.StartMerge | src/lib/growth_graph.ts:122-140 | the queue starts with the two roots, the new root marked visited |
| GrowthTracker.MergeGraphs | src/lib/growth_graph.ts:121-185 | the queue ends with every pair reached by matching walks, and the statuses are `MergedGrowth` over all of them |
| GrowthTracker.StatusAfterMerge | src/lib/growth_graph.ts:196-203 | after a later snapshot no node is NEW, and a node is GROWING exactly when some matched pair holds it whose old node was NEW or GROWING with fewer properties |
| GrowthTracker.HeapGrowthTracker.constructor | src/lib/growth_graph.ts:187-192 | no graph yet and an empty string map |
| GrowthTracker.HeapGrowthTracker.AddSnapshot | src/lib/growth_graph.ts:194-207 | fails, changing nothing, exactly when the graph cannot be built; otherwise keeps the new graph; the first graph's nodes are all NEW and a later graph's statuses come from the merge |
| GrowthTracker.HeapGrowthTracker.GetGraph | src/lib/growth_graph.ts:209-211 | there is a graph exactly after a snapshot was added, and it is well shaped |
| GrowthTracker.HeapGrowthTracker.IsGrowing | src/lib/growth_graph.ts:282-284 | true exactly for a node of the current graph marked GROWING |
| GrowthTracker.KeepVisibleSpec | src/lib/growth_graph.ts:45-51 | the filter keeps exactly the edges that are not hidden (closure edges never are), in order |
| GrowthTracker.EdgeToJson | src/lib/growth_graph.ts:354-360 | an edge is serialised with its kind and its index or name |
| GrowthTracker.EdgesToJson | src/lib/growth_graph.ts:45-51 | each kept edge is serialised in order |
| GrowthTracker.AfterRoot | src/lib/growth_graph.ts:24-44 | the links kept after the root come from the path |
| GrowthTracker.SerializeGCPath | src/lib/growth_graph.ts:18-58 | a window root exactly when the first link leads to a `Window ` node; otherwise a DOM root named by the third link's target, or `HTMLBodyElement` for a shorter path |
| GrowthTracker.SerializeGCPathSpec | src/lib/growth_graph.ts:18-58 | the serialised edges are exactly the visible links after the root (all of them for a window root, those after the first three otherwise), in order |
| HeadInjection.UpdateAt | src/lib/transformations.ts:105-117 | editing a node in place keeps the number of roots |
| HeadInjection.UpdateAtNode | src/lib/transformations.ts:105-117 | the edited node becomes the edit applied to it |
| HeadInjection.UpdateAtElsewhere | src/lib/transformations.ts:105-117 | every node apart from the edited one (neither it, above it, nor below it) is unchanged |
| HeadInjection.Prefixed | src/lib/transformations.ts:58-63 | the nodes found under root `i` keep their order with `i` put in front of their paths |
| HeadInjection.NodeAtPrefixForest | src/lib/transformations.ts:58-63 | a node under one of the first roots is found the same way in the whole forest |
| HeadInjection.VisitSound | src/lib/transformations.ts:58-63 | every node the search reaches is the node at its path |
| HeadInjection.VisitPostOrder | src/lib/transformations.ts:58-63 | the search reaches a node's descendants before the node itself (children first) |
| HeadInjection.FirstTagged | src/lib/transformations.ts:65-77 | the first node reached whose lower-cased name is the tag, or none when no node has it |
| HeadInjection.TargetChoice | src/lib/transformations.ts:65-77 | the injection target is the first head the search reaches, or, when the page has no head, the first html element; there is none only when the page has neither |
| HeadInjection.FirstKey | src/lib/transformations.ts:79-82 | `attribsLower.indexOf`: the first attribute whose lower-cased name is the key, or -1 |
| HeadInjection.InlineScriptKinds | src/lib/transformations.ts:78-99 | a script with a `src` attribute is never inline; one with neither `src` nor `type` always is; one whose first `type` is not a JavaScript type never is |
| HeadInjection.InlineScripts | src/lib/transformations.ts:78-99 | the scripts collected are inline scripts the search reached, in search order |
| HeadInjection.InlineNamesDistinct | src/lib/transformations.ts:118 | different script positions get different names `<file>-inline<i>.js` |
| HeadInjection.UnchangedWithoutTarget | src/lib/transformations.ts:49-53 | a page that does not parse, or has neither head nor html element, comes back unchanged |
| HeadInjection.InjectionPlaced | src/lib/transformations.ts:104-109 | the target's children become the injection followed by its old children; its name and attributes are kept |
| HeadInjection.ScriptTransformed | src/lib/transformations.ts:114-119 | a script's first child's text is replaced by the transform of it under the script's inline name; the other children are kept |
| HeadInjection.NoCapitals | src/lib/transformations.ts:65 | a lower-case name is its own lower case |
| HeadInjection.LowerTagNames | src/lib/transformations.ts:66-77 | `script` and `head` are already lower case |
| HeadInjection.EmptyScriptPageVisit | src/lib/transformations.ts:58-63 | on `<html><head><script></script></head></html>` the search reaches the script, the head, then the html element |
| HeadInjection.EmptyScriptPageFinds | src/lib/transformations.ts:65-99 | on that page the target is the head and the script is the one inline script |
| HeadInjection.EmptyScriptPageTarget | src/lib/transformations.ts:65-77 | the head reached second is the target |
| HeadInjection.EmptyScriptPageScripts | src/lib/transformations.ts:78-99 | the childless script is the only inline script |
| HeadInjection.UpdateAtNoChange | src/lib/transformations.ts:114-119 | an edit that leaves its node as it is leaves the forest as it is |
| HeadInjection.EmptyScriptThrows | src/lib/transformations.ts:114-119 | as written, a page with an empty inline script makes `injectIntoHead` throw; corrected, the script is skipped and the injection still lands in the head |
| HeadInjection.EmptyScriptNode | src/lib/transformations.ts:114-119 | the script at `[0, 0, 0]` has no children |
| HeadInjection.EmptyScriptRewrites | src/lib/transformations.ts:114-119 | as written the script step fails on it; corrected it leaves the page as it is |
| HeadInjection.EmptyScriptInjected | src/lib/transformations.ts:104-109 | injecting into that page puts the injection before the script in the head |
| HeadInjection.InjectIntoHead | src/lib/transformations.ts:48-118 | the page returned is `InjectedPage`: unchanged without a parse or a target, else every inline script transformed and the injection prepended to the target, serialised (corrected, see Findings) |
| HeapSnapshotParser.Fail | src/lib/heap_snapshot_parser.ts:350-354 | `_raiseError`: the state becomes ERROR with the error recorded; events and position are kept |
| HeapSnapshotParser.Fragment | src/lib/heap_snapshot_parser.ts:189-191 | the text between start and end, without a leading comma |
| HeapSnapshotParser.LastNewline | src/lib/heap_snapshot_parser.ts:172-181 | the last newline of the scanned range, or none when the range has none |
| HeapSnapshotParser.UnfinishedNumbersAsWritten | src/lib/heap_snapshot_parser.ts:170-228 | as written, an unfinished number array always resumes one past the last newline, which is one past the start when there is none |
| HeapSnapshotParser.UnfinishedNumbers | src/lib/heap_snapshot_parser.ts:170-228 | corrected: the numbers up to the last newline are taken, parsing resumes after it, and with no newline nothing is taken and nothing skipped |
| HeapSnapshotParser.ScanThrough | src/lib/heap_snapshot_parser.ts:233-265 | the last string ending is the start or a closing quote already scanned |
| HeapSnapshotParser.StringArrayClose | src/lib/heap_snapshot_parser.ts:238-265 | the first `]` outside a string, or the end of the chunk when there is none |
| HeapSnapshotParser.UnfinishedStringsAsWritten | src/lib/heap_snapshot_parser.ts:266-299 | as written, an unfinished string array always cuts one past the last string ending, even when no string has closed |
| HeapSnapshotParser.UnfinishedStrings | src/lib/heap_snapshot_parser.ts:266-299 | corrected: the cut is the start, or a point outside every string |
| HeapSnapshotParser.LastStringEndingClosesString | src/lib/heap_snapshot_parser.ts:238-265 | just after the last string ending the scan is outside a string, so the cut never splits a string |
| HeapSnapshotParser.ArrayCloseAsWritten | src/lib/heap_snapshot_parser.ts:209-225 | as written: `],` moves on to the next property two characters later and `]}` ends; anything else, including the end of the chunk, is an error |
| HeapSnapshotParser.ArrayClose | src/lib/heap_snapshot_parser.ts:209-225 | corrected: a `]` at the very end of the chunk waits for more input instead of failing, and the position never passes the end |
| HeapSnapshotParser.SnapshotLineStep | src/lib/heap_snapshot_parser.ts:108-144 | the snapshot line either advances to the first array property or stops; it never throws |
| HeapSnapshotParser.PropertyBeginStep | src/lib/heap_snapshot_parser.ts:145-167 | a property header moves on into a string array (`strings`) or a number array; a missing `[` is an error |
| HeapSnapshotParser.NumberArrayStep | src/lib/heap_snapshot_parser.ts:168-231 | the number array step advances without error, stops, or throws leaving the cursor unchanged (corrected, see Findings) |
| HeapSnapshotParser.StringArrayStep | src/lib/heap_snapshot_parser.ts:232-301 | the string array step advances without error or stops (corrected, see Findings) |
| HeapSnapshotParser.EndStep | src/lib/heap_snapshot_parser.ts:302-309 | the END state always stops the loop |
| HeapSnapshotParser.Step | src/lib/heap_snapshot_parser.ts:107-315 | every step that continues moves forward without error, so the loop ends; a throw leaves the cursor unchanged (corrected, see Findings) |
| HeapSnapshotParser.SliceLength | src/lib/heap_snapshot_parser.ts:110 | `slice` past the end is cut at the end |
| HeapSnapshotParser.Run | src/lib/heap_snapshot_parser.ts:105-316 | a parser in ERROR does nothing (corrected, see Findings) |
| HeapSnapshotParser.Resolutions | src/lib/heap_snapshot_parser.ts:333-335 | the i-th read is resolved with the i-th event |
| HeapSnapshotParser.Rejections | src/lib/heap_snapshot_parser.ts:338-341 | every read is rejected with the error |
| HeapSnapshotParser.EndMarkers | src/lib/heap_snapshot_parser.ts:343-345 | the remaining reads each get the end-of-snapshot marker (`null`) |
| HeapSnapshotParser.ProcessAfterRejection | src/lib/heap_snapshot_parser.ts:331-348 | once an error has rejected every read, processing again changes nothing |
| HeapSnapshotParser.MissingPrefixIsError | src/lib/heap_snapshot_parser.ts:108-114 | a first chunk that does not start with `{"snapshot":` is an error with nothing emitted |
| HeapSnapshotParser.ErrorIsAbsorbing | src/lib/heap_snapshot_parser.ts:105-106 | a parser in ERROR stays there, keeping its buffer and events |
| HeapSnapshotParser.PropertyHeader | src/lib/heap_snapshot_parser.ts:145-167 | `"name":[` sets the active property to `name` and enters the string array exactly for `strings` |
| HeapSnapshotParser.IndexOfCharFromIs | src/lib/heap_snapshot_parser.ts:147-149 | the search finds the first occurrence from the start |
| HeapSnapshotParser.NumbersOnlyForNodesAndEdges | src/lib/heap_snapshot_parser.ts:193-206 | a number array step emits at most one event, and only for `nodes` or `edges` |
| HeapSnapshotParser.UnfinishedNumberArray | src/lib/heap_snapshot_parser.ts:182-230 | without `]`, the numbers up to the last newline are emitted and parsing resumes after it |
| HeapSnapshotParser.IndexOfCharFromAbsent | src/lib/heap_snapshot_parser.ts:147-149 | a character that does not occur is found at the end |
| HeapSnapshotParser.ArrayStatesKeepRest | src/lib/heap_snapshot_parser.ts:318-326 | inside an array the unconsumed text is kept for the next chunk |
| HeapSnapshotParser.UnconsumedInputIsError | src/lib/heap_snapshot_parser.ts:318-320 | text left over outside an array is the error "did not consume whole chunk", and every read is rejected |
| HeapSnapshotParser.MalformedNumbersThrow | src/lib/heap_snapshot_parser.ts:192 | when `JSON.parse` throws, the parser is left in the number array with its reads, buffer and error unchanged |
| HeapSnapshotParser.RunThrowsInNumberArray | src/lib/heap_snapshot_parser.ts:192 | only a number array step throws |
| HeapSnapshotParser.EndRequiresBrace | src/lib/heap_snapshot_parser.ts:302-309 | the end marker is emitted exactly when the next character is `}`; anything else is an error |
| HeapSnapshotParser.InStringIsQuoteParity | src/lib/heap_snapshot_parser.ts:238-265 | without backslashes the scan is inside a string exactly after an odd number of quotes |
| HeapSnapshotParser.BackslashRun | src/lib/heap_snapshot_parser.ts:256-259 | a run of n backslashes leaves the next character escaped exactly when n is odd |
| HeapSnapshotParser.QuoteToggles | src/lib/heap_snapshot_parser.ts:241-249 | an unescaped quote enters or leaves a string; an escaped one does not |
| HeapSnapshotParser.BracketInsideString | src/lib/heap_snapshot_parser.ts:250-255 | a `]` inside a string does not end the array |
| HeapSnapshotParser.ProcessIsFifo | src/lib/heap_snapshot_parser.ts:331-335 | reads are resolved in order with events in order, as many as both queues allow |
| HeapSnapshotParser.ProcessLeavesNoMatch | src/lib/heap_snapshot_parser.ts:331-335 | afterwards a read and an event are never both pending |
| HeapSnapshotParser.ProcessIdempotent | src/lib/heap_snapshot_parser.ts:331-348 | processing twice is processing once |
| HeapSnapshotParser.ErrorRejectsAllReads | src/lib/heap_snapshot_parser.ts:337-341 | after an error every pending read is rejected with it, in order, and the events stay |
| HeapSnapshotParser.EndResolvesRemainingReads | src/lib/heap_snapshot_parser.ts:342-346 | at the end, reads beyond the pending events are resolved with the end-of-snapshot marker |
| HeapSnapshotParser.ReadTakesOldest | src/lib/heap_snapshot_parser.ts:360-362 | `read` with events pending answers the oldest one at once |
| HeapSnapshotParser.UnfinishedNumbersAsWrittenDropsDigit | src/lib/heap_snapshot_parser.ts:170-228 | as written, the unfinished chunk `9,1` resumes at `,1`, so the digit 9 is lost |
| HeapSnapshotParser.UnfinishedNumbersLosesNothing | src/lib/heap_snapshot_parser.ts:170-228 | corrected, the taken part, the skipped newline and the kept rest make up the whole chunk |
| HeapSnapshotParser.UnfinishedStringsAsWrittenSplitsString | src/lib/heap_snapshot_parser.ts:266-299 | as written, the unfinished chunk `"ab` hands `"` to `JSON.parse`, a string cut in half |
| HeapSnapshotParser.ArrayCloseAsWrittenAtChunkEnd | src/lib/heap_snapshot_parser.ts:209-225 | as written, a chunk ending in `]` is an error, and one ending in `],` moves past the end of the chunk |
| HeapSnapshotParser.PropertyAfterJump | src/lib/heap_snapshot_parser.ts:145-167 | after that jump, the next chunk's newline shifts the property name: `edges` is read as `"edges` and its numbers are dropped |
| HeapSnapshotParser.HeapSnapshotParser.constructor | src/lib/heap_snapshot_parser.ts:78-83 | a parser in the snapshot-line state with nothing buffered, pending or settled |
| HeapSnapshotParser.HeapSnapshotParser.ProcessPendingPromises | src/lib/heap_snapshot_parser.ts:331-348 | the fields become `Process` of the old ones |
| HeapSnapshotParser.HeapSnapshotParser.RaiseError | src/lib/heap_snapshot_parser.ts:350-354 | the state becomes ERROR with the error, then pending reads are processed |
| HeapSnapshotParser.HeapSnapshotParser.FindChar | src/lib/heap_snapshot_parser.ts:147-149 | the loop stops at the first occurrence from the start, or the end |
| HeapSnapshotParser.HeapSnapshotParser.ScanNumbers | src/lib/heap_snapshot_parser.ts:169-181 | the loop stops at the first `]` and reports the last newline before it |
| HeapSnapshotParser.HeapSnapshotParser.ScanStrings | src/lib/heap_snapshot_parser.ts:233-265 | the loop stops at the first `]` outside a string, with the scan state there |
| HeapSnapshotParser.HeapSnapshotParser.PushNumbers | src/lib/heap_snapshot_parser.ts:189-207 | succeeds exactly when the fragment parses as numbers, then queues the `nodes` or `edges` event; otherwise the events are unchanged |
| HeapSnapshotParser.HeapSnapshotParser.CloseArray | src/lib/heap_snapshot_parser.ts:209-225 | the corrected array close, applied to the fields |
| HeapSnapshotParser.HeapSnapshotParser.Advance | src/lib/heap_snapshot_parser.ts:107-315 | one turn of the loop, as `Step` describes it (corrected, see Findings) |
| HeapSnapshotParser.HeapSnapshotParser.AdvanceSnapshotLine | src/lib/heap_snapshot_parser.ts:108-144 | the snapshot-line case, as `SnapshotLineStep` describes it |
| HeapSnapshotParser.HeapSnapshotParser.AdvancePropertyBegin | src/lib/heap_snapshot_parser.ts:145-167 | the property-header case, as `PropertyBeginStep` describes it |
| HeapSnapshotParser.HeapSnapshotParser.AdvanceNumbers | src/lib/heap_snapshot_parser.ts:168-231 | the number-array case, as `NumberArrayStep` describes it (corrected, see Findings) |
| HeapSnapshotParser.HeapSnapshotParser.AdvanceStrings | src/lib/heap_snapshot_parser.ts:232-301 | the string-array case, as `StringArrayStep` describes it (corrected, see Findings) |
| HeapSnapshotParser.HeapSnapshotParser.AdvanceEnd | src/lib/heap_snapshot_parser.ts:302-309 | the end case, as `EndStep` describes it |
| HeapSnapshotParser.HeapSnapshotParser.Parse | src/lib/heap_snapshot_parser.ts:100-329 | `_parse` leaves the fields as `ParseSpec` describes, and reports whether it threw (corrected, see Findings) |
| HeapSnapshotParser.HeapSnapshotParser.AddSnapshotChunk | src/lib/heap_snapshot_parser.ts:94-98 | the chunk is appended and parsed; the callback learns whether the snapshot ended, unless parsing threw (corrected, see Findings) |
| HeapSnapshotParser.HeapSnapshotParser.Read | src/lib/heap_snapshot_parser.ts:360-368 | the oldest pending event at once, or a read queued |
| HeapSnapshotParser.FromString | src/lib/heap_snapshot_parser.ts:72-76 | a new parser fed the whole text as one chunk (corrected, see Findings) |
| Utf8.EncodeChar | scripts/proxy.py:21 | a character takes one to four bytes, and one exactly when it is ASCII |
| Utf8.DecodeEncodeChar | scripts/proxy.py:21 | decoding the bytes of one character gives it back and consumes exactly those bytes |
| Utf8.Encode | scripts/proxy.py:21 | `bytes(s, "utf8")` takes between one and four bytes per character |
| Utf8.DecodeEncode | scripts/proxy.py:21 | strict UTF-8 decoding inverts the encoding of header names and values |
| Utf8.EncodeInjective | scripts/proxy.py:17-21 | distinct header texts never encode to the same bytes |
| MetadataJson.ParseSerialiseString | scripts/proxy.py:59 | a serialised string parses back, whatever follows it |
| MetadataJson.IntOfIntToString | scripts/proxy.py:59 | a printed status code reads back as the same integer |
| MetadataJson.ParseSerialiseInt | scripts/proxy.py:59 | a serialised integer parses back, whatever follows it |
| MetadataJson.ParseSerialiseHeaders | scripts/proxy.py:101 | a serialised header list parses back with its order and repeated names |
| MetadataJson.ParseHeadersCons | scripts/proxy.py:101 | a header record is a name and a value followed by the remaining headers |
| MetadataJson.ParseSerialiseResponseFields | scripts/proxy.py:103-106 | the `status_code` and `headers` fields parse back |
| MetadataJson.ParseSerialiseRequestFields | scripts/proxy.py:98-102 | the `method`, `url` and `headers` fields parse back |
| MetadataJson.ParseSerialiseResponse | src/lib/mitmproxy.ts:171 | the reply metadata that Node serialises parses back in the proxy |
| MetadataJson.ParseSerialiseMessage | src/lib/mitmproxy.ts:137 | the metadata that the proxy serialises parses back in Node |
| MetadataJson.SerialiseMessageInjective | scripts/proxy.py:59 | distinct metadata never serialise to the same bytes |
| WireFrame.PackRequestFrame | scripts/proxy.py:59-65 | packing succeeds exactly when each block length fits an unsigned 32-bit field, otherwise `struct.error`; the frame is 12 bytes plus the three blocks |
| WireFrame.DecodeRequestFrame | src/lib/mitmproxy.ts:133-144 | a buffer shorter than 12 bytes raises a range error; the bodies never exceed the buffer |
| WireFrame.DecodeBlocks | src/lib/mitmproxy.ts:137-142 | the bodies sliced after the header never exceed the buffer |
| WireFrame.ReadLengths | src/lib/mitmproxy.ts:134-136 | the three packed lengths read back at offsets 0, 4 and 8 through the signed reader when below 2^31 |
| WireFrame.SliceThree | src/lib/mitmproxy.ts:141-142 | the blocks after the header are recovered by slicing at the accumulated lengths |
| WireFrame.DecodePackRequestFrame | src/lib/mitmproxy.ts:133-144 | a frame packed by the proxy decodes in Node to the same metadata, request body and response body when each block is below 2^31 bytes |
| WireFrame.DecodeRequestFrameOk | src/lib/mitmproxy.ts:133-144 | a buffer whose header and blocks are well formed decodes to them |
| WireFrame.EncodeReply | src/lib/mitmproxy.ts:170-180 | `writeInt32LE` raises a range error for a length of 2^31 or more; otherwise the reply is 8 bytes plus the metadata and the body |
| WireFrame.DecodeReply | scripts/proxy.py:84-87 | a reply shorter than 8 bytes makes `struct.unpack` raise; the body never exceeds the reply |
| WireFrame.DecodeEncodeReply | scripts/proxy.py:84-87 | the proxy recovers exactly the metadata and body that Node encoded |
| WireFrame.DecodeReplyIgnoresBodyLength | scripts/proxy.py:85-87 | the proxy never reads the reply's second length field |
| JsonNumbers.SkipSpace | src/lib/heap_snapshot_parser.ts:192 | the first non-whitespace index from a position |
| JsonNumbers.DigitRun | src/lib/heap_snapshot_parser.ts:192 | the end of a run of digits, all of which are digits |
| JsonNumbers.ParseIntAt | src/lib/heap_snapshot_parser.ts:192 | an integer, when found, takes at least one character |
| JsonNumbers.ParseIntAtNat | src/lib/heap_snapshot_parser.ts:192 | a printed number not followed by a digit parses back |
| JsonNumbers.ParseFormatNumbers | src/lib/heap_snapshot_parser.ts:189-192 | `JSON.parse` of a printed number array body gives the numbers back |
| JsonNumbers.TrailingCommaRejected | src/lib/heap_snapshot_parser.ts:192 | a dangling comma makes `JSON.parse` throw |
| HttpMessage.FirstMatch | src/lib/mitmproxy.ts:52-61 | `_indexOfHeader`: the first index whose stored name, lower-cased, equals the query exactly, or -1 when none does |
| HttpMessage.MatchCountZero | src/lib/mitmproxy.ts:52-61 | -1 is returned exactly when no entry matches |
| HttpMessage.MatchCountSplit | src/lib/mitmproxy.ts:52-61 | the matches of a joined list are those of its parts |
| HttpMessage.GetAfterSet | src/lib/mitmproxy.ts:63-78 | a lower-case name reads back the value just set |
| HttpMessage.SetChangesOneEntry | src/lib/mitmproxy.ts:71-78 | `setHeader` overwrites the first match's value or appends one entry; every other entry stays, and the list grows by at most one |
| HttpMessage.MixedCaseNeverMatches | src/lib/mitmproxy.ts:56 | a name with an upper-case letter never matches, so setting it always appends |
| HttpMessage.RemoveDeletesOne | src/lib/mitmproxy.ts:80-85 | `removeHeader` deletes exactly the first match, keeping the order and the other repeated fields |
| HttpMessage.HTTPHeaders.constructor | src/lib/mitmproxy.ts:48-50 | the list is the one given |
| HttpMessage.HTTPHeaders.IndexOfHeader | src/lib/mitmproxy.ts:52-61 | the loop returns `FirstMatch` |
| HttpMessage.HTTPHeaders.GetHeader | src/lib/mitmproxy.ts:63-69 | the first match's value, or the empty string |
| HttpMessage.HTTPHeaders.SetHeader | src/lib/mitmproxy.ts:71-78 | the list becomes `WithHeader` of the old one |
| HttpMessage.HTTPHeaders.RemoveHeader | src/lib/mitmproxy.ts:80-85 | the list becomes `WithoutHeader` of the old one |
| HttpMessage.HTTPHeaders.ClearHeaders | src/lib/mitmproxy.ts:87-89 | the list becomes empty |
| HttpMessage.InterceptedHTTPResponse.ToJSON | src/lib/mitmproxy.ts:104-109 | the metadata carries the response's status code and its headers as they are |
| HttpMessage.InterceptedHTTPResponse.constructor | src/lib/mitmproxy.ts:95-102 | the status is kept; the first transfer-encoding and content-encoding entries are dropped |
| HttpMessage.InterceptedHTTPRequest.constructor | src/lib/mitmproxy.ts:117-122 | the method is lower-cased; the URL and headers are kept |
| HttpMessage.InterceptedHTTPMessage.constructor | src/lib/mitmproxy.ts:153-158 | the message holds the given request, response and bodies |
| HttpMessage.InterceptedHTTPMessage.SetResponseBody | src/lib/mitmproxy.ts:160-165 | the body is replaced and content-length is set to its decimal length |
| HttpMessage.InterceptedHTTPMessage.ToBuffer | src/lib/mitmproxy.ts:170-180 | the reply frame of the response metadata and body, or the range error `writeInt32LE` raises |
| HttpMessage.InterceptedHTTPMessage.FromBuffer | src/lib/mitmproxy.ts:133-144 | the decoding error, or a message whose request and response are built from the decoded metadata and whose bodies are the decoded blocks |
| ProxyAdapter.ConvertHeadersToBytes | scripts/proxy.py:17-21 | a two-element list that decodes back to the name and the value |
| ProxyAdapter.ConvertHeaderList | scripts/proxy.py:122 | one converted entry per header, in order, duplicates kept |
| ProxyAdapter.ConvertBodyToBytes | scripts/proxy.py:23-30 | an absent body becomes empty bytes; any other body is unchanged |
| ProxyAdapter.Flow.constructor | scripts/proxy.py:89-96 | a flow holding the given request and response |
| ProxyAdapter.ReplyOutcome | scripts/proxy.py:80-87 | no reply leaves the flow alone; an unpacked reply always builds a new response |
| ProxyAdapter.Response | scripts/proxy.py:89-125 | a frame that cannot be packed raises; with no reply the flow is unchanged; otherwise the response is replaced wholesale by the reply's status, body and converted headers |
| ProxyAdapter.NodeReplyReachesFlow | scripts/proxy.py:113-123 | a reply packed by Node reaches the flow intact: status, body and every header in order |
| ProxyAdapter.Serve | scripts/proxy.py:143-164 | one connection leaves a suffix of the queue with the matching outcomes; a non-empty queue always shrinks |
| ProxyAdapter.ServeConnection | scripts/proxy.py:143-164 | the inner loop serves exactly what `Serve` describes |
| ProxyAdapter.MessagesAppend | scripts/proxy.py:143-164 | the frames of two runs of exchanges are those of each, in order |
| ProxyAdapter.ServeSplits | scripts/proxy.py:143-164 | the frames served by one connection and those left in the queue make up the queue's pending frames |
| ProxyAdapter.ServeAll | scripts/proxy.py:139-164 | the reconnect loop serves at most one exchange per queued entry |
| ProxyAdapter.EveryPendingServedOnce | scripts/proxy.py:139-164 | across reconnections every pending frame is served exactly once, in queue order; shutdown markers and failed exchanges only end a connection |
| Interceptor.AgentTransformUrl | src/lib/mitmproxy_interceptor.ts:24 | the agent URL without its last three characters, then `_transform.js`; a URL shorter than three characters gives `_transform.js` |
| Interceptor.MimeTypeShape | src/lib/mitmproxy_interceptor.ts:67-70 | the MIME type is the longest prefix of the content type without a `;` |
| Interceptor.ServedShape | src/lib/mitmproxy_interceptor.ts:75-78 | a local answer has status 200 and exactly two headers: its length and `text/javascript` |
| Interceptor.OtherMethodsUntouched | src/lib/mitmproxy_interceptor.ts:48-64 | requests other than GET are left alone, except POST to `/eval` |
| Interceptor.EvalAnswered | src/lib/mitmproxy_interceptor.ts:49-62 | POST `/eval` is answered with the source, closure-transformed if `rewrite`, else made ES5 unless all rewrites are off |
| Interceptor.LocalFilesServed | src/lib/mitmproxy_interceptor.ts:73-96 | a GET for the agent, its transform or the polyfill is answered from the local file, whatever the proxied response was |
| Interceptor.MixedCaseUrlNeverServed | src/lib/mitmproxy_interceptor.ts:73 | a configured URL with an upper-case letter never matches the lower-cased path |
| Interceptor.FixRewriteOnlyOnSuccess | src/lib/mitmproxy_interceptor.ts:98-101 | a proxied response keeps its status; a body that is neither HTML nor JavaScript goes through the fix rewrite exactly when the status is 200 |
| Interceptor.JavaScriptOnlyOnSuccess | src/lib/mitmproxy_interceptor.ts:126-139 | JavaScript with a status other than 200 is never rewritten |
| Interceptor.JavaScriptRewritten | src/lib/mitmproxy_interceptor.ts:126-139 | with status 200, JavaScript goes through the closure-state transform if `rewrite`, else ES5 unless all rewrites are off |
| Interceptor.HtmlAlwaysInjected | src/lib/mitmproxy_interceptor.ts:120-125 | HTML always gets the agent injected into its head, whatever the status |
| Interceptor.ServeLocally | src/lib/mitmproxy_interceptor.ts:75-78 | the message becomes a local JavaScript answer with the given body |
| Interceptor.Intercept | src/lib/mitmproxy_interceptor.ts:42-141 | the intercepted message ends as `Respond` describes |
| PathPrinting.SafeString | src/lib/path_to_string.ts:8-10 | escaping never shortens a name |
| PathPrinting.SafeStringNoLeadingQuote | src/lib/path_to_string.ts:8-10 | an escaped name never starts with a bare quote |
| PathPrinting.SafeStringRoundTrip | src/lib/path_to_string.ts:8-10 | escaping loses nothing: unescaping gives the name back |
| PathPrinting.PropertyAccessString | src/lib/path_to_string.ts:21-33 | `[n]` for a number, `.name` for an identifier, `["name"]` with escaped quotes for anything else |
| PathPrinting.PropertyAccessShape | src/lib/path_to_string.ts:21-33 | an access starts with `.` exactly for identifiers and with `[` otherwise |
| PathPrinting.PropertyAccessInjective | src/lib/path_to_string.ts:21-33 | different names give different access strings |
| PathPrinting.Unmirrored | src/lib/path_to_string.ts:90-94 | a mirrored listener property `$$$onX` is printed as `onX`; any other key is unchanged |
| PathPrinting.DigitPrefix | src/lib/path_to_string.ts:47 | the longest prefix of decimal digits |
| PathPrinting.ParseInt | src/lib/path_to_string.ts:47 | `parseInt` of a digit string is its value |
| PathPrinting.ParseIntOfPrinted | src/lib/path_to_string.ts:46-49 | a printed child index reads back as the index |
| PathPrinting.NonEmpty | src/lib/path_to_string.ts:124 | the non-empty chunks, never more than there were |
| PathPrinting.Reverse | src/lib/path_to_string.ts:124 | the chunks last first |
| PathPrinting.NonDomKeepsFirst | src/lib/path_to_string.ts:54-101 | the non-DOM printer only ever extends the chunk that starts at the root |
| PathPrinting.PushedKeepsFirst | src/lib/path_to_string.ts:79-83 | a label pushed as a chunk of its own leaves the root chunk as it was |
| PathPrinting.PrintedKeepsFirst | src/lib/path_to_string.ts:108-112 | printing only extends the current chunk |
| PathPrinting.DomKeepsFirst | src/lib/path_to_string.ts:35-52 | the DOM printer only ever extends the chunk that starts at the root |
| PathPrinting.NonEmptyFirst | src/lib/path_to_string.ts:124 | a non-empty first chunk survives the filter in front |
| PathPrinting.JoinEndsWithLast | src/lib/path_to_string.ts:124 | a joined text ends with its last part, after a separator when there are several |
| PathPrinting.FlushEndsWithFirst | src/lib/path_to_string.ts:119-125 | the flushed text is the root chunk, or ends with a space and the root chunk |
| PathPrinting.PathTextEndsAtRoot | src/lib/path_to_string.ts:158-170 | a printed path ends with the chunk that starts at `document` for a DOM path and at `window` otherwise |
| PathPrinting.NonDomPlain | src/lib/path_to_string.ts:89-98 | plain property segments print as their accesses one after another |
| PathPrinting.NonDomPlainStep | src/lib/path_to_string.ts:89-98 | one plain segment prints its access and moves on |
| PathPrinting.PrintedTwice | src/lib/path_to_string.ts:108-112 | printing twice is printing the concatenation |
| PathPrinting.PlainPathText | src/lib/path_to_string.ts:158-170 | a path of plain property segments prints as `window` followed by one access per segment |
| PathPrinting.PathStream.constructor | src/lib/path_to_string.ts:103-107 | no path, position -1, no chunks |
| PathPrinting.PathStream.Print | src/lib/path_to_string.ts:108-112 | the text is appended to the current chunk when there is one |
| PathPrinting.PathStream.PushString | src/lib/path_to_string.ts:113-118 | the current chunk is finished and a new empty one begins, when chunks are kept |
| PathPrinting.PathStream.Flush | src/lib/path_to_string.ts:119-125 | the non-empty chunks, last first, separated by spaces; the stream is emptied |
| PathPrinting.PathStream.SetPath | src/lib/path_to_string.ts:126-131 | the path is set at position 0 with an empty chunk |
| PathPrinting.PathStream.Advance | src/lib/path_to_string.ts:132-134 | the position moves one on; nothing else changes |
| PathPrinting.PathStream.Peek | src/lib/path_to_string.ts:135-141 | the segment at the position, or none past the end |
| PathPrinting.PathStream.Pop | src/lib/path_to_string.ts:142-146 | the segment at the position, and the position advanced in any case |
| PathPrinting.PrettyPrintNonDOMPath | src/lib/path_to_string.ts:54-101 | the loop prints what `NonDom` describes, and fails exactly where the source throws (a listener list with nothing after it) |
| PathPrinting.PrettyPrintDOMPath | src/lib/path_to_string.ts:35-52 | the loop prints what `Dom` describes, and fails exactly where the source throws |
| PathPrinting.PathToString | src/lib/path_to_string.ts:158-170 | the printed text of the path, or none where the source throws |
| TextReports.Insert | src/lib/text_reporter.ts:55 | one more leak placed into the list: nothing lost, nothing added |
| TextReports.SortedTail | src/lib/text_reporter.ts:55 | the rest of a sorted list is sorted, and its head scores highest |
| TextReports.InsertSorted | src/lib/text_reporter.ts:55 | inserting into a sorted list keeps it sorted |
| TextReports.InsertSortedFront | src/lib/text_reporter.ts:55 | a leak outscoring the whole list goes in front |
| TextReports.SortedCons | src/lib/text_reporter.ts:55 | a leak scoring at least as much as the head may go in front |
| TextReports.SortByScore | src/lib/text_reporter.ts:55 | the sort is a permutation of the leaks |
| TextReports.SortByScoreSorted | src/lib/text_reporter.ts:55 | the sort orders the leaks from the highest score down |
| TextReports.SortByScoreMembers | src/lib/text_reporter.ts:55 | every sorted leak is one of the original leaks |
| TextReports.WithScoreNone | src/lib/text_reporter.ts:55 | no leak scores a value no leak has |
| TextReports.WithScoreLast | src/lib/text_reporter.ts:55 | the leaks of one score in a list with one more element |
| TextReports.InsertStableFront | src/lib/text_reporter.ts:55 | inserting in front keeps the order among equal scores |
| TextReports.InsertStable | src/lib/text_reporter.ts:55 | insertion puts a leak after every earlier leak of the same score |
| TextReports.InsertStableBehind | src/lib/text_reporter.ts:55 | inserting behind the head keeps the head before the leaks inserted later |
| TextReports.SortByScoreStable | src/lib/text_reporter.ts:55 | the sort is stable: leaks of equal score keep their relative order |
| TextReports.Collect | src/lib/text_reporter.ts:14 | all the texts in order, or none when one of them cannot be computed |
| TextReports.FrameLine | src/lib/text_reporter.ts:26-27 | a frame line exists exactly for an id naming a stack frame |
| TextReports.FrameLines | src/lib/text_reporter.ts:25-28 | one line per shown frame id, in order |
| TextReports.StackText | src/lib/text_reporter.ts:23-30 | a stack's text fails exactly when one of its shown ids names no frame |
| TextReports.StackTextShape | src/lib/text_reporter.ts:24-29 | a stack shows at most ten frames, line `j` naming the frame of id `st[j]`, and a longer stack ends with the count left out |
| TextReports.PathTexts | src/lib/text_reporter.ts:14 | one printed path per heap path |
| TextReports.StackTexts | src/lib/text_reporter.ts:23 | one text per stack |
| TextReports.LeakText | src/lib/text_reporter.ts:13-32 | a leak's text starts with its rank and score, and exists exactly when every path prints and every stack names known frames |
| TextReports.LeakTexts | src/lib/text_reporter.ts:41 | leak `i` gets rank `i + 1` |
| TextReports.LeaksTextRanks | src/lib/text_reporter.ts:40-42 | leak `i` of a section appears as its part `i`, under rank `i + 1` with its own score |
| TextReports.SectionText | src/lib/text_reporter.ts:55 | a section starts with its heading |
| TextReports.SectionOrders | src/lib/text_reporter.ts:54-56 | three orders, each listing only the original leaks |
| TextReports.ReportText | src/lib/text_reporter.ts:48-57 | without leaks the report is "No leaks found." |
| TextReports.ReportSections | src/lib/text_reporter.ts:53-56 | a report with leaks is three sections headed LeakShare, Retained Size and Transitive Closure Size; each lists every leak once from the highest score down, equal scores in the order the previous section left |
| TextReports.SortLeaks | src/lib/text_reporter.ts:55 | only the order of the leaks changes, to the stable sort by score |
| TextReports.TextReporter | src/lib/text_reporter.ts:48-57 | the report of the leaks as they were, with the leaks left as a permutation in the last section's order |
| Configs.GetProp | src/lib/bleak_config.ts:59-71 | reading a property of null or undefined throws; an own property reads as its value |
| Configs.Merge | src/lib/bleak_config.ts:26 | exports that are not an object leave every default |
| Configs.ConfigFromSource | src/lib/bleak_config.ts:21-30 | an error thrown by the source is reported as "Unable to run configuration file: …"; otherwise the exports are merged over the defaults |
| Configs.CheckFunction | src/lib/bleak_config.ts:32-36 | passes exactly for a function, else "config.prop is not a function!" |
| Configs.CheckNumber | src/lib/bleak_config.ts:43-47 | passes exactly for a number, else "config.prop is not a number!" |
| Configs.CheckString | src/lib/bleak_config.ts:49-53 | passes exactly for a string, else "config.prop is not a string!" |
| Configs.CheckStep | src/lib/bleak_config.ts:38-41 | passes exactly when `check` and `next` are both functions |
| Configs.CheckSteps | src/lib/bleak_config.ts:60 | passes exactly when every step from the index on is a step |
| Configs.CheckNumbers | src/lib/bleak_config.ts:64 | passes exactly when every fixed leak from the index on is a number |
| Configs.CheckStepList | src/lib/bleak_config.ts:60 | passes exactly for an array of steps; `forEach` on anything else throws |
| Configs.Steps | src/lib/bleak_config.ts:92 | one step per item |
| Configs.Numbers | src/lib/bleak_config.ts:96 | the fixed leaks' numbers, in order |
| Configs.CheckRawValid | src/lib/bleak_config.ts:56-73 | the checks, in the order the source makes them, succeed exactly on a record that passes every one of them |
| Configs.FromSource | src/lib/bleak_config.ts:56-73 | a source that throws is refused with its error; otherwise the configuration is accepted exactly when the merged record is valid, and keeps its source |
| Configs.UrlMustBeString | src/lib/bleak_config.ts:59 | a url that is not a string is the first thing refused, whatever else is wrong |
| Configs.EmptyExportsGiveDefaults | src/lib/bleak_config.ts:3-18 | a configuration that exports nothing gets every default: 8 iterations, 10 ranking iterations, 5 runs, `http://localhost:8080/`, a 10-minute timeout and the default sleeps |
| Configs.ExportsOverride | src/lib/bleak_config.ts:26 | every field of an accepted configuration (url, iterations, ranking evaluation iterations and runs, timeout, the three sleeps, fixed leaks, the fix map, the rewrite, and the loop, login and setup steps) is taken over as exported, steps and fixed leaks item by item; every field not exported keeps its default; the configuration source is kept |
| Configs.BrowserInjection | src/lib/bleak_config.ts:107-115 | the script is the fixed prefix, the configuration source unchanged, and the suffix that merges the exports over the defaults |
| Operations.SumSizesAppend | src/lib/bleak_operations.ts:175-184 | the count of two lists of operations is the sum of their counts |
| Operations.SumSizesAtLeastLength | src/lib/bleak_operations.ts:175-184 | every operation counts itself at least once |
| Operations.SumSizesUniform | src/lib/bleak_operations.ts:175-184 | operations of one size count that size each |
| Operations.OperationState.constructor | src/lib/bleak_operations.ts:14-22 | no progress and nothing performed |
| Operations.OperationState.NextOperation | src/lib/bleak_operations.ts:40 | the progress bar advances by one; nothing is performed |
| Operations.OperationState.Perform | src/lib/bleak_operations.ts:45 | the leaf's work is recorded; the progress bar does not move |
| Operations.Run | src/lib/bleak_operations.ts:36-66 | running any operation advances the progress bar by exactly its `size()`, skipped or not, and performs exactly the leaves not under a skipped operation, in order |
| Operations.DelayIf | src/lib/bleak_operations.ts:213-219 | a delay exactly when the configured time is not zero |
| Operations.StepOpSize | src/lib/bleak_operations.ts:209-223 | every step has the same size: the composite, check, next and the configured delays |
| Operations.StepSeriesOf | src/lib/bleak_operations.ts:235-246 | one step per configured step of the type, numbered 0 to n-1 in order |
| Operations.StepSeriesOperation | src/lib/bleak_operations.ts:235-246 | the constructor's loop builds `StepSeriesOf` |
| Operations.StepSeriesOfSize | src/lib/bleak_operations.ts:182-184 | a series counts itself and its steps |
| Operations.IterationOperations | src/lib/bleak_operations.ts:273-287 | one iteration's pushes: the loop series, the check of step 0, the pause if configured, the snapshot if there is a callback |
| Operations.HeadOperations | src/lib/bleak_operations.ts:251-272 | the pushes before the iterations: navigate, login if asked and configured, setup if configured, the initial snapshot if asked and there is a callback |
| Operations.ProgramRunOperation | src/lib/bleak_operations.ts:248-288 | the constructor builds `ProgramRunOf` |
| Operations.LeavesSize | src/lib/bleak_operations.ts:30 | a list of leaves counts one each |
| Operations.IterationOpsSize | src/lib/bleak_operations.ts:273-287 | the size of one iteration |
| Operations.IterationsSize | src/lib/bleak_operations.ts:273-287 | n iterations count n times one iteration |
| Operations.LoginOpsSize | src/lib/bleak_operations.ts:252-258 | the login block counts its series, the pause and the navigation, and only when logging in with login steps |
| Operations.HeadSizeOf | src/lib/bleak_operations.ts:251-272 | the size of the operations before the iterations |
| Operations.SetupOpsSize | src/lib/bleak_operations.ts:259-263 | the setup series counts only when there are setup steps |
| Operations.SnapshotOpsSize | src/lib/bleak_operations.ts:264-272 | the initial snapshot counts the check, the optional pause and the snapshot |
| Operations.ProgramRunSize | src/lib/bleak_operations.ts:248-288 | what the progress bar counts for a program run: itself, the head, and each iteration's size times the number of iterations |
| Operations.SnapshotsInAppend | src/lib/bleak_operations.ts:145-158 | the snapshots of two lists are those of each |
| Operations.SnapshotsInNone | src/lib/bleak_operations.ts:145-158 | a list without snapshot operations takes none |
| Operations.StepSeriesNoSnapshots | src/lib/bleak_operations.ts:209-246 | steps only check and advance: a series takes no snapshot |
| Operations.IterationOpsSnapshots | src/lib/bleak_operations.ts:282-286 | an iteration takes one snapshot exactly when there is a callback |
| Operations.IterationsSnapshots | src/lib/bleak_operations.ts:273-287 | n iterations take n snapshots with a callback, none without |
| Operations.HeadSnapshots | src/lib/bleak_operations.ts:264-272 | the head takes one snapshot exactly when an initial snapshot is asked for and there is a callback |
| Operations.ProgramRunSnapshots | src/lib/bleak_operations.ts:248-288 | a program run with a callback takes one snapshot per iteration, plus the initial one when asked for; without a callback it takes none |
| Operations.FindLeaksOperation | src/lib/bleak_operations.ts:296-313 | the constructor builds `FindLeaksOf`: proxy without rewriting, then the program with login and a snapshot per iteration |
| Operations.DiagnoseLeaksOperation | src/lib/bleak_operations.ts:348-365 | the constructor builds `DiagnoseLeaksOf`: proxy with rewriting, a one-iteration warm-up, instrumentation, two loop series and the stack collection |
| Operations.FindAndDiagnoseLeaksOperation | src/lib/bleak_operations.ts:573-580 | finding, then diagnosing without logging in again |
| Operations.SnapshotsInPair | src/lib/bleak_operations.ts:145-158 | two operations take the snapshots of each |
| Operations.FindLeaksSnapshots | src/lib/bleak_operations.ts:296-313 | finding leaks takes one heap snapshot per configured iteration |
| Operations.DiagnoseLeaksSnapshots | src/lib/bleak_operations.ts:348-365 | diagnosing leaks takes no heap snapshot |
| Operations.FindAndDiagnoseSnapshots | src/lib/bleak_operations.ts:573-580 | finding and diagnosing takes exactly one snapshot per iteration |
| Operations.StoreAt | src/lib/bleak_operations.ts:477-479 | storing at an index grows the array with holes to reach it, sets that entry and keeps every other |
| Operations.StoreRunRecords | src/lib/bleak_operations.ts:475-479 | storing a run records its sizes, and keeps every other recorded run |
| Operations.RecordRunDone | src/lib/bleak_operations.ts:446-482 | once a run's sizes are stored it counts as done and is skipped next time; earlier runs are kept, and metrics the configuration is not used for are untouched |
| Operations.RunRecordedEvaluation | src/lib/bleak_operations.ts:36-42 | a run whose sizes are already recorded advances the progress bar by its size and performs nothing |
| Operations.InsertId | src/lib/bleak_operations.ts:488-492 | inserting an id adds it and loses nothing |
| Operations.InsertIdSorted | src/lib/bleak_operations.ts:488-492 | insertion keeps the ids ordered by descending score |
| Operations.ConsSorted | src/lib/bleak_operations.ts:488-492 | an id outscoring a sorted list may go in front |
| Operations.HeadOutscores | src/lib/bleak_operations.ts:488-492 | the first id of a sorted list outscores the rest |
| Operations.SortIds | src/lib/bleak_operations.ts:512-514 | the sort is a permutation of the ids |
| Operations.SortIdsSorted | src/lib/bleak_operations.ts:512-514 | each sort leaves the ids from the highest score down |
| Operations.LeakIds | src/lib/bleak_operations.ts:509 | the ids 0 to n-1 in order |
| Operations.SortedIdsAreAllLeaks | src/lib/bleak_operations.ts:509-514 | every leak id appears once in each metric's order |
| Operations.SkipRule | src/lib/bleak_operations.ts:446-462 | the `skip` test of every operation: no answer (the source throws a TypeError reading `opSt.results`) exactly when there are no results and the operation is a diagnosis, a ranking evaluation, or a program run whose configuration is used by some metric; only finding, diagnosing, program runs and evaluation ever skip; finding is skipped exactly when results exist; a program run with results is skipped exactly when its sizes are recorded |
| Operations.FixIdOf | src/lib/bleak_operations.ts:493-500 | a fix id exists only for a leak whose first path prints and is found in the fix map |
| Operations.FixIds | src/lib/bleak_operations.ts:512-514 | all ids map to fix ids in order, or the first failure is raised |
| Operations.MetricOrders | src/lib/bleak_operations.ts:511-515 | three orders, one per metric |
| Operations.MetricOrderMembers | src/lib/bleak_operations.ts:501-514 | each metric's order lists, without repeats, exactly the fix ids of the leaks |
| Operations.InsertAsc | src/lib/bleak_operations.ts:409-411 | inserting a number adds it and loses nothing |
| Operations.SortAsc | src/lib/bleak_operations.ts:406 | the sort is a permutation |
| Operations.InsertAscSorted | src/lib/bleak_operations.ts:406-411 | insertion keeps the numbers ascending |
| Operations.ConsAscending | src/lib/bleak_operations.ts:406-411 | a number not above the head may go in front |
| Operations.SortAscSorted | src/lib/bleak_operations.ts:406-411 | the sort yields ascending numbers |
| Operations.AscendingUnique | src/lib/bleak_operations.ts:406 | two ascending lists with the same elements are equal |
| Operations.AscendingHeads | src/lib/bleak_operations.ts:406 | two ascending lists with the same elements start alike |
| Operations.SortAscPermutation | src/lib/bleak_operations.ts:406 | reordering a set of fixes does not change its sorted form |
| Operations.IntStrings | src/lib/bleak_operations.ts:406 | the decimal form of each fix id |
| Operations.LeakSetKey | src/lib/bleak_operations.ts:404-407 | the array is left sorted ascending, and the key is its numbers joined with commas |
| Operations.LeakSetKeyPermutation | src/lib/bleak_operations.ts:404-407 | the key of a set of fixes depends only on which fixes it holds |
| Operations.WithMetric | src/lib/bleak_operations.ts:529 | the configuration becomes used for the metric, with its fixes and other flags unchanged |
| Operations.AddPrefixFlags | src/lib/bleak_operations.ts:522-529 | one step keeps the table well keyed and sets exactly the flag of the step's prefix |
| Operations.AddPrefixKeyed | src/lib/bleak_operations.ts:522-529 | one step keeps each key listed once, with its configuration under it |
| Operations.AddPrefixesFlags | src/lib/bleak_operations.ts:520-530 | the inner loop marks, for its metric, exactly the keys of the prefixes it visits |
| Operations.TableUpToFlags | src/lib/bleak_operations.ts:516-532 | after the outer loop a configuration is used for a metric exactly when its key is that of a prefix of the metric's order |
| Operations.AddPrefixesFlag | src/lib/bleak_operations.ts:520-530 | the inner loop's flags, for one key and one metric |
| Operations.MetricAtInjective | src/lib/bleak_operations.ts:511-515 | the three metrics are distinct |
| Operations.SharedConfiguration | src/lib/bleak_operations.ts:522-529 | prefixes of two metrics' orders that hold the same fixes share one configuration, used for both metrics |
| Operations.BuildConfigTable | src/lib/bleak_operations.ts:508-532 | the nested loops fill the table `TableUpTo` describes after all three metrics |
| Operations.AddPrefixesLoop | src/lib/bleak_operations.ts:520-530 | the inner loop visits every prefix, from the empty one to the whole order |
| Operations.AddPrefixStep | src/lib/bleak_operations.ts:522-529 | the loop body: the key of the prefix, its configuration found or created, and the flag set |
| Operations.EvalRunOperation | src/lib/bleak_operations.ts:413-442 | the constructor builds `EvalRunOf`: proxy with the configuration's fixes and every other rewrite off, then a program run with an initial snapshot |
| Operations.EvalRunSnapshots | src/lib/bleak_operations.ts:413-442 | each evaluation run takes one snapshot per iteration plus the initial one |
| Operations.ConfigRunsLayout | src/lib/bleak_operations.ts:554-558 | the runs of one configuration are numbered 0 to n-1 in order |
| Operations.RunGroups | src/lib/bleak_operations.ts:553-560 | one group of runs per configuration, in insertion order |
| Operations.AllRunsLayout | src/lib/bleak_operations.ts:553-560 | each configuration contributes `rankingEvaluationRuns` runs, and the runs are exactly the numbered runs of each configuration |
| Operations.GroupRunIndex | src/lib/bleak_operations.ts:554-558 | a run in a configuration's group is one of its numbered runs |
| Operations.GroupHasRun | src/lib/bleak_operations.ts:554-558 | each numbered run of a configuration is in its group |
| Operations.LoginBlockAsWrittenWithoutLogin | src/lib/bleak_operations.ts:538-552 | as written, without login steps the block still loads the page and waits `postLoginSleep` before the first run, which a program run would not |
| Operations.LoginBlockCorrected | src/lib/bleak_operations.ts:538-552 | corrected, the block is empty exactly when a program run would not log in, and is the written one when there are login steps |
| Operations.EvaluateRankingMetricsOperation | src/lib/bleak_operations.ts:486-561 | the constructor builds `EvaluateRankingMetricsOf`: the login block, then every run of every configuration, or the missing-fix-id error (corrected, see Findings) |
| Operations.LoginBlockOperation | src/lib/bleak_operations.ts:538-552 | the corrected login block |
| Operations.RunsOperation | src/lib/bleak_operations.ts:553-560 | the nested loops push the runs of each configuration in turn |
| Operations.ConfigRunsOperation | src/lib/bleak_operations.ts:554-558 | the inner loop pushes runs 0 to n-1 |
| Operations.MetricsDescription | src/lib/bleak_operations.ts:389-397 | the names of the metrics the configuration is used for, joined with ", " |
| Operations.UsedNames | src/lib/bleak_operations.ts:389-397 | the description names each metric the configuration is used for, once, and no other |
| Operations.UsedNamesParts | src/lib/bleak_operations.ts:391-395 | the names in the order leakShare, retainedSize, transitiveClosureSize |
| Operations.UsedNamesMembers | src/lib/bleak_operations.ts:391-395 | a metric's name is listed exactly when the configuration is used for it |
| Operations.UsedNamesDistinct | src/lib/bleak_operations.ts:391-395 | no name is listed twice |
| LeakRoots.LeakRoot.constructor | src/lib/leak_root.ts:11-16 | a leak root holding the given id, paths, scores and stacks |
| LeakRoots.LeakRoot.WithoutStacks | src/lib/leak_root.ts:11-16 | with the stacks argument left out, the leak root starts with no stacks |
| Formatter.UpperBoundInSorted | src/viewer/formatter.ts:135-141 | on a sorted window whose left neighbours are at most `item` and right neighbours exceed it, the search splits the array at the first element greater than `item` |
| Bytes.U32LE | scripts/proxy.py:63-65 | an unsigned 32-bit field takes four bytes |
| Bytes.ReadU32LEOfU32LE | scripts/proxy.py:63-65 | reading back a packed field gives the number, whatever surrounds it |
| Bytes.ReadInt32LE | src/lib/mitmproxy.ts:134-136 | `readInt32LE` is the two's-complement reading of the unsigned field: the same below 2^31, 2^32 less from there on |
| Bytes.ReadInt32LEOfU32LE | src/lib/mitmproxy.ts:134-136 | a field below 2^31 reads back unchanged through the signed reader |
| Bytes.JsStringRange | src/lib/mitmproxy.ts:137 | in-range bounds select exactly the bytes between them |
| Bytes.PyTake | scripts/proxy.py:87 | `b[0:n]` is the first n bytes, or all of them when there are fewer |
| Bytes.PyDrop | scripts/proxy.py:87 | `b[0:n]` and `b[n:]` together are the whole of `b` |
| Utf8.DecodeChar | scripts/proxy.py:21 | a decoded character takes between one byte and the whole input |

## Left out

- I/O, clocks and randomness are parameters of the operations that use them:
  - the WebSocket exchange of `scripts/proxy.py` (the reply bytes, or none);
  - `readFileSync` of the agent and polyfill files (their contents);
  - the synchronous XHR of the agent's `eval` (the fetched text);
  - `Date.now` (a time argument);
  - `Math.random` in generated eval names;
  - running the configuration source (its exports, or the text of what it threw).
- The thread and lock handoff, the queue and the reconnect loop of `scripts/proxy.py` are modelled as one sequential pass over the queued messages. No concurrency is modelled.
- Process and network plumbing is not part of this model: spawning mitmproxy, the WebSocket server, Chrome and the webdriver.
- Code the transformations call into is a parameter or a symbolic term:
  - parsing and printing of JavaScript (esprima, astring);
  - `ensureES5` (buble/babel) and `exposeClosureState` as a whole;
  - `fixRewriteFunction`;
  - htmlparser2's `parseHTML` and `getOuterHTML`.
  The AST is a small datatype covering only the statements and expressions the rewrites look at.
- Source-map merging and base64 embedding in the closure-state transformation are not modelled.
- `ClosureScopes`: scope objects live in a table indexed by number instead of being linked by parent references. The sharing of one scope object by several visitors is therefore not modelled.
- `ClosureRewrites.NodeArray`: the visitor's in-place array of child nodes is modelled as a sequence that is rebuilt. The aliasing of AST nodes between visitors is not modelled.
- Browser reflection in the agents is not modelled: `Proxy` objects, the getters and setters of `instrumentPath`/`instrumentDOMTree`, the DOM interposition, the `bind` override of `bleak_agent_transform.ts`, `getProxy`, and the native `addEventListener` call the listener wrappers forward to. Stack traces are opaque strings given as arguments.
- The JavaScript `Set` of stack traces is a Dafny `set`. Identity and aliasing of those sets between properties are not modelled.
- Property keys are modelled as `Index(i)` and `Name(s)`. JavaScript symbols are not modelled.
- `DeuteriumStacks`: each `addStackTrace` call captures a new stack, so the traces a wrapper's calls capture are a parameter, one per call in call order. The wrappers are modelled only for a receiver that is a proxy, which is when the source runs them; `getProxy` itself is part of the browser reflection left out above.
- Numbers are integers throughout, with no floating point. NaN appears only where the code tests for it: in `BleakAgent` values, and in the formatter, where it is modelled as `None`.
- `JsonNumbers` reads unsigned decimal integers only. The number arrays of a heap snapshot hold nothing else; fractions and exponents are not modelled.
- The snapshot line and the `strings` array of a heap snapshot are not decoded from JSON. Parser events carry their raw text.
- `MetadataJson`: the request and response metadata have a concrete, injective, length-prefixed byte encoding, with a proved round trip. It is not JSON text. Only the round trip between the two ends of the relay depends on it.
- `OneBitArray` and `TwoBitArray` are not part of this model. Growth statuses and visit bits are arrays of `GrowthStatus` and `bool`.
- `getGrowingPaths`, `toPathTree` and `findLeakPaths` are not part of this model. The operations that call them only record the call.
- The leaf operations of `src/lib/bleak_operations.ts` (navigate, check, next, delay, snapshot, proxy configuration, diagnosis) are recorded in the operation state, not performed. The progress bar is a count of ticks. The asynchronous scheduling of operations is modelled as a sequential run.
- `Formatter.FindAll` requires a non-empty needle. `findAll("")` never returns in the source, and the formatter only ever searches for "\n".
- `StackTraces.StackTraceManager.GetLeaksForLocation` returns `None` where the source would throw, for a location with no frame.
- `GrowthTraversal.BfsVisitor`, `GrowthTraversal.BfsEdgeVisitor`, `GrowthTraversal.VisitUserRoots` and `GrowthTraversal.CalculateSize` require their initial nodes (edges) to be distinct. With a repeated initial node the source visits it twice, and that case is not modelled.
- `Locations.EqualAsWritten` runs on a fuel argument, because the function as written need not terminate (see Findings).
- The `HtmlNode` tree of `HeadInjection` is a value, and nodes are addressed by paths of child indices. The injected nodes and scripts are updated by rebuilding the tree.
- The folder tree of `FileList` is a class per folder with its children in a sequence field. Sharing a folder between two parents is not modelled.
- `StackTraces.StackTraceManager.constructor`: requires every frame id of every stack to name a frame. Where one does not, the source throws a TypeError while tallying; that case is modelled by `StackTraces.New` and `StackTraces.FromBLeakResults`, which return `None` exactly then.
- `GrowthTracker.HeapGrowthTracker.AddSnapshot`: requires a snapshot that is `WellFormed` (see `GrowthGraph.Construct`) and `Consistent`, as V8 writes them: the meta edge count matches the edge records, there is a node, and the root and every edge target are nodes. The source does not check this, and what it computes from an inconsistent snapshot is not modelled. The traversal and merge members of `GrowthTraversal` and `GrowthTracker` require `Shape(g)`, which `GrowthTraversal.BuiltShape` proves for every graph built from such a snapshot.
- `GrowthGraph.Construct`: requires a snapshot that is `WellFormed`: the node fields `type`, `name`, `self_size` and `edge_count` and the edge fields `type`, `name_or_index` and `to_node` are present, the arrays hold whole records, and every node name and every string-named edge name indexes `strings`. The source checks none of this: an out-of-range name interns `undefined`, and a missing field makes `indexOf` return -1, so its reads land one before the record. Those graphs are not modelled.
- `AgentStacks.ShiftColumn`: the column form is stated for arrays whose every index has traces. On a sparse array `_copyStacks` copies only the indices that have traces and leaves stale ones behind; that general behaviour is what `AgentStacks.ShiftLookup` states, and `AgentStacks.ShiftSparseKeepsStale` shows an instance.
- `AgentStacks.UnshiftColumn`: stated for arrays whose every index has traces; `AgentStacks.UnshiftLookup` states the sparse case.
- `AgentStacks.SpliceColumn`: stated for arrays whose every index has traces; `AgentStacks.SpliceLookup` and `AgentStacks.MovedLookup` state the sparse case.
- `DeuteriumStacks.UnshiftEachColumn`: stated for arrays whose every index has traces; `DeuteriumStacks.UnshiftEachLookup` states the sparse case.
- `DeuteriumStacks.SpliceEachColumn`: stated for arrays whose every index has traces; `DeuteriumStacks.SpliceEachLookup` states the sparse case.
- `Operations.FixIdOf`: fix ids are numbers. A fix-map value that is neither a number nor missing is refused as `NoFixId`, while the source's `fixMapper` returns such a value unchanged as the id.
- `FileList.Folder.Compact`: requires that no plain folder of the tree is empty. The source states this as an invariant of `compact` (folder.ts:58). Its only caller (file_list.tsx:41) compacts a tree built from file URLs, where every plain folder the loop creates receives a subfolder or a file. What `compact` does on an empty plain folder (it reads `folders[0]` of an empty list) is not modelled.
- `JsStrings.ToLower`: lower-cases the ASCII letters only, where JavaScript's `toLowerCase` covers all of Unicode. Its callers share this: `HttpMessage.FirstMatch` and the header operations, the lower-cased method and path of `Interceptor`, the tag and attribute names of `HeadInjection.FirstTagged` and `HeadInjection.FirstKey`, and the `HTML<x>Element` tags of `DeuteriumAgent.DomRootTag`. Names with non-ASCII capitals compare differently from the source.
- `JsStrings.JsSlice`: strings are sequences of Unicode characters, while JavaScript counts UTF-16 code units. Lengths, offsets and positions agree with the source only for text without characters beyond U+FFFF; this covers the positions and line endings of `Formatter`, `JsStrings.JsSlice`, `Interceptor.AgentTransformUrl` and the cursor of `HeapSnapshotParser`.
- `Interceptor.HtmlAlwaysInjected`: the markup injected into HTML pages is inside the `injectIntoHead` parameter of the environment. That markup is the agent script, the transform script, the inline script with `$$$SHOULDFIX$$$` and the configuration, and, unless `disableAllRewrites`, the polyfill and global-delete script. The model states that every HTML page goes through the injection, not what is injected; the `fixes` and `config` arguments it is built from are not modelled.
- `BleakAgent.ApplyWrite`: a scope object's properties are plain values. In the source, the properties of unmoved variables are getters and setters, so `target[key] = value` runs a setter that writes the variable itself. A read through the scope sees the same value either way; the variable outside the scope object is not modelled.
- Logging (`console.log`, the progress bar's text, the "Weird!" message of `injectIntoHead`) is left out.

## Findings

| source | as written | input that shows it | evidently intended | confidence | as-written member | corrected member |
|---|---|---|---|---|---|---|
| src/lib/heap_snapshot_parser.ts:226-229 | an unfinished number array whose rest holds no newline resumes at `start + 1` | the number chunk `9,1`: nothing is emitted and the next chunk continues from `,1`, so the 9 is lost | keep the whole unparsed rest for the next chunk | not executed | HeapSnapshotParser.UnfinishedNumbersAsWrittenDropsDigit | HeapSnapshotParser.UnfinishedNumbersLosesNothing |
| src/lib/heap_snapshot_parser.ts:209-225 | `]` is looked at one character ahead without a check that it is in the chunk | a chunk ending in `1]` is an error; one ending in `1],` moves past the end, so the next chunk's property is read as `"edges` and its numbers are dropped | wait for the next chunk when the character after `]` has not arrived | not executed | HeapSnapshotParser.ArrayCloseAsWrittenAtChunkEnd | HeapSnapshotParser.ArrayClose |
| src/lib/heap_snapshot_parser.ts:266-299 | an unfinished string array is cut after the last string end, or at its first character when no string has ended | the string chunk `"ab`: the fragment `"` is handed to `JSON.parse` as `["]`, which throws | keep a string that has not ended for the next chunk | not executed | HeapSnapshotParser.UnfinishedStringsAsWrittenSplitsString | HeapSnapshotParser.UnfinishedStrings |
| src/viewer/model/location.ts:72-78 | `equal` maps both sides to original locations and calls itself again | a formatted location without a file against an original one: the mapping leaves both unchanged, so the call repeats forever | compare file, line and column once both are mapped | not executed | Locations.EqualAsWrittenDivergesExample | Locations.Equal |
| src/lib/bleak_results.ts:73-87 | the frame key joins the five fields with `;` | frames `["a;1",2,3,"f","s"]` and `["a",1,2,"3;f","s"]` get the same key, so `compact` merges two different frames | a key that tells distinct frames apart | not executed | Results.CompactAsWrittenMisattributes | Results.CompactFrames |
| src/lib/bleak_operations.ts:538 | `if (config.login)` tests the array object | `login = []` is truthy, so an empty login block is built | a login block only when there are login steps, as `ProgramRun` does | not executed | Operations.LoginBlockAsWrittenWithoutLogin | Operations.LoginBlockCorrected |
| src/lib/bleak_agent.ts:952-955 | `unshift` of k items copies only keys k-1 .. 0 up by k | an array of length 3 unshifted by one item: index 2 keeps the traces of the element that moved to index 3, and index 3 has none | move every index's traces up by k | not executed | AgentStacks.UnshiftAsWrittenLosesTraces | AgentStacks.GrowthObjectStackTraces.Unshift |
| src/lib/deuterium_agent.ts:308-310 | deuterium's `unshift` of k items copies only keys k-1 .. 0 up by k, like the current agent's | an array of length 3 unshifted by one item: index 2 keeps the traces of the element that moved to index 3, and index 3 has none | move every index's traces up by k | not executed | DeuteriumStacks.UnshiftEachAsWrittenLosesTraces | DeuteriumStacks.DeuteriumStackMap.Unshift |
| src/lib/bleak_agent.ts:247-255 | `trimEvalCache` deletes by the rewritten text, but the cache is keyed by the source text | any full cache whose rewritten texts differ from their sources: nothing is deleted and the cache grows without bound | drop the ten least recently used entries | not executed | EvalCaching.TrimAsWrittenKeepsEverything | EvalCaching.TrimEvictsOldest |
| src/lib/transformations.ts:114-119 | `n.children[0].data` is written for every inline script | a page whose only inline script is empty, `<html><head><script></script></head></html>`: `children[0]` is undefined and `injectIntoHead` throws | leave an empty script alone and inject the agent | not executed | HeadInjection.EmptyScriptThrows | HeadInjection.InjectIntoHead |
