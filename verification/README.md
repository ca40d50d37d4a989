# Verified cores of the mdbase editor and runtime

A Dafny model of the parts of the repository that carry real algorithms: the editor's
protocol for files dropped while the writer goes on typing, the Unicode normalization
tables together with the normalizer that reads them, the embedded time-zone database
together with its decoder, the schema walk of contract setup, and seven smaller
cores of the editor. `dafny verify dfyconfig.toml` checks all of it.

Each core is modelled in its own form. Objects with fields are classes, loops are methods
with invariants, and pure code is functions. Every method is tied to a specification
function; what the code is for is proved about those functions. Lemmas turn automatic
induction off: every induction is written out.

## The main results

**Files dropped into a note** (`ChangeSets`, `PendingAttachments`, `AttachmentProtocol`,
`AttachmentOrder`, `AttachmentConfluence`, `AttachmentSites`, `AttachmentCapture`). Any
number of uploads is pending, each with an anchor in the text, while the writer edits and
uploads succeed, fail, are retried or removed in any order. Over every run: anchors stay
inside the document, a job inserts at most once and never after its anchor is gone (an edit
takes it away exactly when it deletes a stretch the anchor is in or borders on,
`EditDropsExactly`), and of two files dropped together all text of the first precedes all
text of the second (`DropOrderIsTextOrder`). When the writer does not interfere, the outcome
depends only on which uploads got through (`Confluence`), and it is the document one would
write by hand (`DropProducesDocument`): left text, references in drop order separated by
blank lines, right text, with blank lines towards the neighbours exactly where these do not
bring a line break. Both hold from any state with anchors at any number of places
(`ConfluenceAnywhere`, `UploadsProduceText`): the original text, with such a block at every
place. Confluence is stated for references that are not empty and have no line break at
either end, and `ReferencesAreProper` shows that the uploader produces no others.

**Unicode normalization** (`StepTables`, `NormalizationTables`, `CompositionIndex`,
`GeneratedTables`, `Normalization`, `CanonicalEquivalence`, `Composition`,
`NormalizationRuntime`). The generator's compressed tables agree with the plain maps of the
Unicode character database, and no step table for the same function is shorter. Over tables
generated from any well-formed database the runtime's NFD and NFC are idempotent, NFC loses
nothing (`NfdOfNfc`), and two strings have one NFC exactly when they have one NFD
(`FormsAgree`). That is the case exactly when the two can be turned into each other by
one-step mappings and exchanges of marks (`FormsDecideEquivalence`): the forms decide
canonical equivalence. The runtime also composes all it should: a character is left
uncomposed only if the standard blocks it or there is no composite
(`ComposesUnlessBlocked`), so Hangul syllables and primary composites stay in one piece
(`NfcKeepsPrimary`). Every table search is bisection on data shown to be partitioned.

**Time zones** (`TzdbBytes`, `TzdbFormat`, `TzdbSource`, `TzdbGenerator`, `TzifFormat`). For
every compiled file, as RFC 9636 lays it out, the generator reads exactly the data written
into it or refuses the file (`ParseReadsFormat`). Decoding the
database that the generator writes returns it exactly when the runtime's checks hold, and is
refused otherwise; a decoder that knows only the format always recovers it. End to end,
every name leads through the deduplicated index to rules that give, at every instant, the
offset of the compiled file it came from (`NamedZoneMeansItsFile`, and from the data in it,
`NamedZoneMeansItsData`).

A finding: the generator sorts files as paths, while the runtime demands names in byte order
of the whole text. `PathOrderRefused` gives two names that sort one way and not the other.
`GeneratedAccepted` says exactly when the runtime accepts what the generator wrote: its
limits hold, and no two neighbouring names part where one has a separator and the other a
lower byte.

**Schemas** (`FieldReferences`, `SchemaWalk`, `TypeFields`). The depth-first walks terminate
on every finite graph, and collect exactly the union over reachable schemas, although
siblings share one `seen` set. A reference leads to the record at the end of the path it
spells (`ResolveMeans`). Field references are injective across both syntaxes, so
`uniqueBy` never drops a field, and `ListFields` lists each field of a type exactly once
with the right `required` flag.

**Smaller cores.** `MutationScope`: no stale publication, what a finished drain tells, and
that a drain ends once registrations stop and all promises settle (`DrainTerminates`); if it
throws, it gives the failure of the operation registered first (`DrainThrowsEarliest`).
`AttachmentUpload`: in-flight uploads hold different paths, and the search for a free one
ends. `CollectionTransition` puts the two together. Reservations are thrown away when a
collection is left, and the exact condition for that is that the scope is frozen and every
upload operation has settled (`Safe`): in that case no upload can be in flight and none can
collide afterwards, and in every other state both can happen (`SafeIff`, `ApartIffSafe`).
Transitions freeze and drain the scope, which makes them safe (`TransitionsClearSafely`). A
second finding: a leave dialog unfreezes the same scope, and if that falls between a
transition's drain and its clearing the state is unsafe (`LeaveDialogUnfreezes`).
`DraftRecovery`: exactly the reasons for which a draft disappears, over all interleavings of
tabs, and exactly when one is offered. `PageQueue`: no lost wake-up, and the pages spell the
final list. `NoteHistory`: refinement of a zipper. `CollectionBrowser`: grouping keeps
entries and order, and in modified order every header appears once.

Some facts about the environment are parameters with stated laws: the Unicode database is
any one in which decompositions nest finitely (`depth` witnesses it), are scalar values and
leave Hangul to the algorithm (`WellFormed`); path folding keeps the digits of a bracketed
number (`KeepsNumbers`, which `LowerKeepsNumbers` shows of ASCII lower-casing); the start of
a day is monotone in time; POSIX rule strings are recognized by `posix` and evaluated by
`posixAt`.

## Model

| member | source | states |
|---|---|---|
| `ChangeSets.MapPosStrict` | apps/editor/src/code-editor-file-embeds.ts:154-161 | positions that no deletion touches keep their strict order under any change set, whatever their sides |
| `ChangeSets.MapPosInDocument` | apps/editor/src/code-editor-file-embeds.ts:160-161 | a mapped position lies inside the new document |
| `ChangeSets.ApplyKeepsLeft` | apps/editor/src/code-editor-file-embeds.ts:154-161 | a property of all text left of a position, and of all inserted text, holds of all text left of the mapped position |
| `ChangeSets.ApplyKeepsRight` | apps/editor/src/code-editor-file-embeds.ts:154-161 | the same for the text right of a position |
| `ChangeSets.InsertionEffect` | apps/editor/src/code-editor-file-embeds.ts:160-161 | an insertion touches no position; those before it stay, those after it shift, and the side decides at the point itself |
| `ChangeSets.ApplyConcat` | apps/editor/src/code-editor-file-embeds.ts:154-161 | applying sections one after the other is applying each to its own stretch of the document |
| `ChangeSets.TouchedMeans` | apps/editor/src/code-editor-file-embeds.ts:154-159 | a position is touched exactly when a deleted or replaced stretch contains or borders on it, by the lengths of the sections before it |
| `ChangeSets.MapPosKeepsNeighbours` | apps/editor/src/code-editor-file-embeds.ts:160-161 | an untouched position stays before the same cell |
| `PendingAttachments.FindPerform` | apps/editor/src/code-editor-file-embeds.ts:162-168 | an effect on the list is a removal or an overwrite in the map from ids to jobs |
| `PendingAttachments.FindMoved` | apps/editor/src/code-editor-file-embeds.ts:154-161 | filtering and mapping the list drops the jobs a deletion touches and moves each other job by the side of its own id |
| `PendingAttachments.PerformOrder` | apps/editor/src/code-editor-file-embeds.ts:162-169 | an effect leaves the other jobs in their order, and a new or changed job goes to the end |
| `AttachmentProtocol.FindAfter` | apps/editor/src/code-editor-file-embeds.ts:151-169 | for every action, the list after the step refines the map of anchors that states what becomes of each job |
| `AttachmentProtocol.EditDropsExactly` | apps/editor/src/code-editor-file-embeds.ts:154-161 | an edit drops a pending job exactly when it deletes or replaces a stretch that its anchor is in or borders on; any other job stays before the same cell, or at the end |
| `AttachmentProtocol.Inserted` | apps/editor/src/code-editor-file-embeds.ts:211-215 | all inserted cells carry the id of the job and spell the block |
| `AttachmentProtocol.DocumentAfter` | apps/editor/src/code-editor-file-embeds.ts:246-268 | only edits and landings change the text; a landing inserts at the anchor and logs its job |
| `AttachmentProtocol.PendingAfter` | apps/editor/src/code-editor-file-embeds.ts:235-276 | a pending job was pending before or is new, its anchor is inside the document, and it has inserted nothing |
| `AttachmentProtocol.StepKeepsValid` | apps/editor/src/code-editor-file-embeds.ts:149-276 | every action keeps: anchors inside the document, distinct ids never reused, nothing inserted twice, uploaded text only from logged jobs |
| `AttachmentProtocol.Opened` | apps/editor/src/code-editor-file-embeds.ts:149-150 | a new editor shows the text, has no jobs, is open and editable, and satisfies the invariant |
| `AttachmentOrder.StepKeepsPrecedes` | apps/editor/src/code-editor-file-embeds.ts:151-169 | a place that separates one job's text and anchor from another's survives every action |
| `AttachmentOrder.RunKeepsPrecedes` | apps/editor/src/code-editor-file-embeds.ts:151-276 | and every run |
| `AttachmentOrder.Run` | apps/editor/src/code-editor-file-embeds.ts:149-276 | every state of every run satisfies the invariant |
| `AttachmentOrder.AnchorOrderIsTextOrder` | apps/editor/src/code-editor-file-embeds.ts:151-276 | if one pending anchor is ahead of another, all text of its job precedes all text of the other after every run |
| `AttachmentOrder.DropOrderIsTextOrder` | apps/editor/src/code-editor-file-embeds.ts:235-276 | files of one drop keep their order in the text under edits, deletions, other drops and any order of completions |
| `AttachmentOrder.GoneStaysGone` | apps/editor/src/code-editor-file-embeds.ts:254-256 | a job that is no longer pending never returns, and inserts nothing after its anchor was removed or deleted |
| `AttachmentOrder.ClosedIsInert` | apps/editor/src/code-editor-file-embeds.ts:247-275 | after the view is closed no upload event changes the text or the pending jobs, in any run |
| `AttachmentOrder.ClosedExactly` | apps/editor/src/code-editor-file-embeds.ts:227-230 | after every run the view is closed exactly when the run closed it or it was closed before |
| `AttachmentOrder.EnabledIsLast` | apps/editor/src/code-editor-file-embeds.ts:234 | and editable exactly as it was last set |
| `AttachmentConfluence.BlockInsertionIsPadded` | apps/editor/src/code-editor-file-embeds.ts:211-215 | the inserted block is the reference with a blank line towards each neighbour that is there and is not a line break |
| `AttachmentConfluence.LandingFits` | apps/editor/src/code-editor-file-embeds.ts:211-215 | a reference landing at a fitting anchor yields the expected document with the reference at its place in drop order |
| `AttachmentConfluence.RunKeepsSettled` | apps/editor/src/code-editor-file-embeds.ts:149-276 | every run of upload events keeps the text the expected document and every anchor fitting |
| `AttachmentConfluence.DropAtOnePlace` | apps/editor/src/code-editor-file-embeds.ts:235-242 | a drop into an editor without pending uploads puts all its anchors at one place |
| `AttachmentConfluence.DropProducesDocument` | apps/editor/src/code-editor-file-embeds.ts:235-276 | after any run of upload events the text is left part, finished references in drop order joined by blank lines, right part |
| `AttachmentConfluence.Confluence` | apps/editor/src/code-editor-file-embeds.ts:149-276 | two runs after one drop in which the same jobs got through end with the same text |
| `AttachmentSites.LandingKeepsAll` | apps/editor/src/code-editor-file-embeds.ts:151-169 | with anchors at any places, a landing keeps every place settled: its own, those left of it and those right of it |
| `AttachmentSites.RunKeepsAll` | apps/editor/src/code-editor-file-embeds.ts:149-276 | and so does every run of upload events |
| `AttachmentSites.UploadsProduceText` | apps/editor/src/code-editor-file-embeds.ts:149-276 | from any state, every run of upload events gives the original text with, at every place, the references that got through there in drop order |
| `AttachmentSites.ConfluenceAnywhere` | apps/editor/src/code-editor-file-embeds.ts:149-276 | two runs from any state in which the same pending jobs got through end with the same text, wherever the anchors stand |
| `AttachmentCapture.MoveJobs` | apps/editor/src/code-editor-file-embeds.ts:154-161 | the filter and map compute the specified list |
| `AttachmentCapture.PerformEffects` | apps/editor/src/code-editor-file-embeds.ts:162-169 | the loop over effects computes the specified list |
| `AttachmentCapture.Capture.Dispatch` | apps/editor/src/code-editor-file-embeds.ts:151-170 | a transaction changes document and list as specified and nothing else |
| `AttachmentCapture.Capture.Add` | apps/editor/src/code-editor-file-embeds.ts:235-245 | a drop takes the protocol's step and keeps the invariant |
| `AttachmentCapture.Capture.Begin` | apps/editor/src/code-editor-file-embeds.ts:246-251 | an upload starts exactly for a pending job of an open, editable view, and its error is cleared |
| `AttachmentCapture.Capture.Resolved` | apps/editor/src/code-editor-file-embeds.ts:252-268 | an arriving reference takes the protocol's step: insert, report not editable, or ignore |
| `AttachmentCapture.Capture.Rejected` | apps/editor/src/code-editor-file-embeds.ts:269-275 | a failure marks a job that is still pending |
| `AttachmentCapture.Capture.Discard` | apps/editor/src/code-editor-file-embeds.ts:238-240 | removal takes the job away in an open, editable view |
| `AttachmentCapture.Capture.Destroy` | apps/editor/src/code-editor-file-embeds.ts:227-230 | closing the view takes the protocol's step and keeps the invariant |
| `StepTables.Steps` | runtime/scripts/gen-normalization-tables.py:78-85 | the generator's loop yields a table whose lookup is the value at every one of the 0x110000 code points |
| `StepTables.StepsIncrease` | runtime/scripts/gen-normalization-tables.py:78-85 | starts strictly increase, and each entry is a place where the value really changes |
| `StepTables.LookupSteps` | runtime/scripts/gen-normalization-tables.py:78-88 | the last step at or before a code point gives the function's value there |
| `StepTables.StepsAreFewest` | runtime/scripts/gen-normalization-tables.py:78-85 | no increasing step table for the same function has fewer entries |
| `StepTables.PackedOrder` | runtime/scripts/gen-normalization-tables.py:122 | a packed entry is at most the search key exactly when its start is at most the code point |
| `StepTables.PackedLookupIsLookup` | runtime/crates/core/src/unicode/normalize.rs:39-50 | the partition search on packed entries is the lookup on steps, and its predicate is partitioned |
| `StepTables.SearchPacked` | runtime/crates/core/src/unicode/normalize.rs:39-50 | bisection of the packed table gives the value |
| `StepTables.TableIsFunction` | runtime/scripts/gen-normalization-tables.py:78-131 | generating, packing and searching together give back the value function |
| `NormalizationTables.BuildEntries` | runtime/scripts/gen-normalization-tables.py:64-76 | the loop yields an entry per code in order, and refuses exactly what the two assertions refuse |
| `NormalizationTables.Unpack` | runtime/crates/core/src/unicode/normalize.rs:21-31 | the accessors recover code, first, second and the composable bit from the packed word |
| `NormalizationTables.PackFits` | runtime/scripts/gen-normalization-tables.py:72 | a packed word has 64 bits |
| `CompositionIndex.IndexIsSorted` | runtime/scripts/gen-normalization-tables.py:73-75 | the index lists exactly the composable entries, each once, sorted by pair, entries of one pair in their own order |
| `CompositionIndex.IndexFits` | runtime/scripts/gen-normalization-tables.py:76 | under the assertion on their number, the indices fit 16 bits |
| `CompositionIndex.CodesPartitioned` | runtime/crates/core/src/unicode/normalize.rs:65 | the words are partitioned by every code |
| `CompositionIndex.SearchCode` | runtime/crates/core/src/unicode/normalize.rs:65-75 | bisection by code finds the entry exactly when there is one |
| `CompositionIndex.FindCodeFinds` | runtime/crates/core/src/unicode/normalize.rs:65-67 | the partition point by code is the entry of that code |
| `CompositionIndex.FindCodeSound` | runtime/crates/core/src/unicode/normalize.rs:65-67 | and only an entry of that code |
| `CompositionIndex.FindPairSound` | runtime/crates/core/src/unicode/normalize.rs:109-114 | the search by pair returns only a composable entry of that pair |
| `CompositionIndex.FindPairComplete` | runtime/crates/core/src/unicode/normalize.rs:109-114 | the search succeeds whenever some entry has the pair, and returns the first of them |
| `CompositionIndex.PairsPartitioned` | runtime/crates/core/src/unicode/normalize.rs:109-112 | the index is partitioned by every pair |
| `CompositionIndex.SearchPair` | runtime/crates/core/src/unicode/normalize.rs:109-114 | bisection of the index finds the first composable entry of the pair exactly when there is one |
| `GeneratedTables.ClassAgrees` | runtime/crates/core/src/unicode/normalize.rs:39-43 | the runtime's combining class is the database's |
| `GeneratedTables.MarkAgrees` | runtime/crates/core/src/unicode/normalize.rs:46-50 | a character is a combining mark exactly when the database says so |
| `GeneratedTables.PartsAgree` | runtime/crates/core/src/unicode/normalize.rs:65-75 | the runtime finds exactly the database's one-step decompositions |
| `GeneratedTables.CompositeAgrees` | runtime/crates/core/src/unicode/normalize.rs:109-114 | a pair composes to a character that decomposes into it and is not excluded, and fails only when there is none |
| `GeneratedTables.ToChar` | runtime/crates/core/src/unicode/normalize.rs:33-36 | a word always gives a scalar value: its own, or the replacement character |
| `GeneratedTables.ComposeUndoesDecompose` | runtime/scripts/gen-normalization-tables.py:64-76 | with distinct pairs, composing a decomposition returns the original code |
| `GeneratedTables.GeneratedTablesAreSound` | runtime/scripts/gen-normalization-tables.py:38-88 | tables generated from a well-formed database satisfy what the normalizer needs |
| `Normalization.DecomposeIrreducible` | runtime/crates/core/src/unicode/normalize.rs:53-76 | full decomposition leaves only characters that do not decompose |
| `Normalization.ReorderOrdered` | runtime/crates/core/src/unicode/normalize.rs:79-92 | after reordering no mark follows one of higher class |
| `Normalization.ReorderElements` | runtime/crates/core/src/unicode/normalize.rs:79-92 | reordering permutes |
| `Normalization.OrderedFixed` | runtime/crates/core/src/unicode/normalize.rs:79-92 | text in canonical order is left alone |
| `Normalization.ReorderIgnoresExchange` | runtime/crates/core/src/unicode/normalize.rs:79-92 | exchanging two neighbouring marks of different class does not change the result |
| `Normalization.ReorderIgnoresJump` | runtime/crates/core/src/unicode/normalize.rs:134-150 | nor does moving a mark across marks of lower class |
| `Normalization.HangulPairDecomposes` | runtime/crates/core/src/unicode/normalize.rs:95-108 | an algorithmic Hangul composite decomposes into its parts' decompositions |
| `Normalization.PairDecomposes` | runtime/crates/core/src/unicode/normalize.rs:95-115 | every composite decomposes into its parts' decompositions |
| `Normalization.NfdIdempotent` | runtime/crates/core/src/unicode/normalize.rs:118-125 | NFD is ordered, irreducible and idempotent |
| `Normalization.ComposeStepEquivalent` | runtime/crates/core/src/unicode/normalize.rs:140-156 | one turn of the composition loop is canonically equivalent to appending the character |
| `Normalization.ComposeRunEquivalent` | runtime/crates/core/src/unicode/normalize.rs:134-157 | decomposing and reordering a composition gives back the ordered text |
| `Normalization.NfdOfNfc` | runtime/crates/core/src/unicode/normalize.rs:128-158 | NFC keeps the canonical decomposition |
| `Normalization.NfcIdempotent` | runtime/crates/core/src/unicode/normalize.rs:128-158 | NFC is idempotent and absorbs NFD |
| `Normalization.FormsAgree` | runtime/crates/core/src/unicode/normalize.rs:118-158 | two strings have the same NFC exactly when they have the same NFD |
| `CanonicalEquivalence.MappingIsInvisible` | runtime/crates/core/src/unicode/normalize.rs:53-76 | replacing a character by its one-step mapping, in any surroundings, does not change the NFD: singletons, pairs and Hangul syllables alike |
| `CanonicalEquivalence.UnmappedStays` | runtime/crates/core/src/unicode/normalize.rs:53-76 | a character without a mapping is its own NFD and NFC |
| `CanonicalEquivalence.ExchangeIsInvisible` | runtime/crates/core/src/unicode/normalize.rs:79-92 | exchanging neighbouring unmapped marks of different class does not change the NFD |
| `CanonicalEquivalence.EquivalentToNfd` | runtime/crates/core/src/unicode/normalize.rs:118-125 | every text is connected with its NFD by mappings and exchanges |
| `CanonicalEquivalence.FormsDecideEquivalence` | runtime/crates/core/src/unicode/normalize.rs:118-158 | two texts have one NFD, and one NFC, exactly when mappings and exchanges connect them: canonical equivalence is decided |
| `CanonicalEquivalence.FormsAreEquivalent` | runtime/crates/core/src/unicode/normalize.rs:118-158 | a text, its NFD and its NFC are canonically equivalent |
| `Composition.ReachesUnlessBlocked` | runtime/crates/core/src/unicode/normalize.rs:142-146 | the loop's tests on adjacency and last class decide whether a character is blocked from the starter, as definition D115 of the Unicode Standard has it |
| `Composition.ComposesUnlessBlocked` | runtime/crates/core/src/unicode/normalize.rs:134-157 | every character in turn replaces the last starter by their composite, or is left in the output; it is left only without a starter, blocked, or without a composite |
| `Composition.SyllableMade` | runtime/crates/core/src/unicode/normalize.rs:95-108 | the parts of every Hangul syllable compose to it |
| `Composition.NfcKeepsPrimary` | runtime/crates/core/src/unicode/normalize.rs:128-158 | NFC leaves every Hangul syllable and every primary composite in one piece, and makes it from its decomposition |
| `NormalizationRuntime.ReorderRun` | runtime/crates/core/src/unicode/normalize.rs:86-91 | reordering behind a starter is a stable sort of the run by class |
| `NormalizationRuntime.SortRun` | runtime/crates/core/src/unicode/normalize.rs:90 | the slice is stably sorted in place and the rest untouched |
| `NormalizationRuntime.ReorderInPlace` | runtime/crates/core/src/unicode/normalize.rs:79-92 | the two nested loops reorder the whole array canonically |
| `NormalizationRuntime.ToNfd` | runtime/crates/core/src/unicode/normalize.rs:118-125 | the imperative form computes NFD |
| `NormalizationRuntime.ToNfc` | runtime/crates/core/src/unicode/normalize.rs:128-158 | the composition loop with its starter and last class computes NFC |
| `NormalizationRuntime.AsciiShortcut` | runtime/crates/core/src/unicode/mod.rs:39-45 | returning ASCII unchanged is what the full algorithm does |
| `NormalizationRuntime.AsciiInertIff` | runtime/crates/core/src/unicode/mod.rs:39-45 | generated tables are inert on ASCII exactly when the database has no mapping, class or composite there |
| `NormalizationRuntime.GeneratedAsciiShortcut` | runtime/crates/core/src/unicode/mod.rs:39-45 | so the shortcut is right on generated tables |
| `TzdbBytes.EncodeVarint` | runtime/scripts/gen-tzdb-table.py:26-33 | the loop with its bit operations writes the base-128 form |
| `TzdbBytes.VarintRoundTrip` | runtime/scripts/gen-tzdb-table.py:26-33 | reading a written varint returns the number and the rest, in strict mode exactly when it has at most 64 bits |
| `TzdbBytes.DecodeVarint` | runtime/crates/core/src/cel/time/tzdb.rs:113-131 | the runtime's loop is the strict reader: canonical, at most ten groups, 64 bits |
| `TzdbBytes.ZigZagRoundTrip` | runtime/scripts/gen-tzdb-table.py:36-37 | zigzag is invertible, and 64 unsigned bits hold exactly the 64-bit signed numbers |
| `TzdbBytes.SignedRoundTrip` | runtime/crates/core/src/cel/time/tzdb.rs:113-136 | a signed number is read back with the rest left over, in strict mode exactly when it fits 64 bits |
| `TzdbFormat.TransitionsRoundTrip` | runtime/crates/core/src/cel/time/tzdb.rs:160-170 | delta-coded transitions are recovered, in strict mode exactly when they increase and offsets are in range |
| `TzdbFormat.ZoneRoundTrip` | runtime/crates/core/src/cel/time/tzdb.rs:151-180 | a row is self-delimiting: it is recovered with whatever follows it left over |
| `TzdbFormat.ZonesRoundTrip` | runtime/scripts/gen-tzdb-table.py:84-85 | so are rows concatenated without offsets |
| `TzdbFormat.NamesRoundTrip` | runtime/crates/core/src/cel/time/tzdb.rs:181-198 | names and indices are recovered, in strict mode exactly when names increase and indices exist |
| `TzdbFormat.DatabaseRoundTrip` | runtime/crates/core/src/cel/time/tzdb.rs:138-200 | decoding returns the database exactly when every check of the runtime holds; the lenient reader always does |
| `TzdbFormat.AcceptedMeans` | runtime/crates/core/src/cel/time/tzdb.rs:138-200 | the checks amount to: 1 to 512 rule sets that pass, 1 to 1024 ASCII names, strictly ascending, each leading to a rule set, and at most 256 KiB |
| `TzdbFormat.ZoneAcceptedMeans` | runtime/crates/core/src/cel/time/tzdb.rs:151-175 | a rule set passes exactly when offsets are within a day, at most 4096 transitions ascend with 64-bit times and distances, and the footer is an ASCII rule or absent |
| `TzdbFormat.TextLessMeans` | runtime/crates/core/src/cel/time/tzdb.rs:189-196 | the order of names is decided where they first part |
| `TzdbFormat.MagicSpells` | runtime/scripts/gen-tzdb-table.py:83 | a file begins with the characters of its format and release |
| `TzdbFormat.DatabaseBytesInjective` | runtime/scripts/gen-tzdb-table.py:83-90 | different databases have different bytes |
| `TzdbFormat.ZoneBytesInjective` | runtime/scripts/gen-tzdb-table.py:56-62 | different rule sets have different rows |
| `TzdbSource.WriteTransitions` | runtime/scripts/gen-tzdb-table.py:56-60 | the loop with its running `prev` writes the delta code, failing exactly at an index that does not exist |
| `TzdbSource.EncodeTzif` | runtime/scripts/gen-tzdb-table.py:40-62 | a file becomes the row of the rule set read from it, or is refused; what is read is stated by `TzifFormat.ParseReadsFormat` |
| `TzdbSource.ParseShape` | runtime/scripts/gen-tzdb-table.py:40-55 | an accepted file has matching arrays, at least one type, and counts within the row's widths |
| `TzifFormat.ParseReadsFormat` | runtime/scripts/gen-tzdb-table.py:40-55 | for every file laid out by section 3 of RFC 9636, with any version-1 block, designations and indicators: exactly its times, indices, types and footer are read, or it is refused for its version, leap seconds, lack of types, or lengths |
| `TzifFormat.CutShort` | runtime/scripts/gen-tzdb-table.py:42-54 | a file cut inside its headers or arrays is refused; cut behind them it loses the end of the footer only |
| `TzdbSource.FirstMeans` | runtime/scripts/gen-tzdb-table.py:52 | the initial offset is that of the first type that is not daylight saving time, or of the first type |
| `TzdbSource.MeaningPreserved` | runtime/crates/core/src/cel/time/tzdb.rs:22-39 | the row gives the source arrays' offset at every instant, the footer's rule after the last transition, and the first standard offset before the first |
| `TzdbSource.AcceptedIncreases` | runtime/crates/core/src/cel/time/tzdb.rs:162-170 | accepted transitions strictly increase, so they are partitioned by every instant |
| `TzdbSource.SearchOffset` | runtime/crates/core/src/cel/time/tzdb.rs:22-39 | bisection of accepted transitions gives the offset |
| `TzdbGenerator.RowsContain` | runtime/scripts/gen-tzdb-table.py:80-82 | comparing rows of bytes is comparing rule sets, and finds the same index |
| `TzdbGenerator.CollectRows` | runtime/scripts/gen-tzdb-table.py:75-82 | the loop over files collects the deduplicated rows and the names with their indices, or fails with a refused file |
| `TzdbGenerator.RulesDistinct` | runtime/scripts/gen-tzdb-table.py:80-81 | rows are pairwise distinct |
| `TzdbGenerator.RulesGrow` | runtime/scripts/gen-tzdb-table.py:80-82 | rows and names are only appended, so earlier indices stay valid |
| `TzdbGenerator.NameLeadsToZone` | runtime/scripts/gen-tzdb-table.py:76-82 | every file's name leads to that file's rule set |
| `TzdbGenerator.WriteRows` | runtime/scripts/gen-tzdb-table.py:84-85 | the loop concatenates the rows |
| `TzdbGenerator.WriteNames` | runtime/scripts/gen-tzdb-table.py:87-90 | the loop writes the names, failing exactly for one that is not ASCII or too long |
| `TzdbGenerator.GenerateDatabase` | runtime/scripts/gen-tzdb-table.py:75-90 | the whole byte string is the encoding of the collected database; refusal exactly where a width or an assertion is violated |
| `TzdbGenerator.LookupFinds` | runtime/crates/core/src/cel/time/tzdb.rs:57-73 | the partition point by name leads to the rules of every name of an accepted database |
| `TzdbGenerator.LookupRejects` | runtime/crates/core/src/cel/time/tzdb.rs:65-68 | in an accepted database exactly the names that are not there are unknown |
| `TzdbGenerator.NamesPartitioned` | runtime/crates/core/src/cel/time/tzdb.rs:65-68 | accepted names are partitioned by every name |
| `TzdbGenerator.SearchName` | runtime/crates/core/src/cel/time/tzdb.rs:57-73 | bisection finds a name exactly when it is there |
| `TzdbGenerator.NamedZoneMeansItsFile` | runtime/crates/core/src/cel/time/tzdb.rs:57-85 | from compiled files through bytes, decoder and lookup: every name has at every instant the offset of its own file |
| `TzifFormat.NamedZoneMeansItsData` | runtime/crates/core/src/cel/time/tzdb.rs:57-85 | the same from the data written into the files: every name has at every instant the offset that its times, types and footer say |
| `TzdbGenerator.PathOrderIsPartsOrder` | runtime/scripts/gen-tzdb-table.py:76 | the byte-wise path order is the lexicographic order of the lists of path parts |
| `TzdbGenerator.PathOrderIsTextOrder` | runtime/scripts/gen-tzdb-table.py:76 | two names in path order are in byte order exactly when no separator meets a lower byte where they part |
| `TzdbGenerator.PathSortedAccepted` | runtime/crates/core/src/cel/time/tzdb.rs:189-196 | a list of names in path order passes the decoder's check exactly when no two neighbours part in that way |
| `TzdbGenerator.GeneratedAccepted` | runtime/crates/core/src/cel/time/tzdb.rs:138-200 | for files visited in path order, the decoder returns the generated database exactly when its limits hold and no two neighbouring names part in that way, and refuses it otherwise |
| `TzdbGenerator.PathOrderRefused` | runtime/crates/core/src/cel/time/tzdb.rs:189-196 | two names in path order that the decoder refuses |
| `FieldReferences.SplitJoin` | packages/ui/contract-setup.ts:445-462 | splitting undoes joining for parts without the separator |
| `FieldReferences.EscapeRoundTrip` | packages/ui/contract-setup.ts:445-462 | the two sequential replacements undo the two escapes |
| `FieldReferences.ReferenceRoundTrip` | packages/ui/contract-setup.ts:445-451 | the segments can be read back from a reference in either syntax |
| `FieldReferences.ReferenceInjective` | packages/ui/contract-setup.ts:445-451 | different segment lists have different references, across both syntaxes |
| `FieldReferences.DottedExactly` | packages/ui/contract-setup.ts:445-451 | dots are used exactly if every name is an ASCII letter or underscore followed by letters, digits, underscores and hyphens |
| `FieldReferences.LastSegmentIsLast` | packages/ui/contract-setup.ts:457-462 | the last segment of every non-empty list is recovered |
| `FieldReferences.UniqueBy` | packages/ui/contract-setup.ts:480-488 | the first value of every key stays, in order; nothing is dropped if no key repeats |
| `SchemaWalk.ResolvedSchema` | packages/ui/contract-setup.ts:354-364 | the loop over segments resolves one hop; what that is, `SchemaWalk.ResolveMeans` states |
| `SchemaWalk.ResolveMeans` | packages/ui/contract-setup.ts:354-364 | a reference that spells a path of field names, with its escapes, leads to the record at the end of that path from the root, and to the schema itself if there is none |
| `SchemaWalk.ResolveItself` | packages/ui/contract-setup.ts:358 | a schema without a local reference stands for itself |
| `SchemaWalk.BranchKinds` | packages/ui/contract-setup.ts:366-370 | branches are the records in the arrays under allOf, anyOf and oneOf; for required fields, allOf alone |
| `SchemaWalk.BranchesInOrder` | packages/ui/contract-setup.ts:366-370 | branches come by kind, and within a kind in the order of the array |
| `SchemaWalk.DeclarationsMean` | packages/ui/contract-setup.ts:331-347 | a schema declares the keys of the record under properties, and requires the strings in the array under required |
| `SchemaWalk.LastDeclarationWins` | packages/ui/contract-setup.ts:331-334 | of several declarations of one property the one visited last counts |
| `SchemaWalk.VisitInOrder` | packages/ui/contract-setup.ts:328-334 | the visit begins with the schema itself and goes on branch by branch |
| `SchemaWalk.VisitExplores` | packages/ui/contract-setup.ts:323-336 | a walk with any shared `seen` set leaves it closed apart from what was open before, visiting each schema once and only reachable ones |
| `SchemaWalk.VisitIsReachability` | packages/ui/contract-setup.ts:323-352 | a walk visits exactly the schemas reachable through branches and one-hop references |
| `SchemaWalk.Walk.SchemaProperties` | packages/ui/contract-setup.ts:323-336 | the recursive method with its mutable set merges properties in visiting order, and terminates on cycles |
| `SchemaWalk.Walk.SchemaRequiredFields` | packages/ui/contract-setup.ts:338-352 | the same for required fields over `allOf` |
| `SchemaWalk.CollectProperties` | packages/ui/contract-setup.ts:323-370 | the keys are exactly those of all reachable schemas |
| `SchemaWalk.CollectRequired` | packages/ui/contract-setup.ts:338-352 | the required names are exactly those of all schemas reachable by `allOf` |
| `SchemaWalk.PropertiesReachable` | packages/ui/contract-setup.ts:323-370 | a key is collected exactly when a reachable schema declares it |
| `SchemaWalk.RequiredReachable` | packages/ui/contract-setup.ts:338-352 | a name is required exactly when a schema reachable by `allOf` requires it |
| `TypeFields.VisitFields` | packages/ui/contract-setup.ts:135-161 | the nested visit lists exactly the field paths within the depth limit, each once, with its required flag |
| `TypeFields.VisitProperty` | packages/ui/contract-setup.ts:144-160 | one property contributes itself and everything below it |
| `TypeFields.ListFields` | packages/ui/contract-setup.ts:133-164 | `typeFields` lists every field exactly once; references are distinct, so nothing is dropped |
| `TypeFields.FieldMeans` | packages/ui/contract-setup.ts:135-161 | a path along schemas is a field exactly when each schema has its name and the path has at most thirteen names, and required exactly when each schema requires its name |
| `TypeFields.FieldGoesThrough` | packages/ui/contract-setup.ts:135-161 | and every field goes along such schemas |
| `TypeFields.ShapeMeans` | packages/ui/contract-setup.ts:133-164 | the names are those of the schemas reachable by any branch, the required ones those reachable by allOf, and a property leads on to the object schema it resolves to |
| `MutationScope.TokenSurvivesIff` | apps/editor/src/collection-mutation-scope.ts:25-53 | a token is still owned exactly when no owner change happened since it was taken, even if the same owner came back, and current exactly when moreover the scope is not frozen |
| `MutationScope.OwnerIsLast` | apps/editor/src/collection-mutation-scope.ts:49-53 | after every run the owner is the one of the last change |
| `MutationScope.FrozenIsLast` | apps/editor/src/collection-mutation-scope.ts:37-47 | and the scope is frozen exactly as it was last set |
| `MutationScope.PublicationIsCurrent` | apps/editor/src/collection-mutation-scope.ts:61-69 | a value is published exactly when no owner change happened since its token was taken; the outcome never changes |
| `MutationScope.RejectionPasses` | apps/editor/src/collection-mutation-scope.ts:62-68 | a rejected promise stays a rejection with its own reason, whoever owns the scope |
| `MutationScope.StepKeepsValid` | apps/editor/src/collection-mutation-scope.ts:16-88 | every event keeps pending operations distinct and registered, every unsettled operation pending, and a drain's failure the first rejection it awaited |
| `MutationScope.ReachableIsValid` | apps/editor/src/collection-mutation-scope.ts:16-88 | so does every run from a new scope |
| `MutationScope.DrainEndsEmpty` | apps/editor/src/collection-mutation-scope.ts:74-83 | a run in which a drain ended went through a moment at which nothing was pending and everything registered had settled |
| `MutationScope.DrainOutcome` | apps/editor/src/collection-mutation-scope.ts:71-84 | a drain that returned awaited everything pending at its start and all of it was fulfilled; one that threw gives the first rejection; turns are bounded by operations |
| `MutationScope.FirstRejectionMeans` | apps/editor/src/collection-mutation-scope.ts:76-81 | the first rejection is that of an operation before which none was rejected |
| `MutationScope.DrainThrowsEarliest` | apps/editor/src/collection-mutation-scope.ts:71-84 | in every run, a drain that threw gives the failure of the operation registered first among all it awaited that failed, in whatever order they settled |
| `MutationScope.ProgressPossible` | apps/editor/src/collection-mutation-scope.ts:74-83 | a waiting drain is never stuck: an operation can settle or be forgotten, or the drain can take a turn |
| `MutationScope.ProgressLowersWork` | apps/editor/src/collection-mutation-scope.ts:61-84 | each such event uses up work, and nothing but a registration or a new drain adds any |
| `MutationScope.DrainTerminates` | apps/editor/src/collection-mutation-scope.ts:71-84 | once no more operations are registered, only a bounded number of such events can happen, and a run that can have no further one has ended the drain, with nothing pending and everything settled |
| `MutationScope.DrainCanEnd` | apps/editor/src/collection-mutation-scope.ts:71-84 | every waiting drain has such a run |
| `MutationScope.CollectionMutationScope.IsTokenCurrent` | apps/editor/src/collection-mutation-scope.ts:29-30 | a token taken at any earlier moment is current exactly when the scope is not frozen and no owner change happened since |
| `MutationScope.CollectionMutationScope.Freeze` | apps/editor/src/collection-mutation-scope.ts:37-41 | freezing changes only the flag |
| `MutationScope.CollectionMutationScope.Unfreeze` | apps/editor/src/collection-mutation-scope.ts:43-47 | so does unfreezing |
| `MutationScope.CollectionMutationScope.ChangeOwner` | apps/editor/src/collection-mutation-scope.ts:49-53 | a change of owner invalidates the previous token whoever the new owner is |
| `MutationScope.CollectionMutationScope.Run` | apps/editor/src/collection-mutation-scope.ts:55-58 | nothing is accepted while frozen; otherwise the operation is registered under the present token |
| `MutationScope.CollectionMutationScope.Register` | apps/editor/src/collection-mutation-scope.ts:61-69 | the operation becomes pending and the invariant stays |
| `MutationScope.CollectionMutationScope.Resolve` | apps/editor/src/collection-mutation-scope.ts:62-65 | a value is passed on only if the token is owned at that moment |
| `MutationScope.CollectionMutationScope.Reject` | apps/editor/src/collection-mutation-scope.ts:62-65 | a rejection passes through |
| `MutationScope.CollectionMutationScope.Forget` | apps/editor/src/collection-mutation-scope.ts:67 | a settled operation is no longer pending |
| `MutationScope.CollectionMutationScope.DrainBegin` | apps/editor/src/collection-mutation-scope.ts:71-75 | a drain awaits a snapshot, or ends at once |
| `MutationScope.CollectionMutationScope.DrainResume` | apps/editor/src/collection-mutation-scope.ts:75-83 | the loop over outcomes keeps the first failure of all snapshots |
| `AttachmentUpload.CandidatesDiffer` | apps/editor/src/AttachmentUpload.tsx:264-266 | numbered candidates have different folded paths |
| `AttachmentUpload.OccupiedBounds` | apps/editor/src/AttachmentUpload.tsx:264-266 | an occupied set of n paths can block at most n numbered candidates |
| `AttachmentUpload.AvailablePath` | apps/editor/src/AttachmentUpload.tsx:255-268 | the search ends on the first free candidate, after at most as many copies as paths are occupied |
| `AttachmentUpload.FirstCandidate` | apps/editor/src/AttachmentUpload.tsx:255-263 | the first candidate is the name in the Attachments folder beside the note |
| `AttachmentUpload.NumberedCandidate` | apps/editor/src/AttachmentUpload.tsx:264-266 | a later one has its number in brackets before the last dot of the name |
| `AttachmentUpload.NumberedWhole` | apps/editor/src/AttachmentUpload.tsx:259-266 | or at the end, if the name has no dot behind its first character |
| `AttachmentUpload.DigitsRead` | apps/editor/src/AttachmentUpload.tsx:266 | the digits spell the number |
| `AttachmentUpload.StepKeepsValid` | apps/editor/src/AttachmentUpload.tsx:176-204 | every event keeps each reservation set exactly the paths of the uploads that hold it, all different: no reservation leaks |
| `AttachmentUpload.FlightsDistinct` | apps/editor/src/AttachmentUpload.tsx:176-204 | in every run, resets included, all uploads in flight hold different paths, reserved in the current set |
| `AttachmentUpload.FlightsBeganFree` | apps/editor/src/AttachmentUpload.tsx:183-186 | every upload in flight took a path that was neither in the inventory nor reserved at the moment it started |
| `AttachmentUpload.FinishHandsOver` | apps/editor/src/AttachmentUpload.tsx:189-195 | a finished upload is in the inventory when its reservation is released, and no other is touched |
| `AttachmentUpload.FailureReleases` | apps/editor/src/AttachmentUpload.tsx:189-195 | a failed upload, and one whose collection was left meanwhile, only gives its path free |
| `AttachmentUpload.EarlyResetCollides` | apps/editor/src/AttachmentUpload.tsx:198-204 | why a reset must wait for the uploads in flight: after one that did not, the next upload of the same name takes the path of one that still flies |
| `AttachmentUpload.Uploader.Start` | apps/editor/src/AttachmentUpload.tsx:183-186 | starting reserves the first free candidate |
| `AttachmentUpload.Uploader.Settle` | apps/editor/src/AttachmentUpload.tsx:187-195 | settling records and releases |
| `AttachmentUpload.Uploader.ResetSets` | apps/editor/src/AttachmentUpload.tsx:198-200 | a reset begins a new set and leaves the old one to its flights; without flights it is the reset event |
| `AttachmentUpload.ReferencesAreProper` | apps/editor/src/AttachmentUpload.tsx:281-287 | every reference is one for which confluence holds |
| `AttachmentUpload.CleanedMeans` | apps/editor/src/AttachmentUpload.tsx:282 | in a label every closing bracket and backslash becomes a hyphen, and nothing else changes |
| `AttachmentUpload.ImageReference` | apps/editor/src/AttachmentUpload.tsx:284 | an image is shown under its label |
| `AttachmentUpload.EmbeddedReference` | apps/editor/src/AttachmentUpload.tsx:285 | a PDF, sound or video is embedded by its path |
| `AttachmentUpload.LinkedReference` | apps/editor/src/AttachmentUpload.tsx:286 | anything else is linked under its label |
| `CollectionTransition.StepKeepsValid` | apps/editor/src/use-collection-transition.ts:43-65 | through uploads, transitions and leave dialogs, every upload in flight belongs to an upload operation that has not settled |
| `CollectionTransition.SafeIff` | apps/editor/src/App.tsx:1020-1032 | whatever goes on before the workspace is cleared, no upload can be in flight, if and only if the state is safe |
| `CollectionTransition.ApartIffSafe` | apps/editor/src/use-collection-transition.ts:49-53 | in a transition that has drained, no run that clears the workspace once leads to two uploads on one path, if and only if the state is safe |
| `CollectionTransition.UnsafeCollides` | apps/editor/src/use-collection-transition.ts:49-53 | from every unsafe state between drain and clearing, for a file of any name, a run that ends with two uploads in flight on one path |
| `CollectionTransition.UploadsStayApart` | apps/editor/src/use-collection-transition.ts:43-65 | through every run that clears the workspace only in safe states (scope frozen, every upload operation settled) all uploads in flight hold different paths |
| `CollectionTransition.TransitionsClearSafely` | apps/editor/src/use-collection-transition.ts:43-65 | freezing and draining make every clearing safe as long as nothing else lifts the freeze of a transition under way |
| `CollectionTransition.FrozenExactlyDuring` | apps/editor/src/use-collection-transition.ts:43-65 | where no leave dialog takes part, the scope is frozen exactly while a transition is under way, so that one that failed accepts work again |
| `CollectionTransition.ClearingMakesStale` | apps/editor/src/use-collection-transition.ts:52-54 | work begun before a clearing, and only such work, can no longer publish, even if the same collection is opened again |
| `CollectionTransition.ScopeRuns` | apps/editor/src/use-collection-transition.ts:43-65 | every run is a run of the mutation scope |
| `CollectionTransition.UploaderRuns` | apps/editor/src/use-collection-transition.ts:43-65 | and, if it clears only in safe states, a run of the uploader |
| `CollectionTransition.LeaveDialogUnfreezes` | apps/editor/src/App.tsx:1112-1125 | a leave dialog that freezes first and finishes during the transition leads to an unsafe state between drain and clearing |
| `DraftRecovery.PatchRestores` | apps/editor/src/draft-recovery.ts:75-79 | overlaying the patch on the base gives the current properties, null read as absent; its keys are exactly the differing ones |
| `DraftRecovery.MatchMeansNothingToRestore` | apps/editor/src/draft-recovery.ts:16-20 | a draft matches a record exactly when restoring it would change nothing |
| `DraftRecovery.StepKeepsDraft` | apps/editor/src/draft-recovery.ts:34-68 | one action of any tab drops a draft only by discard, expiry, overwrite or a record that holds it |
| `DraftRecovery.StepDropsExactly` | apps/editor/src/draft-recovery.ts:34-68 | and it does drop it for each of these reasons |
| `DraftRecovery.MalformedGoes` | apps/editor/src/draft-recovery.ts:43-56 | an unreadable entry stays exactly until the page is opened or its key touched |
| `DraftRecovery.StepElsewhere` | apps/editor/src/draft-recovery.ts:34-68 | other keys keep what they hold |
| `DraftRecovery.ExpiresAfterSevenDays` | apps/editor/src/draft-recovery.ts:51 | a draft expires when more than seven days have passed since it was written |
| `DraftRecovery.DraftLostForReason` | apps/editor/src/draft-recovery.ts:34-69 | in every interleaving a lost draft was there until an action with such a reason |
| `DraftRecovery.OtherSavesKeepDraft` | apps/editor/src/App.tsx:546-562 | acknowledgements for records that lack some of it leave another tab's edit in place |
| `DraftRecovery.Recovery.constructor` | apps/editor/src/draft-recovery.ts:24-28 | opening sweeps exactly the malformed and expired entries |
| `DraftRecovery.Recovery.ReadKey` | apps/editor/src/draft-recovery.ts:43-56 | a fresh draft is returned and kept, anything else removed |
| `DraftRecovery.Recovery.Read` | apps/editor/src/draft-recovery.ts:34-41 | a fresh draft that differs from the record is returned and kept; in every other case nothing is returned |
| `DraftRecovery.Recovery.Write` | apps/editor/src/draft-recovery.ts:58-60 | the draft is stored under its key with the time of writing, and no other key changes |
| `DraftRecovery.Recovery.Remove` | apps/editor/src/draft-recovery.ts:62-68 | an acknowledgement leaves a fresh draft that differs from the record |
| `NoteHistory.WithoutConcat` | apps/editor/src/App.tsx:488-497 | forgetting filters both sides of the current place independently |
| `NoteHistory.WithoutCount` | apps/editor/src/App.tsx:491-495 | the index moves back by the number of removed entries |
| `NoteHistory.WithoutOne` | apps/editor/src/App.tsx:490 | a single entry goes exactly when it is the forgotten path, which with `WithoutConcat` says what remains of every list |
| `NoteHistory.VisitMeans` | apps/editor/src/App.tsx:466-471 | a visit makes its path current, with nothing ahead and what was behind, but for the oldest beyond a hundred; a visit of the current path changes nothing |
| `NoteHistory.SelectMeans` | apps/editor/src/App.tsx:473-477 | after a valid selection that entry is current in the unchanged list |
| `NoteHistory.RenameMeans` | apps/editor/src/App.tsx:479-486 | a rename replaces the path wherever it stands and moves nothing |
| `NoteHistory.ForgetKeepsNearest` | apps/editor/src/App.tsx:488-497 | a surviving current entry stays current, otherwise the nearest earlier survivor becomes current |
| `NoteHistory.Navigation.RecordNavigation` | apps/editor/src/App.tsx:466-471 | a visit drops what was ahead, appends, and keeps the last hundred |
| `NoteHistory.Navigation.SelectIndex` | apps/editor/src/App.tsx:473-477 | a valid selection moves within the list, a stale one changes nothing |
| `NoteHistory.Navigation.ReplacePath` | apps/editor/src/App.tsx:479-486 | a rename maps both sides in place |
| `NoteHistory.Navigation.ForgetPath` | apps/editor/src/App.tsx:488-497 | the computed index is that of the filtered zipper |
| `CollectionBrowser.ListItems` | apps/editor/src/collection-browser.ts:153-179 | the loop produces the grouped list, or plain rows while searching |
| `CollectionBrowser.RowsAreEntries` | apps/editor/src/collection-browser.ts:167-178 | without its headers the list is the entries in order, each with its own index, for any titles |
| `CollectionBrowser.HeadersAreGroups` | apps/editor/src/collection-browser.ts:167-178 | its headers are the titles with repetitions in a row left out |
| `CollectionBrowser.RowsUnderHeaders` | apps/editor/src/collection-browser.ts:167-178 | every row stands under a header with its own title, and headers are numbered in order |
| `CollectionBrowser.UndatedLast` | apps/editor/src/collection-browser.ts:82-88 | in modified order, either direction, nothing dated follows an undated entry |
| `CollectionBrowser.DatedInOrder` | apps/editor/src/collection-browser.ts:82-88 | dated entries come newest first when descending, oldest first otherwise |
| `CollectionBrowser.SortedIsModifiedOrder` | apps/editor/src/collection-browser.ts:82-88 | the comparator is a total preorder, so a list sorted by it is in modified order throughout |
| `CollectionBrowser.RanksTogether` | apps/editor/src/collection-browser.ts:129-143 | in modified order entries of one group stand together |
| `CollectionBrowser.RankCovers` | apps/editor/src/collection-browser.ts:129-143 | which days a group covers: today or later, one day before, two to six, seven to twenty-nine, thirty or more |
| `CollectionBrowser.TitlesMean` | apps/editor/src/collection-browser.ts:129-143 | and what it is called |
| `CollectionBrowser.ModifiedHeadersOnce` | apps/editor/src/collection-browser.ts:129-179 | in modified order, either direction, every header appears once |
| `CollectionBrowser.PinnedHeadersOnce` | apps/editor/src/App.tsx:912-915 | it still does with pinned notes moved to the front |
| `CollectionBrowser.PinnedUnderPinned` | apps/editor/src/App.tsx:912-915 | the header above a row is the pinned one for pinned notes, and the label of its day for every other entry, an attachment with a pinned path included |
| `PageQueue.StepKeepsAwake` | apps/editor/src/demo-observe.ts:15-28 | a parked consumer has an empty queue and an unsettled load; a finished one has taken everything, and threw only the error of a failed load |
| `PageQueue.NeverStuck` | apps/editor/src/demo-observe.ts:22-28 | an unfinished stream always has a next event |
| `PageQueue.StreamEnds` | apps/editor/src/demo-observe.ts:22-30 | once the load is over every run is bounded, and one that cannot go on has ended the consumer |
| `PageQueue.StepKeepsFaithful` | apps/editor/src/demo-observe.ts:17-27 | pages taken and queued are contiguous and spell what the source reported |
| `PageQueue.StreamDelivers` | apps/editor/src/demo-observe.ts:14-30 | in every interleaving pages spell a prefix of the final list; a stream that returned gave all of it, ending with its one complete page |
| `PageQueue.StreamThrowsRejection` | apps/editor/src/demo-observe.ts:22-29 | a stream that threw gives the error with which its load was rejected |
| `PageQueue.ReportQueues` | apps/editor/src/demo-observe.ts:17-20 | whatever is reported, the new page holds the notes behind those already loaded, or none if the report is shorter |
| `PageQueue.Pages.Progress` | apps/editor/src/demo-observe.ts:17-20 | a report queues the new part and wakes the consumer |
| `PageQueue.Pages.LoadResolved` | apps/editor/src/demo-observe.ts:22-24 | the result is accepted unless a complete page was seen |
| `PageQueue.Pages.LoadSettled` | apps/editor/src/demo-observe.ts:24 | settling wakes the consumer |
| `PageQueue.Pages.Next` | apps/editor/src/demo-observe.ts:25-29 | one round yields the oldest page, parks, or ends |

## Left out

- React components, rendering, focus, keyboard and layout code of the editor; widgets and decorations of pending uploads.
- The caret that an insertion moves, undo history annotations, and CodeMirror itself beyond change sets and position mapping; neighbouring replaced ranges are separate sections here, which touches the same positions.
- The order in which one drop starts its uploads: completions in any order are covered instead.
- zlib compression, `zic`, downloads, files and command lines of the generator scripts; parsing of the Unicode data files (the model starts from the parsed maps).
- `sorted()` and Rust's stable sorts are modelled by the list they return, not by their own algorithm.
- Parsing and evaluation of POSIX time-zone rules: the decoder's acceptance of a rule and its offset are the parameters `posix` and `posixAt`.
- The time-zone decoder's `Reader` is modelled as functions that return what is left of the bytes instead of as an object that advances; only its varint loop is a method.
- Case folding and its table in `runtime/crates/core/src/unicode/mod.rs`.
- Cleaning of uploaded file names by regular expressions: the safe name is an input; the gateway is taken to store a file at the path it was asked for.
- Locale collation, the path tie-break of `compareEntries`, and groups by title, path or field, whose labels may repeat by design.
- Labels, descriptions, `schemaKind` (the parameter `isObject` tells object schemas) and everything in contract setup that suggests types or assesses mappings; property names that JavaScript objects inherit, such as `__proto__`.
- The order in which `typeFields` lists the fields of one schema: its properties are a map here.
- Listeners of the mutation scope; in `MutationScope` one drain runs at a time, and in `CollectionTransition` a leave dialog appears by its freezing and unfreezing alone.
- When a transition keeps the same collection it does not clear the workspace; saving open notes before the drain appears as other registered work.
- Storage items that are empty strings, and storage errors.
- A load of the page queue that rejects with a falsy value, which the generator ends without throwing.
- `packages/management`, the demo gateway, private collections, and the Rust runtime apart from the two modules above.
