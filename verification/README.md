# Verified models of the deployment guards

The repository ships its database schema, its published source and its
documentation behind a set of hand-written guards. This project models the
guards with the most branching and state, and proves what each one promises
over every input, every file and every run of accepted changes.

- **SQL admission.** A statement splitter and a tokenizer read the same
  migration text (`SqlText`, `SqlSplitter`, `SqlTokens`); `SqlStatementLaws`,
  `SqlCreationLaws` and `ScannerAgreement` prove what they find and that they
  agree. An expand-only reader admits files that only add (`ExpandOnlyGrammar`,
  `ExpandOnlyChecks`, `ExpandOnlyRoles`, `ExpandOnlyAdmission`,
  `ExpandOnlyLaws`, `ExpandOnlyReviewed`). A statement-by-statement machine
  admits a native store migration (`NativeStoreAdmission`, `NativeStoreLaws`,
  `NativeStorePurpose`, `NativeStoreData`), and a registry of issued approvals
  may only grow (`NativeStoreRegistry`).
- **Migration history.** The manifest and its history (`MigrationManifest`,
  `ManifestHistory`, `ManifestGenerations`, `ManifestCanonical`,
  `ManifestSelection`), and the append-only migration rails checked change by
  change and release by release (`MigrationRails`, `RailChecks`, `RailLaws`).
- **Text and byte formats.** The batch format of `git cat-file --batch` read by
  three readers (`BatchCodec`, `BatchReaders`, `ObjectReader`), globs translated
  to regular expressions (`IncludeGlobs`, `GlobLaws`), and the Markdown maskers
  and section bounds (`MarkdownMasks`, `MarkdownIndent`, `MarkdownSpans`,
  `MarkdownSpanLaws`, `MarkdownHeadings`).
- **State in memory.** The import closure of a function bundle (`ClosureGraph`),
  the report log's deduplication with eviction (`ReportDedupe`), test packing and
  timeout pins (`AffinityPacking`, `TimeoutPins`), and soak statistics
  (`SoakStatistics`, `SoakAccumulator`).

`Basics`, `Ordering` and `TextSplit` hold what several modules share. A loop
that changes variables, an array or an object in the source is a method here,
proved equal to a function of its inputs; the laws are lemmas about those
functions.

## Model

| member | source | states |
|---|---|---|
| `SqlSplitter.SqlStatements` | scripts/reviewed-platform-forward.ts:270-329 | the splitter's loop, in every mode, returns what the recursive reading of the text gives: the statements or the refusal |
| `SqlSplitter.SkipComment` | scripts/reviewed-platform-forward.ts:283-295 | the nested-comment loop stops exactly where the depth first returns to zero, or refuses at the end of the text |
| `SqlStatementLaws.AcceptedTexts` | scripts/reviewed-platform-forward.ts:270-329 | a text splits into given statements if and only if it is those statements, each one closed by its first top-level `;`, with only white space and comments between and after them |
| `SqlStatementLaws.Segment` | scripts/reviewed-platform-forward.ts:270-329 | the statements of an accepted text are cut out of it in order, with gaps of white space and comments |
| `SqlStatementLaws.SegmentedIsAccepted` | scripts/reviewed-platform-forward.ts:270-329 | any text laid out as statements with such gaps is accepted with exactly those statements |
| `SqlStatementLaws.ReadingAgain` | scripts/reviewed-platform-forward.ts:2063-2071 | in the default, dump and ASCII modes each statement splits to itself alone and the concatenation of the statements splits to the same list |
| `SqlStatementLaws.CreationOnlyRefuses` | scripts/reviewed-platform-forward.ts:285-320 | creation mode only adds refusals: what it accepts, it splits as the mode without it does |
| `SqlCreationLaws.CreationReadingAgain` | scripts/reviewed-platform-forward.ts:285-320 | in creation mode a statement of an accepted file reads again to itself if and only if it does not begin with a dollar body, and the statements in a row read again to themselves if and only if none of them does |
| `SqlCreationLaws.BodyMayBegin` | scripts/reviewed-platform-forward.ts:317-319 | such a statement exists: a body behind a comment that ends in AS is accepted in its file and refused by itself |
| `SqlTokens.PlatformSqlTokens` | scripts/reviewed-platform-forward.ts:566-614 | the tokenizer's loop returns the recursive reading of the text, complete or cut off at the same token |
| `SqlTokens.ReadToken` | scripts/reviewed-platform-forward.ts:570-611 | one turn of the tokenizer: the same token, skip or refusal as the reading of the rest of the text, whatever came before |
| `ScannerAgreement.ScannersAgree` | scripts/reviewed-platform-forward.ts:270-329 | wherever the native tokenizer completes, the ASCII splitter's statements end exactly at the `;` symbol tokens, and it refuses, as unterminated, exactly the texts whose last token is no `;`: through nested comments, doubled quotes, tagged dollar bodies and identifier-adjacent dollars |
| `ScannerAgreement.StatementsReadAlone` | scripts/reviewed-platform-forward.ts:566-614 | tokenizing one statement by itself gives the tokens the whole text has there, moved to its start, so reading statements one by one loses nothing |
| `ExpandOnlyAdmission.IsExpandOnlyPlatformForward` | scripts/reviewed-platform-forward.ts:616-674 | in each of its two modes the loops over tokens and statements accept a file exactly if it lexes completely, has a statement, and every statement passes every test of the mode |
| `ExpandOnlyAdmission.SplitStatements` | scripts/reviewed-platform-forward.ts:620-622 | the loop over tokens leaves the statements between semicolons that are not empty |
| `ExpandOnlyAdmission.CheckActions` | scripts/reviewed-platform-forward.ts:661-671 | the depth loop accepts exactly if parentheses close from the first ADD on and every comma outside them comes before another ADD |
| `ExpandOnlyChecks.ExpandOnlyExpressions` | scripts/reviewed-platform-forward.ts:414-557 | the passes with a stack, a map and three growing sets accept exactly the statements whose parts the grammar takes and whose other tokens are allowed where they stand |
| `ExpandOnlyChecks.MatchParentheses` | scripts/reviewed-platform-forward.ts:420-427 | the stack loop accepts exactly balanced parentheses and empty bracket pairs, and maps each parenthesis to the one that closes it |
| `ExpandOnlyRoles.CallsAllowed` | scripts/reviewed-platform-forward.ts:541-556 | in an admitted statement every name before a parenthesis belongs to the grammar around it or is a listed call or construct, every dot is in a name where the grammar has one or qualifies a listed call, every bracket is an array type's, and every CAST names a type after its own AS |
| `ExpandOnlyLaws.AcceptedStatement` | scripts/reviewed-platform-forward.ts:614-674 | every table, index or ALTER statement of an accepted file has balanced parentheses and no call but listed ones, and every ALTER TABLE action outside parentheses begins with ADD |
| `ExpandOnlyLaws.ActionsAdd` | scripts/reviewed-platform-forward.ts:506-509 | the first action of an accepted ALTER TABLE and each behind a comma outside parentheses is an ADD, read with quoted names as names |
| `ExpandOnlyLaws.NothingDestructive` | scripts/reviewed-platform-forward.ts:651 | no word and no quoted name of an accepted file is on the destructive list, in any case |
| `ExpandOnlyLaws.FilesTogether` | scripts/reviewed-platform-forward.ts:616-674 | two files in one, the first ending at its semicolon, are accepted if and only if each is accepted or without statements and not both are without |
| `ExpandOnlyLaws.ManyFilesTogether` | scripts/reviewed-platform-forward.ts:616-674 | any number of files with statements, each ending at its semicolon, are accepted together if and only if each is accepted alone |
| `ExpandOnlyReviewed.ModesExactly` | scripts/reviewed-platform-forward.ts:616-674 | of the texts the default lexer reads, the mode for reviewed new tables accepts exactly the files of only-adding statements whose destructive words are all in foreign-key actions of a new table, and the default mode exactly those without any destructive word that also pass the tests of quoted names and definitions |
| `ExpandOnlyReviewed.ReviewedActions` | scripts/reviewed-platform-forward.ts:647-651 | in every file the mode for reviewed new tables accepts, destructive words stand only in ON DELETE CASCADE or ON DELETE SET NULL of a new table |
| `ExpandOnlyReviewed.UnmaskedClean` | scripts/reviewed-platform-forward.ts:650 | masking the actions leaves no destructive word if and only if each of them belongs to an action |
| `ExpandOnlyReviewed.SameStatements` | scripts/reviewed-platform-forward.ts:617-622 | on a text the default lexer reads both modes see the same statements, one with and one without quotes |
| `ExpandOnlyReviewed.ModesDiffer` | scripts/reviewed-platform-forward.ts:616-674 | neither mode contains the other: a one-column table under a quoted name of two words, the first destructive, is accepted in the default mode and refused in the reviewed one |
| `ExpandOnlyReviewed.SmallAllowed` | scripts/reviewed-platform-forward.ts:616-674 | a one-column table is accepted in the default mode under every quoted name that is no destructive word and none of DO, ALTER and CREATE |
| `NativeStoreAdmission.AssertNativeStoreForward` | scripts/reviewed-platform-forward.ts:2241-2414 | the statement-by-statement loop over the mutable sets accepts or refuses, and ends in the state, that the transition function gives |
| `NativeStoreLaws.PrivilegesInOrder` | scripts/reviewed-platform-forward.ts:2356-2411 | in an accepted file every function the slot creates is defined and then revoked from PUBLIC before any grant or conditional block touches a created function; no statement grants to PUBLIC or anon; all created functions and views end revoked from PUBLIC |
| `NativeStoreLaws.FunctionStep` | scripts/reviewed-platform-forward.ts:2137-2180 | one accepted statement defines and revokes only what it names, in that order, and grants only once every created function is revoked |
| `NativeStoreLaws.InventoryExactlyOnce` | scripts/reviewed-platform-forward.ts:2292-2413 | in an accepted file each listed CHECK or UNIQUE replacement is one DROP directly followed by its matching ADD, each listed view and trigger occurs once with its digest, a nonempty existing-table list is consumed in order, and no role, verb and kind has two conditional blocks |
| `NativeStoreLaws.RunKnown` | scripts/reviewed-platform-forward.ts:2292-2405 | every statement of a run keeps all that the machine's sets stand for |
| `NativeStoreLaws.DefinitionsExactlyOnce` | scripts/reviewed-platform-forward.ts:2276-2277 | in an accepted file each listed function is defined once, with its pinned digest, and no other function is |
| `NativeStorePurpose.PurposeWidenedOnce` | scripts/reviewed-platform-forward.ts:2381-2407 | in an accepted file of a slot with a purpose check, the check is dropped once, the very next statement adds it back once with every value it had, and its preimage was confirmed; a file of any other slot does neither |
| `NativeStorePurpose.OpenAfter` | scripts/reviewed-platform-forward.ts:2292-2391 | after any accepted beginning of a file a constraint or purpose replacement is open if and only if the last statement dropped a listed constraint or the purpose check |
| `NativeStoreData.DataExactlyOnce` | scripts/reviewed-platform-forward.ts:2398-2412 | in an accepted file every listed data statement occurs exactly once if and only if the number of positions with a listed data statement is the number the slot lists |
| `NativeStoreData.DataInserted` | scripts/reviewed-platform-forward.ts:2292-2412 | a listed data statement put into an accepted file leaves it accepted if and only if the statement before it does not open a replacement, whether or not the file has the statement already |
| `NativeStoreData.DataStatementMayRepeat` | scripts/reviewed-platform-forward.ts:2398 | a file of one data statement, twice, is accepted |
| `NativeStoreRegistry.ValidateNativeStoreClass` | scripts/reviewed-platform-forward.ts:2035-2096 | the loops over slots and pins accept exactly the valid registries: times strictly increase, rows and paths are distinct, no signature is replaced twice, pins follow slot order with the slot's functions |
| `NativeStoreRegistry.AssertNativeStoreClassTransition` | scripts/reviewed-platform-forward.ts:2098-2107 | the transition loop accepts exactly the changes that keep the class, a sealed slot prefix, and every issued pin with its slot |
| `NativeStoreRegistry.TransitionKeeps` | scripts/reviewed-platform-forward.ts:2098-2107 | one accepted change between valid registries keeps what a run must keep, and issues new pins only for slots after every issued one |
| `NativeStoreRegistry.RunKeeps` | scripts/reviewed-platform-forward.ts:2035-2107 | over any run the class never disappears, stays sealed once sealed with its slots a prefix of every later list, and issued pins are a frozen prefix of every later pin list |
| `MigrationManifest.EvaluatePlan` | scripts/platform-migration-manifest.ts:77-103 | the plan check collects no error exactly for plans that are well formed, without duplicate, ordered if they must be, and whose catalogue is exactly their files with matching digests |
| `MigrationManifest.EvaluateEntries` | scripts/platform-migration-manifest.ts:69-86 | the entry loop collects no error exactly when every entry is valid and the baseline is the expected one |
| `MigrationManifest.EvaluateCatalog` | scripts/platform-migration-manifest.ts:95-100 | the three catalogue loops collect no error exactly when the catalogue's files are the plan's and every digest matches |
| `ManifestSelection.EvaluateOrder` | scripts/platform-migration-manifest.ts:150-174 | the order check of one qualified plan collects no error exactly when every order rule holds, and returns the number of shared units before the lock unit |
| `ManifestSelection.EvaluatePlans` | scripts/platform-migration-manifest.ts:139-147 | the plan checks and the union check together collect no error exactly when all plans and the union are accepted |
| `ManifestSelection.EvaluateManifest` | scripts/platform-migration-manifest.ts:106-184 | the whole check collects no error exactly for accepted manifests of each version |
| `ManifestSelection.SelectionAccepted` | scripts/platform-migration-manifest.ts:187-206 | a plan selected from an accepted manifest is accepted, on the files it binds, by the check the executor applies to the selected source |
| `ManifestSelection.SelectionRefused` | scripts/platform-migration-manifest.ts:187-201 | selection from an accepted manifest refuses exactly generations it lacks and, once the retained import is planned, bindings without a restore login |
| `ManifestCanonical.OrderedIsCanonical` | scripts/platform-migration-manifest.ts:150-174 | a qualified plan that meets every order rule is the renamed legacy head, its own tails in order, and the legacy rest with at most one lock unit inserted |
| `ManifestCanonical.CanonicalIsOrdered` | scripts/platform-migration-manifest.ts:150-174 | every plan of that shape meets every order rule, and its lock count is the number of shared units before the lock unit |
| `ManifestCanonical.PairIsOrdered` | scripts/platform-migration-manifest.ts:175-181 | both plans meet the order rules and agree on the lock exactly when both are canonical around one legacy list with the lock unit at one place or in neither |
| `ManifestCanonical.AcceptedManifests` | scripts/platform-migration-manifest.ts:106-184 | exactly which version 3 manifests are accepted: sound plans, a legacy plan without qualified files, the canonical pair, and a catalogue that is the hashed union of the three plans |
| `ManifestHistory.AcceptsMeans` | scripts/platform-migration-manifest.ts:209-236 | a change is accepted exactly if nothing issued is taken back, inventories change only in sections that grew, the additions are the newly bound files once each, and nothing changes without an addition |
| `ManifestHistory.HistoriesCompose` | scripts/platform-migration-manifest.ts:209-236 | two accepted changes make one accepted change with both lists of additions, which share no file |
| `ManifestHistory.RunAccepted` | scripts/platform-migration-manifest.ts:209-236 | over any run every stretch is one accepted change with all the additions of its steps, no file is added twice and nothing issued is taken back |
| `ManifestHistory.BoundFilesFrozen` | scripts/platform-migration-manifest.ts:209-236 | an entry bound at some position of a section keeps its position and its digest over every run |
| `MigrationRails.ClimbsMeans` | scripts/oss-published-tree-check.ts:63-70 | walking sorted additions from the last version accepts exactly if all versions are above it and no two are equal |
| `RailChecks.LastVersion` | scripts/oss-published-tree-check.ts:64-64 | the version a rail starts from is the greatest its files carry, or nothing |
| `RailChecks.CheckRail` | scripts/oss-published-tree-check.ts:65-69 | the loop over one rail's additions accepts exactly if each is above every earlier file and their versions differ |
| `RailChecks.CollectAdditions` | scripts/oss-published-tree-check.ts:53-62 | the loop over all paths finds the additions, once each, exactly if nothing issued changed and every addition is acceptable |
| `RailChecks.AssertAppendOnlyMigrationHistory` | scripts/oss-published-tree-check.ts:46-82 | the check of one change accepts exactly the steps the rules allow |
| `RailChecks.CollectSchemaAdditions` | scripts/oss-source-release-contract.ts:196-206 | the loop over schema-bearing paths finds the additions, in order, exactly if nothing frozen changed and every addition is acceptable |
| `RailChecks.AssertPlatformSchemaForwards` | scripts/oss-source-release-contract.ts:192-222 | the check between two releases accepts exactly the changes its rules allow |
| `RailLaws.StepsCompose` | scripts/oss-published-tree-check.ts:46-82 | two accepted changes in a row are one accepted change, as far as the added SQL is admitted |
| `RailLaws.RunAccepted` | scripts/oss-published-tree-check.ts:46-82 | over any run of accepted changes the check of the whole stretch accepts exactly if the SQL of everything added is admitted for it |
| `RailLaws.RailsAppend` | scripts/oss-published-tree-check.ts:53-70 | over any accepted run each rail's timestamped files in name order are a prefix of the later ones, and each keeps its mode and its object |
| `RailLaws.NoBaselineAdded` | scripts/oss-source-release-contract.ts:201-201 | no accepted change adds a file under a baseline's name on either rail, though the two checks refuse such names by different rules |
| `RailLaws.StepAsRelease` | scripts/oss-source-release-contract.ts:192-222 | where a change is accepted, the release check accepts it exactly if no other schema-bearing file changed and the added SQL is admitted |
| `RailLaws.ReleaseAfterRun` | scripts/oss-source-release-contract.ts:192-222 | changes accepted one by one pass the release check end to end exactly if the other schema-bearing files are as they were and the added SQL is admitted |
| `BatchCodec.SplitRemovalScanBatch` | scripts/oss-source-release-contract.ts:280-292 | the loop over the cursor returns what reading record after record gives |
| `BatchCodec.SplitExactly` | scripts/oss-source-release-contract.ts:280-292 | the strict reader returns given blobs exactly for their print under clean names with safe sizes, so printing reads back whatever the bytes and no byte is left over |
| `BatchCodec.ReadIsRecord` | scripts/oss-source-release-contract.ts:283-289 | a record read is a record that stands there, its size in the one spelling without leading zeros |
| `BatchCodec.RecordIsRead` | scripts/oss-source-release-contract.ts:283-289 | a record that stands there under a clean name is read to its last byte |
| `BatchCodec.CanonicalUnique` | scripts/oss-source-release-contract.ts:286-286 | a number has one spelling that the strict size pattern takes |
| `BatchReaders.MaterializeGitRows` | scripts/documentation-git.ts:58-74 | the loops give each path the mode and contents of its last row, reading each distinct object once |
| `BatchReaders.NewlineFound` | scripts/documentation-git.ts:65-65 | a header without a newline, which is read to the byte before the last, never leads to an accepted batch |
| `BatchReaders.BlobsExactly` | scripts/documentation-git.ts:58-74 | the tree reader returns given blobs exactly for prints under 40-digit names, with any decimal spelling of the sizes |
| `ObjectReader.ReadDocumentationObjects` | scripts/documentation-git.ts:10-32 | the loop over the cursor returns what reading answer after answer gives, after every spec was checked |
| `ObjectReader.ObjectsExactly` | scripts/documentation-git.ts:10-32 | the object reader returns given answers exactly for prints of replies to valid specs, missing ones included, with no byte left over |
| `ObjectReader.ReadersAgree` | scripts/documentation-git.ts:10-74 | on the print of blobs under full names the strict reader, the tree reader and the object reader return the same blobs |
| `IncludeGlobs.Translate` | scripts/serverless-include-globs.ts:61-82 | the loop that appends to the pattern gives the translation of the segments |
| `IncludeGlobs.MatchesIncludeGlob` | scripts/serverless-include-globs.ts:85-87 | trying alternatives in order gives the first that matches, the exception of an unsupported one before it, or no match |
| `GlobLaws.TranslationKeeps` | scripts/serverless-include-globs.ts:61-82 | the regular expression of a supported glob matches exactly the paths whose segments the glob's segments match |
| `GlobLaws.LastStars` | scripts/serverless-include-globs.ts:69-75 | a last `**` matches exactly the texts all of whose segments are nonempty and begin with no dot |
| `GlobLaws.CharsMatch` | scripts/serverless-include-globs.ts:77-79 | the pattern of a plain segment consumes exactly one segment of the text |
| `GlobLaws.Expansion` | scripts/serverless-include-globs.ts:45-59 | a glob with one brace group expands to one alternative for each comma-separated part |
| `GlobLaws.ExpandedShape` | scripts/serverless-include-globs.ts:45-59 | a glob expands if and only if it is brace-free, and then to itself, or has this shape |
| `GlobLaws.SupportedMatches` | scripts/serverless-include-globs.ts:85-87 | a glob whose alternatives are all supported matches exactly the union of what they mean |
| `GlobLaws.MatchesDecided` | scripts/serverless-include-globs.ts:85-87 | for any glob the first alternative that matches or is unsupported decides, so an unsupported one after a match goes unnoticed |
| `TextSplit.SplitExactly` | scripts/serverless-include-globs.ts:58 | the parts of a split are the only list of parts without the separator that joins to the text |
| `MarkdownMasks.UnfencedMarkdown` | scripts/documentation-routing.ts:79-92 | the line loop with its open fence gives the recursive reading |
| `MarkdownMasks.UnfencedBlanks` | scripts/documentation-routing.ts:79-92 | removing fenced blocks keeps the length and every newline and changes characters only to spaces |
| `MarkdownMasks.UnfencedTwice` | scripts/documentation-routing.ts:79-92 | removing fenced blocks twice is removing them once |
| `MarkdownIndent.MaskIndentedCode` | scripts/documentation-routing.ts:146-176 | the line loop with its open block and its look back for a list item gives the recursive reading |
| `MarkdownIndent.UnindentedBlanks` | scripts/documentation-routing.ts:146-176 | blanking indented code keeps the length and every newline and changes characters only to spaces |
| `MarkdownIndent.BlankedIsCode` | scripts/documentation-routing.ts:149-173 | every blanked line stands in a block that begins after a blank line and is nowhere indented less than four columns |
| `MarkdownIndent.CodeExactly` | scripts/documentation-routing.ts:146-176 | in a text without list items a line is blanked if and only if it stands in a block of lines indented at least four columns, blank ones apart, that begins the text or follows a blank line |
| `MarkdownIndent.CodeBlocks` | scripts/documentation-routing.ts:146-176 | whatever list items a text has, the blanked lines are exactly the lines of its blocks of code: maximal runs of lines at or past a block's least indentation, each begun behind a blank line, with no such beginning outside them |
| `MarkdownIndent.BlocksOnce` | scripts/documentation-routing.ts:146-176 | these rules determine the blocks, and so which lines are blanked |
| `MarkdownIndent.LookBack` | scripts/documentation-routing.ts:158-167 | a block's least indentation is four columns past the content of the list item that the look-back stops at, if that content is not indented deeper, and four otherwise |
| `MarkdownSpans.MaskInlineCodeSpans` | scripts/documentation-routing.ts:118-140 | the index loops over the character array blank exactly the spans found |
| `MarkdownSpans.BlankSpan` | scripts/documentation-routing.ts:136-136 | the innermost loop blanks one range of the array, line ends apart |
| `MarkdownSpanLaws.SpansExactly` | scripts/documentation-routing.ts:118-140 | spans are apart and in order, each opens with an unescaped run and ends with the first whole run of equal length, and outside them no opener has such a run after it |
| `MarkdownSpanLaws.SpansUnique` | scripts/documentation-routing.ts:118-140 | the spans found are the only list of spans that meets these rules, so what is masked depends on the text alone |
| `MarkdownSpanLaws.SpansBlank` | scripts/documentation-routing.ts:118-140 | inline masking keeps the length and all line ends and changes characters only to spaces |
| `MarkdownSpanLaws.CloseFirst` | scripts/documentation-routing.ts:127-133 | the search for a closing run finds the first whole run of the length, or shows there is none |
| `MarkdownSpanLaws.MaskedTwice` | scripts/documentation-routing.ts:118-140 | masking again changes nothing if and only if no unmatched single backtick stands before an escaped backtick that a span cut off from its run |
| `MarkdownSpanLaws.MaskedTwicePlain` | scripts/documentation-routing.ts:112-116 | where no backtick follows an escaped one, masking twice is masking once |
| `MarkdownSpanLaws.MaskingNotIdempotent` | scripts/documentation-routing.ts:118-140 | a text of eleven characters that masking twice changes twice |
| `MarkdownHeadings.CollectHeadings` | scripts/documentation-routing.ts:94-110 | the two loops give each heading its numbered anchor and the start of the next heading of its level or above as its end |
| `MarkdownHeadings.SectionsNest` | scripts/documentation-routing.ts:105-108 | two sections are apart, or the later one lies inside the earlier one under a smaller heading |
| `MarkdownHeadings.AnchorsUnique` | scripts/documentation-routing.ts:100-103 | anchors are unique if and only if no slug reads as another slug with a number that the other's repetitions use |
| `MarkdownHeadings.RepeatedCollides` | scripts/documentation-routing.ts:100-103 | whatever a slug is, two headings with it and one with the slug, a hyphen and 1 have only two anchors |
| `MarkdownHeadings.AnchorsCollide` | scripts/documentation-routing.ts:100-103 | of three headings `foo`, `foo` and `foo-1` the last two have one anchor |
| `MarkdownHeadings.AnchorsFind` | scripts/documentation-routing.ts:253-258 | every computed heading is found by its anchor if and only if no slug clashes so |
| `MarkdownHeadings.SectionFound` | scripts/documentation-routing.ts:253-258 | where no slug clashes, the anchor of every computed heading finds the text of its own section |
| `ClosureGraph.BuildClosureGraph` | scripts/serverless-function-closure.ts:266-279 | the worklist ends on every finite import relation, cyclic or not, having scanned exactly the scannable files that chains of scannable files from the entrypoints reach |
| `ClosureGraph.ReachableFrom` | scripts/serverless-function-closure.ts:281-291 | the worklist returns the least set that contains the entrypoint and whatever its members import |
| `ClosureGraph.NothingUnscanned` | scripts/serverless-function-closure.ts:266-291 | every scannable file in an entrypoint's reached set is in the graph |
| `ReportDedupe.Dedupe.PruneDedupe` | api/csp-report.ts:41-47 | the sweep deletes exactly the expired entries, once per interval |
| `ReportDedupe.Dedupe.ShouldLogReport` | api/csp-report.ts:134-148 | a report is decided and counted as the step function says |
| `ReportDedupe.EvictionInvisible` | api/csp-report.ts:35-47 | along times that never go back every decision is as if nothing were ever evicted |
| `ReportDedupe.EntriesYoung` | api/csp-report.ts:35-47 | after every report each entry still held began less than two windows ago |
| `ReportDedupe.LoggedPerWindow` | api/csp-report.ts:134-148 | wherever in a run a hit opens a window of its signature, the n hits of the signature up to any point within the window, among any others, are logged exactly 1 + floor((n - 1) / 25) times, whatever came before or comes after |
| `ReportDedupe.WindowsOpen` | api/csp-report.ts:134-148 | a signature's first hit opens a window, and the next window opens at its first hit more than a window later, through all sweeps and evictions |
| `ReportDedupe.OpensIsLogged` | api/csp-report.ts:134-148 | the hits that open a window are exactly those logged without a count of duplicates |
| `TimeoutPins.CoveringPinCovers` | scripts/ci-vitest-duration-keys.ts:147-154 | the reported pin covers a cost above the ceiling, and no pin two lower does |
| `TimeoutPins.CoveringPinSmallest` | scripts/ci-vitest-duration-keys.ts:151-154 | the reported pin is the smallest that covers the cost if and only if the cost is not two more than a multiple of three |
| `TimeoutPins.BreachesExactly` | scripts/ci-vitest-duration-keys.ts:162-178 | a breach is reported exactly for costs above the ceiling that no pin of either section explains, with the budget its file has |
| `TimeoutPins.BreachExplained` | scripts/ci-vitest-duration-keys.ts:65-86 | setting the reported pin under the path explains the breach in either section; setting it under the digest does so if and only if that section has no pin under the path |
| `AffinityPacking.ParseAffinityGroups` | scripts/ci-vitest-duration-keys.ts:202-227 | the loops over sets and members accept exactly sound declarations: kebab-case unique ids, two or more sorted test paths, none isolated, none in two sets |
| `AffinityPacking.ClaimMembers` | scripts/ci-vitest-duration-keys.ts:216-224 | the member loop claims a set's files exactly if they are sorted test paths that nothing owns |
| `AffinityPacking.PlanConserves` | scripts/ci-vitest-duration-keys.ts:245-275 | the collapsed inventory of an accepted plan expands to a rearrangement of the inventory |
| `AffinityPacking.PackingConserves` | scripts/ci-vitest-duration-keys.ts:278-284 | whatever partition of the collapsed inventory the packer returns, putting the sets back gives a partition of the inventory |
| `AffinityPacking.SetsStayWhole` | scripts/ci-vitest-duration-keys.ts:278-284 | every set ends up whole in one group, and no other group has any of it |
| `AffinityPacking.SetsFairlyHeavy` | scripts/ci-vitest-duration-keys.ts:253-273 | by the durations handed to the packer each set weighs what it was collapsed to, at least its heaviest member, and no more than an equal share of everything the packer weighs outside isolation |
| `SoakStatistics.StreamingIsBatch` | scripts/local-bff-soak-aggregation.ts:46-63 | recording samples one by one gives, for the totals, each kind and each case, what the samples of that group amount to at once |
| `SoakStatistics.KindsAddUp` | scripts/local-bff-soak-aggregation.ts:46-52 | whatever is counted, the kinds add up to the total |
| `SoakStatistics.CasesAddUp` | scripts/local-bff-soak-aggregation.ts:46-52 | whatever is counted, the cases add up to the total |
| `SoakStatistics.OkAndFailed` | scripts/local-bff-soak-aggregation.ts:112-122 | ok and failed samples add up to the count |
| `SoakStatistics.PercentileIsNearestRank` | scripts/local-bff-soak-core.ts:183-188 | the 95th and 99th percentiles are values with at least the exact nearest rank of values at most them and fewer than that rank below, although the code rounds both the quotient and the product to doubles |
| `SoakStatistics.RankAgrees` | scripts/local-bff-soak-core.ts:186 | for 95 and 99 the rounded rank is the exact one, for every number of values up to two to the fortieth |
| `SoakStatistics.RankMayMiss` | scripts/local-bff-soak-core.ts:186 | for 55 it is not: of a hundred values the rounded rank is above the exact one |
| `SoakStatistics.PercentilesOrdered` | scripts/local-bff-soak-core.ts:183-188 | the code's percentiles, rounding included, grow with the percentage and none is above the maximum |
| `SoakStatistics.MaxValue` | scripts/local-bff-soak-aggregation.ts:137-144 | the loop returns the greatest value, or nothing for no values |
| `SoakStatistics.SummarizeAccumulatedGroup` | scripts/local-bff-soak-aggregation.ts:124-135 | a summary has the group's counts, its p95, p99 and maximum in order, and nothing for a group without durations |
| `SoakAccumulator.Group.RecordGroupSample` | scripts/local-bff-soak-aggregation.ts:112-122 | one sample changes a group's fields as the batch counts say |
| `SoakAccumulator.Accumulator.RecordSoakSample` | scripts/local-bff-soak-aggregation.ts:46-52 | one sample is counted in the totals, under its case, made if it is new, and under its kind, and nowhere else |
| `SoakAccumulator.RecordSamples` | scripts/local-bff-soak-aggregation.ts:54-62 | recording every sample in turn leaves the accumulator holding what the samples amount to |
| `SoakAccumulator.SummarizeSoak` | scripts/local-bff-soak-aggregation.ts:54-76 | the summary of a list of samples has, for all of them, for each case that occurs and for each kind, what those samples counted by themselves amount to |

## Left out

- Expand-only patterns: they are matched token by token where the source matches tokens joined by spaces, except where a quoted name's own spaces can matter; upper case outside ASCII is some function.
- AssertNativeStoreForward: does not model the file's own hash, the checks of preceding files, or the regular expressions that read one statement; each statement comes with its reading, and facts every reading has are requirements of the laws.
- ValidateNativeStoreClass: does not model the key, signature and inventory rules of a single slot, which are one flag of the slot.
- EvaluatePlan: does not model the shape checks of parsed JSON, which the types of the model replace, nor the digest of an inventory's payload.
- EvaluateManifest: does not model the key checks of parsed JSON.
- SelectionRefused: does not cover malformed bindings, which the types rule out.
- AssertAppendOnlyMigrationHistory: does not model the Git head and ancestor checks; whether added SQL is admitted is a predicate of the snapshots, so the laws hold for any such predicate.
- AssertPlatformSchemaForwards: does not model the admission of added SQL either.
- MaterializeGitRows: does not check the digest of the contents read.
- ReadDocumentationObjects: does not model UTF-8 decoding, with it U+FFFD and non-ASCII white space in a header's type field.
- CollectHeadings: does not model the heading pattern and the slug, one regular expression each, which are given.
- SummarizeSoak: does not model the thresholds and the resource snapshot, which the summary only passes on or compares with limits.
- PercentileIsNearestRank: is stated for the two percentages callers ask for; for others the code's rank can be off, as `RankMayMiss` shows.
- Text: a character is one UTF-16 code unit; the surrogates, which the language's characters leave out, are stood for by characters from 0x10000 on.
- Error wording: a refusal is an error value or an error count; messages, and which of several errors comes first, are not modelled unless a row says so.
- Digests and canonical JSON: a digest is a function of the contents, and equality of JSON texts is equality of values.
- Git: a tree is a snapshot from paths to mode and object; unsupported entries, missing commits and malformed manifests are refused before the modelled code runs.
- Native store slots: object inventory payloads, purpose preimages and policy texts are flags or opaque values of a slot, and the fixed hash tables are parameters.
- Globs: the text of a regular expression, with its escapes, is modelled as the expression it denotes.
- Documentation routing: owner resolution and selectors are prefix and pattern tests on one path at a time.
- Import closure: reading a file for its imports is a function from files to edges.
- Report log: how a report's fields make a signature does not matter to what is logged; a signature is any text.
- Packing and pins: costs are whole milliseconds, and the weighted packer between planning and expansion is any function that returns a partition.
- Privilege argument lists and the approvals a change touches: read per statement and per change, without state that outlives them.
- Retry loops, handlers, clients, fixtures, release calls and the order money scripts: input, output, configuration, or bound to a compiler's syntax tree.
- Comments the code does not keep: the source's comment calls the reported pin the smallest, anchors are used as if they were unique, and masking as if it were final; the model follows the code, and `CoveringPinSmallest`, `AnchorsUnique` and `MaskedTwice` say exactly when each holds.
