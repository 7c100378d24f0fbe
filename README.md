# Agent-SDD dashboard: a verified model of its core

The Agent-SDD dashboard is a desktop application. Its front end is JavaScript and its
back end is Rust on Tauri. It browses projects that keep their specification-driven
development material under a `.agent-sdd` directory. This project models the parts of
the program that hold logic, and proves properties of them:

- **The Markdown renderer** of the file preview (`renderBasicMarkdown`, `processLists`,
  `escapeHtml` in `main.js`). It is a pipeline of global regular-expression rewrites,
  a code-span protection table, a nested-list stack machine and a paragraph pass. The
  files are `html_escape.dfy`, `md_passes.dfy`, `md_rewrites.dfy`, `md_table.dfy`,
  `md_code.dfy`, `md_lists.dfy`, `md_paragraphs.dfy` and `md_render.dfy`.
- **The specs table**: the search, phase and status filters, and the column sort with
  its remembered direction (`filters.js`, `table.js`). The files are `specs_view.dfy`
  and `sorting.dfy`, with the records in `spec_data.dfy`.
- **The shared page**: the size and age formatting, the section blocks and the
  page state (`shared.js`, in `shared_ui.dfy`).
- **Three UI state machines**: the execution modal (`execution_modal.dfy`), the
  command buttons (`command_button.dfy`) and the installer wizard
  (`installer_wizard.dfy`).
- **The back end**. `project_scan.dfy` models the project scanner of `commands.rs`:
  listing, scanning sections, walking directories and reading files.
  `spec_backend.dfy` models these parts of `commands_backup.rs`:
  - the command whitelist;
  - kebab-case spec naming;
  - reading `tasks.json` and scanning specs;
  - directory statistics;
  - creating the `.agent-sdd` skeleton;
  - per-status task counts of the spec analysis.

The file system is an abstract tree (`ProjectScan.Node`). A directory can be
unreadable, a directory entry can be unreadable, and a file's metadata can be
unreadable from the start or become unreadable just after the file was found.
Parsed JSON is a small `Json` datatype. The JSON parser, the clock, the folder dialog
and the backend's answers become parameters. Classes model objects whose fields the
source updates in place: `ExecutionModal`, `CommandButton`, `InstallerWizard`, the
shared `PageState` and the specs service's `SpecsStore`. Loops of the source are
methods with loops, each proved equal to a specification function, and the
properties are proved about those functions.

The renderer is modelled twice where it is wrong (see "Findings"). `AsWritten` is the
code as it stands. `Corrected` is the evidently intended behaviour, and the
intended properties are proved for it.

## Model

| member | source | states |
|---|---|---|
| HtmlEscape.EscapeChar | main.js:289-293 | a special character (`&`, U+00A0, `<`, `>`) becomes text starting with `&`; any other character starts its own escape |
| HtmlEscape.EscapeHtml | main.js:289-293 | escaping never shortens the text |
| HtmlEscape.UnescapeEscape | main.js:289-293 | reading the escaped text back as HTML character data gives the original text |
| HtmlEscape.EscapeIsWellEscaped | main.js:289-293 | escaped text has no `<`, `>` or U+00A0, and every `&` in it begins `&amp;`, `&lt;`, `&gt;` or `&nbsp;` |
| HtmlEscape.EscapeIdentityIff | main.js:289-293 | the text is left unchanged exactly when it has none of the four special characters, so quotes pass through untouched |
| HtmlEscape.UnescapeEscapeChar | main.js:289-293 | each escaped character reads back as itself, whatever follows it |
| MdPasses.Match | main.js:110-163 | a rule's match at a position covers at least one character and starts with the rule's lead character |
| MdPasses.ScanSkips | main.js:110-163 | the global replace copies text in which its pattern cannot start, and resumes after it knowing whether a line starts there |
| MdPasses.ScanReaches | main.js:110-163 | when no match starting at or before position k runs past k, the global replace, whatever it did before, resumes its search exactly at k + 1 |
| MdPasses.NoLeadUnchanged | main.js:110-163 | a global replace leaves text without its pattern's lead character unchanged |
| MdPasses.AnchoredMidLine | main.js:110-115 | a global replace with a `^`-anchored pattern (heading, rule, quote) leaves a line alone when the search enters it away from a line start |
| MdPasses.MatchLinkParts | main.js:118 | a matched link has non-empty text without `]`, a non-empty URL without `"` or `)`, and a title (when captured) that is non-empty and has no `"` |
| MdRewrites.HeadingLevelIff | main.js:110-115 | a line asks for heading level k exactly when it starts with k `#` and a space, for k from 1 to 6 |
| MdRewrites.HeadingPassOnLine | main.js:110-115 | the level-k pass turns a line of level k into `<hk>` with the rest of the line, and leaves every other line alone |
| MdRewrites.HeadingsOnLine | main.js:110-115 | after the six heading passes, run from `######` down to `#`, a line is rewritten by its own level and by no other pass |
| MdRewrites.HashLine | main.js:110-115 | a line of k `#` and a space becomes `<hk>` for k from 1 to 6 (so `######` gives `<h6>`, not `<h1>`), and is left as it is for other k |
| MdRewrites.HorizontalRuleOnLine | main.js:162-163 | a line that is exactly `---` or `***` becomes `<hr>`; any other line stays |
| MdRewrites.ThreeStarsSurviveEmphasis | main.js:153-163 | example: `***` passes both star emphasis rewrites untouched, so it reaches the rule rewrite |
| MdRewrites.EmphasisWraps | main.js:153-159 | a delimiter, a run without it, and the delimiter again become the tag around the run |
| MdRewrites.StarListEatenByItalic | main.js:155 | two `* ` list lines are wrapped into one `<em>` across the line break before the list pass sees them |
| MdRewrites.QuoteOnLine | main.js:169 | a line `&gt; ` followed by at least one character becomes a block quote, and any other line stays |
| MdRewrites.QuotesMerge | main.js:171 | two adjacent quoted lines merge into one block quote of two lines |
| MdRewrites.LinkWithoutTitle | main.js:118-121 | `[text](url)` matches with exactly that text and URL and no title |
| MdRewrites.LinkHtmlShape | main.js:119-120 | the anchor's `href` is the URL, a `title` attribute appears only when a title was captured, and the anchor always ends with `target="_blank" rel="noopener noreferrer"` and the text |
| MdRewrites.ImageWithAltBecomesLink | main.js:118-124 | because links are rewritten first, `![alt](url)` with a non-empty alt and a URL free of `"` and `)` becomes `!` followed by an anchor |
| MdRewrites.EmptyAltIsNoLink | main.js:118 | an image with an empty alt is not taken by the link rewrite |
| MdRewrites.ImageRewrites | main.js:124 | `![alt](url)` becomes `<img src="url" alt="alt" />`, alt and URL copied as they are |
| MdRewrites.EmptyAltImage | main.js:124 | an image with an empty alt becomes `<img src="url" alt="" />` |
| MdRewrites.QuotedUrlIsNoLink | main.js:118 | a URL holding `"` and no whitespace defeats the link pattern, so the link rewrite leaves the image as it is, whatever its alt |
| MdRewrites.QuotedUrlImage | main.js:118-124 | such an image, non-empty alt or not, reaches the image rewrite, and the `src` attribute's value ends at the URL's first quote |
| MdTable.AlignOfCases | main.js:133-138 | a separator cell is `center` exactly for `:…:`, `right` exactly for `…:` without a leading colon, and `left` otherwise |
| MdTable.NonBlank | main.js:142 | the filter keeps no blank cell and, when no cell is blank, keeps them all |
| MdTable.NonBlankKeeps | main.js:142 | every non-blank cell survives the filter, so only blank cells are dropped |
| MdTable.Alignments | main.js:133-138 | there is one alignment per non-blank separator cell |
| MdTable.RowCellsAlign | main.js:141-146 | body cell i takes column i's alignment, and `left` past the last column; its text is the trimmed cell, which is never empty |
| MdTable.MatchTable | main.js:127 | a matched table is a header row, a separator row and a body, each at least four characters long, which together make up a prefix of the text |
| MdTable.Row | main.js:127 | a matched table row starts with `\|`, ends with `\|` and a newline, and is at least four characters long |
| MdTable.RowCells | main.js:141-146 | a body row gives one cell per non-blank piece between the pipes |
| MdCode.MatchCode | main.js:97-107 | a fenced match is the shortest run between two fences; an inline match is a non-empty run without backticks between two backticks |
| MdCode.Protect | main.js:96-107 | the replace callback stores the i-th span's markup as entry i and emits the placeholder with index i, as the specification function says |
| MdCode.PlaceholderRestores | main.js:208-209 | restoration reads the placeholder with index n back as stored entry n |
| MdCode.RestoreAfterProtect | main.js:96-107 | on text that does not hold the placeholder's lead character (for the as-written placeholders: no `_` anywhere), protecting and then restoring replaces every span by its markup directly |
| MdCode.PlaceholderItalicised | main.js:156 | the single-underscore italic pass rewrites an as-written placeholder into two `<em>` pieces |
| MdCode.BoldSparesPlaceholder | main.js:154 | the double-underscore bold pass, which runs first, leaves an as-written placeholder alone |
| MdCode.CodeLostAsWritten | main.js:95-107 | as written, a lone placeholder at a line start never comes back: after the italic pass, restoration finds no placeholder, and what is left is not the span's markup |
| MdCode.ItalicReaches | main.js:156 | wherever `__` stands, the italic rewrite resumes its search at the second underscore, whatever text precedes it |
| MdCode.PlaceholderAlwaysItalicised | main.js:95-107 | as written, a placeholder anywhere in the text, whatever precedes or follows it, leaves the italic pass with its prefix words and its index wrapped in `<em>`, so the placeholder at that position is broken up before restoration can find it |
| MdCode.CorrectedPlaceholderInert | main.js:95 | a corrected placeholder passes unchanged through any rewrite that does not start at one of its characters (`Spares`: not the sentinel, `B`, `I` or a digit), and no line starts after it |
| MdLists.MatchItem | main.js:222-228 | an item's content holds no line terminator |
| MdLists.CloseDeeper | main.js:230-237 | closing deeper lists leaves depth + 1 frames (or fewer, if there were fewer), pops only from the top, and appends only container and `</li>` tags |
| MdLists.CloseAll | main.js:265-272 | closing all lists empties the stack and appends only container and `</li>` tags |
| MdLists.Place | main.js:239-261 | opening or continuing a list appends only container and `</li>` tags |
| MdLists.CloseDeeperLoop | main.js:231-237 | the while loop computes CloseDeeper |
| MdLists.CloseAllLoop | main.js:266-272 | the while loop computes CloseAll |
| MdLists.PlaceItem | main.js:240-261 | the open-or-continue statements compute Place |
| MdLists.ProcessLists | main.js:214-287 | the loop over lines, followed by the final closing loop, emits exactly the specification's token sequence |
| MdLists.ContainersBalanced | main.js:214-287 | `listStack[k].depth == k` always holds, and every `<ul>`/`<ol>` is closed by the matching tag, innermost first, with none left open at the end |
| MdLists.ItemLands | main.js:230-261 | an item no deeper than one past the open containers ends up in a container of its kind at its own depth, with the outer containers kept |
| MdLists.ItemBeyondDepth | main.js:226-263 | an item nested more than one level deeper than the open containers opens no container: it is emitted as a bare `<li>` |
| MdLists.ListContents | main.js:214-287 | each list line yields exactly one `<li>` with its content, in input order; every other line is copied once, in order, while no container is open |
| MdLists.OrphanItem | main.js:240-263 | an indented first item is emitted as a lone `<li>` outside any list |
| MdLists.NestedListOutsideItem | main.js:240-246 | for `- a` followed by `  - b`, the first item is closed before the nested list opens, so the output is not well nested whatever follows |
| MdLists.NestedListBroken | main.js:240-246 | any depth-0 item followed by a depth-1 item gives output that is not well nested |
| MdLists.StaysBroken | main.js:214-287 | once the buffer is out of place, no later line and no closing repairs it |
| MdLists.FixedListsWellNested | main.js:214-287 | with nested lists placed inside items, every input yields well-nested output with the same items and copied lines as the pass as written |
| MdParagraphs.ParagraphLine | main.js:179-198 | the loop body computes one step of the specification |
| MdParagraphs.Paragraphs | main.js:174-205 | the loop with its `inParagraph` flag, followed by the final `</p>`, emits the specification's sequence |
| MdParagraphs.ParagraphsWrap | main.js:174-205 | deleting `<p>` and `</p>` gives back the input lines; the two alternate, starting with `<p>` and ending closed; block lines stand outside paragraphs and all other lines inside one; every marker except a final `</p>` is followed by a line, so no paragraph is empty |
| MdParagraphs.BlocksUnwrapped | main.js:174-205 | text made only of block lines passes through without any paragraph |
| MdParagraphs.TwoBlocksTwoLines | main.js:186-203 | example: two block lines followed by two prose lines: the paragraph opens before the third line and closes at the end |
| MdRender.PipelineRulesSpare | main.js:110-171 | every rewrite between the code pass and restoration (headings, link, image, table, emphasis, rules, block quote and quote merge) spares the corrected placeholders and starts at no plain character |
| MdRender.CorrectedInlineCodeRenders | main.js:95-209 | with the corrected placeholders, a line of plain prose holding one inline code span renders as `<p>`, the line with `<code>code</code>` in place of the span, and `</p>`; the span's text, Markdown syntax included, survives every pass |
| MdRender.PlainLineIsParagraph | main.js:91-212 | RenderMarkdown: in both renderers, a line of plain prose comes out as `<p>`, the line and `</p>` on three lines |
| MdRender.ClosingTagsWrapped | main.js:180-184 | IsBlock: the closing tags the list pass emits on lines of their own are not block lines to the paragraph pass as written |
| MdRender.ListItemWrapped | main.js:166-205 | as written, the single item `- a` leaves the paragraph pass with `</li>` and `</ul>` wrapped in a paragraph |
| MdRender.ListTagsAreBlocks | main.js:180-184 | every tag line the list pass emits is a block line to the corrected test |
| MdRender.ListsUnwrapped | main.js:166-205 | with the corrected renderer, text made only of list items passes the paragraph pass with no paragraph |
| MdRender.ProseNotBlock | main.js:179-184 | IsBlock: a non-blank line without `<` is a block line to neither test |
| SpecsView.FilterKeepsExactly | frontend/components/ui/filters.js:42-69 | Filter: every kept spec passes the filters, every spec that passes them is kept, and the result is a subsequence of the input in its order |
| SpecsView.EmptyFiltersKeepAll | frontend/components/ui/filters.js:42-69 | with an empty search, phase and status the list is kept whole |
| SpecsView.FilterIdempotent | frontend/components/ui/filters.js:42-69 | filtering the result again with the same values changes nothing |
| SpecsView.KeptMatchesSelection | frontend/components/ui/filters.js:44-66 | a kept spec has the selected phase and status, and its joined search text contains the query |
| SpecsView.SearchFindsField | frontend/components/ui/filters.js:45-55 | SearchText: a query found in the lower-cased feature, phase, status or any task's name or description keeps the spec |
| SpecsView.KeyOf | frontend/components/ui/table.js:92-123 | the comparator has a key exactly for the seven known columns; progress is a ratio with a positive denominator |
| SpecsView.CompareAntisymmetric | frontend/components/ui/table.js:89-128 | swapping the two specs flips the comparator's sign |
| SpecsView.SortFacts | frontend/components/ui/table.js:89-128 | the sorted list is a permutation of the input, and neighbours are in comparator order |
| SpecsView.SortedByKey | frontend/components/ui/table.js:125-127 | ascending, each key is at most the next one; descending, at least |
| SpecsView.UnknownColumnKeepsOrder | frontend/components/ui/table.js:121-122 | under an unknown column every pair compares equal, and the stable sort keeps the order |
| SpecsView.ProgressKeyOrdersFractions | frontend/components/ui/table.js:109-112 | the progress key orders specs as their completed/total fractions do, with no tasks counting as 0 |
| SpecsView.SpecsStore.ApplySpecsFilters | frontend/components/ui/filters.js:33-73 | without loaded specs nothing happens; otherwise the filtered list is stored and rendered, and the loaded specs and the sort state are unchanged |
| SpecsView.SpecsStore.SortSpecsTable | frontend/components/ui/table.js:80-131 | without a filtered list nothing happens; otherwise the same column flips the direction and another column sorts ascending, the stored lists are unchanged, and a sorted copy is rendered |
| Sorting.SortWithFacts | frontend/components/ui/table.js:89 | the stable sort returns a permutation of its input, ordered by an antisymmetric comparator |
| Sorting.SortWithEqual | frontend/components/ui/table.js:121-122 | under a comparator that calls everything equal, the stable sort returns its input |
| ProjectScan.ScanDirectoryRecursive | src-tauri/src/commands.rs:207-261 | the recursive walk computes the specification: an unreadable directory, or a file whose metadata is lost after `is_file()` accepted it, is an error; a file without metadata and a failing subdirectory are skipped |
| ProjectScan.FailingSubdirectorySkipped | src-tauri/src/commands.rs:237-246 | a subdirectory whose walk fails is skipped: the other entries' files are listed as if it were absent |
| ProjectScan.MetadataFailureAborts | src-tauri/src/commands.rs:217-224 | a file whose metadata is lost between `is_file()` and `fs::metadata` (the file system changed during the walk) fails the walk of its directory |
| ProjectScan.UnreadableMetadataSkipped | src-tauri/src/commands.rs:217 | a file whose metadata cannot be read at all is not a file to `is_file()`, so the walk skips it and lists the other entries' files as if it were absent |
| ProjectScan.ScanErrorSticks | src-tauri/src/commands.rs:207-261 | once a directory's walk has failed, later entries do not change the error |
| ProjectScan.CleanScanListsAll | src-tauri/src/commands.rs:207-261 | in a tree without errors the walk lists exactly the regular files in pre-order |
| ProjectScan.EachFileOnce | src-tauri/src/commands.rs:207-261 | in a tree whose names are well formed, no relative path is listed twice |
| ProjectScan.ScanSection | src-tauri/src/commands.rs:157-205 | the section scan always succeeds and computes the section specification |
| ProjectScan.SectionSummaryDescribesFiles | src-tauri/src/commands.rs:157-205 | a missing section is empty with zero totals; a present one has total = number of files, bytes = their size sum and latest = their latest time, with the files sorted by relative path |
| ProjectScan.SumSizesPermutation | src-tauri/src/commands.rs:178-194 | the byte sum does not depend on the order of the files |
| ProjectScan.LatestPermutation | src-tauri/src/commands.rs:178-194 | the latest time does not depend on the order of the files |
| ProjectScan.ByRelPathAntisymmetric | src-tauri/src/commands.rs:194 | swapping two files flips the comparison by relative path |
| ProjectScan.LatestIsMax | src-tauri/src/commands.rs:181-183 | the latest time is None exactly when no file has a time; otherwise it is one of the times and at least every other |
| ProjectScan.ScanProject | src-tauri/src/commands.rs:96-124 | the scan never fails; without `.agent-sdd` there are no sections and exactly one warning; with it, the sections are the five section scans and there is no warning |
| ProjectScan.ProjectSections | src-tauri/src/commands.rs:106-114 | with `.agent-sdd` the sections map has exactly the keys standards, product, specs, instructions and agents |
| ProjectScan.ReadFileSucceeds | src-tauri/src/commands.rs:127-155 | ReadFile: `read_file` succeeds exactly for an existing regular file of at most 10 MiB whose metadata and content are readable, and returns its content; a file without metadata does not exist to it, and `Failed to read file metadata` arises only when the metadata is lost after the checks |
| ProjectScan.ReadFileLimitBoundary | src-tauri/src/commands.rs:139-144 | a file of exactly 10 MiB is read; one byte more is refused as too large |
| ProjectScan.ListChildDirectories | src-tauri/src/commands.rs:51-94 | the listing loop followed by the sort computes the listing specification |
| ProjectScan.VisibleDirsExactly | src-tauri/src/commands.rs:63-83 | an entry is listed exactly when it is a child directory whose name does not start with `.`, with the base path joined to its name |
| ProjectScan.ListingIsSortedVisibleDirs | src-tauri/src/commands.rs:52-94 | the listing fails exactly when the base is missing, not a directory or unreadable; otherwise it is the visible subdirectories sorted by name |
| SpecBackend.ValidateCommandRequest | src-tauri/src/commands_backup.rs:893-921 | a command is refused as not allowed exactly when it is not one of the six; this check comes before every path check, and an allowed command passes exactly when all three paths are directories |
| SpecBackend.Words | src-tauri/src/commands_backup.rs:591 | splitting on white space yields non-empty words without white space |
| SpecBackend.KeepKebab | src-tauri/src/commands_backup.rs:595-597 | the filter keeps only alphanumeric characters and `-`, taken from its input |
| SpecBackend.KebabNameChars | src-tauri/src/commands_backup.rs:590-597 | KebabName: a kebab name has only lower-case letters, digits and `-`, and so no white space |
| SpecBackend.KebabNameIdempotent | src-tauri/src/commands_backup.rs:590-597 | the kebab name of a kebab name is itself |
| SpecBackend.KebabNameFirstFiveWords | src-tauri/src/commands_backup.rs:592 | only the first five words count: words appended after them do not change the name |
| SpecBackend.CreateSpecDir | src-tauri/src/commands_backup.rs:599-607 | the directory is `date-kebab`; it is refused exactly when it already exists, before anything is written |
| SpecBackend.SameDayTitlesClash | src-tauri/src/commands_backup.rs:590-604 | two titles sharing their first five words clash on the same day |
| SpecBackend.StringItems | src-tauri/src/commands_backup.rs:411-416 | the dependencies are exactly the string items, with the non-strings dropped |
| SpecBackend.TaskFromJson | src-tauri/src/commands_backup.rs:405-419 | a task is completed exactly when its raw status is the string `completed` |
| SpecBackend.TasksFromJson | src-tauri/src/commands_backup.rs:403-421 | there is one task per array item, in order |
| SpecBackend.CompletedCountAgrees | src-tauri/src/commands_backup.rs:396-421 | the completed count taken from the raw items equals the count of completed parsed tasks |
| SpecBackend.CalculateDirectoryStats | src-tauri/src/commands_backup.rs:448-477 | the recursive loop computes the statistics specification |
| SpecBackend.StatsOfCleanTree | src-tauri/src/commands_backup.rs:448-477 | in a tree without errors the statistics are the sum of all file sizes and the latest time over the whole subtree |
| SpecBackend.Merge | src-tauri/src/commands_backup.rs:462-470 | the newer of two optional times: present when either is, at least each present one, and equal to one of them |
| SpecBackend.LatestConcat | src-tauri/src/commands_backup.rs:462-470 | the latest time of two lists together is the merge of their latest times |
| SpecBackend.SpecFromJson | src-tauri/src/commands_backup.rs:389-445 | task_count is the number of tasks, completed_tasks counts the completed ones and is at most task_count, and the name is the feature |
| SpecBackend.ScanSpecDirectory | src-tauri/src/commands_backup.rs:365-446 | the directory scan computes the per-spec specification: the metadata read from `tasks.json`, with the directory's statistics |
| SpecBackend.SpecDirNeedsTasks | src-tauri/src/commands_backup.rs:365-386 | a directory is a spec exactly when its `tasks.json` is a file that `exists()` sees (its metadata readable), that reads as text and that parses |
| SpecBackend.ScanSpecs | src-tauri/src/commands_backup.rs:326-363 | the loop over spec directories and the sort compute the scan specification |
| SpecBackend.NewestFirstAntisymmetric | src-tauri/src/commands_backup.rs:360 | swapping two specs flips the newest-first comparison |
| SpecBackend.ScannedSpecsNewestFirst | src-tauri/src/commands_backup.rs:359-360 | the scanned specs are sorted by `created`, newest first |
| SpecBackend.SpecEntriesConsistent | src-tauri/src/commands_backup.rs:338-352 | every scanned spec satisfies the count facts above |
| SpecBackend.CreateAgentSddStructure | src-tauri/src/commands_backup.rs:480-541 | the call fails exactly when the project is not a directory or `.agent-sdd` already exists |
| SpecBackend.CreatedDirectories | src-tauri/src/commands_backup.rs:498-541 | `product` and `instructions` are always created, and `standards`, `specs` and `agents` exactly when their flags are set |
| SpecBackend.FilesAfterTheirDirectories | src-tauri/src/commands_backup.rs:494-576 | every file is written after the directory that holds it |
| SpecBackend.FirstOpen | src-tauri/src/commands_backup.rs:685-686 | the next task is the first task that is pending or in progress, and there is none exactly when no task is open |
| SpecBackend.ProgressBounded | src-tauri/src/commands_backup.rs:664-674 | completed + in progress + pending is at most the total |
| SpecBackend.NextTaskIffOpenCounts | src-tauri/src/commands_backup.rs:664-693 | a next task is shown exactly when the pending and in-progress counts are not both zero |
| SpecBackend.Recommendations | src-tauri/src/commands_backup.rs:706-715 | the lessons recommendation appears exactly for status `completed`, and the in-progress one exactly for `pending` |
| SpecBackend.AnalyzeSpecFailsIff | src-tauri/src/commands_backup.rs:630-650 | analyze_spec fails exactly for a path without parent, a project root not found, or an unreadable or unparsable `tasks.json`, with their messages; otherwise the roadmap flag and the status come from the files |
| SpecBackend.AnalysisConsistent | src-tauri/src/commands_backup.rs:630-718 | a parsed tasks file always gives an analysis; its counts stay within the total; it names a next task exactly when some task is pending or in progress, and never without a task list |
| SharedUi.BytesToHuman | frontend/shared.js:17 | 0 gives `0 B`; otherwise the loop stops at the unit `UnitIndex(n)`, and the value times 1024 to that power is n |
| SharedUi.UnitIsLargestFitting | frontend/shared.js:17 | the chosen unit is the largest power of 1024 not above n, capped at TB: min(4, ⌊log₁₀₂₄ n⌋) |
| SharedUi.TimeAgoBuckets | frontend/shared.js:18 | TimeAgo: `—` exactly for a missing or zero time; otherwise, for m = ⌊(now − ms)/60000⌋: `just now` below one minute (future times included), then `Xm ago`, `Xh ago` and `Xd ago` |
| SharedUi.SectionBlock | frontend/shared.js:59-103 | a body is hidden exactly for `specs` when hideSpecs is set; otherwise there is one row per file, keeping its path and size, and a link exactly for `.md`, `.json` and `.txt` files |
| SharedUi.RenderedKeys | frontend/shared.js:56-59 | the rendered sections follow the fixed order, and a key is rendered exactly when it is in the order and in the report |
| SharedUi.RenderedBlocks | frontend/shared.js:56-103 | every rendered block is the section block of its key |
| SharedUi.AgentSddProjectShowsFiveSections | frontend/shared.js:53-105 | a scanned project with `.agent-sdd` renders all five section blocks |
| SharedUi.PageState.constructor | frontend/shared.js:7-15 | the page starts with no base directory, no projects, no selection and no report, with specs hidden and auto-refresh off |
| SharedUi.PageState.ToggleHideSpecs | frontend/shared.js:139-142 | the toggle sets hideSpecs to the checkbox value, changes no other field, and re-renders the current report if there is one |
| SharedUi.PageState.SelectProject | frontend/shared.js:107-116 | selecting a project records it and its report, and renders the report's sections |
| SharedUi.PageState.RefreshTarget | frontend/shared.js:136 | refresh rescans exactly when a project with a non-empty path is selected |
| SharedUi.PageState.ChooseBaseDir | frontend/shared.js:118-131 | a cancelled, failed or empty answer changes nothing; a chosen directory is recorded, with its listing when the listing succeeds and the old projects otherwise |
| ExecutionUi.KnownCommandsAreWhitelisted | frontend/components/modals/executionModal.js:102-113 | prefixing `sdd-` maps the six described commands exactly onto the backend's whitelist |
| ExecutionUi.CommandDescription | frontend/components/modals/executionModal.js:102-113 | a known command's description ends with its task's id (or `Unknown`); any other is `Execute <cmd> command` |
| ExecutionUi.BuildCommandArgs | frontend/components/modals/executionModal.js:240-266 | the arguments are `[id]` when the id is truthy and `[]` otherwise, for every command |
| ExecutionUi.Clamp | frontend/components/modals/executionModal.js:320 | the width lies in 0..100, equals p inside that range, and is the nearer bound outside it |
| ExecutionUi.EmptyErrorMessageIgnored | frontend/components/modals/executionModal.js:222-223 | FailureMessage: a non-empty `error_message` is the message; an empty or missing one gives `Command failed with exit code …` |
| ExecutionUi.RequestLinesIgnoreCommand | frontend/components/modals/executionModal.js:182-188 | RequestLines: four info lines that do not depend on the command, the first listing the id when it is truthy |
| ExecutionUi.ResultLinesOutcome | frontend/components/modals/executionModal.js:201-224 | ResultLines: never empty; a success line appears exactly on success, the last line is an error line exactly on failure, and stdout comes first when present |
| ExecutionUi.RejectionReasonLost | frontend/components/modals/executionModal.js:226-229 | as written, every string rejection prints the same line `❌ Error: undefined`, whatever its reason |
| ExecutionUi.CorrectedRejectionShowsReason | frontend/components/modals/executionModal.js:226-229 | corrected: a rejection's reason is printed, and different reasons print different lines |
| ExecutionUi.ExecutionModal.constructor | frontend/components/modals/executionModal.js:10-26 | a new modal is open and idle: not executing, progress 0, status `Initializing...`, no output, button `Cancel` |
| ExecutionUi.ExecutionModal.UpdateActionButtons | frontend/components/modals/executionModal.js:349-363 | the buttons read `Cancel` while executing and `Close` otherwise; nothing else changes |
| ExecutionUi.ExecutionModal.UpdateProgress | frontend/components/modals/executionModal.js:317-321 | the progress becomes the clamped value, and nothing else changes |
| ExecutionUi.ExecutionModal.Begin | frontend/components/modals/executionModal.js:155-193 | nothing happens while executing; otherwise execution starts and the request `sdd-<command>` is issued (or fails at once without Tauri) |
| ExecutionUi.ExecutionModal.ShowResult | frontend/components/modals/executionModal.js:209-229 | a successful result gives status success and progress 100; a failed one gives status error and progress 0 |
| ExecutionUi.ExecutionModal.Finish | frontend/components/modals/executionModal.js:193-234 | execution always ends with isExecuting false and the Close button; a result is shown as ShowResult says, and a rejected invoke appends `❌ Error: undefined`, since the rejection is a string without `message` |
| ExecutionUi.ExecutionModal.CancelExecution | frontend/components/modals/executionModal.js:271-280 | cancel does nothing unless executing; otherwise it stops execution, resets the progress to 0 and calls onCancel once |
| ExecutionUi.ExecutionModal.Close | frontend/components/modals/executionModal.js:368-378 | close closes the modal; when executing it first cancels exactly as CancelExecution does (status `Cancelled`, progress 0, the cancel line, button `Close`, one onCancel call); otherwise nothing else changes |
| ExecutionUi.ExecutionModal.Dismiss | frontend/components/modals/executionModal.js:119-148 | while executing, the close control cancels exactly as CancelExecution does and the modal stays open; otherwise it closes and nothing else changes |
| ExecutionUi.ExecutionModal.BackdropClick | frontend/components/modals/executionModal.js:127-135 | a backdrop click closes the modal when not executing and changes nothing else; while executing it changes nothing |
| ExecutionUi.HandleCommandExecution | frontend/components/ui/table.js:257-286 | no modal opens exactly when the project path is empty |
| CommandButtons.CommandConfig | frontend/components/ui/commandButton.js:230-236 | a configured command gets its configuration; an unknown one gets label Execute, icon play and variant primary |
| CommandButtons.CommandButton.constructor | frontend/components/ui/commandButton.js:18-40 | a new button holds the given command, label, icon, state, variant and size, is not loading and has no recorded original icon |
| CommandButtons.CommandButton.Click | frontend/components/ui/commandButton.js:113-117 | a click is passed on exactly when the button is neither disabled nor loading |
| CommandButtons.CommandButton.SetLoading | frontend/components/ui/commandButton.js:135-147 | loading sets the loader icon; stopping sets the recorded original icon or `play`, not the icon the button had |
| CommandButtons.CommandButton.SetState | frontend/components/ui/commandButton.js:152-180 | only the given fields change, and an icon change records the previous icon as the original |
| CommandButtons.CreateCommandButton | frontend/components/ui/commandButton.js:196-245 | the button takes the command's configuration, keeps its own command name, and is disabled exactly when its task is completed |
| CommandButtons.CreateCommandButtonGroup | frontend/components/ui/commandButton.js:250-262 | one fresh, distinct button per command, in the given order |
| CommandButtons.FixButtonLoadingAsWritten | frontend/components/ui/commandButton.js:135-138 | as written, a `fix` button shows `wrench` before loading and `play` after it |
| CommandButtons.CommandButton.SetLoadingRestoring | frontend/components/ui/commandButton.js:135-147 | corrected: entering loading saves the icon, and leaving it restores that icon |
| CommandButtons.LoadingRoundTripRestores | frontend/components/ui/commandButton.js:135-147 | with the correction, loading and then stopping gives back the icon the button had |
| Installer.InstallerWizard.constructor | frontend/components/modals/installerWizard.js:126-128 | the wizard starts at step 1 with Next disabled, no directory, an empty form and all three boxes checked |
| Installer.SummaryMatchesBackend | frontend/components/modals/installerWizard.js:189-195 | the summary lists exactly the directories the backend creates for the same configuration |
| Installer.InstallSteps | frontend/components/modals/installerWizard.js:224-233 | there are 5 steps plus one per flag set |
| Installer.RunSteps | frontend/components/modals/installerWizard.js:235-247 | on success every step is shown and the last width is 100%; on failure the loop stops after the first step |
| Installer.InstallerWizard.ShowStep | frontend/components/modals/installerWizard.js:130-140 | the step is set; Back is shown exactly off step 1, Next exactly off step 3 and Install exactly on step 3; Next's state is updated |
| Installer.InstallerWizard.UpdateNextButtonState | frontend/components/modals/installerWizard.js:142-150 | Next is disabled at step 1 exactly without a chosen directory and at step 2 exactly without a trimmed name, and is left alone at step 3 |
| Installer.InstallerWizard.ChooseProjectDir | frontend/components/modals/installerWizard.js:152-163 | a chosen directory is recorded and Next updated; a cancelled or failed dialog changes nothing |
| Installer.InstallerWizard.TypeName | frontend/components/modals/installerWizard.js:165 | typing a name updates Next's state |
| Installer.InstallerWizard.EditForm | frontend/components/modals/installerWizard.js:59-79 | editing the description or a box records it and keeps the step |
| Installer.InstallerWizard.Back | frontend/components/modals/installerWizard.js:167-169 | Back moves one step back, never below step 1 |
| Installer.InstallerWizard.Next | frontend/components/modals/installerWizard.js:171-185 | from step 1 with a directory to step 2; from step 2 to step 3 with the trimmed name and description and the three flags captured; the step stays in 1..3 |
| Installer.InstallerWizard.CaptureConfig | frontend/components/modals/installerWizard.js:175-182 | the configuration is taken from the form, its name is not empty, and the summary is built from it |
| Installer.InstallerWizard.PerformInstallation | frontend/components/modals/installerWizard.js:215-271 | the backend is called exactly once, with the path and configuration; on success every step is shown and the bar ends at 100%; on failure Install is enabled again |

## Left out

- I/O, the network and processes are not modelled. This covers `execute_agent_sdd_command` beyond its request validation, `execute_script_command`, `execute_direct_command`, the folder dialog, logging and `tokio` timeouts. The dialog's answer and the backend's answers are parameters.
- ProjectScan: a file system that changes during a call is modelled only by a file whose metadata is lost just after `is_file()` found it (`LostAfterCheck`). Other races, such as a file deleted between `exists()` and `is_file()`, are not modelled.
- The real file system is not modelled: paths are resolved to nodes of an abstract tree. The order of `read_dir` is the order of the tree's children. Error messages that embed an OS error are reduced to their fixed text.
- `create_dir` and `fs::write` failures in `create_agent_sdd_structure` and `create_spec` are not modelled, and neither is the contents of the files they write. The `create_*_sdd_content` and `create_tasks_json` templates are constant text. `create_tasks_json` does not escape the spec name.
- `serde_json` and `JSON.parse` are a parameter (`string -> Option<Json>`). JSON numbers are integers.
- Clocks are parameters: `chrono::Utc::now` becomes the date string and `Date.now` becomes `now`.
- Unicode case mapping and `is_alphanumeric` are restricted to ASCII. White space follows Unicode White_Space.
- Fixed-width integers are unbounded: `u64` sums and `as u64` casts cannot overflow in the model.
- ProjectScan.ScanSection: the sort is stated as a permutation plus order by relative path, since `sort_by` is stable. Files with equal relative paths cannot occur in a well-named tree.
- Floating point is not modelled:
  - SharedUi.BytesToHuman: the value is an exact real, and `toFixed(1)` is not modelled;
  - the `Math.round` percentages in `main.js` and `table.js`, and the `{:.1}` f32 percentage of `analyze_spec`, are not modelled;
  - the progress sort key compares ratios by cross-multiplication, which idealises JavaScript's division;
  - ExecutionUi.ExecutionModal.UpdateProgress: the progress is an integer percentage;
  - Installer.RunSteps: the bar widths are exact reals.
- SpecBackend.AnalyzeSpec: the Markdown text that `analyze_spec` builds is not modelled. The model returns its content as data: the overview fields, the counts, the next task, the roadmap flag and the recommendations.
- The `setTimeout` delays are not modelled: the 300 ms per install step, the progress animation and the one-second `onComplete` delay. Neither are the cancel-while-pending interleavings of `execute`. Execution is a begin step and a finish step, with the answer as input.
- DOM work is not modelled: `innerHTML` templates, class and style changes, SVG icons, `alert`, `renderSummary`, the project-list cards and the warnings list. The wizard's summary keeps the directory names without their `.agent-sdd/` prefix and `/` suffix.
- `formatFileSize` and `formatDate` (`frontend/utils/formatters.js`) are not part of this model: they are floating point and locale formatting.
- The duplicate `applySpecsFilters` and `sortSpecsTable` in `main.js` are modelled once, through the `filters.js` and `table.js` versions.
- The `descriptions[command]` lookup is modelled for the six known commands and for other names. Names that hit `Object.prototype` properties (such as `toString`) are not modelled.
- Sorting.CompareStrings: strings, here and in the text keys of `SpecsView.Compare`, are ordered by Unicode scalar value (`LexLess`). That is exactly Rust's `cmp` on UTF-8 bytes. JavaScript's `<` in the table comparator (`frontend/components/ui/table.js:125-126`) compares UTF-16 code units instead, which puts characters above U+FFFF before U+E000–U+FFFF; the model puts them after.
- The front end calls `execute_agent_sdd_command` with flat keys, while the Rust command expects one `request` argument. The model assumes the request reaches the backend intact.

## Findings

| source | as written | input that shows it | evidently intended | confidence | as-written member | corrected member |
|---|---|---|---|---|---|---|
| main.js:95-107 | The `__CODE_BLOCK_i__` and `__INLINE_CODE_i__` placeholders contain `_CODE_`. The italic rewrite at line 156 turns that into `<em>CODE</em>`, so restoration at lines 208-209 never finds the placeholder. | "```x```" renders as `_<em>CODE</em>BLOCK<em>0</em>_` and the code is lost | code spans survive the later rewrites, as the comment at line 95 says | high (not executed) | MdCode.CodeLostAsWritten | MdRender.CorrectedInlineCodeRenders |
| main.js:240-246 | For an item one level deeper, the `listStack.length === depth` branch first pushes `</li>` (line 243) and then opens the nested list. The nested `<ul>` therefore lands outside any `<li>`. An indented first item becomes a bare `<li>`. | "- a\n  - b" gives `<ul>`, `<li>a`, `</li>`, `<ul>`, … | nested lists open inside the open item, and close with it | high (not executed) | MdLists.NestedListOutsideItem | MdLists.FixedListsWellNested |
| main.js:177-184 | The block test knows `<ul>`, `<ol>` and `<li>` but not the closing tags. The `</li>`, `</ul>` and `</ol>` lines that the list pass emits are therefore wrapped in `<p>`. | "- a" gives `<ul>`, `<li>a`, `<p>`, `</li>`, `</ul>`, `</p>` | list markup is never wrapped in a paragraph | high (not executed) | MdRender.ListItemWrapped | MdRender.ListsUnwrapped |
| frontend/components/modals/executionModal.js:226-229 | The catch prints `error.message`. A Tauri command that returns `Err(String)`, such as the refusal at src-tauri/src/commands_backup.rs:903, rejects `invoke` with that string, whose `message` is `undefined`. | a refused command prints `❌ Error: undefined` | the rejection's reason is printed | high (not executed) | ExecutionUi.RejectionReasonLost | ExecutionUi.CorrectedRejectionShowsReason |
| frontend/components/ui/commandButton.js:135-138 | `setLoading(false)` sets the icon to `originalIcon \|\| 'play'`. Only `setState` records `originalIcon`, so a button's own icon is lost after loading. | createCommandButton('fix'), then setLoading(true), then setLoading(false): the icon goes from `wrench` to `play` | leaving the loading state restores the icon shown before it | medium (not executed; the source has no caller of setLoading) | CommandButtons.FixButtonLoadingAsWritten | CommandButtons.LoadingRoundTripRestores |
