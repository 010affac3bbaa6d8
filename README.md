# PDF bundling and word-finder session, modelled in Dafny

This project models two Python tools that prepare documents for sending.

**PDF bundling** (`compress_pdf_group.py`):
- It collects the PDFs of a folder in name order.
- It reads a Markdown table of contents (`- Section` lines holding `  - Entry` lines).
- It walks a fixed grid of (dpi, JPEG quality) configurations, dpi outer and quality inner. It means to settle on the end of the first run of configurations whose merged output stays within 1.9 MiB: it stops at the first configuration that is too large after one that fits, even when a later one would fit again.
- It writes one bundle, `Anlagen.pdf`, with a two-level outline. Each entry of the outline points at the first page of the document paired with it by position.
- When the bundle is too large even at the coarsest configuration, it instead splits the documents into one group per section. It compresses each group on its own into `Anlagen-<title>.pdf`, largest group first.
- `main` as written departs from that choice in two ways, listed under "## Findings". The model keeps both `main` as written (`Bundler.Bundle`) and a corrected version (`Bundler.BundleFixed`).

**Word-finder session** (`word_finder_ui.py`):
- It steps cyclically through the `.docx` files of a folder.
- For the current document it lists the words that occur more than once and are not filler words.
- It can add a filler word, which grows the in-memory set and appends a line to the filler file.
- It can replace the last occurrence of a word by splicing a single paragraph.
- It can show the first paragraph that contains a word.

Modules, one per file:

| module | file | what it holds |
|---|---|---|
| `Wrappers` | wrappers.dfy | `Option`, `Min` |
| `Strings` | strings.dfy | `startswith`/`endswith`/`strip`/`replace`, line iteration over a text file, `split()`, `join`, Python's string order, `str(n)` |
| `Sorting` | sorting.dfy | a stable sort by a total preorder (`list.sort`) |
| `PdfInputs` | pdf_inputs.dfy | `get_ordered_pdfs` |
| `Toc` | toc.dfy | `parse_bookmark_structure`: a loop over lines, proved against a fold |
| `Outline` | outline.dfy | `add_outline`: the page-offset loop, the title-to-file map and the outline loop |
| `Grouping` | grouping.dfy | `group_pdfs_by_structure`, the group tasks and their order |
| `Naming` | naming.dfy | the sanitised title, the group output name and the per-configuration directory name |
| `Sweep` | sweep.dfy | the two configuration sweeps (`compress_group`, `main`) as nested loops, proved against scan functions |
| `Bundler` | bundler.dfy | `compress_group` and `main` composed from the above |
| `WordText` | word_text.dfy | candidate words, the filler file, last-match splice, first-match search, index wrap-around |
| `WordSession` | word_session.dfy | the session globals as the fields of a class, with one method per handler |

The following are inputs rather than computations:
- **Sizes and page counts.** The size of a merged, compressed document set at a configuration is an oracle `(docs, Config) -> nat`, and a document's page count is an oracle `string -> nat`.
- **Word-finder text functions.** Unicode `str.lower` and `str.isalpha` are function parameters.
- **Regex matches.** The matches of the `\b<word>\b` pattern arrive as spans per paragraph.
- **File contents.** The contents of the table-of-contents file and of the filler file are strings.

## Model

| member | source | states |
|---|---|---|
| `PdfInputs.SelectInputsCounts` | compress_pdf_group.py:27 | a name is kept, as often as the listing holds it, exactly when it ends in ".pdf", is not "Anlagen.pdf" and does not start with "temp_" |
| `PdfInputs.GetOrderedPdfs` | compress_pdf_group.py:26-29 | the result holds exactly the selected names with their multiplicities and is in ascending string order |
| `PdfInputs.OrderedPdfsStrictlyAscending` | compress_pdf_group.py:26-29 | for a listing without repeats, the result is strictly ascending |
| `PdfInputs.StrLeIsTotalPreorder` | compress_pdf_group.py:28 | Python's string comparison is a total preorder, so `sort()` is well defined |
| `Strings.StrLeTotal` | compress_pdf_group.py:28 | any two strings are comparable |
| `Strings.StrLeTransitive` | compress_pdf_group.py:28 | string order is transitive |
| `Strings.StrLeAntisymmetric` | compress_pdf_group.py:28 | two strings ordered both ways are equal, so equal-ranked names are the same name |
| `Sorting.SortBy` | compress_pdf_group.py:229 | sorting is a permutation of its input |
| `Sorting.SortBySorted` | compress_pdf_group.py:229 | sorting by a total preorder gives an ordered sequence |
| `Sorting.SortByStable` | compress_pdf_group.py:229 | elements ranked level keep their input order (stability of `list.sort`) |
| `Strings.LinesPartition` | compress_pdf_group.py:69 | line iteration cuts the file into lines that concatenate back to the content; each line ends in its newline except possibly the last |
| `Strings.StripIgnoresTrailingSpace` | compress_pdf_group.py:71 | a trailing whitespace character, such as the newline, does not change `strip()` |
| `Toc.LineKindsAreStartsWith` | compress_pdf_group.py:70-73 | a section line is one starting with "- ", an entry line one starting with "  - " |
| `Toc.AppendEntry` | compress_pdf_group.py:75 | appending an entry changes only the last section, whose entries grow by that entry |
| `Toc.Step` | compress_pdf_group.py:70-75 | one line keeps the parser state consistent: a non-empty current title is the title of the last section |
| `Toc.ParseBookmarkStructure` | compress_pdf_group.py:65-76 | the loop over the file's lines returns the structure of the parse fold over those lines |
| `Toc.SectionsFollowSectionLines` | compress_pdf_group.py:70-72 | there is one section per "- " line, in file order, titled by that line |
| `Toc.LeadingEntriesDropped` | compress_pdf_group.py:73 | lines before the first section line produce nothing |
| `Toc.SectionBlock` | compress_pdf_group.py:70-75 | the lines after a section line, up to the next one, append their stripped entry texts to that section only, and none when its title is empty |
| `Toc.ColonKeptBeforeNewline` | compress_pdf_group.py:71 | `strip(":")` runs before the newline is removed, so "- T:\n" gives the title "T:" |
| `Toc.ColonDroppedWithoutNewline` | compress_pdf_group.py:71 | on a last line without a newline, "- T:" gives the title "T" |
| `Outline.FlattenMembers` | compress_pdf_group.py:92 | a title is in the flattened list iff some section lists it |
| `Outline.StartPageIsPrefixSum` | compress_pdf_group.py:86-90 | a file has a start page iff it is listed; the page is the sum of the page counts before its last occurrence |
| `Outline.StartPageOfDistinct` | compress_pdf_group.py:86-90 | for distinct files, the start page of the k-th file is the sum of the page counts of files 0..k-1 |
| `Outline.PageLookup` | compress_pdf_group.py:86-90 | the loop with the running page counter builds exactly that map |
| `Outline.FileMapLaterWins` | compress_pdf_group.py:93 | a title is mapped iff it is among the first min(#titles, #files) flattened titles; it maps to the file at its last such index |
| `Outline.OutlineOf` | compress_pdf_group.py:95-101 | the outline has one parent per section |
| `Outline.AddOutline` | compress_pdf_group.py:95-101 | the nested loop emits exactly that outline |
| `Outline.BookmarkOfTitle` | compress_pdf_group.py:97-101 | an entry gets a bookmark iff its title has a flattened index below the number of files; the page is the start page of the file at the last such index |
| `Outline.ChildrenAreListed` | compress_pdf_group.py:97-101 | a section's bookmarks are its mapped entries, in order, each with the page of its file |
| `Outline.OutlineBookmarks` | compress_pdf_group.py:92-101 | for distinct non-empty file names, parent k holds exactly section k's entries among the first min(#titles, #files) flattened titles, each at its file's start page |
| `Outline.OutlineParents` | compress_pdf_group.py:95-96 | parent k carries section k's title |
| `Grouping.FirstSection` | compress_pdf_group.py:111-114 | the section found is the first one whose entries contain the title; none is found iff no section does |
| `Grouping.GroupsAreMembers` | compress_pdf_group.py:110-114 | a section has a group iff some paired document is filed under it; the group is those documents in input order |
| `Grouping.UsedAreThePaired` | compress_pdf_group.py:116 | a document is used iff it sits at a position below min(#docs, #titles) whose title some section lists |
| `Grouping.GroupPdfsByStructure` | compress_pdf_group.py:107-121 | the loop builds exactly those groups and reports as unused the documents outside every group |
| `Grouping.UnusedAreBeyondTheEntries` | compress_pdf_group.py:116-117 | the unused documents are exactly those that do not occur among the first min(#docs, #titles) |
| `Grouping.NothingUnusedWhenEntriesSuffice` | compress_pdf_group.py:116-117 | with at least as many entries as documents, nothing is unused |
| `Grouping.BuildTasks` | compress_pdf_group.py:228 | every task is a grouped section's title with that group's documents, and there are at most as many tasks as sections |
| `Grouping.TaskTitles` | compress_pdf_group.py:228 | tasks follow section order, one per section title present in the grouping |
| `Grouping.NoTasksIffNoGroupedSection` | compress_pdf_group.py:228 | no task is built exactly when no section title has a group |
| `Grouping.LargerFirstIsTotalPreorder` | compress_pdf_group.py:229 | "larger group first" is a total preorder |
| `Grouping.ScheduleLargestFirst` | compress_pdf_group.py:229 | the schedule is a permutation of its input tasks, in non-increasing group size, and tasks of equal size keep their order |
| `Naming.SanitizeIsPerChar` | compress_pdf_group.py:129 | the three chained replaces act character by character: ":" is dropped, "/" becomes "-", " " becomes "_" |
| `Naming.SanitizeClean` | compress_pdf_group.py:129 | a sanitised title holds no ":", "/" or " " |
| `Naming.SanitizeMergesTitles` | compress_pdf_group.py:129 | titles differing only in " " against "_" sanitise to the same name, so their outputs collide |
| `Naming.OutputName` | compress_pdf_group.py:131 | a group's output is named "Anlagen-...pdf" |
| `Naming.OutputNameIsReadBack` | compress_pdf_group.py:131 | a group output is never "Anlagen.pdf" and passes the input filter of a later run |
| `Naming.ConfigDirNameInjective` | compress_pdf_group.py:136 | distinct configurations get distinct "<dpi>_<quality>" directories |
| `Strings.NatToStringInjective` | compress_pdf_group.py:136 | the decimal rendering of a number is injective |
| `Sweep.BudgetInWholeBytes` | compress_pdf_group.py:19-20 | for a whole number of bytes, being within 1.9 MiB is being at most 1992294 bytes |
| `Sweep.GridIndex` | compress_pdf_group.py:134-135 | grid position di*8+qi is the configuration (dpi_values[di], quality_values[qi]): dpi outer, quality inner |
| `Sweep.GridIsInjective` | compress_pdf_group.py:134-135 | the sweep visits each configuration once |
| `Sweep.IsFirstConfig` | compress_pdf_group.py:225 | quality 50 at 100 dpi is exactly the first grid position |
| `Sweep.SweepTier` | compress_pdf_group.py:135-164 | the quality loop of one dpi tier advances the scan by that tier or ends it |
| `Sweep.CompressGroupSweep` | compress_pdf_group.py:132-172 | the nested loop of `compress_group` returns the scan's result |
| `Sweep.RunEnd` | compress_pdf_group.py:153-157 | the last configuration of a fitting run: it fits and the next one does not |
| `Sweep.RunEndAllFit` | compress_pdf_group.py:153-154 | every configuration of that run fits |
| `Sweep.FirstFitTier` | compress_pdf_group.py:163-164 | the first dpi tier whose coarsest configuration fits, or none |
| `Sweep.ScanFromFit` | compress_pdf_group.py:153-170 | from a fitting configuration, the sweep settles on the end of its run |
| `Sweep.ScanFromTier` | compress_pdf_group.py:134-172 | from a tier start with nothing valid, the sweep settles on the end of the run starting at the first fitting tier, or finds nothing |
| `Sweep.GroupSweepResult` | compress_pdf_group.py:132-172 | `compress_group` picks the last configuration of the first fitting run, which starts at the first tier whose coarsest configuration fits |
| `Sweep.GroupSweepFails` | compress_pdf_group.py:166-172 | `compress_group` finds nothing iff no tier's coarsest configuration fits |
| `Sweep.MainTier` | compress_pdf_group.py:192-232 | the quality loop of one dpi tier advances the main scan by that tier or ends it |
| `Sweep.MainSweep` | compress_pdf_group.py:189-232 | the nested loop of `main`, as written, returns the main scan's outcome |
| `Sweep.MainScanFromFit` | compress_pdf_group.py:194-224 | from a fitting configuration, `main` outputs nothing when the run of fitting configurations reaches the end of the grid; otherwise it bundles the run's last configuration, with the renderings of the next one, which overwrote the same temporary files |
| `Sweep.MainSweepResult` | compress_pdf_group.py:189-232 | `main` regroups iff the first configuration is too large; otherwise it outputs nothing if every configuration fits, else it bundles the end of the first run; a bundle's configuration fits while the renderings it holds do not |
| `Sweep.MainSweepDropsSmallInputs` | compress_pdf_group.py:191-232 | with every configuration fitting, `main` as written produces no output |
| `Sweep.MainTierFixed` | compress_pdf_group.py:192-232 | one dpi tier of the corrected loop |
| `Sweep.MainSweepFixed` | compress_pdf_group.py:189-232 | the corrected nested loop, which finalises after the grid like `compress_group` does, returns the corrected scan's outcome |
| `Sweep.MainScanFixedFromFit` | compress_pdf_group.py:205-224 | from a fitting configuration, the corrected sweep bundles the end of the run, with that configuration's own renderings |
| `Sweep.MainSweepFixedResult` | compress_pdf_group.py:189-232 | the corrected sweep always produces output: it regroups iff the first configuration is too large, else it bundles the configuration that `compress_group`'s sweep would pick, and the renderings it holds fit |
| `Sweep.MainSweepFixedAgrees` | compress_pdf_group.py:189-232 | wherever `main` as written produces output, the corrected sweep produces the same outcome at the same configuration, but holds that configuration's own renderings |
| `Bundler.SectionsTitled` | compress_pdf_group.py:160 | a section is among the result iff it bears the group's title (membership; counts and order follow in the next two rows) |
| `Bundler.SectionsTitledCounts` | compress_pdf_group.py:160 | each section bearing the group's title is kept as many times as the structure holds it, and no other section is kept |
| `Bundler.SectionsTitledAppend` | compress_pdf_group.py:160 | the filter of a concatenation is the concatenation of the filters, so the kept sections stay in structure order |
| `Bundler.CompressGroupRun` | compress_pdf_group.py:124-174 | `compress_group` yields the group output at the sweep's configuration with the outline of its sections, or nothing |
| `Bundler.CompressGroupOutput` | compress_pdf_group.py:124-174 | a group yields no output iff no tier's coarsest configuration fits; otherwise the output is `Anlagen-<title>.pdf`, never "Anlagen.pdf", with parents titled by the group |
| `Bundler.GroupOutputsNamed` | compress_pdf_group.py:228-231 | each group output is named after one of its tasks, and there are no more outputs than tasks |
| `Bundler.RunGroupTasks` | compress_pdf_group.py:230-231 | mapping `compress_group` over the schedule in order gives the group outputs |
| `Bundler.BundleDirectory` | compress_pdf_group.py:177-232 | `main` as written, in order: list the documents, parse the table of contents, sweep, then bundle, regroup or write nothing |
| `Bundler.FinishRun` | compress_pdf_group.py:205-232 | after the sweep: the bundle with the full outline, the group outputs in schedule order, the pool error when there is no task, or nothing |
| `Bundler.BundleDirectoryFixed` | compress_pdf_group.py:177-232 | the same run with the corrected sweep |
| `Bundler.BundleWhenFirstFits` | compress_pdf_group.py:205-215 | when the first configuration fits, `main` as written writes nothing if every configuration fits, and otherwise only "Anlagen.pdf", with the full outline and the renderings of the first configuration after the run of fitting ones |
| `Bundler.BundleExceedsBudget` | compress_pdf_group.py:194-210 | whenever `main` as written writes "Anlagen.pdf", the renderings it merges are over the size limit |
| `Bundler.BundleFixedWhenFirstFits` | compress_pdf_group.py:205-215 | when the first configuration fits, the corrected run writes only "Anlagen.pdf", at the end of the first run, within the size limit, with the full outline |
| `Bundler.BundleWhenFirstTooLarge` | compress_pdf_group.py:225-231 | when the first configuration is too large, both versions regroup alike; the run fails with the pool error iff no task is built, and otherwise writes at most one output per section, each named after a section title and none "Anlagen.pdf" |
| `Bundler.EntrylessTocFails` | compress_pdf_group.py:225-230 | a table of contents with no entry lines and a too-large first configuration end in the pool error |
| `Bundler.BuiltTaskHasSection` | compress_pdf_group.py:228 | each task's title is a section title |
| `Strings.TokensKeepNonSpace` | word_finder_ui.py:100 | `split()` keeps every non-whitespace character, in order, and only those |
| `Strings.TokensSkipSpace` | word_finder_ui.py:100 | leading whitespace adds no token |
| `Strings.TokensOfWord` | word_finder_ui.py:100 | a run of non-whitespace characters is a single token |
| `Strings.TokensTakeWord` | word_finder_ui.py:100 | a token ends exactly at the next whitespace character, and the rest is split on its own |
| `WordText.LowerAlphaMembers` | word_finder_ui.py:100 | a word is listed iff it is the lower-cased form of some alphabetic token |
| `WordText.Distinct` | word_finder_ui.py:101-103 | the Counter keys: each word once, and every word present |
| `WordText.CandidatesFromKeys` | word_finder_ui.py:103-104 | over distinct keys, the rows are exactly the repeated non-filler keys with their counts, without repeats |
| `WordText.CandidatesAreRepeatedNonFillers` | word_finder_ui.py:99-104 | a row (w, c) is listed iff w is a word of the document, c is its count, c > 1, and w is not a filler word |
| `WordText.FillersAfterAppends` | word_finder_ui.py:12-21 | starting from a missing file or one ending in a newline, reading the file back after words were appended one by one gives the earlier set plus exactly those words, stripped and lower-cased |
| `WordText.FillerSetSnoc` | word_finder_ui.py:15 | one more line adds exactly its cleaned-up form |
| `WordText.ReloadAfterAppend` | word_finder_ui.py:12-21 | after an append to a missing file or one ending in a newline, reloading adds exactly the appended word, cleaned up |
| `WordText.AppendWithoutFinalNewlineMerges` | word_finder_ui.py:12-21 | appending "bar" to a file "foo" without a final newline reloads as the single word "foobar" |
| `WordText.LastMatchedPara` | word_finder_ui.py:36 | the last paragraph with a match, with no match after it; none iff no paragraph matches |
| `WordText.LastMatchIsLastSpanOfLastPara` | word_finder_ui.py:27-36 | the match list is empty iff no paragraph matches; its last element is the last span of the last matching paragraph |
| `WordText.MatchesFit` | word_finder_ui.py:27-30 | every collected match lies within its paragraph |
| `WordText.Splice` | word_finder_ui.py:40 | the text before the span is kept, the replacement follows, then the text after the span |
| `WordText.SpliceUndo` | word_finder_ui.py:40 | splicing the old text back over the replacement restores the paragraph |
| `WordText.ReplaceLastOnly` | word_finder_ui.py:32-41 | with no match nothing changes; otherwise only the last matching paragraph changes, spliced at its last span |
| `WordText.FirstContaining` | word_finder_ui.py:48-52 | the first paragraph whose lower-cased text contains the word; none iff no paragraph does |
| `WordText.NextIndex` | word_finder_ui.py:158 | the next index stays within the list |
| `WordText.PrevIndex` | word_finder_ui.py:153 | the previous index stays within the list |
| `WordText.NextThenPrev` | word_finder_ui.py:151-159 | `next_doc` followed by `prev_doc` restores the index |
| `WordText.PrevThenNext` | word_finder_ui.py:151-159 | `prev_doc` followed by `next_doc` restores the index |
| `WordText.NavigationWraps` | word_finder_ui.py:151-159 | back from the first document is the last one, and forward from the last is the first |
| `WordSession.DocxFiles` | word_finder_ui.py:166 | the document list is exactly the ".docx" names of the folder |
| `WordSession.ListCandidates` | word_finder_ui.py:103-114 | the loop over the Counter items builds exactly the candidate rows |
| `WordSession.Session.constructor` | word_finder_ui.py:162-185 | the session starts at index 0 with the filler file's words and the current document displayed |
| `WordSession.Session.LoadDocWords` | word_finder_ui.py:83-114 | shows "Keine Dokumente gefunden." for an empty list; otherwise names the current document and lists its candidate rows; nothing else changes |
| `WordSession.Session.NextDoc` | word_finder_ui.py:156-159 | advances the index cyclically and redisplays; with no documents it fails and changes nothing |
| `WordSession.Session.PrevDoc` | word_finder_ui.py:151-154 | steps the index back cyclically and redisplays; with no documents it fails and changes nothing |
| `WordSession.Session.AddFiller` | word_finder_ui.py:18-21 | the word joins the filler set, no member is removed, and the file gains the line |
| `WordSession.Session.ReplaceWordInDocx` | word_finder_ui.py:23-44 | reports a replacement iff there is a match; only the named document changes, by the last-match splice, and without a match nothing changes |
| `WordSession.Session.ConfirmReplace` | word_finder_ui.py:129-136 | an entry that strips to nothing changes nothing; otherwise the stripped entry replaces the last match in the current document and the list is redisplayed |
| `WordSession.Session.ShowSentence` | word_finder_ui.py:46-52 | the output shows the stripped first paragraph containing the word, and is unchanged when none does |

## Left out

- Rendering, encoding and merging (`compress_pdf_with_quality_and_dpi`, `merge_pdfs`) are not modelled. With `get_file_size`, they are abstracted into one size oracle per (documents, configuration). A document that fails to render is part of that oracle.
- Page counts (`PdfReader(f).pages`) are an oracle. The outline is a value, not written into a PDF file.
- `multiprocessing.Pool.starmap` is a sequential map in task order, since `starmap` keeps order.
- File-system effects are not modelled: `os.chdir`, `mkdir`, `rmtree`, `copy`, `move` into `SEND_TO`, and the lifetimes of the temporary files and directories. The per-configuration directory of `compress_group` is modelled only by its name. Of `main`'s shared temporary directory, only one effect is modelled: a bundle holds the renderings of the last configuration tried.
- A document that fails to render at the configuration that overshoots leaves its earlier rendering in `main`'s temporary directory, so the bundle can mix configurations. This is not modelled: the bundle's renderings are those of one configuration.
- `cpu_count()` is taken to be at least 1, so `Pool(min(cpu_count(), len(tasks)))` fails only when there is no task.
- Floating point is not modelled. The budget is the integer 1992294 (see `Sweep.BudgetInWholeBytes`), and the MB figures are display only.
- Console messages are left out, including the list of unused documents. The unused set itself is returned.
- `open(..., encoding="utf-8")` and universal newlines are not modelled. File contents are strings split at '\n'.
- compress_pdf_ui.py and main.py are not part of this model. They hold widget code and an orchestration of the functions above.
- The word finder's tkinter widgets, message boxes and frame destruction are not modelled. The word list is modelled as its rows; the output box is modelled as its text.
- python-docx reading and saving are not modelled. A document is its list of paragraph texts; formatting, which `para.text =` discards, is not modelled.
- `show_synonyms` and its HTTP request are not modelled.
- The regex `\b...\b` with `IGNORECASE` is not modelled: the matches arrive as spans. Unicode `lower`/`isalpha` are parameters.
- `WordSession.Session.NextDoc`: `% len(doc_files)` raises `ZeroDivisionError` on an empty list. The model returns `false` and changes nothing instead of raising.
- `WordSession.Session.PrevDoc`: same as `NextDoc`.
- `Grouping.GroupPdfsByStructure`: `defaultdict` iteration order is not modelled. Groups are a map, and only `tasks` (which follows section order) depends on order.

## Findings

| source | as written | input that shows it | evidently intended | confidence | as-written member | corrected member |
|---|---|---|---|---|---|---|
| compress_pdf_group.py:191-232 | `main` finalises only when an oversized configuration follows a valid one. Unlike `compress_group` (lines 166-170), it has no step after the loops. | every configuration fits (e.g. small inputs, size 0 for all): the loops end and no `Anlagen.pdf` is written | bundle the last valid configuration after the loops, as `compress_group` does | not executed | `Sweep.MainSweep`, `Sweep.MainSweepDropsSmallInputs` | `Sweep.MainSweepFixed`, `Sweep.MainSweepFixedResult` |
| compress_pdf_group.py:194-210 | Every configuration of `main` renders into the same files, `compressed_<name>` in `TMP_DIR` (lines 33 and 194). The configuration that overshoots therefore overwrites the files of the last valid one before line 210 merges them. | the documents fit within the size limit only at (100 dpi, quality 50): the run bundles the renderings at (100, 55), which are over the limit | merge the renderings of the last valid configuration, as `compress_group` does with its per-configuration directory (line 136) | not executed | `Bundler.BundleDirectory`, `Bundler.BundleExceedsBudget` | `Bundler.BundleDirectoryFixed`, `Bundler.BundleFixedWhenFirstFits` |
