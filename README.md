# docgen core, modelled in Dafny

docgen renders a tree of Markdown documents with Quarto. Before Quarto runs, the pipeline does four things:

1. It mirrors the source tree into a build directory.
2. It scans every Markdown file there for directives: Excel ranges as images or tables, and images referenced from outside the tree.
3. It builds an artefact for each directive and splices the replacement text into the file.
4. It writes a `_quarto.yml` for each requested project type and runs Quarto in the build directory, then mirrors the result to the output directory.

This project models that pipeline and proves what its code promises. The file system is a value `FS`: a map from paths to files (modification time and text) or directories, plus the order in which `iterdir` and `rglob` enumerate them. A path is the sequence of its `parts`.

Each operation that can fail at the operating-system level takes a set of `faults`, the paths whose creation, writing or removal the system refuses. It returns the new tree together with the exception raised, if any.

Code that changes objects in place becomes classes with `modifies` clauses:

- the outputs container;
- the stem allocator;
- the copy and workbook caches;
- the progress-bar controller;
- the renderer;
- the type renderers.

Each of their methods is proved against a function of its inputs and old state. Pure code (paths, patterns, YAML edits, orderings) becomes functions with lemmas.

The container's build loop is specified by `Container.Step`: the build of one output as a function of the state it runs in, which is the tree, the allocator's counters and both caches. Each build method is proved to leave exactly the state and result that `Step` gives. The run chains these states output by output and file by file, as `Container.BuildsOf` states.

| file | module | models |
|---|---|---|
| `wrappers.dfy` | `Wrappers` | Option, Result and the Python exceptions as data |
| `text.dfy` | `Text` | the `str` operations the code relies on |
| `paths.dfy` | `Paths` | the POSIX `pathlib` operations, with `resolve` as lexical normalisation |
| `filesystem.dfy` | `FileSystem` | the file tree and `mkdir`, `copy2`, `unlink`, `rmdir`, `write_text` |
| `path_utils.dfy` | `PathUtils` | `utils/path.py` |
| `settings.dfy` | `Settings` | `_enforce_list` and the default and available lists |
| `source.dfy` | `Source` | `utils/source.py` |
| `table.dfy` | `Table` | `utils/table.py` |
| `patterns.dfy` | `Patterns` | `regular_expressions.py` and the greedy matching of `re` |
| `outputs.dfy` | `Outputs` | `outputs/abstract.py` |
| `descriptor.dfy` | `Descriptor` | `outputs/descriptor.py` |
| `splice.dfy` | `Splice` | the splicing in `OutputsContainer.run` |
| `container.dfy` | `Container` | `outputs/container.py` |
| `imgcopy.dfy` | `ImgCopy` | `outputs/img_copy.py` |
| `excel.dfy`, `excel_core.dfy`, `excel_outputs.dfy` | `Excel`, `ExcelCore`, `ExcelOutputs` | `outputs/excel.py` |
| `mirror_bar.dfy`, `mirror_copy.dfy`, `mirror_prune.dfy`, `mirror.dfy` | `MirrorBar`, `MirrorCopy`, `MirrorPrune`, `Mirror` | `utils/mirror.py` |
| `renderer.dfy`, `pre_render.dfy` | `Renderer`, `PreRendering` | `renderers/renderer.py` |
| `type_renderers.dfy` | `TypeRenderers` | `renderers/type/*.py` |
| `yml.dfy` | `Yml` | `utils/yml.py` |

Some code fails as written. These failures are modelled as the code has them:

- `nested_update` always raises (see Findings).
- `build_markdown` raises on the missing `with_rows` attribute.
- `build_image` raises because xlwings is not available.

Three other defects are listed under Findings with both the written and the corrected definition. The rest of the pipeline uses the corrected one, and the members concerned are named under Left out.

## Model

| member | source | states |
|---|---|---|
| `PathUtils.ResolvePath` | src/docgen/utils/path.py:35-40 | the result is a normal absolute path: the path resolved on its own when no base is given, otherwise the base's parts followed by the path's parts, resolved |
| `PathUtils.AbsoluteIgnoresBase` | src/docgen/utils/path.py:35-40 | an absolute path resolves to the same place whatever base is given, or none |
| `PathUtils.AbsoluteBaseIgnoresCwd` | src/docgen/utils/path.py:39-40 | resolving against an absolute base does not depend on the working directory |
| `PathUtils.ResolvePathIdempotent` | src/docgen/utils/path.py:35-40 | resolving an already resolved path again, against any base, returns it unchanged |
| `PathUtils.HasBeenModified` | src/docgen/utils/path.py:42-47 | a missing path or reference means modified; without hashing the answer is "path strictly newer than reference"; with hashing it is "digests differ", and hashing a directory raises `IsADirectoryError` |
| `PathUtils.EqualTimesNotModified` | src/docgen/utils/path.py:45-46 | two existing entries with equal modification times are not modified (the comparison is strict) |
| `PathUtils.SameContentNotModified` | src/docgen/utils/path.py:45-47 | in hash mode two files with identical content are not modified, whatever their times |
| `PathUtils.ReplaceProhibited` | src/docgen/utils/path.py:61-66 | keeps the length and replaces exactly the prohibited characters (the fixed set plus the extra ones) by `_` |
| `PathUtils.SanitizePathPart` | src/docgen/utils/path.py:49-85 | the result is never empty, holds no always-prohibited character, holds no extra-prohibited one unless it is "unnamed", neither starts nor ends with a dot or space, and is no reserved Windows name in upper case |
| `PathUtils.NamedFacts` | src/docgen/utils/path.py:66-85 | the same guarantees hold for the stripped, replaced part after the reserved-name and empty-name steps |
| `PathUtils.SanitizeReserved` | src/docgen/utils/path.py:72-79 | a part whose cleaned form is a reserved name in upper case comes back with `_` appended |
| `PathUtils.SanitizeIdempotent` | src/docgen/utils/path.py:49-85 | sanitizing a sanitized part changes nothing, when the extra characters spare `_` and the letters of "unnamed" |
| `PathUtils.PyTail` | src/docgen/utils/path.py:28 | Python's `parts[-k:]`: a suffix of the parts whose length follows Python's slicing for positive, zero and negative `k` |
| `PathUtils.PyPrefix` | src/docgen/utils/path.py:25 | Python's `s[0:n]`: a prefix whose length follows Python's slicing, the whole string for `None` |
| `PathUtils.HashPath` | src/docgen/utils/path.py:6-29 | the result is one valid path part and contains no dot |
| `PathUtils.HashPathValue` | src/docgen/utils/path.py:19-29 | for a hexadecimal digest the name is exactly the digest cut to `n_hash`, an underscore, and the kept parts joined by underscores with prohibited characters and dots turned into underscores and trailing dots and spaces dropped |
| `PathUtils.HashPathDigestsApart` | src/docgen/utils/path.py:25-29 | two paths whose hexadecimal digests differ in their first `n` characters get different names when cut to `n` |
| `PathUtils.SanitizeAfterHead` | src/docgen/utils/path.py:61-85 | sanitising a text that starts with a clean head ending in `_` keeps the head and only sanitises what follows |
| `PathUtils.HashPathKeepsNames` | src/docgen/utils/path.py:27-28 | with two or more parts and `n_parents >= 1`, between one and all-but-the-root of the parts are kept, so the root never appears |
| `PathUtils.HashPathOnePart` | src/docgen/utils/path.py:27-28 | a path with a single part keeps that part, because `parts[-0:]` is every part |
| `Descriptor.AutoName` | src/docgen/outputs/descriptor.py:39 | the generated name `auto_<n>_` is one part without a dot |
| `Descriptor.AutoStem` | src/docgen/outputs/descriptor.py:39 | the generated stem is well formed, named `auto_<n>_`, and has no suffix |
| `Descriptor.AutoStemInjective` | src/docgen/outputs/descriptor.py:37-39 | two counter values giving the same stem are equal, so generated stems never collide |
| `Descriptor.PathAllocator.constructor` | src/docgen/outputs/descriptor.py:30 | the allocator starts with no counters |
| `Descriptor.PathAllocator.NextPath` | src/docgen/outputs/descriptor.py:32-39 | the counter of the destination (0 if new) goes up by one, no other counter changes, and the stem numbered by the new value is returned |
| `Descriptor.NextCount` | src/docgen/outputs/descriptor.py:37-38 | the value `next_path` numbers the stem with is one more than the counter held (none counting as zero), so it is never zero |
| `Descriptor.RefPath` | src/docgen/outputs/descriptor.py:48-50 | a string reference is stripped before parsing; a path reference is kept as is |
| `Descriptor.ClassifyAsWritten` | src/docgen/outputs/descriptor.py:55-63 | generation happens exactly when the checked path (`to_test`) sorts before the source or generation is forced; otherwise it raises exactly when the path is not within the source, and a local result is the path relative to the source |
| `Descriptor.ToTestWithin` | src/docgen/outputs/descriptor.py:55-57 | if the checked path `to_test` (the parent of an existing file) is within the source, so is the path itself |
| `Descriptor.Classify` | src/docgen/outputs/descriptor.py:14-18 | generation happens exactly when forced or when the checked path (`to_test`) is not within the source; a local result is the path relative to the source |
| `Descriptor.AsWrittenAgrees` | src/docgen/outputs/descriptor.py:58-63 | the written test and the intended test agree on forced generation, on paths within the source and on paths that sort before it |
| `Descriptor.AsWrittenRaisesOutside` | src/docgen/outputs/descriptor.py:58-63 | `/c/x.png` referenced from the source `/b` makes the written test raise, where the intended test generates a stem |
| `Descriptor.Describe` | src/docgen/outputs/descriptor.py:42-64 | the descriptor holds the reference resolved against the source, `n_called` 0, and is generated exactly when classified so; a generated one holds stem number n and that stem resolved under the destination, a local one the path relative to the source |
| `Descriptor.FromString` | src/docgen/outputs/descriptor.py:42-64 | returns the descriptor above numbered by the destination's next counter value; the counter advances only when a stem is generated |
| `Descriptor.GeneratedStemUnderDest` | src/docgen/outputs/descriptor.py:59-60 | a generated stem resolved against the destination is the destination followed by the stem |
| `Source.AsList` | src/docgen/utils/source.py:8-9 | a single extension behaves as a list holding just that extension |
| `Source.FilesIn` | src/docgen/utils/source.py:3-14 | everything yielded is a file strictly below the directory whose suffix is one of the extensions, and nothing is yielded twice |
| `Source.FilesOf` | src/docgen/utils/source.py:10-14 | the loop over the children yields matching files below the directory, each reached through one of the listed children, without repetition |
| `Source.FilesAt` | src/docgen/utils/source.py:11-14 | one entry yields the walk of a sub-directory or the entry itself when its suffix matches, all of it reached through that entry |
| `Source.WithExtension` | src/docgen/utils/source.py:3-14 | the walk raises exactly when the starting path is not a directory |
| `Source.FilesInHas` | src/docgen/utils/source.py:10-14 | every matching file at any depth below the directory is yielded |
| `Source.WithExtensionExactly` | src/docgen/utils/source.py:3-14 | on a directory the walk yields, once each, exactly the files below it at any depth whose suffix is one of the extensions; on anything else it raises |
| `Source.MarkdownExactly` | src/docgen/utils/source.py:16-17 | the markdown walk yields exactly the `.md` and `.qmd` files below the directory |
| `Source.SameShapeFilesIn` | src/docgen/utils/source.py:10-14 | the walk depends only on the tree's entries, their order and their kinds, not on file contents or times |
| `Source.SameShapeMarkdown` | src/docgen/utils/source.py:16-17 | two trees of the same shape give the same markdown listing |
| `Settings.Dedup` | src/docgen/settings.py:74-75 | `list(set(value))`: the same elements as the list, each once, never longer |
| `Settings.EnforceList` | src/docgen/settings.py:71-76 | `None` stays absent; a list gives its elements without duplicates; a string gives the comma-separated pieces without duplicates |
| `Settings.StringNeverEmpty` | src/docgen/settings.py:71-76 | a string setting always gives a non-empty list, so a fallback after it is never used |
| `Settings.EmptyStringGivesEmptyName` | src/docgen/settings.py:76 | the empty string gives the list holding one empty name, not the empty list |
| `Settings.JoinedList` | src/docgen/settings.py:60-64 | a list of comma-free names joined by commas is read back as the same set of names |
| `Settings.GettersGiveLists` | src/docgen/settings.py:25-29 | each getter gives exactly the names of its constant list |
| `Settings.Defaults` | src/docgen/settings.py:79-102 | the default formats are `["html"]` and the default project types `["default"]` |
| `Table.Caption` | src/docgen/utils/table.py:11 | no label, or an empty one, adds nothing; a label is wrapped in a `figcaption` on a new line |
| `Table.TableHtml` | src/docgen/utils/table.py:5-10 | a string is kept, a data frame gives its HTML, anything else raises `ValueError` |
| `Table.ToQuartoMarkdown` | src/docgen/utils/table.py:3-16 | fails exactly on input that is neither a string nor a data frame; otherwise the HTML and caption sit inside a raw-HTML fence |
| `Table.StringEmbeddedVerbatim` | src/docgen/utils/table.py:5-16 | an HTML string is embedded unchanged: the output starts with the opening fence, ends with the closing one, and between them holds the string and the caption |
| `Table.WrapInjective` | src/docgen/utils/table.py:5-16 | two strings with the same label giving the same markdown are equal |
| `Patterns.FitSound` | src/docgen/regular_expressions.py:5-12 | the greedy fit found for a pattern is an accepted way of splitting the text |
| `Patterns.FitComplete` | src/docgen/regular_expressions.py:5-12 | when any split is accepted, the greedy fit exists and is at least as long at every group, in lexicographic order |
| `Patterns.AcceptsChain` | src/docgen/regular_expressions.py:5-12 | the end positions of an accepted split stay within the text and never decrease |
| `Patterns.MatchAt` | src/docgen/regular_expressions.py:5-12 | a match at a position exists exactly when some split is accepted; it starts there, is non-empty, and group 0 is the matched text |
| `Patterns.GreedyIsGreatest` | src/docgen/regular_expressions.py:7-12 | the `.*` groups are greedy: the chosen split is the greatest accepted one |
| `Patterns.FindIter` | src/docgen/regular_expressions.py:5-12 | `finditer`: each match is the match at its start, matches do not overlap and come in order, and every position where a match begins is covered by one of them |
| `Patterns.MatchOnOneLine` | src/docgen/regular_expressions.py:10-12 | a match of an image or Excel pattern never spans a newline, since `.` does not match one |
| `Patterns.PatternsValid` | src/docgen/regular_expressions.py:5-12 | the four patterns are well formed, and the image and Excel ones match within one line |
| `Patterns.ExcelImgPrefix` | src/docgen/regular_expressions.py:11 | an Excel image match starts with `excel[` or `excel-img[` |
| `Patterns.ExcelImgNotAtTable` | src/docgen/regular_expressions.py:11-12 | the Excel image pattern does not match at `excel-table[` |
| `Patterns.ExcelSpellingMatches` | src/docgen/regular_expressions.py:11 | the `excel[..](..?..)` spelling matches the Excel image pattern |
| `Patterns.ExcelImgSpellingMatches` | src/docgen/regular_expressions.py:11 | the `excel-img[..](..?..)` spelling matches the Excel image pattern |
| `Outputs.NewOutput` | src/docgen/outputs/abstract.py:9-14 | a new output holds its match and file, belongs to no container yet, and replaces its match by the empty text |
| `Outputs.GeneratedDir` | src/docgen/outputs/abstract.py:17-22 | defined exactly once the output belongs to a container, as the container's build directory followed by the generated directory |
| `Outputs.GeneratedDirInsideBuild` | src/docgen/outputs/abstract.py:17-22 | the generated directory lies strictly inside the build directory |
| `Outputs.BaseBuild` | src/docgen/outputs/abstract.py:34-35 | the base `build` returns the output unchanged, so its replacement text is as it was |
| `Splice.SliceBound` | src/docgen/outputs/container.py:62 | a Python slice bound past the end of the text is cut to the length |
| `Splice.SpliceOne` | src/docgen/outputs/container.py:62 | with the match inside the text, the result is the text before the match, the replacement, then the text after the match |
| `Splice.SpliceAll` | src/docgen/outputs/container.py:59-62 | the loop over a file's outputs: each output spliced, in list order, into the text the previous ones left; `Splice.SpliceFrom` and `Splice.RunSplicesOnePass` state what it computes |
| `Splice.SpliceFrom` | src/docgen/outputs/container.py:59-62 | splicing outputs sorted last-first from a position keeps the text before it and rebuilds the rest left to right |
| `Splice.SpliceOnePass` | src/docgen/outputs/container.py:59-62 | for apart outputs sorted last-first, the sequential splicing equals one left-to-right pass that replaces every match at once |
| `Splice.InsertPermutes` | src/docgen/outputs/container.py:57 | inserting into the sorted list adds exactly that output |
| `Splice.InsertDescending` | src/docgen/outputs/container.py:57 | inserting into a list sorted by decreasing start keeps it sorted |
| `Splice.InsertStable` | src/docgen/outputs/container.py:57 | outputs with the same start keep their relative order, the inserted one last |
| `Splice.SortDesc` | src/docgen/outputs/container.py:57 | `sort(key=start, reverse=True)` by insertion: the sorted list has as many outputs; `Splice.SortPermutes`, `Splice.SortDescending` and `Splice.SortStable` state that it is a stable, descending permutation |
| `Splice.SortPermutes` | src/docgen/outputs/container.py:57 | `sort(key=start, reverse=True)` is a permutation of the outputs |
| `Splice.SortDescending` | src/docgen/outputs/container.py:57 | after sorting, starts never increase along the list |
| `Splice.SortStable` | src/docgen/outputs/container.py:57 | the sort is stable: outputs with equal starts keep their original order, as Python's sort with `reverse=True` does |
| `Splice.SortApart` | src/docgen/outputs/container.py:56-57 | sorting outputs whose matches do not overlap keeps them pairwise apart |
| `Splice.SortedApartFromTheEnd` | src/docgen/outputs/container.py:56-62 | sorted, non-overlapping outputs each end before the start of the one spliced before it, so every splice sees valid offsets |
| `Splice.RunSplicesOnePass` | src/docgen/outputs/container.py:55-62 | for non-overlapping matches the sort and splice loop equals replacing every match at once in the original text |
| `Container.MatchOf` | src/docgen/outputs/container.py:24-29 | a match found for a kind starts at the given position and lies within the text; image matches carry one group, Excel matches three |
| `Container.PatternOfValid` | src/docgen/outputs/container.py:24-28 | each kind is scanned with a well-formed pattern |
| `Container.ScanBy` | src/docgen/outputs/container.py:29 | the matches of one kind are exactly what `finditer` yields over the content |
| `Container.Scan` | src/docgen/outputs/container.py:24-29 | the content is scanned once per kind, in the order Excel image, Excel table, image |
| `Container.Created` | src/docgen/outputs/container.py:29-33 | one new output per match, in match order, each holding its match and the content path |
| `Container.FedMatches` | src/docgen/outputs/container.py:23-34 | every fed output belongs to the content path, has no container or replacement yet, and holds the match of its kind at its start |
| `Container.FedOrder` | src/docgen/outputs/container.py:24-34 | fed outputs come kind by kind in scan order, and within a kind in increasing, non-overlapping match order |
| `Container.FedCovers` | src/docgen/outputs/container.py:29-34 | every position where a scanned kind matches is covered by a fed output of that kind |
| `Container.ScanApart` | src/docgen/outputs/container.py:29 | the outputs created from one kind's scan are pairwise apart |
| `Container.SortRelabelled` | src/docgen/outputs/container.py:51-57 | building outputs before sorting changes only their replacement texts, so sorting built outputs orders them as sorting the unbuilt ones would |
| `Container.Flatten` | src/docgen/outputs/container.py:42-44 | the flattened listing holds exactly the outputs of the listed files |
| `Container.RewriteOne` | src/docgen/outputs/container.py:60-63 | rewriting one file keeps the file system valid |
| `Container.Rewrite` | src/docgen/outputs/container.py:59-63 | rewriting all files keeps the file system valid |
| `Container.RewriteOneEffect` | src/docgen/outputs/container.py:60-63 | only the file itself changes, and on success it holds its content with every output spliced in |
| `Container.RewriteKeepsOthers` | src/docgen/outputs/container.py:59-63 | files holding no outputs are left exactly as they were |
| `Container.RewriteWrites` | src/docgen/outputs/container.py:59-63 | when the whole pass succeeds, each listed file holds its old content with its outputs spliced in |
| `Container.RewriteStops` | src/docgen/outputs/container.py:59-63 | after the first file that fails to be read or written, no further file is touched |
| `Container.JoinedTwice` | src/docgen/outputs/container.py:19-21 | appending two lists of outputs to a file one after the other is appending their concatenation |
| `Container.SpliceFile` | src/docgen/outputs/container.py:60-62 | the loop over a file's outputs computes the spliced content |
| `Container.Step` | src/docgen/outputs/container.py:52-53 | the build of one output in a given state (tree, allocator counters, copy cache, workbook cache) keeps the tree valid, and the base class's build changes nothing and returns the output |
| `Container.ImageStep` | src/docgen/outputs/img_copy.py:30-89 | an image build places the image with the build directory's next counter value, which moves on exactly when the image is generated, and leaves the workbook cache alone |
| `Container.ExcelStep` | src/docgen/outputs/excel.py:244-289 | an excel build places the workbook with the next counter value, which moves on exactly when it is generated, and leaves the copy cache alone |
| `Container.ImageStepOf` | src/docgen/outputs/img_copy.py:30-89 | the image build's new state is the copy effect's tree, the advanced counters and the copy cache grown by the image's key exactly when it was copied; its result is the copy effect's |
| `Container.ImageStepBuilt` | src/docgen/outputs/img_copy.py:65-89 | a successful image build returns the output with the copy's new path, for the descriptor placed with the next counter value of the state it ran in |
| `Container.ExcelStepBuilt` | src/docgen/outputs/excel.py:244-289 | a successful excel build returns the output linking the artefact of the core made from the workbook placed with the next counter value, in that workbook's digest folder, with the workbook the cache held or loaded |
| `Container.StepBuilt` | src/docgen/outputs/container.py:52-53 | a successful build returns, by the output's class, the output itself, the image copy's text or the excel artefact's link, for the state it ran in |
| `Container.BuildOne` | src/docgen/outputs/container.py:52-53 | the build of one output leaves exactly the tree, counters, copy cache and workbook cache that `Container.Step` gives for the state before it, with its result |
| `Container.BuildImage` | src/docgen/outputs/img_copy.py:30-89 | the image copy's build leaves exactly the state and result `Container.ImageStep` gives for the state before it |
| `Container.BuildExcel` | src/docgen/outputs/excel.py:244-289 | the excel build leaves exactly the state and result `Container.ExcelStep` gives for the state before it |
| `Container.PrefixBuiltAs` | src/docgen/outputs/container.py:51-53 | each output built so far is its class's build for the state the builds before it left |
| `Container.ListStep` | src/docgen/outputs/container.py:51-53 | one more successful build, in the state the previous builds left, extends the built prefix by its output and the state it leaves, and the list still belongs to its file |
| `Container.PrefixGrows` | src/docgen/outputs/container.py:51-53 | the built prefix grows by one output when every step of the longer prefix is recorded, and the outputs after it stay as they were |
| `Container.StepsGrow` | src/docgen/outputs/container.py:51-53 | the earlier steps of a prefix stay recorded when one more step is added after them |
| `Container.BuildList` | src/docgen/outputs/container.py:51-53 | the outputs are built in list order up to the first that raises, each in the state the builds before it left, as `Container.Step` says: each one before it is replaced by its build's result, it and the rest are left as they were, the final state is the one the last build left, and nothing is raised exactly when every output was built |
| `Container.EndedValid` | src/docgen/outputs/container.py:51-53 | however one file's builds end, they leave a valid tree |
| `Container.BuildStep` | src/docgen/outputs/container.py:51-53 | building the next file's list keeps the loop's shape: earlier files built throughout, later files untouched, only that file's list changed, and each file built from the state the previous file left |
| `Container.AllBuiltStep` | src/docgen/outputs/container.py:51-53 | replacing one file's list by its built prefix keeps every file's list built step by step |
| `Container.LoopStarts` | src/docgen/outputs/container.py:51-53 | before the build loop no output is built and the state is the one the run starts in |
| `Container.LoopStep` | src/docgen/outputs/container.py:51-53 | after one file's builds the loop goes on to the next file from the state they left, or, when a build raised, ends as `Container.BuildsOf` says |
| `Container.LoopEnds` | src/docgen/outputs/container.py:51-53 | a loop that went through every file ends with nothing raised, as `Container.BuildsOf` says |
| `Container.RunValid` | src/docgen/outputs/container.py:51-53 | when no build raised, the state the builds end in holds a valid tree |
| `Container.OutputsContainer.constructor` | src/docgen/outputs/container.py:13-17 | a new container holds no outputs |
| `Container.OutputsContainer.Add` | src/docgen/outputs/container.py:19-21 | the output is attached to this container and appended to its file's list, a new file going last in the order of files |
| `Container.OutputsContainer.AddAll` | src/docgen/outputs/container.py:29-34 | the outputs of one kind's matches are appended, attached, to the file's list |
| `Container.OutputsContainer.FeedFromContent` | src/docgen/outputs/container.py:23-34 | the file's list grows by the fed outputs of the three scans, in scan order, all attached |
| `Container.OutputsContainer.Outputs` | src/docgen/outputs/container.py:42-44 | the outputs listed are exactly those held for some file |
| `Container.OutputsContainer.BuildAll` | src/docgen/outputs/container.py:51-53 | the files and their order are kept; every output is built in turn, file by file, each in the state the builds before it left, as `Container.Step` says; the files before the one where a build raised are built throughout, that file up to the raising output, the later files untouched; the builds stop past the last file exactly when nothing raised, and the final state is the one the last build left |
| `Container.OutputsContainer.BuildFile` | src/docgen/outputs/container.py:51-53 | the file's list is replaced by its builds from the current state, ending as `Container.BuildList` says; the other files' lists are unchanged |
| `Container.OutputsContainer.SortOne` | src/docgen/outputs/container.py:57 | sorts one file's list by decreasing match start and leaves the others |
| `Container.OutputsContainer.SortAll` | src/docgen/outputs/container.py:55-57 | every file's list is sorted by decreasing match start |
| `Container.OutputsContainer.WriteBack` | src/docgen/outputs/container.py:59-63 | the files are read, spliced and written in order, with the outcome of the rewrite pass |
| `Container.OutputsContainer.BuildInExecutors` | src/docgen/outputs/container.py:36-39 | the builds run as `Container.OutputsContainer.BuildAll` says, and both caches are empty afterwards however the builds end |
| `Container.OutputsContainer.Run` | src/docgen/outputs/container.py:46-63 | both caches are emptied however the builds end; the builds end as `Container.BuildsOf` says, each output built in the state the builds before it left; a raising build returns the tree it left and its error with no file rewritten; otherwise each built list ends sorted by decreasing start and the result is the rewrite of the built tree with those lists spliced in |
| `ImgCopy.CopyCache.constructor` | src/docgen/outputs/img_copy.py:15 | the copy cache starts empty |
| `ImgCopy.CopyCache.Add` | src/docgen/outputs/img_copy.py:86 | the key is added to the cache and nothing else changes |
| `ImgCopy.CopyCache.Clear` | src/docgen/outputs/img_copy.py:25-28 | the cache is empty after the executor ends |
| `ImgCopy.ImgLocation` | src/docgen/outputs/img_copy.py:46-58 | a reference starting with one `/` is taken from the build directory, an absolute one is kept, and a relative one is taken from the folder of the content file |
| `ImgCopy.BuildRelative` | src/docgen/outputs/img_copy.py:60-63 | a path within the build directory is made relative to it; any other path is kept unchanged |
| `ImgCopy.GeneratedName` | src/docgen/outputs/img_copy.py:72-75 | the new name stays in the stem's folder: it is the stem name followed by the image's stem, with the image's suffix put in place of whatever suffix that leaves, and it starts like the stem name |
| `ImgCopy.GeneratedNameKeepsName` | src/docgen/outputs/img_copy.py:72-75 | for an image whose stem has no dot, the copy is named `auto_<n>_` followed by the image's full name |
| `ImgCopy.DottedStemLosesTail` | src/docgen/outputs/img_copy.py:72-75 | for an image stem `head.tail`, `with_suffix` replaces `.tail`, so the copy is named `auto_<n>_head` plus the suffix |
| `ImgCopy.GeneratedNamesDistinct` | src/docgen/outputs/img_copy.py:72-75 | two generated names that are equal come from the same counter value, so distinct images never share a copy |
| `ImgCopy.ImageRef` | src/docgen/outputs/img_copy.py:46-63 | the reference handed to the descriptor is a well-formed path |
| `ImgCopy.CopyDest` | src/docgen/outputs/img_copy.py:82 | the copy goes next to the generated stem under the build directory, with the generated name |
| `ImgCopy.DescribeGenerated` | src/docgen/outputs/img_copy.py:65-70 | a descriptor that is generated has a generated stem and its resolved form |
| `ImgCopy.Place` | src/docgen/outputs/img_copy.py:65-67 | the image is described against the source and build directories without forcing generation |
| `ImgCopy.Substituted` | src/docgen/outputs/img_copy.py:89 | the replacement text is the whole match with every occurrence of the path group replaced by the new path |
| `ImgCopy.NewText` | src/docgen/outputs/img_copy.py:70-77 | a generated image is referred to by its generated relative name; a local one by its original stripped text |
| `ImgCopy.MkdirsThenCopy` | src/docgen/outputs/img_copy.py:84-85 | creating the folder and copying keep the file system valid and remove nothing |
| `ImgCopy.MkdirsThenCopyLands` | src/docgen/outputs/img_copy.py:84-85 | a successful copy needed an existing source file and leaves the destination holding its content; when the folder can be made and the destination is no directory, the copy succeeds |
| `ImgCopy.BuildEffect` | src/docgen/outputs/img_copy.py:30-89 | building keeps the file system valid and never removes an entry |
| `ImgCopy.BuildRewrites` | src/docgen/outputs/img_copy.py:89 | a successful build sets the replacement text to the match with the path replaced by the new text |
| `ImgCopy.BuildSkips` | src/docgen/outputs/img_copy.py:80-83 | a local image, an image already copied, or a copy that is up to date leaves the file system alone and only rewrites the reference |
| `ImgCopy.BuildCopies` | src/docgen/outputs/img_copy.py:80-86 | when the image is cached, it was generated, not cached before, an existing file, and the destination now holds its content |
| `ImgCopy.BuildCopiesWhenPossible` | src/docgen/outputs/img_copy.py:80-86 | a generated, uncached, modified image whose destination can be written is copied and cached |
| `ImgCopy.Locate` | src/docgen/outputs/img_copy.py:65-67 | the descriptor is the placement numbered by the build directory's next counter, which advances only for a generated image |
| `ImgCopy.CopyAndRewrite` | src/docgen/outputs/img_copy.py:70-89 | the file system and result are the build effect, and the cache gains the image's key exactly when it was copied |
| `ImgCopy.Build` | src/docgen/outputs/img_copy.py:30-89 | locating then copying and rewriting: the descriptor is the numbered placement, and the file system, the result and the cache are the build effect |
| `Excel.RangeValues` | src/docgen/outputs/excel.py:155-162 | one row per sheet row of the bounds and one cell per column, each the cell at its offset from the top-left corner |
| `Excel.CellTexts` | src/docgen/outputs/excel.py:192 | empty cells become the empty string and the others keep their text, cell by cell |
| `Excel.RowLineTidy` | src/docgen/outputs/excel.py:192-194 | a row's line holds no newline, no doubled space, no other whitespace and no leading or trailing space |
| `Excel.Lines` | src/docgen/outputs/excel.py:192-194 | one line per row, each the row's tidied line |
| `Excel.ParagraphText` | src/docgen/outputs/excel.py:190-196 | the text `build_paragraph` writes: the rows' tidied lines joined by newlines; `Excel.ParagraphLines` states that splitting it gives the lines back |
| `Excel.ParagraphLines` | src/docgen/outputs/excel.py:190-198 | splitting the paragraph text at newlines gives back the rows' lines, one per row, empty rows included |
| `Excel.EmptyRowKept` | src/docgen/outputs/excel.py:192-196 | a row of empty or blank cells gives an empty line, which is kept |
| `Excel.ParseRangeAsWritten` | src/docgen/outputs/excel.py:126-153 | `_parse_range` as written, with a bound on the stack: a range that parses is used as it is, and whatever it returns parses to what it holds; otherwise it recurses on the range with the first sheet's name prefixed (`Excel.AsWrittenOutcomes` and `Excel.DefinedNameRecursion` state where that ends) |
| `Excel.WordsLine` | src/docgen/outputs/excel.py:192-194 | a row whose cells are words needs no tidying: its line is the cells joined by single spaces |
| `Excel.AsWrittenOutcomes` | src/docgen/outputs/excel.py:126-153 | with a loaded workbook, the written `_parse_range` either parses the range with some number of first-sheet prefixes or runs out of stack; it never raises the invalid-range error and never reads a defined name |
| `Excel.DefinedName` | src/docgen/outputs/excel.py:141-144 | the model looks the name up among the first sheet's defined names, then the workbook's; the written code reads the sheet named `_sheet_name`, still `None` at that point (see Left out) |
| `Excel.ParseRange` | src/docgen/outputs/excel.py:126-153 | a range that parses is used as it is; whatever is found parses to what is returned; a range that neither parses nor names anything raises `Invalid range` |
| `Excel.ParseRangeOrder` | src/docgen/outputs/excel.py:134-150 | the range is tried with the first sheet's prefix next, then as a defined name with a single destination; a name with several destinations raises |
| `Excel.AsWrittenAgrees` | src/docgen/outputs/excel.py:128-140 | when the range parses on its own or with the first sheet's prefix, the written and the intended parsing agree |
| `Excel.DefinedNameRecursion` | src/docgen/outputs/excel.py:134-148 | a range that only a defined name resolves makes the written parsing run out of stack, where the intended one returns the name's destination |
| `Excel.Outname` | src/docgen/outputs/excel.py:92 | the output name is the sanitized, lower-cased `<workbook>_<range>`: one path part, not `..`, not starting with a dot, without prohibited characters |
| `Excel.BuilderFor` | src/docgen/outputs/excel.py:171-184 | exactly the five modes are accepted, each selecting its builder; any other mode raises `ValueError` |
| `Excel.BuilderRoundTrip` | src/docgen/outputs/excel.py:171-184 | each builder is selected by its own mode name |
| `Excel.BuilderSuffix` | src/docgen/outputs/excel.py:171-181 | paragraph writes `.txt`, image `.png`, HTML `.html`, both markdown modes `.md` |
| `Excel.OutputPath` | src/docgen/outputs/excel.py:170-181 | the intended target sits in the parent folder and is named the output name followed by the suffix |
| `Excel.OutputPathAsWritten` | src/docgen/outputs/excel.py:170-181 | `(parent / outname).with_suffix(suffix)`: when it succeeds for a plain output name, the target sits in the parent folder and is named the output name's stem, before its last dot, followed by the suffix |
| `Excel.OutputPathInjective` | src/docgen/outputs/excel.py:170-181 | two output names with the same intended target are equal |
| `Excel.AsWrittenTargetAgrees` | src/docgen/outputs/excel.py:170-181 | for a dot-free output name, `with_suffix` gives the intended target |
| `Excel.DottedTarget` | src/docgen/outputs/excel.py:170-181 | for an output name `head.tail`, `with_suffix` replaces `.tail`, giving `head` plus the suffix |
| `Excel.AsWrittenTargetsCollide` | src/docgen/outputs/excel.py:170-181 | two ranges whose output names differ only after their last dot get the same written target, while their intended targets differ |
| `Excel.OutputPathsDiffer` | src/docgen/outputs/excel.py:170-181 | distinct output names give distinct intended targets |
| `ExcelCore.CachedWorkbookStays` | src/docgen/outputs/excel.py:114-119 | a workbook is read at most once: after a successful lookup every later lookup of that path returns the same workbook; a failed load leaves the cache as it was; other paths are untouched |
| `ExcelCore.WorkbookCache.constructor` | src/docgen/outputs/excel.py:82 | the class-level workbook cache starts empty |
| `ExcelCore.WorkbookCache.Load` | src/docgen/outputs/excel.py:114-119 | returns the cached workbook, or loads it and caches it on success, keeping the load order |
| `ExcelCore.WorkbookCache.Clear` | src/docgen/outputs/excel.py:94-102 | every cached workbook is closed, in load order, and the cache is emptied |
| `ExcelCore.MakeCore` | src/docgen/outputs/excel.py:85-92 | with the intended `Excel.ParseRange` of Findings row 2: the core fails exactly when its range cannot be parsed; otherwise it holds the resolved workbook path, its stem, the range, the parsed sheet and bounds of the string that parsed, and the output name built from them; a range that parses on its own is kept as it is |
| `ExcelCore.MakeCoreIgnoresWorkbook` | src/docgen/outputs/excel.py:85-92 | constructing a core for a range that parses on its own does not depend on the workbook |
| `ExcelCore.NewCore` | src/docgen/outputs/excel.py:85-92 | the workbook is loaded into the cache only when the range does not parse on its own |
| `ExcelCore.SheetIndex` | src/docgen/outputs/excel.py:122-124 | finds the first sheet with the name, or reports that there is none |
| `ExcelCore.RangeRows` | src/docgen/outputs/excel.py:155-162 | reading the range succeeds exactly when the workbook loaded and has the core's sheet, giving that sheet's values in the bounds; a missing sheet raises `KeyError` |
| `ExcelCore.OutnameSuffixPart` | src/docgen/outputs/excel.py:170-181 | the output name with any builder suffix is a single valid path part |
| `ExcelCore.CoreTarget` | src/docgen/outputs/excel.py:168-184 | the target exists exactly when the mode is known; it lies in the given folder, else next to the workbook; its name is the intended one of Findings row 3, the output name followed by the mode's suffix |
| `ExcelCore.MkdirsThenWrite` | src/docgen/outputs/excel.py:197-198 | creating the folder and writing keep the file system valid |
| `ExcelCore.MkdirsThenWriteLands` | src/docgen/outputs/excel.py:197-198 | after success the file holds the text, every other entry is unchanged, and the write succeeds when the folder can be made |
| `ExcelCore.QuartoText` | src/docgen/outputs/excel.py:218-225 | the quarto markdown is the range's HTML table, identified by the output name, inside a raw-HTML fence |
| `ExcelCore.RunBuilder` | src/docgen/outputs/excel.py:190-231 | the image builder always raises the missing-xlwings error; a range that cannot be read raises its error; the markdown builder raises `AttributeError` (no `with_rows`) |
| `ExcelCore.RunBuilderWrites` | src/docgen/outputs/excel.py:190-231 | a builder that succeeds leaves the target holding its text and changes nothing else; it succeeds when the target can be written |
| `ExcelCore.CoreBuild` | src/docgen/outputs/excel.py:164-188 | an unknown mode raises; a target newer than the workbook is left alone; otherwise the mode's builder runs |
| `ExcelCore.BuildResult` | src/docgen/outputs/excel.py:185-188 | `build` returns the target path unless the builder raised |
| `ExcelCore.BuildSkipsFreshTarget` | src/docgen/outputs/excel.py:185-188 | with an up-to-date target nothing is written and the target is still returned |
| `ExcelCore.ParagraphBuildWrites` | src/docgen/outputs/excel.py:190-198 | a paragraph build that can write leaves a file whose lines are the range's tidied rows |
| `ExcelCore.Build` | src/docgen/outputs/excel.py:164-188 | the file system and result are those of the build; the workbook is loaded into the cache exactly when a builder reads it |
| `ExcelOutputs.WorkbookRef` | src/docgen/outputs/excel.py:246 | the workbook reference is the stripped second group |
| `ExcelOutputs.ExcelDest` | src/docgen/outputs/excel.py:251 | the artefacts of a workbook go in a folder of the generated directory named by the 8-character path digest and the last two parts |
| `ExcelOutputs.ExcelDestsDiffer` | src/docgen/outputs/excel.py:251 | two workbooks whose hexadecimal path digests differ in their first eight characters get different folders |
| `ExcelOutputs.ArtefactRelative` | src/docgen/outputs/excel.py:267-288 | an artefact in such a folder is, relative to the build directory, the generated directory, the folder and the file |
| `ExcelOutputs.ImageLink` | src/docgen/outputs/excel.py:268 | the image replacement starts with `![label](` |
| `ExcelOutputs.IncludeLink` | src/docgen/outputs/excel.py:289 | the table replacement starts with a Quarto include shortcode |
| `ExcelOutputs.ImageLinkLabel` | src/docgen/outputs/excel.py:268 | the label is embedded unchanged in the image link |
| `ExcelOutputs.ArtefactLink` | src/docgen/outputs/excel.py:264-289 | the replacement of a built directive: for an image output an image link starting with `![label](`, otherwise a Quarto include shortcode; `ExcelOutputs.LinkedArtefact` states that linking the built artefact gives it |
| `ExcelOutputs.PlaceWorkbook` | src/docgen/outputs/excel.py:247-249 | the workbook is described against the source and build directories, the counter advancing only for a generated descriptor |
| `ExcelOutputs.Linked` | src/docgen/outputs/excel.py:264-289 | linking succeeds exactly when the artefact lies in the build directory, giving an image link for an image output and an include for a table output |
| `ExcelOutputs.LinkedArtefact` | src/docgen/outputs/excel.py:264-289 | the artefact built for an output always lies in the build directory, so linking it succeeds |
| `ExcelOutputs.Finish` | src/docgen/outputs/excel.py:264-289 | the core build's outcome is returned; on success the replacement text is the link to the artefact |
| `ExcelOutputs.CoreLinked` | src/docgen/outputs/excel.py:264-289 | building a made core keeps the tree valid, and on success links its artefact in the digest folder; the workbook cache is kept or gains the core's workbook |
| `ExcelOutputs.Constructed` | src/docgen/outputs/excel.py:250-289 | the rest of the build keeps the tree valid; a folder that cannot be made raises with the cache unchanged; a failing core is the output's failure; a success links the artefact of the core made from the stripped range and the workbook the cache held or loaded |
| `ExcelOutputs.Placement` | src/docgen/outputs/excel.py:244-289 | the whole excel build as a function of the tree, the counters and the workbook cache: the tree stays valid and the build directory's counter moves on exactly when the workbook is placed as generated |
| `ExcelOutputs.Construct` | src/docgen/outputs/excel.py:252-257 | a folder that cannot be made raises; otherwise the core is built from the workbook and the stripped range, and its failure is the output's failure |
| `ExcelOutputs.Produce` | src/docgen/outputs/excel.py:250-257 | the folder is the digest folder, then the core is built as above |
| `ExcelOutputs.Build` | src/docgen/outputs/excel.py:244-289 | the whole build: the descriptor is the placement numbered by the next counter value, which advances only for a generated workbook; the folder is the digest folder; the core, tree, result and workbook cache are what `ExcelOutputs.Constructed` gives; together, exactly what `ExcelOutputs.Placement` gives for the counters and cache before it |
| `MirrorBar.BarController.constructor` | src/docgen/utils/mirror.py:13-16 | the controller starts with counter 0, no phase total, and nothing shown |
| `MirrorBar.BarController.Update` | src/docgen/utils/mirror.py:18-27 | a new total first completes the current phase, then starts a new phase at counter 0; a plain update advances the counter and the bar by one while the counter is below the total, and the bar always shows the phase start plus the counter |
| `MirrorBar.BarController.End` | src/docgen/utils/mirror.py:29-32 | without a phase nothing moves; otherwise the bar advances by the rest of the phase, reaching the phase start plus its total |
| `MirrorCopy.TargetNormal` | src/docgen/utils/mirror.py:81-82 | the target of an item below the source is a normal path strictly inside the destination |
| `MirrorCopy.TargetOfChild` | src/docgen/utils/mirror.py:81-82 | the target of a child is the target of its folder followed by the child's name |
| `MirrorCopy.SyncFile` | src/docgen/utils/mirror.py:85-93 | syncing a file only adds to the file system or rewrites files inside the destination |
| `MirrorCopy.CopyDir` | src/docgen/utils/mirror.py:75-99 | the walk from a folder only adds to the file system or rewrites files inside the destination: nothing outside it changes, no directory changes, nothing is removed |
| `MirrorCopy.CopyItems` | src/docgen/utils/mirror.py:76-99 | the loop over a folder's entries only adds or rewrites inside the destination |
| `MirrorCopy.Visit` | src/docgen/utils/mirror.py:77-99 | one entry is skipped when it is the destination, inside it or excluded; otherwise a file is synced and a folder created and walked, only adding or rewriting inside the destination |
| `MirrorCopy.CopyTree` | src/docgen/utils/mirror.py:75-99 | the recursive walk computes the walk above and only advances the progress counter |
| `MirrorCopy.WalkItem` | src/docgen/utils/mirror.py:77-99 | handling one entry computes its visit and only advances the progress counter |
| `MirrorCopy.CopyDirSynced` | src/docgen/utils/mirror.py:87 | when every reached entry already has an up-to-date copy, the walk changes nothing |
| `MirrorCopy.CopyDirFrame` | src/docgen/utils/mirror.py:75-99 | entries neither inside the folder's target nor on the way to it are left exactly as they were |
| `MirrorCopy.CopyIntoWrites` | src/docgen/utils/mirror.py:89-90 | `copy2` leaves the target holding the source's content and modification time |
| `MirrorCopy.SyncFileSyncs` | src/docgen/utils/mirror.py:85-93 | after syncing, the file's copy exists and is not older than the file |
| `MirrorCopy.VisitSyncs` | src/docgen/utils/mirror.py:77-99 | after visiting an entry that is not skipped, its copy and the copies of everything reached below it are in place |
| `MirrorCopy.CopyDirSyncs` | src/docgen/utils/mirror.py:75-102 | without failures and with file and folder kinds agreeing, after the walk every entry it reaches has its copy in place: files copied and not older, folders present |
| `MirrorCopy.CopyItemsSyncs` | src/docgen/utils/mirror.py:76-99 | after the loop each entry it handled has its copy in place, later siblings not disturbing earlier ones |
| `MirrorCopy.CopyTwice` | src/docgen/utils/mirror.py:75-102 | without failures, running the copy pass a second time changes nothing |
| `MirrorPrune.Marked` | src/docgen/utils/mirror.py:122-133 | the marked entries are exactly the listed ones that are neither kept nor below a kept folder and whose counterpart in the source is missing, in listing order and without repetition |
| `MirrorPrune.ProtectedStep` | src/docgen/utils/mirror.py:123-128 | at each step of the top-down listing, the growing working list of kept folders decides protection as "kept, or below a kept folder inside the destination" does |
| `MirrorPrune.MarkOrphans` | src/docgen/utils/mirror.py:121-133 | the marking loop over the destination's entries, top down, collects the marked entries |
| `MirrorPrune.DropFiles` | src/docgen/utils/mirror.py:136-142 | unlinking the marked files removes only marked entries and changes nothing else |
| `MirrorPrune.DirStep` | src/docgen/utils/mirror.py:147-151 | one directory step removes at most that directory and only when it is empty |
| `MirrorPrune.DropDirsFrom` | src/docgen/utils/mirror.py:144-151 | the reversed loop over marked directories removes only marked entries |
| `MirrorPrune.Prune` | src/docgen/utils/mirror.py:120-151 | the orphan pass keeps the file system valid |
| `MirrorPrune.RemoveFiles` | src/docgen/utils/mirror.py:136-142 | the file loop computes the file removal above and only advances the progress counter |
| `MirrorPrune.RemoveDirs` | src/docgen/utils/mirror.py:144-151 | the directory loop computes the directory removal above and only advances the progress counter |
| `MirrorPrune.PruneOrphans` | src/docgen/utils/mirror.py:120-151 | marking then removing computes the orphan pass |
| `MirrorPrune.FilesGone` | src/docgen/utils/mirror.py:136-142 | without failures, no marked entry is a file afterwards |
| `MirrorPrune.DirsGoneFrom` | src/docgen/utils/mirror.py:144-151 | without failures, a marked directory whose contents are all marked is gone, because the reversed order meets its contents first |
| `MirrorPrune.PruneShrinks` | src/docgen/utils/mirror.py:120-151 | the pass removes only marked entries and changes nothing it keeps |
| `MirrorPrune.PruneRemovesOnlyOrphans` | src/docgen/utils/mirror.py:120-151 | everything left is unchanged, and everything removed was strictly below the destination, not protected, and an orphan |
| `MirrorPrune.PruneRemovesOrphans` | src/docgen/utils/mirror.py:120-151 | without failures, every orphan below the destination that neither it nor anything below it is protected is removed |
| `MirrorPrune.PruneKeepsAncestors` | src/docgen/utils/mirror.py:144-151 | an entry that survives keeps every folder above it |
| `MirrorPrune.PruneKeepsProtected` | src/docgen/utils/mirror.py:123-128 | a kept entry, or one below a kept folder in the destination, is never touched |
| `Mirror.Prepare` | src/docgen/utils/mirror.py:47 | creating the destination keeps the file system valid |
| `Mirror.MirrorSpec` | src/docgen/utils/mirror.py:34-152 | `mirror` raises `FileExistsError` for a destination that is a file, the mkdir error, `FileNotFoundError` for a missing source or the `iterdir` error for a source file; otherwise it leaves the copied tree, pruned when `rm_orphans` is set |
| `Mirror.Walked` | src/docgen/utils/mirror.py:102-151 | a call that passes the checks raises nothing and leaves the tree of the copy pass, pruned when asked |
| `Mirror.RaisesIffChecksFail` | src/docgen/utils/mirror.py:41-50 | the call raises exactly when one of the checks before the walk fails |
| `Mirror.Run` | src/docgen/utils/mirror.py:34-152 | the steps in order give the outcome above; a call that completes shows a full bar of 100 |
| `Mirror.DestIsFile` | src/docgen/utils/mirror.py:41-45 | a destination that is a file raises `FileExistsError` and changes nothing |
| `Mirror.MissingSource` | src/docgen/utils/mirror.py:47-50 | with a missing source the destination is still created before `FileNotFoundError` is raised, and nothing existing changes |
| `Mirror.OnlyInsideDest` | src/docgen/utils/mirror.py:34-152 | nothing outside the destination changes, and new entries lie inside it or on the way down to it |
| `Mirror.NoPruneKeepsAll` | src/docgen/utils/mirror.py:120 | without `rm_orphans` nothing is removed and no directory changes |
| `Mirror.CounterpartOfTarget` | src/docgen/utils/mirror.py:81-82 | the counterpart in the source of a copy's target is the item it was copied from |
| `Mirror.CopiesKept` | src/docgen/utils/mirror.py:122-133 | the copy of an entry that still exists in the source is never pruned |
| `Mirror.PrunesOrphans` | src/docgen/utils/mirror.py:120-151 | pruning removes only unprotected orphans below the destination, and without failures removes all unprotected orphans |
| `Mirror.Syncs` | src/docgen/utils/mirror.py:34-152 | without failures and with file and folder kinds agreeing, the call succeeds and every reached source entry has an up-to-date copy in the destination |
| `PreRendering.SourceOf` | src/docgen/renderers/renderer.py:259-260 | a build file has a source counterpart exactly when it lies in the build directory: the source directory followed by its path relative to the build directory |
| `PreRendering.FeedOne` | src/docgen/renderers/renderer.py:255-268 | a file under the generated directory is skipped; otherwise the source counterpart's text, rendered when jinja is on, is fed and written over the build file, and a failure changes nothing |
| `PreRendering.FeedStops` | src/docgen/renderers/renderer.py:255-268 | after the first failing file the loop goes no further |
| `PreRendering.FeedAll` | src/docgen/renderers/renderer.py:253-268 | the feed pass over the build directory's markdown listing keeps the file system valid, and a build directory that is not a directory raises with nothing fed; `PreRendering.FeedAllCases`, `PreRendering.FeedCovers` and `PreRendering.FeedTexts` state the rest |
| `PreRendering.FeedAllCases` | src/docgen/renderers/renderer.py:255 | a build directory that cannot be listed raises with nothing fed; otherwise the loop runs over the markdown listing |
| `PreRendering.AbsorbedAppend` | src/docgen/renderers/renderer.py:267 | feeding the container two batches one after the other is feeding it their concatenation |
| `PreRendering.Fresh` | src/docgen/renderers/renderer.py:257-258 | the files fed are exactly those not under the generated directory |
| `PreRendering.FeedShape` | src/docgen/renderers/renderer.py:255-268 | the feed pass only rewrites files, so the markdown listing of the build directory is the same afterwards |
| `PreRendering.FeedCovers` | src/docgen/renderers/renderer.py:255-268 | a pass that succeeds feeds every listed file not under the generated directory, once each, in listing order |
| `PreRendering.FeedTexts` | src/docgen/renderers/renderer.py:259-268 | each fed text is the rendered content of the file's source counterpart; on success each build file holds its fed text; nothing outside the build directory changes |
| `PreRendering.SourceOutsideBuild` | src/docgen/renderers/renderer.py:259-261 | with the build directory outside the source, the text read for a build file never comes from the build directory |
| `PreRendering.TargetsOf` | src/docgen/renderers/renderer.py:276 | each target is the stripped first group of its match |
| `PreRendering.IncludeTargetsAreMatches` | src/docgen/renderers/renderer.py:275-276 | the include targets of a text are the stripped groups of the include pattern's `finditer` matches |
| `PreRendering.TargetPath` | src/docgen/renderers/renderer.py:277 | a target resolved against the build directory is a normal path |
| `PreRendering.IncludedFrom` | src/docgen/renderers/renderer.py:275-279 | the paths added for a file are exactly the existing files named by its targets |
| `PreRendering.IncludedIn` | src/docgen/renderers/renderer.py:273-279 | the included set holds exactly the existing files some listed file includes |
| `PreRendering.Unincluded` | src/docgen/renderers/renderer.py:282-285 | keeps, in order and without repetition, exactly the listed files that exist and are not included |
| `PreRendering.NotIncludedFiles` | src/docgen/renderers/renderer.py:272-285 | the not-included list exists exactly when the build directory is a directory |
| `PreRendering.MarkdownListing` | src/docgen/renderers/renderer.py:273 | the listing of the build directory holds each markdown file below it once, and nothing else |
| `PreRendering.NotIncludedExactly` | src/docgen/renderers/renderer.py:272-285 | the not-included files are exactly the markdown files of the build directory that no markdown file there includes, each once |
| `Renderer.ValidateProjectTypes` | src/docgen/renderers/renderer.py:93-97 | the accepted types are a non-empty list without duplicates; `user` is accepted only on its own; a mix raises `ValueError` |
| `Renderer.DefaultTypes` | src/docgen/renderers/renderer.py:94 | the default project types are `["default"]` |
| `Renderer.UserCheck` | src/docgen/renderers/renderer.py:95 | with duplicates removed, more than one type with `user` among them means some other type is present |
| `Renderer.NoTypesGivesDefault` | src/docgen/renderers/renderer.py:93-97 | no types, or an empty list, gives `["default"]` |
| `Renderer.RequestedTypes` | src/docgen/renderers/renderer.py:93-97 | validation fails exactly when `user` is asked for with another type, and otherwise gives exactly the requested types |
| `Renderer.ChooseOutputDir` | src/docgen/renderers/renderer.py:99-121 | the directory `validate_output_dir` chooses is never the source directory, and it is automatic only when no argument was given; `Renderer.ChoiceFacts`, `Renderer.ExplicitChoice`, `Renderer.DefaultChoice` and `Renderer.SourceReplaced` state its cases |
| `Renderer.ChoiceFacts` | src/docgen/renderers/renderer.py:99-121 | the chosen output directory is normal and never the source directory; it is automatic only without an argument; an earlier explicit choice other than the source is kept |
| `Renderer.ExplicitChoice` | src/docgen/renderers/renderer.py:103-107 | a first argument is resolved against the source directory and is not automatic |
| `Renderer.DefaultChoice` | src/docgen/renderers/renderer.py:107 | without an argument the directory is `docgen_output` in the working directory, automatic |
| `Renderer.SourceReplaced` | src/docgen/renderers/renderer.py:114-118 | a choice equal to the source directory becomes `docgen_output` inside it and stops being automatic |
| `Renderer.FirstIndex` | src/docgen/renderers/renderer.py:167 | `list.index`: the first position holding the value |
| `Renderer.Passed` | src/docgen/renderers/renderer.py:166-168 | a flag absent from the arguments passes nothing; otherwise the flag and the argument after its first occurrence, or the flag alone when it is last |
| `Renderer.ToArgs` | src/docgen/renderers/renderer.py:180-181 | one `--to <format>` pair per format, in order |
| `Renderer.LogArgs` | src/docgen/renderers/renderer.py:160-169 | the arguments passed on to quarto for the log flags: at most two per flag, each taken from the given arguments; `Renderer.LogArgsOrder` states their order and when there are none |
| `Renderer.LogArgsOrder` | src/docgen/renderers/renderer.py:160-169 | the log arguments are those of `--log-level`, then `--log`, then `--log-format`, at most six, and none exactly when no flag is given |
| `Renderer.ChildNormal` | src/docgen/renderers/renderer.py:130 | a file name added to a normal folder gives a normal path |
| `Renderer.PreventOutputMirror` | src/docgen/renderers/renderer.py:125-130 | writing the marker keeps the file system valid |
| `Renderer.MarkedDirs` | src/docgen/renderers/renderer.py:143-145 | exactly the listed directories that hold the marker file |
| `Renderer.Excluded` | src/docgen/renderers/renderer.py:139-145 | `iterdir` on the source raises exactly when the source is not a directory; otherwise the build directory is excluded first; `Renderer.ExcludedExactly` states the rest of the list |
| `Renderer.ExcludedExactly` | src/docgen/renderers/renderer.py:141-145 | the exclusion list exists exactly when the source is a directory, and holds the build directory and exactly the source's sub-directories with the marker |
| `Renderer.OutputDirExcluded` | src/docgen/renderers/renderer.py:139-145 | an existing output directory inside the source is excluded from the mirror once the marker is written |
| `Renderer.ForceCopies` | src/docgen/renderers/renderer.py:155-158 | the forced copies keep the file system valid |
| `Renderer.ForcedNamesAreNames` | src/docgen/renderers/renderer.py:155 | `_quarto.yml` and `_variables.yml` are plain file names |
| `Renderer.ForceCopiesRefresh` | src/docgen/renderers/renderer.py:155-158 | each existing named source file is copied over its build counterpart; nothing is removed and nothing else changes |
| `Renderer.ForcedNamesRefresh` | src/docgen/renderers/renderer.py:152-158 | after the mirror, the build directory holds exact copies of the source's `_quarto.yml` and `_variables.yml`, whatever the mirror decided |
| `Renderer.MirrorSrc` | src/docgen/renderers/renderer.py:132-158 | the marker, the mirror with the exclusions and the generated directory kept, then the forced copies, keep the file system valid |
| `Renderer.Renderer.constructor` | src/docgen/renderers/renderer.py:58-91 | formats are automatic exactly when none were given and fall back to the defaults; the quarto arguments default to none; the output directory is validated with no previous choice; nothing is listed as not included yet |
| `Renderer.Renderer.ValidateOutputDir` | src/docgen/renderers/renderer.py:99-121 | returns the chosen directory and sets the automatic flag, leaving the stored directory to the caller |
| `Renderer.Renderer.AssignOutputDir` | src/docgen/renderers/renderer.py:80 | stores the chosen directory and flag |
| `Renderer.Renderer.QuartoLogCmd` | src/docgen/renderers/renderer.py:160-169 | the loop computes the log arguments above |
| `Renderer.Renderer.QuartoVanillaCmd` | src/docgen/renderers/renderer.py:171-187 | no arguments for automatic formats, otherwise one `--to` pair per format |
| `Renderer.Renderer.ResolveIn` | src/docgen/renderers/renderer.py:231-240 | raises `ValueError` exactly when neither source nor build is asked for; otherwise a normal path, the path itself resolved when absolute |
| `Renderer.Renderer.FeedTurn` | src/docgen/renderers/renderer.py:256-268 | one turn of the feed loop gives the feed outcome of one file and hands its text to the container |
| `Renderer.Renderer.FeedFiles` | src/docgen/renderers/renderer.py:255-268 | the feed loop gives the feed outcome of the files and fills the container with the fed texts |
| `Renderer.Renderer.FeedSources` | src/docgen/renderers/renderer.py:253-268 | the feed pass over the build directory's listing, as specified above |
| `Renderer.Renderer.AddTargets` | src/docgen/renderers/renderer.py:275-279 | the included set grows by the files included from one text |
| `Renderer.Renderer.AddResolved` | src/docgen/renderers/renderer.py:276-279 | the included set grows by the existing files the targets name |
| `Renderer.Renderer.CollectIncludes` | src/docgen/renderers/renderer.py:273-279 | the include loop collects exactly the files the listed files include |
| `Renderer.Renderer.ListNotIncluded` | src/docgen/renderers/renderer.py:282-285 | the filter gives the not-included files, all normal paths |
| `Renderer.Renderer.PreRender` | src/docgen/renderers/renderer.py:242-285 | the output directory is untouched; the steps end as `pre_render` does: the feed pass is `PreRendering.FeedAll`, a feed error ends them; the new container's builds end as `Container.BuildsOf` says, each output built in the state the builds before it left, a build error ends them on the tree it left; otherwise the tree is the container's rewrite of the built tree; after success the stored list is exactly the not-included markdown files of that tree, and after a failure it is unchanged |
| `Renderer.Renderer.RunAndList` | src/docgen/renderers/renderer.py:244-285 | the same steps up to the not-included list: the feed outcome is `PreRendering.FeedAll`'s, the builds, each in the state the builds before it left, and the rewrite are the container run's, and on success the list is the not-included files of the rewritten tree, all normal paths |
| `Yml.Walk` | src/docgen/utils/yml.py:27-31 | walking the dotted path fails only with `KeyError` for a missing key or `TypeError` for a node that cannot be subscripted by a string |
| `Yml.Replace` | src/docgen/utils/yml.py:29-40 | after putting a node back at the end of the path, walking the path reaches that node |
| `Yml.ReplaceKeepsSiblings` | src/docgen/utils/yml.py:29-40 | putting a node back along the path keeps the document's keys and every entry off the path |
| `Yml.ReplaceSame` | src/docgen/utils/yml.py:29-31 | putting back the node that was reached gives the document unchanged |
| `Yml.ReplaceTwice` | src/docgen/utils/yml.py:29-40 | putting the same node back twice is putting it back once |
| `Yml.Contains` | src/docgen/utils/yml.py:37 | `key in node` raises exactly for a None, boolean or number node |
| `Yml.Fill` | src/docgen/utils/yml.py:36-44 | filling leaves a node that is not a mapping as it was and keeps a mapping a mapping |
| `Yml.Filled` | src/docgen/utils/yml.py:36-44 | every existing key keeps its value, and the keys added are exactly the listed missing ones whose source value is not None, with that value |
| `Yml.FillStops` | src/docgen/utils/yml.py:36-40 | once filling fails, later keys are not looked at |
| `Yml.FillMap` | src/docgen/utils/yml.py:36-44 | filling a mapping succeeds and gives the filled mapping |
| `Yml.FilledTwice` | src/docgen/utils/yml.py:36-44 | filling a mapping twice from the same source is filling it once |
| `Yml.FillStable` | src/docgen/utils/yml.py:36-44 | filling a successfully filled node again changes nothing |
| `Yml.UpdatedIdempotent` | src/docgen/utils/yml.py:26-44 | a second `update_path` with the same arguments changes nothing |
| `Yml.UpdatedOnMapping` | src/docgen/utils/yml.py:26-44 | when the path leads to a mapping, `update_path` succeeds and only adds keys there: existing keys keep their values, and added keys are listed ones with the source's non-None value |
| `Yml.UpdatePath` | src/docgen/utils/yml.py:26-44 | the walk and the keys loop compute the update above, with its failures |
| `Yml.NestedUpdate` | src/docgen/utils/yml.py:47-68 | `nested_update` never returns: a non-mapping fails the first assertion, and a mapping reaches the three-argument `isinstance` call, which raises `TypeError` |
| `Yml.Merged` | src/docgen/utils/yml.py:56-65 | the corrected update keeps exactly the document's top-level keys |
| `Yml.NestedUpdateIntended` | src/docgen/utils/yml.py:53-65 | with `isinstance(source, dict)` as the second assertion, the update returns exactly when both nodes are mappings at every level it recurses into, and otherwise fails an assertion |
| `Yml.MergedExtends` | src/docgen/utils/yml.py:56-65 | the corrected update only appends to lists: at every depth no key is added or dropped and no other value changes |
| `Yml.MergedListFree` | src/docgen/utils/yml.py:59-65 | a source holding no list leaves the document unchanged |
| `Yml.AsWrittenNeverUpdates` | src/docgen/utils/yml.py:53-54 | on two empty mappings the update as written raises `TypeError`, while the corrected one returns the empty mapping |
| `TypeRenderers.SubOutputDir` | src/docgen/renderers/type/website.py:15 | each class's sub-directory is its project type behind an underscore, and is a plain file name |
| `TypeRenderers.FromType` | src/docgen/renderers/type/abstract.py:42-64 | a class is found exactly for the available project types and carries that type; any other name raises `ValueError` |
| `TypeRenderers.FromTypeRoundTrip` | src/docgen/renderers/type/abstract.py:53-63 | each class is found again from its own project type |
| `TypeRenderers.FormatsChosen` | src/docgen/renderers/type/base_pre_renderer2.py:28-32 | with no formats the defaults (`html`) are used; otherwise the given formats, each once. A website keeps `html` exactly when it was given or nothing was |
| `TypeRenderers.BuildOutputDir` | src/docgen/renderers/type/abstract.py:33-40 | an output directory the user chose is used as it is; an automatic one gets the type's sub-directory |
| `TypeRenderers.OutputDirsApart` | src/docgen/renderers/type/abstract.py:33-40 | two types share a directory the user chose, but with an automatic one neither type's output lies inside the other's |
| `TypeRenderers.RmOrphansPrecedence` | src/docgen/renderers/type/abstract.py:104-112 | `--no-clean` wins over `--clean` and `--clean` over the rest; with neither, orphans are removed exactly when the output is not the source directory |
| `TypeRenderers.RelPaths` | src/docgen/renderers/type/default.py:20-22 | relative paths succeed exactly when every file lies in the build directory, one per file in order, each the file's part below it |
| `TypeRenderers.RelPathsWellFormed` | src/docgen/renderers/type/default.py:22 | the relative paths of well-formed files are well-formed |
| `TypeRenderers.RelPathsStop` | src/docgen/renderers/type/default.py:21-22 | once a file raises, the later files do not change the outcome |
| `TypeRenderers.RelNames` | src/docgen/renderers/type/default.py:16-23 | the names succeed exactly when every file lies in the build directory, and give each file's relative string in order |
| `TypeRenderers.RelStrResolves` | src/docgen/renderers/type/default.py:22 | a relative name, resolved against the build directory, is its file again |
| `TypeRenderers.ProjectStep` | src/docgen/renderers/type/base_pre_renderer2.py:59-75 | the project section exists afterwards, holding the renderer's type; its other keys stay; an existing `render` is kept, and a missing one is set to the files to render when there are any; fails exactly for a project section that is not a mapping, or a file-listing error when `render` is absent |
| `TypeRenderers.FormatKeysSet` | src/docgen/renderers/type/base_pre_renderer2.py:81-82 | exactly one `docgen-<format>` key is added per format, set to `default`; other keys keep their values |
| `TypeRenderers.FormatStep` | src/docgen/renderers/type/base_pre_renderer2.py:79-82 | the format section is created when absent; a mapping gets the format keys, and anything else is left as it is; other sections are untouched |
| `TypeRenderers.AddFormatKeys` | src/docgen/renderers/type/base_pre_renderer2.py:81-82 | the format loop adds the keys described above |
| `TypeRenderers.InsertAt` | src/docgen/renderers/type/base_pre_renderer2.py:87-89 | the position of the first `quarto` filter, or 0 when there is none |
| `TypeRenderers.DocgenPlaced` | src/docgen/renderers/type/base_pre_renderer2.py:85-90 | one `docgen` is inserted and nothing else changes; it lands just before the first `quarto`, or at the start |
| `TypeRenderers.FiltersStep` | src/docgen/renderers/type/base_pre_renderer2.py:85-90 | the filters step succeeds exactly when the filters are a list (absent counts as empty), and sets them to the list with `docgen` placed |
| `TypeRenderers.BasePreparedKeeps` | src/docgen/renderers/type/base_pre_renderer2.py:37-92 | the base edits add only the `project`, `format` and `filters` sections, keep every other section, and set the project type |
| `TypeRenderers.Chapters` | src/docgen/renderers/type/book.py:31-35 | the chapters are the relative names with the index put first when it is not among them; the index is always a chapter |
| `TypeRenderers.TypeRenderer.constructor` | src/docgen/renderers/type/abstract.py:19-27 | the output directory comes from `build_output_dir`, quarto renders into the type's sub-directory of the build directory, and the pre-rendering classes validate their formats |
| `TypeRenderers.TypeRenderer.CmdArgs` | src/docgen/renderers/type/abstract.py:79-94 | `render --output-dir <sub-directory>`, then the log arguments; the user renderer adds its `--to` arguments, as in user.py lines 14-17 |
| `TypeRenderers.TypeRenderer.OutputCall` | src/docgen/renderers/type/abstract.py:113-116 | the mirror call from the internal output directory to the output directory is a valid call |
| `TypeRenderers.TypeRenderer.MirrorOutput` | src/docgen/renderers/type/abstract.py:96-116 | the output is mirrored with the orphan decision above, as the mirror specification says |
| `TypeRenderers.TypeRenderer.RelativePaths` | src/docgen/renderers/type/default.py:20-22 | the loop computes the relative paths above |
| `TypeRenderers.TypeRenderer.GetFilesToRender` | src/docgen/renderers/type/default.py:16-23 | the default renderer lists the not-included files relative to the build directory; the others give None, as in base_pre_renderer2.py lines 34-35 |
| `TypeRenderers.TypeRenderer.ProjectPrepare` | src/docgen/renderers/type/base_pre_renderer2.py:59-75 | the project step with the renderer's type and its files to render |
| `TypeRenderers.TypeRenderer.BasePrepare` | src/docgen/renderers/type/base_pre_renderer2.py:37-92 | the project, format and filters steps in order, stopping at the first error |
| `TypeRenderers.TypeRenderer.FindIndex` | src/docgen/renderers/type/book.py:19-26 | the index is `index.md` if it exists, else `index.qmd` if that exists; when neither exists it is not found, and the path is `index.qmd` |
| `TypeRenderers.TypeRenderer.BookPrepare` | src/docgen/renderers/type/book.py:15-47 | a missing index is written first; an existing `book` section is kept, otherwise one is added whose chapters are the not-included files with the index |
| `TypeRenderers.TypeRenderer.WebsitePrepare` | src/docgen/renderers/type/website.py:20-42 | an existing `website` section is kept, otherwise one is added with a navbar entry per not-included file |
| `TypeRenderers.TypeRenderer.Prepared` | src/docgen/renderers/type/abstract.py:68-76 | the preparation of any class keeps the file system valid |
| `TypeRenderers.TypeRenderer.Prepare` | src/docgen/renderers/type/book.py:15-16 | the user renderer keeps the base content; the others apply the base edits, then the book or website edits |
| `TypeRenderers.TypeRenderer.Published` | src/docgen/renderers/type/abstract.py:119-134 | writing the YAML, mirroring and marking keep the file system valid |
| `TypeRenderers.TypeRenderer.Publish` | src/docgen/renderers/type/abstract.py:119-134 | the YAML is written to `_quarto.yml`; the output is mirrored only when quarto exits with 0; the output directory is marked in either case; when nothing is raised the quarto command is `render --output-dir <sub-directory>`, the log arguments, and for the user renderer its `--to` arguments |
| `TypeRenderers.TypeRenderer.Rendered` | src/docgen/renderers/type/abstract.py:118-120 | rendering keeps the file system valid |
| `TypeRenderers.TypeRenderer.Render` | src/docgen/renderers/type/abstract.py:118-134 | the content is prepared and then published; a preparation error ends the render; when nothing is raised the quarto command is the one above |
| `TypeRenderers.RenderKind` | src/docgen/renderers/renderer.py:309-310 | a new renderer of the type is built for the renderer, with its validated formats, and the outcome is that renderer's `Rendered` outcome on the tree |
| `TypeRenderers.Sequenced` | src/docgen/renderers/renderer.py:306-310 | the renderers render in turn, each on the tree the one before left, the first exception ending the sequence; the tree stays valid, and an empty sequence leaves the tree unchanged with nothing raised |
| `TypeRenderers.SequencedStep` | src/docgen/renderers/renderer.py:306-310 | one more renderer after a sequence that raised nothing renders the tree that sequence left |
| `TypeRenderers.RenderTypes` | src/docgen/renderers/renderer.py:302-310 | the output directory is created first, and a failure there ends the loop with no renderer made; otherwise the loop is as `TypeRenderers.RenderEach` states |
| `TypeRenderers.RenderEach` | src/docgen/renderers/renderer.py:306-310 | the types are rendered in order; the tree is the sequenced outcome of the renderers made, one per type reached; an unknown type raises `ValueError` when reached; a renderer's exception ends the loop; without an exception every type is rendered |
| `TypeRenderers.RenderNext` | src/docgen/renderers/renderer.py:308-310 | the next renderer is made for the next type and extends the sequence: the outcome is the sequence with it appended |

## Left out

- File contents are text: bytes, encodings and newline translation are not modelled. Modification times are integers, and the clock `now` is a parameter.
- `Path.resolve()` does not follow symbolic links, and the working directory is a parameter. Windows paths and the special `//` root are not modelled.
- `iterdir` and `rglob` enumerate the tree top-down in creation order, recorded in `FS.order`. The real order is whatever the operating system returns.
- Logging, and the text of warnings, are left out everywhere. The tqdm bar is reduced to its position, driven by `MirrorBar.BarController`.
- SHA-256 (`hash_path` and `hash_file_content`) is an uninterpreted function passed as a parameter. The lemmas about `hash_path`'s value require only that it returns lower-case hexadecimal digits, as `hexdigest()` does.
- openpyxl is left out. A workbook is a value: sheets with cells and defined names, plus the workbook's own defined names. `range_to_tuple` and `load_workbook` are parameters. Closing a workbook cannot fail.
- pandas' `to_html` is a parameter.
- xlwings, `XwCache`, PIL and the Windows clipboard are left out. The image builder always raises the `RuntimeError` the code raises when they are missing.
- `_enforce_list` keeps the first occurrence of each element, which fixes the order that `list(set(...))` leaves unspecified. The same holds for the website's `{"html"} & set(...)`.
- `GENERATED_PATH_IN_BUILD_DIR` is a parameter. `outputs/__init__.py` is not part of this model.
- Renderer construction (`__init__`) is left out apart from the formats, the pass-through arguments and the output directory. The source directory after resolution, the build directory chosen from the path digest, and the working directory are parameters of `Renderer.Renderer.constructor`. The project types are checked by `Renderer.ValidateProjectTypes` and then passed to `TypeRenderers.RenderTypes`.
- `set_variables_yml`, `prepare_quarto_yml`, `add_extension` and the Jinja pre-rendering are left out. The base `_quarto.yml` content that they produce is a parameter.
- `read_yml` is left out (file I/O). `to_yml` is a parameter `dump` from the document to its text.
- YAML documents are values: `deepcopy` and aliasing between the base content and its copy are not modelled, since a value cannot be shared.
- Quarto is left out: installation, `quarto add`, and the `subprocess` call. Each Quarto run is represented by its return code, a parameter.
- The CLI, `logging_.py`, the extension build scripts and the example scripts are left out.
- `settings.py` reads overrides from `DYNOTEC_*` environment variables and from the `.env` file in the docgen home directory. These overrides are left out: the settings are their defaults.
- Descriptor.Describe: uses the intended `Descriptor.Classify` of Findings row 1. A path outside the source that sorts after it gets a generated stem, where `from_string` raises `ValueError` from `relative_to`. `Descriptor.AsWrittenAgrees` proves that the two agree on every other input.
- Descriptor.FromString: the same. So do the image and excel builds that call it, and the container run and `pre_render` built on them.
- ExcelCore.MakeCore: uses the intended `Excel.ParseRange` of Findings row 2. A range that only a defined name resolves gets a core, where `__post_init__` recurses until `RecursionError`. `Excel.AsWrittenAgrees` proves that the two agree when the range parses on its own or with the first sheet's prefix.
- ExcelCore.CoreTarget: uses the intended `Excel.OutputPath` of Findings row 3, the output name followed by the suffix. `with_suffix` instead replaces whatever follows a dot in the output name. `Excel.AsWrittenTargetAgrees` proves that the two agree for a dot-free output name.
- Excel.DefinedName: looks the name up among the first sheet's defined names. The written code reads `self.sh`, which is `self.wb[self._sheet_name]` with `_sheet_name` still `None` at that point, and openpyxl raises `KeyError` for it. This is a second correction inside `Excel.ParseRange`.
- Excel.Outname: `.lower()` is modelled on ASCII letters only, by `Text.Lower`. A non-ASCII capital such as `É` in a workbook name is kept, where Python folds it to `é`.
- Yml.NestedUpdateIntended: works on values, so the partial in-place changes that an assertion failure deep in the recursion would leave behind are not modelled. Nothing outside `nested_update` calls it.

## Findings

| source | as written | input that shows it | evidently intended | confidence | as-written member | corrected member |
|---|---|---|---|---|---|---|
| src/docgen/outputs/descriptor.py:58 | `to_test < source_dir` compares paths in sort order, so a path outside the source that sorts after it reaches `relative_to`, which raises `ValueError` | the image `/c/x.png` referenced from the source `/b` | generate a stem exactly when forced or when the path is not within the source directory | high, not executed | `Descriptor.ClassifyAsWritten`, `Descriptor.AsWrittenRaisesOutside` | `Descriptor.Classify` |
| src/docgen/outputs/excel.py:134-148 | when the range does not parse, `_parse_range` calls itself again with the first sheet's name prefixed, before trying defined names, so the recursion never ends | a range that only a defined name of the workbook resolves | try the prefixed range once, then the defined names. As written, the defined-name step would also fail: it reads the sheet named `None`, so `wb[None]` raises `KeyError`. `Excel.ParseRange` therefore looks the name up on the first sheet instead | high, not executed | `Excel.ParseRangeAsWritten`, `Excel.DefinedNameRecursion` | `Excel.ParseRange` |
| src/docgen/outputs/excel.py:170-181 | `(parent / outname).with_suffix(suffix)` replaces whatever follows the last dot of the output name, so two ranges of a dotted workbook share one target | the ranges `A1:B2` and `C1:D2` of `report.v2.xlsx` in paragraph mode both target `report.txt` | append the suffix to the output name | medium, not executed | `Excel.AsWrittenTargetsCollide` | `Excel.OutputPath` |
| src/docgen/utils/yml.py:54 | `isinstance(source, dict, "...")` is called with three arguments and raises `TypeError`, so `nested_update` never returns | `data = {}` and `source = {}` | `assert isinstance(source, dict), "..."` | high, not executed | `Yml.NestedUpdate`, `Yml.AsWrittenNeverUpdates` | `Yml.NestedUpdateIntended` |
