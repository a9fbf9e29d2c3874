# hans-zimmer-bot data preparation, in Dafny

This project models the deterministic bookkeeping of the two data-preparation
scripts of hans-zimmer-bot:

- `music_processor.py` cuts each downloaded music file into at most fifteen
  15-second windows. It sends every window to the `train` or the `test`
  split by comparing its ordinal with a random draw, and names the
  spectrogram image after the file's stem and the ordinal. `transform_music`
  runs this over the sorted files of one folder per label. `create_csv`
  writes the caption table `data/metadata.csv`.
- `image_dataset.py` builds an image dataset. `scrape_images` runs one Bing
  search per search phrase. It drops result images already seen in the same
  category and saves each downloaded image with an allowed extension as
  `<i>_<count><ext>` in folder `<i>`. `prune_data` deletes files with other
  extensions. `get_image_filenames_with_labels` lists the image files,
  labelled with their folder's number. `collate_fn` drops the samples that
  failed to load.

The modules follow the program's structure:

- `Segmenter` holds the window arithmetic of `process_file`.
- `MusicProcessor` covers `process_file`, `transform_music` and `create_csv`.
- `ImageDataset` covers `scrape_images`, `prune_data`,
  `get_image_filenames_with_labels` and `collate_fn`.
- Supporting modules model the Python built-ins the scripts rely on:
  - `Text` models `str.split`, `str.join`, `str.split()` without arguments,
    `str.replace` of one character, `str()` and `int()` on naturals.
  - `Ordering` models `sorted` on strings.
  - `Paths` models `os.path.join` and `os.path.splitext`.
  - `Seqs` holds sequence lemmas; `Wrappers` holds `Option` and `Result`.

Everything outside the scripts' own logic becomes a parameter:

- Audio decoding is a function `load` from a path to samples and a rate.
  It always succeeds, and so does every image save (see "## Left out").
- The random draw of `random.randint(0, 14)` is a parameter of type
  `TestDraw`.
- Directory listings are a map from a directory to its names, in
  `os.listdir` order.
- A data folder is a sequence of `Entry` values: a `Folder` with its file
  names, or a `Plain` file.
- The search engine is a function `search` from a search phrase to the
  result tags it returns. It stands for fetching the Bing results page whose
  query is `SearchTerm(phrase)` and picking out the `a.iusc` tags. Each
  tag is either `Unreadable` (it has no `m` attribute, or `m` is not JSON
  or lacks `murl` or `turl`) or `Found(urlPath, downloads)`, which records
  whether fetching the image succeeds.

Each loop of the source is a method whose loop invariants tie its variables
to a specification function. The lemmas state what the source promises
about those functions.

Facts about the code that the model makes explicit:

- A file gets zero, one or two test segments, not always one
  (`TestSegmentCount`).
- Files with 2 to 14 windows save window 0 at least twice
  (`ShortFilesRepeatFirstWindow`); with 2 to 4 windows every segment is
  window 0 (`AtMostFourWindowsAllFirst`).
- Output paths are `data/train//<stem>-<i>.jpeg` and
  `data/test//<stem>-<i>.jpeg`, with no label folder (`FileWritesSplits`).
  For two files with the same stem, in one label folder or in two,
  whenever both send their `k`-th segment to the same split, the later
  file overwrites that image (`SameStemCollides`).
- A caption keeps the image's extension: `0_0.jpeg` gives
  `0 0.jpeg spectrogram` (`CaptionOfTwoTokens`). The caption of an image
  `process_file` saved is computed from that name alone, which holds no
  label. For a stem without `_` it is
  the image's own name (`CaptionOfOutputName`). A stem with one `_` is
  split there (`CaptionOfOutputNameOneUnderscore`). A stem with two or more
  `_` loses its ordinal, so all segments of that file share one caption
  (`CaptionOfOutputNameManyUnderscores`).
- The first CSV column is the last component of the listed path, a `/`, and
  the image name (`CsvTableShape`).
- An empty signal gives no segments and no error (`FileWritesSegments`).

## Model

| member | source | states |
|---|---|---|
| Segmenter.WindowLength | music_processor.py:24-25 | a window holds `sr * 15` samples, at least 15 |
| Segmenter.NumberSections | music_processor.py:26 | defines `number_sections` as the exact ceiling of `len / L`; its bounds are stated by `CeilingBounds` |
| Segmenter.SegmentCount | music_processor.py:28 | defines the loop bound `min(number_sections, 15)` |
| Segmenter.WindowIndex | music_processor.py:29 | defines `int((number_sections / 15) * i)` as the floor of `n * i / 15`; stated by `WindowExists` and `WindowsNonDecreasing` |
| Segmenter.Slice | music_processor.py:29 | defines a Python slice with clamped bounds; stated by `SliceContents` |
| Segmenter.Segment | music_processor.py:29 | defines segment `i` as `y[w * L : (w + 1) * L]`; stated by `SegmentInBounds` |
| Segmenter.CeilingBounds | music_processor.py:26 | `number_sections` is 0 exactly for an empty signal; otherwise the last window starts inside the signal and the windows cover it: `(n-1)*L < len <= n*L` |
| Segmenter.SliceContents | music_processor.py:29 | a Python slice with non-negative bounds clamps to the length: its size and every element |
| Segmenter.WindowExists | music_processor.py:28-29 | every taken window index `floor(n*i/15)` is below `n` |
| Segmenter.SegmentInBounds | music_processor.py:26-29 | each taken segment starts inside the signal, holds `min(L, len - start)` samples, is never empty, and is the samples from its start |
| Segmenter.FirstSegmentAtStart | music_processor.py:29 | the first segment starts at sample 0 and is the first `min(L, len)` samples |
| Segmenter.WindowsNonDecreasing | music_processor.py:28-29 | window indices never decrease with the ordinal |
| Segmenter.WindowsIncreasingWhenLong | music_processor.py:28-29 | with at least 15 windows the indices strictly increase, so segments are disjoint and in order |
| Segmenter.ShortFilesRepeatFirstWindow | music_processor.py:28-29 | with 2 to 14 windows, segments 0 and 1 are the same window |
| Segmenter.AtMostFourWindowsAllFirst | music_processor.py:28-29 | with at most four windows every taken segment is window 0 |
| Segmenter.ShortSegmentIsFinalWindow | music_processor.py:26-29 | a segment shorter than a window is the last window, which happens only with 1 or 15 windows |
| Segmenter.SignalShorterThanWindow | music_processor.py:23-30 | a non-empty signal no longer than a window yields one segment holding all of it |
| Segmenter.SixtySecondsAt22050 | music_processor.py:23-30 | 60 s at 22050 Hz gives four segments, all the first 15 s |
| MusicProcessor.StemIsPlain | music_processor.py:43 | the file stem has no `/` and no `.` |
| MusicProcessor.StemOfJoin | music_processor.py:43 | the stem of `os.path.join(folder, name)` is `name` up to its first `.` |
| MusicProcessor.Stem | music_processor.py:43 | defines `file_path.split("/")[-1].split(".")[0]`; stated by `StemIsPlain` and `StemOfJoin` |
| MusicProcessor.IsTest | music_processor.py:44 | defines the test rule `index == test_idx or index == test_idx - 14`; stated by `TestSegments` |
| MusicProcessor.SplitOf | music_processor.py:44-47 | defines the split of ordinal `index`; stated by `FileWritesSplits` |
| MusicProcessor.OutputPath | music_processor.py:45-47 | defines the saved image's path; stated by `OutputPathInjective` and `SameStemCollides` |
| MusicProcessor.SegmentsOf | music_processor.py:28-30 | defines the list of segments; stated by `SegmentsOfIndex` |
| MusicProcessor.Placed | music_processor.py:32-49 | defines the saves of the second loop; stated by `PlacedIndex` |
| MusicProcessor.FileWrites | music_processor.py:17-49 | defines what `process_file` saves; stated by `FileWritesIndex`, `FileWritesSegments` and `FileWritesSplits` |
| MusicProcessor.CutSegments | music_processor.py:21-30 | the loop appends exactly `SegmentsOf(y, L, min(n, 15))` |
| MusicProcessor.SaveSegments | music_processor.py:32-49 | the loop over segments writes exactly `Placed(stem, segments, test_idx)` |
| MusicProcessor.ProcessFile | music_processor.py:17-49 | `process_file` writes exactly `FileWrites(path, load(path), test_idx)` |
| MusicProcessor.SegmentsOfIndex | music_processor.py:28-30 | the list of segments has the requested length and entry `k` is `Segment(y, L, k)` |
| MusicProcessor.PlacedIndex | music_processor.py:43-49 | one write per segment; write `k` goes to `OutputPath(split of k, stem, k)` and holds segment `k` |
| MusicProcessor.FileWritesIndex | music_processor.py:17-49 | a file gives `min(n, 15)` writes; write `k` holds segment `k` under its split's path |
| MusicProcessor.FileWritesSegments | music_processor.py:24-30 | the number of writes is `min(ceil(len/L), 15)`, zero iff the signal is empty, each segment non-empty and a contiguous run of the signal |
| MusicProcessor.TestSegments | music_processor.py:33-47 | the test ordinals are `test_idx` when it is below the count, plus 0 when `test_idx == 14` |
| MusicProcessor.TestSegmentCount | music_processor.py:33-47 | at most two test segments; two iff `test_idx == 14` and 15 segments; none iff no segments or `test_idx` at or past the count and not 14 |
| MusicProcessor.FileWritesSplits | music_processor.py:44-47 | write `k` goes to `data/test//<stem>-<k>.jpeg` when `k == test_idx` or `k == test_idx - 14`, else to `data/train//…` |
| MusicProcessor.OutputPathInjective | music_processor.py:45-47 | two output paths of one stem are equal only for the same split and ordinal |
| MusicProcessor.FileWritesDistinct | music_processor.py:43-49 | the paths written for one file are pairwise distinct |
| MusicProcessor.SameStemCollides | music_processor.py:43-47 | two files whose names have the same stem, in any folders, save their `k`-th images under the same path when both send `k` to the same split |
| MusicProcessor.FolderName | music_processor.py:71 | defines `label.replace(" ", "_")`; stated by `FolderNameSpaces` |
| MusicProcessor.FolderPaths | music_processor.py:74-75 | defines the joined paths of one folder; stated by `FolderPathsIndex` |
| MusicProcessor.PlanFrom | music_processor.py:70-76 | defines the calls made from label `i` on; stated by `PlanFromCompleteIff` and `PlanFromAppend` |
| MusicProcessor.Planned | music_processor.py:69-76 | defines the calls `transform_music` makes; stated by `PlannedCompleteIff`, `PlannedIgnoresListingOrder` and `PlannedFolderOrder` |
| MusicProcessor.FolderNameSpaces | music_processor.py:71 | the folder name is the label with every space replaced by `_`, and has no space |
| MusicProcessor.FolderPathsIndex | music_processor.py:74-75 | file `k` of a folder is processed as `os.path.join(folder, name_k)` |
| MusicProcessor.ProcessFolder | music_processor.py:73-75 | the inner loop calls `process_file` on each joined path in order, with consecutive draws |
| MusicProcessor.TransformMusic | music_processor.py:69-76 | the calls made are exactly `Planned(labels, listing)`, it completes as planned, and each call's writes are that file's `FileWrites` |
| MusicProcessor.PlannedCompleteIff | music_processor.py:70-75 | `transform_music` runs to the end iff every label's folder exists, when decoding and saving succeed |
| MusicProcessor.PlanFromAppend | music_processor.py:70-76 | labels are processed in order; a missing folder stops everything after it |
| MusicProcessor.PlannedIgnoresListingOrder | music_processor.py:73 | the calls do not depend on the order `os.listdir` returns names in |
| MusicProcessor.PlannedFolderOrder | music_processor.py:71-75 | one label's files are processed in sorted order, each exactly once |
| MusicProcessor.PlannedBlock | music_processor.py:70-75 | when label `j`'s folder and those before it exist, its sorted files are processed as one contiguous run right after the files of the labels before it |
| MusicProcessor.CreateCsv | music_processor.py:80-92 | the loop builds exactly `CsvTable(paths, listing)`, or `None` when a path cannot be listed |
| MusicProcessor.CsvRowsAppend | music_processor.py:84-87 | the rows for two lists of paths are the rows of the first followed by those of the second |
| MusicProcessor.CsvTableShape | music_processor.py:80-92 | the header comes first, every row has two fields, and one path's rows are its sorted images, each once |
| MusicProcessor.CsvTableBlock | music_processor.py:84-87 | in the table of several paths, path `j`'s rows are its sorted images, as one contiguous run right after the rows of the paths before it |
| MusicProcessor.CsvIgnoresListingOrder | music_processor.py:85 | on an unchanged tree the table does not depend on listing order |
| MusicProcessor.CaptionOfOneToken | music_processor.py:87 | a name without `_` is its own caption prefix |
| MusicProcessor.CaptionOfTwoTokens | music_processor.py:87 | `a_b` gives `a b spectrogram`, keeping any extension on `b` |
| MusicProcessor.CaptionOfMoreTokens | music_processor.py:87 | only the first two `_`-tokens enter the caption |
| MusicProcessor.CaptionOfOutputName | music_processor.py:87 | the caption of a saved `<stem>-<k>.jpeg`, for a stem without `_`, is that name followed by ` spectrogram`: it names no label |
| MusicProcessor.CaptionOfOutputNameOneUnderscore | music_processor.py:87 | for a saved name whose stem is `a_b`, the caption is `a b-<k>.jpeg spectrogram` |
| MusicProcessor.CaptionOfOutputNameManyUnderscores | music_processor.py:87 | for a saved name whose stem is `a_b_…`, the caption is `a b spectrogram`: the ordinal and extension are lost |
| MusicProcessor.Caption | music_processor.py:87 | defines `" ".join(image.split("_")[:2]) + " spectrogram"`; stated by the `CaptionOf…` lemmas |
| MusicProcessor.CsvRow | music_processor.py:87 | defines one caption row; stated by `CsvTableShape` |
| MusicProcessor.CsvRows | music_processor.py:84-87 | defines the caption rows; stated by `CsvRowsAppend` and `CsvTableShape` |
| MusicProcessor.CsvTable | music_processor.py:80-92 | defines the table written, `None` when a path cannot be listed; stated by `CsvTableShape` and `CsvIgnoresListingOrder` |
| Ordering.Sort | music_processor.py:73 | defines `sorted` as insertion sort; stated by `SortIsSortedPermutation` and `SortDependsOnlyOnContents` |
| Ordering.SortIsSortedPermutation | music_processor.py:85 | `sorted` returns an ordered permutation of its input |
| Ordering.SortedUnique | music_processor.py:85 | two ordered lists with the same elements are equal |
| Ordering.SortDependsOnlyOnContents | music_processor.py:73 | `sorted` depends only on the multiset of names |
| Ordering.LexLeTotal | music_processor.py:85 | Python string order is total |
| Ordering.LexLeTransitive | music_processor.py:85 | Python string order is transitive |
| Paths.BaseNameOfJoin | music_processor.py:43 | the last `/`-component of `os.path.join(a, b)` is `b` when `b` has no `/` |
| Paths.SplitExt | image_dataset.py:82 | `splitext(p)[1]` is empty or a dotted suffix of `p` with no further `.` or `/` |
| Paths.SplitExtOfSuffix | image_dataset.py:130 | a stem not starting with `.` followed by a dotted suffix after a directory part has that suffix as its extension |
| Paths.PathJoin | music_processor.py:75 | defines `os.path.join(a, b)`; stated by `BaseNameOfJoin` |
| Text.Split | music_processor.py:43 | `str.split(sep)` returns at least one piece |
| Text.Join | music_processor.py:87 | defines `sep.join(parts)`; stated by `JoinSplit` and `SplitJoin` |
| Text.LastComponent | music_processor.py:43 | defines `s.split(sep)[-1]`; stated by `LastComponentAfter` |
| Text.FirstComponent | music_processor.py:43 | defines `s.split(sep)[0]`; stated by `FirstComponentIsPrefix` |
| Text.SplitPieces | music_processor.py:43 | no piece contains the separator, and the first piece is the prefix up to the first separator |
| Text.SplitAround | music_processor.py:87 | splitting distributes over an occurrence of the separator |
| Text.JoinSplit | music_processor.py:87 | joining the pieces with the separator gives the string back |
| Text.SplitJoin | image_dataset.py:95-96 | splitting a join of separator-free pieces gives the pieces back |
| Text.LastComponentAfter | image_dataset.py:112 | `split("/")[-1]` of `x + "/" + y` is `y` when `y` has no `/` |
| Text.FirstComponentIsPrefix | music_processor.py:43 | `split(".")[0]` is the prefix up to the first `.` |
| Text.NatToStringDigits | music_processor.py:45 | `str(n)` is decimal digits, with a leading `0` only for 0 |
| Text.NatToString | music_processor.py:45 | `str(n)` is never empty; its digits are stated by `NatToStringDigits` |
| Text.ParseDecimal | image_dataset.py:71 | defines `int(name)` on ASCII numerals, `None` where it raises; stated by `ParseNatToString` |
| Text.ParseNatToString | image_dataset.py:71 | `int(str(n)) == n` |
| Text.NatToStringInjective | image_dataset.py:135 | `str` is injective on naturals |
| Text.WordsAreWords | image_dataset.py:95 | `str.split()` returns non-empty words without whitespace |
| Text.WordsOfJoined | image_dataset.py:95 | `" ".join(words).split()` gives the words back |
| Text.WordsAvoid | image_dataset.py:95 | no word contains a character absent from the phrase |
| Text.Words | image_dataset.py:95 | defines `s.split()`; stated by `WordsAreWords`, `WordsOfJoined` and `WordsAvoid` |
| Text.ReplaceChar | music_processor.py:71 | defines `s.replace(a, b)` for single characters; stated by `ReplaceCharAt` |
| Text.ReplaceCharAt | music_processor.py:71 | `replace` keeps the length and swaps exactly the matching characters |
| ImageDataset.SupportedShape | image_dataset.py:31 | each allowed extension is a dotted suffix with one `.` |
| ImageDataset.SearchTerm | image_dataset.py:95-96 | defines `'+'.join(label.split())`; stated by the `SearchTerm…` lemmas |
| ImageDataset.SearchTermHasNoWhitespace | image_dataset.py:95-96 | the search term contains no whitespace |
| ImageDataset.SearchTermSplits | image_dataset.py:95-96 | splitting the search term at `+` gives the phrase's words back |
| ImageDataset.SearchTermOfSpacedWords | image_dataset.py:95-99 | a phrase of space-separated words is searched as the words joined by `+` |
| ImageDataset.ImageName | image_dataset.py:112 | defines `urlsplit(murl).path.split("/")[-1]` on the URL path; stated by `Text.LastComponentAfter` |
| ImageDataset.SavedName | image_dataset.py:135 | defines `str(i) + '_' + str(category_count) + ext`; stated by `SavedNameExtension` and `SavedNameInjective` |
| ImageDataset.Step | image_dataset.py:104-144 | defines one pass over a result tag; stated by `StepWritesIff`, `StepMarksSeen` and `StepKeepsValid` |
| ImageDataset.Scan | image_dataset.py:91-144 | defines the passes over a run of tags; stated by `ScanAppend`, `ScanKeepsValid` and `ScanExtends` |
| ImageDataset.CategoryCandidates | image_dataset.py:91-104 | defines the tags of one category's searches, in label order |
| ImageDataset.CategoryOutcome | image_dataset.py:88-144 | defines the state after one category; stated by `CategoryFilesNumbered` and `CategoryFilesDistinct` |
| ImageDataset.Scraped | image_dataset.py:86-146 | defines the data folder after `scrape_images`; stated by `ScrapedFolders`, `IndexOfScraped` and `PruneAfterScrape` |
| ImageDataset.TakeTag | image_dataset.py:104-144 | one pass over a result tag updates the seen set, counter, files and folder flag as `Step` says |
| ImageDataset.ScrapeCategory | image_dataset.py:88-144 | the loops over one category's phrases and tags end in `CategoryOutcome`: folder made and files written |
| ImageDataset.ScrapeImages | image_dataset.py:86-146 | `scrape_images` produces exactly `Scraped(categories, search)` |
| ImageDataset.ScanAppend | image_dataset.py:91-144 | scanning the tags of consecutive phrases is scanning them one after another from the same state |
| ImageDataset.StepWritesIff | image_dataset.py:115-144 | a tag adds a file iff it parses, is unseen, downloads and has an allowed extension; then the file is `<i>_<count><ext>`; otherwise counter and files are unchanged |
| ImageDataset.StepMarksSeen | image_dataset.py:115-117 | a readable tag's image name is marked seen, before its download or extension are checked |
| ImageDataset.StepKeepsValid | image_dataset.py:104-144 | one tag keeps the category invariant: counter = number of files, files numbered 0..count-1, sources distinct and seen |
| ImageDataset.ScanKeepsValid | image_dataset.py:89-144 | the category invariant holds after any sequence of tags |
| ImageDataset.CategoryFilesNumbered | image_dataset.py:89-140 | a category's files are `<i>_0…<i>_{k-1}` with their sources' allowed extensions, from distinct image names, and the folder exists when any was saved |
| ImageDataset.ScanExtends | image_dataset.py:89-117 | the seen set only grows, and each newly saved source was unseen at the start |
| ImageDataset.FailedImageNeverRetried | image_dataset.py:115-144 | an image that failed to download or had the wrong extension is never saved later in the same category |
| ImageDataset.SavedNameExtension | image_dataset.py:130-135 | a saved name's `splitext` extension is the one it was saved with |
| ImageDataset.SavedNameInjective | image_dataset.py:135 | two saved names in one category are equal only for the same counter and extension |
| ImageDataset.CategoryFilesDistinct | image_dataset.py:88-140 | a category's saved files have allowed extensions and are pairwise distinct |
| ImageDataset.PruneFolder | image_dataset.py:81-84 | the inner loop leaves exactly `KeepSupported(files)` |
| ImageDataset.PruneData | image_dataset.py:77-84 | `prune_data` gives exactly `Pruned(tree)`: the pruned tree and whether it ran to the end |
| ImageDataset.KeepSupported | image_dataset.py:81-84 | defines the files one folder keeps; stated by the `KeepSupported…` lemmas |
| ImageDataset.PruneFrom | image_dataset.py:80-84 | defines the loop over the entries from `i` on, stopping at a plain file; stated by `PrunedShape` |
| ImageDataset.Pruned | image_dataset.py:77-84 | defines what `prune_data` leaves; stated by `PrunedShape` and `PruneIdempotent` |
| ImageDataset.KeepSupportedMembers | image_dataset.py:81-84 | a file survives iff it was there and its extension is allowed |
| ImageDataset.KeepSupportedAllSupported | image_dataset.py:81-84 | a folder of allowed files is left untouched |
| ImageDataset.KeepSupportedIdempotent | image_dataset.py:81-84 | pruning a folder twice is pruning it once |
| ImageDataset.PrunedShape | image_dataset.py:80-84 | the tree keeps its entries; the folders before the first plain file are pruned and the rest left as they are; the run completes iff there is no plain file |
| ImageDataset.PruneIdempotent | image_dataset.py:77-84 | on a tree of folders, `prune_data` twice is `prune_data` once |
| ImageDataset.Index | image_dataset.py:59-72 | a successful listing has as many labels as files |
| ImageDataset.IndexErrPersists | image_dataset.py:63-71 | once `int(name)` raises, the whole call raises with that name |
| ImageDataset.GetImageFilenamesWithLabels | image_dataset.py:59-72 | the loop returns exactly `Index(images_dir, tree)` |
| ImageDataset.IndexErrIff | image_dataset.py:63-71 | the listing fails iff some entry other than `.DS_Store` is not a numeral |
| ImageDataset.IndexLabels | image_dataset.py:63-72 | each listed file was globbed in a folder whose name parses to that file's label |
| ImageDataset.IndexPrefix | image_dataset.py:63-71 | the listing of a prefix of the entries is a prefix of the whole listing |
| ImageDataset.IndexBlock | image_dataset.py:63-71 | each non-`.DS_Store` entry contributes, right after the files of the entries before it, exactly the files its globs find, each labelled `int(name)` |
| ImageDataset.IndexComplete | image_dataset.py:63-71 | every file the globs find in a non-`.DS_Store` entry is listed, labelled `int(name)` |
| ImageDataset.Glob | image_dataset.py:68-69 | defines `glob(dir + '/*' + ext)` on a listing; stated by `GlobExtensions` |
| ImageDataset.GlobTypes | image_dataset.py:68-69 | defines the chained globs for the allowed types; stated by `GlobTypesExtensions` |
| ImageDataset.ClassFiles | image_dataset.py:67-69 | defines `image_class_files` of one entry; stated by `IndexBlock` |
| ImageDataset.AddEntry | image_dataset.py:64-71 | defines one pass of the loop over the listing; stated by `IndexBlock` and `IndexErrIff` |
| ImageDataset.GlobbedExtension | image_dataset.py:67-69 | a globbed `*<ext>` name joined to its folder has extension `ext` |
| ImageDataset.GlobExtensions | image_dataset.py:68-69 | every path `glob` returns for `*<ext>` has extension `ext` |
| ImageDataset.GlobTypesExtensions | image_dataset.py:68-69 | every path found for the allowed types has an allowed extension |
| ImageDataset.IndexExtensions | image_dataset.py:59-72 | every listed image has an allowed extension |
| ImageDataset.IndexIgnoresDsStore | image_dataset.py:64-66 | a `.DS_Store` entry anywhere changes nothing |
| ImageDataset.IndexOfScraped | image_dataset.py:36-42 | listing a freshly scraped folder, in any listing order, succeeds and every label is a category number (the order of files inside a folder does not enter either fact) |
| ImageDataset.ScrapedFolders | image_dataset.py:86-146 | a freshly scraped data folder holds only folders of allowed files |
| ImageDataset.PruneAfterScrape | image_dataset.py:36-40 | `prune_data` right after `scrape_images`, in any listing order, removes nothing and completes (the order of files inside a folder does not enter either fact) |
| ImageDataset.Present | image_dataset.py:150 | defines `filter(lambda x: x is not None, batch)`; stated by the `Present…` lemmas |
| ImageDataset.Collate | image_dataset.py:148-156 | defines the two lists `collate_fn` stacks; stated by `CollateAligned` |
| ImageDataset.PresentMembers | image_dataset.py:150 | a sample is kept iff it loaded |
| ImageDataset.PresentLength | image_dataset.py:150 | exactly the `None` samples are removed |
| ImageDataset.PresentAppend | image_dataset.py:150 | the kept samples stay in batch order |
| ImageDataset.CollateAligned | image_dataset.py:148-156 | images and labels have one entry per loaded sample, and position by position each pair is a loaded sample |

## Left out

- The progress `print`s of `transform_music`, `prune_data` and `scrape_images` (and the download-failure message): console output is not modelled.
- Audio decoding, the mel spectrogram, PIL quantisation and image saving: they are floating-point numerics in foreign libraries. Segments and images are opaque values, and a write records a path and a segment.
- `visualize_spectrogram`, `convert_to_audio` and the commented-out blocks: plotting and audio output.
- Segmenter.NumberSections: `np.ceil(len(y)/segment_length)` and `int((n/15)*i)` are read as exact integer ceiling and floor, ignoring floating-point rounding.
- MusicProcessor.PlannedCompleteIff: `librosa.load`, `melspectrogram` and `spec.save` are assumed to succeed. In the source, a non-audio file or a subfolder inside a label folder makes `librosa.load` raise, and a missing `data/train/` or `data/test/` makes `spec.save` raise; either ends `transform_music`, which the model does not record.
- MusicProcessor.ProcessFile: `load` is total and every save succeeds, so the model has no error path for a file that cannot be decoded or an image that cannot be saved.
- MusicProcessor.ProcessFile: the `label` parameter of `process_file` is unused by the source and absent from the model.
- MusicProcessor.TransformMusic: the random draws are a function of the file's ordinal across the run (`draw`), not a generator state.
- MusicProcessor.CreateCsv: the table is returned as rows; CSV quoting, line endings and the file write are not modelled.
- ImageDataset.CategoryCandidates: `search` is keyed by the search phrase, not by the query string `SearchTerm(phrase)` that the source sends, so the model does not state that two phrases with the same query get the same results.
- ImageDataset.ScrapeImages: the search request itself never fails in the model; a network error on the search page, which would end `scrape_images`, is not modelled.
- ImageDataset.ScrapeImages: `downloads` stands for fetching and writing the image both succeeding; a write that fails after the file was opened leaves a partial file that the model does not record.
- ImageDataset.ScrapeImages: the model starts from an empty data folder, as its only caller does.
- ImageDataset.ImageName: `urlsplit(murl).path` is taken as given in the tag; URL parsing is not modelled.
- ImageDataset.IndexErrIff: `int(name)` is modelled as ASCII decimal digits. Python also accepts surrounding whitespace, a sign, underscores between digits and non-ASCII digits, which the model treats as errors.
- ImageDataset.GetImageFilenamesWithLabels: `glob` results keep the folder's listing order (Python's `glob` order is the file system's), and subdirectories inside a class folder are not modelled.
- ImageDataset.PruneData: the surviving file list of each folder is rebuilt rather than deleted from in place; a deletion that fails is not modelled.
- ImageDataset.Collate: `torch.stack` and `LongTensor` are foreign; the model returns the two lists they are built from. When every sample of a batch is `None`, `torch.stack([])` raises, while the model returns two empty lists.
- `ImageDataSet.__init__`, `__len__`, `__getitem__` and `print_label_dist`: object construction, `Image.open` and numpy are foreign calls. The composition scrape, then prune, then index is stated by `PruneAfterScrape` and `IndexOfScraped`.
- `youtube_scraper.py` is not part of this model: it is network and cloud I/O.
