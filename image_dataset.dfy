/** image_dataset.py: the data set of images the captioning model trains
    on. Folder `data_dir/<i>` holds the images of label category `i`, named
    `<i>_<count><ext>`. `scrape_images` fills the folders from image-search
    results, `prune_data` deletes the files whose type is not allowed,
    `get_image_filenames_with_labels` lists the images with their category
    numbers, and `collate_fn` drops the samples that could not be loaded.
    The file system is a value: the entries of the data folder in listing
    order, each a folder with the names it lists or a plain file. */
module ImageDataset {
  import opened Wrappers
  import opened Seqs
  import opened Text
  import opened Paths

  /** `supported_file_types`. */
  const SupportedFileTypes: seq<string> := [".png", ".jpg", ".jpeg"]

  /** `ext in self.supported_file_types`. */
  predicate Supported(ext: string)
  {
    ext in SupportedFileTypes
  }

  lemma SupportedShape(ext: string)
    requires Supported(ext)
    ensures ext != [] && ext[0] == '.' && '.' !in ext[1..] && '/' !in ext
  {
  }

  // ---------------------------------------------------------------------
  // The search query
  // ---------------------------------------------------------------------

  /** `'+'.join(label.split())`. */
  function SearchTerm(phrase: string): string
  {
    Join("+", Words(phrase))
  }

  /** The query term holds no whitespace at all. */
  lemma SearchTermHasNoWhitespace(phrase: string)
    ensures NoSpace(SearchTerm(phrase))
  {
    WordsAreWords(phrase);
    PlusIsNotSpace();
    hide IsSpace, Words;
    var words := Words(phrase);
    forall k | 0 <= k < |words| ensures NoSpace(words[k]) {
      assert IsWord(words[k]);
    }
    JoinNoSpace("+", words);
  }

  lemma PlusIsNotSpace()
    ensures NoSpace("+")
  {
    assert "+"[0] == '+';
  }

  /** Splitting the query term at `+` gives back the label's words, for a
      label with at least one word and no `+` of its own. */
  lemma SearchTermSplits(phrase: string)
    requires '+' !in phrase && Words(phrase) != []
    ensures Split(SearchTerm(phrase), '+') == Words(phrase)
  {
    WordsAvoid(phrase, '+');
    assert "+" == ['+'];
    SplitJoin(Words(phrase), '+');
  }

  /** A label whose words are separated by single spaces has each space
      turned into `+`. */
  lemma SearchTermOfSpacedWords(words: seq<string>)
    requires forall k :: 0 <= k < |words| ==> IsWord(words[k])
    ensures SearchTerm(Join(" ", words)) == Join("+", words)
  {
    WordsOfJoined(words);
  }

  // ---------------------------------------------------------------------
  // scrape_images
  // ---------------------------------------------------------------------

  /** One `a.iusc` tag of a results page: `Unreadable` when its `m`
      attribute is not JSON or lacks `murl` or `turl`; otherwise the path
      of its `murl` and whether downloading its `turl` succeeds. */
  datatype Candidate = Unreadable | Found(urlPath: string, downloads: bool)

  /** `urlsplit(murl).path.split("/")[-1]`. */
  function ImageName(urlPath: string): string
  {
    LastComponent(urlPath, '/')
  }

  /** `str(i) + '_' + str(category_count) + ext`, the name given inside
      `data_dir + str(i)`. */
  function SavedName(i: nat, count: nat, ext: string): string
  {
    NatToString(i) + "_" + NatToString(count) + ext
  }

  /** The variables of `scrape_images` while it works on category `i`:
      `seen_images`, `category_count`, the names written into the category's
      folder and the image name each was downloaded as, and whether the
      folder exists. */
  datatype CategoryState = CategoryState(seen: set<string>, count: nat, files: seq<string>,
                                         sources: seq<string>, dirMade: bool)

  const Fresh: CategoryState := CategoryState({}, 0, [], [], false)

  /** One result tag. An unread tag or an image name seen before is skipped;
      otherwise the name is marked seen and the folder made before the
      download and the extension are checked, and only a downloaded image
      of an allowed type is written and counted. */
  function Step(i: nat, st: CategoryState, c: Candidate): CategoryState
  {
    match c
    case Unreadable => st
    case Found(urlPath, downloads) =>
      var name := ImageName(urlPath);
      if name in st.seen then st
      else
        var marked := st.(seen := st.seen + {name}, dirMade := true);
        var ext := SplitExt(name);
        if !downloads || !Supported(ext) then marked
        else marked.(count := st.count + 1, files := st.files + [SavedName(i, st.count, ext)],
                     sources := st.sources + [name])
  }

  /** The state after the result tags `cs`, in order. */
  function Scan(i: nat, st: CategoryState, cs: seq<Candidate>): CategoryState
  {
    if cs == [] then st else Step(i, Scan(i, st, cs[..|cs| - 1]), cs[|cs| - 1])
  }

  lemma ScanSnoc(i: nat, st: CategoryState, cs: seq<Candidate>, c: Candidate)
    ensures Scan(i, st, cs + [c]) == Step(i, Scan(i, st, cs), c)
  {
    assert (cs + [c])[..|cs|] == cs;
  }

  lemma ScanEmpty(i: nat, st: CategoryState)
    ensures Scan(i, st, []) == st
  {
  }

  /** Scanning two runs of tags one after the other. */
  lemma {:induction false} ScanAppend(i: nat, st: CategoryState, a: seq<Candidate>, b: seq<Candidate>)
    ensures Scan(i, st, a + b) == Scan(i, Scan(i, st, a), b)
  {
    if b == [] {
      assert a + b == a;
    } else {
      var n := |b| - 1;
      ScanAppend(i, st, a, b[..n]);
      assert (a + b)[..|a + b| - 1] == a + b[..n];
    }
  }

  /** The result tags of the searches for all labels of a category, in
      order. `search(phrase)` stands for fetching the Bing results page
      whose query `q` is `SearchTerm(phrase)` and picking out its `a.iusc`
      tags. */
  function CategoryCandidates(category: seq<string>, search: string -> seq<Candidate>): seq<Candidate>
  {
    if category == [] then []
    else
      var n := |category| - 1;
      CategoryCandidates(category[..n], search) + search(category[n])
  }

  function CategoryOutcome(i: nat, category: seq<string>, search: string -> seq<Candidate>): CategoryState
  {
    Scan(i, Fresh, CategoryCandidates(category, search))
  }

  /** An entry of a listed folder. */
  datatype Entry = Folder(name: string, files: seq<string>) | Plain(name: string)

  /** The data folder after `scrape_images` on a fresh one: a folder named
      `str(i)` for each category one of whose result tags got past the
      seen-image test, holding the files written for it. */
  function Scraped(categories: seq<seq<string>>, search: string -> seq<Candidate>): seq<Entry>
  {
    if categories == [] then []
    else
      var n := |categories| - 1;
      var st := CategoryOutcome(n, categories[n], search);
      Scraped(categories[..n], search) + (if st.dirMade then [Folder(NatToString(n), st.files)] else [])
  }

  /** One pass of the innermost loop of `scrape_images`, on the result tag
      `c`: the variables after it are those `Step` gives. */
  method TakeTag(i: nat, c: Candidate, seenImages: set<string>, categoryCount: nat, files: seq<string>,
                 ghost sources: seq<string>, labelDirExists: bool)
    returns (seenImages': set<string>, categoryCount': nat, files': seq<string>,
             ghost sources': seq<string>, labelDirExists': bool)
    ensures var next := Step(i, CategoryState(seenImages, categoryCount, files, sources, labelDirExists), c);
            seenImages' == next.seen && categoryCount' == next.count && files' == next.files &&
            labelDirExists' == next.dirMade
    ensures sources' == Step(i, CategoryState(seenImages, categoryCount, files, sources, labelDirExists), c).sources
  {
    seenImages', categoryCount', files', sources', labelDirExists' :=
      seenImages, categoryCount, files, sources, labelDirExists;
    match c {
      case Unreadable =>
      case Found(urlPath, downloads) =>
        var imageName := ImageName(urlPath);
        if imageName !in seenImages {
          seenImages' := seenImages + {imageName};
          if !labelDirExists {
            labelDirExists' := true;
          }
          if downloads {
            var ext := SplitExt(imageName);
            if Supported(ext) {
              files' := files + [SavedName(i, categoryCount, ext)];
              sources' := sources + [imageName];
              categoryCount' := categoryCount + 1;
            }
          }
        }
    }
  }

  /** The loops of `scrape_images` over the labels of category `i` and over
      the result tags of each label's search. */
  method ScrapeCategory(i: nat, category: seq<string>, search: string -> seq<Candidate>)
    returns (labelDirExists: bool, files: seq<string>)
    ensures labelDirExists == CategoryOutcome(i, category, search).dirMade
    ensures files == CategoryOutcome(i, category, search).files
  {
    var seenImages: set<string> := {};
    var categoryCount: nat := 0;
    ghost var sources: seq<string> := [];
    labelDirExists, files := false, [];
    var l := 0;
    assert Scan(i, Fresh, CategoryCandidates(category[..0], search)) == Fresh;
    hide Step, Scan, CategoryCandidates;
    while l < |category|
      invariant 0 <= l <= |category|
      invariant CategoryState(seenImages, categoryCount, files, sources, labelDirExists)
                == Scan(i, Fresh, CategoryCandidates(category[..l], search))
    {
      var candidates := search(category[l]);
      ghost var start := CategoryState(seenImages, categoryCount, files, sources, labelDirExists);
      var j := 0;
      assert candidates[..0] == [];
      ScanEmpty(i, start);
      while j < |candidates|
        invariant 0 <= j <= |candidates|
        invariant CategoryState(seenImages, categoryCount, files, sources, labelDirExists)
                  == Scan(i, start, candidates[..j])
      {
        assert candidates[..j + 1] == candidates[..j] + [candidates[j]];
        ScanSnoc(i, start, candidates[..j], candidates[j]);
        seenImages, categoryCount, files, sources, labelDirExists :=
          TakeTag(i, candidates[j], seenImages, categoryCount, files, sources, labelDirExists);
        j := j + 1;
      }
      assert candidates[..j] == candidates;
      CategoryCandidatesSnoc(category, l, search);
      ScanAppend(i, Fresh, CategoryCandidates(category[..l], search), candidates);
      l := l + 1;
    }
    assert category[..l] == category;
  }

  lemma CategoryCandidatesSnoc(category: seq<string>, l: nat, search: string -> seq<Candidate>)
    requires l < |category|
    ensures CategoryCandidates(category[..l + 1], search)
            == CategoryCandidates(category[..l], search) + search(category[l])
  {
    assert category[..l + 1][..l] == category[..l];
  }

  /** `scrape_images` on a fresh data folder. */
  method ScrapeImages(categories: seq<seq<string>>, search: string -> seq<Candidate>)
    returns (tree: seq<Entry>)
    ensures tree == Scraped(categories, search)
  {
    hide CategoryOutcome;
    tree := [];
    var i := 0;
    while i < |categories|
      invariant 0 <= i <= |categories|
      invariant tree == Scraped(categories[..i], search)
    {
      var labelDirExists, files := ScrapeCategory(i, categories[i], search);
      if labelDirExists {
        tree := tree + [Folder(NatToString(i), files)];
      }
      assert categories[..i + 1][..i] == categories[..i];
      i := i + 1;
    }
    assert categories[..i] == categories;
  }

  /** A tag writes a file exactly when it is readable, its image name has
      not been seen in this category, the download succeeds and the
      extension is allowed; the file is then numbered with the count so
      far. Every other tag leaves the files and the count alone. */
  lemma StepWritesIff(i: nat, st: CategoryState, c: Candidate)
    ensures Step(i, st, c).count == st.count + 1 <==>
              c.Found? && ImageName(c.urlPath) !in st.seen && c.downloads && Supported(SplitExt(ImageName(c.urlPath)))
    ensures Step(i, st, c).count == st.count + 1 ==>
              Step(i, st, c).files == st.files + [SavedName(i, st.count, SplitExt(ImageName(c.urlPath)))]
    ensures Step(i, st, c).count != st.count + 1 ==>
              Step(i, st, c).count == st.count && Step(i, st, c).files == st.files && Step(i, st, c).sources == st.sources
  {
  }

  /** A readable tag's image name is in `seen_images` afterwards, whatever
      becomes of its download. */
  lemma StepMarksSeen(i: nat, st: CategoryState, c: Candidate)
    ensures st.seen <= Step(i, st, c).seen
    ensures c.Found? ==> ImageName(c.urlPath) in Step(i, st, c).seen
  {
  }

  /** What holds of a category's state after any run of tags: one file per
      count, each named `<i>_<k><ext>` after its position `k` and after the
      allowed extension of the image it came from; every source was seen;
      no image is written twice; and the folder exists once it has
      files. */
  predicate Valid(i: nat, st: CategoryState)
  {
    && |st.files| == st.count && |st.sources| == st.count
    && (st.count > 0 ==> st.dirMade)
    && (forall k :: 0 <= k < st.count ==> st.sources[k] in st.seen)
    && (forall k :: 0 <= k < st.count ==>
          Supported(SplitExt(st.sources[k])) && st.files[k] == SavedName(i, k, SplitExt(st.sources[k])))
    && (forall a, b :: 0 <= a < b < st.count ==> st.sources[a] != st.sources[b])
  }

  lemma StepKeepsValid(i: nat, st: CategoryState, c: Candidate)
    requires Valid(i, st)
    ensures Valid(i, Step(i, st, c))
  {
    hide Valid, ImageName, SplitExt, SavedName, Supported;
    match c
    case Unreadable =>
    case Found(urlPath, downloads) =>
      var name := ImageName(urlPath);
      if name !in st.seen {
        if downloads && Supported(SplitExt(name)) {
          ValidWrite(i, st, name);
        } else {
          ValidMarkSeen(i, st, name);
        }
      }
  }

  lemma ValidMarkSeen(i: nat, st: CategoryState, name: string)
    requires Valid(i, st)
    ensures Valid(i, st.(seen := st.seen + {name}, dirMade := true))
  {
  }

  lemma ValidWrite(i: nat, st: CategoryState, name: string)
    requires Valid(i, st) && name !in st.seen && Supported(SplitExt(name))
    ensures Valid(i, CategoryState(st.seen + {name}, st.count + 1, st.files + [SavedName(i, st.count, SplitExt(name))],
                                   st.sources + [name], true))
  {
    hide SplitExt, SavedName, Supported;
    var st' := CategoryState(st.seen + {name}, st.count + 1, st.files + [SavedName(i, st.count, SplitExt(name))],
                             st.sources + [name], true);
    forall k | 0 <= k < st'.count
      ensures st'.sources[k] in st'.seen
      ensures Supported(SplitExt(st'.sources[k])) && st'.files[k] == SavedName(i, k, SplitExt(st'.sources[k]))
    {
      if k < st.count {
        assert st'.sources[k] == st.sources[k] && st'.files[k] == st.files[k];
      }
    }
    forall a, b | 0 <= a < b < st'.count ensures st'.sources[a] != st'.sources[b] {
      if b == st.count {
        assert st'.sources[a] == st.sources[a] && st.sources[a] in st.seen;
      } else {
        assert st'.sources[a] == st.sources[a] && st'.sources[b] == st.sources[b];
      }
    }
  }

  lemma {:induction false} ScanKeepsValid(i: nat, st: CategoryState, cs: seq<Candidate>)
    requires Valid(i, st)
    ensures Valid(i, Scan(i, st, cs))
  {
    if cs != [] {
      ScanKeepsValid(i, st, cs[..|cs| - 1]);
      StepKeepsValid(i, Scan(i, st, cs[..|cs| - 1]), cs[|cs| - 1]);
    }
  }

  /** The files `scrape_images` writes for category `i` are `<i>_0<ext>`,
      `<i>_1<ext>`, ... without gaps, one per distinct image, each with the
      allowed extension of the image it was downloaded as; and the folder
      exists whenever a file was written. */
  lemma CategoryFilesNumbered(i: nat, category: seq<string>, search: string -> seq<Candidate>)
    ensures var st := CategoryOutcome(i, category, search);
            |st.files| == st.count && |st.sources| == st.count && (st.count > 0 ==> st.dirMade)
    ensures var st := CategoryOutcome(i, category, search);
            forall k :: 0 <= k < st.count ==>
              Supported(SplitExt(st.sources[k])) && st.files[k] == SavedName(i, k, SplitExt(st.sources[k]))
    ensures var st := CategoryOutcome(i, category, search);
            forall a, b :: 0 <= a < b < st.count ==> st.sources[a] != st.sources[b]
  {
    ScanKeepsValid(i, Fresh, CategoryCandidates(category, search));
  }

  /** The state after more tags extends the state before: seen names are
      kept, files and sources only grow, and every image written later was
      not yet seen. */
  lemma {:induction false} ScanExtends(i: nat, st: CategoryState, cs: seq<Candidate>)
    requires |st.sources| == st.count
    ensures var r := Scan(i, st, cs);
            st.seen <= r.seen && |st.sources| <= |r.sources| && r.sources[..|st.sources|] == st.sources
    ensures var r := Scan(i, st, cs);
            forall k :: |st.sources| <= k < |r.sources| ==> r.sources[k] !in st.seen
    ensures |Scan(i, st, cs).sources| == Scan(i, st, cs).count
  {
    if cs != [] {
      var prev := Scan(i, st, cs[..|cs| - 1]);
      ScanExtends(i, st, cs[..|cs| - 1]);
      StepWritesIff(i, prev, cs[|cs| - 1]);
      StepMarksSeen(i, prev, cs[|cs| - 1]);
      var r := Scan(i, st, cs);
      if r.count == prev.count + 1 {
        assert r.sources == prev.sources + [ImageName(cs[|cs| - 1].urlPath)];
        assert ImageName(cs[|cs| - 1].urlPath) !in prev.seen;
        assert r.sources[..|st.sources|] == prev.sources[..|st.sources|];
      }
    }
  }

  /** An image whose first tag is not written, because its download fails
      or its type is not allowed, is never written by a later tag of the
      category either: its name was marked seen before the checks. */
  lemma FailedImageNeverRetried(i: nat, st: CategoryState, urlPath: string, downloads: bool, cs: seq<Candidate>)
    requires |st.sources| == st.count
    requires ImageName(urlPath) !in st.seen
    requires !(downloads && Supported(SplitExt(ImageName(urlPath))))
    ensures var r := Scan(i, Step(i, st, Found(urlPath, downloads)), cs);
            forall k :: |st.sources| <= k < |r.sources| ==> r.sources[k] != ImageName(urlPath)
  {
    var st1 := Step(i, st, Found(urlPath, downloads));
    StepWritesIff(i, st, Found(urlPath, downloads));
    StepMarksSeen(i, st, Found(urlPath, downloads));
    ScanExtends(i, st1, cs);
  }

  lemma NumeralHasNoSlash(n: nat)
    ensures '/' !in NatToString(n) && '_' !in NatToString(n) && '.' !in NatToString(n)
  {
    NatToStringDigits(n);
  }

  /** A written file's own extension is the extension it was given. */
  lemma SavedNameExtension(i: nat, k: nat, ext: string)
    requires Supported(ext)
    ensures SplitExt(SavedName(i, k, ext)) == ext
  {
    SupportedShape(ext);
    NumeralHasNoSlash(i);
    NumeralHasNoSlash(k);
    var stem := NatToString(i) + "_" + NatToString(k);
    assert '/' !in stem;
    assert stem[0] == NatToString(i)[0] != '.';
    assert [] + stem + ext == SavedName(i, k, ext);
    SplitExtOfSuffix([], stem, ext);
  }

  lemma NumeralBeforeDot(n: nat, ext: string)
    requires ext != [] && ext[0] == '.'
    ensures FirstComponent(NatToString(n) + ext, '.') == NatToString(n)
  {
    NumeralHasNoSlash(n);
    var d := NatToString(n);
    assert d + ext == d + ['.'] + ext[1..];
    SplitAround(d, ext[1..], '.');
    SplitWithoutSeparator(d, '.');
  }

  /** Different counts give different names within a category. */
  lemma SavedNameInjective(i: nat, a: nat, b: nat, e1: string, e2: string)
    requires Supported(e1) && Supported(e2)
    requires SavedName(i, a, e1) == SavedName(i, b, e2)
    ensures a == b && e1 == e2
  {
    hide NatToString, Supported, SplitExt;
    SupportedShape(e1);
    SupportedShape(e2);
    var p := NatToString(i) + "_";
    assert SavedName(i, a, e1) == p + (NatToString(a) + e1);
    assert SavedName(i, b, e2) == p + (NatToString(b) + e2);
    hide SavedName;
    CancelPrefix(p, NatToString(a) + e1, NatToString(b) + e2);
    NumeralsThenDots(a, b, e1, e2);
  }

  lemma NumeralsThenDots(a: nat, b: nat, e1: string, e2: string)
    requires e1 != [] && e1[0] == '.' && e2 != [] && e2[0] == '.'
    requires NatToString(a) + e1 == NatToString(b) + e2
    ensures a == b && e1 == e2
  {
    NumeralBeforeDot(a, e1);
    NumeralBeforeDot(b, e2);
    hide NatToString, FirstComponent;
    NatToStringInjective(a, b);
    CancelPrefix(NatToString(a), e1, e2);
  }

  /** The files written for a category have pairwise different names, each
      with an allowed extension. */
  lemma CategoryFilesDistinct(i: nat, category: seq<string>, search: string -> seq<Candidate>)
    ensures var files := CategoryOutcome(i, category, search).files;
            forall k :: 0 <= k < |files| ==> Supported(SplitExt(files[k]))
    ensures var files := CategoryOutcome(i, category, search).files;
            forall a, b :: 0 <= a < b < |files| ==> files[a] != files[b]
  {
    CategoryFilesNumbered(i, category, search);
    var st := CategoryOutcome(i, category, search);
    hide CategoryOutcome;
    forall k | 0 <= k < |st.files| ensures Supported(SplitExt(st.files[k])) {
      SavedNameExtension(i, k, SplitExt(st.sources[k]));
    }
    forall a, b | 0 <= a < b < |st.files| ensures st.files[a] != st.files[b] {
      if st.files[a] == st.files[b] {
        SavedNameInjective(i, a, b, SplitExt(st.sources[a]), SplitExt(st.sources[b]));
      }
    }
  }

  // ---------------------------------------------------------------------
  // prune_data
  // ---------------------------------------------------------------------

  /** The names of a folder that survive: those whose `splitext` extension
      is allowed, in listing order. */
  function KeepSupported(files: seq<string>): seq<string>
  {
    if files == [] then []
    else
      var n := |files| - 1;
      KeepSupported(files[..n]) + (if Supported(SplitExt(files[n])) then [files[n]] else [])
  }

  function PruneEntry(e: Entry): Entry
  {
    match e
    case Folder(name, files) => Folder(name, KeepSupported(files))
    case Plain(_) => e
  }

  /** The data folder after `prune_data`, and whether it ran to the end.
      Listing a plain file as a folder raises `NotADirectoryError`, which
      stops the run with the later entries untouched. */
  datatype Pruning = Pruning(tree: seq<Entry>, complete: bool)

  function PruneFrom(tree: seq<Entry>, i: nat): Pruning
    requires i <= |tree|
    decreases |tree| - i
  {
    if i == |tree| then Pruning([], true)
    else match tree[i]
      case Plain(_) => Pruning(tree[i..], false)
      case Folder(name, files) =>
        var rest := PruneFrom(tree, i + 1);
        Pruning([Folder(name, KeepSupported(files))] + rest.tree, rest.complete)
  }

  function Pruned(tree: seq<Entry>): Pruning
  {
    PruneFrom(tree, 0)
  }

  /** The inner loop of `prune_data`: the folder keeps the names that are
      not removed. */
  method PruneFolder(files: seq<string>) returns (kept: seq<string>)
    ensures kept == KeepSupported(files)
  {
    kept := [];
    var j := 0;
    while j < |files|
      invariant 0 <= j <= |files|
      invariant kept == KeepSupported(files[..j])
    {
      assert files[..j + 1][..j] == files[..j];
      var ext := SplitExt(files[j]);
      if Supported(ext) {
        kept := kept + [files[j]];
      }
      j := j + 1;
    }
    assert files[..j] == files;
  }

  /** `prune_data`. */
  method PruneData(tree: seq<Entry>) returns (pruned: seq<Entry>, complete: bool)
    ensures Pruning(pruned, complete) == Pruned(tree)
  {
    hide KeepSupported;
    pruned := [];
    var i := 0;
    while i < |tree|
      invariant 0 <= i <= |tree|
      invariant Pruned(tree) == Pruning(pruned + PruneFrom(tree, i).tree, PruneFrom(tree, i).complete)
    {
      match tree[i] {
        case Plain(_) =>
          pruned := pruned + tree[i..];
          complete := false;
          return;
        case Folder(name, files) =>
          var kept := PruneFolder(files);
          ConcatAssociative(pruned, [Folder(name, kept)], PruneFrom(tree, i + 1).tree);
          pruned := pruned + [Folder(name, kept)];
      }
      i := i + 1;
    }
    pruned := pruned + [];
    complete := true;
  }

  /** A name survives exactly when it was listed and its extension is
      allowed. */
  lemma {:induction false} KeepSupportedMembers(files: seq<string>)
    ensures forall f :: f in KeepSupported(files) <==> f in files && Supported(SplitExt(f))
  {
    if files != [] {
      var n := |files| - 1;
      KeepSupportedMembers(files[..n]);
      assert files == files[..n] + [files[n]];
    }
  }

  /** A folder whose names all have allowed extensions is left as it is. */
  lemma {:induction false} KeepSupportedAllSupported(files: seq<string>)
    requires forall k :: 0 <= k < |files| ==> Supported(SplitExt(files[k]))
    ensures KeepSupported(files) == files
  {
    hide SplitExt, Supported;
    if files != [] {
      var n := |files| - 1;
      KeepSupportedAllSupported(files[..n]);
      assert files == files[..n] + [files[n]];
    }
  }

  /** Pruning a folder a second time removes nothing more. */
  lemma KeepSupportedIdempotent(files: seq<string>)
    ensures KeepSupported(KeepSupported(files)) == KeepSupported(files)
  {
    var kept := KeepSupported(files);
    KeepSupportedMembers(files);
    assert forall k :: 0 <= k < |kept| ==> kept[k] in kept;
    KeepSupportedAllSupported(kept);
  }

  /** Pruning from entry `i` when entry `p` is the first plain file from `i`
      on (or `p` is the end): the folders before it are pruned, it and
      everything after it are left as they are, and the run completes
      exactly when there is no plain file. */
  lemma {:induction false} PruneFromStops(tree: seq<Entry>, i: nat, p: nat)
    requires i <= p <= |tree|
    requires forall k :: i <= k < p ==> tree[k].Folder?
    requires p < |tree| ==> tree[p].Plain?
    ensures |PruneFrom(tree, i).tree| == |tree| - i
    ensures forall k :: i <= k < |tree| ==>
              PruneFrom(tree, i).tree[k - i] == if k < p then PruneEntry(tree[k]) else tree[k]
    ensures PruneFrom(tree, i).complete <==> p == |tree|
    decreases |tree| - i
  {
    hide KeepSupported;
    if i < |tree| && i < p {
      PruneFromStops(tree, i + 1, p);
      var rest := PruneFrom(tree, i + 1);
      var r := PruneFrom(tree, i);
      assert r.tree == [PruneEntry(tree[i])] + rest.tree;
      forall k | i < k < |tree| ensures r.tree[k - i] == if k < p then PruneEntry(tree[k]) else tree[k] {
        assert r.tree[k - i] == rest.tree[k - (i + 1)];
      }
    }
  }

  function FirstPlain(tree: seq<Entry>, i: nat): (p: nat)
    requires i <= |tree|
    ensures i <= p <= |tree|
    ensures forall k :: i <= k < p ==> tree[k].Folder?
    ensures p < |tree| ==> tree[p].Plain?
    decreases |tree| - i
  {
    if i == |tree| || tree[i].Plain? then i else FirstPlain(tree, i + 1)
  }

  /** `prune_data` deletes exactly the files with other extensions from
      every folder before the first plain file, in place; it completes
      exactly when the data folder holds only folders. */
  lemma PrunedShape(tree: seq<Entry>)
    ensures |Pruned(tree).tree| == |tree|
    ensures Pruned(tree).complete <==> forall k :: 0 <= k < |tree| ==> tree[k].Folder?
    ensures forall k :: 0 <= k < |tree| ==>
              Pruned(tree).tree[k] == if k < FirstPlain(tree, 0) then PruneEntry(tree[k]) else tree[k]
  {
    hide KeepSupported, FirstPlain;
    var p := FirstPlain(tree, 0);
    PruneFromStops(tree, 0, p);
  }

  /** Pruning a data folder of folders twice is pruning it once. */
  lemma PruneIdempotent(tree: seq<Entry>)
    requires forall k :: 0 <= k < |tree| ==> tree[k].Folder?
    ensures Pruned(Pruned(tree).tree) == Pruned(tree)
  {
    PrunedShape(tree);
    var once := Pruned(tree).tree;
    assert forall k :: 0 <= k < |once| ==> once[k] == PruneEntry(tree[k]);
    PrunedShape(once);
    var twice := Pruned(once).tree;
    forall k | 0 <= k < |once| ensures twice[k] == once[k] {
      KeepSupportedIdempotent(tree[k].files);
    }
  }

  // ---------------------------------------------------------------------
  // get_image_filenames_with_labels
  // ---------------------------------------------------------------------

  /** The macOS metadata file the listing skips. */
  const DsStore: string := ".DS_Store"

  /** Whether a listed name matches `glob`'s pattern `*<ext>`: it ends with
      `ext` and, as `glob` skips hidden names, does not start with `.`. */
  predicate Matches(name: string, ext: string)
  {
    name != [] && name[0] != '.' && EndsWith(name, ext)
  }

  /** `glob` with the pattern `classDir`, a slash, a star and `ext`, on a folder listing `files`: the
      matching names joined to the folder, in listing order. */
  function Glob(classDir: string, files: seq<string>, ext: string): seq<string>
  {
    if files == [] then []
    else
      var n := |files| - 1;
      Glob(classDir, files[..n], ext) + (if Matches(files[n], ext) then [PathJoin(classDir, files[n])] else [])
  }

  /** The globs for each of `types`, chained. */
  function GlobTypes(classDir: string, files: seq<string>, types: seq<string>): seq<string>
  {
    if types == [] then []
    else
      var n := |types| - 1;
      GlobTypes(classDir, files, types[..n]) + Glob(classDir, files, types[n])
  }

  /** `image_class_files` for one entry: a plain file has nothing under it. */
  function ClassFiles(classDir: string, e: Entry): seq<string>
  {
    match e
    case Plain(_) => []
    case Folder(_, files) => GlobTypes(classDir, files, SupportedFileTypes)
  }

  datatype Indexed = Indexed(imageFiles: seq<string>, labels: seq<int>)

  /** One pass of the loop over the listing: `.DS_Store` is skipped; any
      other name must be a numeral, else `int(name)` raises `ValueError`. */
  function AddEntry(imagesDir: string, acc: Result<Indexed, string>, e: Entry): Result<Indexed, string>
  {
    match acc
    case Err(bad) => Err(bad)
    case Ok(ix) =>
      if e.name == DsStore then Ok(ix)
      else
        var found := ClassFiles(PathJoin(imagesDir, e.name), e);
        match ParseDecimal(e.name)
        case None => Err(e.name)
        case Some(n) => Ok(Indexed(ix.imageFiles + found, ix.labels + seq(|found|, k => n)))
  }

  /** `get_image_filenames_with_labels(images_dir)` on a listing. */
  function Index(imagesDir: string, tree: seq<Entry>): (r: Result<Indexed, string>)
    ensures r.Ok? ==> |r.value.imageFiles| == |r.value.labels|
  {
    if tree == [] then Ok(Indexed([], []))
    else AddEntry(imagesDir, Index(imagesDir, tree[..|tree| - 1]), tree[|tree| - 1])
  }

  lemma IndexSnoc(imagesDir: string, tree: seq<Entry>, e: Entry)
    ensures Index(imagesDir, tree + [e]) == AddEntry(imagesDir, Index(imagesDir, tree), e)
  {
    assert (tree + [e])[..|tree|] == tree;
  }

  lemma {:induction false} IndexErrPersists(imagesDir: string, tree: seq<Entry>, m: nat)
    requires m <= |tree| && Index(imagesDir, tree[..m]).Err?
    ensures Index(imagesDir, tree) == Index(imagesDir, tree[..m])
  {
    hide ClassFiles, PathJoin, ParseDecimal;
    if m < |tree| {
      var n := |tree| - 1;
      assert tree[..n][..m] == tree[..m];
      IndexErrPersists(imagesDir, tree[..n], m);
    } else {
      assert tree[..m] == tree;
    }
  }

  method GetImageFilenamesWithLabels(imagesDir: string, tree: seq<Entry>) returns (result: Result<Indexed, string>)
    ensures result == Index(imagesDir, tree)
  {
    var imageFiles: seq<string> := [];
    var labels: seq<int> := [];
    var j := 0;
    IndexOfPrefix(imagesDir, tree, 0);
    hide ClassFiles, Index;
    while j < |tree|
      invariant 0 <= j <= |tree|
      invariant Index(imagesDir, tree[..j]) == Ok(Indexed(imageFiles, labels))
    {
      var e := tree[j];
      IndexOfPrefix(imagesDir, tree, j + 1);
      if e.name != DsStore {
        var imageClassFiles := ClassFiles(PathJoin(imagesDir, e.name), e);
        imageFiles := imageFiles + imageClassFiles;
        var parsed := ParseDecimal(e.name);
        if parsed.None? {
          IndexErrPersists(imagesDir, tree, j + 1);
          return Err(e.name);
        }
        labels := labels + seq(|imageClassFiles|, k => parsed.value);
      }
      j := j + 1;
    }
    assert tree[..j] == tree;
    return Ok(Indexed(imageFiles, labels));
  }

  /** The listing's prefixes, one entry at a time. */
  lemma IndexOfPrefix(imagesDir: string, tree: seq<Entry>, j: nat)
    requires j <= |tree|
    ensures j == 0 ==> Index(imagesDir, tree[..j]) == Ok(Indexed([], []))
    ensures j > 0 ==> Index(imagesDir, tree[..j]) == AddEntry(imagesDir, Index(imagesDir, tree[..j - 1]), tree[j - 1])
  {
    if j > 0 {
      assert tree[..j] == tree[..j - 1] + [tree[j - 1]];
      IndexSnoc(imagesDir, tree[..j - 1], tree[j - 1]);
    }
  }

  /** Listing fails exactly when some entry other than `.DS_Store` is not a
      numeral. */
  lemma {:induction false} IndexErrIff(imagesDir: string, tree: seq<Entry>)
    ensures Index(imagesDir, tree).Err? <==>
              exists k :: 0 <= k < |tree| && tree[k].name != DsStore && ParseDecimal(tree[k].name).None?
  {
    if tree != [] {
      var n := |tree| - 1;
      var init := tree[..n];
      IndexErrIff(imagesDir, init);
      assert tree == init + [tree[n]];
      IndexSnoc(imagesDir, init, tree[n]);
      if Index(imagesDir, init).Err? {
        var k :| 0 <= k < |init| && init[k].name != DsStore && ParseDecimal(init[k].name).None?;
        assert tree[k] == init[k];
      } else {
        assert forall k :: 0 <= k < n ==> init[k] == tree[k];
      }
    }
  }

  /** What a successful pass of the loop adds. */
  lemma AddEntryOk(imagesDir: string, acc: Result<Indexed, string>, e: Entry)
    requires AddEntry(imagesDir, acc, e).Ok?
    ensures acc.Ok?
    ensures e.name == DsStore ==> AddEntry(imagesDir, acc, e) == acc
    ensures e.name != DsStore ==>
              var found := ClassFiles(PathJoin(imagesDir, e.name), e);
              ParseDecimal(e.name).Some? &&
              AddEntry(imagesDir, acc, e).value.imageFiles == acc.value.imageFiles + found &&
              AddEntry(imagesDir, acc, e).value.labels == acc.value.labels + seq(|found|, k => ParseDecimal(e.name).value)
  {
  }

  /** Every listed image is labelled with the number that names the folder
      it was found in. */
  lemma {:induction false} IndexLabels(imagesDir: string, tree: seq<Entry>)
    requires Index(imagesDir, tree).Ok?
    ensures var ix := Index(imagesDir, tree).value;
            forall k :: 0 <= k < |ix.labels| ==>
              exists j :: 0 <= j < |tree| && tree[j].name != DsStore && ParseDecimal(tree[j].name) == Some(ix.labels[k])
                          && ix.imageFiles[k] in ClassFiles(PathJoin(imagesDir, tree[j].name), tree[j])
  {
    if tree != [] {
      var n := |tree| - 1;
      var init := tree[..n];
      var e := tree[n];
      assert tree == init + [e];
      IndexSnoc(imagesDir, init, e);
      AddEntryOk(imagesDir, Index(imagesDir, init), e);
      IndexLabels(imagesDir, init);
      hide ClassFiles, PathJoin, ParseDecimal, AddEntry, Index;
      var before := Index(imagesDir, init).value;
      var ix := Index(imagesDir, tree).value;
      forall k | 0 <= k < |ix.labels|
        ensures exists j :: 0 <= j < |tree| && tree[j].name != DsStore && ParseDecimal(tree[j].name) == Some(ix.labels[k])
                            && ix.imageFiles[k] in ClassFiles(PathJoin(imagesDir, tree[j].name), tree[j])
      {
        if k < |before.labels| {
          var j :| 0 <= j < |init| && init[j].name != DsStore && ParseDecimal(init[j].name) == Some(before.labels[k])
                   && before.imageFiles[k] in ClassFiles(PathJoin(imagesDir, init[j].name), init[j]);
          assert tree[j] == init[j];
          LabelsKept(before, ix, k);
        } else {
          LabelOfAdded(imagesDir, before, ix, e, k);
        }
      }
    }
  }

  lemma LabelsKept(before: Indexed, after: Indexed, k: nat)
    requires |before.labels| == |before.imageFiles|
    requires k < |before.labels|
    requires before.imageFiles <= after.imageFiles && before.labels <= after.labels
    ensures after.labels[k] == before.labels[k] && after.imageFiles[k] == before.imageFiles[k]
  {
  }

  lemma LabelOfAdded(imagesDir: string, before: Indexed, after: Indexed, e: Entry, k: nat)
    requires |before.labels| == |before.imageFiles|
    requires ParseDecimal(e.name).Some?
    requires after.imageFiles == before.imageFiles + ClassFiles(PathJoin(imagesDir, e.name), e)
    requires after.labels == before.labels + seq(|ClassFiles(PathJoin(imagesDir, e.name), e)|, m => ParseDecimal(e.name).value)
    requires |before.labels| <= k < |after.labels|
    ensures ParseDecimal(e.name) == Some(after.labels[k])
    ensures after.imageFiles[k] in ClassFiles(PathJoin(imagesDir, e.name), e)
  {
    hide ClassFiles, PathJoin, ParseDecimal;
    var found := ClassFiles(PathJoin(imagesDir, e.name), e);
    assert after.imageFiles[k] == found[k - |before.labels|];
  }

  /** A successful listing starts with the listing of any of its prefixes. */
  lemma {:induction false} IndexPrefix(imagesDir: string, tree: seq<Entry>, m: nat)
    requires m <= |tree| && Index(imagesDir, tree).Ok?
    ensures Index(imagesDir, tree[..m]).Ok?
    ensures Index(imagesDir, tree[..m]).value.imageFiles <= Index(imagesDir, tree).value.imageFiles
    ensures Index(imagesDir, tree[..m]).value.labels <= Index(imagesDir, tree).value.labels
  {
    if m == |tree| {
      assert tree[..m] == tree;
    } else {
      var n := |tree| - 1;
      IndexLastPrefix(imagesDir, tree);
      assert tree[..n][..m] == tree[..m];
      hide Index;
      IndexPrefix(imagesDir, tree[..n], m);
      var whole := Index(imagesDir, tree).value;
      var init := Index(imagesDir, tree[..n]).value;
      var part := Index(imagesDir, tree[..m]).value;
      PrefixTransitive(part.imageFiles, init.imageFiles, whole.imageFiles);
      PrefixTransitive(part.labels, init.labels, whole.labels);
    }
  }

  lemma IndexLastPrefix(imagesDir: string, tree: seq<Entry>)
    requires tree != [] && Index(imagesDir, tree).Ok?
    ensures Index(imagesDir, tree[..|tree| - 1]).Ok?
    ensures Index(imagesDir, tree[..|tree| - 1]).value.imageFiles <= Index(imagesDir, tree).value.imageFiles
    ensures Index(imagesDir, tree[..|tree| - 1]).value.labels <= Index(imagesDir, tree).value.labels
  {
    hide Index, AddEntry;
    var n := |tree| - 1;
    assert tree == tree[..n] + [tree[n]];
    IndexSnoc(imagesDir, tree[..n], tree[n]);
    AddEntryPrefix(imagesDir, Index(imagesDir, tree[..n]), tree[n]);
  }

  lemma AddEntryPrefix(imagesDir: string, acc: Result<Indexed, string>, e: Entry)
    requires AddEntry(imagesDir, acc, e).Ok?
    ensures acc.Ok?
    ensures acc.value.imageFiles <= AddEntry(imagesDir, acc, e).value.imageFiles
    ensures acc.value.labels <= AddEntry(imagesDir, acc, e).value.labels
  {
    hide ClassFiles, PathJoin, ParseDecimal;
  }

  lemma PrefixTransitive<X>(a: seq<X>, b: seq<X>, c: seq<X>)
    requires a <= b && b <= c
    ensures a <= c
  {
  }

  /** Each entry other than `.DS_Store` contributes one contiguous block of
      the listing, in directory order: right after the files of the entries
      before it come all the files its globs find, each labelled with the
      number its name parses to. */
  lemma IndexBlock(imagesDir: string, tree: seq<Entry>, j: nat)
    requires Index(imagesDir, tree).Ok? && j < |tree| && tree[j].name != DsStore
    ensures Index(imagesDir, tree[..j]).Ok? && ParseDecimal(tree[j].name).Some?
    ensures var start := |Index(imagesDir, tree[..j]).value.imageFiles|;
            var found := ClassFiles(PathJoin(imagesDir, tree[j].name), tree[j]);
            var ix := Index(imagesDir, tree).value;
            start + |found| <= |ix.imageFiles| &&
            ix.imageFiles[start..start + |found|] == found &&
            ix.labels[start..start + |found|] == seq(|found|, k => ParseDecimal(tree[j].name).value)
  {
    hide ClassFiles, PathJoin, ParseDecimal, AddEntry, Index;
    IndexPrefix(imagesDir, tree, j + 1);
    IndexOfPrefix(imagesDir, tree, j + 1);
    AddEntryOk(imagesDir, Index(imagesDir, tree[..j]), tree[j]);
    var before := Index(imagesDir, tree[..j]).value;
    var after := Index(imagesDir, tree[..j + 1]).value;
    var ix := Index(imagesDir, tree).value;
    var found := ClassFiles(PathJoin(imagesDir, tree[j].name), tree[j]);
    var start := |before.imageFiles|;
    assert |before.labels| == start;
    assert after.imageFiles[start..] == found;
    assert after.labels[start..] == seq(|found|, k => ParseDecimal(tree[j].name).value);
    assert ix.imageFiles[start..start + |found|] == after.imageFiles[start..];
    assert ix.labels[start..start + |found|] == after.labels[start..];
  }

  /** Every file the globs find in a listed folder is listed, labelled with
      the number that names the folder. */
  lemma IndexComplete(imagesDir: string, tree: seq<Entry>, j: nat, m: nat)
    requires Index(imagesDir, tree).Ok? && j < |tree| && tree[j].name != DsStore
    requires m < |ClassFiles(PathJoin(imagesDir, tree[j].name), tree[j])|
    ensures var ix := Index(imagesDir, tree).value;
            exists k :: 0 <= k < |ix.imageFiles| &&
              ix.imageFiles[k] == ClassFiles(PathJoin(imagesDir, tree[j].name), tree[j])[m] &&
              ParseDecimal(tree[j].name) == Some(ix.labels[k])
  {
    hide ClassFiles, PathJoin, ParseDecimal, AddEntry, Index;
    IndexBlock(imagesDir, tree, j);
    var ix := Index(imagesDir, tree).value;
    var found := ClassFiles(PathJoin(imagesDir, tree[j].name), tree[j]);
    var start := |Index(imagesDir, tree[..j]).value.imageFiles|;
    var n := ParseDecimal(tree[j].name).value;
    BlockMember(ix.imageFiles, ix.labels, start, found, n, m);
    var k := start + m;
    assert 0 <= k < |ix.imageFiles| && ix.imageFiles[k] == found[m] && ParseDecimal(tree[j].name) == Some(ix.labels[k]);
  }

  lemma BlockMember(files: seq<string>, labels: seq<int>, start: nat, found: seq<string>, n: int, m: nat)
    requires start + |found| <= |files| == |labels| && m < |found|
    requires files[start..start + |found|] == found && labels[start..start + |found|] == seq(|found|, k => n)
    ensures files[start + m] == found[m] && labels[start + m] == n
  {
    assert files[start + m] == files[start..start + |found|][m];
    assert labels[start + m] == labels[start..start + |found|][m];
  }

  /** A listed name matching `*<ext>` for an allowed `ext` keeps that
      extension once joined to its folder. */
  lemma GlobbedExtension(dir: string, f: string, ext: string)
    requires Supported(ext) && Matches(f, ext) && '/' !in f
    ensures SplitExt(PathJoin(dir, f)) == ext
  {
    SupportedShape(ext);
    assert f != ext by { assert f[0] != '.'; }
    assert |f| > |ext|;
    var stem := f[..|f| - |ext|];
    assert f == stem + ext;
    assert stem[0] == f[0];
    assert '/' !in stem by { assert forall k :: 0 <= k < |stem| ==> stem[k] == f[k]; }
    if dir == [] || dir[|dir| - 1] == '/' {
      assert PathJoin(dir, f) == dir + stem + ext;
      SplitExtOfSuffix(dir, stem, ext);
    } else {
      assert PathJoin(dir, f) == (dir + "/") + stem + ext;
      SplitExtOfSuffix(dir + "/", stem, ext);
    }
  }

  /** The names a folder lists hold no `/`. */
  predicate PlainNames(tree: seq<Entry>)
  {
    forall j :: 0 <= j < |tree| ==> tree[j].Folder? ==> forall k :: 0 <= k < |tree[j].files| ==> '/' !in tree[j].files[k]
  }

  lemma ExtensionsConcat(a: seq<string>, b: seq<string>, ext: string)
    requires forall k :: 0 <= k < |a| ==> SplitExt(a[k]) == ext
    requires forall k :: 0 <= k < |b| ==> SplitExt(b[k]) == ext
    ensures forall k :: 0 <= k < |a + b| ==> SplitExt((a + b)[k]) == ext
  {
    hide SplitExt;
    forall k | 0 <= k < |a + b| ensures SplitExt((a + b)[k]) == ext {
      ConcatIndex(a, b, k);
    }
  }

  lemma {:induction false} GlobExtensions(dir: string, files: seq<string>, ext: string)
    requires Supported(ext)
    requires forall k :: 0 <= k < |files| ==> '/' !in files[k]
    ensures forall k :: 0 <= k < |Glob(dir, files, ext)| ==> SplitExt(Glob(dir, files, ext)[k]) == ext
  {
    hide SplitExt;
    if files != [] {
      var n := |files| - 1;
      GlobExtensions(dir, files[..n], ext);
      var b := if Matches(files[n], ext) then [PathJoin(dir, files[n])] else [];
      if Matches(files[n], ext) {
        GlobbedExtension(dir, files[n], ext);
      }
      ExtensionsConcat(Glob(dir, files[..n], ext), b, ext);
    }
  }

  lemma {:induction false} GlobTypesExtensions(dir: string, files: seq<string>, types: seq<string>)
    requires forall t :: 0 <= t < |types| ==> Supported(types[t])
    requires forall k :: 0 <= k < |files| ==> '/' !in files[k]
    ensures forall k :: 0 <= k < |GlobTypes(dir, files, types)| ==> Supported(SplitExt(GlobTypes(dir, files, types)[k]))
  {
    if types != [] {
      var n := |types| - 1;
      GlobTypesExtensions(dir, files, types[..n]);
      GlobExtensions(dir, files, types[n]);
      hide Supported, SplitExt, Glob;
      var a := GlobTypes(dir, files, types[..n]);
      var b := Glob(dir, files, types[n]);
      forall k | 0 <= k < |a + b| ensures Supported(SplitExt((a + b)[k])) {
        ConcatIndex(a, b, k);
      }
    }
  }

  /** Every image listed has an allowed extension. */
  lemma {:induction false} IndexExtensions(imagesDir: string, tree: seq<Entry>)
    requires PlainNames(tree)
    requires Index(imagesDir, tree).Ok?
    ensures var files := Index(imagesDir, tree).value.imageFiles;
            forall k :: 0 <= k < |files| ==> Supported(SplitExt(files[k]))
  {
    if tree != [] {
      var n := |tree| - 1;
      var init := tree[..n];
      var e := tree[n];
      assert tree == init + [e];
      assert forall j :: 0 <= j < n ==> init[j] == tree[j];
      IndexSnoc(imagesDir, init, e);
      AddEntryOk(imagesDir, Index(imagesDir, init), e);
      IndexExtensions(imagesDir, init);
      if e.name != DsStore {
        var found := ClassFiles(PathJoin(imagesDir, e.name), e);
        if e.Folder? {
          GlobTypesExtensions(PathJoin(imagesDir, e.name), e.files, SupportedFileTypes);
        }
        var a := Index(imagesDir, init).value.imageFiles;
        assert Index(imagesDir, tree).value.imageFiles == a + found;
        hide Supported, SplitExt, ClassFiles, Index, AddEntry;
        forall k | 0 <= k < |a + found| ensures Supported(SplitExt((a + found)[k])) {
          ConcatIndex(a, found, k);
        }
      }
    }
  }
  /** A `.DS_Store` entry anywhere in the listing changes nothing. */
  lemma {:induction false} IndexIgnoresDsStore(imagesDir: string, t1: seq<Entry>, e: Entry, t2: seq<Entry>)
    requires e.name == DsStore
    ensures Index(imagesDir, t1 + [e] + t2) == Index(imagesDir, t1 + t2)
  {
    if t2 == [] {
      assert t1 + [e] + t2 == t1 + [e];
      assert t1 + t2 == t1;
      IndexSnoc(imagesDir, t1, e);
    } else {
      hide Index, AddEntry;
      var n := |t2| - 1;
      var t := t2[..n];
      assert t2 == t + [t2[n]];
      IndexIgnoresDsStore(imagesDir, t1, e, t);
      assert t1 + [e] + t2 == (t1 + [e] + t) + [t2[n]];
      assert t1 + t2 == (t1 + t) + [t2[n]];
      IndexSnoc(imagesDir, t1 + [e] + t, t2[n]);
      IndexSnoc(imagesDir, t1 + t, t2[n]);
    }
  }

  lemma NumeralIsNotDsStore(n: nat)
    ensures NatToString(n) != DsStore
  {
    NatToStringDigits(n);
    assert DsStore[0] == '.';
  }

  /** Every entry is named by the numeral of a number below `c`. */
  predicate NumberedBelow(tree: seq<Entry>, c: nat)
  {
    forall j :: 0 <= j < |tree| ==>
      tree[j].name != DsStore && ParseDecimal(tree[j].name).Some? && ParseDecimal(tree[j].name).value < c
  }

  lemma {:induction false} ScrapedNumbered(categories: seq<seq<string>>, search: string -> seq<Candidate>)
    ensures NumberedBelow(Scraped(categories, search), |categories|)
  {
    if categories != [] {
      var n := |categories| - 1;
      ScrapedNumbered(categories[..n], search);
      NumeralIsNotDsStore(n);
      ParseNatToString(n);
      var st := CategoryOutcome(n, categories[n], search);
      var init := Scraped(categories[..n], search);
      var tail: seq<Entry> := if st.dirMade then [Folder(NatToString(n), st.files)] else [];
      assert Scraped(categories, search) == init + tail;
      hide ParseDecimal, NatToString, Scraped, CategoryOutcome;
      forall j | 0 <= j < |init + tail|
        ensures (init + tail)[j].name != DsStore && ParseDecimal((init + tail)[j].name).Some? &&
                ParseDecimal((init + tail)[j].name).value < |categories|
      {
        if j < |init| {
          assert (init + tail)[j] == init[j];
        } else {
          assert (init + tail)[j].name == NatToString(n);
        }
      }
    }
  }

  /** Listing never fails on numbered folders, and labels them below `c`. */
  lemma IndexOfNumbered(imagesDir: string, tree: seq<Entry>, c: nat)
    requires NumberedBelow(tree, c)
    ensures Index(imagesDir, tree).Ok?
    ensures var labels := Index(imagesDir, tree).value.labels;
            forall k :: 0 <= k < |labels| ==> 0 <= labels[k] < c
  {
    IndexErrIff(imagesDir, tree);
    IndexLabels(imagesDir, tree);
    hide ClassFiles, PathJoin, ParseDecimal, Index;
    var labels := Index(imagesDir, tree).value.labels;
    forall k | 0 <= k < |labels| ensures 0 <= labels[k] < c {
      var j :| 0 <= j < |tree| && tree[j].name != DsStore && ParseDecimal(tree[j].name) == Some(labels[k])
               && Index(imagesDir, tree).value.imageFiles[k] in ClassFiles(PathJoin(imagesDir, tree[j].name), tree[j]);
      assert ParseDecimal(tree[j].name).value < c;
    }
  }

  /** Listing a freshly scraped data folder never fails, and every label is
      the number of a category, whatever order `os.listdir` lists the
      category folders in. */
  lemma IndexOfScraped(imagesDir: string, categories: seq<seq<string>>, search: string -> seq<Candidate>,
                       listed: seq<Entry>)
    requires multiset(listed) == multiset(Scraped(categories, search))
    ensures Index(imagesDir, listed).Ok?
    ensures var labels := Index(imagesDir, listed).value.labels;
            forall k :: 0 <= k < |labels| ==> 0 <= labels[k] < |categories|
  {
    var tree := Scraped(categories, search);
    ScrapedNumbered(categories, search);
    hide Scraped, ParseDecimal;
    forall j | 0 <= j < |listed|
      ensures listed[j].name != DsStore && ParseDecimal(listed[j].name).Some? &&
              ParseDecimal(listed[j].name).value < |categories|
    {
      assert listed[j] in multiset(tree);
      var i :| 0 <= i < |tree| && tree[i] == listed[j];
    }
    IndexOfNumbered(imagesDir, listed, |categories|);
  }

  /** Every entry of a freshly scraped data folder is a folder whose files
      all have allowed extensions. */
  predicate SupportedFolders(tree: seq<Entry>)
  {
    forall j :: 0 <= j < |tree| ==>
      (tree[j].Folder? && forall m :: 0 <= m < |tree[j].files| ==> Supported(SplitExt(tree[j].files[m])))
  }

  lemma {:induction false} ScrapedFolders(categories: seq<seq<string>>, search: string -> seq<Candidate>)
    ensures SupportedFolders(Scraped(categories, search))
  {
    if categories != [] {
      var n := |categories| - 1;
      ScrapedFolders(categories[..n], search);
      CategoryFilesDistinct(n, categories[n], search);
      var st := CategoryOutcome(n, categories[n], search);
      var init := Scraped(categories[..n], search);
      var tail: seq<Entry> := if st.dirMade then [Folder(NatToString(n), st.files)] else [];
      assert Scraped(categories, search) == init + tail;
      hide Supported, SplitExt, Scraped, CategoryOutcome;
      forall j | 0 <= j < |init + tail|
        ensures (init + tail)[j].Folder? &&
                forall m :: 0 <= m < |(init + tail)[j].files| ==> Supported(SplitExt((init + tail)[j].files[m]))
      {
        if j < |init| {
          assert (init + tail)[j] == init[j];
        } else {
          assert (init + tail)[j] == Folder(NatToString(n), st.files);
        }
      }
    }
  }

  /** `prune_data` after `scrape_images` removes nothing, whatever order
      `os.listdir` lists the category folders in: scraping writes only
      files of the allowed types, and only folders. */
  lemma PruneAfterScrape(categories: seq<seq<string>>, search: string -> seq<Candidate>, listed: seq<Entry>)
    requires multiset(listed) == multiset(Scraped(categories, search))
    ensures Pruned(listed) == Pruning(listed, true)
  {
    var scraped := Scraped(categories, search);
    ScrapedFolders(categories, search);
    hide Scraped, Supported, SplitExt;
    forall j | 0 <= j < |listed|
      ensures listed[j].Folder? && forall m :: 0 <= m < |listed[j].files| ==> Supported(SplitExt(listed[j].files[m]))
    {
      assert listed[j] in multiset(scraped);
      var i :| 0 <= i < |scraped| && scraped[i] == listed[j];
    }
    PruneSupportedFolders(listed);
  }

  /** `prune_data` on folders of allowed files removes nothing. */
  lemma PruneSupportedFolders(tree: seq<Entry>)
    requires SupportedFolders(tree)
    ensures Pruned(tree) == Pruning(tree, true)
  {
    PrunedShape(tree);
    hide Pruned, PruneFrom, KeepSupported, Supported, SplitExt, FirstPlain;
    assert forall k :: 0 <= k < |tree| ==> tree[k].Folder?;
    assert FirstPlain(tree, 0) == |tree|;
    forall k | 0 <= k < |tree| ensures Pruned(tree).tree[k] == tree[k] {
      assert forall m :: 0 <= m < |tree[k].files| ==> Supported(SplitExt(tree[k].files[m]));
      KeepSupportedAllSupported(tree[k].files);
    }
    assert Pruned(tree).tree == tree;
  }

  // ---------------------------------------------------------------------
  // collate_fn
  // ---------------------------------------------------------------------

  /** `list(filter(lambda x: x is not None, batch))`. */
  function Present<T>(batch: seq<Option<T>>): seq<T>
  {
    if batch == [] then []
    else
      var n := |batch| - 1;
      Present(batch[..n]) + (if batch[n].Some? then [batch[n].value] else [])
  }

  /** `collate_fn`: the images and the labels of the samples that loaded,
      in batch order, as two lists of the same length. */
  function Collate<I>(batch: seq<Option<(I, int)>>): (seq<I>, seq<int>)
  {
    var kept := Present(batch);
    (seq(|kept|, k requires 0 <= k < |kept| => kept[k].0), seq(|kept|, k requires 0 <= k < |kept| => kept[k].1))
  }

  /** A sample is kept exactly when it loaded. */
  lemma {:induction false} PresentMembers<T>(batch: seq<Option<T>>)
    ensures forall x :: x in Present(batch) ==> Some(x) in batch
    ensures forall x :: Some(x) in batch ==> x in Present(batch)
  {
    if batch != [] {
      var n := |batch| - 1;
      PresentMembers(batch[..n]);
      assert batch == batch[..n] + [batch[n]];
    }
  }

  /** As many samples as loaded are kept. */
  lemma {:induction false} PresentLength<T>(batch: seq<Option<T>>)
    ensures |Present(batch)| == |batch| - multiset(batch)[None]
  {
    if batch != [] {
      var n := |batch| - 1;
      PresentLength(batch[..n]);
      assert batch == batch[..n] + [batch[n]];
      assert multiset(batch) == multiset(batch[..n]) + multiset{batch[n]};
    }
  }

  /** The kept samples stay in batch order. */
  lemma {:induction false} PresentAppend<T>(a: seq<Option<T>>, b: seq<Option<T>>)
    ensures Present(a + b) == Present(a) + Present(b)
  {
    if b == [] {
      assert a + b == a;
    } else {
      var n := |b| - 1;
      PresentAppend(a, b[..n]);
      assert (a + b)[..|a + b| - 1] == a + b[..n];
    }
  }

  /** The two lists `collate_fn` returns have one entry per loaded sample,
      and position by position each image goes with its own label. */
  lemma CollateAligned<I>(batch: seq<Option<(I, int)>>)
    ensures |Collate(batch).0| == |Collate(batch).1| == |batch| - multiset(batch)[None]
    ensures forall k :: 0 <= k < |Collate(batch).0| ==> Some((Collate(batch).0[k], Collate(batch).1[k])) in batch
  {
    var kept := Present(batch);
    PresentLength(batch);
    PresentMembers(batch);
    forall k | 0 <= k < |kept| ensures Some((Collate(batch).0[k], Collate(batch).1[k])) in batch {
      assert (Collate(batch).0[k], Collate(batch).1[k]) == kept[k];
      assert kept[k] in Present(batch);
      assert Some(kept[k]) in batch;
    }
  }
}
