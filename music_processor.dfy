/** music_processor.py: cutting each audio file into at most fifteen
    15-second segments, sending each segment to the train or the test
    folder, walking the label folders in sorted order, and building the
    caption table. Loading audio, the mel spectrogram, the 8-bit image and
    the file writes are opaque: a `Write` records the path an image is saved
    under and the segment it is the spectrogram of. */
module MusicProcessor {
  import opened Wrappers
  import opened Text
  import opened Ordering
  import opened Paths
  import opened Segmenter
  import opened Seqs

  /** `random.randint(0, 14)`: the draw that picks a file's test segment. */
  type TestDraw = t: int | 0 <= t <= 14

  datatype Partition = Train | Test

  /** What `librosa.load` returns: the samples and the sampling rate. */
  datatype Audio<T> = Audio(samples: seq<T>, rate: Rate)

  /** One `spec.save(path)`, saving the spectrogram image of `segment`. */
  datatype Write<T> = Write(path: string, segment: seq<T>)

  function SplitDir(split: Partition): string
  {
    match split
    case Train => "train/"
    case Test => "test/"
  }

  /** The test rule of `process_file`. */
  predicate IsTest(index: nat, testIdx: TestDraw)
  {
    index == testIdx || index == testIdx - 14
  }

  function SplitOf(index: nat, testIdx: TestDraw): Partition
  {
    if IsTest(index, testIdx) then Test else Train
  }

  /** `file_path.split("/")[-1].split(".")[0]`: the last path component, cut
      at its first dot. */
  function Stem(filePath: string): string
  {
    FirstComponent(LastComponent(filePath, '/'), '.')
  }

  /** A stem holds neither `/` nor `.`. */
  lemma StemIsPlain(filePath: string)
    ensures '/' !in Stem(filePath) && '.' !in Stem(filePath)
  {
    var base := LastComponent(filePath, '/');
    LastComponentHasNoSeparator(filePath, '/');
    FirstComponentIsPrefix(base, '.');
    assert forall k :: 0 <= k < |Stem(filePath)| ==> Stem(filePath)[k] == base[k];
  }

  /** `data + split + "/" + filename + "-" + str(index) + ".jpeg"`; the split
      folder already ends in `/`, so the path holds `//`. */
  function OutputPath(split: Partition, stem: string, index: nat): string
  {
    "data/" + SplitDir(split) + "/" + stem + "-" + NatToString(index) + ".jpeg"
  }

  /** The list `process_file` builds in its first loop: segments `0` to
      `count - 1` of the signal. */
  function SegmentsOf<T>(y: seq<T>, L: nat, count: nat): seq<seq<T>>
    requires L > 0
  {
    if count == 0 then [] else SegmentsOf(y, L, count - 1) + [Segment(y, L, count - 1)]
  }

  /** What the second loop of `process_file` saves: segment `k` under the
      name for ordinal `k` in the split the draw gives it. */
  function Placed<T>(stem: string, segments: seq<seq<T>>, testIdx: TestDraw): seq<Write<T>>
  {
    if segments == [] then []
    else
      var n := |segments| - 1;
      Placed(stem, segments[..n], testIdx) + [Write(OutputPath(SplitOf(n, testIdx), stem, n), segments[n])]
  }

  /** What `process_file` saves for one file, in order. */
  function FileWrites<T>(filePath: string, audio: Audio<T>, testIdx: TestDraw): seq<Write<T>>
  {
    var L := WindowLength(audio.rate);
    Placed(Stem(filePath), SegmentsOf(audio.samples, L, SegmentCount(|audio.samples|, L)), testIdx)
  }

  /** The first loop of `process_file`: segment `i` is the slice of the
      signal for window `int((number_sections / 15) * i)`, for each `i`
      below `min(number_sections, 15)`. */
  method CutSegments<T>(y: seq<T>, segmentLength: nat) returns (segments: seq<seq<T>>)
    requires segmentLength > 0
    ensures segments == SegmentsOf(y, segmentLength, SegmentCount(|y|, segmentLength))
  {
    hide Slice;
    var numberSections := NumberSections(|y|, segmentLength);
    segments := [];
    var i := 0;
    while i < Min(numberSections, MaxSegments)
      invariant 0 <= i <= Min(numberSections, MaxSegments)
      invariant segments == SegmentsOf(y, segmentLength, i)
    {
      var w := WindowIndex(numberSections, i);
      assert (w + 1) * segmentLength == w * segmentLength + segmentLength;
      segments := segments + [Slice(y, w * segmentLength, (w + 1) * segmentLength)];
      i := i + 1;
    }
  }

  /** The second loop of `process_file`: segment `index` is saved under
      `data/test//` when it is the drawn one (or the draw is 14 and it is
      segment 0), and under `data/train//` otherwise. */
  method SaveSegments<T>(filename: string, segments: seq<seq<T>>, testIdx: TestDraw) returns (writes: seq<Write<T>>)
    ensures writes == Placed(filename, segments, testIdx)
  {
    hide NatToString;
    writes := [];
    var index := 0;
    while index < |segments|
      invariant 0 <= index <= |segments|
      invariant writes == Placed(filename, segments[..index], testIdx)
    {
      var path;
      if index == testIdx || index == testIdx - 14 {
        path := "data/" + "test/" + "/" + filename + "-" + NatToString(index) + ".jpeg";
      } else {
        path := "data/" + "train/" + "/" + filename + "-" + NatToString(index) + ".jpeg";
      }
      assert segments[..index + 1][..index] == segments[..index];
      writes := writes + [Write(path, segments[index])];
      index := index + 1;
    }
    assert segments[..index] == segments;
  }

  /** `process_file(file_path, label)` once `librosa.load` has returned
      `audio` and `random.randint(0, 14)` has returned `testIdx`. */
  method ProcessFile<T>(filePath: string, audio: Audio<T>, testIdx: TestDraw) returns (writes: seq<Write<T>>)
    ensures writes == FileWrites(filePath, audio, testIdx)
  {
    var y, sr := audio.samples, audio.rate;
    var segments := CutSegments(y, WindowLength(sr));
    var filename := Stem(filePath);
    writes := SaveSegments(filename, segments, testIdx);
  }

  lemma {:induction false} SegmentsOfIndex<T>(y: seq<T>, L: nat, count: nat)
    requires L > 0
    ensures |SegmentsOf(y, L, count)| == count
    ensures forall k :: 0 <= k < count ==> SegmentsOf(y, L, count)[k] == Segment(y, L, k)
  {
    if count > 0 {
      SegmentsOfIndex(y, L, count - 1);
    }
  }

  lemma {:induction false} PlacedIndex<T>(stem: string, segments: seq<seq<T>>, testIdx: TestDraw)
    ensures |Placed(stem, segments, testIdx)| == |segments|
    ensures forall k :: 0 <= k < |segments| ==>
              Placed(stem, segments, testIdx)[k] == Write(OutputPath(SplitOf(k, testIdx), stem, k), segments[k])
  {
    if segments != [] {
      var n := |segments| - 1;
      PlacedIndex(stem, segments[..n], testIdx);
    }
  }

  /** Write `k` of a file saves segment `k` of its signal under the name for
      ordinal `k`, for every `k` below the segment count. */
  lemma FileWritesIndex<T>(filePath: string, audio: Audio<T>, testIdx: TestDraw)
    ensures var L := WindowLength(audio.rate);
            var ws := FileWrites(filePath, audio, testIdx);
            |ws| == SegmentCount(|audio.samples|, L) &&
            forall k :: 0 <= k < |ws| ==>
              ws[k] == Write(OutputPath(SplitOf(k, testIdx), Stem(filePath), k), Segment(audio.samples, L, k))
  {
    var L := WindowLength(audio.rate);
    var segments := SegmentsOf(audio.samples, L, SegmentCount(|audio.samples|, L));
    SegmentsOfIndex(audio.samples, L, SegmentCount(|audio.samples|, L));
    PlacedIndex(Stem(filePath), segments, testIdx);
  }

  /** A file yields `min(ceil(len / L), 15)` segments with `L = sr * 15`,
      none exactly when the signal is empty; each is a non-empty run of
      consecutive samples inside the signal. */
  lemma FileWritesSegments<T>(filePath: string, audio: Audio<T>, testIdx: TestDraw)
    ensures var L := WindowLength(audio.rate);
            |FileWrites(filePath, audio, testIdx)| == Min(NumberSections(|audio.samples|, L), MaxSegments)
    ensures |FileWrites(filePath, audio, testIdx)| == 0 <==> |audio.samples| == 0
    ensures forall k :: 0 <= k < |FileWrites(filePath, audio, testIdx)| ==>
              var start := SegmentStart(NumberSections(|audio.samples|, WindowLength(audio.rate)), k, WindowLength(audio.rate));
              var seg := FileWrites(filePath, audio, testIdx)[k].segment;
              seg != [] && start + |seg| <= |audio.samples| && seg == audio.samples[start..start + |seg|]
  {
    hide FileWrites, Segment, Slice, OutputPath, Stem;
    var L := WindowLength(audio.rate);
    CeilingBounds(|audio.samples|, L);
    FileWritesIndex(filePath, audio, testIdx);
    forall k | 0 <= k < |FileWrites(filePath, audio, testIdx)|
      ensures var start := SegmentStart(NumberSections(|audio.samples|, L), k, L);
              var seg := FileWrites(filePath, audio, testIdx)[k].segment;
              seg != [] && start + |seg| <= |audio.samples| && seg == audio.samples[start..start + |seg|]
    {
      SegmentInBounds(audio.samples, L, k);
    }
  }

  /** The ordinals of a file's segments that go to the test folder. */
  function TestOrdinals(count: nat, testIdx: TestDraw): set<nat>
  {
    set k: nat | k < count && IsTest(k, testIdx)
  }

  /** Segment `testIdx` is a test segment if there is one, and so is segment
      0 when the draw is 14; nothing else is. */
  lemma TestSegments(count: nat, testIdx: TestDraw)
    ensures TestOrdinals(count, testIdx) ==
              (if testIdx < count then {testIdx as nat} else {}) +
              (if testIdx == 14 && count > 0 then {0} else {})
  {
  }

  /** At most two segments of a file are test segments, two exactly when the
      draw is 14 and the file has all 15; none when the draw is past the
      last segment and is not 14. So a file does not always get exactly one. */
  lemma TestSegmentCount(count: nat, testIdx: TestDraw)
    requires count <= MaxSegments
    ensures |TestOrdinals(count, testIdx)| <= 2
    ensures |TestOrdinals(count, testIdx)| == 2 <==> testIdx == 14 && count == MaxSegments
    ensures |TestOrdinals(count, testIdx)| == 0 <==> count == 0 || (testIdx >= count && testIdx != 14)
  {
    TestSegments(count, testIdx);
    var t := testIdx as nat;
    if testIdx < count && testIdx == 14 && count > 0 {
      assert TestOrdinals(count, testIdx) == {t, 0};
    } else if testIdx < count {
      assert TestOrdinals(count, testIdx) == {t};
    } else if testIdx == 14 && count > 0 {
      assert TestOrdinals(count, testIdx) == {0};
    } else {
      assert TestOrdinals(count, testIdx) == {};
    }
  }

  /** Each segment is saved once, into the folder its split names. */
  lemma FileWritesSplits<T>(filePath: string, audio: Audio<T>, testIdx: TestDraw, k: nat)
    requires k < |FileWrites(filePath, audio, testIdx)|
    ensures FileWrites(filePath, audio, testIdx)[k].path ==
              "data/" + (if IsTest(k, testIdx) then "test/" else "train/") + "/" + Stem(filePath) + "-" +
              NatToString(k) + ".jpeg"
  {
    FileWritesIndex(filePath, audio, testIdx);
  }



  /** Output paths determine their split and ordinal. */
  lemma OutputPathInjective(s1: Partition, s2: Partition, stem: string, i: nat, j: nat)
    requires OutputPath(s1, stem, i) == OutputPath(s2, stem, j)
    ensures s1 == s2 && i == j
  {
    hide NatToString;
    var p1, p2 := OutputPath(s1, stem, i), OutputPath(s2, stem, j);
    assert p1[6] == SplitDir(s1)[1];
    assert p2[6] == SplitDir(s2)[1];
    var prefix := "data/" + SplitDir(s1) + "/" + stem + "-";
    assert p1 == prefix + (NatToString(i) + ".jpeg");
    assert p2 == prefix + (NatToString(j) + ".jpeg");
    CancelPrefix(prefix, NatToString(i) + ".jpeg", NatToString(j) + ".jpeg");
    CancelSuffix(NatToString(i), NatToString(j), ".jpeg");
    NatToStringInjective(i, j);
  }

  /** The segments of one file are saved under pairwise distinct names. */
  lemma FileWritesDistinct<T>(filePath: string, audio: Audio<T>, testIdx: TestDraw, i: nat, j: nat)
    requires i < j < |FileWrites(filePath, audio, testIdx)|
    ensures FileWrites(filePath, audio, testIdx)[i].path != FileWrites(filePath, audio, testIdx)[j].path
  {
    var ws := FileWrites(filePath, audio, testIdx);
    FileWritesIndex(filePath, audio, testIdx);
    if ws[i].path == ws[j].path {
      OutputPathInjective(SplitOf(i, testIdx), SplitOf(j, testIdx), Stem(filePath), i, j);
      assert false;
    }
  }

  /** The stem of `os.path.join(folder, name)` is `name` up to its first dot. */
  lemma StemOfJoin(folder: string, name: string)
    requires '/' !in name
    ensures Stem(PathJoin(folder, name)) == FirstComponent(name, '.')
  {
    BaseNameOfJoin(folder, name);
  }

  /** The output names do not involve the folder or the extension of the
      input: two files with the same stem, such as `a.mp3` and `a.wav` in one
      label folder or `x.mp3` in two, save their `k`-th images under the same
      path whenever both send ordinal `k` to the same split, so the later
      one overwrites the earlier. */
  lemma SameStemCollides<T>(f1: string, n1: string, a1: Audio<T>, t1: TestDraw,
                            f2: string, n2: string, a2: Audio<T>, t2: TestDraw, k: nat)
    requires '/' !in n1 && '/' !in n2 && FirstComponent(n1, '.') == FirstComponent(n2, '.')
    requires k < |FileWrites(PathJoin(f1, n1), a1, t1)| && k < |FileWrites(PathJoin(f2, n2), a2, t2)|
    requires IsTest(k, t1) == IsTest(k, t2)
    ensures FileWrites(PathJoin(f1, n1), a1, t1)[k].path == FileWrites(PathJoin(f2, n2), a2, t2)[k].path
  {
    StemOfJoin(f1, n1);
    StemOfJoin(f2, n2);
    FileWritesSplits(PathJoin(f1, n1), a1, t1, k);
    FileWritesSplits(PathJoin(f2, n2), a2, t2, k);
  }

  // ---------------------------------------------------------------------
  // transform_music

  /** `label.replace(" ", "_")`: the label's folder. */
  function FolderName(labelName: string): string
  {
    ReplaceChar(labelName, ' ', '_')
  }

  /** A folder name has no spaces: each space of the label became `_` and
      every other character is kept. */
  lemma FolderNameSpaces(labelName: string)
    ensures |FolderName(labelName)| == |labelName| && ' ' !in FolderName(labelName)
    ensures forall k :: 0 <= k < |labelName| ==>
              FolderName(labelName)[k] == if labelName[k] == ' ' then '_' else labelName[k]
  {
    ReplaceCharAt(labelName, ' ', '_');
  }

  /** `os.path.join(folder, f)` for each file name `f`, in order. */
  function FolderPaths(folder: string, files: seq<string>): seq<string>
  {
    if files == [] then []
    else
      var n := |files| - 1;
      FolderPaths(folder, files[..n]) + [PathJoin(folder, files[n])]
  }

  lemma {:induction false} FolderPathsIndex(folder: string, files: seq<string>)
    ensures |FolderPaths(folder, files)| == |files|
    ensures forall k :: 0 <= k < |files| ==> FolderPaths(folder, files)[k] == PathJoin(folder, files[k])
  {
    if files != [] {
      FolderPathsIndex(folder, files[..|files| - 1]);
    }
  }

  /** The files `transform_music` hands to `process_file`, in order, and
      whether it gets through all labels: `os.listdir` raises on the first
      label whose folder does not exist, which ends the run. */
  datatype Plan = Plan(paths: seq<string>, complete: bool)

  /** The plan for the labels from index `i` on. */
  function PlanFrom(labels: seq<string>, i: nat, listing: map<string, seq<string>>): Plan
    requires i <= |labels|
    decreases |labels| - i
  {
    if i == |labels| then Plan([], true)
    else
      var folder := FolderName(labels[i]);
      if folder !in listing then Plan([], false)
      else
        var rest := PlanFrom(labels, i + 1, listing);
        Plan(FolderPaths(folder, Sort(listing[folder])) + rest.paths, rest.complete)
  }

  function Planned(labels: seq<string>, listing: map<string, seq<string>>): Plan
  {
    PlanFrom(labels, 0, listing)
  }

  /** `outputs[k]` is what `process_file` saves for `calls[k]` when that call
      takes draw number `first + k`. */
  ghost predicate ProcessedFrom<T>(calls: seq<string>, outputs: seq<seq<Write<T>>>, first: nat,
                                   load: string -> Audio<T>, draw: nat -> TestDraw)
  {
    |outputs| == |calls| &&
    forall k :: 0 <= k < |calls| ==> outputs[k] == FileWrites(calls[k], load(calls[k]), draw(first + k))
  }



  lemma ProcessedAppend<T>(c1: seq<string>, o1: seq<seq<Write<T>>>, c2: seq<string>, o2: seq<seq<Write<T>>>,
                           first: nat, second: nat, load: string -> Audio<T>, draw: nat -> TestDraw)
    requires second == first + |c1|
    requires ProcessedFrom(c1, o1, first, load, draw)
    requires ProcessedFrom(c2, o2, second, load, draw)
    ensures ProcessedFrom(c1 + c2, o1 + o2, first, load, draw)
  {
    hide FileWrites;
    forall k | 0 <= k < |c1| + |c2|
      ensures (o1 + o2)[k] == FileWrites((c1 + c2)[k], load((c1 + c2)[k]), draw(first + k))
    {
      ConcatIndex(c1, c2, k);
      ConcatIndex(o1, o2, k);
      if k >= |c1| {
        var m := k - |c1|;
        assert first + k == second + m;
      }
    }
  }

  lemma ProcessedOne<T>(path: string, writes: seq<Write<T>>, first: nat,
                        load: string -> Audio<T>, draw: nat -> TestDraw)
    requires writes == FileWrites(path, load(path), draw(first))
    ensures ProcessedFrom([path], [writes], first, load, draw)
  {
    hide FileWrites;
    assert first + 0 == first;
  }

  /** The inner loop of `transform_music`: `process_file` on each file of one
      label folder, in the given order, the `k`-th taking draw `first + k`. */
  method ProcessFolder<T>(folderName: string, musicFiles: seq<string>, first: nat,
                          load: string -> Audio<T>, draw: nat -> TestDraw)
    returns (outputs: seq<seq<Write<T>>>)
    ensures ProcessedFrom(FolderPaths(folderName, musicFiles), outputs, first, load, draw)
  {
    hide FileWrites;
    outputs := [];
    var j := 0;
    while j < |musicFiles|
      invariant 0 <= j <= |musicFiles|
      invariant ProcessedFrom(FolderPaths(folderName, musicFiles[..j]), outputs, first, load, draw)
    {
      var path := PathJoin(folderName, musicFiles[j]);
      var fileWrites := ProcessFile(path, load(path), draw(first + j));
      assert musicFiles[..j + 1][..j] == musicFiles[..j];
      FolderPathsIndex(folderName, musicFiles[..j]);
      ProcessedOne(path, fileWrites, first + j, load, draw);
      ProcessedAppend(FolderPaths(folderName, musicFiles[..j]), outputs, [path], [fileWrites], first, first + j, load, draw);
      outputs := outputs + [fileWrites];
      j := j + 1;
    }
    assert musicFiles[..j] == musicFiles;
  }

  /** `transform_music(labels)`, with the label folders' listings given by
      `listing`, `librosa.load` by `load` and the successive draws of
      `random.randint(0, 14)` by `draw`. `calls` are the paths handed to
      `process_file`, in order, and `outputs[k]` is what the `k`-th call
      saves, using draw `k`. */
  method TransformMusic<T>(labels: seq<string>, listing: map<string, seq<string>>,
                           load: string -> Audio<T>, draw: nat -> TestDraw)
    returns (calls: seq<string>, outputs: seq<seq<Write<T>>>, complete: bool)
    ensures calls == Planned(labels, listing).paths
    ensures complete == Planned(labels, listing).complete
    ensures ProcessedFrom(calls, outputs, 0, load, draw)
  {
    hide FileWrites, FolderPaths, Sort, FolderName;
    calls, outputs := [], [];
    complete := true;
    var i := 0;
    while i < |labels|
      invariant 0 <= i <= |labels|
      invariant Planned(labels, listing).paths == calls + PlanFrom(labels, i, listing).paths
      invariant Planned(labels, listing).complete == PlanFrom(labels, i, listing).complete
      invariant ProcessedFrom(calls, outputs, 0, load, draw)
    {
      var folderName := FolderName(labels[i]);
      if folderName !in listing {
        complete := false;
        assert PlanFrom(labels, i, listing) == Plan([], false);
        assert calls + [] == calls;
        return;
      }
      var musicFiles := Sort(listing[folderName]);
      var folderOutputs := ProcessFolder(folderName, musicFiles, |calls|, load, draw);
      var folderPaths := FolderPaths(folderName, musicFiles);
      ghost var rest := PlanFrom(labels, i + 1, listing);
      assert PlanFrom(labels, i, listing) == Plan(folderPaths + rest.paths, rest.complete);
      ConcatAssociative(calls, folderPaths, rest.paths);
      ProcessedAppend(calls, outputs, folderPaths, folderOutputs, 0, |calls|, load, draw);
      outputs := outputs + folderOutputs;
      calls := calls + folderPaths;
      i := i + 1;
    }
    assert PlanFrom(labels, i, listing) == Plan([], true);
    assert calls + [] == calls;
  }

  /** The run gets through the labels from `i` on exactly when each of their
      folders exists. */
  lemma {:induction false} PlanFromCompleteIff(labels: seq<string>, i: nat, listing: map<string, seq<string>>)
    requires i <= |labels|
    ensures PlanFrom(labels, i, listing).complete <==>
              forall k :: i <= k < |labels| ==> FolderName(labels[k]) in listing
    decreases |labels| - i
  {
    if i < |labels| {
      PlanFromCompleteIff(labels, i + 1, listing);
    }
  }

  /** The run gets through every label exactly when every label's folder
      exists. */
  lemma PlannedCompleteIff(labels: seq<string>, listing: map<string, seq<string>>)
    ensures Planned(labels, listing).complete <==>
              forall k :: 0 <= k < |labels| ==> FolderName(labels[k]) in listing
  {
    PlanFromCompleteIff(labels, 0, listing);
  }

  lemma {:induction false} PlanFromIgnoresListingOrder(labels: seq<string>, i: nat, l1: map<string, seq<string>>,
                                                       l2: map<string, seq<string>>)
    requires i <= |labels|
    requires l1.Keys == l2.Keys
    requires forall d :: d in l1 ==> multiset(l1[d]) == multiset(l2[d])
    ensures PlanFrom(labels, i, l1) == PlanFrom(labels, i, l2)
    decreases |labels| - i
  {
    if i < |labels| {
      PlanFromIgnoresListingOrder(labels, i + 1, l1, l2);
      var folder := FolderName(labels[i]);
      if folder in l1 {
        SortDependsOnlyOnContents(l1[folder], l2[folder]);
      }
    }
  }

  /** The files processed, and their order, depend only on which files each
      folder holds, not on the order `os.listdir` lists them in: each folder
      is walked in sorted order. */
  lemma PlannedIgnoresListingOrder(labels: seq<string>, l1: map<string, seq<string>>, l2: map<string, seq<string>>)
    requires l1.Keys == l2.Keys
    requires forall d :: d in l1 ==> multiset(l1[d]) == multiset(l2[d])
    ensures Planned(labels, l1) == Planned(labels, l2)
  {
    PlanFromIgnoresListingOrder(labels, 0, l1, l2);
  }

  /** The labels are taken in order: the plan for `l1 + l2` is the plan for
      `l1`, followed by the plan for `l2` when `l1` completes. */
  lemma {:induction false} PlanFromAppend(l1: seq<string>, l2: seq<string>, i: nat, listing: map<string, seq<string>>)
    requires i <= |l1|
    ensures var p1 := PlanFrom(l1, i, listing);
            PlanFrom(l1 + l2, i, listing) ==
              if p1.complete then Plan(p1.paths + Planned(l2, listing).paths, Planned(l2, listing).complete) else p1
    decreases |l1| - i
  {
    hide FolderPaths, Sort, FolderName;
    if i == |l1| {
      PlanFromShift(l1, l2, 0, listing);
    } else {
      assert (l1 + l2)[i] == l1[i];
      PlanFromAppend(l1, l2, i + 1, listing);
    }
  }

  lemma {:induction false} PlanFromShift(l1: seq<string>, l2: seq<string>, k: nat, listing: map<string, seq<string>>)
    requires k <= |l2|
    ensures PlanFrom(l1 + l2, |l1| + k, listing) == PlanFrom(l2, k, listing)
    decreases |l2| - k
  {
    if k < |l2| {
      assert (l1 + l2)[|l1| + k] == l2[k];
      PlanFromShift(l1, l2, k + 1, listing);
    }
  }

  /** A label folder's files are processed in sorted order, each once. */
  lemma PlannedFolderOrder(labelName: string, listing: map<string, seq<string>>)
    requires FolderName(labelName) in listing
    ensures var files := Sort(listing[FolderName(labelName)]);
            Planned([labelName], listing) == Plan(FolderPaths(FolderName(labelName), files), true) &&
            Sorted(files) && multiset(files) == multiset(listing[FolderName(labelName)])
  {
    var folder := FolderName(labelName);
    var files := Sort(listing[folder]);
    SortIsSortedPermutation(listing[folder]);
    assert PlanFrom([labelName], 1, listing) == Plan([], true);
    assert Planned([labelName], listing) == Plan(FolderPaths(folder, files) + [], true);
    assert FolderPaths(folder, files) + [] == FolderPaths(folder, files);
  }

  /** Label `j`'s files, when its folder and those of the labels before it
      exist, are processed in sorted order as one contiguous run, right after
      the files of the labels before it. */
  lemma PlannedBlock(labels: seq<string>, listing: map<string, seq<string>>, j: nat)
    requires j < |labels| && forall k :: 0 <= k <= j ==> FolderName(labels[k]) in listing
    ensures var start := |Planned(labels[..j], listing).paths|;
            var files := FolderPaths(FolderName(labels[j]), Sort(listing[FolderName(labels[j])]));
            start + |files| <= |Planned(labels, listing).paths| &&
            Planned(labels, listing).paths[start..start + |files|] == files
  {
    var before, from := labels[..j], labels[j..];
    assert before + from == labels;
    PlannedCompleteIff(before, listing);
    PlanFromAppend(before, from, 0, listing);
    assert from[0] == labels[j];
    hide FolderPaths, Sort, FolderName, PlanFrom;
    var p1 := Planned(before, listing).paths;
    var files := FolderPaths(FolderName(labels[j]), Sort(listing[FolderName(labels[j])]));
    PlanFromFirst(from, listing);
    var rest := PlanFrom(from, 1, listing).paths;
    assert Planned(labels, listing).paths == p1 + (files + rest);
    assert (p1 + (files + rest))[|p1|..|p1| + |files|] == files;
  }

  /** Unfolding the plan at its first label, whose folder exists. */
  lemma PlanFromFirst(labels: seq<string>, listing: map<string, seq<string>>)
    requires labels != [] && FolderName(labels[0]) in listing
    ensures Planned(labels, listing).paths ==
              FolderPaths(FolderName(labels[0]), Sort(listing[FolderName(labels[0])])) + PlanFrom(labels, 1, listing).paths
  {
  }

  // ---------------------------------------------------------------------
  // create_csv

  const Header: seq<string> := ["file_name", "caption_column"]

  /** `" ".join(image.split("_")[:2]) + " spectrogram"`. */
  function Caption(image: string): string
  {
    var tokens := Split(image, '_');
    Join(" ", tokens[..Min(2, |tokens|)]) + " spectrogram"
  }

  /** `[path.split("/")[-1] + "/" + image, caption]`. */
  function CsvRow(path: string, image: string): seq<string>
  {
    [LastComponent(path, '/') + "/" + image, Caption(image)]
  }

  function FolderRows(path: string, images: seq<string>): seq<seq<string>>
  {
    seq(|images|, j requires 0 <= j < |images| => CsvRow(path, images[j]))
  }

  predicate AllListed(paths: seq<string>, listing: map<string, seq<string>>)
  {
    forall k :: 0 <= k < |paths| ==> paths[k] in listing
  }

  /** The caption rows: for each path in the given order, one row per image
      it lists, in sorted order. */
  function CsvRows(paths: seq<string>, listing: map<string, seq<string>>): seq<seq<string>>
    requires AllListed(paths, listing)
  {
    if paths == [] then []
    else
      var n := |paths| - 1;
      CsvRows(paths[..n], listing) + FolderRows(paths[n], Sort(listing[paths[n]]))
  }

  /** The rows written to `data/metadata.csv`; `None` when some path cannot
      be listed, where `os.listdir` raises before the file is opened. */
  function CsvTable(paths: seq<string>, listing: map<string, seq<string>>): Option<seq<seq<string>>>
  {
    if AllListed(paths, listing) then Some([Header] + CsvRows(paths, listing)) else None
  }

  /** `create_csv(paths)`, with the directories' listings given by `listing`. */
  method CreateCsv(paths: seq<string>, listing: map<string, seq<string>>) returns (table: Option<seq<seq<string>>>)
    ensures table == CsvTable(paths, listing)
  {
    hide Caption, LastComponent, Sort;
    var fields := Header;
    var captions: seq<seq<string>> := [];
    var i := 0;
    while i < |paths|
      invariant 0 <= i <= |paths|
      invariant AllListed(paths[..i], listing)
      invariant captions == CsvRows(paths[..i], listing)
    {
      var path := paths[i];
      if path !in listing {
        return None;
      }
      var images := Sort(listing[path]);
      var j := 0;
      while j < |images|
        invariant 0 <= j <= |images|
        invariant captions == CsvRows(paths[..i], listing) + FolderRows(path, images[..j])
      {
        var image := images[j];
        assert FolderRows(path, images[..j + 1]) == FolderRows(path, images[..j]) + [CsvRow(path, image)];
        captions := captions + [[LastComponent(path, '/') + "/" + image, Caption(image)]];
        j := j + 1;
      }
      assert images[..j] == images;
      assert paths[..i + 1][..i] == paths[..i];
      i := i + 1;
    }
    assert paths[..i] == paths;
    table := Some([fields] + captions);
  }

  /** Rows of consecutive groups of paths are consecutive: for each path in
      the given order, its images' rows. */
  lemma {:induction false} CsvRowsAppend(p1: seq<string>, p2: seq<string>, listing: map<string, seq<string>>)
    requires AllListed(p1, listing) && AllListed(p2, listing)
    ensures AllListed(p1 + p2, listing)
    ensures CsvRows(p1 + p2, listing) == CsvRows(p1, listing) + CsvRows(p2, listing)
  {
    hide FolderRows, Sort;
    if p2 == [] {
      assert p1 + p2 == p1;
    } else {
      var n := |p2| - 1;
      var p := p1 + p2;
      assert p[..|p1| + n] == p1 + p2[..n];
      assert p[|p1| + n] == p2[n];
      CsvRowsAppend(p1, p2[..n], listing);
      var rows := FolderRows(p2[n], Sort(listing[p2[n]]));
      assert CsvRows(p, listing) == CsvRows(p1 + p2[..n], listing) + rows;
      assert CsvRows(p2, listing) == CsvRows(p2[..n], listing) + rows;
      ConcatAssociative(CsvRows(p1, listing), CsvRows(p2[..n], listing), rows);
    }
  }

  /** The table starts with the header, every row has two fields, and the
      rows for one path are its images, sorted, each once, with the folder's
      last component prefixed and the caption beside it. */
  lemma CsvTableShape(paths: seq<string>, listing: map<string, seq<string>>)
    requires AllListed(paths, listing)
    ensures CsvTable(paths, listing).Some? && CsvTable(paths, listing).value[0] == Header
    ensures forall r :: r in CsvTable(paths, listing).value ==> |r| == 2
    ensures |paths| == 1 ==>
              var images := Sort(listing[paths[0]]);
              CsvTable(paths, listing).value[1..] == FolderRows(paths[0], images) &&
              Sorted(images) && multiset(images) == multiset(listing[paths[0]])
  {
    CsvRowsWidth(paths, listing);
    if |paths| == 1 {
      SortIsSortedPermutation(listing[paths[0]]);
      SinglePathRows(paths, listing);
      hide Sort, FolderRows, CsvRows;
      var rows := FolderRows(paths[0], Sort(listing[paths[0]]));
      assert ([Header] + rows)[1..] == rows;
    }
  }

  /** In the table of several paths, path `j`'s rows are its images,
      sorted, as one contiguous run right after the rows of the paths before
      it (the header being row 0). */
  lemma CsvTableBlock(paths: seq<string>, listing: map<string, seq<string>>, j: nat)
    requires AllListed(paths, listing) && j < |paths|
    ensures AllListed(paths[..j], listing)
    ensures var start := 1 + |CsvRows(paths[..j], listing)|;
            var images := Sort(listing[paths[j]]);
            var rows := FolderRows(paths[j], images);
            var table := CsvTable(paths, listing).value;
            start + |rows| <= |table| && table[start..start + |rows|] == rows &&
            Sorted(images) && multiset(images) == multiset(listing[paths[j]])
  {
    hide Sort, FolderRows, CsvRows;
    CsvRowsAround(paths, listing, j);
    SortIsSortedPermutation(listing[paths[j]]);
    var rows := FolderRows(paths[j], Sort(listing[paths[j]]));
    var r0 := CsvRows(paths[..j], listing);
    var table := [Header] + ((r0 + rows) + CsvRows(paths[j + 1..], listing));
    assert CsvTable(paths, listing).value == table;
    assert table[1 + |r0|..1 + |r0| + |rows|] == rows;
  }

  /** The rows of the paths before `j`, then path `j`'s, then those after. */
  lemma CsvRowsAround(paths: seq<string>, listing: map<string, seq<string>>, j: nat)
    requires AllListed(paths, listing) && j < |paths|
    ensures AllListed(paths[..j], listing) && AllListed(paths[j + 1..], listing)
    ensures CsvRows(paths, listing) ==
              (CsvRows(paths[..j], listing) + FolderRows(paths[j], Sort(listing[paths[j]]))) +
              CsvRows(paths[j + 1..], listing)
  {
    hide Sort, FolderRows;
    var before, tail := paths[..j + 1], paths[j + 1..];
    assert before + tail == paths;
    assert before[..j] == paths[..j] && before[j] == paths[j];
    assert AllListed(before, listing) && AllListed(tail, listing);
    CsvRowsAppend(before, tail, listing);
  }

  lemma SinglePathRows(paths: seq<string>, listing: map<string, seq<string>>)
    requires |paths| == 1 && AllListed(paths, listing)
    ensures CsvRows(paths, listing) == FolderRows(paths[0], Sort(listing[paths[0]]))
  {
    hide Sort, FolderRows;
    assert paths[..0] == [];
    assert CsvRows(paths, listing) == CsvRows(paths[..0], listing) + FolderRows(paths[0], Sort(listing[paths[0]]));
  }

  lemma {:induction false} CsvRowsWidth(paths: seq<string>, listing: map<string, seq<string>>)
    requires AllListed(paths, listing)
    ensures forall r :: r in CsvRows(paths, listing) ==> |r| == 2
  {
    if paths != [] {
      CsvRowsWidth(paths[..|paths| - 1], listing);
    }
  }

  /** On an unchanged tree the table is the same whatever order `os.listdir`
      returns the names in. */
  lemma {:induction false} CsvIgnoresListingOrder(paths: seq<string>, l1: map<string, seq<string>>,
                                                  l2: map<string, seq<string>>)
    requires l1.Keys == l2.Keys
    requires forall d :: d in l1 ==> multiset(l1[d]) == multiset(l2[d])
    ensures CsvTable(paths, l1) == CsvTable(paths, l2)
  {
    if AllListed(paths, l1) {
      CsvRowsIgnoreListingOrder(paths, l1, l2);
    }
  }

  lemma {:induction false} CsvRowsIgnoreListingOrder(paths: seq<string>, l1: map<string, seq<string>>,
                                                     l2: map<string, seq<string>>)
    requires l1.Keys == l2.Keys
    requires forall d :: d in l1 ==> multiset(l1[d]) == multiset(l2[d])
    requires AllListed(paths, l1)
    ensures AllListed(paths, l2) && CsvRows(paths, l1) == CsvRows(paths, l2)
  {
    if paths != [] {
      var n := |paths| - 1;
      CsvRowsIgnoreListingOrder(paths[..n], l1, l2);
      SortDependsOnlyOnContents(l1[paths[n]], l2[paths[n]]);
    }
  }

  /** A name without `_` is captioned as itself followed by " spectrogram". */
  lemma CaptionOfOneToken(a: string)
    requires '_' !in a
    ensures Caption(a) == a + " spectrogram"
  {
    SplitWithoutSeparator(a, '_');
    assert Split(a, '_')[..Min(2, 1)] == [a];
  }

  /** A name `a_b` (with no further `_`) is captioned "a b spectrogram"; the
      second token keeps whatever follows it, such as the extension. */
  lemma CaptionOfTwoTokens(a: string, b: string)
    requires '_' !in a && '_' !in b
    ensures Caption(a + "_" + b) == a + " " + b + " spectrogram"
  {
    SplitWithoutSeparator(a, '_');
    SplitWithoutSeparator(b, '_');
    SplitAround(a, b, '_');
    var tokens := Split(a + "_" + b, '_');
    assert tokens == [a, b];
    assert tokens[..Min(2, |tokens|)] == [a, b];
    assert Join(" ", [a, b]) == a + " " + Join(" ", [b]);
  }

  /** Only the first two `_`-separated tokens make it into the caption. */
  lemma CaptionOfMoreTokens(a: string, b: string, rest: string)
    requires '_' !in a && '_' !in b
    ensures Caption(a + "_" + b + "_" + rest) == a + " " + b + " spectrogram"
  {
    SplitWithoutSeparator(a, '_');
    SplitWithoutSeparator(b, '_');
    var tail := b + "_" + rest;
    assert a + "_" + b + "_" + rest == a + "_" + tail;
    SplitAround(a, tail, '_');
    SplitAround(b, rest, '_');
    var tokens := Split(a + "_" + b + "_" + rest, '_');
    assert tokens == [a] + ([b] + Split(rest, '_'));
    assert tokens[..Min(2, |tokens|)] == [a, b];
    assert Join(" ", [a, b]) == a + " " + Join(" ", [b]);
  }

  /** The caption of an image `process_file` saved names no label: for a
      stem without `_` it is the image's own name followed by
      " spectrogram". */
  lemma CaptionOfOutputName(stem: string, k: nat)
    requires '_' !in stem
    ensures Caption(stem + "-" + NatToString(k) + ".jpeg") == stem + "-" + NatToString(k) + ".jpeg spectrogram"
  {
    var name := stem + "-" + NatToString(k) + ".jpeg";
    NatToStringDigits(k);
    forall c | 0 <= c < |name| ensures name[c] != '_' {
      if c < |stem| {
        assert name[c] == stem[c];
      } else if c > |stem| && c < |stem| + 1 + |NatToString(k)| {
        assert name[c] == NatToString(k)[c - |stem| - 1];
      }
    }
    CaptionOfOneToken(name);
  }

  /** A stem with exactly one `_` is split there: the caption is the two
      halves joined by a space, the ordinal and extension kept on the second. */
  lemma CaptionOfOutputNameOneUnderscore(a: string, b: string, k: nat)
    requires '_' !in a && '_' !in b
    ensures Caption(a + "_" + b + "-" + NatToString(k) + ".jpeg")
            == a + " " + b + "-" + NatToString(k) + ".jpeg spectrogram"
  {
    var tail := b + "-" + NatToString(k) + ".jpeg";
    NatToStringDigits(k);
    forall c | 0 <= c < |tail| ensures tail[c] != '_' {
      if c < |b| {
        assert tail[c] == b[c];
      } else if c > |b| && c < |b| + 1 + |NatToString(k)| {
        assert tail[c] == NatToString(k)[c - |b| - 1];
      }
    }
    assert a + "_" + b + "-" + NatToString(k) + ".jpeg" == a + "_" + tail;
    CaptionOfTwoTokens(a, tail);
  }

  /** A stem with two or more `_` loses everything after its second token:
      the caption carries neither the ordinal nor the extension, so the
      captions of one file's segments all coincide. */
  lemma CaptionOfOutputNameManyUnderscores(a: string, b: string, rest: string, k: nat)
    requires '_' !in a && '_' !in b
    ensures Caption(a + "_" + b + "_" + rest + "-" + NatToString(k) + ".jpeg") == a + " " + b + " spectrogram"
  {
    var tail := rest + "-" + NatToString(k) + ".jpeg";
    assert a + "_" + b + "_" + rest + "-" + NatToString(k) + ".jpeg" == a + "_" + b + "_" + tail;
    CaptionOfMoreTokens(a, b, tail);
  }
}
