/** The window arithmetic of `process_file` (music_processor.py): how many
    15-second windows a signal has, which of them are taken, and which
    samples each taken segment holds. The signal's samples are opaque. */
module Segmenter {

  /** `segment_seconds`: the length of one window in seconds. */
  const SegmentSeconds: nat := 15
  /** The cap on the number of segments taken from one file, which is also
      the divisor that spreads the taken windows over the file. */
  const MaxSegments: nat := 15

  /** A sampling rate in Hz (librosa resamples to 22050 unless told otherwise). */
  type Rate = r: nat | r > 0 witness 22050

  function Min(a: int, b: int): int
  {
    if a <= b then a else b
  }

  /** `segment_length = sr * segment_seconds`. */
  function WindowLength(sr: Rate): (L: nat)
    ensures L >= SegmentSeconds
  {
    sr * SegmentSeconds
  }

  /** `number_sections = int(np.ceil(len(y) / segment_length))`, read as the
      exact integer ceiling. */
  function NumberSections(len: nat, L: nat): nat
    requires L > 0
  {
    (len + L - 1) / L
  }

  /** `number_sections` is the number of windows needed to cover the signal:
      none for an empty signal, and otherwise the last one starts inside it. */
  lemma CeilingBounds(len: nat, L: nat)
    requires L > 0
    ensures NumberSections(len, L) == 0 <==> len == 0
    ensures NumberSections(len, L) > 0 ==>
              (NumberSections(len, L) - 1) * L < len <= NumberSections(len, L) * L
  {
    var n := NumberSections(len, L);
    var r := (len + L - 1) % L;
    assert len + L - 1 == n * L + r;
    assert n * L - L == (n - 1) * L;
    assert 0 * L == 0;
    if len == 0 {
      assert n == 0;
    } else {
      assert n * L >= len;
    }
  }

  /** The number of segments taken: `min(number_sections, 15)`. */
  function SegmentCount(len: nat, L: nat): nat
    requires L > 0
  {
    Min(NumberSections(len, L), MaxSegments)
  }

  /** `int((number_sections / 15) * i)`, read as the floor of `n * i / 15`. */
  function WindowIndex(n: nat, i: nat): nat
  {
    n * i / MaxSegments
  }

  function SegmentStart(n: nat, i: nat, L: nat): nat
  {
    WindowIndex(n, i) * L
  }

  /** `y[lo:hi]` for non-negative bounds: Python clamps both to the length. */
  function Slice<T>(y: seq<T>, lo: nat, hi: nat): seq<T>
  {
    var a := Min(lo, |y|);
    var b := Min(hi, |y|);
    if a <= b then y[a..b] else []
  }

  /** `y[lo:hi]` holds the samples from `lo` up to `hi` or the end, whichever
      comes first, and nothing when `lo` is past either. */
  lemma SliceContents<T>(y: seq<T>, lo: nat, hi: nat)
    ensures |Slice(y, lo, hi)| == if lo < hi && lo < |y| then Min(hi, |y|) - lo else 0
    ensures forall k :: 0 <= k < |Slice(y, lo, hi)| ==> Slice(y, lo, hi)[k] == y[lo + k]
  {
  }

  /** Segment `i` of the signal: `y[w * L : (w + 1) * L]` for its window
      index `w`. */
  function Segment<T>(y: seq<T>, L: nat, i: nat): seq<T>
    requires L > 0
  {
    var start := SegmentStart(NumberSections(|y|, L), i, L);
    Slice(y, start, start + L)
  }

  lemma MulMonotone(a: nat, b: nat, c: nat)
    requires a <= b
    ensures a * c <= b * c
  {
  }

  lemma MulCancelLt(a: nat, b: nat, c: nat)
    requires a * c < b * c
    ensures a < b
  {
    if a >= b {
      MulMonotone(b, a, c);
      assert false;
    }
  }

  lemma DivMonotone(a: nat, b: nat)
    requires a <= b
    ensures a / MaxSegments <= b / MaxSegments
  {
  }

  /** Every taken window is one of the signal's windows: `w <= n - 1`,
      because `i <= 14` makes `n * i < 15 * n`. */
  lemma WindowExists(n: nat, i: nat)
    requires i < Min(n, MaxSegments)
    ensures WindowIndex(n, i) < n
  {
    MulMonotone(i, MaxSegments - 1, n);
    assert n * i <= n * (MaxSegments - 1);
    assert n * i < n * MaxSegments;
    var w := WindowIndex(n, i);
    assert w * MaxSegments <= n * i;
    MulCancelLt(w, n, MaxSegments);
  }

  /** Segment `i` starts inside the signal and holds `min(L, len - start)`
      samples, never reaching past the end; so it is never empty. */
  lemma SegmentInBounds<T>(y: seq<T>, L: nat, i: nat)
    requires L > 0 && i < SegmentCount(|y|, L)
    ensures SegmentStart(NumberSections(|y|, L), i, L) < |y|
    ensures var start := SegmentStart(NumberSections(|y|, L), i, L);
            |Segment(y, L, i)| == Min(L, |y| - start) > 0 &&
            Segment(y, L, i) == y[start..start + |Segment(y, L, i)|]
  {
    var n := NumberSections(|y|, L);
    CeilingBounds(|y|, L);
    WindowExists(n, i);
    MulMonotone(WindowIndex(n, i), n - 1, L);
    var start := SegmentStart(n, i, L);
    var s := Segment(y, L, i);
    assert start < |y|;
    assert |s| == Min(L, |y| - start);
    assert s == y[start..start + |s|];
  }

  /** The first segment starts at sample 0. */
  lemma FirstSegmentAtStart<T>(y: seq<T>, L: nat)
    requires L > 0 && |y| > 0
    ensures SegmentStart(NumberSections(|y|, L), 0, L) == 0
    ensures Segment(y, L, 0) == y[..Min(L, |y|)]
  {
  }

  /** Later segments never come from earlier windows. */
  lemma WindowsNonDecreasing(n: nat, i: nat, j: nat)
    requires i <= j
    ensures WindowIndex(n, i) <= WindowIndex(n, j)
  {
    MulMonotone(i, j, n);
    DivMonotone(n * i, n * j);
  }

  /** With at least 15 windows, the taken windows are strictly increasing,
      so the segments are pairwise disjoint and in signal order. */
  lemma WindowsIncreasingWhenLong(n: nat, i: nat, j: nat, L: nat)
    requires n >= MaxSegments && i < j
    ensures WindowIndex(n, i) < WindowIndex(n, j)
    ensures SegmentStart(n, i, L) + L <= SegmentStart(n, j, L)
  {
    MulMonotone(i + 1, j, n);
    assert n * j >= n * i + n;
    DivMonotone(n * i + MaxSegments, n * j);
    assert (n * i + MaxSegments) / MaxSegments == n * i / MaxSegments + 1;
    MulMonotone(WindowIndex(n, i) + 1, WindowIndex(n, j), L);
  }

  /** With fewer than 15 windows (but at least two), segments 0 and 1 are the
      same window: the code repeats windows instead of taking each once. */
  lemma ShortFilesRepeatFirstWindow<T>(y: seq<T>, L: nat)
    requires L > 0 && 2 <= NumberSections(|y|, L) < MaxSegments
    ensures 2 <= SegmentCount(|y|, L)
    ensures Segment(y, L, 1) == Segment(y, L, 0)
  {
    var n := NumberSections(|y|, L);
    assert WindowIndex(n, 1) == 0;
  }

  /** With at most four windows every taken segment is the first window. */
  lemma AtMostFourWindowsAllFirst(n: nat, i: nat)
    requires n <= 4 && i < n
    ensures WindowIndex(n, i) == 0
  {
    MulMonotone(i, 3, n);
    MulMonotone(n, 4, 3);
  }

  /** A taken segment shorter than a full window is the signal's last window,
      and that happens only when there is a single window or exactly 15. */
  lemma ShortSegmentIsFinalWindow<T>(y: seq<T>, L: nat, i: nat)
    requires L > 0 && i < SegmentCount(|y|, L)
    requires |Segment(y, L, i)| < L
    ensures WindowIndex(NumberSections(|y|, L), i) == NumberSections(|y|, L) - 1
    ensures NumberSections(|y|, L) == 1 || NumberSections(|y|, L) == MaxSegments
  {
    var n := NumberSections(|y|, L);
    var w := WindowIndex(n, i);
    SegmentInBounds(y, L, i);
    CeilingBounds(|y|, L);
    WindowExists(n, i);
    hide Segment, Slice, NumberSections, WindowIndex;
    // the segment is cut short, so the signal ends inside window w
    assert (w + 1) * L == w * L + L;
    LastWindow(n, w, L, |y|);
    FinalWindowCount(n, i);
  }

  /** A window that reaches past the end of the signal is its last one. */
  lemma LastWindow(n: nat, w: nat, L: nat, len: nat)
    requires w < n && (n - 1) * L < len < (w + 1) * L
    ensures w == n - 1
  {
    MulCancelLt(n - 1, w + 1, L);
  }

  /** When taken segment `i` is the last of `n` windows, `n * i / 15 == n - 1`
      with `i <= min(n, 15) - 1`, which leaves only `n == 1` and `n == 15`. */
  lemma FinalWindowCount(n: nat, i: nat)
    requires i < Min(n, MaxSegments) && WindowIndex(n, i) == n - 1
    ensures n == 1 || n == MaxSegments
  {
    // w * 15 <= n * i together with i <= 14 bounds n by 15 ...
    assert (n - 1) * MaxSegments <= n * i;
    MulMonotone(i, MaxSegments - 1, n);
    assert n <= MaxSegments;
    // ... and together with i <= n - 1 bounds n from below when n > 1
    if n > 1 {
      MulMonotone(i, n - 1, n);
      assert (n - 1) * MaxSegments <= (n - 1) * n;
      MulCancelLe(MaxSegments, n, n - 1);
    }
  }

  lemma MulCancelLe(a: nat, b: nat, c: nat)
    requires c > 0 && c * a <= c * b
    ensures a <= b
  {
    if a > b {
      MulMonotone(b + 1, a, c);
      assert false;
    }
  }

  /** A non-empty signal no longer than one window yields exactly one
      segment, holding all of it. */
  lemma SignalShorterThanWindow<T>(y: seq<T>, L: nat)
    requires L > 0 && 0 < |y| <= L
    ensures SegmentCount(|y|, L) == 1
    ensures Segment(y, L, 0) == y
  {
    CeilingBounds(|y|, L);
    var n := NumberSections(|y|, L);
    if n > 1 {
      MulMonotone(1, n - 1, L);
    }
  }

  /** A 60-second signal sampled at 22050 Hz has four windows, and all four
      segments taken are its first 15 seconds. */
  lemma SixtySecondsAt22050<T>(y: seq<T>)
    requires |y| == 60 * 22050
    ensures SegmentCount(|y|, WindowLength(22050)) == 4
    ensures forall i :: 0 <= i < 4 ==> Segment(y, WindowLength(22050), i) == y[..WindowLength(22050)]
  {
    var L := WindowLength(22050);
    assert L == 330750;
    assert NumberSections(|y|, L) == 4;
    forall i | 0 <= i < 4 ensures Segment(y, L, i) == y[..L] {
      AtMostFourWindowsAllFirst(4, i);
    }
  }
}
