/** libsrc/diskrw.c: ReadDiskData for one channel. Disk files are scrolled into a circular buffer of `c`
    cells; times are counted in samples. */
module DiskRing {

  /** The stretch of time the buffer shows, `end` included; the sample of `start` is in cell `index`. */
  datatype Window = Window(start: int, end: int, index: int, wrapped: bool)

  /** One file. `scroll` is false for the first file of a display. */
  datatype File = File(scroll: bool, start: int, samples: seq<int>)

  datatype Ring = Ring(win: Window, raw: seq<int>, filt: seq<int>, next: int)

  /** A time difference plus a small offset, cast to an integer: the cast truncates toward zero, so a
      negative difference comes out one too large. */
  function Ticks(d: int): int { if d < 0 then d + 1 else d }

  /** A cell number that has run at most once past the end of the buffer. */
  function Cell(c: nat, x: int): int { if x >= c then x - c else x }

  // ----- the bookkeeping

  function Length(w: Window): int { Ticks(w.end - w.start) + 1 }

  /** The last tick of the file. */
  function Last(f: File): int { f.start + |f.samples| - 1 }

  function Moved(c: nat, w: Window, f: File): Window {
    if !f.scroll then
      Window(f.start, Last(f), 0, false)
    else if f.start < w.start then
      var i := w.index - Ticks(w.start - f.start);
      var v := Window(f.start, w.end, if i < 0 then i + c else i, w.wrapped || i < 0);
      if Length(v) > c then v.(end := v.end - (Length(v) - c)) else v
    else if Last(f) > w.end then
      var v := w.(end := Last(f));
      if Length(v) > c then
        var extra := Length(v) - c;
        Window(v.start + extra, v.end, Cell(c, v.index + extra), true)
      else v
    else w
  }

  /** Where the samples of the file go; `v` is the window after the move. */
  function WriteIndex(c: nat, v: Window, f: File): int {
    Cell(c, Ticks(f.start - v.start) + v.index)
  }

  /** The cell after the newest sample, counted from 1 to `c`. */
  function NextIndex(c: nat, v: Window): int {
    var x := v.index + Length(v);
    if x > c then x - c else x
  }

  /** How far cell `i` is from cell `w`, going forward round the ring. */
  function Distance(c: nat, w: int, i: int): int { if i >= w then i - w else i - w + c }

  function Written(c: nat, raw: seq<int>, w: int, x: seq<int>): (r: seq<int>)
    requires 0 <= w < c
    ensures |r| == |raw|
  {
    seq(|raw|, i requires 0 <= i < |raw| => if 0 <= Distance(c, w, i) < |x| then x[Distance(c, w, i)] else raw[i])
  }

  /** The index stays inside the buffer: a backward jump may not exceed the index by more than one turn,
      nor a forward one bring it to two turns; a first file must fit. */
  predicate Fits(c: nat, w: Window, f: File) {
    if !f.scroll then |f.samples| <= c
    else if f.start < w.start then w.start - f.start <= w.index + c
    else Last(f) - w.start + 1 + w.index < 3 * c
  }

  /** The samples of a file that is not refused start inside the buffer. */
  predicate WriteOk(c: nat, w: Window, f: File) {
    |f.samples| <= c ==> 0 <= WriteIndex(c, Moved(c, w, f), f) < c
  }

  /** The whole load. A file with more samples than cells is refused, but only after the window moved. */
  function Loaded(c: nat, r: Ring, f: File): Ring
    requires WriteOk(c, r.win, f)
  {
    var v := Moved(c, r.win, f);
    if |f.samples| > c then
      Ring(v, r.raw, r.filt, NextIndex(c, v))
    else
      var raw := Written(c, r.raw, WriteIndex(c, v, f), f.samples);
      Ring(v, raw, raw, NextIndex(c, v))
  }

  predicate WindowOk(c: nat, w: Window) {
    0 <= w.index < c && 0 <= w.end - w.start + 1 <= c
  }

  lemma MovedOk(c: nat, w: Window, f: File)
    requires WindowOk(c, w) && Fits(c, w, f)
    ensures WindowOk(c, Moved(c, w, f)) && WriteOk(c, w, f)
  {}

  /** `Fits` is exactly what keeps the window sound. */
  lemma FitsIff(c: nat, w: Window, f: File)
    requires WindowOk(c, w)
    ensures WindowOk(c, Moved(c, w, f)) <==> Fits(c, w, f)
  {}

  /** The flag is set when the start of the window has moved since the first file, and then only. While it
      is not set the window starts at cell 0, so its samples lie in order from there. */
  lemma UnwrappedStartsAtZero(c: nat, w: Window, f: File, t: int)
    requires WindowOk(c, w) && Fits(c, w, f) && (!w.wrapped ==> w.index == 0)
    ensures var v := Moved(c, w, f); v.wrapped <==> f.scroll && (w.wrapped || v.start != w.start)
    ensures var v := Moved(c, w, f);
      !v.wrapped ==> v.index == 0 && (v.start <= t <= v.end ==> Cell(c, v.index + (t - v.start)) == t - v.start)
  {}

  /** Two ways to fail, for every buffer and every sound window: a file one tick too far back drives the
      index to -1, */
  lemma FarBackFails(c: nat, w: Window, f: File)
    requires WindowOk(c, w) && f.scroll && f.start == w.start - (w.index + c + 1)
    ensures Moved(c, w, f).index == -1 && !Fits(c, w, f)
    ensures 0 < |f.samples| <= c ==> !WriteOk(c, w, f)
  {}

  /** and a first file with more samples than cells is refused, but leaves a window longer than the
      buffer. */
  lemma OversizedFirstFails(c: nat, r: Ring, f: File)
    requires !f.scroll && |f.samples| > c
    ensures WriteOk(c, r.win, f) && !WindowOk(c, Moved(c, r.win, f))
    ensures Loaded(c, r, f).raw == r.raw && Loaded(c, r, f).filt == r.filt
  {}

  /** The next first file that fits makes the window sound again, whatever it was. */
  lemma FirstFileRestores(c: nat, w: Window, f: File)
    requires c > 0 && !f.scroll && |f.samples| <= c
    ensures WindowOk(c, Moved(c, w, f)) && WriteOk(c, w, f)
  {}

  /** A jump of at most one buffer always fits. */
  lemma SmallJumpFits(c: nat, w: Window, f: File)
    requires WindowOk(c, w) && |f.samples| <= c
    requires f.scroll ==> w.start - c <= f.start && Last(f) <= w.end + c
    ensures Fits(c, w, f)
  {}

  lemma CellIsRemainder(c: nat, x: int)
    requires 0 <= x < 2 * c
    ensures Cell(c, x) == x % c
  {
    var q, r := x / c, x % c;
    AtLeastOne(q, c);
    AtLeastOne(q - 2, c);
    assert x == q * c + r && (q - 2) * c == q * c - 2 * c;
  }

  lemma AtLeastOne(d: int, c: nat)
    requires c > 0
    ensures d >= 1 ==> d * c >= c
    ensures d >= 0 ==> d * c >= 0
    ensures d < 0 ==> d * c + c <= 0
  {}

  // ----- the ring as a map from time to sample

  /** Every recorded sample of the window is in the cell its time calls for. */
  ghost predicate Holds(c: nat, r: Ring, m: map<int, int>) {
    WindowOk(c, r.win) && |r.raw| == c && |r.filt| == c &&
    forall t :: t in m ==>
      && r.win.start <= t <= r.win.end
      && r.raw[Cell(c, r.win.index + (t - r.win.start))] == m[t]
  }

  predicate Covers(f: File, t: int) { f.start <= t <= Last(f) }

  /** What a load should do: the samples of the file replace those recorded for the same times, and
      what falls out of the window is forgotten. */
  function MapLoad(c: nat, v: Window, m: map<int, int>, f: File): map<int, int> {
    map t | v.start <= t <= v.end && ((|f.samples| <= c && Covers(f, t)) || (f.scroll && t in m)) ::
      if |f.samples| <= c && Covers(f, t) then f.samples[t - f.start] else m[t]
  }

  /** A tick of the new window stays in its cell. */
  lemma CellStays(c: nat, w: Window, f: File, t: int)
    requires WindowOk(c, w) && Fits(c, w, f) && f.scroll
    requires var v := Moved(c, w, f); w.start <= t <= w.end && v.start <= t <= v.end
    ensures var v := Moved(c, w, f); Cell(c, v.index + (t - v.start)) == Cell(c, w.index + (t - w.start))
  {}

  /** A tick of the window is overwritten exactly when the file covers it. */
  lemma OverwrittenIff(c: nat, w: Window, f: File, t: int)
    requires WindowOk(c, w) && Fits(c, w, f) && |f.samples| <= c
    requires var v := Moved(c, w, f); v.start <= t <= v.end
    ensures var v := Moved(c, w, f);
      var d := Distance(c, WriteIndex(c, v, f), Cell(c, v.index + (t - v.start)));
      (0 <= d < |f.samples| <==> Covers(f, t)) && (Covers(f, t) ==> d == t - f.start)
  {}

  lemma LoadHoldsAt(c: nat, r: Ring, m: map<int, int>, f: File, t: int)
    requires Holds(c, r, m) && Fits(c, r.win, f) && WriteOk(c, r.win, f) && t in MapLoad(c, Moved(c, r.win, f), m, f)
    ensures var v := Moved(c, r.win, f); var i := Cell(c, v.index + (t - v.start));
      0 <= i < c && Loaded(c, r, f).raw[i] == MapLoad(c, v, m, f)[t]
  {
    hide Moved, Fits, Length, Distance, WriteIndex;
    var v := Moved(c, r.win, f);
    MovedOk(c, r.win, f);
    if f.scroll && t in m {
      CellStays(c, r.win, f, t);
    }
    if |f.samples| <= c {
      OverwrittenIff(c, r.win, f, t);
    }
  }

  /** One load keeps the ring in step with the map. */
  lemma {:induction false} LoadHolds(c: nat, r: Ring, m: map<int, int>, f: File)
    requires Holds(c, r, m) && Fits(c, r.win, f)
    ensures Holds(c, Loaded(c, r, f), MapLoad(c, Moved(c, r.win, f), m, f))
  {
    hide Moved, WriteIndex, WriteOk, Fits, Length, Distance, Cell;
    MovedOk(c, r.win, f);
    forall t | t in MapLoad(c, Moved(c, r.win, f), m, f)
      ensures var v := Moved(c, r.win, f); var i := Cell(c, v.index + (t - v.start));
        0 <= i < c && Loaded(c, r, f).raw[i] == MapLoad(c, v, m, f)[t]
    {
      LoadHoldsAt(c, r, m, f, t);
    }
  }

  // ----- runs

  /** Each file fits the window it meets. */
  predicate AllFit(c: nat, w: Window, fs: seq<File>)
    decreases |fs|
  {
    fs == [] || (Fits(c, w, fs[0]) && AllFit(c, Moved(c, w, fs[0]), fs[1..]))
  }

  /** No file has more samples than cells, and no jump is longer than the buffer. */
  predicate SmallJumps(c: nat, w: Window, fs: seq<File>)
    decreases |fs|
  {
    fs == [] ||
    (|fs[0].samples| <= c && (fs[0].scroll ==> w.start - c <= fs[0].start && Last(fs[0]) <= w.end + c) &&
     SmallJumps(c, Moved(c, w, fs[0]), fs[1..]))
  }

  /** Such files all fit. */
  lemma {:induction false} SmallJumpsAllFit(c: nat, w: Window, fs: seq<File>)
    requires WindowOk(c, w) && SmallJumps(c, w, fs)
    ensures AllFit(c, w, fs)
    decreases |fs|
  {
    hide Moved, Fits, WriteOk;
    if fs != [] {
      SmallJumpFits(c, w, fs[0]);
      MovedOk(c, w, fs[0]);
      SmallJumpsAllFit(c, Moved(c, w, fs[0]), fs[1..]);
    }
  }

  function Run(c: nat, r: Ring, fs: seq<File>): Ring
    requires WindowOk(c, r.win) && AllFit(c, r.win, fs)
    decreases |fs|
  {
    if fs == [] then r
    else
      MovedOk(c, r.win, fs[0]);
      Run(c, Loaded(c, r, fs[0]), fs[1..])
  }

  function MapRun(c: nat, w: Window, m: map<int, int>, fs: seq<File>): map<int, int>
    decreases |fs|
  {
    if fs == [] then m else
      var v := Moved(c, w, fs[0]);
      MapRun(c, v, MapLoad(c, v, m, fs[0]), fs[1..])
  }

  /** Over any sequence of loads the ring refines the map. */
  lemma {:induction false} RunHolds(c: nat, r: Ring, m: map<int, int>, fs: seq<File>)
    requires Holds(c, r, m) && AllFit(c, r.win, fs)
    ensures Holds(c, Run(c, r, fs), MapRun(c, r.win, m, fs))
    decreases |fs|
  {
    hide Moved, Fits, WriteIndex, Written, MapLoad, NextIndex;
    if fs != [] {
      LoadHolds(c, r, m, fs[0]);
      MovedOk(c, r.win, fs[0]);
      var v := Moved(c, r.win, fs[0]);
      RunHolds(c, Loaded(c, r, fs[0]), MapLoad(c, v, m, fs[0]), fs[1..]);
    }
  }

  // ----- how much a load keeps

  /** The stretch of time shown. */
  datatype Span = Span(first: int, last: int)

  /** A first file is shown alone. Another one draws the span out to where it begins or, if it does not
      begin earlier, to where it ends; at most `c` ticks are shown, counted from there. */
  function Shown(c: nat, w: Span, f: File): Span {
    var last := f.start + |f.samples| - 1;
    if !f.scroll then Span(f.start, last)
    else if f.start < w.first then Span(f.start, if w.last < f.start + c then w.last else f.start + c - 1)
    else if last > w.last then Span(if w.first > last - c then w.first else last - c + 1, last)
    else w
  }

  lemma WindowIsShown(c: nat, w: Window, f: File)
    requires WindowOk(c, w) && Fits(c, w, f)
    ensures var v := Moved(c, w, f); Span(v.start, v.end) == Shown(c, Span(w.start, w.end), f)
  {}

  /** The file is not too long and brings a sample for time `t`; one that begins earlier than the span
      brings nothing for times after it. */
  predicate Arrives(c: nat, w: Span, f: File, t: int) {
    |f.samples| <= c && f.start <= t < f.start + |f.samples| && (f.scroll && f.start < w.first ==> t <= w.last)
  }

  /** A time known before stays known, unless a first file is read, or the time lies `c` or more ticks after
      the start of a file that begins earlier than the span, or `c` or more ticks before the last tick of
      another file that ends later. */
  predicate Survives(c: nat, w: Span, f: File, t: int) {
    && f.scroll
    && (f.start < w.first ==> t < f.start + c)
    && (f.start >= w.first && f.start + |f.samples| - 1 > w.last ==> t > f.start + |f.samples| - 1 - c)
  }

  lemma KnownAfterLoadIff(c: nat, w: Window, m: map<int, int>, f: File, t: int)
    requires WindowOk(c, w) && Fits(c, w, f) && forall u :: u in m ==> w.start <= u <= w.end
    ensures var s := Span(w.start, w.end);
      t in MapLoad(c, Moved(c, w, f), m, f) <==> Arrives(c, s, f, t) || (t in m && Survives(c, s, f, t))
  {}

  /** The span met by file `k`. */
  function SpanAt(c: nat, w: Span, fs: seq<File>, k: nat): Span
    requires k <= |fs|
    decreases k
  {
    if k == 0 then w else Shown(c, SpanAt(c, w, fs, k - 1), fs[k - 1])
  }

  /** The sample for time `t` came with file `k - 1`, or was known at the start when `k` is 0, and every later
      load left it. */
  ghost predicate KnownSince(c: nat, w: Span, m: map<int, int>, fs: seq<File>, k: nat, t: int) {
    && k <= |fs| && (if k == 0 then t in m else Arrives(c, SpanAt(c, w, fs, k - 1), fs[k - 1], t))
    && forall j :: k <= j < |fs| ==> Survives(c, SpanAt(c, w, fs, j), fs[j], t)
  }

  lemma {:induction false} SpanShift(c: nat, w: Span, fs: seq<File>, k: nat)
    requires 1 <= k <= |fs|
    ensures SpanAt(c, w, fs, k) == SpanAt(c, Shown(c, w, fs[0]), fs[1..], k - 1)
    decreases k
  {
    if k > 1 {
      SpanShift(c, w, fs, k - 1);
    } else {
      assert SpanAt(c, w, fs, 0) == w;
    }
  }

  /** Over any loads that fit, the window shows that span. */
  lemma {:induction false} RunIsShown(c: nat, r: Ring, fs: seq<File>)
    requires WindowOk(c, r.win) && AllFit(c, r.win, fs)
    ensures var v := Run(c, r, fs).win; Span(v.start, v.end) == SpanAt(c, Span(r.win.start, r.win.end), fs, |fs|)
    decreases |fs|
  {
    if fs != [] {
      MovedOk(c, r.win, fs[0]);
      WindowIsShown(c, r.win, fs[0]);
      hide Moved, Fits, Shown, WriteIndex, Written, NextIndex;
      RunIsShown(c, Loaded(c, r, fs[0]), fs[1..]);
      SpanShift(c, Span(r.win.start, r.win.end), fs, |fs|);
    }
  }

  /** Over any loads that fit: a time is known exactly when its sample arrived and no later load displaced it. */
  lemma {:induction false} KnownIff(c: nat, w: Window, m: map<int, int>, fs: seq<File>, t: int)
    requires WindowOk(c, w) && AllFit(c, w, fs) && forall u :: u in m ==> w.start <= u <= w.end
    ensures t in MapRun(c, w, m, fs) <==> exists k: nat :: KnownSince(c, Span(w.start, w.end), m, fs, k, t)
    decreases |fs|
  {
    var s := Span(w.start, w.end);
    if fs == [] {
      assert KnownSince(c, s, m, fs, 0, t) <==> t in m;
    } else {
      var v := Moved(c, w, fs[0]);
      var n, s1 := MapLoad(c, v, m, fs[0]), Span(v.start, v.end);
      MovedOk(c, w, fs[0]);
      WindowIsShown(c, w, fs[0]);
      KnownAfterLoadIff(c, w, m, fs[0], t);
      KnownShift(c, s, m, s1, n, fs, 0, t);
      hide Moved, Fits, MapLoad, Shown, Arrives, Survives, KnownSince;
      KnownIff(c, v, n, fs[1..], t);
      if k: nat :| KnownSince(c, s1, n, fs[1..], k, t) {
        KnownShift(c, s, m, s1, n, fs, k, t);
        assert KnownSince(c, s, m, fs, k + 1, t) || KnownSince(c, s, m, fs, 0, t);
      }
      if k: nat :| KnownSince(c, s, m, fs, k, t) {
        KnownShift(c, s, m, s1, n, fs, if k == 0 then 0 else k - 1, t);
        assert KnownSince(c, s1, n, fs[1..], if k == 0 then 0 else k - 1, t);
      }
    }
  }

  lemma KnownShift(c: nat, s: Span, m: map<int, int>, s1: Span, n: map<int, int>, fs: seq<File>, k: nat, t: int)
    requires fs != [] && s1 == Shown(c, s, fs[0])
    ensures k > 0 ==> (KnownSince(c, s1, n, fs[1..], k, t) <==> KnownSince(c, s, m, fs, k + 1, t))
    ensures (t in n <==> Arrives(c, s, fs[0], t) || (t in m && Survives(c, s, fs[0], t))) ==>
      (KnownSince(c, s1, n, fs[1..], 0, t) <==> KnownSince(c, s, m, fs, 0, t) || KnownSince(c, s, m, fs, 1, t))
  {
    hide Shown, Arrives, Survives;
    forall j | 1 <= j <= |fs|
      ensures SpanAt(c, s, fs, j) == SpanAt(c, s1, fs[1..], j - 1)
    {
      SpanShift(c, s, fs, j);
    }
    assert SpanAt(c, s, fs, 0) == s;
    assert forall j :: 0 <= j < |fs| - 1 ==> fs[1..][j] == fs[j + 1];
    var late := forall j :: 1 <= j < |fs| ==> Survives(c, SpanAt(c, s, fs, j), fs[j], t);
    assert (forall j :: 0 <= j < |fs| - 1 ==> Survives(c, SpanAt(c, s1, fs[1..], j), fs[1..][j], t)) <==> late by {
      LateShift(c, s, s1, fs, 0, t);
    }
    LateShift(c, s, s1, fs, k, t);
  }

  lemma LateShift(c: nat, s: Span, s1: Span, fs: seq<File>, k: nat, t: int)
    requires fs != [] && forall j :: 1 <= j <= |fs| ==> SpanAt(c, s, fs, j) == SpanAt(c, s1, fs[1..], j - 1)
    ensures (forall j :: k <= j < |fs| - 1 ==> Survives(c, SpanAt(c, s1, fs[1..], j), fs[1..][j], t)) <==>
            forall j :: k + 1 <= j < |fs| ==> Survives(c, SpanAt(c, s, fs, j), fs[j], t)
  {
    hide Survives, SpanAt;
    if forall j :: k <= j < |fs| - 1 ==> Survives(c, SpanAt(c, s1, fs[1..], j), fs[1..][j], t) {
      forall j | k + 1 <= j < |fs|
        ensures Survives(c, SpanAt(c, s, fs, j), fs[j], t)
      {
        assert Survives(c, SpanAt(c, s1, fs[1..], j - 1), fs[1..][j - 1], t);
      }
    }
    if forall j :: k + 1 <= j < |fs| ==> Survives(c, SpanAt(c, s, fs, j), fs[j], t) {
      forall j | k <= j < |fs| - 1
        ensures Survives(c, SpanAt(c, s1, fs[1..], j), fs[1..][j], t)
      {
        assert Survives(c, SpanAt(c, s, fs, j + 1), fs[j + 1], t);
      }
    }
  }

  predicate Gives(c: nat, f: File, t: int) { |f.samples| <= c && Covers(f, t) }

  /** File `k` is the last one that gives a sample for time `t`. */
  predicate LastGiver(c: nat, fs: seq<File>, k: nat, t: int) {
    k < |fs| && Gives(c, fs[k], t) && forall j :: k < j < |fs| ==> !Gives(c, fs[j], t)
  }

  /** A time that is still known shows the sample of the last file that gave one for it. */
  lemma {:induction false} LatestFileWins(c: nat, w: Window, m: map<int, int>, fs: seq<File>, t: int)
    requires t in MapRun(c, w, m, fs)
    ensures var x := MapRun(c, w, m, fs)[t];
      || (t in m && x == m[t] && forall j :: 0 <= j < |fs| ==> !Gives(c, fs[j], t))
      || exists k: nat :: LastGiver(c, fs, k, t) && x == fs[k].samples[t - fs[k].start]
    decreases |fs|
  {
    hide Moved;
    if fs != [] {
      var v := Moved(c, w, fs[0]);
      var x := MapRun(c, w, m, fs)[t];
      LatestFileWins(c, v, MapLoad(c, v, m, fs[0]), fs[1..], t);
      if k: nat :| LastGiver(c, fs[1..], k, t) && x == fs[1..][k].samples[t - fs[1..][k].start] {
        forall j | k + 1 < j < |fs|
          ensures !Gives(c, fs[j], t)
        {
          assert fs[j] == fs[1..][j - 1];
        }
        assert LastGiver(c, fs, k + 1, t);
      } else {
        forall j | 1 <= j < |fs|
          ensures !Gives(c, fs[j], t)
        {
          assert fs[j] == fs[1..][j - 1];
        }
        assert Gives(c, fs[0], t) ==> LastGiver(c, fs, 0, t);
      }
    }
  }

  /** The file has samples, not too many, and leaves no gap between itself and the window. */
  predicate Contiguous(c: nat, w: Window, f: File) {
    0 < |f.samples| <= c && (f.scroll ==> f.start <= w.end + 1 && w.start <= Last(f) + 1)
  }

  ghost predicate Full(w: Window, m: map<int, int>) {
    w.start <= w.end && forall t :: w.start <= t <= w.end ==> t in m
  }

  predicate AllContiguous(c: nat, w: Window, fs: seq<File>)
    decreases |fs|
  {
    fs == [] || (Contiguous(c, w, fs[0]) && AllContiguous(c, Moved(c, w, fs[0]), fs[1..]))
  }

  /** Contiguous files leave no unknown sample in the window: every time it shows can be read back. */
  lemma {:induction false} RunIsFull(c: nat, r: Ring, m: map<int, int>, fs: seq<File>)
    requires Holds(c, r, m) && AllFit(c, r.win, fs) && AllContiguous(c, r.win, fs)
    requires Full(r.win, m) || (fs != [] && !fs[0].scroll)
    ensures Full(Run(c, r, fs).win, MapRun(c, r.win, m, fs))
    decreases |fs|
  {
    hide Moved, Fits, WriteIndex, Written, MapLoad, NextIndex, Full, Contiguous;
    if fs != [] {
      LoadHolds(c, r, m, fs[0]);
      MovedOk(c, r.win, fs[0]);
      FullStays(c, r.win, m, fs[0]);
      var v := Moved(c, r.win, fs[0]);
      RunIsFull(c, Loaded(c, r, fs[0]), MapLoad(c, v, m, fs[0]), fs[1..]);
    }
  }

  lemma FullStays(c: nat, w: Window, m: map<int, int>, f: File)
    requires WindowOk(c, w) && Fits(c, w, f) && Contiguous(c, w, f) && (Full(w, m) || !f.scroll)
    ensures Full(Moved(c, w, f), MapLoad(c, Moved(c, w, f), m, f))
  {}

  /** The mark for the next packet is one past the cell of the newest sample; an empty window counts as if
      it showed one. */
  lemma NextFollowsNewest(c: nat, v: Window)
    requires WindowOk(c, v)
    ensures NextIndex(c, v) == Cell(c, v.index + if v.start <= v.end then v.end - v.start else 0) + 1
  {}

  // ----- the station

  class Channel {
    var plRawCircBuff: array<int>
    var plFiltCircBuff: array<int>
    var dStartTime: int
    var dEndTime: int
    var lIndex: int
    var iHasWrapped: bool
    var lSampIndexR: int
    var lSampIndexF: int
    var lSampsInLastPacket: nat

    ghost predicate Valid()
      reads this
    {
      plRawCircBuff != plFiltCircBuff && plRawCircBuff.Length == plFiltCircBuff.Length && plRawCircBuff.Length > 0
    }

    function Win(): Window
      reads this
    {
      Window(dStartTime, dEndTime, lIndex, iHasWrapped)
    }

    ghost function State(): Ring
      reads this, plRawCircBuff, plFiltCircBuff
    {
      Ring(Win(), plRawCircBuff[..], plFiltCircBuff[..], lSampIndexR)
    }

    /** A file that starts before the window. */
    method ScrollBack(f: File) returns (write: int)
      requires f.scroll && f.start < dStartTime
      modifies this`dStartTime, this`dEndTime, this`lIndex, this`iHasWrapped
      ensures Win() == Moved(plRawCircBuff.Length, old(Win()), f) && write == lIndex
    {
      var c := plRawCircBuff.Length;
      lIndex := lIndex - Ticks(dStartTime - f.start);
      if lIndex < 0 {
        iHasWrapped := true;
        lIndex := lIndex + c;
      }
      dStartTime := f.start;
      write := lIndex;
      var len := Ticks(dEndTime - dStartTime) + 1;
      if len > c {
        dEndTime := dEndTime - (len - c);
      }
    }

    /** A file that ends after the window. */
    method ScrollForward(f: File) returns (write: int)
      requires f.scroll && dStartTime <= f.start && dEndTime < Last(f)
      modifies this`dStartTime, this`dEndTime, this`lIndex, this`iHasWrapped
      ensures Win() == Moved(plRawCircBuff.Length, old(Win()), f)
      ensures write == WriteIndex(plRawCircBuff.Length, Win(), f)
    {
      var c := plRawCircBuff.Length;
      dEndTime := f.start + (|f.samples| - 1);
      var len := Ticks(dEndTime - dStartTime) + 1;
      if len > c {
        dStartTime := dStartTime + (len - c);
        lIndex := lIndex + (len - c);
        if lIndex >= c {
          lIndex := lIndex - c;
        }
        iHasWrapped := true;
      }
      write := Ticks(f.start - dStartTime) + lIndex;
      if write >= c {
        write := write - c;
      }
    }

    /** The pass over the channel headers. */
    method MoveWindow(f: File) returns (write: int)
      requires Valid()
      modifies this`dStartTime, this`dEndTime, this`lIndex, this`iHasWrapped, this`lSampIndexR, this`lSampIndexF,
        this`lSampsInLastPacket
      ensures Win() == Moved(plRawCircBuff.Length, old(Win()), f)
      ensures lSampIndexR == lSampIndexF == NextIndex(plRawCircBuff.Length, Win())
      ensures lSampsInLastPacket == |f.samples|
      ensures !f.scroll || old(lIndex) < plRawCircBuff.Length ==> write == WriteIndex(plRawCircBuff.Length, Win(), f)
    {
      var c := plRawCircBuff.Length;
      lSampsInLastPacket := |f.samples|;
      if !f.scroll {
        dStartTime := f.start;
        dEndTime := dStartTime + (|f.samples| - 1);
        lIndex := 0;
        write := 0;
        iHasWrapped := false;
      } else if f.start < dStartTime {
        write := ScrollBack(f);
      } else if f.start + (|f.samples| - 1) > dEndTime {
        write := ScrollForward(f);
      } else {
        write := Ticks(f.start - dStartTime) + lIndex;
        if write >= c {
          write := write - c;
        }
      }
      lSampIndexR := lIndex + Ticks(dEndTime - dStartTime) + 1;
      if lSampIndexR > c {
        lSampIndexR := lSampIndexR - c;
      }
      lSampIndexF := lSampIndexR;
    }

    /** The pass over the samples, in two pieces when they run over the end of the buffer. */
    method WriteSamples(x: seq<int>, write: int) returns (ok: bool)
      requires Valid() && (|x| <= plRawCircBuff.Length ==> 0 <= write < plRawCircBuff.Length)
      modifies plRawCircBuff, plFiltCircBuff
      ensures ok == (|x| <= plRawCircBuff.Length)
      ensures plRawCircBuff[..] ==
        if ok then Written(plRawCircBuff.Length, old(plRawCircBuff[..]), write, x) else old(plRawCircBuff[..])
      ensures plFiltCircBuff[..] == if ok then plRawCircBuff[..] else old(plFiltCircBuff[..])
    {
      var c := plRawCircBuff.Length;
      if |x| > c {
        return false;
      }
      if |x| + write > c {
        var over := |x| + write - c;
        var read1 := |x| - over;
        Copy(x[..read1], write);
        Copy(x[read1..], 0);
      } else {
        Copy(x, write);
      }
      assert plRawCircBuff[..] == Written(c, old(plRawCircBuff[..]), write, x);
      forall i | 0 <= i < c {
        plFiltCircBuff[i] := plRawCircBuff[i];
      }
      assert plFiltCircBuff[..] == plRawCircBuff[..];
      ok := true;
    }

    method Copy(x: seq<int>, at: int)
      requires Valid() && 0 <= at && at + |x| <= plRawCircBuff.Length
      modifies plRawCircBuff
      ensures forall i :: 0 <= i < plRawCircBuff.Length ==>
        plRawCircBuff[i] == if at <= i < at + |x| then x[i - at] else old(plRawCircBuff[i])
    {
      var m := 0;
      while m < |x|
        invariant 0 <= m <= |x|
        invariant forall i :: 0 <= i < plRawCircBuff.Length ==>
          plRawCircBuff[i] == if at <= i < at + m then x[i - at] else old(plRawCircBuff[i])
      {
        plRawCircBuff[at + m] := x[m];
        m := m + 1;
      }
    }

    /** One file. The window need not come out sound; `FitsIff` says when it does. */
    method ReadDiskData(f: File) returns (ok: bool)
      requires Valid() && (f.scroll ==> lIndex < plRawCircBuff.Length) && WriteOk(plRawCircBuff.Length, Win(), f)
      modifies this`dStartTime, this`dEndTime, this`lIndex, this`iHasWrapped, this`lSampIndexR, this`lSampIndexF,
        this`lSampsInLastPacket, plRawCircBuff, plFiltCircBuff
      ensures Valid()
      ensures State() == Loaded(plRawCircBuff.Length, old(State()), f)
      ensures lSampIndexF == lSampIndexR && lSampsInLastPacket == |f.samples|
      ensures ok == (|f.samples| <= plRawCircBuff.Length)
      ensures plFiltCircBuff[..] == if ok then plRawCircBuff[..] else old(plFiltCircBuff[..])
    {
      var write := MoveWindow(f);
      ok := WriteSamples(f.samples, write);
    }
  }
}
