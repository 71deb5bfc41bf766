/** The window slider of walk-forward optimisation (cpp/src/backtest.cpp:1076-1236): floor arithmetic
    for the train share, a cap at the end of the data, and minimum part sizes. */
module WalkForward {
  import opened Wrappers
  import opened RealFacts

  /** Blocks [start, trainEnd) train, blocks [trainEnd, end) test. */
  datatype Window = Window(start: nat, trainEnd: nat, end: nat)

  const MinWindow: nat := 100
  const MinPart: nat := 10

  /** Train blocks for a test part of the given size, so that train / (train + test) is trainPct. */
  function TrainBlocks(test: nat, trainPct: real): int
    requires 0.0 < trainPct < 1.0
  {
    (test as real * trainPct / (1.0 - trainPct)).Floor
  }

  /** The train share of a window. */
  function TrainShare(size: nat, trainPct: real): int {
    (size as real * trainPct).Floor
  }

  lemma ProductInside(a: real, p: real) returns (x: real)
    requires a >= 0.0 && 0.0 < p < 1.0
    ensures x == a * p
    ensures 0.0 <= x <= a && (a > 0.0 ==> x < a)
  {
    x := a * p;
    var y := a * (1.0 - p);
    assert x + y == a;
    assert y >= 0.0;
  }

  lemma FloorInside(x: real, n: nat)
    requires 0.0 <= x <= n as real
    ensures 0 <= x.Floor <= n
    ensures x < n as real ==> x.Floor < n
  {
  }

  lemma ShareInside(size: nat, trainPct: real)
    requires 0.0 < trainPct < 1.0
    ensures 0 <= TrainShare(size, trainPct) <= size
    ensures size > 0 ==> TrainShare(size, trainPct) < size
  {
    hide TrainShare;
    var x := ShareProduct(size, trainPct);
    FloorInside(x, size);
  }

  lemma ShareProduct(size: nat, trainPct: real) returns (x: real)
    requires 0.0 < trainPct < 1.0
    ensures TrainShare(size, trainPct) == x.Floor
    ensures 0.0 <= x <= size as real && (size > 0 ==> x < size as real)
  {
    x := ProductInside(size as real, trainPct);
  }

  lemma ShareMonotone(a: nat, b: nat, trainPct: real)
    requires 0.0 < trainPct < 1.0 && a <= b
    ensures TrainShare(a, trainPct) <= TrainShare(b, trainPct)
  {
    MulMonotone(a as real, b as real, trainPct);
  }

  lemma QuotientNonNegative(a: real, b: real)
    requires a >= 0.0 && b > 0.0
    ensures a / b >= 0.0
  {
  }

  lemma TrainBlocksNonNegative(test: nat, trainPct: real)
    requires 0.0 < trainPct < 1.0
    ensures TrainBlocks(test, trainPct) >= 0
  {
    var x := ProductInside(test as real, trainPct);
    QuotientNonNegative(x, 1.0 - trainPct);
  }

  /** The fixed window size of every fold. */
  function WindowSize(advance: nat, trainPct: real): int
    requires 0.0 < trainPct < 1.0
  {
    TrainBlocks(advance, trainPct) + advance
  }

  /** The window that starts at a given block: it is cut at the end of the data. */
  function WindowFrom(total: nat, advance: nat, trainPct: real, start: nat): (w: Window)
    requires 0.0 < trainPct < 1.0 && start <= total
    ensures w.start == start && start <= w.trainEnd <= w.end <= total
  {
    TrainBlocksNonNegative(advance, trainPct);
    var end := if start + WindowSize(advance, trainPct) < total then start + WindowSize(advance, trainPct) else total;
    ShareInside(end - start, trainPct);
    Window(start, start + TrainShare(end - start, trainPct), end)
  }

  /** Fold k starts k advances in. */
  function WindowAt(total: nat, advance: nat, trainPct: real, k: nat): Window
    requires 0.0 < trainPct < 1.0 && k * advance <= total
  {
    WindowFrom(total, advance, trainPct, k * advance)
  }

  predicate UsableFrom(total: nat, advance: nat, trainPct: real, start: nat)
    requires 0.0 < trainPct < 1.0
  {
    && start + MinWindow < total
    && var w := WindowFrom(total, advance, trainPct, start);
       w.trainEnd > w.start + MinPart && w.end > w.trainEnd + MinPart
  }

  /** Fold k is evaluated: enough data lies ahead of it and both of its parts are big enough. */
  predicate Usable(total: nat, advance: nat, trainPct: real, k: nat)
    requires 0.0 < trainPct < 1.0
  {
    UsableFrom(total, advance, trainPct, k * advance)
  }

  /** One turn of the slide: the window at a start, and whether the loop breaks on it. The window is as long
      as the data allow, its train part the whole blocks in its train share, and the loop breaks when either
      part has at most ten blocks. */
  method CutWindow(total: nat, advance: nat, trainPct: real, windowStart: nat, fixedWindowSize: nat)
      returns (w: Window, tooSmall: bool)
    requires 0.0 < trainPct < 1.0 && windowStart + MinWindow < total
    requires fixedWindowSize == WindowSize(advance, trainPct)
    ensures w.start == windowStart && w.end - w.start <= fixedWindowSize && w.end <= total
    ensures w.end - w.start == fixedWindowSize || w.end == total
    ensures var share := (w.end - w.start) as real * trainPct;
            (w.trainEnd - w.start) as real <= share < (w.trainEnd - w.start) as real + 1.0
    ensures tooSmall <==> w.trainEnd - w.start <= 10 || w.end - w.trainEnd <= 10
    ensures w == WindowFrom(total, advance, trainPct, windowStart)
    ensures tooSmall <==> !UsableFrom(total, advance, trainPct, windowStart)
  {
    var windowEnd := if windowStart + fixedWindowSize < total then windowStart + fixedWindowSize else total;
    var windowSize := windowEnd - windowStart;
    ShareInside(windowSize, trainPct);
    var trainEnd := windowStart + (windowSize as real * trainPct).Floor;
    var testStart := trainEnd;
    w := Window(windowStart, trainEnd, windowEnd);
    tooSmall := trainEnd <= windowStart + MinPart || windowEnd <= testStart + MinPart;
  }

  /** The slide of walk_forward_optimize: the folds 0, 1, 2, ... up to, and excluding, the first one
      that is not usable. It terminates for every advance, zero included. */
  method SlideWindows(total: nat, gridSize: nat, advance: nat, trainPct: real) returns (r: Result<seq<Window>, string>)
    requires 0.0 < trainPct < 1.0
    ensures r.Failure? <==> total == 0 || gridSize == 0
    ensures r.Success? ==>
              && (forall k :: 0 <= k < |r.value| ==>
                    && Usable(total, advance, trainPct, k)
                    && r.value[k] == WindowAt(total, advance, trainPct, k))
              && !Usable(total, advance, trainPct, |r.value|)
  {
    hide WindowFrom, WindowSize, TrainBlocks;
    if total == 0 {
      return Failure("no data loaded");
    }
    if gridSize == 0 {
      return Failure("empty param_grid");
    }
    if total < MinWindow {
      return Success([]);
    }
    var windows: seq<Window> := [];
    var fixedWindowSize := ComputeWindowSize(advance, trainPct);
    var windowStart: nat := 0;
    while windowStart + MinWindow < total
      invariant windowStart == |windows| * advance
      invariant forall k :: 0 <= k < |windows| ==>
                  Usable(total, advance, trainPct, k) && windows[k] == WindowAt(total, advance, trainPct, k)
      decreases total - windowStart
    {
      var w, tooSmall := CutWindow(total, advance, trainPct, windowStart, fixedWindowSize);
      if tooSmall {
        break;
      }
      ZeroAdvanceIsUnusable(total, advance, trainPct, windowStart);
      assert (|windows| + 1) * advance == |windows| * advance + advance;
      windows := windows + [w];
      windowStart := windowStart + advance;
      if windowStart >= total {
        break;
      }
    }
    return Success(windows);
  }

  method ComputeWindowSize(advance: nat, trainPct: real) returns (size: nat)
    requires 0.0 < trainPct < 1.0
    ensures size == WindowSize(advance, trainPct)
  {
    TrainBlocksNonNegative(advance, trainPct);
    var testBlocks := advance;
    var trainBlocks := (testBlocks as real * trainPct / (1.0 - trainPct)).Floor;
    size := trainBlocks + testBlocks;
  }

  lemma ZeroAdvanceIsUnusable(total: nat, advance: nat, trainPct: real, start: nat)
    requires 0.0 < trainPct < 1.0 && UsableFrom(total, advance, trainPct, start)
    ensures advance > 0
  {
    if advance == 0 {
      DivUnique(0.0, advance as real * trainPct, 1.0 - trainPct);
    }
  }

  // ---------------------------------------------------------------- what the folds look like

  /** The double rounding cancels: the train share of a full-size window is exactly the number of
      train blocks it was sized for, for every train fraction and every advance. */
  lemma FullShareIsTrainBlocks(advance: nat, trainPct: real)
    requires 0.0 < trainPct < 1.0 && WindowSize(advance, trainPct) >= 0
    ensures TrainShare(WindowSize(advance, trainPct), trainPct) == TrainBlocks(advance, trainPct)
  {
    var rest := 1.0 - trainPct;
    var x := advance as real * trainPct / rest;
    DivCancel(advance as real * trainPct, rest);
    var frac := x - x.Floor as real;
    var share := WindowSize(advance, trainPct) as real * trainPct;
    assert share == x.Floor as real * trainPct + x * rest;
    assert share == x.Floor as real + frac * rest;
    MulMonotone(0.0, frac, rest);
    MulMonotone(frac, 1.0, rest);
  }

  predicate IsFull(total: nat, advance: nat, trainPct: real, k: nat)
    requires 0.0 < trainPct < 1.0
  {
    k * advance + WindowSize(advance, trainPct) <= total
  }

  /** The parts a fold is sized for, which the source wants constant across all folds, are what it gets
      exactly when it is full-size. */
  lemma FullWindowPartsIff(total: nat, advance: nat, trainPct: real, k: nat)
    requires 0.0 < trainPct < 1.0 && k * advance <= total
    ensures var w := WindowAt(total, advance, trainPct, k);
            (w.end - w.trainEnd == advance && w.trainEnd - w.start == TrainBlocks(advance, trainPct))
            <==> IsFull(total, advance, trainPct, k)
  {
    TrainBlocksNonNegative(advance, trainPct);
    FullShareIsTrainBlocks(advance, trainPct);
    hide TrainBlocks, TrainShare;
  }

  /** Consecutive test parts never leave a gap; they meet without overlapping exactly when the earlier
      fold is full-size and the later one's train share has not shrunk. */
  lemma TestPartsMeetIff(total: nat, advance: nat, trainPct: real, k: nat)
    requires 0.0 < trainPct < 1.0
    requires Usable(total, advance, trainPct, k) && Usable(total, advance, trainPct, k + 1)
    ensures var w, next := WindowAt(total, advance, trainPct, k), WindowAt(total, advance, trainPct, k + 1);
            && next.trainEnd <= w.end <= next.end
            && (next.trainEnd == w.end <==>
                  IsFull(total, advance, trainPct, k)
                  && TrainShare(next.end - next.start, trainPct) == TrainBlocks(advance, trainPct))
  {
    TrainBlocksNonNegative(advance, trainPct);
    var next := WindowAt(total, advance, trainPct, k + 1);
    assert (k + 1) * advance == k * advance + advance;
    var size := WindowSize(advance, trainPct);
    FullShareIsTrainBlocks(advance, trainPct);
    ShareMonotone(next.end - next.start, size, trainPct);
  }

  /** While folds stay full-size their test parts tile the data: fold k tests exactly the k-th run of
      advance blocks after the first train part. */
  lemma FullTestsTile(total: nat, advance: nat, trainPct: real, k: nat)
    requires 0.0 < trainPct < 1.0 && k * advance <= total && IsFull(total, advance, trainPct, k)
    ensures var w := WindowAt(total, advance, trainPct, k);
            && w.trainEnd == TrainBlocks(advance, trainPct) + k * advance
            && w.end == TrainBlocks(advance, trainPct) + (k + 1) * advance
  {
    FullWindowPartsIff(total, advance, trainPct, k);
    assert (k + 1) * advance == k * advance + advance;
  }

  /** The folds cut by the end of the data do not: any two of them in a row test overlapping blocks,
      although the source asks for parts that stay constant across all folds. */
  lemma CutTestsOverlap(total: nat, advance: nat, trainPct: real, k: nat)
    requires 0.0 < trainPct < 1.0 && !IsFull(total, advance, trainPct, k)
    requires Usable(total, advance, trainPct, k) && Usable(total, advance, trainPct, k + 1)
    ensures var w, next := WindowAt(total, advance, trainPct, k), WindowAt(total, advance, trainPct, k + 1);
            w.end == next.end == total && next.trainEnd + MinPart < w.end && w.trainEnd + MinPart < w.end
  {
    assert (k + 1) * advance == k * advance + advance;
  }

  /** Such folds occur: 1000 blocks, an advance of 100 and a train share of 70 % cut folds 7 and 8, which
      test the last 90 and the last 60 blocks. */
  lemma CutFoldsOccur()
    ensures !IsFull(1000, 100, 0.7, 7)
    ensures Usable(1000, 100, 0.7, 7) && Usable(1000, 100, 0.7, 8)
    ensures WindowAt(1000, 100, 0.7, 7) == Window(700, 910, 1000)
    ensures WindowAt(1000, 100, 0.7, 8) == Window(800, 940, 1000)
  {
    assert TrainBlocks(100, 0.7) == 233;
    assert TrainShare(300, 0.7) == 210;
    assert TrainShare(200, 0.7) == 140;
  }

  /** A window sized so that its train part has the share trainPct of it beside advance test blocks, cut at the end of
      the data, and split at the whole blocks of that share. */
  ghost predicate IsFold(total: nat, advance: nat, trainPct: real, start: nat, w: Window) {
    exists train: nat ::
      && TrainsFor(train, advance, trainPct)
      && w.start == start && w.end == (if start + train + advance < total then start + train + advance else total)
      && w.start <= w.trainEnd <= w.end
      && (w.trainEnd - w.start) as real <= (w.end - w.start) as real * trainPct < (w.trainEnd - w.start) as real + 1.0
  }

  /** The most train blocks of which trainPct of the whole is not exceeded. */
  ghost predicate TrainsFor(train: nat, test: nat, trainPct: real) {
    train as real * (1.0 - trainPct) <= test as real * trainPct < (train as real + 1.0) * (1.0 - trainPct)
  }

  lemma TrainBlocksAre(test: nat, trainPct: real)
    requires 0.0 < trainPct < 1.0
    ensures TrainBlocks(test, trainPct) >= 0 && TrainsFor(TrainBlocks(test, trainPct), test, trainPct)
  {
    TrainBlocksNonNegative(test, trainPct);
    QuotientFloor(test as real * trainPct, 1.0 - trainPct);
  }

  lemma QuotientFloor(a: real, b: real)
    requires b > 0.0
    ensures (a / b).Floor as real * b <= a < ((a / b).Floor as real + 1.0) * b
  {
    DivCancel(a, b);
    MulMonotone((a / b).Floor as real, a / b, b);
    BelowNextStep((a / b).Floor as real, a / b, a, b);
    NextStep((a / b).Floor as real, a, b);
  }

  lemma BelowNextStep(n: real, q: real, a: real, b: real)
    requires b > 0.0 && q < n + 1.0 && q * b == a
    ensures a < n * b + b
  {
    MulPositive(n + 1.0 - q, b);
    assert (n + 1.0 - q) * b == n * b + b - q * b;
  }

  lemma NextStep(n: real, a: real, b: real)
    requires a < n * b + b
    ensures a < (n + 1.0) * b
  {
  }

  /** Fold k starts k advances in and is such a window; it is evaluated if and only if more than 100 blocks lie ahead
      of it and both parts have more than ten. */
  lemma FoldsAre(total: nat, advance: nat, trainPct: real, k: nat)
    requires 0.0 < trainPct < 1.0 && k * advance <= total
    ensures var w := WindowAt(total, advance, trainPct, k);
            && IsFold(total, advance, trainPct, k * advance, w)
            && (Usable(total, advance, trainPct, k) <==>
                  k * advance + 100 < total && w.trainEnd - w.start > 10 && w.end - w.trainEnd > 10)
  {
    TrainBlocksAre(advance, trainPct);
    hide TrainBlocks, TrainsFor;
    var w := WindowAt(total, advance, trainPct, k);
    assert TrainShare(w.end - w.start, trainPct) == w.trainEnd - w.start;
  }
}
