/**
 * Step 3 of `process_image` (uploads/app.py:32-48): a fixed 7x7 0/1 kernel is
 * slid over the mask `dt`; for every top-left position, in row-major order,
 * the window's weighted sum is divided by 49, and the window's centre cell is
 * overwritten, in place, with the truncated mean when that mean lies in
 * [30, 50] and with 0 otherwise. Later windows read centres that earlier
 * positions have already rewritten.
 */
module GatedConvolver {
  import opened Raster

  /** The weights `newkernel`: ones on both diagonals, the middle row, the middle column and the central 3x3 cross. */
  const Kernel: seq<seq<int>> := [
    [1, 0, 0, 1, 0, 0, 1],
    [0, 1, 0, 1, 0, 1, 0],
    [0, 0, 1, 1, 1, 0, 0],
    [1, 1, 1, 1, 1, 1, 1],
    [0, 0, 1, 1, 1, 0, 0],
    [0, 1, 0, 1, 0, 1, 0],
    [1, 0, 0, 1, 0, 0, 1]
  ]

  /** Sum of the first `n` weights of kernel row `k`. */
  function RowWeight(k: nat, n: nat): int
    requires k < 7 && n <= 7
  {
    if n == 0 then 0 else RowWeight(k, n - 1) + Kernel[k][n - 1]
  }

  /** Sum of all weights in the first `n` kernel rows. */
  function KernelWeight(n: nat): int
    requires n <= 7
  {
    if n == 0 then 0 else KernelWeight(n - 1) + RowWeight(n - 1, 7)
  }

  /** The kernel is a 7x7 pattern of 0/1 weights. */
  lemma KernelShape()
    ensures |Kernel| == 7 && forall k :: 0 <= k < 7 ==> |Kernel[k]| == 7
    ensures forall k, m :: 0 <= k < 7 && 0 <= m < 7 ==> Kernel[k][m] == 0 || Kernel[k][m] == 1
  {
  }

  /** Rows 0-2 and 4-6 of the kernel hold three ones each, the middle row seven. */
  lemma RowWeights()
    ensures RowWeight(0, 7) == 3 && RowWeight(1, 7) == 3 && RowWeight(2, 7) == 3
    ensures RowWeight(3, 7) == 7
    ensures RowWeight(4, 7) == 3 && RowWeight(5, 7) == 3 && RowWeight(6, 7) == 3
  {
    assert Kernel[0] == [1, 0, 0, 1, 0, 0, 1];
    assert Kernel[1] == [0, 1, 0, 1, 0, 1, 0];
    assert Kernel[2] == [0, 0, 1, 1, 1, 0, 0];
    assert Kernel[3] == [1, 1, 1, 1, 1, 1, 1];
    assert Kernel[4] == [0, 0, 1, 1, 1, 0, 0];
    assert Kernel[5] == [0, 1, 0, 1, 0, 1, 0];
    assert Kernel[6] == [1, 0, 0, 1, 0, 0, 1];
  }

  /** Exactly 25 of the 49 weights are 1. */
  lemma KernelWeightIs25()
    ensures KernelWeight(7) == 25
  {
    RowWeights();
    assert KernelWeight(3) == 9;
    assert KernelWeight(4) == 16;
  }

  /** The 7x7 window whose top-left cell is (i, j) lies inside `g`. */
  predicate WindowFits(g: seq<seq<Byte>>, i: nat, j: nat)
  {
    i + 7 <= |g| && forall r :: i <= r < i + 7 ==> j + 7 <= |g[r]|
  }

  /** The share of kernel row `k` (its first `n` columns) in the weighted sum of window (i, j). */
  function KernelRowSum(g: seq<seq<Byte>>, i: nat, j: nat, k: nat, n: nat): (s: int)
    requires WindowFits(g, i, j) && k < 7 && n <= 7
    ensures s >= 0
  {
    if n == 0 then 0 else KernelRowSum(g, i, j, k, n - 1) + g[i + k][j + n - 1] * Kernel[k][n - 1]
  }

  /** The weighted sum of the first `n` rows of window (i, j). */
  function WindowPartial(g: seq<seq<Byte>>, i: nat, j: nat, n: nat): (s: int)
    requires WindowFits(g, i, j) && n <= 7
    ensures s >= 0
  {
    if n == 0 then 0 else WindowPartial(g, i, j, n - 1) + KernelRowSum(g, i, j, n - 1, 7)
  }

  /** A kernel row contributes at most 255 per unit weight. */
  lemma {:induction false} KernelRowSumBound(g: seq<seq<Byte>>, i: nat, j: nat, k: nat, n: nat)
    requires WindowFits(g, i, j) && k < 7 && n <= 7
    ensures KernelRowSum(g, i, j, k, n) <= 255 * RowWeight(k, n)
  {
    if n > 0 {
      KernelRowSumBound(g, i, j, k, n - 1);
    }
  }

  /** The first `n` rows of a window contribute at most 255 per unit weight. */
  lemma {:induction false} WindowPartialBound(g: seq<seq<Byte>>, i: nat, j: nat, n: nat)
    requires WindowFits(g, i, j) && n <= 7
    ensures WindowPartial(g, i, j, n) <= 255 * KernelWeight(n)
  {
    if n > 0 {
      WindowPartialBound(g, i, j, n - 1);
      KernelRowSumBound(g, i, j, n - 1, 7);
    }
  }

  /** The weighted sum `s` of window (i, j); never more than 25 * 255, so its mean fits a byte after gating. */
  function WindowSum(g: seq<seq<Byte>>, i: nat, j: nat): (s: int)
    requires WindowFits(g, i, j)
    ensures 0 <= s <= 25 * 255
  {
    WindowPartialBound(g, i, j, 7);
    KernelWeightIs25();
    WindowPartial(g, i, j, 7)
  }

  /** A value the gate can produce: 0, or a mean inside [30, 50]. */
  predicate IsGated(v: int)
  {
    v == 0 || 30 <= v <= 50
  }

  /**
   * The value written into a centre: the mean `s / 49` (a float in the
   * source) is kept when 30 <= mean <= 50 and truncated on the uint8 store,
   * otherwise 0. The float test is the integer test 1470 <= s <= 2450.
   */
  function Gate(s: int): (v: Byte)
    ensures v == (if 1470 <= s <= 2450 then s / 49 else 0)
    ensures IsGated(v)
    ensures v != 0 <==> 1470 <= s <= 2450
  {
    var mean := s as real / 49.0;
    if 30.0 <= mean <= 50.0 then mean.Floor else 0
  }

  /** One update: the centre (i+3, j+3) of window (i, j) receives the gated mean of the window as it stands. */
  function Step(g: seq<seq<Byte>>, i: nat, j: nat): (g': seq<seq<Byte>>)
    requires WindowFits(g, i, j)
    ensures |g'| == |g| && forall r :: 0 <= r < |g| ==> |g'[r]| == |g[r]|
  {
    var row: seq<Byte> := g[i + 3][j + 3 := Gate(WindowSum(g, i, j))];
    g[i + 3 := row]
  }

  /** Number of top-left positions along an axis of length `n` at which a 7-cell window fits. */
  function Fits(n: nat): nat
  {
    if n >= 7 then n - 6 else 0
  }

  /** Number of top-left positions `range(0, n - 7)` visits along an axis of length `n`. */
  function Span(n: nat): nat
  {
    if n > 7 then n - 7 else 0
  }

  /** Updates at (i, 0), ..., (i, n-1), each reading the grid the previous one left. */
  function PassRow(g: seq<seq<Byte>>, h: nat, w: nat, i: nat, n: nat): (g': seq<seq<Byte>>)
    requires IsGrid(g, h, w) && i < Fits(h) && n <= Fits(w)
    ensures IsGrid(g', h, w)
    decreases n
  {
    if n == 0 then g else Step(PassRow(g, h, w, i, n - 1), i, n - 1)
  }

  /** Rows 0, ..., n-1 of top-left positions, `cols` positions in each, in row-major order. */
  function PassRows(g: seq<seq<Byte>>, h: nat, w: nat, n: nat, cols: nat): (g': seq<seq<Byte>>)
    requires IsGrid(g, h, w) && n <= Fits(h) && cols <= Fits(w)
    ensures IsGrid(g', h, w)
    decreases n
  {
    if n == 0 then g else PassRow(PassRows(g, h, w, n - 1, cols), h, w, n - 1, cols)
  }

  /** The grid in force just before the update at (i, j): every earlier position in row-major order has been applied. */
  function Before(g: seq<seq<Byte>>, h: nat, w: nat, i: nat, j: nat, cols: nat): (g': seq<seq<Byte>>)
    requires IsGrid(g, h, w) && i < Fits(h) && j <= cols <= Fits(w)
    ensures IsGrid(g', h, w)
  {
    PassRow(PassRows(g, h, w, i, cols), h, w, i, j)
  }

  /** The mask after lines 42-46 as written: top-left rows and columns `range(0, h - 7)` and `range(0, w - 7)`. */
  function Convolved(g: seq<seq<Byte>>, h: nat, w: nat): (g': seq<seq<Byte>>)
    requires IsGrid(g, h, w)
    ensures IsGrid(g', h, w)
  {
    PassRows(g, h, w, Span(h), Span(w))
  }

  /** The pass over every top-left position whose window fits, `range(0, h - 6)` and `range(0, w - 6)`. */
  function ConvolvedIntended(g: seq<seq<Byte>>, h: nat, w: nat): (g': seq<seq<Byte>>)
    requires IsGrid(g, h, w)
    ensures IsGrid(g', h, w)
  {
    PassRows(g, h, w, Fits(h), Fits(w))
  }

  /** One update changes the centre of its window and no other cell. */
  lemma StepCell(g: seq<seq<Byte>>, i: nat, j: nat, r: nat, c: nat)
    requires WindowFits(g, i, j) && r < |g| && c < |g[r]|
    ensures Step(g, i, j)[r][c] == if r == i + 3 && c == j + 3 then Gate(WindowSum(g, i, j)) else g[r][c]
  {
  }

  /** Within one row of updates, only centres (i+3, 3..n+2) change, each to the gated mean of its window at its turn. */
  lemma {:induction false} PassRowCell(g: seq<seq<Byte>>, h: nat, w: nat, i: nat, n: nat, r: nat, c: nat)
    requires IsGrid(g, h, w) && i < Fits(h) && n <= Fits(w) && r < h && c < w
    ensures r == i + 3 && 3 <= c < n + 3 ==>
      PassRow(g, h, w, i, n)[r][c] == Gate(WindowSum(PassRow(g, h, w, i, c - 3), i, c - 3))
    ensures !(r == i + 3 && 3 <= c < n + 3) ==> PassRow(g, h, w, i, n)[r][c] == g[r][c]
  {
    if n > 0 {
      var prev := PassRow(g, h, w, i, n - 1);
      assert PassRow(g, h, w, i, n) == Step(prev, i, n - 1);
      PassRowCell(g, h, w, i, n - 1, r, c);
      StepCell(prev, i, n - 1, r, c);
    }
  }

  /**
   * After `n` rows of updates, a cell (r, c) with 3 <= r < n + 3 and
   * 3 <= c < cols + 3 holds the gated mean of its window over the grid left by
   * all earlier updates; every other cell keeps its original value.
   */
  lemma {:induction false} PassRowsCell(g: seq<seq<Byte>>, h: nat, w: nat, n: nat, cols: nat, r: nat, c: nat)
    requires IsGrid(g, h, w) && n <= Fits(h) && cols <= Fits(w) && r < h && c < w
    ensures 3 <= r < n + 3 && 3 <= c < cols + 3 ==>
      PassRows(g, h, w, n, cols)[r][c] == Gate(WindowSum(Before(g, h, w, r - 3, c - 3, cols), r - 3, c - 3))
    ensures !(3 <= r < n + 3 && 3 <= c < cols + 3) ==> PassRows(g, h, w, n, cols)[r][c] == g[r][c]
  {
    if n > 0 {
      PassRowsCell(g, h, w, n - 1, cols, r, c);
      PassRowCell(PassRows(g, h, w, n - 1, cols), h, w, n - 1, cols, r, c);
    }
  }

  /**
   * The pass as written rewrites exactly the centres 3 <= r <= h-5,
   * 3 <= c <= w-5, each with the gated mean of its window as the earlier
   * updates left it, so each holds 0 or a value in [30, 50]; every other
   * cell keeps its value.
   */
  lemma ConvolvedCells(g: seq<seq<Byte>>, h: nat, w: nat, r: nat, c: nat)
    requires IsGrid(g, h, w) && r < h && c < w
    ensures 3 <= r <= h - 5 && 3 <= c <= w - 5 ==>
      Convolved(g, h, w)[r][c] == Gate(WindowSum(Before(g, h, w, r - 3, c - 3, Span(w)), r - 3, c - 3))
      && IsGated(Convolved(g, h, w)[r][c])
    ensures !(3 <= r <= h - 5 && 3 <= c <= w - 5) ==> Convolved(g, h, w)[r][c] == g[r][c]
  {
    PassRowsCell(g, h, w, Span(h), Span(w), r, c);
  }

  /** A grid with no more than 7 rows or no more than 7 columns comes out of the pass unchanged. */
  lemma ConvolvedSmallGrid(g: seq<seq<Byte>>, h: nat, w: nat)
    requires IsGrid(g, h, w) && (h <= 7 || w <= 7)
    ensures Convolved(g, h, w) == g
  {
    var g' := Convolved(g, h, w);
    forall r | 0 <= r < h
      ensures g'[r] == g[r]
    {
      forall c | 0 <= c < w
        ensures g'[r][c] == g[r][c]
      {
        ConvolvedCells(g, h, w, r, c);
      }
    }
  }

  /** With every fitting window updated, exactly the cells at distance >= 3 from every edge are rewritten. */
  lemma ConvolvedIntendedCells(g: seq<seq<Byte>>, h: nat, w: nat, r: nat, c: nat)
    requires IsGrid(g, h, w) && r < h && c < w
    ensures 3 <= r <= h - 4 && 3 <= c <= w - 4 ==>
      ConvolvedIntended(g, h, w)[r][c] == Gate(WindowSum(Before(g, h, w, r - 3, c - 3, Fits(w)), r - 3, c - 3))
      && IsGated(ConvolvedIntended(g, h, w)[r][c])
    ensures !(3 <= r <= h - 4 && 3 <= c <= w - 4) ==> ConvolvedIntended(g, h, w)[r][c] == g[r][c]
  {
    PassRowsCell(g, h, w, Fits(h), Fits(w), r, c);
  }

  /**
   * The window with top-left (h-7, 0) fits whenever h, w >= 7, yet the pass as
   * written never visits it: its centre (h-4, 3) keeps its mask value (255 in
   * a mask cell that was set, a value the gate cannot produce), while the
   * intended pass gates it.
   */
  lemma SkippedWindow(g: seq<seq<Byte>>, h: nat, w: nat)
    requires IsGrid(g, h, w) && h >= 7 && w >= 7 && g[h - 4][3] == 255
    ensures WindowFits(g, h - 7, 0)
    ensures Convolved(g, h, w)[h - 4][3] == 255 && !IsGated(Convolved(g, h, w)[h - 4][3])
    ensures IsGated(ConvolvedIntended(g, h, w)[h - 4][3])
  {
    ConvolvedCells(g, h, w, h - 4, 3);
    ConvolvedIntendedCells(g, h, w, h - 4, 3);
  }

  /** Overwriting the centre of window (i, j) with its gated mean, and nothing else, is one `Step`. */
  lemma WriteIsStep(before: seq<seq<Byte>>, after: seq<seq<Byte>>, h: nat, w: nat, i: nat, j: nat)
    requires IsGrid(before, h, w) && IsGrid(after, h, w) && i + 7 <= h && j + 7 <= w
    requires after[i + 3][j + 3] == Gate(WindowSum(before, i, j))
    requires forall r, c :: 0 <= r < h && 0 <= c < w && (r != i + 3 || c != j + 3) ==> after[r][c] == before[r][c]
    ensures after == Step(before, i, j)
  {
    var step := Step(before, i, j);
    forall r | 0 <= r < h
      ensures after[r] == step[r]
    {
      assert forall c :: 0 <= c < w ==> after[r][c] == step[r][c];
    }
  }

  /** Line 45, for one kernel row `k`: the weighted sum of row i + k of the window at (i, j). */
  method KernelRowSumAt(dt: array2<Byte>, i: nat, j: nat, k: nat) returns (s: int)
    requires i + 7 <= dt.Length0 && j + 7 <= dt.Length1 && k < 7
    ensures s == KernelRowSum(Snapshot(dt), i, j, k, 7)
    ensures 0 <= s <= 255 * RowWeight(k, 7)
  {
    ghost var g := Snapshot(dt);
    s := 0;
    for m := 0 to 7
      invariant s == KernelRowSum(g, i, j, k, m)
    {
      assert dt[i + k, j + m] == g[i + k][j + m];
      s := s + dt[i + k, j + m] * Kernel[k][m];
    }
    KernelRowSumBound(g, i, j, k, 7);
  }

  /** Line 45: the weighted sum of the window at (i, j), accumulated over k, then m. */
  method WindowSumAt(dt: array2<Byte>, i: nat, j: nat) returns (s: int)
    requires i + 7 <= dt.Length0 && j + 7 <= dt.Length1
    ensures s == WindowSum(Snapshot(dt), i, j)
    ensures 0 <= s <= 25 * 255
  {
    ghost var g := Snapshot(dt);
    s := 0;
    for k := 0 to 7
      invariant s == WindowPartial(g, i, j, k)
    {
      var t := KernelRowSumAt(dt, i, j, k);
      s := s + t;
    }
  }

  /** Lines 44-46: the update at top-left (i, j), in place. */
  method KernelStep(dt: array2<Byte>, i: nat, j: nat)
    requires i + 7 <= dt.Length0 && j + 7 <= dt.Length1
    modifies dt
    ensures Snapshot(dt) == Step(old(Snapshot(dt)), i, j)
  {
    ghost var before := Snapshot(dt);
    var s := WindowSumAt(dt, i, j);
    dt[i + 3, j + 3] := Gate(s);
    WriteIsStep(before, Snapshot(dt), dt.Length0, dt.Length1, i, j);
  }

  /** Lines 43-46 for one top-left row `i`: the updates at (i, 0), ..., (i, n-1) in place. */
  method KernelRow(dt: array2<Byte>, i: nat, n: nat)
    requires i < Fits(dt.Length0) && n <= Fits(dt.Length1)
    modifies dt
    ensures Snapshot(dt) == PassRow(old(Snapshot(dt)), dt.Length0, dt.Length1, i, n)
  {
    var h, w := dt.Length0, dt.Length1;
    ghost var g0 := Snapshot(dt);
    var j := 0;
    while j < n
      invariant 0 <= j <= n
      invariant Snapshot(dt) == PassRow(g0, h, w, i, j)
    {
      assert PassRow(g0, h, w, i, j + 1) == Step(PassRow(g0, h, w, i, j), i, j);
      KernelStep(dt, i, j);
      j := j + 1;
    }
  }

  /** Lines 42-46: the gated kernel pass as written, in place, row-major, over `range(0, h - 7)` x `range(0, w - 7)`. */
  method KernelPass(dt: array2<Byte>)
    modifies dt
    ensures Snapshot(dt) == Convolved(old(Snapshot(dt)), dt.Length0, dt.Length1)
  {
    var h, w := dt.Length0, dt.Length1;
    ghost var g0 := Snapshot(dt);
    var i := 0;
    while i < h - 7
      invariant 0 <= i <= Span(h)
      invariant Snapshot(dt) == PassRows(g0, h, w, i, Span(w))
    {
      assert PassRows(g0, h, w, i + 1, Span(w)) == PassRow(PassRows(g0, h, w, i, Span(w)), h, w, i, Span(w));
      KernelRow(dt, i, Span(w));
      i := i + 1;
    }
    assert i == Span(h);
  }

  /** The corrected pass: every top-left position whose window fits, `range(0, h - 6)` x `range(0, w - 6)`. */
  method KernelPassIntended(dt: array2<Byte>)
    modifies dt
    ensures Snapshot(dt) == ConvolvedIntended(old(Snapshot(dt)), dt.Length0, dt.Length1)
  {
    var h, w := dt.Length0, dt.Length1;
    ghost var g0 := Snapshot(dt);
    var i := 0;
    while i < h - 6
      invariant 0 <= i <= Fits(h)
      invariant Snapshot(dt) == PassRows(g0, h, w, i, Fits(w))
    {
      assert PassRows(g0, h, w, i + 1, Fits(w)) == PassRow(PassRows(g0, h, w, i, Fits(w)), h, w, i, Fits(w));
      KernelRow(dt, i, Fits(w));
      i := i + 1;
    }
    assert i == Fits(h);
  }
}
