/**
 * Step 4 of `process_image` (uploads/app.py:50-66): the filtered mask, resized
 * (resampled) to whole 50x50 blocks, is scanned block by block; each block is recorded with
 * its pixel extent and the number of its pixels that are at least 40, and the
 * records are split into a tree list (count >= 50) and a non-tree list.
 */
module GridAggregator {
  import opened Raster
  import opened Blocks

  /** Line 63: the list `[i, i + 50, j, j + 50, c]`. */
  datatype BlockRecord = BlockRecord(rowStart: int, rowEnd: int, colStart: int, colEnd: int, count: int)

  /** A pixel the aggregation counts as active. */
  predicate IsActive(v: Byte)
  {
    v >= 40
  }

  /** Active pixels among g[r][left .. left + n). */
  function RowActive(g: seq<seq<Byte>>, r: nat, left: nat, n: nat): (c: nat)
    requires r < |g| && left + n <= |g[r]|
    ensures c <= n
  {
    if n == 0 then 0 else RowActive(g, r, left, n - 1) + (if IsActive(g[r][left + n - 1]) then 1 else 0)
  }

  /** Active pixels in the first `n` rows of the block at (top, left). */
  function BlockActive(g: seq<seq<Byte>>, top: nat, left: nat, n: nat): (c: nat)
    requires BlockFits(g, top, left) && n <= 50
    ensures c <= 50 * n
  {
    if n == 0 then 0 else BlockActive(g, top, left, n - 1) + RowActive(g, top + n - 1, left, 50)
  }

  /** Line 62: `np.sum(b >= 40)` for the block at (top, left); at most the block's 2500 pixels. */
  function ActiveCount(g: seq<seq<Byte>>, top: nat, left: nat): (c: nat)
    requires BlockFits(g, top, left)
    ensures c <= 2500
  {
    BlockActive(g, top, left, 50)
  }

  /** A row with no active pixel contributes nothing to the count. */
  lemma {:induction false} RowActiveNone(g: seq<seq<Byte>>, r: nat, left: nat, n: nat)
    requires r < |g| && left + n <= |g[r]|
    requires forall c :: left <= c < left + n ==> !IsActive(g[r][c])
    ensures RowActive(g, r, left, n) == 0
  {
    if n > 0 {
      RowActiveNone(g, r, left, n - 1);
    }
  }

  /** A block with no pixel >= 40 has count 0. */
  lemma {:induction false} BlockActiveNone(g: seq<seq<Byte>>, top: nat, left: nat, n: nat)
    requires BlockFits(g, top, left) && n <= 50
    requires forall r, c :: top <= r < top + 50 && left <= c < left + 50 ==> !IsActive(g[r][c])
    ensures BlockActive(g, top, left, n) == 0
  {
    if n > 0 {
      BlockActiveNone(g, top, left, n - 1);
      RowActiveNone(g, top + n - 1, left, 50);
    }
  }

  /**
   * The record line 63 appends for the block at (top, left): it spans exactly
   * that 50x50 block, and its count is at most the block's 2500 pixels.
   */
  function RecordAt(g: seq<seq<Byte>>, top: nat, left: nat): (r: BlockRecord)
    requires BlockFits(g, top, left)
    ensures r.rowStart == top && r.rowEnd == top + 50 && r.colStart == left && r.colEnd == left + 50
    ensures r.count <= 2500
  {
    BlockRecord(top, top + 50, left, left + 50, ActiveCount(g, top, left))
  }

  /** Records of the first `n` blocks of the block row whose top pixel row is `top`, left to right. */
  function RowRecords(g: seq<seq<Byte>>, height: nat, width: nat, top: nat, n: nat): (b: seq<BlockRecord>)
    requires IsGrid(g, height, width) && top + 50 <= height && 50 * n <= width
    ensures |b| == n
  {
    if n == 0 then []
    else
      GridBlockFits(g, height, width, top, 50 * (n - 1));
      RowRecords(g, height, width, top, n - 1) + [RecordAt(g, top, 50 * (n - 1))]
  }

  /** Records of the first `rows` block rows, `cols` blocks each, row after row. */
  function GridRecords(g: seq<seq<Byte>>, height: nat, width: nat, rows: nat, cols: nat): (b: seq<BlockRecord>)
    requires IsGrid(g, height, width) && 50 * rows <= height && 50 * cols <= width
    ensures |b| == rows * cols
  {
    if rows == 0 then []
    else
      var b := GridRecords(g, height, width, rows - 1, cols) + RowRecords(g, height, width, 50 * (rows - 1), cols);
      assert rows * cols == (rows - 1) * cols + cols;
      b
  }

  /** The r-th record of a block row is that of the block 50 * r pixels from the left edge. */
  lemma {:induction false} RowRecordsAt(g: seq<seq<Byte>>, height: nat, width: nat, top: nat, n: nat, r: nat)
    requires IsGrid(g, height, width) && top + 50 <= height && 50 * n <= width && r < n
    ensures BlockFits(g, top, 50 * r) && RowRecords(g, height, width, top, n)[r] == RecordAt(g, top, 50 * r)
  {
    GridBlockFits(g, height, width, top, 50 * r);
    if r < n - 1 {
      RowRecordsAt(g, height, width, top, n - 1, r);
    }
  }

  /** The k-th record of the grid is that of the k-th block in row-major order, a block inside the grid. */
  lemma {:induction false} GridRecordsAt(g: seq<seq<Byte>>, height: nat, width: nat, rows: nat, cols: nat, k: nat)
    requires IsGrid(g, height, width) && 50 * rows <= height && 50 * cols <= width && k < rows * cols
    ensures cols > 0
    ensures var (top, left) := Origin(k, cols);
      top + 50 <= 50 * rows && left + 50 <= 50 * cols && BlockFits(g, top, left)
      && GridRecords(g, height, width, rows, cols)[k] == RecordAt(g, top, left)
  {
    var before := (rows - 1) * cols;
    var upper := GridRecords(g, height, width, rows - 1, cols);
    var last := RowRecords(g, height, width, 50 * (rows - 1), cols);
    assert GridRecords(g, height, width, rows, cols) == upper + last;
    if k < before {
      GridRecordsAt(g, height, width, rows - 1, cols, k);
      assert (upper + last)[k] == upper[k];
    } else {
      var r := k - before;
      assert rows * cols == before + cols;
      OriginOfIndex(rows - 1, r, cols);
      RowRecordsAt(g, height, width, 50 * (rows - 1), cols, r);
      assert (upper + last)[k] == last[r];
    }
  }

  /**
   * The records `Aggregate` returns: the k-th is that of the k-th block of the
   * truncated grid in row-major order, giving the block's extent inside the
   * grid and its active-pixel count.
   */
  lemma GridRecordsCover(g: seq<seq<Byte>>, h: nat, w: nat)
    requires IsGrid(g, Truncate(h), Truncate(w))
    ensures forall k :: 0 <= k < (h / 50) * (w / 50) ==> (w / 50 > 0 &&
      var (top, left) := Origin(k, w / 50);
      top + 50 <= Truncate(h) && left + 50 <= Truncate(w) && BlockFits(g, top, left) &&
      GridRecords(g, Truncate(h), Truncate(w), h / 50, w / 50)[k]
        == BlockRecord(top, top + 50, left, left + 50, ActiveCount(g, top, left)))
  {
    forall k | 0 <= k < (h / 50) * (w / 50)
      ensures w / 50 > 0 && var (top, left) := Origin(k, w / 50);
        top + 50 <= Truncate(h) && left + 50 <= Truncate(w) && BlockFits(g, top, left) &&
        GridRecords(g, Truncate(h), Truncate(w), h / 50, w / 50)[k]
          == BlockRecord(top, top + 50, left, left + 50, ActiveCount(g, top, left))
    {
      GridRecordsAt(g, Truncate(h), Truncate(w), h / 50, w / 50, k);
    }
  }

  /**
   * Lines 60-63: one pass of the inner loop, over the blocks of the block row
   * whose top pixel row is `i`, appending their records to the `b0` already
   * collected for the rows above.
   */
  method AggregateRow(dt: seq<seq<Byte>>, h: nat, w: nat, i: nat, b0: seq<BlockRecord>) returns (b1: seq<BlockRecord>)
    requires IsGrid(dt, Truncate(h), Truncate(w)) && i + 50 <= Truncate(h)
    ensures b1 == b0 + RowRecords(dt, Truncate(h), Truncate(w), i, w / 50)
  {
    var newwidth := Truncate(w);
    b1 := b0;
    var j := 0;
    ghost var bj := 0;
    while j < newwidth
      invariant j == 50 * bj && bj <= w / 50
      invariant b1 == b0 + RowRecords(dt, Truncate(h), newwidth, i, bj)
    {
      GridBlockFits(dt, Truncate(h), newwidth, i, j);
      var c := ActiveCount(dt, i, j);
      b1 := b1 + [BlockRecord(i, i + 50, j, j + 50, c)];
      j, bj := j + 50, bj + 1;
    }
  }

  /**
   * Lines 51-63: the mask is resampled to `Truncate(h)` x `Truncate(w)` pixels
   * (the resize of line 54 is not modelled: `dt` is the grid it produced);
   * the result has one record per block, in row-major order;
   * `GridRecordsCover` says what each record holds.
   */
  method Aggregate(dt: seq<seq<Byte>>, h: nat, w: nat) returns (b1: seq<BlockRecord>)
    requires IsGrid(dt, Truncate(h), Truncate(w))
    ensures |b1| == (h / 50) * (w / 50)
    ensures b1 == GridRecords(dt, Truncate(h), Truncate(w), h / 50, w / 50)
  {
    var newheight := Truncate(h);
    b1 := [];
    var i := 0;
    ghost var bi := 0;
    while i < newheight
      invariant i == 50 * bi && bi <= h / 50
      invariant b1 == GridRecords(dt, newheight, Truncate(w), bi, w / 50)
    {
      b1 := AggregateRow(dt, h, w, i, b1);
      i, bi := i + 50, bi + 1;
    }
    assert bi == h / 50;
  }

  /**
   * Lines 65-66: the records of `b1` whose count is (`tree`) or is not
   * (`nontree`) at least 50, in order. No longer than `b1`, and every record
   * in it comes from `b1` and is of the class asked for.
   */
  function Select(b1: seq<BlockRecord>, tree: bool): (s: seq<BlockRecord>)
    ensures |s| <= |b1|
    ensures forall x :: x in s ==> x in b1 && (x.count >= 50) == tree
  {
    if b1 == [] then []
    else (if (b1[0].count >= 50) == tree then [b1[0]] else []) + Select(b1[1..], tree)
  }

  /** Line 65: every record kept has count at least 50. */
  function Trees(b1: seq<BlockRecord>): (t: seq<BlockRecord>)
    ensures |t| <= |b1|
    ensures forall x :: x in t ==> x in b1 && x.count >= 50
  {
    Select(b1, true)
  }

  /** Line 66: every record kept has count below 50. */
  function NonTrees(b1: seq<BlockRecord>): (t: seq<BlockRecord>)
    ensures |t| <= |b1|
    ensures forall x :: x in t ==> x in b1 && x.count < 50
  {
    Select(b1, false)
  }

  /** `a` is `b` with some elements left out, the rest in their order. */
  predicate IsSubsequence(a: seq<BlockRecord>, b: seq<BlockRecord>)
    decreases |b|
  {
    if a == [] then true
    else if b == [] then false
    else if a[0] == b[0] then IsSubsequence(a[1..], b[1..])
    else IsSubsequence(a, b[1..])
  }

  /** Each list keeps exactly the records of its class, in `b1`'s order. */
  lemma {:induction false} SelectKeepsClass(b1: seq<BlockRecord>, tree: bool)
    ensures forall x :: x in Select(b1, tree) <==> x in b1 && (x.count >= 50) == tree
    ensures IsSubsequence(Select(b1, tree), b1)
  {
    if b1 != [] {
      SelectKeepsClass(b1[1..], tree);
      var rest := Select(b1[1..], tree);
      assert b1 == [b1[0]] + b1[1..];
      if (b1[0].count >= 50) == tree {
        assert Select(b1, tree) == [b1[0]] + rest;
        assert Select(b1, tree)[1..] == rest;
      } else {
        assert Select(b1, tree) == rest;
        SubsequenceSkip(rest, b1);
      }
    }
  }

  /** Skipping the head of `b` keeps a subsequence of its tail a subsequence of `b`. */
  lemma {:induction false} SubsequenceSkip(a: seq<BlockRecord>, b: seq<BlockRecord>)
    requires b != [] && IsSubsequence(a, b[1..])
    ensures IsSubsequence(a, b)
    decreases |b|, |a|
  {
    if a != [] && a[0] == b[0] {
      SubsequenceTail(a, b[1..]);
    }
  }

  /** A subsequence of `b` with its head removed is still a subsequence of `b`. */
  lemma {:induction false} SubsequenceTail(a: seq<BlockRecord>, b: seq<BlockRecord>)
    requires a != [] && IsSubsequence(a, b)
    ensures IsSubsequence(a[1..], b)
    decreases |b|, |a|
  {
    assert b != [];
    if a[0] == b[0] {
      assert IsSubsequence(a[1..], b[1..]);
      SubsequenceSkip(a[1..], b);
    } else {
      SubsequenceTail(a, b[1..]);
      SubsequenceSkip(a[1..], b);
    }
  }

  /**
   * Lines 65-66: `tree` and `nontree` split `b1`: together they hold every
   * record as many times as `b1` does, no record is in both, and each list
   * keeps `b1`'s order.
   */
  lemma {:induction false} Partition(b1: seq<BlockRecord>)
    ensures multiset(Trees(b1)) + multiset(NonTrees(b1)) == multiset(b1)
    ensures |Trees(b1)| + |NonTrees(b1)| == |b1|
    ensures forall x :: x in Trees(b1) <==> x in b1 && x.count >= 50
    ensures forall x :: x in NonTrees(b1) <==> x in b1 && x.count < 50
    ensures IsSubsequence(Trees(b1), b1) && IsSubsequence(NonTrees(b1), b1)
  {
    SelectKeepsClass(b1, true);
    SelectKeepsClass(b1, false);
    SelectMultiset(b1);
    assert |multiset(Trees(b1)) + multiset(NonTrees(b1))| == |multiset(b1)|;
  }

  /** The two selections together are a permutation of the input. */
  lemma {:induction false} SelectMultiset(b1: seq<BlockRecord>)
    ensures multiset(Select(b1, true)) + multiset(Select(b1, false)) == multiset(b1)
  {
    if b1 != [] {
      var t, n := Select(b1[1..], true), Select(b1[1..], false);
      SelectMultiset(b1[1..]);
      assert multiset(b1) == multiset([b1[0]]) + multiset(b1[1..]) by {
        assert b1 == [b1[0]] + b1[1..];
      }
      if b1[0].count >= 50 {
        assert Select(b1, true) == [b1[0]] + t && Select(b1, false) == n;
      } else {
        assert Select(b1, true) == t && Select(b1, false) == [b1[0]] + n;
      }
    }
  }

  /**
   * For the records the scan of a `Truncate(h)` x `Truncate(w)` grid
   * produces, the tree and non-tree lists together hold one record per block
   * of that grid: every block is listed exactly once, in one of the two.
   */
  lemma ListsCoverGrid(dt: seq<seq<Byte>>, h: nat, w: nat)
    requires IsGrid(dt, Truncate(h), Truncate(w))
    ensures var b1 := GridRecords(dt, Truncate(h), Truncate(w), h / 50, w / 50);
      && |Trees(b1)| + |NonTrees(b1)| == (Truncate(h) / 50) * (Truncate(w) / 50)
      && multiset(Trees(b1)) + multiset(NonTrees(b1)) == multiset(b1)
  {
    var b1 := GridRecords(dt, Truncate(h), Truncate(w), h / 50, w / 50);
    Partition(b1);
  }
}
