/**
 * Step 5 of `process_image` (uploads/app.py:71-91): the filtered mask, as
 * read back from disk at its own size, is scanned in whole 50x50 blocks; each
 * block's raw pixel sum decides its label and colours, and a rectangle and a
 * text label are drawn for it. The model produces the list of drawing
 * records; rasterising them is not modelled.
 */
module RegionAnnotator {
  import opened Raster
  import opened Blocks
  import GridAggregator

  /** The text drawn in a block: `'tree'` or `'NT'`. */
  datatype Label = Tree | NonTree

  /** The colours the annotation uses, by their PIL names. */
  datatype Colour = Green | White | Black | Red

  /** `[left, top, right, bottom]` as passed to `draw.rectangle`. */
  datatype Rect = Rect(left: int, top: int, right: int, bottom: int)

  /** `(x, y)` as passed to `draw.text`. */
  datatype Point = Point(x: int, y: int)

  /** One block's drawing: an outlined rectangle and a label text anchored in it. */
  datatype Annotation = Annotation(box: Rect, outline: Colour, text: Label, anchor: Point, fill: Colour)

  /** Lines 83-85 and 88: the text drawn for a label; each label has its own text. */
  function LabelText(l: Label): (t: string)
    ensures t == "tree" <==> l == Tree
    ensures t == "NT" <==> l == NonTree
  {
    match l
    case Tree => "tree"
    case NonTree => "NT"
  }

  /** Lines 83-86 and 88: the PIL name of a colour; no two colours share a name. */
  function ColourName(c: Colour): (n: string)
    ensures n == "green" <==> c == Green
    ensures n == "white" <==> c == White
    ensures n == "black" <==> c == Black
    ensures n == "red" <==> c == Red
  {
    match c
    case Green => "green"
    case White => "white"
    case Black => "black"
    case Red => "red"
  }

  /** Sum of g[r][left .. left + n). */
  function RowSum(g: seq<seq<Byte>>, r: nat, left: nat, n: nat): (s: nat)
    requires r < |g| && left + n <= |g[r]|
    ensures s <= 255 * n
  {
    if n == 0 then 0 else RowSum(g, r, left, n - 1) + g[r][left + n - 1]
  }

  /** Sum of the first `n` rows of the block at (top, left). */
  function BlockSumRows(g: seq<seq<Byte>>, top: nat, left: nat, n: nat): (s: nat)
    requires BlockFits(g, top, left) && n <= 50
    ensures s <= 255 * 50 * n
  {
    if n == 0 then 0 else BlockSumRows(g, top, left, n - 1) + RowSum(g, top + n - 1, left, 50)
  }

  /**
   * Line 80: `np.sum(block)`, accumulated without wrap-around, at most
   * 2500 * 255.
   */
  function BlockSum(g: seq<seq<Byte>>, top: nat, left: nat): (s: nat)
    requires BlockFits(g, top, left)
    ensures s <= 2500 * 255
  {
    BlockSumRows(g, top, left, 50)
  }

  /**
   * Lines 81-88: `m` is the drawing of the block at (top, left): its
   * rectangle is the block's extent, its label point the block's centre, and
   * its label is `tree`, outlined green with white text, exactly when the
   * block's pixel sum exceeds 10, and otherwise `NT`, outlined black with red
   * text.
   */
  predicate Draws(m: Annotation, g: seq<seq<Byte>>, top: nat, left: nat)
    requires BlockFits(g, top, left)
  {
    && m.box == Rect(left, top, left + 50, top + 50)
    && m.anchor == Point(left + 25, top + 25)
    && (m.text == Tree <==> BlockSum(g, top, left) > 10)
    && m.outline == (if m.text == Tree then Green else Black)
    && m.fill == (if m.text == Tree then White else Red)
  }

  /** The drawing lines 80-88 produce for the block at (top, left); it is the one `Draws` describes. */
  function MarkAt(g: seq<seq<Byte>>, top: nat, left: nat): (m: Annotation)
    requires BlockFits(g, top, left)
    ensures Draws(m, g, top, left)
  {
    var tree := BlockSum(g, top, left) > 10;
    Annotation(Rect(left, top, left + 50, top + 50), if tree then Green else Black,
      if tree then Tree else NonTree, Point(left + 25, top + 25), if tree then White else Red)
  }

  /** Drawings of the first `n` blocks of the block row whose top pixel row is `top`, left to right. */
  function RowMarks(g: seq<seq<Byte>>, height: nat, width: nat, top: nat, n: nat): (m: seq<Annotation>)
    requires IsGrid(g, height, width) && top + 50 <= height && 50 * n <= width
    ensures |m| == n
  {
    if n == 0 then []
    else
      GridBlockFits(g, height, width, top, 50 * (n - 1));
      RowMarks(g, height, width, top, n - 1) + [MarkAt(g, top, 50 * (n - 1))]
  }

  /** Drawings of the first `rows` block rows, `cols` blocks each, row after row. */
  function GridMarks(g: seq<seq<Byte>>, height: nat, width: nat, rows: nat, cols: nat): (m: seq<Annotation>)
    requires IsGrid(g, height, width) && 50 * rows <= height && 50 * cols <= width
    ensures |m| == rows * cols
  {
    if rows == 0 then []
    else
      var m := GridMarks(g, height, width, rows - 1, cols) + RowMarks(g, height, width, 50 * (rows - 1), cols);
      assert rows * cols == (rows - 1) * cols + cols;
      m
  }

  /** The r-th drawing of a block row is that of the block 50 * r pixels from the left edge. */
  lemma {:induction false} RowMarksAt(g: seq<seq<Byte>>, height: nat, width: nat, top: nat, n: nat, r: nat)
    requires IsGrid(g, height, width) && top + 50 <= height && 50 * n <= width && r < n
    ensures BlockFits(g, top, 50 * r) && Draws(RowMarks(g, height, width, top, n)[r], g, top, 50 * r)
  {
    GridBlockFits(g, height, width, top, 50 * r);
    if r < n - 1 {
      RowMarksAt(g, height, width, top, n - 1, r);
    }
  }

  /** The k-th drawing of the grid is that of the k-th block in row-major order, a block inside the grid. */
  lemma {:induction false} GridMarksAt(g: seq<seq<Byte>>, height: nat, width: nat, rows: nat, cols: nat, k: nat)
    requires IsGrid(g, height, width) && 50 * rows <= height && 50 * cols <= width && k < rows * cols
    ensures cols > 0
    ensures var (top, left) := Origin(k, cols);
      top + 50 <= 50 * rows && left + 50 <= 50 * cols && BlockFits(g, top, left)
      && Draws(GridMarks(g, height, width, rows, cols)[k], g, top, left)
  {
    var before := (rows - 1) * cols;
    var upper := GridMarks(g, height, width, rows - 1, cols);
    var last := RowMarks(g, height, width, 50 * (rows - 1), cols);
    assert GridMarks(g, height, width, rows, cols) == upper + last;
    if k < before {
      GridMarksAt(g, height, width, rows - 1, cols, k);
    } else {
      var r := k - before;
      assert rows * cols == before + cols;
      OriginOfIndex(rows - 1, r, cols);
      RowMarksAt(g, height, width, 50 * (rows - 1), cols, r);
    }
  }

  /**
   * The drawings `Annotate` returns: the k-th is that of the k-th whole block
   * in row-major order, a block inside the image, drawn as `Draws` says.
   */
  lemma GridMarksDraw(g: seq<seq<Byte>>, h: nat, w: nat)
    requires IsGrid(g, h, w)
    ensures forall k :: 0 <= k < (h / 50) * (w / 50) ==> (w / 50 > 0 &&
      var (top, left) := Origin(k, w / 50);
      top + 50 <= h && left + 50 <= w && BlockFits(g, top, left)
      && Draws(GridMarks(g, h, w, h / 50, w / 50)[k], g, top, left))
  {
    forall k | 0 <= k < (h / 50) * (w / 50)
      ensures w / 50 > 0 && var (top, left) := Origin(k, w / 50);
        top + 50 <= h && left + 50 <= w && BlockFits(g, top, left)
        && Draws(GridMarks(g, h, w, h / 50, w / 50)[k], g, top, left)
    {
      GridMarksAt(g, h, w, h / 50, w / 50, k);
    }
  }

  /**
   * Lines 79-88: one pass of the inner loop, over the whole blocks of the
   * block row whose top pixel row is `i`, appending their drawings to the
   * `m0` already made for the rows above.
   */
  method AnnotateRow(dt: seq<seq<Byte>>, h: nat, w: nat, i: nat, m0: seq<Annotation>) returns (marks: seq<Annotation>)
    requires IsGrid(dt, h, w) && i + 50 <= h
    ensures marks == m0 + RowMarks(dt, h, w, i, w / 50)
  {
    var blockSize := 50;
    marks := m0;
    var j := 0;
    ghost var bj := 0;
    while j <= w - blockSize
      invariant j == 50 * bj && bj <= w / 50
      invariant marks == m0 + RowMarks(dt, h, w, i, bj)
    {
      GridBlockFits(dt, h, w, i, j);
      var r := BlockSum(dt, i, j);
      var left, top, right, bottom := j, i, j + blockSize, i + blockSize;
      var text, rectColour, textColour;
      if r > 10 {
        text, rectColour, textColour := Tree, Green, White;
      } else {
        text, rectColour, textColour := NonTree, Black, Red;
      }
      var anchor := Point(left + blockSize / 2, top + blockSize / 2);
      marks := marks + [Annotation(Rect(left, top, right, bottom), rectColour, text, anchor, textColour)];
      j, bj := j + blockSize, bj + 1;
    }
    ScanEnd(j, w);
  }

  /**
   * Lines 76-88: one drawing per whole 50x50 block of the h x w mask, in
   * row-major order (a partial block at the right or bottom edge is
   * skipped); `GridMarksDraw` says what each drawing is.
   */
  method Annotate(dt: seq<seq<Byte>>, h: nat, w: nat) returns (marks: seq<Annotation>)
    requires IsGrid(dt, h, w)
    ensures |marks| == (h / 50) * (w / 50)
    ensures marks == GridMarks(dt, h, w, h / 50, w / 50)
  {
    var blockSize := 50;
    marks := [];
    var i := 0;
    ghost var bi := 0;
    while i <= h - blockSize
      invariant i == 50 * bi && bi <= h / 50
      invariant marks == GridMarks(dt, h, w, bi, w / 50)
    {
      marks := AnnotateRow(dt, h, w, i, marks);
      i, bi := i + blockSize, bi + 1;
    }
    ScanEnd(i, h);
    assert bi == h / 50;
  }

  /** A row's sum is at least 40 per active pixel, and at least each of its pixels. */
  lemma {:induction false} RowSumCovers(g: seq<seq<Byte>>, r: nat, left: nat, n: nat)
    requires r < |g| && left + n <= |g[r]|
    ensures RowSum(g, r, left, n) >= 40 * GridAggregator.RowActive(g, r, left, n)
    ensures forall c :: left <= c < left + n ==> RowSum(g, r, left, n) >= g[r][c]
  {
    if n > 0 {
      RowSumCovers(g, r, left, n - 1);
    }
  }

  /** A block's first `n` rows sum to at least 40 per active pixel, and at least each of their pixels. */
  lemma {:induction false} BlockSumCovers(g: seq<seq<Byte>>, top: nat, left: nat, n: nat)
    requires BlockFits(g, top, left) && n <= 50
    ensures BlockSumRows(g, top, left, n) >= 40 * GridAggregator.BlockActive(g, top, left, n)
    ensures forall r, c :: top <= r < top + n && left <= c < left + 50 ==> BlockSumRows(g, top, left, n) >= g[r][c]
  {
    if n > 0 {
      BlockSumCovers(g, top, left, n - 1);
      RowSumCovers(g, top + n - 1, left, 50);
    }
  }

  /**
   * A block holding any pixel above 10 is labelled `tree`; one labelled `NT`
   * has every pixel at most 10.
   */
  lemma BrightPixelMeansTree(g: seq<seq<Byte>>, top: nat, left: nat, r: nat, c: nat)
    requires BlockFits(g, top, left) && top <= r < top + 50 && left <= c < left + 50
    requires g[r][c] > 10
    ensures BlockSum(g, top, left) > 10
  {
    BlockSumCovers(g, top, left, 50);
  }

  /**
   * On the same grid, a block step 4 counts as tree (at least 50 pixels
   * >= 40) has sum at least 2000 and is labelled `tree` by step 5.
   */
  lemma AggregatedTreeIsAnnotatedTree(g: seq<seq<Byte>>, top: nat, left: nat)
    requires BlockFits(g, top, left) && GridAggregator.ActiveCount(g, top, left) >= 50
    ensures BlockSum(g, top, left) >= 2000 && BlockSum(g, top, left) > 10
  {
    BlockSumCovers(g, top, left, 50);
  }

  /**
   * The converse fails: a block whose pixels are all below 40 but one of
   * which exceeds 10 has count 0 (non-tree in step 4) yet is labelled `tree`
   * in step 5.
   */
  lemma PassesDisagree(g: seq<seq<Byte>>, top: nat, left: nat, r: nat, c: nat)
    requires BlockFits(g, top, left) && top <= r < top + 50 && left <= c < left + 50
    requires forall r', c' :: top <= r' < top + 50 && left <= c' < left + 50 ==> g[r'][c'] < 40
    requires g[r][c] > 10
    ensures GridAggregator.ActiveCount(g, top, left) == 0
    ensures BlockSum(g, top, left) > 10
  {
    GridAggregator.BlockActiveNone(g, top, left, 50);
    BrightPixelMeansTree(g, top, left, r, c);
  }
}
