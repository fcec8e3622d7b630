/**
 * The 50x50 block grid shared by steps 4 and 5 of `process_image`: both scan
 * block origins row by row (outer loop over rows, inner loop over columns),
 * stepping 50 pixels at a time.
 */
module Blocks {
  import opened Raster

  /** Lines 51-52: a dimension rounded down to a whole number of 50-pixel blocks. */
  function Truncate(n: nat): (r: nat)
    ensures r % 50 == 0 && r <= n && n < r + 50
    ensures r == 50 * (n / 50)
  {
    n / 50 * 50
  }

  /** A scan `range(0, n - 50 + 1, 50)` stops at the first multiple of 50 past its last block, `Truncate(n)`. */
  lemma ScanEnd(i: nat, n: nat)
    requires i % 50 == 0 && i <= Truncate(n) && n < i + 50
    ensures i == Truncate(n) && i / 50 == n / 50
  {
  }

  /** The 50x50 block whose top-left pixel is (top, left) lies inside `g`. */
  predicate BlockFits(g: seq<seq<Byte>>, top: nat, left: nat)
  {
    top + 50 <= |g| && forall r :: top <= r < top + 50 ==> left + 50 <= |g[r]|
  }

  /** In an h x w grid, a block fits wherever its far edges stay within h and w. */
  lemma GridBlockFits(g: seq<seq<Byte>>, h: nat, w: nat, top: nat, left: nat)
    requires IsGrid(g, h, w) && top + 50 <= h && left + 50 <= w
    ensures BlockFits(g, top, left)
  {
  }

  /** Top-left pixel of the `k`-th block in row-major order, with `cols` blocks to a row. */
  function Origin(k: nat, cols: nat): (nat, nat)
    requires cols > 0
  {
    (50 * (k / cols), 50 * (k % cols))
  }

  /** A multiple of `c` strictly between -c and c is 0. */
  lemma SmallMultiple(x: int, c: int)
    requires c > 0 && -c < x * c < c
    ensures x == 0
  {
  }

  /** Row `q`, column `r` is block number q * cols + r, and no other. */
  lemma OriginOfIndex(q: nat, r: nat, cols: nat)
    requires r < cols
    ensures Origin(q * cols + r, cols) == (50 * q, 50 * r)
  {
    var k := q * cols + r;
    assert (q - k / cols) * cols == k % cols - r;
    SmallMultiple(q - k / cols, cols);
  }
}
