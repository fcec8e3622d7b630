/**
 * Single-channel 8-bit rasters, the values every stage of `process_image`
 * passes along (numpy `uint8` arrays of shape (height, width)).
 */
module Raster {

  /** One pixel of a greyscale (`mode='L'`) image. */
  type Byte = x: int | 0 <= x < 256

  /** `g` has `h` rows of `w` pixels each. */
  predicate IsGrid(g: seq<seq<Byte>>, h: nat, w: nat)
  {
    |g| == h && forall r :: 0 <= r < h ==> |g[r]| == w
  }

  /** The pixels of an in-memory raster, row by row. */
  ghost function Snapshot(a: array2<Byte>): (g: seq<seq<Byte>>)
    reads a
    ensures IsGrid(g, a.Length0, a.Length1)
    ensures forall r, c :: 0 <= r < a.Length0 && 0 <= c < a.Length1 ==> g[r][c] == a[r, c]
  {
    seq(a.Length0, r requires 0 <= r < a.Length0 reads a =>
      seq(a.Length1, c requires 0 <= c < a.Length1 reads a => a[r, c]))
  }
}
