/**
 * The simulated compressor of the image optimizer page (app.py, lines 18-25).
 * "Compressing" an image keeps the first `int(len(data) * (quality / 100))`
 * bytes of its encoded form; nothing is decoded or re-encoded.
 */
module Compression {
  import opened Buffers

  /** Python's `int(...)` applied to `a / d` for a positive `d`: truncation toward zero. */
  function TruncDiv(a: int, d: int): int
    requires d > 0
  {
    if a >= 0 then a / d else -((-a) / d)
  }

  /** Python's slice `s[:stop]`: a negative stop counts from the end, and both ends clamp. */
  function PrefixSlice(s: Bytes, stop: int): (r: Bytes)
    ensures r <= s
  {
    if stop >= |s| then s
    else if stop >= 0 then s[..stop]
    else if |s| + stop > 0 then s[..|s| + stop]
    else []
  }

  /** Scaling a length by a percentage stays within the length, and reaches it from 100 on. */
  lemma ScaleBounds(n: nat, quality: int)
    ensures 0 <= quality <= 100 ==> 0 <= n * quality / 100 <= n
    ensures quality >= 100 ==> n * quality / 100 >= n
  {
    if 0 <= quality <= 100 {
      MulMonotone(n, 0, quality);
      MulMonotone(n, quality, 100);
    }
    if quality >= 100 {
      MulMonotone(n, 100, quality);
    }
  }

  /**
   * simulate_compression: the first `int(len(data) * quality / 100)` bytes of `data`.
   * Whatever the quality, the result is a prefix of the input; for a percentage in
   * [0, 100] its length is the scaled length rounded down; from 100 on it is the input.
   */
  function SimulateCompression(data: Bytes, quality: int): (r: Bytes)
    ensures r <= data
    ensures 0 <= quality <= 100 ==> |r| == |data| * quality / 100
    ensures quality >= 100 ==> r == data
  {
    ScaleBounds(|data|, quality);
    PrefixSlice(data, TruncDiv(|data| * quality, 100))
  }

  /** optimize_image: the optimizer is the simulated compressor under another name. */
  function OptimizeImage(data: Bytes, quality: int): (r: Bytes)
    ensures r == SimulateCompression(data, quality)
  {
    SimulateCompression(data, quality)
  }

  /** Quality 100 keeps the whole buffer and quality 0 keeps nothing. */
  lemma QualityEndpoints(data: Bytes)
    ensures SimulateCompression(data, 100) == data
    ensures SimulateCompression(data, 0) == []
  {
  }

  /** Multiplying a length by a larger factor gives a larger product. */
  lemma MulMonotone(n: nat, lower: int, higher: int)
    requires lower <= higher
    ensures n * lower <= n * higher
  {
  }

  /** Dividing by 100 preserves order. */
  lemma DivMonotone(a: int, b: int)
    requires a <= b
    ensures a / 100 <= b / 100
  {
  }

  /** A higher quality never keeps fewer bytes: the lower quality's output is a prefix of the higher one's. */
  lemma SimulateCompressionMonotone(data: Bytes, lower: int, higher: int)
    requires 0 <= lower <= higher
    ensures SimulateCompression(data, lower) <= SimulateCompression(data, higher)
    ensures |SimulateCompression(data, lower)| <= |SimulateCompression(data, higher)|
  {
    var n := |data|;
    MulMonotone(n, 0, lower);
    MulMonotone(n, lower, higher);
    DivMonotone(n * lower, n * higher);
  }

  /**
   * A negative quality, which the page never passes, does not give an empty
   * buffer: Python's slice then cuts the scaled amount off the END of the data,
   * unless that amount truncates to zero, in which case nothing is kept.
   */
  lemma NegativeQualityCutsTail(data: Bytes, quality: int)
    requires -100 <= quality < 0
    ensures var cut := |data| * -quality / 100;
      SimulateCompression(data, quality) == if cut == 0 then [] else data[..|data| - cut]
  {
    var n := |data|;
    var cut := n * -quality / 100;
    ScaleBounds(n, -quality);
    assert n * quality == -(n * -quality) by {
      assert n * quality + n * -quality == n * (quality + -quality);
    }
    assert TruncDiv(n * quality, 100) == -cut;
  }
}
