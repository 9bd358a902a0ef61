/** The output buffer of the texture decoders: `bytearray(4 * width *
    height)`, filled by slice assignments `ret[4k:4k+4] = texel` for
    k = 0, 1, 2, ... . Since a slice assignment clamps its bounds, a write
    that starts at the end appends; the buffer then grows instead of
    failing. */
module PixelBuffer {
  import opened Common

  /** `bytearray(4 * width * height)`: zeros, or an error for a negative
      count (exactly one of the two dimensions negative). */
  function NewBuffer(width: int, height: int): (r: Result<seq<u8>>)
    ensures r.Ok? <==> width * height >= 0
    ensures r.Ok? ==> r.value == Zeros(4 * width * height)
  {
    if width * height < 0 then Err(NegativeCount) else Ok(Zeros(4 * width * height))
  }

  /** The index of pixel (col, row) in a row-major buffer `width` pixels
      wide: `row` whole rows of `width` pixels, then `col` more. */
  function PixelIndex(width: nat, row: nat, col: nat): nat
    decreases row
  {
    if row == 0 then col else PixelIndex(width, row - 1, col) + width
  }

  /** The pixel index is `row * width + col`, the index the decoders write
      at. */
  lemma {:induction false} PixelIndexProduct(width: nat, row: nat, col: nat)
    ensures PixelIndex(width, row, col) == row * width + col
    decreases row
  {
    if row > 0 {
      PixelIndexProduct(width, row - 1, col);
      assert row * width == (row - 1) * width + width;
    }
  }

  /** The buffer after writing `cs[k]` at `4k` for every k in order. */
  function WriteRun(init: seq<u8>, cs: seq<seq<u8>>): seq<u8>
    decreases |cs|
  {
    if |cs| == 0 then init
    else
      var k := |cs| - 1;
      SliceAssign(WriteRun(init, cs[..k]), 4 * k, 4 * k + 4, cs[k])
  }

  /** The chunks laid end to end. */
  function Flatten(cs: seq<seq<u8>>): seq<u8>
    decreases |cs|
  {
    if |cs| == 0 then [] else Flatten(cs[..|cs| - 1]) + cs[|cs| - 1]
  }

  /** `out` written over the start of `init`, extending it if longer. */
  function Overlay(init: seq<u8>, out: seq<u8>): (r: seq<u8>)
    ensures |r| == if |out| < |init| then |init| else |out|
    ensures r[..|out|] == out
    ensures forall p :: |out| <= p < |init| ==> r[p] == init[p]
  {
    if |out| < |init| then out + init[|out|..] else out
  }

  /** Every chunk is one 4-byte texel. */
  predicate AllTexels(cs: seq<seq<u8>>)
  {
    forall k :: 0 <= k < |cs| ==> |cs[k]| == 4
  }

  /** Writing 4-byte texels one after another lays them end to end over
      the initial buffer. */
  lemma {:induction false} WriteRunOverlay(init: seq<u8>, cs: seq<seq<u8>>)
    requires AllTexels(cs)
    ensures |Flatten(cs)| == 4 * |cs|
    ensures WriteRun(init, cs) == Overlay(init, Flatten(cs))
    decreases |cs|
  {
    if |cs| > 0 {
      var k := |cs| - 1;
      var f := Flatten(cs[..k]);
      WriteRunOverlay(init, cs[..k]);
      var prev := Overlay(init, f);
      assert WriteRun(init, cs) == SliceAssign(prev, 4 * k, 4 * k + 4, cs[k]);
      assert Flatten(cs) == f + cs[k];
      if 4 * k + 4 <= |init| {
        assert prev == f + init[4 * k..];
        assert prev[..4 * k] == f;
        assert prev[4 * k + 4..] == init[4 * k + 4..];
      } else if 4 * k < |init| {
        assert prev[..4 * k] == f;
      } else {
        assert prev == f;
      }
    }
  }

  /** Chunk k of the flattened texels is at bytes 4k..4k+3. */
  lemma {:induction false} FlattenAt(cs: seq<seq<u8>>, k: nat)
    requires AllTexels(cs) && k < |cs|
    ensures |Flatten(cs)| == 4 * |cs|
    ensures Flatten(cs)[4 * k..4 * k + 4] == cs[k]
    decreases |cs|
  {
    WriteRunOverlay([], cs);
    var n := |cs| - 1;
    if k < n {
      FlattenAt(cs[..n], k);
      assert Flatten(cs) == Flatten(cs[..n]) + cs[n];
      assert Flatten(cs)[4 * k..4 * k + 4] == Flatten(cs[..n])[4 * k..4 * k + 4];
    } else {
      WriteRunOverlay([], cs[..n]);
    }
  }

  /** Pixel k of a buffer: its bytes 4k..4k+3. */
  function Pixel(out: seq<u8>, k: nat): seq<u8>
    requires 4 * k + 4 <= |out|
  {
    out[4 * k..4 * k + 4]
  }

  /** Texels written over a fresh zero buffer of `n` bytes: the buffer is
      as long as the larger of `n` and the texels, pixel k is texel k, and
      the bytes beyond the last texel are zero. */
  lemma ZeroRun(n: nat, cs: seq<seq<u8>>)
    requires AllTexels(cs)
    ensures var out := WriteRun(Zeros(n), cs);
      && |out| == (if 4 * |cs| < n then n else 4 * |cs|)
      && (forall k :: 0 <= k < |cs| ==> Pixel(out, k) == cs[k])
      && (forall p :: 4 * |cs| <= p < |out| ==> out[p] == 0)
  {
    WriteRunPixels(Zeros(n), cs);
  }

  /** The buffer after the writes: as long as the larger of the initial
      buffer and the texels, texel k at bytes 4k..4k+3, and the initial
      bytes beyond the last texel. */
  lemma WriteRunPixels(init: seq<u8>, cs: seq<seq<u8>>)
    requires AllTexels(cs)
    ensures |WriteRun(init, cs)| == if 4 * |cs| < |init| then |init| else 4 * |cs|
    ensures forall k :: 0 <= k < |cs| ==> WriteRun(init, cs)[4 * k..4 * k + 4] == cs[k]
    ensures forall p :: 4 * |cs| <= p < |init| ==> WriteRun(init, cs)[p] == init[p]
  {
    WriteRunOverlay(init, cs);
    var out := Flatten(cs);
    forall k | 0 <= k < |cs|
      ensures WriteRun(init, cs)[4 * k..4 * k + 4] == cs[k]
    {
      FlattenAt(cs, k);
      assert Overlay(init, out)[..|out|][4 * k..4 * k + 4] == out[4 * k..4 * k + 4];
    }
  }

  /** One more write extends the run by one chunk. */
  lemma WriteRunSnoc(init: seq<u8>, cs: seq<seq<u8>>, k: nat)
    requires k < |cs|
    ensures WriteRun(init, cs[..k + 1]) == SliceAssign(WriteRun(init, cs[..k]), 4 * k, 4 * k + 4, cs[k])
  {
    assert cs[..k + 1][..k] == cs[..k];
  }

  /** Two more writes, of the next two chunks at the next two slots,
      extend the run by two chunks. */
  lemma WriteRunSnoc2(init: seq<u8>, cs: seq<seq<u8>>, k: nat, w: seq<u8>, pos: nat, e1: seq<u8>, e2: seq<u8>)
    requires k + 1 < |cs| && pos == 4 * k && w == WriteRun(init, cs[..k])
    requires cs[k] == e1 && cs[k + 1] == e2
    ensures SliceAssign(SliceAssign(w, pos, pos + 4, e1), pos + 4, pos + 8, e2) == WriteRun(init, cs[..k + 2])
  {
    WriteRunSnoc(init, cs, k);
    var m := k + 1;
    var w1 := SliceAssign(w, pos, pos + 4, e1);
    assert w1 == WriteRun(init, cs[..m]);
    WriteRunSnoc(init, cs, m);
    assert 4 * m == pos + 4 && m + 1 == k + 2;
  }
}
