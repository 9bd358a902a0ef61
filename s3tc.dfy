/** The S3TC (DXT) block formats of the texture decoder. A block covers
    4 x 4 pixels: two 5-6-5 colour endpoints, a 32-bit word of 2-bit
    colour controls read from its low end, and for `bc2` sixteen 4-bit
    alphas, for `bc3` two alpha endpoints and sixteen 3-bit alpha indices.
    Each block decoder yields the block's 16 texels in the order the
    source visits them: row j = 0..3, and within a row column i = 0..3. */
module S3tc {
  import opened Common
  import opened Texels

  function Pow2(n: nat): (p: nat)
    ensures p >= 1
  {
    if n == 0 then 1 else 2 * Pow2(n - 1)
  }

  /** The control word after n shifts right by 2 (`bits >>= 2`). */
  function Shifted(bits: nat, n: nat): nat
  {
    if n == 0 then bits else Shifted(bits, n - 1) / 4
  }

  /** Control code n (n = 4j + i) of a block: the low two bits of the
      control word after n shifts (`bits & 3`). */
  function Control(bits: u32, n: nat): (c: nat)
    ensures c < 4
  {
    Shifted(bits, n) % 4
  }

  // ---------------------------------------------------------------------
  // Colours

  /** The colour a control code selects: an endpoint, a point between
      them (one third of the way for a block whose first endpoint is
      greater, otherwise the midpoint), or for code 3 of a block whose
      first endpoint is not greater, black. */
  function BlockRgb(color0: u16, color1: u16, control: nat): (u8, u8, u8)
    requires control < 4
  {
    var c0 := Decode565(color0);
    var c1 := Decode565(color1);
    if control == 0 then c0
    else if control == 1 then c1
    else if control == 2 then
      (if color0 > color1 then (C2a(c0.0, c1.0), C2a(c0.1, c1.1), C2a(c0.2, c1.2))
       else (C2b(c0.0, c1.0), C2b(c0.1, c1.1), C2b(c0.2, c1.2)))
    else if color0 > color1 then (C3(c0.0, c1.0), C3(c0.1, c1.1), C3(c0.2, c1.2))
    else (0, 0, 0)
  }

  /** Bitwise or of two bytes (`a | b`). */
  function OrByte(a: u8, b: u8): u8
  {
    ((a as bv8) | (b as bv8)) as u8
  }

  // ---------------------------------------------------------------------
  // bc1

  /** A `bc1` texel: the selected colour, with alpha 0 for the black of
      code 3 in a block whose first endpoint is not greater and 0xff
      otherwise, or-ed with `alphaFlag`. */
  function Bc1Texel(color0: u16, color1: u16, control: nat, alphaFlag: u8): seq<u8>
    requires control < 4
  {
    var (r, g, b) := BlockRgb(color0, color1, control);
    var a := if control == 3 && color0 <= color1 then 0 else 0xff;
    [r, g, b, OrByte(a, alphaFlag)]
  }

  /** The 16 texels of a `bc1` block. */
  function Bc1Texels(color0: u16, color1: u16, bits: u32, alphaFlag: u8): (ts: seq<seq<u8>>)
    ensures |ts| == 16
  {
    seq(16, n requires 0 <= n < 16 => Bc1Texel(color0, color1, Control(bits, n), alphaFlag))
  }

  /** Dividing by 4 after n shifts is n + 1 shifts. */
  lemma ShiftStep(bits: nat, n: nat)
    ensures bits / Pow2(2 * n) / 4 == bits / Pow2(2 * (n + 1))
  {
    assert Pow2(2 * (n + 1)) == Pow2(2 * n) * 4;
    DivDiv(bits, Pow2(2 * n), 4);
  }

  /** Two divisions in a row are one division by the product. */
  lemma DivDiv(x: nat, p: nat, q: nat)
    requires p > 0 && q > 0
    ensures x / p / q == x / (p * q)
  {
    var a, r1 := x / p, x % p;
    var b, r2 := a / q, a % q;
    var pq := p * q;
    assert x == a * p + r1;
    assert a * p == b * pq + r2 * p by {
      assert a == b * q + r2;
      assert (b * q + r2) * p == b * q * p + r2 * p;
      assert b * q * p == b * pq;
    }
    assert r2 * p + r1 < pq by {
      assert r2 * p <= (q - 1) * p by { MulMono(r2, q - 1, p); }
      assert (q - 1) * p == pq - p;
    }
    DivUnique(x, pq, b, r2 * p + r1);
  }

  /** A prefix one longer is the prefix and the next element. */
  lemma TakeSnoc<T>(s: seq<T>, n: nat)
    requires n < |s|
    ensures s[..n + 1] == s[..n] + [s[n]]
  {
  }

  /** The quotient is the one multiple that leaves a remainder in range. */
  lemma DivUnique(x: nat, d: nat, q: nat, r: nat)
    requires d > 0 && x == q * d + r && r < d
    ensures x / d == q && x % d == r
  {
    var q', r' := x / d, x % d;
    assert x == q' * d + r';
    if q' < q {
      assert (q' + 1) * d <= q * d by { MulMono(q' + 1, q, d); }
      assert false;
    } else if q < q' {
      assert (q + 1) * d <= q' * d by { MulMono(q + 1, q', d); }
      assert false;
    }
  }

  /** The `bc1` block loop: each of the 16 steps takes the low two bits of
      `bits` as the control and shifts `bits` right by 2. */
  method Bc1Block(color0: u16, color1: u16, bits0: u32, alphaFlag: u8) returns (texels: seq<seq<u8>>)
    ensures texels == Bc1Texels(color0, color1, bits0, alphaFlag)
  {
    ghost var spec := Bc1Texels(color0, color1, bits0, alphaFlag);
    var bits: nat := bits0;
    texels := [];
    var j := 0;
    while j < 4
      invariant j <= 4 && |texels| == 4 * j
      invariant bits == Shifted(bits0, 4 * j)
      invariant texels == spec[..4 * j]
    {
      var i := 0;
      while i < 4
        invariant i <= 4 && |texels| == 4 * j + i
        invariant bits == Shifted(bits0, 4 * j + i)
        invariant texels == spec[..4 * j + i]
      {
        var control := bits % 4;
        bits := bits / 4;
        var t := Bc1Texel(color0, color1, control, alphaFlag);
        assert control == Control(bits0, 4 * j + i);
        assert spec[4 * j + i] == t;
        TakeSnoc(spec, 4 * j + i);
        texels := texels + [t];
        i := i + 1;
      }
      j := j + 1;
    }
  }

  // ---------------------------------------------------------------------
  // bc2

  /** A `bc2` alpha: nibble i of the block's alpha word for row j, scaled
      by 0x11. */
  function Bc2Alpha(alphaWord: u16, i: nat): u8
  {
    alphaWord / Pow2(4 * i) % 0x10 * 0x11
  }

  /** Python's `round` of `n / d`: to the nearest integer, a tie to the
      even one. */
  function RoundHalfEven(n: nat, d: nat): nat
    requires d > 0
  {
    var q, r := n / d, n % d;
    if 2 * r > d then q + 1
    else if 2 * r < d then q
    else if q % 2 == 0 then q else q + 1
  }

  /** With `premultiplied` and a non-zero alpha, a channel divided by its
      alpha (`min(round(c * 255 / a), 255)`); otherwise the channel. */
  function Unpremultiply(c: u8, a: u8, premultiplied: bool): u8
  {
    if premultiplied && a > 0 then
      var v := RoundHalfEven(c * 255, a);
      if v < 255 then v else 255
    else c
  }

  /** A texel of a block with explicit alpha. */
  function AlphaTexel(rgb: (u8, u8, u8), a: u8, premultiplied: bool): seq<u8>
  {
    [Unpremultiply(rgb.0, a, premultiplied), Unpremultiply(rgb.1, a, premultiplied),
     Unpremultiply(rgb.2, a, premultiplied), a]
  }

  /** The 16 texels of a `bc2` block with alpha words `alphas` (one per
      row). */
  function Bc2Texels(alphas: seq<u16>, color0: u16, color1: u16, bits: u32, premultiplied: bool): (ts: seq<seq<u8>>)
    requires |alphas| == 4
    ensures |ts| == 16
  {
    seq(16, n requires 0 <= n < 16 =>
      AlphaTexel(BlockRgb(color0, color1, Control(bits, n)), Bc2Alpha(alphas[n / 4], n % 4), premultiplied))
  }

  /** The `bc2` block loop. */
  method Bc2Block(alphas: seq<u16>, color0: u16, color1: u16, bits0: u32, premultiplied: bool)
    returns (texels: seq<seq<u8>>)
    requires |alphas| == 4
    ensures texels == Bc2Texels(alphas, color0, color1, bits0, premultiplied)
  {
    ghost var spec := Bc2Texels(alphas, color0, color1, bits0, premultiplied);
    var bits: nat := bits0;
    texels := [];
    var j := 0;
    while j < 4
      invariant j <= 4 && |texels| == 4 * j
      invariant bits == Shifted(bits0, 4 * j)
      invariant texels == spec[..4 * j]
    {
      var i := 0;
      while i < 4
        invariant i <= 4 && |texels| == 4 * j + i
        invariant bits == Shifted(bits0, 4 * j + i)
        invariant texels == spec[..4 * j + i]
      {
        var control := bits % 4;
        bits := bits / 4;
        var a := Bc2Alpha(alphas[j], i);
        var t := AlphaTexel(BlockRgb(color0, color1, control), a, premultiplied);
        ghost var n := 4 * j + i;
        Bc2TexelAt(alphas, color0, color1, bits0, premultiplied, j, i);
        assert control == Control(bits0, n);
        TakeSnoc(spec, n);
        texels := texels + [t];
        i := i + 1;
      }
      j := j + 1;
    }
  }

  // ---------------------------------------------------------------------
  // bc3

  /** `n / d` rounded to the nearest integer, for a quotient that is never
      a half-integer. */
  function Nearest(n: nat, d: nat): (r: nat)
    requires d > 0 && n <= 0xff * d
    ensures r <= 0xff
  {
    NearestBound(n, d);
    (2 * n + d) / (2 * d)
  }

  lemma NearestBound(n: nat, d: nat)
    requires d > 0 && n <= 0xff * d
    ensures (2 * n + d) / (2 * d) <= 0xff
  {
    var x := 2 * n + d;
    var q := x / (2 * d);
    assert x == q * (2 * d) + x % (2 * d);
    if q > 0xff {
      MulMono(0x100, q, 2 * d);
      assert false;
    }
  }

  /** The eight alphas of a `bc3` block: the endpoints, then six points
      evenly between them when the first is greater, otherwise four
      points between them followed by 0 and 255. */
  function Ramp(a0: u8, a1: u8): (r: seq<u8>)
    ensures |r| == 8
  {
    if a0 > a1 then
      [a0, a1, Nearest(6 * a0 + a1, 7), Nearest(5 * a0 + 2 * a1, 7), Nearest(4 * a0 + 3 * a1, 7),
       Nearest(3 * a0 + 4 * a1, 7), Nearest(2 * a0 + 5 * a1, 7), Nearest(a0 + 6 * a1, 7)]
    else
      [a0, a1, Nearest(4 * a0 + a1, 5), Nearest(3 * a0 + 2 * a1, 5), Nearest(2 * a0 + 3 * a1, 5),
       Nearest(a0 + 4 * a1, 5), 0, 255]
  }

  /** The alpha index of texel (i, j), computed as the source does: a
      3-bit field at bit `shift` of the three index words, taken from the
      word `shift // 16` and, when the field crosses into the next word,
      completed from the low bits of that word. `indices` holds the words
      in the order `(alpha4, alpha3, alpha2)`. */
  function AlphaIndex(indices: seq<u16>, j: nat, i: nat): nat
    requires |indices| == 3 && j < 4 && i < 4
  {
    var shift := 3 * (15 - ((3 - i) + j * 4));
    var shiftS := shift % 16;
    var rowS := shift / 16;
    var rowE := (shift + 2) / 16;
    var first := indices[2 - rowS] / Pow2(shiftS) % 8;
    if rowS != rowE then
      var shiftE := 16 - shiftS;
      first + indices[2 - rowE] % Pow2(3 - shiftE) * Pow2(shiftE)
    else first
  }

  /** The alpha of texel (i, j) of a `bc3` block: the ramp entry its
      index selects. */
  function Bc3Alpha(a0: u8, a1: u8, indices: seq<u16>, j: nat, i: nat): u8
    requires |indices| == 3 && j < 4 && i < 4
  {
    AlphaIndexRange(indices, j, i);
    Ramp(a0, a1)[AlphaIndex(indices, j, i)]
  }

  /** The 16 texels of a `bc3` block. */
  function Bc3Texels(a0: u8, a1: u8, indices: seq<u16>, color0: u16, color1: u16, bits: u32, premultiplied: bool)
    : (ts: seq<seq<u8>>)
    requires |indices| == 3
    ensures |ts| == 16
  {
    seq(16, n requires 0 <= n < 16 =>
      AlphaTexel(BlockRgb(color0, color1, Control(bits, n)), Bc3Alpha(a0, a1, indices, n / 4, n % 4), premultiplied))
  }

  /** The `bc3` block loop. */
  method Bc3Block(a0: u8, a1: u8, indices: seq<u16>, color0: u16, color1: u16, bits0: u32, premultiplied: bool)
    returns (texels: seq<seq<u8>>)
    requires |indices| == 3
    ensures texels == Bc3Texels(a0, a1, indices, color0, color1, bits0, premultiplied)
  {
    ghost var spec := Bc3Texels(a0, a1, indices, color0, color1, bits0, premultiplied);
    var alphas := Ramp(a0, a1);
    var bits: nat := bits0;
    texels := [];
    var j := 0;
    while j < 4
      invariant j <= 4 && |texels| == 4 * j
      invariant bits == Shifted(bits0, 4 * j)
      invariant texels == spec[..4 * j]
    {
      var i := 0;
      while i < 4
        invariant i <= 4 && |texels| == 4 * j + i
        invariant bits == Shifted(bits0, 4 * j + i)
        invariant texels == spec[..4 * j + i]
      {
        var control := bits % 4;
        bits := bits / 4;
        var alphaIndex := AlphaIndex(indices, j, i);
        Bc3TexelAt(a0, a1, indices, color0, color1, bits0, premultiplied, j, i);
        var a := alphas[alphaIndex];
        var t := AlphaTexel(BlockRgb(color0, color1, control), a, premultiplied);
        ghost var n := 4 * j + i;
        assert control == Control(bits0, n);
        assert spec[n] == t;
        TakeSnoc(spec, n);
        texels := texels + [t];
        i := i + 1;
      }
      j := j + 1;
    }
  }

  /** Texel 4j + i of a `bc2` block. */
  lemma Bc2TexelAt(alphas: seq<u16>, color0: u16, color1: u16, bits: u32, premultiplied: bool, j: nat, i: nat)
    requires |alphas| == 4 && j < 4 && i < 4
    ensures Bc2Texels(alphas, color0, color1, bits, premultiplied)[4 * j + i]
      == AlphaTexel(BlockRgb(color0, color1, Control(bits, 4 * j + i)), Bc2Alpha(alphas[j], i), premultiplied)
  {
    var n := 4 * j + i;
    assert n / 4 == j && n % 4 == i;
  }

  /** Texel 4j + i of a `bc3` block. */
  lemma Bc3TexelAt(a0: u8, a1: u8, indices: seq<u16>, color0: u16, color1: u16, bits: u32, premultiplied: bool,
                   j: nat, i: nat)
    requires |indices| == 3 && j < 4 && i < 4
    ensures AlphaIndex(indices, j, i) < 8
    ensures Bc3Texels(a0, a1, indices, color0, color1, bits, premultiplied)[4 * j + i]
      == AlphaTexel(BlockRgb(color0, color1, Control(bits, 4 * j + i)),
                    Ramp(a0, a1)[AlphaIndex(indices, j, i)], premultiplied)
  {
    AlphaIndexRange(indices, j, i);
    var n := 4 * j + i;
    assert n / 4 == j && n % 4 == i;
  }

  /** Every alpha index is in 0..7, also when its field crosses a word
      boundary. */
  lemma AlphaIndexRange(indices: seq<u16>, j: nat, i: nat)
    requires |indices| == 3 && j < 4 && i < 4
    ensures AlphaIndex(indices, j, i) < 8
  {
    var shift := 3 * (15 - ((3 - i) + j * 4));
    if shift == 15 {
      Pow2Small();
      assert indices[2] / Pow2(15) < 2;
    } else if shift == 30 {
      Pow2Small();
      assert indices[1] / Pow2(14) < 4;
    } else {
      assert (shift + 2) / 16 == shift / 16;
    }
  }

  lemma Pow2Small()
    ensures Pow2(1) == 2 && Pow2(2) == 4 && Pow2(3) == 8
    ensures Pow2(14) == 0x4000 && Pow2(15) == 0x8000 && Pow2(16) == 0x1_0000
  {
    assert Pow2(4) == 16;
    assert Pow2(8) == 256 by { assert Pow2(6) == 64; }
    assert Pow2(12) == 0x1000 by { assert Pow2(10) == 0x400; }
    assert Pow2(14) == 0x4000;
  }

}
