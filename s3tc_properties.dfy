/** What the S3TC block decoders promise: the control codes and alpha
    indices are the bit fields the format defines, `bc1` transparency
    follows the endpoint order, `bc2` alphas are the nibbles of their word,
    the `bc3` alpha ramp runs between its endpoints, and un-premultiplying
    rounds to the nearest integer. */
module S3tcProperties {
  import opened Common
  import opened Texels
  import opened S3tc

  // ---------------------------------------------------------------------
  // Powers of two and bit fields

  lemma {:induction false} Pow2Add(a: nat, b: nat)
    ensures Pow2(a + b) == Pow2(a) * Pow2(b)
    decreases a
  {
    if a > 0 {
      Pow2Add(a - 1, b);
      assert Pow2(a + b) == 2 * Pow2(a - 1 + b);
    }
  }

  /** Adding a multiple of the divisor adds to the quotient. */
  lemma DivAddMultiple(x: nat, d: nat, m: nat)
    requires d > 0
    ensures (x + d * m) / d == x / d + m
    ensures (x + d * m) % d == x % d
  {
    assert x + d * m == (x / d + m) * d + x % d;
    DivUnique(x + d * m, d, x / d + m, x % d);
  }

  /** Control code n is bits 2n and 2n + 1 of the control word: the n
      shifts by 2 are one shift by 2n. */
  lemma {:induction false} ShiftedIsDiv(bits: nat, n: nat)
    ensures Shifted(bits, n) == bits / Pow2(2 * n)
    decreases n
  {
    if n > 0 {
      ShiftedIsDiv(bits, n - 1);
      ShiftStep(bits, n - 1);
    }
  }

  lemma ControlBits(bits: u32, n: nat)
    ensures Control(bits, n) == bits / Pow2(2 * n) % 4
  {
    ShiftedIsDiv(bits, n);
  }

  // ---------------------------------------------------------------------
  // bc1

  /** Or-ing a flag into an opaque alpha leaves it opaque; into a zero
      alpha gives the flag. */
  lemma OrByteAlpha(f: u8)
    ensures OrByte(0xff, f) == 0xff && OrByte(0, f) == f
  {
    assert (0xff as bv8) | (f as bv8) == 0xff;
    assert (0 as bv8) | (f as bv8) == f as bv8;
  }

  /** A `bc1` texel is transparent (alpha `alphaFlag`) exactly for code 3
      of a block whose first endpoint is not greater than the second;
      every other texel is opaque. Its colour is black in that case and
      otherwise lies between the two endpoint colours channel by
      channel. */
  lemma Bc1Alpha(color0: u16, color1: u16, bits: u32, alphaFlag: u8, n: nat)
    requires n < 16
    ensures var t := Bc1Texels(color0, color1, bits, alphaFlag)[n];
      && |t| == 4
      && t[3] == (if Control(bits, n) == 3 && color0 <= color1 then alphaFlag else 0xff)
      && (Control(bits, n) == 3 && color0 <= color1 ==> t[..3] == [0, 0, 0])
  {
    OrByteAlpha(alphaFlag);
  }

  /** Every colour a control code selects, apart from the black of code 3
      in a block whose first endpoint is not greater, lies between the
      endpoint colours channel by channel. */
  lemma BlockRgbBetween(color0: u16, color1: u16, control: nat)
    requires control < 4 && !(control == 3 && color0 <= color1)
    ensures var c, c0, c1 := BlockRgb(color0, color1, control), Decode565(color0), Decode565(color1);
      && Min(c0.0, c1.0) <= c.0 <= Max(c0.0, c1.0)
      && Min(c0.1, c1.1) <= c.1 <= Max(c0.1, c1.1)
      && Min(c0.2, c1.2) <= c.2 <= Max(c0.2, c1.2)
  {
  }

  // ---------------------------------------------------------------------
  // bc2

  /** The four alphas of a `bc2` row are its word's four nibbles, low
      nibble first, each scaled by 0x11: the word is recovered from them. */
  lemma Bc2AlphaNibbles(w: u16)
    ensures forall i :: 0 <= i < 4 ==> Bc2Alpha(w, i) % 0x11 == 0
    ensures Bc2Alpha(w, 0) / 0x11 + 0x10 * (Bc2Alpha(w, 1) / 0x11)
      + 0x100 * (Bc2Alpha(w, 2) / 0x11) + 0x1000 * (Bc2Alpha(w, 3) / 0x11) == w
  {
    Pow2Small();
    assert Pow2(0) == 1;
    assert Pow2(8) == 0x100 by { Pow2Add(4, 4); assert Pow2(4) == 0x10; }
    assert Pow2(12) == 0x1000 by { Pow2Add(8, 4); }
    var q1 := w / 0x10;
    var q2 := q1 / 0x10;
    var q3 := q2 / 0x10;
    DivDiv(w, 0x10, 0x10);
    DivDiv(q1, 0x10, 0x10);
    DivDiv(w, 0x100, 0x10);
    assert Bc2Alpha(w, 0) / 0x11 == w % 0x10;
    assert Bc2Alpha(w, 1) / 0x11 == q1 % 0x10;
    assert Bc2Alpha(w, 2) / 0x11 == q2 % 0x10;
    assert Bc2Alpha(w, 3) / 0x11 == q3 % 0x10 == q3;
    assert w == w % 0x10 + 0x10 * (q1 % 0x10 + 0x10 * (q2 % 0x10 + 0x10 * q3));
  }

  // ---------------------------------------------------------------------
  // Un-premultiplying

  /** Python's `round`: the result is within half a step of the quotient,
      and a tie goes to the even neighbour. */
  lemma RoundHalfEvenNearest(n: nat, d: nat)
    requires d > 0
    ensures var r := RoundHalfEven(n, d);
      && 2 * (n - r * d) <= d && 2 * (r * d - n) <= d
      && (2 * (n % d) == d ==> r % 2 == 0)
  {
    var q := n / d;
    assert n == q * d + n % d;
    assert (q + 1) * d == q * d + d;
  }

  /** An opaque texel (alpha 0xff) and a transparent one (alpha 0) keep
      their colour; otherwise un-premultiplying never darkens a channel. */
  lemma UnpremultiplyBounds(c: u8, a: u8, premultiplied: bool)
    ensures a == 0xff || a == 0 || !premultiplied ==> Unpremultiply(c, a, premultiplied) == c
    ensures c <= Unpremultiply(c, a, premultiplied)
  {
    if premultiplied && a > 0 {
      if a == 0xff {
        assert c * 0xff == c * 0xff + 0;
        DivUnique(c * 0xff, 0xff, c, 0);
      } else {
        RoundNotBelow(c, a);
      }
    }
  }

  /** Rounding `c * 255 / a` for an alpha `a` of at most 255 gives at
      least `c`. */
  lemma RoundNotBelow(c: u8, a: u8)
    requires a > 0
    ensures c <= RoundHalfEven(c * 0xff, a)
  {
    var v := RoundHalfEven(c * 0xff, a);
    RoundHalfEvenNearest(c * 0xff, a);
    if v < c {
      MulMono(v, c - 1, a);
      MulMono(a, 0xff, c);
      assert false;
    }
  }

  // ---------------------------------------------------------------------
  // bc3

  /** The alpha ramp starts with its two endpoints and every other entry
      lies between them; for a first endpoint greater than the second the
      six interpolated entries descend from one to the other, otherwise
      the four interpolated entries ascend and the last two are 0 and
      255. */
  lemma RampOrder(a0: u8, a1: u8)
    ensures var r := Ramp(a0, a1);
      && r[0] == a0 && r[1] == a1
      && (a0 > a1 ==> a0 >= r[2] >= r[3] >= r[4] >= r[5] >= r[6] >= r[7] >= a1)
      && (a0 <= a1 ==> a0 <= r[2] <= r[3] <= r[4] <= r[5] <= a1 && r[6] == 0 && r[7] == 0xff)
  {
    if a0 > a1 {
      RampOfSeven(a0, a1);
    } else {
      RampOfFive(a0, a1);
    }
  }

  /** The six interpolated entries between a greater first endpoint and
      the second descend. */
  lemma RampOfSeven(a0: u8, a1: u8)
    requires a0 > a1
    ensures a0 >= Nearest(6 * a0 + a1, 7) >= Nearest(5 * a0 + 2 * a1, 7) >= Nearest(4 * a0 + 3 * a1, 7)
      >= Nearest(3 * a0 + 4 * a1, 7) >= Nearest(2 * a0 + 5 * a1, 7) >= Nearest(a0 + 6 * a1, 7) >= a1
  {
    NearestMono(7 * a1, a0 + 6 * a1, 7);
    NearestMono(a0 + 6 * a1, 2 * a0 + 5 * a1, 7);
    NearestMono(2 * a0 + 5 * a1, 3 * a0 + 4 * a1, 7);
    NearestMono(3 * a0 + 4 * a1, 4 * a0 + 3 * a1, 7);
    NearestMono(4 * a0 + 3 * a1, 5 * a0 + 2 * a1, 7);
    NearestMono(5 * a0 + 2 * a1, 6 * a0 + a1, 7);
    NearestMono(6 * a0 + a1, 7 * a0, 7);
    NearestExact(a0, 7);
    NearestExact(a1, 7);
  }

  /** The four interpolated entries between a first endpoint that is not
      greater and the second ascend. */
  lemma RampOfFive(a0: u8, a1: u8)
    requires a0 <= a1
    ensures a0 <= Nearest(4 * a0 + a1, 5) <= Nearest(3 * a0 + 2 * a1, 5) <= Nearest(2 * a0 + 3 * a1, 5)
      <= Nearest(a0 + 4 * a1, 5) <= a1
  {
    NearestMono(5 * a0, 4 * a0 + a1, 5);
    NearestMono(4 * a0 + a1, 3 * a0 + 2 * a1, 5);
    NearestMono(3 * a0 + 2 * a1, 2 * a0 + 3 * a1, 5);
    NearestMono(2 * a0 + 3 * a1, a0 + 4 * a1, 5);
    NearestMono(a0 + 4 * a1, 5 * a1, 5);
    NearestExact(a0, 5);
    NearestExact(a1, 5);
  }

  lemma NearestMono(n: nat, m: nat, d: nat)
    requires 0 < d && n <= m <= 0xff * d
    ensures Nearest(n, d) <= Nearest(m, d)
  {
    var x, y := 2 * n + d, 2 * m + d;
    var q := x / (2 * d);
    assert x == q * (2 * d) + x % (2 * d);
    if y / (2 * d) < q {
      var q' := y / (2 * d);
      assert y == q' * (2 * d) + y % (2 * d);
      MulMono(q' + 1, q, 2 * d);
      assert false;
    }
  }

  lemma NearestExact(a: u8, d: nat)
    requires d > 0
    ensures Nearest(d * a, d) == a
  {
    assert 2 * (d * a) + d == a * (2 * d) + d;
    DivUnique(2 * (d * a) + d, 2 * d, a, d);
  }

  /** The alpha index of texel (i, j) is bits 3t..3t+2 of the 48-bit
      little-endian word `alpha2 + 2^16 alpha3 + 2^32 alpha4`, where
      t = 4j + i counts texels in reading order: the word-by-word reading,
      including its completion across a word boundary, is the plain bit
      field. */
  lemma AlphaIndexField(indices: seq<u16>, j: nat, i: nat)
    requires |indices| == 3 && j < 4 && i < 4
    ensures AlphaIndex(indices, j, i) == IndexWord(indices) / Pow2(3 * (4 * (3 - j) + i)) % 8
  {
    var t := 4 * (3 - j) + i;
    if t < 5 {
      FieldInRow(indices, j, i, 0);
    } else if t == 5 {
      assert j == 2 && i == 1;
      FieldAt15(indices);
    } else if t < 10 {
      FieldInRow(indices, j, i, 1);
    } else if t == 10 {
      assert j == 1 && i == 2;
      FieldAt30(indices);
    } else {
      FieldInRow(indices, j, i, 2);
    }
  }

  /** A field that lies inside word `row` of the three. */
  lemma FieldInRow(indices: seq<u16>, j: nat, i: nat, row: nat)
    requires |indices| == 3 && j < 4 && i < 4
    requires var shift := 3 * (4 * (3 - j) + i); shift / 16 == row && shift % 16 <= 13
    ensures AlphaIndex(indices, j, i) == IndexWord(indices) / Pow2(3 * (4 * (3 - j) + i)) % 8
  {
    var shift := 3 * (15 - ((3 - i) + j * 4));
    assert shift == 3 * (4 * (3 - j) + i);
    assert (shift + 2) / 16 == row;
    if row == 0 {
      assert AlphaIndex(indices, j, i) == indices[2] / Pow2(shift) % 8;
      WordRow0(indices, shift);
    } else if row == 1 {
      assert AlphaIndex(indices, j, i) == indices[1] / Pow2(shift - 16) % 8;
      WordRow1(indices, shift);
    } else {
      assert AlphaIndex(indices, j, i) == indices[0] / Pow2(shift - 32) % 8;
      WordRow2(indices, shift);
    }
  }

  /** The field of texel (1, 2), which starts at bit 15. */
  lemma FieldAt15(indices: seq<u16>)
    requires |indices| == 3
    ensures AlphaIndex(indices, 2, 1) == IndexWord(indices) / Pow2(15) % 8
  {
    Pow2Small();
    assert AlphaIndex(indices, 2, 1) == indices[2] / 0x8000 % 8 + indices[1] % 4 * 2;
    Word15(indices);
  }

  /** The field of texel (2, 1), which starts at bit 30. */
  lemma FieldAt30(indices: seq<u16>)
    requires |indices| == 3
    ensures AlphaIndex(indices, 1, 2) == IndexWord(indices) / Pow2(30) % 8
  {
    Pow2Small();
    assert AlphaIndex(indices, 1, 2) == indices[1] / 0x4000 % 8 + indices[0] % 2 * 4;
    Word30(indices);
  }

  /** The three alpha index words as one 48-bit little-endian word
      (`indices` holds them as `(alpha4, alpha3, alpha2)`). */
  function IndexWord(indices: seq<u16>): nat
    requires |indices| == 3
  {
    indices[2] as int + 0x1_0000 * (indices[1] as int) + 0x1_0000_0000 * (indices[0] as int)
  }

  lemma WordRow0(indices: seq<u16>, s: nat)
    requires |indices| == 3 && s <= 13
    ensures IndexWord(indices) / Pow2(s) % 8 == indices[2] / Pow2(s) % 8
  {
    var hi: nat := indices[1] as int + 0x1_0000 * (indices[0] as int);
    assert Pow2(0) == 1;
    assert IndexWord(indices) == 0 + Pow2(0) * (indices[2] as int + 0x1_0000 * hi);
    FieldWithin(0, indices[2], hi, 0, s);
  }

  lemma Word15(indices: seq<u16>)
    requires |indices| == 3
    ensures IndexWord(indices) / 0x8000 % 8 == indices[2] / 0x8000 % 8 + indices[1] % 4 * 2
  {
    var hi: nat := indices[1] as int + 0x1_0000 * (indices[0] as int);
    assert IndexWord(indices) == indices[2] as int + 0x1_0000 * hi;
    Across15(indices[2], indices[1], indices[0]);
  }

  lemma WordRow1(indices: seq<u16>, s: nat)
    requires |indices| == 3 && 16 <= s <= 29
    ensures IndexWord(indices) / Pow2(s) % 8 == indices[1] / Pow2(s - 16) % 8
  {
    Pow2Small();
    var hi: nat := indices[1] as int + 0x1_0000 * (indices[0] as int);
    assert IndexWord(indices) == indices[2] + Pow2(16) * hi;
    FieldWithin(indices[2], indices[1], indices[0], 16, s - 16);
  }

  lemma Word30(indices: seq<u16>)
    requires |indices| == 3
    ensures IndexWord(indices) / Pow2(30) % 8 == indices[1] / 0x4000 % 8 + indices[0] % 2 * 4
  {
    Pow2Small();
    var x: nat := indices[1] as int + 0x1_0000 * (indices[0] as int + 0x1_0000 * 0);
    assert IndexWord(indices) == indices[2] + Pow2(16) * x;
    DropLow(indices[2], x, 16, 14);
    Across14(indices[1], indices[0], 0);
  }

  lemma WordRow2(indices: seq<u16>, s: nat)
    requires |indices| == 3 && 32 <= s <= 45
    ensures IndexWord(indices) / Pow2(s) % 8 == indices[0] / Pow2(s - 32) % 8
  {
    var lo: nat := indices[2] as int + 0x1_0000 * (indices[1] as int);
    Pow2Small();
    assert Pow2(32) == 0x1_0000_0000 by { Pow2Add(16, 16); }
    assert IndexWord(indices) == lo + Pow2(32) * (indices[0] as int + 0x1_0000 * 0);
    FieldWithin(lo, indices[0], 0, 32, s - 32);
  }

  /** A 3-bit field that lies inside one 16-bit word of a wider word. */
  lemma FieldWithin(lo: nat, w: u16, hi: nat, k: nat, s: nat)
    requires lo < Pow2(k) && s <= 13
    ensures (lo + Pow2(k) * (w + 0x1_0000 * hi)) / Pow2(k + s) % 8 == w / Pow2(s) % 8
  {
    DropLow(lo, w + 0x1_0000 * hi, k, s);
    HighBitsVanish(w, hi, s);
  }

  lemma DivBounds(x: nat, d: nat)
    requires d > 0
    ensures 0 <= x / d <= x
  {
    var q, r := x / d, x % d;
    assert x == q * d + r && 0 <= r < d;
    var qn: nat := q;
    MulMono(1, d, qn);
  }

  /** Bits above the word do not reach a field that ends inside it. */
  lemma HighBitsVanish(w: u16, hi: nat, s: nat)
    requires s <= 13
    ensures (w + 0x1_0000 * hi) / Pow2(s) % 8 == w / Pow2(s) % 8
  {
    var p := Pow2(s);
    DivBounds(w, p);
    var q: nat := w / p;
    var m: nat := Pow2(13 - s) * hi;
    var m8: nat := 8 * m;
    WordSplit(s, hi);
    assert w + 0x1_0000 * hi == w + p * m8;
    DivAddMultiple(w, p, m8);
    assert (w + 0x1_0000 * hi) / p == q + m8;
    DivAddMultiple(q, 8, m);
    assert (q + m8) % 8 == q % 8;
  }

  /** Shifting right past the low k bits, then by s more. */
  lemma DropLow(lo: nat, x: nat, k: nat, s: nat)
    requires lo < Pow2(k)
    ensures (lo + Pow2(k) * x) / Pow2(k + s) == x / Pow2(s)
  {
    var p := Pow2(k);
    Pow2Add(k, s);
    DivDiv(lo + p * x, p, Pow2(s));
    assert lo + p * x == x * p + lo;
    DivUnique(lo + p * x, p, x, lo);
  }

  /** The bits of a 16-bit word above bit s, as a multiple of 2^s. */
  lemma WordSplit(s: nat, hi: nat)
    requires s <= 13
    ensures 0x1_0000 * hi == Pow2(s) * (8 * (Pow2(13 - s) * hi))
  {
    Pow2Small();
    Pow2Add(s, 3 + (13 - s));
    Pow2Add(3, 13 - s);
    var a, b := Pow2(s), Pow2(13 - s);
    assert 0x1_0000 == a * (8 * b);
    MulAssoc(a, 8 * b, hi);
    MulAssoc(8, b, hi);
  }

  lemma MulAssoc(a: nat, b: nat, c: nat)
    ensures a * b * c == a * (b * c)
  {
  }

  /** The field that starts at bit 14: two bits from this word, one from
      the next. */
  lemma Across14(w: u16, w': u16, hi: nat)
    ensures (w + 0x1_0000 * (w' + 0x1_0000 * hi)) / 0x4000 % 8 == w / 0x4000 % 8 + w' % 2 * 4
  {
    var hiPart := w' + 0x1_0000 * hi;
    var m := w' / 2 + 0x8000 * hi;
    var low := w / 0x4000 + 4 * (w' % 2);
    assert 0x1_0000 * hiPart == 0x4000 * (4 * hiPart);
    DivAddMultiple(w, 0x4000, 4 * hiPart);
    assert 4 * hiPart == 4 * (w' % 2) + 8 * m;
    assert (w + 0x1_0000 * hiPart) / 0x4000 == low + 8 * m;
    DivAddMultiple(low, 8, m);
    assert w / 0x4000 < 4;
  }

  /** The field that starts at bit 15: one bit from this word, two from
      the next. */
  lemma Across15(w: u16, w': u16, hi: nat)
    ensures (w + 0x1_0000 * (w' + 0x1_0000 * hi)) / 0x8000 % 8 == w / 0x8000 % 8 + w' % 4 * 2
  {
    var hiPart := w' + 0x1_0000 * hi;
    var m := w' / 4 + 0x4000 * hi;
    var low := w / 0x8000 + 2 * (w' % 4);
    assert 0x1_0000 * hiPart == 0x8000 * (2 * hiPart);
    DivAddMultiple(w, 0x8000, 2 * hiPart);
    assert 2 * hiPart == 2 * (w' % 4) + 8 * m;
    assert (w + 0x1_0000 * hiPart) / 0x8000 == low + 8 * m;
    DivAddMultiple(low, 8, m);
    assert w / 0x8000 < 2;
  }
}
