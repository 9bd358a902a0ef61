/** The channel arithmetic of the texture decoder: packed 16-bit colours
    expanded to 8-bit channels, and the interpolations between two
    colours used by the block formats. A right shift followed by a mask
    (`(bits >> s) & m`) of a non-negative integer is the quotient by 2^s
    taken modulo m + 1, and Python's `//` on non-negative integers is
    Dafny's `/`. */
module Texels {
  import opened Common

  /** `v * 0xff // m`: a field of maximum `m` expanded to 0..255. */
  function Scale(v: nat, m: nat): u8
    requires 0 < m && v <= m
  {
    ScaleBound(v, m);
    v * 255 / m
  }

  /** The expanded value fits in a byte. */
  lemma ScaleBound(v: nat, m: nat)
    requires 0 < m && v <= m
    ensures v * 255 / m <= 255
  {
    var n := v * 255;
    MulMono(v, m, 255);
    assert n / m * m <= n <= 255 * m;
    MulCancel(n / m, 255, m);
  }

  lemma MulCancel(a: nat, b: nat, m: nat)
    requires 0 < m && a * m <= b * m
    ensures a <= b
  {
    if a > b {
      MulMono(b + 1, a, m);
      assert false;
    }
  }

  /** The expansion loses nothing: the field is recovered by dividing
      back and rounding up. */
  lemma ScaleInverse(v: nat, m: nat)
    requires 0 < m <= 255 && v <= m
    ensures (Scale(v, m) * m + 254) / 255 == v
  {
    var n := v * 255;
    var s := Scale(v, m);
    assert s == n / m;
    var p := s * m;
    assert p == n - n % m;
    assert n - m < p <= n;
  }

  /** The expansion keeps the order of field values strictly. */
  lemma ScaleOrder(v: nat, w: nat, m: nat)
    requires 0 < m <= 255 && v < w <= m
    ensures Scale(v, m) < Scale(w, m)
  {
    ScaleInverse(v, m);
    ScaleInverse(w, m);
    var sv, sw := Scale(v, m), Scale(w, m);
    if sw <= sv {
      MulMono(sw, sv, m);
    }
  }

  lemma MulMono(a: nat, b: nat, m: nat)
    requires a <= b
    ensures a * m <= b * m
  {
    assert b * m == a * m + (b - a) * m;
  }

  // ---------------------------------------------------------------------
  // Packed colours

  /** `unpackRGB`: 5-6-5 bits of red, green, blue, and an opaque alpha. */
  function UnpackRgb(packed: nat): (u8, u8, u8, u8)
  {
    (Scale(packed / 0x800 % 0x20, 0x1f), Scale(packed / 0x20 % 0x40, 0x3f), Scale(packed % 0x20, 0x1f), 255)
  }

  /** `_decode565`: red, green, blue. */
  function Decode565(bits: u16): (u8, u8, u8)
  {
    (Scale(bits / 0x800 % 0x20, 0x1f), Scale(bits / 0x20 % 0x40, 0x3f), Scale(bits % 0x20, 0x1f))
  }

  /** `_decode555`: red, green, blue; the top bit is ignored. */
  function Decode555(bits: u16): (u8, u8, u8)
  {
    (Scale(bits / 0x400 % 0x20, 0x1f), Scale(bits / 0x20 % 0x20, 0x1f), Scale(bits % 0x20, 0x1f))
  }

  /** `_decode1555`: alpha (the top bit, as 0 or 0xff), red, green, blue. */
  function Decode1555(bits: u16): (u8, u8, u8, u8)
  {
    (bits / 0x8000 % 2 * 0xff, Scale(bits / 0x400 % 0x20, 0x1f), Scale(bits / 0x20 % 0x20, 0x1f), Scale(bits % 0x20, 0x1f))
  }

  /** `_decode4443`: a 3-bit first channel and three 4-bit channels. */
  function Decode4443(bits: u16): (u8, u8, u8, u8)
  {
    (Scale(bits / 0x1000 % 8, 7), Scale(bits / 0x100 % 0x10, 0xf), Scale(bits / 0x10 % 0x10, 0xf), Scale(bits % 0x10, 0xf))
  }

  /** `_decode4444`: alpha, red, green, blue, 4 bits each. */
  function Decode4444(bits: u16): (u8, u8, u8, u8)
  {
    (Scale(bits / 0x1000 % 0x10, 0xf), Scale(bits / 0x100 % 0x10, 0xf), Scale(bits / 0x10 % 0x10, 0xf), Scale(bits % 0x10, 0xf))
  }

  /** The field a channel came from, recovered by rounding up. */
  function Unscale(c: u8, m: nat): nat
    requires 0 < m
  {
    (c * m + 254) / 255
  }

  /** `unpackRGB` and `_decode565` agree on every 16-bit word. */
  lemma UnpackRgbIsDecode565(bits: u16)
    ensures UnpackRgb(bits) == (Decode565(bits).0, Decode565(bits).1, Decode565(bits).2, 255)
  {
  }

  /** A 5-6-5 word is recovered from its three channels. */
  lemma Decode565RoundTrip(bits: u16)
    ensures Unscale(Decode565(bits).0, 0x1f) * 0x800 + Unscale(Decode565(bits).1, 0x3f) * 0x20
          + Unscale(Decode565(bits).2, 0x1f) == bits
  {
    ScaleInverse(bits / 0x800 % 0x20, 0x1f);
    ScaleInverse(bits / 0x20 % 0x40, 0x3f);
    ScaleInverse(bits % 0x20, 0x1f);
    Fields565(bits);
  }

  /** A word is the sum of its 5-6-5 fields. */
  lemma Fields565(bits: u16)
    ensures bits == bits / 0x800 % 0x20 * 0x800 + bits / 0x20 % 0x40 * 0x20 + bits % 0x20
  {
    var q := bits / 0x20;
    assert bits == q * 0x20 + bits % 0x20;
    assert q == q / 0x40 * 0x40 + q % 0x40;
    assert q / 0x40 == bits / 0x800 < 0x20;
  }

  /** The low 15 bits of a word are recovered from its 5-5-5 channels. */
  lemma Decode555RoundTrip(bits: u16)
    ensures Unscale(Decode555(bits).0, 0x1f) * 0x400 + Unscale(Decode555(bits).1, 0x1f) * 0x20
          + Unscale(Decode555(bits).2, 0x1f) == bits % 0x8000
  {
    ScaleInverse(bits / 0x400 % 0x20, 0x1f);
    ScaleInverse(bits / 0x20 % 0x20, 0x1f);
    ScaleInverse(bits % 0x20, 0x1f);
    var q := bits / 0x20;
    assert bits == q * 0x20 + bits % 0x20;
    assert q == q / 0x20 * 0x20 + q % 0x20;
    assert q / 0x20 == bits / 0x400;
    assert bits % 0x8000 == bits / 0x400 % 0x20 * 0x400 + bits % 0x400;
  }

  /** A 1-5-5-5 word is recovered from its four channels, and its alpha is
      0 or 255 according to the top bit. */
  lemma Decode1555RoundTrip(bits: u16)
    ensures Decode1555(bits).0 == 0 || Decode1555(bits).0 == 255
    ensures Decode1555(bits).0 == 255 <==> bits >= 0x8000
    ensures Decode1555(bits).0 / 0xff * 0x8000 + Unscale(Decode1555(bits).1, 0x1f) * 0x400
          + Unscale(Decode1555(bits).2, 0x1f) * 0x20 + Unscale(Decode1555(bits).3, 0x1f) == bits
  {
    Decode555RoundTrip(bits);
    assert bits == bits / 0x8000 * 0x8000 + bits % 0x8000;
  }

  /** A 4-4-4-4 word is recovered from its four channels. */
  lemma Decode4444RoundTrip(bits: u16)
    ensures Unscale(Decode4444(bits).0, 0xf) * 0x1000 + Unscale(Decode4444(bits).1, 0xf) * 0x100
          + Unscale(Decode4444(bits).2, 0xf) * 0x10 + Unscale(Decode4444(bits).3, 0xf) == bits
  {
    Nibbles(bits);
    ScaleInverse(bits / 0x1000 % 0x10, 0xf);
    ScaleInverse(bits / 0x100 % 0x10, 0xf);
    ScaleInverse(bits / 0x10 % 0x10, 0xf);
    ScaleInverse(bits % 0x10, 0xf);
  }

  /** The low 15 bits of a word are recovered from its 4-4-4-3 channels. */
  lemma Decode4443RoundTrip(bits: u16)
    ensures Unscale(Decode4443(bits).0, 7) * 0x1000 + Unscale(Decode4443(bits).1, 0xf) * 0x100
          + Unscale(Decode4443(bits).2, 0xf) * 0x10 + Unscale(Decode4443(bits).3, 0xf) == bits % 0x8000
  {
    Nibbles(bits);
    ScaleInverse(bits / 0x1000 % 8, 7);
    ScaleInverse(bits / 0x100 % 0x10, 0xf);
    ScaleInverse(bits / 0x10 % 0x10, 0xf);
    ScaleInverse(bits % 0x10, 0xf);
    assert bits / 0x1000 % 8 == bits / 0x1000 % 0x10 % 8;
  }

  /** A word is the sum of its four nibbles, and its low 15 bits the sum
      of the same nibbles with the top one taken modulo 8. */
  lemma Nibbles(bits: u16)
    ensures bits == bits / 0x1000 % 0x10 * 0x1000 + bits / 0x100 % 0x10 * 0x100 + bits / 0x10 % 0x10 * 0x10 + bits % 0x10
    ensures bits % 0x8000 == bits / 0x1000 % 8 * 0x1000 + bits / 0x100 % 0x10 * 0x100 + bits / 0x10 % 0x10 * 0x10 + bits % 0x10
  {
    var q1 := bits / 0x10;
    var q2 := q1 / 0x10;
    assert bits == q1 * 0x10 + bits % 0x10;
    assert q1 == q2 * 0x10 + q1 % 0x10;
    assert q2 == q2 / 0x10 * 0x10 + q2 % 0x10;
    assert q1 % 0x10 == bits / 0x10 % 0x10;
    assert q2 == bits / 0x100;
    assert q2 / 0x10 == bits / 0x1000 < 0x10;
    assert bits % 0x8000 == bits / 0x1000 % 8 * 0x1000 + bits % 0x1000;
  }

  /** All-zero words decode to black, all-one fields to full intensity. */
  lemma DecodeExtremes()
    ensures Decode565(0) == (0, 0, 0) && Decode565(0xffff) == (255, 255, 255)
    ensures Decode555(0) == (0, 0, 0) && Decode555(0x7fff) == (255, 255, 255)
    ensures Decode1555(0) == (0, 0, 0, 0) && Decode1555(0xffff) == (255, 255, 255, 255)
    ensures Decode4444(0) == (0, 0, 0, 0) && Decode4444(0xffff) == (255, 255, 255, 255)
    ensures Decode4443(0) == (0, 0, 0, 0) && Decode4443(0x7fff) == (255, 255, 255, 255)
  {
  }

  // ---------------------------------------------------------------------
  // Interpolation between two channel values

  function Min(a: int, b: int): int { if a <= b then a else b }
  function Max(a: int, b: int): int { if a <= b then b else a }

  /** `_c2a`: two thirds of the way from `b` to `a`, rounded down. */
  function C2a(a: u8, b: u8): (c: u8)
    ensures Min(a, b) <= c <= Max(a, b)
  {
    (2 * a + b) / 3
  }

  /** `_c2b`: the midpoint, rounded down. */
  function C2b(a: u8, b: u8): (c: u8)
    ensures Min(a, b) <= c <= Max(a, b)
  {
    (a + b) / 2
  }

  /** `_c3`: two thirds of the way from `a` to `b`, rounded down. */
  function C3(a: u8, b: u8): (c: u8)
    ensures Min(a, b) <= c <= Max(a, b)
  {
    (2 * b + a) / 3
  }

  /** The two one-third points are mirror images of each other, and the
      midpoint is symmetric. */
  lemma InterpolationSymmetry(a: u8, b: u8)
    ensures C3(a, b) == C2a(b, a)
    ensures C2b(a, b) == C2b(b, a)
  {
  }
}
