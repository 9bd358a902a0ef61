/** What the uncompressed and paletted unpackers produce: when each one
    succeeds, how long its output is, what every output pixel holds, and
    how the formats relate to each other. */
module DirectProperties {
  import opened Common
  import opened Texels
  import opened PixelBuffer
  import opened DirectUnpack

  /** A buffer of 4-byte texels is determined by its pixels. */
  lemma {:induction false} PixelsDetermine(a: seq<u8>, b: seq<u8>)
    requires |a| == |b| && |a| % 4 == 0
    requires forall k :: 0 <= k < |a| / 4 ==> Pixel(a, k) == Pixel(b, k)
    ensures a == b
  {
    forall p | 0 <= p < |a|
      ensures a[p] == b[p]
    {
      var k := p / 4;
      assert Pixel(a, k) == Pixel(b, k);
      assert a[p] == Pixel(a, k)[p - 4 * k];
      assert b[p] == Pixel(b, k)[p - 4 * k];
    }
  }

  /** Byte p of a buffer is byte p % 4 of pixel p / 4. */
  lemma PixelByte(out: seq<u8>, p: nat)
    requires p < |out| && |out| % 4 == 0
    ensures out[p] == Pixel(out, p / 4)[p % 4]
  {
  }

  // ---------------------------------------------------------------------
  // 16-bit formats

  /** A 16-bit unpacker succeeds exactly when the buffer size is not
      negative and the input is whole words; it then writes the texel of
      word k at pixel k, leaves the rest of the buffer zero, and grows the
      buffer when the input holds more than `width * height` words. */
  lemma Unpack16Layout(data: seq<u8>, width: int, height: int, texel: u16 -> seq<u8>)
    requires forall c: u16 :: |texel(c)| == 4
    ensures Unpack16Spec(data, width, height, texel).Ok? <==> width * height >= 0 && |data| % 2 == 0
    ensures Unpack16Spec(data, width, height, texel).Ok? ==>
      var out := Unpack16Spec(data, width, height, texel).value;
      && |out| == Max(4 * width * height, 2 * |data|)
      && (forall k :: 0 <= k < |data| / 2 ==> Pixel(out, k) == texel(LeU16(data[2 * k..2 * k + 2])))
      && (forall p :: 2 * |data| <= p < |out| ==> out[p] == 0)
  {
    if width * height >= 0 && |data| % 2 == 0 {
      var cs := Chunks16(data, texel);
      var out := Unpack16Spec(data, width, height, texel).value;
      assert out == WriteRun(Zeros(4 * width * height), cs);
      assert AllTexels(cs);
      ZeroRun(4 * width * height, cs);
      forall k | 0 <= k < |data| / 2
        ensures Pixel(out, k) == texel(LeU16(data[2 * k..2 * k + 2]))
      {
        assert cs[k] == texel(LeU16(data[2 * k..2 * k + 2]));
      }
    }
  }

  /** Every 16-bit texel is four bytes. */
  lemma TexelSizes()
    ensures forall c: u16 :: |Texel1555(c)| == 4 && |Texel4444(c)| == 4 && |Texel555(c)| == 4 && |Texel565(c)| == 4
  {
  }

  // ---------------------------------------------------------------------
  // bgra8888 and bgra888

  /** `bgra8888` succeeds exactly when the buffer size is not negative and
      the input is whole 4-byte groups; pixel k is group k with its first
      and third bytes swapped. */
  lemma Bgra8888Layout(data: seq<u8>, width: int, height: int)
    ensures Bgra8888Spec(data, width, height).Ok? <==> width * height >= 0 && |data| % 4 == 0
    ensures Bgra8888Spec(data, width, height).Ok? ==>
      var out := Bgra8888Spec(data, width, height).value;
      && |out| == Max(4 * width * height, |data|)
      && (forall k :: 0 <= k < |data| / 4 ==>
            Pixel(out, k) == [data[4 * k + 2], data[4 * k + 1], data[4 * k], data[4 * k + 3]])
      && (forall p :: |data| <= p < |out| ==> out[p] == 0)
  {
    if width * height >= 0 && |data| % 4 == 0 {
      var cs := Chunks8888(data);
      var out := Bgra8888Spec(data, width, height).value;
      assert out == WriteRun(Zeros(4 * width * height), cs);
      assert AllTexels(cs);
      ZeroRun(4 * width * height, cs);
      forall k | 0 <= k < |data| / 4
        ensures Pixel(out, k) == [data[4 * k + 2], data[4 * k + 1], data[4 * k], data[4 * k + 3]]
      {
        assert cs[k] == [data[4 * k + 2], data[4 * k + 1], data[4 * k], data[4 * k + 3]];
      }
    }
  }

  /** Swapping red and blue twice restores the input: `bgra8888` undoes
      itself on an image that fills its buffer. */
  lemma Bgra8888Involution(data: seq<u8>, width: int, height: int)
    requires width * height >= 0 && |data| % 4 == 0 && 4 * width * height <= |data|
    ensures Bgra8888Spec(data, width, height).Ok?
    ensures Bgra8888Spec(Bgra8888Spec(data, width, height).value, width, height) == Ok(data)
  {
    Bgra8888Layout(data, width, height);
    var out := Bgra8888Spec(data, width, height).value;
    Bgra8888Layout(out, width, height);
    var back := Bgra8888Spec(out, width, height).value;
    forall k | 0 <= k < |data| / 4
      ensures Pixel(back, k) == Pixel(data, k)
    {
      assert Pixel(out, k) == [data[4 * k + 2], data[4 * k + 1], data[4 * k], data[4 * k + 3]];
      assert out[4 * k] == Pixel(out, k)[0] && out[4 * k + 1] == Pixel(out, k)[1];
      assert out[4 * k + 2] == Pixel(out, k)[2] && out[4 * k + 3] == Pixel(out, k)[3];
    }
    PixelsDetermine(back, data);
  }

  /** `bgra888` succeeds exactly when the buffer size is not negative and
      the input does not end in a group of one or two bytes; pixel k is
      group k reversed, with an opaque alpha. */
  lemma Bgra888Layout(data: seq<u8>, width: int, height: int)
    ensures Bgra888Spec(data, width, height).Ok? <==>
      width * height >= 0 && |data| % 4 != 1 && |data| % 4 != 2
    ensures Bgra888Spec(data, width, height).Ok? ==>
      var out := Bgra888Spec(data, width, height).value;
      var n := |Chunks888(data)|;
      && |out| == Max(4 * width * height, 4 * n)
      && (forall k :: 0 <= k < n ==> Pixel(out, k) == [data[4 * k + 2], data[4 * k + 1], data[4 * k], 0xff])
      && (forall p :: 4 * n <= p < |out| ==> out[p] == 0)
  {
    if width * height >= 0 && |data| % 4 != 1 && |data| % 4 != 2 {
      var cs := Chunks888(data);
      var out := Bgra888Spec(data, width, height).value;
      assert out == WriteRun(Zeros(4 * width * height), cs);
      assert AllTexels(cs);
      ZeroRun(4 * width * height, cs);
      forall k | 0 <= k < |cs|
        ensures Pixel(out, k) == [data[4 * k + 2], data[4 * k + 1], data[4 * k], 0xff]
      {
        assert cs[k] == [data[4 * k + 2], data[4 * k + 1], data[4 * k], 0xff];
      }
    }
  }

  /** On whole 4-byte groups `bgra888` is `bgra8888` with every alpha
      byte the input supplies replaced by 0xff. */
  lemma Bgra888IsOpaque8888(data: seq<u8>, width: int, height: int)
    requires width * height >= 0 && |data| % 4 == 0
    ensures Bgra888Spec(data, width, height).Ok? && Bgra8888Spec(data, width, height).Ok?
    ensures var o1, o2 := Bgra888Spec(data, width, height).value, Bgra8888Spec(data, width, height).value;
      && |o1| == |o2|
      && forall p :: 0 <= p < |o1| ==> o1[p] == if p < |data| && p % 4 == 3 then 0xff else o2[p]
  {
    Bgra888Layout(data, width, height);
    Bgra8888Layout(data, width, height);
    var o1, o2 := Bgra888Spec(data, width, height).value, Bgra8888Spec(data, width, height).value;
    forall p | 0 <= p < |data|
      ensures o1[p] == if p % 4 == 3 then 0xff else o2[p]
    {
      var k := p / 4;
      assert Pixel(o1, k) == [data[4 * k + 2], data[4 * k + 1], data[4 * k], 0xff];
      assert Pixel(o2, k) == [data[4 * k + 2], data[4 * k + 1], data[4 * k], data[4 * k + 3]];
      assert o1[p] == Pixel(o1, k)[p - 4 * k] && o2[p] == Pixel(o2, k)[p - 4 * k];
    }
  }

  // ---------------------------------------------------------------------
  // Luminance

  /** `lum8` succeeds whenever the buffer size is not negative; byte p of
      the first `4 * |data|` is the grey value `data[p / 4]`, or 0xff for
      an alpha byte. */
  lemma Lum8Layout(data: seq<u8>, width: int, height: int)
    ensures Lum8Spec(data, width, height).Ok? <==> width * height >= 0
    ensures Lum8Spec(data, width, height).Ok? ==>
      var out := Lum8Spec(data, width, height).value;
      && |out| == Max(4 * width * height, 4 * |data|)
      && (forall p :: 0 <= p < 4 * |data| ==> out[p] == if p % 4 == 3 then 0xff else data[p / 4])
      && (forall p :: 4 * |data| <= p < |out| ==> out[p] == 0)
  {
    if width * height >= 0 {
      var cs := ChunksLum8(data);
      var out := Lum8Spec(data, width, height).value;
      assert out == WriteRun(Zeros(4 * width * height), cs);
      assert AllTexels(cs);
      ZeroRun(4 * width * height, cs);
      forall p | 0 <= p < 4 * |data|
        ensures out[p] == if p % 4 == 3 then 0xff else data[p / 4]
      {
        var k := p / 4;
        assert Pixel(out, k) == [data[k], data[k], data[k], 0xff];
        assert out[p] == Pixel(out, k)[p - 4 * k];
      }
    }
  }

  /** `lum8a8` succeeds exactly when the buffer size is not negative and
      the input is whole byte pairs; pixel k is the grey value of pair k
      three times, then its alpha. */
  lemma Lum8a8Layout(data: seq<u8>, width: int, height: int)
    ensures Lum8a8Spec(data, width, height).Ok? <==> width * height >= 0 && |data| % 2 == 0
    ensures Lum8a8Spec(data, width, height).Ok? ==>
      var out := Lum8a8Spec(data, width, height).value;
      && |out| == Max(4 * width * height, 2 * |data|)
      && (forall k :: 0 <= k < |data| / 2 ==>
            Pixel(out, k) == [data[2 * k], data[2 * k], data[2 * k], data[2 * k + 1]])
      && (forall p :: 2 * |data| <= p < |out| ==> out[p] == 0)
  {
    if width * height >= 0 && |data| % 2 == 0 {
      var cs := ChunksLum8a8(data);
      var out := Lum8a8Spec(data, width, height).value;
      assert out == WriteRun(Zeros(4 * width * height), cs);
      assert AllTexels(cs);
      ZeroRun(4 * width * height, cs);
      forall k | 0 <= k < |data| / 2
        ensures Pixel(out, k) == [data[2 * k], data[2 * k], data[2 * k], data[2 * k + 1]]
      {
        assert cs[k] == [data[2 * k], data[2 * k], data[2 * k], data[2 * k + 1]];
      }
    }
  }

  /** A luminance-alpha image whose alphas are all 0xff unpacks like the
      luminance image of its grey bytes. */
  lemma Lum8a8Opaque(data: seq<u8>, width: int, height: int)
    requires width * height >= 0 && |data| % 2 == 0
    requires forall k :: 0 <= k < |data| / 2 ==> data[2 * k + 1] == 0xff
    ensures Lum8a8Spec(data, width, height) ==
      Lum8Spec(seq(|data| / 2, k requires 0 <= k < |data| / 2 => data[2 * k]), width, height)
  {
    var grey := seq(|data| / 2, k requires 0 <= k < |data| / 2 => data[2 * k]);
    assert ChunksLum8a8(data) == ChunksLum8(grey);
  }

  // ---------------------------------------------------------------------
  // Paletted

  /** `pal8` and `pal8_noalpha` never fail on a non-negative buffer size;
      when every index names an entry of the palette, pixel k is entry
      `data[k]` (with its alpha replaced by 0xff for `pal8_noalpha`). */
  lemma Pal8Layout(data: seq<u8>, palette: seq<u8>, width: int, height: int, noAlpha: bool)
    requires forall k :: 0 <= k < |data| ==> 4 * (data[k] as int) + 4 <= |palette|
    ensures Pal8Spec(data, palette, width, height, noAlpha).Ok? <==> width * height >= 0
    ensures Pal8Spec(data, palette, width, height, noAlpha).Ok? ==>
      var out := Pal8Spec(data, palette, width, height, noAlpha).value;
      && |out| == Max(4 * width * height, 4 * |data|)
      && (forall k :: 0 <= k < |data| ==>
            Pixel(out, k) == (if noAlpha then palette[4 * (data[k] as int)..4 * (data[k] as int) + 3] + [0xff]
                              else palette[4 * (data[k] as int)..4 * (data[k] as int) + 4]))
      && (forall p :: 4 * |data| <= p < |out| ==> out[p] == 0)
  {
    if width * height >= 0 {
      var cs := ChunksPal8(data, palette, noAlpha);
      var out := Pal8Spec(data, palette, width, height, noAlpha).value;
      assert out == WriteRun(Zeros(4 * width * height), cs);
      assert AllTexels(cs);
      ZeroRun(4 * width * height, cs);
      forall k | 0 <= k < |data|
        ensures Pixel(out, k) == (if noAlpha then palette[4 * (data[k] as int)..4 * (data[k] as int) + 3] + [0xff]
                                  else palette[4 * (data[k] as int)..4 * (data[k] as int) + 4])
      {
        assert cs[k] == Entry(palette, data[k], noAlpha);
      }
    }
  }

  /** `pal8_noalpha` is `pal8` with the alpha byte of every written pixel
      replaced by 0xff. */
  lemma Pal8NoAlphaIsOpaque(data: seq<u8>, palette: seq<u8>, width: int, height: int)
    requires width * height >= 0
    requires forall k :: 0 <= k < |data| ==> 4 * (data[k] as int) + 4 <= |palette|
    ensures var o1, o2 := Pal8Spec(data, palette, width, height, true).value, Pal8Spec(data, palette, width, height, false).value;
      && |o1| == |o2|
      && forall p :: 0 <= p < |o1| ==> o1[p] == if p < 4 * |data| && p % 4 == 3 then 0xff else o2[p]
  {
    Pal8Layout(data, palette, width, height, true);
    Pal8Layout(data, palette, width, height, false);
    var o1, o2 := Pal8Spec(data, palette, width, height, true).value, Pal8Spec(data, palette, width, height, false).value;
    forall p | 0 <= p < 4 * |data|
      ensures o1[p] == if p % 4 == 3 then 0xff else o2[p]
    {
      var k := p / 4;
      assert o1[p] == Pixel(o1, k)[p - 4 * k] && o2[p] == Pixel(o2, k)[p - 4 * k];
    }
  }

  /** `pal4` and `pal4_noalpha` are `pal8` and `pal8_noalpha` of the
      nibbles, high nibble first: with a palette of 16 entries, pixels 2k
      and 2k + 1 are the entries of the high and the low nibble of byte k. */
  lemma Pal4Layout(data: seq<u8>, palette: seq<u8>, width: int, height: int, noAlpha: bool)
    requires 64 <= |palette|
    ensures Pal4Spec(data, palette, width, height, noAlpha) == Pal8Spec(NibbleIndices(data), palette, width, height, noAlpha)
    ensures Pal4Spec(data, palette, width, height, noAlpha).Ok? <==> width * height >= 0
    ensures Pal4Spec(data, palette, width, height, noAlpha).Ok? ==>
      var out := Pal4Spec(data, palette, width, height, noAlpha).value;
      && |out| == Max(4 * width * height, 8 * |data|)
      && (forall k :: 0 <= k < |data| ==>
            Pixel(out, 2 * k) == Entry(palette, data[k] / 0x10 % 0x10, noAlpha)
            && Pixel(out, 2 * k + 1) == Entry(palette, data[k] % 0x10, noAlpha))
      && (forall p :: 8 * |data| <= p < |out| ==> out[p] == 0)
  {
    if width * height >= 0 {
      var cs := ChunksPal8(NibbleIndices(data), palette, noAlpha);
      var out := Pal4Spec(data, palette, width, height, noAlpha).value;
      assert out == WriteRun(Zeros(4 * width * height), cs);
      Pal4Texels(data, palette, noAlpha);
      ZeroRun(4 * width * height, cs);
      forall k | 0 <= k < |data|
        ensures Pixel(out, 2 * k) == Entry(palette, data[k] / 0x10 % 0x10, noAlpha)
        ensures Pixel(out, 2 * k + 1) == Entry(palette, data[k] % 0x10, noAlpha)
      {
        Pal4Chunks(data, palette, noAlpha, k);
        assert Pixel(out, 2 * k) == cs[2 * k] && Pixel(out, 2 * k + 1) == cs[2 * k + 1];
      }
    }
  }

  /** With a palette of 16 entries every nibble names a whole entry. */
  lemma Pal4Texels(data: seq<u8>, palette: seq<u8>, noAlpha: bool)
    requires 64 <= |palette|
    ensures AllTexels(ChunksPal8(NibbleIndices(data), palette, noAlpha))
  {
    var cs := ChunksPal8(NibbleIndices(data), palette, noAlpha);
    forall j | 0 <= j < |cs|
      ensures |cs[j]| == 4
    {
      assert NibbleIndices(data)[j] < 0x10;
    }
  }
}
