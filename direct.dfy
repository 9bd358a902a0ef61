/** The uncompressed and paletted unpackers of the texture decoder. Each
    walks its input, turns each source pixel into four bytes (red, green,
    blue, alpha) and writes them at the next 4-byte slot of the output
    buffer. Each method is proved to compute the write run of its texel
    sequence; the lemmas say what that buffer then holds. */
module DirectUnpack {
  import opened Common
  import opened Texels
  import opened PixelBuffer

  // ---------------------------------------------------------------------
  // 16-bit formats: bgra1555, bgra4444, bgra555, bgra565

  /** `bgra1555`'s texel: `_decode1555` gives alpha first, written last. */
  function Texel1555(c: u16): seq<u8>
  {
    var (a, r, g, b) := Decode1555(c);
    [r, g, b, a]
  }

  /** `bgra4444`'s texel. */
  function Texel4444(c: u16): seq<u8>
  {
    var (a, r, g, b) := Decode4444(c);
    [r, g, b, a]
  }

  /** `bgra555`'s texel, opaque. */
  function Texel555(c: u16): seq<u8>
  {
    var (r, g, b) := Decode555(c);
    [r, g, b, 0xff]
  }

  /** `bgra565`'s texel, opaque. */
  function Texel565(c: u16): seq<u8>
  {
    var (r, g, b) := Decode565(c);
    [r, g, b, 0xff]
  }

  /** The texels of the little-endian words of `data` (a trailing odd byte
      makes no word). */
  function Chunks16(data: seq<u8>, texel: u16 -> seq<u8>): (cs: seq<seq<u8>>)
    ensures |cs| == |data| / 2
  {
    seq(|data| / 2, k requires 0 <= k < |data| / 2 => texel(LeU16(data[2 * k..2 * k + 2])))
  }

  /** What a 16-bit unpacker returns: the word texels written in order; a
      trailing odd byte makes the last `unpack_from('<H')` fail. */
  function Unpack16Spec(data: seq<u8>, width: int, height: int, texel: u16 -> seq<u8>): Result<seq<u8>>
  {
    var init :- NewBuffer(width, height);
    if |data| % 2 != 0 then Err(StructSize) else Ok(WriteRun(init, Chunks16(data, texel)))
  }

  /** The loop the four 16-bit unpackers share, with the word decoder as
      a parameter. */
  method Unpack16(data: seq<u8>, width: int, height: int, texel: u16 -> seq<u8>) returns (r: Result<seq<u8>>)
    ensures r == Unpack16Spec(data, width, height, texel)
  {
    var ret :- NewBuffer(width, height);
    ghost var init := ret;
    ghost var cs := Chunks16(data, texel);
    var pos := 0;
    var i := 0;
    ghost var k := 0;
    while i < |data|
      invariant i == 2 * k && i <= |data| && pos == 4 * k
      invariant ret == WriteRun(init, cs[..k])
    {
      if i + 2 > |data| {
        return Err(StructSize);
      }
      var color := LeU16(data[i..i + 2]);
      assert cs[k] == texel(color);
      WriteRunSnoc(init, cs, k);
      ret := SliceAssign(ret, pos, pos + 4, texel(color));
      pos := pos + 4;
      i := i + 2;
      k := k + 1;
    }
    assert cs[..k] == cs;
    r := Ok(ret);
  }

  method Bgra1555(data: seq<u8>, width: int, height: int) returns (r: Result<seq<u8>>)
    ensures r == Unpack16Spec(data, width, height, Texel1555)
  {
    r := Unpack16(data, width, height, Texel1555);
  }

  method Bgra4444(data: seq<u8>, width: int, height: int) returns (r: Result<seq<u8>>)
    ensures r == Unpack16Spec(data, width, height, Texel4444)
  {
    r := Unpack16(data, width, height, Texel4444);
  }

  method Bgra555(data: seq<u8>, width: int, height: int) returns (r: Result<seq<u8>>)
    ensures r == Unpack16Spec(data, width, height, Texel555)
  {
    r := Unpack16(data, width, height, Texel555);
  }

  method Bgra565(data: seq<u8>, width: int, height: int) returns (r: Result<seq<u8>>)
    ensures r == Unpack16Spec(data, width, height, Texel565)
  {
    r := Unpack16(data, width, height, Texel565);
  }

  // ---------------------------------------------------------------------
  // 32- and 24-bit formats: bgra8888, bgra888

  /** `bgra8888`'s texels: each 4-byte group with its first and third bytes
      swapped. */
  function Chunks8888(data: seq<u8>): (cs: seq<seq<u8>>)
    ensures |cs| == |data| / 4
  {
    seq(|data| / 4, k requires 0 <= k < |data| / 4 => [data[4 * k + 2], data[4 * k + 1], data[4 * k], data[4 * k + 3]])
  }

  /** `bgra8888`: fails with an index error unless the input is whole
      4-byte groups. */
  function Bgra8888Spec(data: seq<u8>, width: int, height: int): Result<seq<u8>>
  {
    var init :- NewBuffer(width, height);
    if |data| % 4 != 0 then Err(IndexOutOfRange) else Ok(WriteRun(init, Chunks8888(data)))
  }

  method Bgra8888(data: seq<u8>, width: int, height: int) returns (r: Result<seq<u8>>)
    ensures r == Bgra8888Spec(data, width, height)
  {
    var ret :- NewBuffer(width, height);
    ghost var init := ret;
    ghost var cs := Chunks8888(data);
    var i := 0;
    ghost var k := 0;
    while i < |data|
      invariant i == 4 * k && i <= |data|
      invariant ret == WriteRun(init, cs[..k])
    {
      if i + 3 >= |data| {
        return Err(IndexOutOfRange);
      }
      assert cs[k] == [data[i + 2], data[i + 1], data[i + 0], data[i + 3]];
      WriteRunSnoc(init, cs, k);
      ret := SliceAssign(ret, i, i + 4, [data[i + 2], data[i + 1], data[i + 0], data[i + 3]]);
      i := i + 4;
      k := k + 1;
    }
    assert cs[..k] == cs;
    r := Ok(ret);
  }

  /** `bgra888`'s texels: like `bgra8888` with an opaque alpha; a final
      group of three bytes still makes a texel. */
  function Chunks888(data: seq<u8>): (cs: seq<seq<u8>>)
    ensures |cs| == |data| / 4 + (if |data| % 4 == 3 then 1 else 0)
  {
    var n := |data| / 4 + (if |data| % 4 == 3 then 1 else 0);
    seq(n, k requires 0 <= k < n => [data[4 * k + 2], data[4 * k + 1], data[4 * k], 0xff])
  }

  /** `bgra888`: fails with an index error when the last group has one or
      two bytes. */
  function Bgra888Spec(data: seq<u8>, width: int, height: int): Result<seq<u8>>
  {
    var init :- NewBuffer(width, height);
    if |data| % 4 == 1 || |data| % 4 == 2 then Err(IndexOutOfRange) else Ok(WriteRun(init, Chunks888(data)))
  }

  method Bgra888(data: seq<u8>, width: int, height: int) returns (r: Result<seq<u8>>)
    ensures r == Bgra888Spec(data, width, height)
  {
    var ret :- NewBuffer(width, height);
    ghost var init := ret;
    ghost var cs := Chunks888(data);
    var i := 0;
    ghost var k := 0;
    while i < |data|
      invariant i == 4 * k && i <= |data| + 1 && k <= |cs|
      invariant i > |data| ==> |data| == 4 * k - 1
      invariant ret == WriteRun(init, cs[..k])
    {
      if i + 2 >= |data| {
        return Err(IndexOutOfRange);
      }
      assert k < |cs|;
      assert cs[k] == [data[i + 2], data[i + 1], data[i + 0], 0xff];
      WriteRunSnoc(init, cs, k);
      ret := SliceAssign(ret, i, i + 4, [data[i + 2], data[i + 1], data[i + 0], 0xff]);
      i := i + 4;
      k := k + 1;
    }
    assert k == |cs|;
    assert cs[..k] == cs;
    r := Ok(ret);
  }

  // ---------------------------------------------------------------------
  // Luminance: lum8, lum8a8

  /** `lum8`'s texels: each byte as grey, opaque. */
  function ChunksLum8(data: seq<u8>): (cs: seq<seq<u8>>)
    ensures |cs| == |data|
  {
    seq(|data|, k requires 0 <= k < |data| => [data[k], data[k], data[k], 0xff])
  }

  function Lum8Spec(data: seq<u8>, width: int, height: int): Result<seq<u8>>
  {
    var init :- NewBuffer(width, height);
    Ok(WriteRun(init, ChunksLum8(data)))
  }

  method Lum8(data: seq<u8>, width: int, height: int) returns (r: Result<seq<u8>>)
    ensures r == Lum8Spec(data, width, height)
  {
    var ret :- NewBuffer(width, height);
    ghost var init := ret;
    ghost var cs := ChunksLum8(data);
    var i := 0;
    while i < |data|
      invariant i <= |data|
      invariant ret == WriteRun(init, cs[..i])
    {
      var c := data[i];
      var pos := i * 4;
      WriteRunSnoc(init, cs, i);
      ret := SliceAssign(ret, pos, pos + 4, [c, c, c, 0xff]);
      i := i + 1;
    }
    assert cs[..i] == cs;
    r := Ok(ret);
  }

  /** `lum8a8`'s texels: a grey byte and an alpha byte per pixel. */
  function ChunksLum8a8(data: seq<u8>): (cs: seq<seq<u8>>)
    ensures |cs| == |data| / 2
  {
    seq(|data| / 2, k requires 0 <= k < |data| / 2 => [data[2 * k], data[2 * k], data[2 * k], data[2 * k + 1]])
  }

  /** `lum8a8`: fails with an index error on a trailing odd byte. */
  function Lum8a8Spec(data: seq<u8>, width: int, height: int): Result<seq<u8>>
  {
    var init :- NewBuffer(width, height);
    if |data| % 2 != 0 then Err(IndexOutOfRange) else Ok(WriteRun(init, ChunksLum8a8(data)))
  }

  method Lum8a8(data: seq<u8>, width: int, height: int) returns (r: Result<seq<u8>>)
    ensures r == Lum8a8Spec(data, width, height)
  {
    var ret :- NewBuffer(width, height);
    ghost var init := ret;
    ghost var cs := ChunksLum8a8(data);
    var pos := 0;
    var i := 0;
    ghost var k := 0;
    while i < |data|
      invariant i == 2 * k && i <= |data| && pos == 4 * k
      invariant ret == WriteRun(init, cs[..k])
    {
      if i + 1 >= |data| {
        return Err(IndexOutOfRange);
      }
      var c, a := data[i], data[i + 1];
      assert cs[k] == [c, c, c, a];
      WriteRunSnoc(init, cs, k);
      ret := SliceAssign(ret, pos, pos + 4, [c, c, c, a]);
      pos := pos + 4;
      i := i + 2;
      k := k + 1;
    }
    assert cs[..k] == cs;
    r := Ok(ret);
  }

  // ---------------------------------------------------------------------
  // Paletted: pal8, pal8_noalpha, pal4, pal4_noalpha

  /** `s[a:b]` for 0 <= a <= b: both bounds clamped to the length. */
  function PySlice(s: seq<u8>, a: nat, b: nat): (r: seq<u8>)
    requires a <= b
    ensures b <= |s| ==> r == s[a..b]
  {
    var lo := if a < |s| then a else |s|;
    var hi := if b < |s| then b else |s|;
    s[lo..hi]
  }

  /** Palette entry `idx`: `palette[idx*4:idx*4+4]`, or with `noAlpha`
      its first three bytes and an opaque alpha,
      `palette[idx*4:idx*4+3] + b'\xff'`. */
  function Entry(palette: seq<u8>, idx: nat, noAlpha: bool): seq<u8>
  {
    if noAlpha then PySlice(palette, 4 * idx, 4 * idx + 3) + [0xff] else PySlice(palette, 4 * idx, 4 * idx + 4)
  }

  function ChunksPal8(indices: seq<u8>, palette: seq<u8>, noAlpha: bool): (cs: seq<seq<u8>>)
    ensures |cs| == |indices|
  {
    seq(|indices|, k requires 0 <= k < |indices| =>
      Entry(palette, indices[k], noAlpha))
  }

  /** `pal8` (and, with `noAlpha`, `pal8_noalpha`): one palette entry per
      index byte. It never fails; a palette too short for an index gives a
      short entry, and the buffer shifts. */
  function Pal8Spec(data: seq<u8>, palette: seq<u8>, width: int, height: int, noAlpha: bool): Result<seq<u8>>
  {
    var init :- NewBuffer(width, height);
    Ok(WriteRun(init, ChunksPal8(data, palette, noAlpha)))
  }

  method Pal8(data: seq<u8>, palette: seq<u8>, width: int, height: int) returns (r: Result<seq<u8>>)
    ensures r == Pal8Spec(data, palette, width, height, false)
  {
    var ret :- NewBuffer(width, height);
    ghost var init := ret;
    ghost var cs := ChunksPal8(data, palette, false);
    var pos := 0;
    var k := 0;
    while k < |data|
      invariant k <= |data| && pos == 4 * k
      invariant ret == WriteRun(init, cs[..k])
    {
      var idx: nat := data[k];
      assert cs[k] == Entry(palette, idx, false);
      WriteRunSnoc(init, cs, k);
      ret := SliceAssign(ret, pos, pos + 4, Entry(palette, idx, false));
      pos := pos + 4;
      k := k + 1;
    }
    assert cs[..k] == cs;
    r := Ok(ret);
  }

  method Pal8NoAlpha(data: seq<u8>, palette: seq<u8>, width: int, height: int) returns (r: Result<seq<u8>>)
    ensures r == Pal8Spec(data, palette, width, height, true)
  {
    var ret :- NewBuffer(width, height);
    ghost var init := ret;
    ghost var cs := ChunksPal8(data, palette, true);
    var pos := 0;
    var k := 0;
    while k < |data|
      invariant k <= |data| && pos == 4 * k
      invariant ret == WriteRun(init, cs[..k])
    {
      var idx: nat := data[k];
      assert cs[k] == Entry(palette, idx, true);
      WriteRunSnoc(init, cs, k);
      ret := SliceAssign(ret, pos, pos + 4, Entry(palette, idx, true));
      pos := pos + 4;
      k := k + 1;
    }
    assert cs[..k] == cs;
    r := Ok(ret);
  }

  /** The palette indices of a 4-bit image: the high nibble of each byte,
      then its low nibble. */
  function NibbleIndices(data: seq<u8>): (n: seq<u8>)
    ensures |n| == 2 * |data|
  {
    seq(2 * |data|, k requires 0 <= k < 2 * |data| =>
      if k % 2 == 0 then data[k / 2] / 0x10 else data[k / 2] % 0x10)
  }

  /** Byte k of a 4-bit image gives indices 2k (its high nibble) and
      2k + 1 (its low nibble). */
  lemma NibblesAt(data: seq<u8>, k: nat)
    requires k < |data|
    ensures NibbleIndices(data)[2 * k] == data[k] / 0x10 % 0x10
    ensures NibbleIndices(data)[2 * k + 1] == data[k] % 0x10
  {
    assert (2 * k) / 2 == k && (2 * k) % 2 == 0;
    assert (2 * k + 1) / 2 == k && (2 * k + 1) % 2 == 1;
  }

  /** Byte k of a 4-bit image gives chunks 2k and 2k + 1: the entries of
      its high and its low nibble. */
  lemma Pal4Chunks(data: seq<u8>, palette: seq<u8>, noAlpha: bool, k: nat)
    requires k < |data|
    ensures ChunksPal8(NibbleIndices(data), palette, noAlpha)[2 * k] == Entry(palette, data[k] / 0x10 % 0x10, noAlpha)
    ensures ChunksPal8(NibbleIndices(data), palette, noAlpha)[2 * k + 1] == Entry(palette, data[k] % 0x10, noAlpha)
  {
    NibblesAt(data, k);
  }

  /** `pal4` (and, with `noAlpha`, `pal4_noalpha`): two palette entries per
      byte, high nibble first. */
  function Pal4Spec(data: seq<u8>, palette: seq<u8>, width: int, height: int, noAlpha: bool): Result<seq<u8>>
  {
    var init :- NewBuffer(width, height);
    Ok(WriteRun(init, ChunksPal8(NibbleIndices(data), palette, noAlpha)))
  }

  method Pal4(data: seq<u8>, palette: seq<u8>, width: int, height: int) returns (r: Result<seq<u8>>)
    ensures r == Pal4Spec(data, palette, width, height, false)
  {
    var ret :- NewBuffer(width, height);
    ghost var init := ret;
    ghost var cs := ChunksPal8(NibbleIndices(data), palette, false);
    var pos := 0;
    var k := 0;
    ghost var n := 0;
    while k < |data|
      invariant k <= |data| && pos == 8 * k && n == 2 * k
      invariant ret == WriteRun(init, cs[..n])
    {
      var i := data[k];
      var idx1: nat, idx2: nat := i / 0x10 % 0x10, i % 0x10;
      Pal4Chunks(data, palette, false, k);
      WriteRunSnoc2(init, cs, n, ret, pos, Entry(palette, idx1, false), Entry(palette, idx2, false));
      ret := SliceAssign(ret, pos + 0, pos + 4, Entry(palette, idx1, false));
      ret := SliceAssign(ret, pos + 4, pos + 8, Entry(palette, idx2, false));
      pos := pos + 8;
      k := k + 1;
      n := n + 2;
    }
    assert cs[..n] == cs;
    r := Ok(ret);
  }

  method Pal4NoAlpha(data: seq<u8>, palette: seq<u8>, width: int, height: int) returns (r: Result<seq<u8>>)
    ensures r == Pal4Spec(data, palette, width, height, true)
  {
    var ret :- NewBuffer(width, height);
    ghost var init := ret;
    ghost var cs := ChunksPal8(NibbleIndices(data), palette, true);
    var pos := 0;
    var k := 0;
    ghost var n := 0;
    while k < |data|
      invariant k <= |data| && pos == 8 * k && n == 2 * k
      invariant ret == WriteRun(init, cs[..n])
    {
      var i := data[k];
      var idx1: nat, idx2: nat := i / 0x10 % 0x10, i % 0x10;
      Pal4Chunks(data, palette, true, k);
      WriteRunSnoc2(init, cs, n, ret, pos, Entry(palette, idx1, true), Entry(palette, idx2, true));
      ret := SliceAssign(ret, pos + 0, pos + 4, Entry(palette, idx1, true));
      ret := SliceAssign(ret, pos + 4, pos + 8, Entry(palette, idx2, true));
      pos := pos + 8;
      k := k + 1;
      n := n + 2;
    }
    assert cs[..n] == cs;
    r := Ok(ret);
  }
}
