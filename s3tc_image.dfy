/** The S3TC image decoders `bc1`, `bc2` and `bc3`: the image is walked
    in 4x4 blocks, block rows top to bottom and blocks left to right; each
    block is read at the next `stride` bytes of the input, decoded into its
    16 texels, and texel (i, j) of the block at (x, y) is written at byte
    `4 * ((y + j) * width + (x + i))` of the output buffer. */
module S3tcImage {
  import opened Common
  import opened PixelBuffer
  import opened S3tc

  /** The three block decoders and the parameter each takes. */
  datatype BlockFormat =
    | Bc1Format(alphaFlag: u8)
    | Bc2Format(premultiplied: bool)
    | Bc3Format(premultiplied: bool)

  /** Bytes per block: `<HHI` for `bc1`, `<4H2HI` and `<2B3H2HI` for the
      others. */
  function Stride(fmt: BlockFormat): nat
  {
    if fmt.Bc1Format? then 8 else 16
  }

  /** The 16 texels of one block, from its bytes. The `bc3` index words
      are passed in the order `(alpha4, alpha3, alpha2)`. */
  function BlockTexels(fmt: BlockFormat, block: seq<u8>): (ts: seq<seq<u8>>)
    requires |block| == Stride(fmt)
    ensures |ts| == 16 && AllTexels(ts)
  {
    match fmt
    case Bc1Format(alphaFlag) =>
      Bc1Texels(LeU16(block[0..2]), LeU16(block[2..4]), LeU32(block[4..8]), alphaFlag)
    case Bc2Format(premultiplied) =>
      Bc2Texels([LeU16(block[0..2]), LeU16(block[2..4]), LeU16(block[4..6]), LeU16(block[6..8])],
                LeU16(block[8..10]), LeU16(block[10..12]), LeU32(block[12..16]), premultiplied)
    case Bc3Format(premultiplied) =>
      Bc3Texels(block[0], block[1], [LeU16(block[6..8]), LeU16(block[4..6]), LeU16(block[2..4])],
                LeU16(block[8..10]), LeU16(block[10..12]), LeU32(block[12..16]), premultiplied)
  }

  /** The output offset of texel (i, j) of the block at (x, y). */
  function TexelOffset(width: nat, x: nat, y: nat, i: nat, j: nat): nat
  {
    4 * ((y + j) * width + (x + i))
  }

  /** The block decoder of a format, as a function on byte strings: the
      traversal below only ever applies it to `Stride(fmt)` bytes. */
  function Decoder(fmt: BlockFormat): seq<u8> -> seq<seq<u8>>
  {
    block => if |block| == Stride(fmt) then BlockTexels(fmt, block) else []
  }

  /** The buffer after the first `n` texels of the block at (x, y) are
      written, row by row. */
  function BlockWritten(buf: seq<u8>, width: nat, x: nat, y: nat, ts: seq<seq<u8>>, n: nat): seq<u8>
    requires n <= |ts|
    decreases n
  {
    if n == 0 then buf
    else
      var idx := TexelOffset(width, x, y, (n - 1) % 4, (n - 1) / 4);
      SliceAssign(BlockWritten(buf, width, x, y, ts, n - 1), idx, idx + 4, ts[n - 1])
  }

  /** The texels of the block read at input offset `pos`. */
  function BlockAt(decode: seq<u8> -> seq<seq<u8>>, stride: nat, data: seq<u8>, pos: nat): seq<seq<u8>>
    requires pos + stride <= |data|
  {
    decode(data[pos..pos + stride])
  }

  /** The buffer after the block read at input offset `pos` is decoded
      and written at (x, y). */
  function BlockStep(decode: seq<u8> -> seq<seq<u8>>, stride: nat, data: seq<u8>, width: nat, x: nat, y: nat,
                     buf: seq<u8>, pos: nat): seq<u8>
    requires pos + stride <= |data|
  {
    var ts := BlockAt(decode, stride, data, pos);
    BlockWritten(buf, width, x, y, ts, |ts|)
  }

  /** The rest of block row `y` from column `x` on: the buffer and input
      position after it, or the error of the first block whose
      `unpack_from` runs past the input. The traversal is the same for
      the three formats; only the block decoder and the stride differ. */
  function RowFrom(decode: seq<u8> -> seq<seq<u8>>, stride: nat, data: seq<u8>, width: int, y: nat, x: nat,
                   buf: seq<u8>, pos: nat): Result<(seq<u8>, nat)>
    decreases width - x
  {
    if x >= width then Ok((buf, pos))
    else if pos + stride > |data| then Err(StructSize)
    else RowFrom(decode, stride, data, width, y, x + 4, BlockStep(decode, stride, data, width, x, y, buf, pos), pos + stride)
  }

  /** The rest of the image from block row `y` on. */
  function RowsFrom(decode: seq<u8> -> seq<seq<u8>>, stride: nat, data: seq<u8>, width: int, height: int, y: nat,
                    buf: seq<u8>, pos: nat): Result<seq<u8>>
    decreases height - y
  {
    if y >= height then Ok(buf)
    else
      match RowFrom(decode, stride, data, width, y, 0, buf, pos)
      case Err(e) => Err(e)
      case Ok((next, p)) => RowsFrom(decode, stride, data, width, height, y + 4, next, p)
  }

  /** The image traversal over `bytearray(4 * width * height)`. */
  function Traverse(decode: seq<u8> -> seq<seq<u8>>, stride: nat, data: seq<u8>, width: int, height: int)
    : Result<seq<u8>>
  {
    var init :- NewBuffer(width, height);
    RowsFrom(decode, stride, data, width, height, 0, init, 0)
  }

  /** What `bc1`, `bc2` and `bc3` return. */
  function DecodeSpec(fmt: BlockFormat, data: seq<u8>, width: int, height: int): Result<seq<u8>>
  {
    Traverse(Decoder(fmt), Stride(fmt), data, width, height)
  }

  /** One block's bytes decoded by the format's block loop. */
  method DecodeBlock(fmt: BlockFormat, block: seq<u8>) returns (ts: seq<seq<u8>>)
    requires |block| == Stride(fmt)
    ensures ts == BlockTexels(fmt, block)
  {
    match fmt
    case Bc1Format(alphaFlag) =>
      ts := Bc1Block(LeU16(block[0..2]), LeU16(block[2..4]), LeU32(block[4..8]), alphaFlag);
    case Bc2Format(premultiplied) =>
      ts := Bc2Block([LeU16(block[0..2]), LeU16(block[2..4]), LeU16(block[4..6]), LeU16(block[6..8])],
                     LeU16(block[8..10]), LeU16(block[10..12]), LeU32(block[12..16]), premultiplied);
    case Bc3Format(premultiplied) =>
      ts := Bc3Block(block[0], block[1], [LeU16(block[6..8]), LeU16(block[4..6]), LeU16(block[2..4])],
                     LeU16(block[8..10]), LeU16(block[10..12]), LeU32(block[12..16]), premultiplied);
  }

  /** Writes the 16 texels of the block at (x, y), `ret[idx:idx+4] = ...`
      for j, then i, in 0..3. */
  method WriteBlock(buf: seq<u8>, width: nat, x: nat, y: nat, ts: seq<seq<u8>>) returns (out: seq<u8>)
    requires |ts| == 16
    ensures out == BlockWritten(buf, width, x, y, ts, |ts|)
  {
    out := buf;
    var j := 0;
    while j < 4
      invariant j <= 4 && out == BlockWritten(buf, width, x, y, ts, 4 * j)
    {
      var i := 0;
      while i < 4
        invariant i <= 4 && out == BlockWritten(buf, width, x, y, ts, 4 * j + i)
      {
        var n := 4 * j + i;
        assert n % 4 == i && n / 4 == j;
        var idx := TexelOffset(width, x, y, i, j);
        out := SliceAssign(out, idx, idx + 4, ts[n]);
        i := i + 1;
      }
      j := j + 1;
    }
  }

  /** The body of the block loop: the block at `pos` decoded and
      written at (x, y). */
  method DecodeBlockAt(fmt: BlockFormat, data: seq<u8>, width: nat, x: nat, y: nat, buf: seq<u8>, pos: nat)
    returns (out: seq<u8>)
    requires pos + Stride(fmt) <= |data|
    ensures out == BlockStep(Decoder(fmt), Stride(fmt), data, width, x, y, buf, pos)
  {
    var block := data[pos..pos + Stride(fmt)];
    var ts := DecodeBlock(fmt, block);
    assert ts == Decoder(fmt)(block);
    out := WriteBlock(buf, width, x, y, ts);
  }

  /** One block row of the image loop: the blocks at x = 0, 4, 8, ...
      below `width`, read from `pos` on. */
  method DecodeRow(fmt: BlockFormat, data: seq<u8>, width: int, y: nat, buf: seq<u8>, pos: nat)
    returns (r: Result<(seq<u8>, nat)>)
    ensures r == RowFrom(Decoder(fmt), Stride(fmt), data, width, y, 0, buf, pos)
  {
    ghost var row := RowFrom(Decoder(fmt), Stride(fmt), data, width, y, 0, buf, pos);
    var ret := buf;
    var p: nat := pos;
    var x: nat := 0;
    while x < width
      invariant RowFrom(Decoder(fmt), Stride(fmt), data, width, y, x, ret, p) == row
      decreases width - x
    {
      if p + Stride(fmt) > |data| {
        return Err(StructSize);
      }
      ret := DecodeBlockAt(fmt, data, width, x, y, ret, p);
      p := p + Stride(fmt);
      x := x + 4;
    }
    r := Ok((ret, p));
  }

  /** The image loop shared by `bc1`, `bc2` and `bc3`. */
  method DecodeImage(fmt: BlockFormat, data: seq<u8>, width: int, height: int) returns (r: Result<seq<u8>>)
    ensures r == DecodeSpec(fmt, data, width, height)
  {
    var ret :- NewBuffer(width, height);
    var pos: nat := 0;
    var y: nat := 0;
    while y < height
      invariant RowsFrom(Decoder(fmt), Stride(fmt), data, width, height, y, ret, pos) == DecodeSpec(fmt, data, width, height)
      decreases height - y
    {
      var row := DecodeRow(fmt, data, width, y, ret, pos);
      if row.Err? {
        return Err(row.error);
      }
      ret, pos := row.value.0, row.value.1;
      y := y + 4;
    }
    r := Ok(ret);
  }

  /** What `bc1` returns for any integer `alpha_flag`. A flag outside
      0..255 makes `a | alpha_flag` leave the byte range, so the first texel
      write, `bytes([r, g, b, a | alpha_flag])`, raises a value error right
      after the first block is unpacked; only an image with no block
      escapes it. */
  function Bc1Spec(data: seq<u8>, width: int, height: int, alphaFlag: int): (r: Result<seq<u8>>)
    ensures 0 <= alphaFlag < 0x100 ==> r == DecodeSpec(Bc1Format(alphaFlag as u8), data, width, height)
    ensures !(0 <= alphaFlag < 0x100) ==>
      && (r == Err(NegativeCount) <==> width * height < 0)
      && (r.Ok? <==> width * height >= 0 && (width <= 0 || height <= 0))
      && (r.Ok? ==> r.value == Zeros(4 * width * height))
      && (r == Err(StructSize) <==> 0 < width && 0 < height && |data| < 8)
      && (r == Err(ByteOutOfRange) <==> 0 < width && 0 < height && 8 <= |data|)
  {
    if 0 <= alphaFlag < 0x100 then DecodeSpec(Bc1Format(alphaFlag as u8), data, width, height)
    else
      var init :- NewBuffer(width, height);
      if width <= 0 || height <= 0 then Ok(init)
      else if 8 > |data| then Err(StructSize)
      else Err(ByteOutOfRange)
  }

  /** `bc1(data, width, height, alpha_flag)`. */
  method Bc1(data: seq<u8>, width: int, height: int, alphaFlag: int) returns (r: Result<seq<u8>>)
    ensures r == Bc1Spec(data, width, height, alphaFlag)
  {
    if 0 <= alphaFlag < 0x100 {
      r := DecodeImage(Bc1Format(alphaFlag as u8), data, width, height);
      return;
    }
    var ret :- NewBuffer(width, height);
    if 0 < height && 0 < width {
      // the first pass of both block loops: unpack_from, then the first write
      if 8 > |data| {
        return Err(StructSize);
      }
      return Err(ByteOutOfRange);
    }
    r := Ok(ret);
  }

  /** `bc2(data, width, height, premultiplied)`. */
  method Bc2(data: seq<u8>, width: int, height: int, premultiplied: bool) returns (r: Result<seq<u8>>)
    ensures r == DecodeSpec(Bc2Format(premultiplied), data, width, height)
  {
    r := DecodeImage(Bc2Format(premultiplied), data, width, height);
  }

  /** `bc3(data, width, height, premultiplied)`. */
  method Bc3(data: seq<u8>, width: int, height: int, premultiplied: bool) returns (r: Result<seq<u8>>)
    ensures r == DecodeSpec(Bc3Format(premultiplied), data, width, height)
  {
    r := DecodeImage(Bc3Format(premultiplied), data, width, height);
  }
}
