/** What the S3TC image decoders return: they fail exactly when the input
    holds fewer bytes than the blocks the loops visit; for an image whose
    sides are multiples of 4, pixel (4 * c + i, 4 * r + j) is texel (i, j)
    of block `r * (width / 4) + c`; for other sides the buffer grows. */
module S3tcImageProperties {
  import opened Common
  import opened Texels
  import opened PixelBuffer
  import opened S3tcImage

  // ---------------------------------------------------------------------
  // When decoding fails

  /** The iterations of `range(0, n, 4)`. */
  function Blocks(n: int): nat
  {
    if n <= 0 then 0 else (n + 3) / 4
  }

  /** A block row from column `x` on reads one block per iteration of the
      column loop, and fails with a struct error exactly when those blocks
      run past the input. */
  lemma {:induction false} RowFromShape(decode: seq<u8> -> seq<seq<u8>>, stride: nat, data: seq<u8>, width: int, y: nat, x: nat,
                                        buf: seq<u8>, pos: nat)
    requires pos <= |data|
    ensures var r := RowFrom(decode, stride, data, width, y, x, buf, pos);
      && (r.Ok? <==> pos + stride * Blocks(width - x) <= |data|)
      && (r.Ok? ==> r.value.1 == pos + stride * Blocks(width - x))
      && (r.Err? ==> r.error == StructSize)
    decreases width - x
  {
    var s := stride;
    var r := RowFrom(decode, stride, data, width, y, x, buf, pos);
    if x >= width {
      assert r == Ok((buf, pos));
      assert Blocks(width - x) == 0;
    } else {
      var rest := Blocks(width - (x + 4));
      var need := s * Blocks(width - x);
      assert Blocks(width - x) == 1 + rest;
      assert need == s + s * rest;
      if pos + s <= |data| {
        var next := BlockStep(decode, stride, data, width, x, y, buf, pos);
        assert r == RowFrom(decode, stride, data, width, y, x + 4, next, pos + s);
        RowFromShape(decode, stride, data, width, y, x + 4, next, pos + s);
        assert r.Ok? <==> pos + need <= |data|;
        assert r.Ok? ==> r.value.1 == pos + need;
      } else {
        assert r == Err(StructSize);
        assert s * rest >= 0;
        assert pos + need > |data|;
      }
    }
  }

  /** The rows from block row `y` on read `Stride * Blocks(width)` bytes
      each, and fail with a struct error exactly when that runs past the
      input. */
  lemma {:induction false} RowsFromShape(decode: seq<u8> -> seq<seq<u8>>, stride: nat, data: seq<u8>, width: int, height: int, y: nat,
                                         buf: seq<u8>, pos: nat)
    requires pos <= |data|
    ensures var r := RowsFrom(decode, stride, data, width, height, y, buf, pos);
      && (r.Ok? <==> pos + stride * Blocks(width) * Blocks(height - y) <= |data|)
      && (r.Err? ==> r.error == StructSize)
    decreases height - y
  {
    var rb := stride * Blocks(width);
    if y >= height {
      assert Blocks(height - y) == 0;
    } else {
      var rest := Blocks(height - (y + 4));
      assert Blocks(height - y) == 1 + rest;
      assert rb * (1 + rest) == rb + rb * rest;
      MulMono(0, rest, rb);
      RowFromShape(decode, stride, data, width, y, 0, buf, pos);
      var row := RowFrom(decode, stride, data, width, y, 0, buf, pos);
      if row.Ok? {
        RowsFromShape(decode, stride, data, width, height, y + 4, row.value.0, row.value.1);
      }
    }
  }

  /** The traversal fails with a value error when exactly one side is
      negative, with a struct error when the input is shorter than one
      block per 4x4 tile (the tiles counted by the two loops), and
      succeeds otherwise. */
  lemma TraverseFails(decode: seq<u8> -> seq<seq<u8>>, stride: nat, data: seq<u8>, width: int, height: int)
    ensures var r := Traverse(decode, stride, data, width, height);
      && (r == Err(NegativeCount) <==> width * height < 0)
      && (r == Err(StructSize) <==> width * height >= 0 && stride * Blocks(width) * Blocks(height) > |data|)
      && (r.Ok? <==> width * height >= 0 && stride * Blocks(width) * Blocks(height) <= |data|)
  {
    if width * height < 0 {
      assert Traverse(decode, stride, data, width, height) == Err(NegativeCount);
    } else {
      var init := Zeros(4 * width * height);
      assert Traverse(decode, stride, data, width, height) == RowsFrom(decode, stride, data, width, height, 0, init, 0);
      RowsFromShape(decode, stride, data, width, height, 0, init, 0);
      assert height - 0 == height;
    }
  }

  /** `bc1`, `bc2` and `bc3` fail with a value error when exactly one
      side is negative, with a struct error when the input holds fewer
      than `Stride(fmt)` bytes per 4x4 tile, and succeed otherwise. */
  lemma DecodeSpecFails(fmt: BlockFormat, data: seq<u8>, width: int, height: int)
    ensures var r := DecodeSpec(fmt, data, width, height);
      && (r == Err(NegativeCount) <==> width * height < 0)
      && (r == Err(StructSize) <==> width * height >= 0 && Stride(fmt) * Blocks(width) * Blocks(height) > |data|)
      && (r.Ok? <==> width * height >= 0 && Stride(fmt) * Blocks(width) * Blocks(height) <= |data|)
  {
    TraverseFails(Decoder(fmt), Stride(fmt), data, width, height);
  }

  /** With no block column, every block row leaves the buffer as it is. */
  lemma {:induction false} RowsFromNoColumns(decode: seq<u8> -> seq<seq<u8>>, stride: nat, data: seq<u8>,
                                             width: int, height: int, y: nat, buf: seq<u8>, pos: nat)
    requires width <= 0
    ensures RowsFrom(decode, stride, data, width, height, y, buf, pos) == Ok(buf)
    decreases height - y
  {
    if y < height {
      assert RowFrom(decode, stride, data, width, y, 0, buf, pos) == Ok((buf, pos));
      RowsFromNoColumns(decode, stride, data, width, height, y + 4, buf, pos);
    }
  }

  /** An `alpha_flag` outside the byte range changes nothing on an image
      with no block to decode, where `bc1` gives what it gives for any byte
      flag, and makes every image with a block fail. */
  lemma Bc1FlagOutOfRange(data: seq<u8>, width: int, height: int, alphaFlag: int, byteFlag: u8)
    requires !(0 <= alphaFlag < 0x100)
    ensures width <= 0 || height <= 0 ==>
      Bc1Spec(data, width, height, alphaFlag) == DecodeSpec(Bc1Format(byteFlag), data, width, height)
    ensures 0 < width && 0 < height ==> Bc1Spec(data, width, height, alphaFlag).Err?
  {
    var fmt := Bc1Format(byteFlag);
    if width <= 0 || height <= 0 {
      if width * height < 0 {
        DecodeSpecFails(fmt, data, width, height);
      } else {
        var init := Zeros(4 * width * height);
        assert DecodeSpec(fmt, data, width, height) == RowsFrom(Decoder(fmt), Stride(fmt), data, width, height, 0, init, 0);
        if width <= 0 {
          RowsFromNoColumns(Decoder(fmt), Stride(fmt), data, width, height, 0, init, 0);
        }
      }
    }
  }

  // ---------------------------------------------------------------------
  // Where each pixel comes from

  /** Pixel (col, row) of a `width` x `height` image lies inside its
      buffer. */
  lemma PixelIndexBound(width: nat, height: nat, row: nat, col: nat)
    requires row < height && col < width
    ensures 4 * PixelIndex(width, row, col) + 4 <= 4 * width * height
  {
    PixelIndexProduct(width, row, col);
    MulMono(row + 1, height, width);
    assert (row + 1) * width == row * width + width;
  }

  /** Distinct pixels of a `width`-wide image have distinct indices. */
  lemma PixelIndexInjective(width: nat, r1: nat, c1: nat, r2: nat, c2: nat)
    requires c1 < width && c2 < width
    ensures PixelIndex(width, r1, c1) == PixelIndex(width, r2, c2) <==> r1 == r2 && c1 == c2
  {
    PixelIndexProduct(width, r1, c1);
    PixelIndexProduct(width, r2, c2);
    if r1 < r2 {
      MulMono(r1 + 1, r2, width);
      assert (r1 + 1) * width == r1 * width + width;
    } else if r2 < r1 {
      MulMono(r2 + 1, r1, width);
      assert (r2 + 1) * width == r2 * width + width;
    }
  }

  /** Pixel (col, row) of a `width` x `height` RGBA buffer. */
  function PixelAt(out: seq<u8>, width: nat, height: nat, row: nat, col: nat): seq<u8>
    requires row < height && col < width && |out| == 4 * width * height
  {
    PixelIndexBound(width, height, row, col);
    Pixel(out, PixelIndex(width, row, col))
  }

  /** Writing one texel at pixel (c0, r0) changes that pixel only. */
  lemma PixelAfterWrite(prev: seq<u8>, width: nat, height: nat, r0: nat, c0: nat, idx: nat, t: seq<u8>,
                         row: nat, col: nat)
    requires |prev| == 4 * width * height && |t| == 4
    requires r0 < height && c0 < width && row < height && col < width
    requires idx == 4 * PixelIndex(width, r0, c0)
    ensures |SliceAssign(prev, idx, idx + 4, t)| == |prev|
    ensures PixelAt(SliceAssign(prev, idx, idx + 4, t), width, height, row, col)
         == if row == r0 && col == c0 then t else PixelAt(prev, width, height, row, col)
  {
    var k0 := PixelIndex(width, r0, c0);
    var k := PixelIndex(width, row, col);
    PixelIndexBound(width, height, r0, c0);
    PixelIndexBound(width, height, row, col);
    PixelIndexInjective(width, row, col, r0, c0);
    SliceAssignInside(prev, 4 * k0, t);
    var out := SliceAssign(prev, 4 * k0, 4 * k0 + 4, t);
    if k == k0 {
      assert Pixel(out, k) == t;
    } else {
      assert Pixel(out, k) == Pixel(prev, k);
    }
  }

  /** Texel (i, j) of a block belongs to pixel (4 * c + i, 4 * r + j) of
      block (c, r): after the first `n` texels of block (tc, tr) are
      written, a pixel holds its texel if it is one of them, and what it
      held before otherwise. */
  lemma {:induction false} BlockPixels(buf: seq<u8>, cols: nat, rows: nat, tr: nat, tc: nat, ts: seq<seq<u8>>,
                                       n: nat, r: nat, c: nat, j: nat, i: nat)
    requires AllTexels(ts) && n <= |ts| && n <= 16 && |buf| == 4 * (4 * cols) * (4 * rows)
    requires tr < rows && tc < cols && r < rows && c < cols && j < 4 && i < 4
    ensures |BlockWritten(buf, 4 * cols, 4 * tc, 4 * tr, ts, n)| == |buf|
    ensures PixelAt(BlockWritten(buf, 4 * cols, 4 * tc, 4 * tr, ts, n), 4 * cols, 4 * rows, 4 * r + j, 4 * c + i)
         == if r == tr && c == tc && 4 * j + i < n then ts[4 * j + i]
            else PixelAt(buf, 4 * cols, 4 * rows, 4 * r + j, 4 * c + i)
    decreases n
  {
    if n > 0 {
      BlockPixels(buf, cols, rows, tr, tc, ts, n - 1, r, c, j, i);
      var prev := BlockWritten(buf, 4 * cols, 4 * tc, 4 * tr, ts, n - 1);
      var ii, jj := (n - 1) % 4, (n - 1) / 4;
      assert n - 1 == 4 * jj + ii && ii < 4 && jj < 4;
      TexelStep(prev, cols, rows, tr, tc, ii, jj, ts[n - 1], r, c, j, i);
      SameTexel(j, i, jj, ii);
      assert BlockWritten(buf, 4 * cols, 4 * tc, 4 * tr, ts, n)
          == SliceAssign(prev, TexelOffset(4 * cols, 4 * tc, 4 * tr, ii, jj), TexelOffset(4 * cols, 4 * tc, 4 * tr, ii, jj) + 4, ts[n - 1]);
      assert (4 * j + i < n) == (4 * j + i < n - 1 || (j == jj && i == ii));
    }
  }

  /** Writing texel (ii, jj) of block (tc, tr) changes its own pixel only. */
  lemma TexelStep(prev: seq<u8>, cols: nat, rows: nat, tr: nat, tc: nat, ii: nat, jj: nat, t: seq<u8>,
                  r: nat, c: nat, j: nat, i: nat)
    requires |prev| == 4 * (4 * cols) * (4 * rows) && |t| == 4
    requires tr < rows && tc < cols && ii < 4 && jj < 4 && r < rows && c < cols && j < 4 && i < 4
    ensures var idx := TexelOffset(4 * cols, 4 * tc, 4 * tr, ii, jj);
      var next := SliceAssign(prev, idx, idx + 4, t);
      && |next| == |prev|
      && PixelAt(next, 4 * cols, 4 * rows, 4 * r + j, 4 * c + i)
         == if r == tr && c == tc && j == jj && i == ii then t else PixelAt(prev, 4 * cols, 4 * rows, 4 * r + j, 4 * c + i)
  {
    PixelIndexProduct(4 * cols, 4 * tr + jj, 4 * tc + ii);
    PixelAfterWrite(prev, 4 * cols, 4 * rows, 4 * tr + jj, 4 * tc + ii, TexelOffset(4 * cols, 4 * tc, 4 * tr, ii, jj), t,
                    4 * r + j, 4 * c + i);
    SameTexel(r, j, tr, jj);
    SameTexel(c, i, tc, ii);
  }

  /** Offsets `4 * r + j` with `j < 4` are distinct for distinct (r, j). */
  lemma SameTexel(r: nat, j: nat, t: nat, k: nat)
    requires j < 4 && k < 4
    ensures 4 * r + j == 4 * t + k <==> r == t && j == k
  {
  }

  /** 16 texels of 4 bytes each. */
  predicate TexelBlock(ts: seq<seq<u8>>)
  {
    |ts| == 16 && AllTexels(ts)
  }

  /** Each block of `stride` bytes decodes to 16 texels of 4 bytes. */
  ghost predicate TexelBlocks(decode: seq<u8> -> seq<seq<u8>>, stride: nat)
  {
    forall block: seq<u8> {:trigger TexelBlock(decode(block))} | |block| == stride :: TexelBlock(decode(block))
  }

  /** The three formats' decoders are such decoders. */
  lemma DecoderTexelBlocks(fmt: BlockFormat)
    ensures TexelBlocks(Decoder(fmt), Stride(fmt))
  {
  }

  /** An input that holds the `cols * rows` blocks of an image of
      `4 * cols` by `4 * rows` pixels, and a decoder that turns each block
      into 16 texels. */
  ghost predicate Tiled(decode: seq<u8> -> seq<seq<u8>>, stride: nat, data: seq<u8>, cols: nat, rows: nat)
  {
    stride * (cols * rows) <= |data| && TexelBlocks(decode, stride)
  }

  /** Block `tr * cols + tc` of `cols * rows` blocks lies within them. */
  lemma BlockInside(stride: nat, cols: nat, rows: nat, tr: nat, tc: nat)
    requires tr < rows && tc < cols
    ensures stride * (tr * cols + tc) + stride <= stride * (cols * rows)
  {
    var b := tr * cols + tc;
    MulMono(tr + 1, rows, cols);
    assert (tr + 1) * cols == tr * cols + cols;
    MulMono(b + 1, cols * rows, stride);
    assert (b + 1) * stride == stride * b + stride;
  }

  /** The texel that belongs at pixel (4 * c + i, 4 * r + j) of a tiled
      image: texel (i, j) of block `r * cols + c`, the blocks being read
      row by row. */
  function TileTexel(decode: seq<u8> -> seq<seq<u8>>, stride: nat, data: seq<u8>, cols: nat, rows: nat,
                     r: nat, c: nat, j: nat, i: nat): seq<u8>
    requires Tiled(decode, stride, data, cols, rows) && r < rows && c < cols && j < 4 && i < 4
  {
    BlockInside(stride, cols, rows, r, c);
    var start := stride * (r * cols + c);
    assert |data[start..start + stride]| == stride;
    assert TexelBlock(BlockAt(decode, stride, data, start));
    BlockAt(decode, stride, data, start)[4 * j + i]
  }

  /** Every pixel of the block rows above `tr`, and of the first `tc`
      blocks of block row `tr`, holds the texel that belongs there. */
  ghost predicate Done(decode: seq<u8> -> seq<seq<u8>>, stride: nat, data: seq<u8>, cols: nat, rows: nat,
                       out: seq<u8>, tr: nat, tc: nat)
    requires Tiled(decode, stride, data, cols, rows) && |out| == 4 * (4 * cols) * (4 * rows)
  {
    forall r: nat, c: nat, j: nat, i: nat | r < rows && c < cols && j < 4 && i < 4 && (r < tr || (r == tr && c < tc)) ::
      PixelAt(out, 4 * cols, 4 * rows, 4 * r + j, 4 * c + i) == TileTexel(decode, stride, data, cols, rows, r, c, j, i)
  }

  /** Decoding block (tc, tr) of a tiled image at its input offset puts
      each of its texels at its pixel and leaves every other pixel. */
  lemma PixelPlaced(decode: seq<u8> -> seq<seq<u8>>, stride: nat, data: seq<u8>,
                    cols: nat, rows: nat, tr: nat, tc: nat, buf: seq<u8>, pos: nat,
                    r: nat, c: nat, j: nat, i: nat)
    requires Tiled(decode, stride, data, cols, rows)
    requires tr < rows && tc < cols && |buf| == 4 * (4 * cols) * (4 * rows)
    requires pos == stride * (tr * cols + tc) && pos + stride <= |data|
    requires r < rows && c < cols && j < 4 && i < 4
    ensures var next := BlockStep(decode, stride, data, 4 * cols, 4 * tc, 4 * tr, buf, pos);
      && |next| == |buf|
      && PixelAt(next, 4 * cols, 4 * rows, 4 * r + j, 4 * c + i)
         == if r == tr && c == tc then TileTexel(decode, stride, data, cols, rows, r, c, j, i)
            else PixelAt(buf, 4 * cols, 4 * rows, 4 * r + j, 4 * c + i)
  {
    var ts := BlockAt(decode, stride, data, pos);
    assert |data[pos..pos + stride]| == stride;
    assert TexelBlock(ts);
    BlockPixels(buf, cols, rows, tr, tc, ts, |ts|, r, c, j, i);
    if r == tr && c == tc {
      assert TileTexel(decode, stride, data, cols, rows, r, c, j, i)
          == TileTexel(decode, stride, data, cols, rows, tr, tc, j, i)
          == ts[4 * j + i];
    }
  }

  /** One block of a tiled image put in place: the pixels already done
      stay, and the 16 of block (tc, tr) become its texels. */
  lemma BlockDone(decode: seq<u8> -> seq<seq<u8>>, stride: nat, data: seq<u8>,
                  cols: nat, rows: nat, tr: nat, tc: nat, buf: seq<u8>, pos: nat)
    requires Tiled(decode, stride, data, cols, rows)
    requires tr < rows && tc < cols && |buf| == 4 * (4 * cols) * (4 * rows)
    requires pos == stride * (tr * cols + tc) && pos + stride <= |data|
    requires Done(decode, stride, data, cols, rows, buf, tr, tc)
    ensures var next := BlockStep(decode, stride, data, 4 * cols, 4 * tc, 4 * tr, buf, pos);
      |next| == |buf| && Done(decode, stride, data, cols, rows, next, tr, tc + 1)
  {
    var next := BlockStep(decode, stride, data, 4 * cols, 4 * tc, 4 * tr, buf, pos);
    PixelPlaced(decode, stride, data, cols, rows, tr, tc, buf, pos, tr, tc, 0, 0);
    forall r: nat, c: nat, j: nat, i: nat | r < rows && c < cols && j < 4 && i < 4 && (r < tr || (r == tr && c < tc + 1))
      ensures PixelAt(next, 4 * cols, 4 * rows, 4 * r + j, 4 * c + i) == TileTexel(decode, stride, data, cols, rows, r, c, j, i)
    {
      PixelPlaced(decode, stride, data, cols, rows, tr, tc, buf, pos, r, c, j, i);
    }
  }

  /** Block row `tr` of a tiled image, from block `tc` on, puts every
      pixel of the row in place and keeps those above. */
  lemma {:induction false} RowFromPixels(decode: seq<u8> -> seq<seq<u8>>, stride: nat, data: seq<u8>,
                                         cols: nat, rows: nat, tr: nat, tc: nat, buf: seq<u8>, pos: nat)
    requires Tiled(decode, stride, data, cols, rows)
    requires tr < rows && tc <= cols && |buf| == 4 * (4 * cols) * (4 * rows)
    requires pos == stride * (tr * cols + tc)
    requires Done(decode, stride, data, cols, rows, buf, tr, tc)
    ensures var r := RowFrom(decode, stride, data, 4 * cols, 4 * tr, 4 * tc, buf, pos);
      && r.Ok? && |r.value.0| == |buf|
      && r.value.1 == stride * ((tr + 1) * cols)
      && Done(decode, stride, data, cols, rows, r.value.0, tr + 1, 0)
    decreases cols - tc
  {
    if tc == cols {
      assert RowFrom(decode, stride, data, 4 * cols, 4 * tr, 4 * tc, buf, pos) == Ok((buf, pos));
      MulSucc(cols, tr);
      DoneRow(decode, stride, data, cols, rows, buf, tr);
    } else {
      BlockInside(stride, cols, rows, tr, tc);
      BlockDone(decode, stride, data, cols, rows, tr, tc, buf, pos);
      var next := BlockStep(decode, stride, data, 4 * cols, 4 * tc, 4 * tr, buf, pos);
      MulSucc(stride, tr * cols + tc);
      assert RowFrom(decode, stride, data, 4 * cols, 4 * tr, 4 * tc, buf, pos)
          == RowFrom(decode, stride, data, 4 * cols, 4 * tr, 4 * (tc + 1), next, pos + stride);
      RowFromPixels(decode, stride, data, cols, rows, tr, tc + 1, next, pos + stride);
    }
  }

  /** `a * (n + 1) == a * n + a`. */
  lemma MulSucc(a: nat, n: nat)
    ensures a * (n + 1) == a * n + a && (n + 1) * a == n * a + a
  {
  }

  /** A finished block row is the start of the next one. */
  lemma DoneRow(decode: seq<u8> -> seq<seq<u8>>, stride: nat, data: seq<u8>, cols: nat, rows: nat,
                out: seq<u8>, tr: nat)
    requires Tiled(decode, stride, data, cols, rows) && |out| == 4 * (4 * cols) * (4 * rows)
    requires Done(decode, stride, data, cols, rows, out, tr, cols)
    ensures Done(decode, stride, data, cols, rows, out, tr + 1, 0)
  {
  }

  /** The block rows from `tr` on put every remaining pixel in place. */
  lemma {:induction false} RowsFromPixels(decode: seq<u8> -> seq<seq<u8>>, stride: nat, data: seq<u8>,
                                          cols: nat, rows: nat, tr: nat, buf: seq<u8>, pos: nat)
    requires Tiled(decode, stride, data, cols, rows)
    requires tr <= rows && |buf| == 4 * (4 * cols) * (4 * rows)
    requires pos == stride * (tr * cols)
    requires Done(decode, stride, data, cols, rows, buf, tr, 0)
    ensures var r := RowsFrom(decode, stride, data, 4 * cols, 4 * rows, 4 * tr, buf, pos);
      && r.Ok? && |r.value| == |buf|
      && Done(decode, stride, data, cols, rows, r.value, rows, 0)
    decreases rows - tr
  {
    if tr < rows {
      RowFromPixels(decode, stride, data, cols, rows, tr, 0, buf, pos);
      var row := RowFrom(decode, stride, data, 4 * cols, 4 * tr, 0, buf, pos);
      RowsFromPixels(decode, stride, data, cols, rows, tr + 1, row.value.0, row.value.1);
    }
  }

  /** The traversal of a tiled image succeeds with exactly
      `4 * width * height` bytes, every pixel holding its texel. */
  lemma TraverseTiles(decode: seq<u8> -> seq<seq<u8>>, stride: nat, data: seq<u8>, cols: nat, rows: nat)
    requires Tiled(decode, stride, data, cols, rows)
    ensures var r := Traverse(decode, stride, data, 4 * cols, 4 * rows);
      && r.Ok? && |r.value| == 4 * (4 * cols) * (4 * rows)
      && forall r0: nat, c0: nat, j: nat, i: nat | r0 < rows && c0 < cols && j < 4 && i < 4 ::
           PixelAt(r.value, 4 * cols, 4 * rows, 4 * r0 + j, 4 * c0 + i)
             == TileTexel(decode, stride, data, cols, rows, r0, c0, j, i)
  {
    var init := Zeros(4 * (4 * cols) * (4 * rows));
    assert Traverse(decode, stride, data, 4 * cols, 4 * rows)
        == RowsFrom(decode, stride, data, 4 * cols, 4 * rows, 0, init, 0);
    RowsFromPixels(decode, stride, data, cols, rows, 0, init, 0);
  }

  /** For an image of `4 * cols` by `4 * rows` pixels and an input that
      holds all of its blocks, `bc1`, `bc2` and `bc3` succeed with exactly
      `4 * width * height` bytes, and pixel (4 * c + i, 4 * r + j) is
      texel (i, j) of block `r * cols + c` (see `FormatTileTexel`). */
  lemma DecodeTiles(fmt: BlockFormat, data: seq<u8>, cols: nat, rows: nat)
    requires Stride(fmt) * (cols * rows) <= |data|
    ensures Tiled(Decoder(fmt), Stride(fmt), data, cols, rows)
    ensures var r := DecodeSpec(fmt, data, 4 * cols, 4 * rows);
      && r.Ok? && |r.value| == 4 * (4 * cols) * (4 * rows)
      && forall r0: nat, c0: nat, j: nat, i: nat | r0 < rows && c0 < cols && j < 4 && i < 4 ::
           PixelAt(r.value, 4 * cols, 4 * rows, 4 * r0 + j, 4 * c0 + i)
             == TileTexel(Decoder(fmt), Stride(fmt), data, cols, rows, r0, c0, j, i)
  {
    DecoderTexelBlocks(fmt);
    TraverseTiles(Decoder(fmt), Stride(fmt), data, cols, rows);
  }

  /** For a format's own decoder, texel (i, j) of block `r * cols + c` is
      entry `4 * j + i` of the format's block decoding of the `Stride(fmt)`
      bytes at offset `Stride(fmt) * (r * cols + c)`. */
  lemma FormatTileTexel(fmt: BlockFormat, data: seq<u8>, cols: nat, rows: nat, r: nat, c: nat, j: nat, i: nat)
    requires Tiled(Decoder(fmt), Stride(fmt), data, cols, rows) && r < rows && c < cols && j < 4 && i < 4
    ensures var off := Stride(fmt) * (r * cols + c);
      && off + Stride(fmt) <= |data|
      && TileTexel(Decoder(fmt), Stride(fmt), data, cols, rows, r, c, j, i)
         == BlockTexels(fmt, data[off..off + Stride(fmt)])[4 * j + i]
  {
    BlockInside(Stride(fmt), cols, rows, r, c);
    var off := Stride(fmt) * (r * cols + c);
    var block := data[off..off + Stride(fmt)];
    assert |block| == Stride(fmt);
    assert BlockAt(Decoder(fmt), Stride(fmt), data, off) == Decoder(fmt)(block);
    assert Decoder(fmt)(block) == BlockTexels(fmt, block);
  }

  /** The buffer grows when a side is not a multiple of 4: for a 1x1
      image the 16 texels of its one block are written at byte offsets
      `4 * (i + j)`, the writes past the end append, and the result is
      28 bytes rather than 4. */
  lemma OnePixelImage(decode: seq<u8> -> seq<seq<u8>>, stride: nat, data: seq<u8>)
    requires TexelBlocks(decode, stride) && stride <= |data|
    ensures var r := Traverse(decode, stride, data, 1, 1);
      r.Ok? && |r.value| == 28
  {
    var ts := BlockAt(decode, stride, data, 0);
    assert |data[0..stride]| == stride;
    assert TexelBlock(ts);
    var buf := Zeros(4);
    OneColumnStep(buf, ts, 0, 4, 0);
    OneColumnStep(buf, ts, 1, 4, 4);
    OneColumnStep(buf, ts, 2, 8, 8);
    OneColumnStep(buf, ts, 3, 12, 12);
    OneColumnStep(buf, ts, 4, 16, 4);
    OneColumnStep(buf, ts, 5, 16, 8);
    OneColumnStep(buf, ts, 6, 16, 12);
    OneColumnStep(buf, ts, 7, 16, 16);
    OneColumnStep(buf, ts, 8, 20, 8);
    OneColumnStep(buf, ts, 9, 20, 12);
    OneColumnStep(buf, ts, 10, 20, 16);
    OneColumnStep(buf, ts, 11, 20, 20);
    OneColumnStep(buf, ts, 12, 24, 12);
    OneColumnStep(buf, ts, 13, 24, 16);
    OneColumnStep(buf, ts, 14, 24, 20);
    OneColumnStep(buf, ts, 15, 24, 24);
    assert RowFrom(decode, stride, data, 1, 0, 0, buf, 0)
        == RowFrom(decode, stride, data, 1, 0, 4, BlockWritten(buf, 1, 0, 0, ts, 16), stride);
  }

  /** Texel n of a block written into a 1-pixel-wide buffer of `len`
      bytes lands at byte `4 * (n % 4 + n / 4)`. */
  lemma OneColumnStep(buf: seq<u8>, ts: seq<seq<u8>>, n: nat, len: nat, idx: nat)
    requires TexelBlock(ts) && n < 16 && |BlockWritten(buf, 1, 0, 0, ts, n)| == len
    requires idx == 4 * (n % 4 + n / 4) && idx <= len
    ensures |BlockWritten(buf, 1, 0, 0, ts, n + 1)| == if idx + 4 <= len then len else idx + 4
  {
    var prev := BlockWritten(buf, 1, 0, 0, ts, n);
    assert BlockWritten(buf, 1, 0, 0, ts, n + 1) == SliceAssign(prev, idx, idx + 4, ts[n]);
    WriteLength(prev, idx, ts[n]);
  }

  /** A 4-byte slice assignment that starts inside the buffer or at its
      end leaves it as long as the buffer or as the write's end. */
  lemma WriteLength(s: seq<u8>, a: nat, v: seq<u8>)
    requires a <= |s| && |v| == 4
    ensures |SliceAssign(s, a, a + 4, v)| == if a + 4 <= |s| then |s| else a + 4
  {
  }

  /** `bc1`, `bc2` and `bc3` on a 1x1 image with one block of input
      return 28 bytes. */
  lemma OnePixelDecode(fmt: BlockFormat, data: seq<u8>)
    requires Stride(fmt) <= |data|
    ensures var r := DecodeSpec(fmt, data, 1, 1);
      r.Ok? && |r.value| == 28 && |r.value| != 4 * 1 * 1
  {
    DecoderTexelBlocks(fmt);
    OnePixelImage(Decoder(fmt), Stride(fmt), data);
  }
}
