/** What the model-file layout guarantees: how many bytes a header takes,
    how a wrapped type is resolved, the shape of geometry, mesh and colour
    lists, and that a failed read inside a loop fails the whole body. */
module DffProperties {
  import opened Common
  import opened Stream
  import opened RenderWare
  import opened DffFormat
  import opened DffLayout

  // ---------------------------------------------------------------------
  // Section headers

  /** The header reader's end-of-data and zero-id cases give `None`. */
  lemma StructAtNone(data: seq<u8>, pos: nat)
    requires pos <= |data|
    ensures pos == |data| ==> StructAt(data, pos) == Ok((None, pos))
    ensures pos + 12 <= |data| && Word(data, pos, 0) == 0 ==> StructAt(data, pos) == Ok((None, pos + 12))
    ensures pos + 12 == |data| && Word(data, pos, 0) != 0 && SectionTypeOf(Word(data, pos, 0)).Ok?
            && !IsLeafType(SectionTypeOf(Word(data, pos, 0)).value)
            ==> StructAt(data, pos) == Ok((None, pos + 12))
    ensures pos + 24 <= |data| && Word(data, pos, 0) != 0 && SectionTypeOf(Word(data, pos, 0)).Ok?
            && !IsLeafType(SectionTypeOf(Word(data, pos, 0)).value) && Word(data, pos, 3) == 0
            ==> StructAt(data, pos) == Ok((None, pos + 24))
  {
    if pos + 12 <= |data| {
      HeaderWords(data, pos);
      var t1 := SectionTypeOf(Word(data, pos, 0));
      if Word(data, pos, 0) != 0 && t1.Ok? && !IsLeafType(t1.value) {
        assert StructAt(data, pos) == WrappedAt(data, pos + 12, t1.value, Word(data, pos, 1));
        if pos + 24 <= |data| {
          HeaderWords(data, pos + 12);
          assert Word(data, pos + 12, 0) == Word(data, pos, 3);
        }
      }
    }
  }

  /** A header of an unwrapped type (STRING, BREAKABLE, EXTRA_VERT_COLOUR)
      is one 12-byte record whose size serves as both sizes. */
  lemma StructAtLeaf(data: seq<u8>, pos: nat)
    requires pos + 12 <= |data|
    requires SectionTypeOf(Word(data, pos, 0)).Ok? && IsLeafType(SectionTypeOf(Word(data, pos, 0)).value)
    ensures StructAt(data, pos) == Ok((Some(RwSection(
      SectionTypeOf(Word(data, pos, 0)).value, Word(data, pos, 1), Word(data, pos, 1),
      UnpackVersion(Word(data, pos, 2)))), pos + 12))
  {
    HeaderWords(data, pos);
  }

  /** Every other header is two 12-byte records: the size is the second's,
      `size2` the first's, the version the second's, and the type the
      second's exactly when the first is an EXTENSION wrapper. */
  lemma StructAtWrapped(data: seq<u8>, pos: nat)
    requires pos + 24 <= |data|
    requires Word(data, pos, 0) != 0 && Word(data, pos, 3) != 0
    requires SectionTypeOf(Word(data, pos, 0)).Ok? && !IsLeafType(SectionTypeOf(Word(data, pos, 0)).value)
    requires SectionTypeOf(Word(data, pos, 0)).value == Extension ==> SectionTypeOf(Word(data, pos, 3)).Ok?
    ensures StructAt(data, pos) == Ok((Some(RwSection(
      if SectionTypeOf(Word(data, pos, 0)).value == Extension then SectionTypeOf(Word(data, pos, 3)).value
      else SectionTypeOf(Word(data, pos, 0)).value,
      Word(data, pos, 4), Word(data, pos, 1), UnpackVersion(Word(data, pos, 5)))), pos + 24))
  {
    HeaderWords(data, pos);
    var t1 := SectionTypeOf(Word(data, pos, 0)).value;
    assert StructAt(data, pos) == WrappedAt(data, pos + 12, t1, Word(data, pos, 1));
    WrappedAtLayout(data, pos + 12, t1, Word(data, pos, 1));
    assert Word(data, pos + 12, 0) == Word(data, pos, 3);
    assert Word(data, pos + 12, 1) == Word(data, pos, 4);
    assert Word(data, pos + 12, 2) == Word(data, pos, 5);
  }

  /** The second record of a wrapped header gives the size and version,
      and the type when the first was an EXTENSION wrapper. */
  lemma WrappedAtLayout(data: seq<u8>, pos: nat, t1: SectionType, size2: u32)
    requires pos + 12 <= |data| && Word(data, pos, 0) != 0
    requires t1 == Extension ==> SectionTypeOf(Word(data, pos, 0)).Ok?
    ensures WrappedAt(data, pos, t1, size2) == Ok((Some(RwSection(
      if t1 == Extension then SectionTypeOf(Word(data, pos, 0)).value else t1,
      Word(data, pos, 1), size2, UnpackVersion(Word(data, pos, 2)))), pos + 12))
  {
    HeaderWords(data, pos);
  }

  /** The header reader fails on a truncated first record, on an unknown
      first type id, on a truncated second record after a known type that
      is wrapped, and on an unknown type behind an EXTENSION wrapper. */
  lemma StructAtErrors(data: seq<u8>, pos: nat)
    requires pos <= |data|
    ensures 0 < |data| - pos < 12 ==> StructAt(data, pos) == Err(StructSize)
    ensures pos + 12 < |data| < pos + 24 && Word(data, pos, 0) != 0 && SectionTypeOf(Word(data, pos, 0)).Ok?
            && !IsLeafType(SectionTypeOf(Word(data, pos, 0)).value)
            ==> StructAt(data, pos) == Err(StructSize)
    ensures pos + 12 <= |data| && Word(data, pos, 0) != 0 && SectionTypeOf(Word(data, pos, 0)).Err?
            ==> StructAt(data, pos) == Err(UnknownSectionType(Word(data, pos, 0)))
    ensures pos + 24 <= |data| && Word(data, pos, 0) == SectionId(Extension) && Word(data, pos, 3) != 0
            && SectionTypeOf(Word(data, pos, 3)).Err?
            ==> StructAt(data, pos) == Err(UnknownSectionType(Word(data, pos, 3)))
  {
    if pos + 12 <= |data| {
      HeaderWords(data, pos);
      if pos + 12 < |data| < pos + 24 && Word(data, pos, 0) != 0 && SectionTypeOf(Word(data, pos, 0)).Ok?
         && !IsLeafType(SectionTypeOf(Word(data, pos, 0)).value) {
        var t1 := SectionTypeOf(Word(data, pos, 0)).value;
        assert StructAt(data, pos) == WrappedAt(data, pos + 12, t1, Word(data, pos, 1));
        assert 0 < |ReadAt(data, pos + 12, 12)| < 12;
      }
      if pos + 24 <= |data| && Word(data, pos, 0) == SectionId(Extension) {
        assert SectionTypeOf(Word(data, pos, 0)) == Ok(Extension);
        assert StructAt(data, pos) == WrappedAt(data, pos + 12, Extension, Word(data, pos, 1));
        HeaderWords(data, pos + 12);
        assert Word(data, pos + 12, 0) == Word(data, pos, 3);
      }
    }
  }

  /** A header that is found consumes 12 bytes when its first record is of
      an unwrapped type and 24 bytes otherwise. */
  lemma StructAtConsumes(data: seq<u8>, pos: nat)
    requires pos <= |data|
    requires StructAt(data, pos).Ok? && StructAt(data, pos).value.0.Some?
    ensures pos + 12 <= |data| && SectionTypeOf(Word(data, pos, 0)).Ok?
    ensures StructAt(data, pos).value.1 - pos == if IsLeafType(SectionTypeOf(Word(data, pos, 0)).value) then 12 else 24
  {
    assert |ReadAt(data, pos, 12)| == 12;
    HeaderWords(data, pos);
    var t1 := SectionTypeOf(Word(data, pos, 0)).value;
    if !IsLeafType(t1) {
      assert StructAt(data, pos) == WrappedAt(data, pos + 12, t1, Word(data, pos, 1));
      assert |ReadAt(data, pos + 12, 12)| == 12;
    }
  }

  // ---------------------------------------------------------------------
  // Loops: one read at a time

  /** Once the first `m` index reads fail, so do the first `n >= m`. */
  lemma {:induction false} IndicesAtStops(data: seq<u8>, pos: nat, m: nat, n: nat)
    requires pos <= |data| && m <= n
    requires IndicesAt(data, pos, m).Err?
    ensures IndicesAt(data, pos, n) == IndicesAt(data, pos, m)
    decreases n - m
  {
    if n > m {
      IndicesAtStep(data, pos, m + 1);
      IndicesAtStops(data, pos, m + 1, n);
    }
  }

  /** A failed read of the first `n - 1` indices is the result for `n`. */
  lemma IndicesAtStep(data: seq<u8>, pos: nat, n: nat)
    requires pos <= |data| && 0 < n
    requires IndicesAt(data, pos, n - 1).Err?
    ensures IndicesAt(data, pos, n) == IndicesAt(data, pos, n - 1)
  {
  }

  /** Once the first `m` mesh reads fail, so do the first `n >= m`. */
  lemma {:induction false} MeshesAtStops(data: seq<u8>, pos: nat, m: nat, n: nat)
    requires pos <= |data| && m <= n
    requires MeshesAt(data, pos, m).Err?
    ensures MeshesAt(data, pos, n) == MeshesAt(data, pos, m)
    decreases n - m
  {
    if n > m {
      MeshesAtStep(data, pos, m + 1);
      MeshesAtStops(data, pos, m + 1, n);
    }
  }

  /** A failed read of the first `n - 1` meshes is the result for `n`. */
  lemma MeshesAtStep(data: seq<u8>, pos: nat, n: nat)
    requires pos <= |data| && 0 < n
    requires MeshesAt(data, pos, n - 1).Err?
    ensures MeshesAt(data, pos, n) == MeshesAt(data, pos, n - 1)
  {
  }

  /** The words of a bulk read are the words of the data at the same
      offsets. */
  lemma U32sAtWords(data: seq<u8>, pos: nat, n: nat)
    requires pos + 4 * n <= |data|
    ensures forall k :: 0 <= k < n ==> U32sAt(data, pos, n).value.0[k] == Word(data, pos, k)
  {
    var b := ReadAt(data, pos, 4 * n);
    assert b == data[pos..pos + 4 * n];
    forall k | 0 <= k < n
      ensures U32sAt(data, pos, n).value.0[k] == Word(data, pos, k)
    {
      SliceOfSlice(data, pos, pos + 4 * n, 4 * k, 4 * k + 4);
    }
  }

  /** A bulk read of `n` words is that of `n - 1` words and one more. */
  lemma U32sAtSnoc(data: seq<u8>, pos: nat, n: nat)
    requires 0 < n && pos + 4 * n <= |data|
    ensures U32sAt(data, pos, n).value.0 == U32sAt(data, pos, n - 1).value.0 + [Word(data, pos, n - 1)]
  {
    U32sAtWords(data, pos, n);
    U32sAtWords(data, pos, n - 1);
  }

  /** Reading `n` indices one '<I' at a time is the same as one bulk
      '<nI' read: the same words, the same end, the same failure. */
  lemma IndicesAtOneByOne(data: seq<u8>, pos: nat, n: nat)
    requires pos <= |data|
    ensures IndicesAt(data, pos, n) == U32sAt(data, pos, n)
  {
    IndicesAtWords(data, pos, n);
    if pos + 4 * n <= |data| {
      U32sAtWords(data, pos, n);
      var a, b := IndicesAt(data, pos, n).value.0, U32sAt(data, pos, n).value.0;
      assert forall k :: 0 <= k < n ==> a[k] == b[k];
      assert a == b;
    } else {
      assert UnpackU32s(ReadAt(data, pos, 4 * n), n) == Err(StructSize);
    }
  }

  /** The indices read one at a time are the `n` words at `pos`, and the
      reads fail exactly when the data is shorter than that. */
  lemma {:induction false} IndicesAtWords(data: seq<u8>, pos: nat, n: nat)
    requires pos <= |data|
    ensures IndicesAt(data, pos, n).Ok? <==> pos + 4 * n <= |data|
    ensures IndicesAt(data, pos, n).Err? ==> IndicesAt(data, pos, n) == Err(StructSize)
    ensures IndicesAt(data, pos, n).Ok? ==>
      var r := IndicesAt(data, pos, n).value;
      && r.1 == pos + 4 * n && |r.0| == n
      && forall k :: 0 <= k < n ==> r.0[k] == Word(data, pos, k)
    decreases n
  {
    if n > 0 {
      IndicesAtWords(data, pos, n - 1);
      var prev := IndicesAt(data, pos, n - 1);
      if prev.Ok? {
        var p := pos + 4 * (n - 1);
        assert prev.value.1 == p;
        if p + 4 <= |data| {
          IndicesAtSnoc(data, pos, n);
          var r := prev.value.0 + [Word(data, pos, n - 1)];
          assert forall k :: 0 <= k < n - 1 ==> r[k] == prev.value.0[k];
        } else {
          assert U32At(data, p) == Err(StructSize);
        }
      }
    }
  }

  /** After `n - 1` successful index reads, the `n`-th adds the next word. */
  lemma IndicesAtSnoc(data: seq<u8>, pos: nat, n: nat)
    requires 0 < n && pos + 4 * n <= |data|
    requires IndicesAt(data, pos, n - 1).Ok? && IndicesAt(data, pos, n - 1).value.1 == pos + 4 * (n - 1)
    ensures IndicesAt(data, pos, n) == Ok((IndicesAt(data, pos, n - 1).value.0 + [Word(data, pos, n - 1)], pos + 4 * n))
  {
    var p := pos + 4 * (n - 1);
    assert U32At(data, p) == Ok((Word(data, pos, n - 1), p + 4));
  }

  /** One more pass of the index loop that reads a word extends the
      indices by it. */
  lemma IndicesAtExtend(data: seq<u8>, pos: nat, j: nat, xs: seq<u32>, p: nat, w: seq<u32>, q: nat)
    requires pos <= |data| && IndicesAt(data, pos, j) == Ok((xs, p)) && U32sAt(data, p, 1) == Ok((w, q))
    ensures IndicesAt(data, pos, j + 1) == Ok((xs + [w[0]], q))
  {
  }

  /** One more pass of the index loop whose read fails fails the loop. */
  lemma IndicesAtFail(data: seq<u8>, pos: nat, j: nat, xs: seq<u32>, p: nat, e: Error)
    requires pos <= |data| && IndicesAt(data, pos, j) == Ok((xs, p)) && U32sAt(data, p, 1) == Err(e)
    ensures IndicesAt(data, pos, j + 1) == Err(e)
  {
  }

  /** One more pass of the mesh loop that reads a mesh extends the list
      by it. */
  lemma MeshesAtExtend(data: seq<u8>, pos: nat, i: nat, ms: seq<Mesh>, p: nat, m: Mesh, q: nat)
    requires pos <= |data| && MeshesAt(data, pos, i) == Ok((ms, p)) && MeshAt(data, p) == Ok((m, q))
    ensures MeshesAt(data, pos, i + 1) == Ok((ms + [m], q))
  {
  }

  /** One more pass of the mesh loop whose mesh fails fails the loop. */
  lemma MeshesAtFail(data: seq<u8>, pos: nat, i: nat, ms: seq<Mesh>, p: nat, e: Error)
    requires pos <= |data| && MeshesAt(data, pos, i) == Ok((ms, p)) && MeshAt(data, p) == Err(e)
    ensures MeshesAt(data, pos, i + 1) == Err(e)
  {
  }

  /** One mesh: two header words, then `numIndices` index words. */
  lemma MeshAtLayout(data: seq<u8>, pos: nat)
    requires pos <= |data|
    ensures MeshAt(data, pos).Ok? <==>
      pos + 8 <= |data| && pos + 8 + 4 * Word(data, pos, 0) <= |data|
    ensures MeshAt(data, pos).Ok? ==>
      var m := MeshAt(data, pos).value;
      && m.0.numIndices == Word(data, pos, 0)
      && m.0.materialIndex == Word(data, pos, 1)
      && |m.0.indices| == m.0.numIndices as int
      && (forall k :: 0 <= k < |m.0.indices| ==> m.0.indices[k] == Word(data, pos + 8, k))
      && m.1 == pos + 8 + 4 * m.0.numIndices
  {
    if pos + 8 <= |data| {
      U32sAtWords(data, pos, 2);
      IndicesAtOneByOne(data, pos + 8, Word(data, pos, 0));
      if pos + 8 + 4 * Word(data, pos, 0) <= |data| {
        U32sAtWords(data, pos + 8, Word(data, pos, 0));
      }
    }
  }

  // ---------------------------------------------------------------------
  // Geometry flags

  /** A constant is in the list after the first `k` tests exactly when it
      is among the first `k` constants tested and its bit is set. */
  lemma {:induction false} FlagsUpToMembers(format: u32, k: nat, c: u32)
    requires k <= |FlagTestOrder|
    ensures c in FlagsUpTo(format, k) <==> c in FlagTestOrder[..k] && c > 0 && HasFlag(format, c)
    decreases k
  {
    if k > 0 {
      FlagsUpToMembers(format, k - 1, c);
      assert FlagTestOrder[..k] == FlagTestOrder[..k - 1] + [FlagTestOrder[k - 1]];
    }
  }

  /** `flags_set` holds exactly the `rpGEOMETRY*` constants whose bit is set
      in the flag word. */
  lemma FlagsSetMembers(format: u32, c: u32)
    ensures c in FlagsSet(format) <==> c in FlagTestOrder && c > 0 && HasFlag(format, c)
  {
    FlagsUpToMembers(format, |FlagTestOrder|, c);
    assert FlagTestOrder[..|FlagTestOrder|] == FlagTestOrder;
  }

  /** The list spelled out: one optional entry per test, in test order. */
  lemma FlagsSetOf(f: u32)
    ensures FlagsSet(f) ==
      FlagIfSet(f, GeometryPositions)
      + FlagIfSet(f, GeometryTextured)
      + FlagIfSet(f, GeometryPrelit)
      + FlagIfSet(f, GeometryLight)
      + FlagIfSet(f, GeometryNative)
      + FlagIfSet(f, GeometryTristrip)
      + FlagIfSet(f, GeometryNormals)
      + FlagIfSet(f, GeometryModulateMaterialColor)
      + FlagIfSet(f, GeometryTextured2)
  {
    assert FlagsUpTo(f, 1) == FlagIfSet(f, GeometryPositions);
    assert FlagsUpTo(f, 2) == FlagsUpTo(f, 1) + FlagIfSet(f, GeometryTextured);
    assert FlagsUpTo(f, 3) == FlagsUpTo(f, 2) + FlagIfSet(f, GeometryPrelit);
    assert FlagsUpTo(f, 4) == FlagsUpTo(f, 3) + FlagIfSet(f, GeometryLight);
    assert FlagsUpTo(f, 5) == FlagsUpTo(f, 4) + FlagIfSet(f, GeometryNative);
    assert FlagsUpTo(f, 6) == FlagsUpTo(f, 5) + FlagIfSet(f, GeometryTristrip);
    assert FlagsUpTo(f, 7) == FlagsUpTo(f, 6) + FlagIfSet(f, GeometryNormals);
    assert FlagsUpTo(f, 8) == FlagsUpTo(f, 7) + FlagIfSet(f, GeometryModulateMaterialColor);
    assert FlagsUpTo(f, 9) == FlagsUpTo(f, 8) + FlagIfSet(f, GeometryTextured2);
  }

  /** Two flag words: the list follows test order, not bit order, so
      NATIVE comes before TRISTRIP. */
  lemma FlagsSetExamples()
    ensures FlagsSet(0x2E) == [GeometryPositions, GeometryTextured, GeometryPrelit, GeometryLight]
    ensures FlagsSet(0x0100_0011) == [GeometryNative, GeometryTristrip, GeometryNormals]
  {
    FlagsSetOf(0x2E);
    FlagsSetOf(0x0100_0011);
  }

  // ---------------------------------------------------------------------
  // Section bodies

  /** The frame list: a count word, then a plain read of 0x38 bytes per
      frame that is cut short, never failed, by the end of the data. */
  lemma FrameListLayout(data: seq<u8>, pos: nat)
    requires pos <= |data|
    ensures FrameListAt(data, pos).Ok? <==> pos + 4 <= |data|
    ensures FrameListAt(data, pos).Ok? ==>
      var count := Word(data, pos, 0);
      var want := pos + 4 + 0x38 * count;
      var end := if want <= |data| then want else |data|;
      FrameListAt(data, pos).value == (FrameListBody(count, data[pos + 4..end]), end)
  {
  }

  /** A full frame list consumes `4 + 0x38 * frame_count` bytes and keeps
      `0x38 * frame_count` of them as frame data. */
  lemma FrameListFull(data: seq<u8>, pos: nat)
    requires pos + 4 <= |data| && pos + 4 + 0x38 * Word(data, pos, 0) <= |data|
    ensures FrameListAt(data, pos).Ok?
    ensures FrameListAt(data, pos).value.1 == pos + 4 + 0x38 * Word(data, pos, 0)
    ensures |FrameListAt(data, pos).value.0.frameData| == 0x38 * Word(data, pos, 0)
  {
    FrameListLayout(data, pos);
  }

  /** The prelit colours: one RGBA per vertex, four bytes each. */
  lemma RgbasAtLayout(data: seq<u8>, pos: nat, n: nat)
    requires pos + 4 * n <= |data|
    ensures RgbasAt(data, pos, n) == Ok((RgbasAt(data, pos, n).value.0, pos + 4 * n))
    ensures forall k :: 0 <= k < n ==>
      RgbasAt(data, pos, n).value.0[k]
        == RwRgba(data[pos + 4 * k], data[pos + 4 * k + 1], data[pos + 4 * k + 2], data[pos + 4 * k + 3])
  {
  }

  /** The triangles: four consecutive u16 per triangle taken as vertex2,
      vertex1, material id, vertex3. */
  lemma TrianglesLayout(data: seq<u8>, t0: nat, nt: nat)
    requires t0 + nt * 8 <= |data|
    ensures TrianglesAt(data, t0, nt).Ok?
    ensures var tri := TrianglesAt(data, t0, nt).value.0;
      forall k :: 0 <= k < nt ==>
        tri[k] == Triangle(Half(data, t0, 4 * k), Half(data, t0, 4 * k + 1),
                           Half(data, t0, 4 * k + 2), Half(data, t0, 4 * k + 3))
  {
    var b := ReadAt(data, t0, nt * 8);
    assert b == data[t0..t0 + nt * 8];
    var h := UnpackU16s(b, nt * 4).value;
    forall m | 0 <= m < nt * 4
      ensures h[m] == Half(data, t0, m)
    {
      SliceOfSlice(data, t0, t0 + nt * 8, 2 * m, 2 * m + 2);
    }
  }

  /** The texture coordinates: two words per pair. */
  lemma TexCoordsLayout(data: seq<u8>, u0: nat, ntc: nat)
    requires u0 + ntc * 8 <= |data|
    ensures TexCoordsAt(data, u0, ntc).Ok?
    ensures var uv := TexCoordsAt(data, u0, ntc).value.0;
      forall k :: 0 <= k < ntc ==> uv[k] == TexCoords(Word(data, u0, 2 * k), Word(data, u0, 2 * k + 1))
  {
    U32sAtWords(data, u0, ntc * 2);
  }

  /** The three lists in a row: present exactly when the data holds one
      RGBA per vertex, two words per texture-coordinate pair and four u16
      per triangle, in that order. */
  lemma ListsLayout(data: seq<u8>, pos: nat, nv: nat, ntc: nat, nt: nat)
    requires pos <= |data|
    ensures ListsAt(data, pos, nv, ntc, nt).Ok? <==> pos + 4 * nv + ntc * 8 + nt * 8 <= |data|
    ensures ListsAt(data, pos, nv, ntc, nt).Ok? ==>
      var u0 := pos + 4 * nv;
      var t0 := u0 + ntc * 8;
      ListsAt(data, pos, nv, ntc, nt).value == (
        (RgbasAt(data, pos, nv).value.0, TexCoordsAt(data, u0, ntc).value.0, TrianglesAt(data, t0, nt).value.0),
        t0 + nt * 8)
  {
    if pos + 4 * nv + ntc * 8 + nt * 8 <= |data| {
      ListsFit(data, pos, nv, ntc, nt);
    } else {
      ListsShort(data, pos, nv, ntc, nt);
    }
  }

  lemma ListsFit(data: seq<u8>, pos: nat, nv: nat, ntc: nat, nt: nat)
    requires pos + 4 * nv + ntc * 8 + nt * 8 <= |data|
    ensures
      var u0 := pos + 4 * nv;
      var t0 := u0 + ntc * 8;
      ListsAt(data, pos, nv, ntc, nt) == Ok((
        (RgbasAt(data, pos, nv).value.0, TexCoordsAt(data, u0, ntc).value.0, TrianglesAt(data, t0, nt).value.0),
        t0 + nt * 8))
  {
    var u0 := pos + 4 * nv;
    var t0 := u0 + ntc * 8;
    var pre := RgbasAt(data, pos, nv);
    assert pre.Ok? && pre.value.1 == u0;
    var uv := TexCoordsAt(data, u0, ntc);
    assert uv.Ok? && uv.value.1 == t0;
    var tri := TrianglesAt(data, t0, nt);
    assert tri.Ok? && tri.value.1 == t0 + nt * 8;
  }

  lemma ListsShort(data: seq<u8>, pos: nat, nv: nat, ntc: nat, nt: nat)
    requires pos <= |data| < pos + 4 * nv + ntc * 8 + nt * 8
    ensures ListsAt(data, pos, nv, ntc, nt).Err?
  {
    var u0 := pos + 4 * nv;
    var t0 := u0 + ntc * 8;
    var pre := RgbasAt(data, pos, nv);
    if pre.Ok? {
      assert pre.value.1 == u0;
      var uv := TexCoordsAt(data, u0, ntc);
      if uv.Ok? {
        assert uv.value.1 == t0;
        assert TrianglesAt(data, t0, nt).Err?;
      }
    }
  }

  /** The fixed part of a geometry: flag word and the three counts, the
      flag list, and for a native geometry no per-vertex lists at all. */
  lemma GeometryHeader(data: seq<u8>, pos: nat)
    requires pos <= |data| && GeometryAt(data, pos).Ok?
    ensures pos + 16 <= |data|
    ensures var g := GeometryAt(data, pos).value.0.geometry;
      && g.format == Word(data, pos, 0)
      && g.numTriangles == Word(data, pos, 1)
      && g.numVertices == Word(data, pos, 2)
      && g.numMorphTargets == Word(data, pos, 3)
      && g.flagsSet == FlagsSet(g.format)
      && (HasFlag(g.format, GeometryNative) ==> g.prelitColor == [] && g.texCoords == [] && g.triangles == [])
      && (!HasFlag(g.format, GeometryNative) ==>
            (g.prelitColor, g.texCoords, g.triangles)
              == GeometryListsAt(data, pos + 16, g.format, g.numTriangles, g.numVertices).value.0)
  {
    if pos + 16 <= |data| {
      GeometryAtSteps(data, pos);
    }
  }

  /** A decoded non-native geometry had its PRELIT bit set, and holds one
      prelit colour per vertex, `numTexSets * numVertices` texture
      coordinates and `numTriangles` triangles. */
  lemma GeometryListSizes(data: seq<u8>, pos: nat)
    requires pos <= |data| && GeometryAt(data, pos).Ok?
    ensures var g := GeometryAt(data, pos).value.0.geometry;
      !HasFlag(g.format, GeometryNative) ==>
        && HasFlag(g.format, GeometryPrelit)
        && |g.prelitColor| == g.numVertices as int
        && |g.texCoords| == TexSetCount(g.format) * g.numVertices as int
        && |g.triangles| == g.numTriangles as int
  {
    GeometryHeader(data, pos);
    var g := GeometryAt(data, pos).value.0.geometry;
    if !HasFlag(g.format, GeometryNative) {
      var ls := GeometryListsAt(data, pos + 16, g.format, g.numTriangles, g.numVertices);
      assert ls.Ok?;
      ListsLayout(data, pos + 16, g.numVertices as nat, TexCoordCount(g.format, g.numVertices as nat), g.numTriangles as nat);
    }
  }

  /** The flag word and counts of a geometry are the first four words,
      and the rest of the read goes on from `pos + 16`. */
  lemma GeometryAtSteps(data: seq<u8>, pos: nat)
    requires pos + 16 <= |data|
    ensures
      var format := Word(data, pos, 0);
      var counts := [Word(data, pos, 1), Word(data, pos, 2), Word(data, pos, 3)];
      var lists := if HasFlag(format, GeometryNative) then Ok((([], [], []), pos + 16))
                   else GeometryListsAt(data, pos + 16, format, counts[0], counts[1]);
      GeometryAt(data, pos) ==
        if lists.Err? then Err(lists.error)
        else
          var g := GeometryTailAt(data, lists.value.1, format, counts, lists.value.0);
          if g.Err? then Err(g.error) else Ok((GeometryBody(g.value.0), g.value.1))
  {
    assert U32At(data, pos) == Ok((Word(data, pos, 0), pos + 4));
    U32sAtWords(data, pos + 4, 3);
    var w := U32sAt(data, pos + 4, 3).value.0;
    assert w[0] == Word(data, pos, 1) && w[1] == Word(data, pos, 2) && w[2] == Word(data, pos, 3);
    assert w == [Word(data, pos, 1), Word(data, pos, 2), Word(data, pos, 3)];
  }

  /** Vertices and normals: three words per vertex, present when their
      presence word is non-zero. */
  lemma GeometryTailLayout(data: seq<u8>, pos: nat, format: u32, counts: seq<u32>,
                           lists: (seq<RwRgba>, seq<TexCoords>, seq<Triangle>))
    requires pos <= |data| && |counts| == 3
    requires GeometryTailAt(data, pos, format, counts, lists).Ok?
    ensures var g := GeometryTailAt(data, pos, format, counts, lists).value.0;
      && |g.vertices| == (if g.hasVertices != 0 then counts[1] as int else 0)
      && |g.normals| == (if g.hasNormals != 0 then counts[1] as int else 0)
  {
  }

  /** With both NATIVE and PRELIT clear the geometry read fails once the
      flag word and the counts are read. */
  lemma GeometryPrelitUnbound(data: seq<u8>, pos: nat)
    requires pos + 16 <= |data|
    requires !HasFlag(Word(data, pos, 0), GeometryNative) && !HasFlag(Word(data, pos, 0), GeometryPrelit)
    ensures GeometryAt(data, pos) == Err(PrelitUnbound)
  {
  }

  /** The night colours: none when the magic number is zero, otherwise one
      RGBA per vertex from the `4 * n` bytes after it; a vertex count left
      out or negative fails only when there are colours to read. */
  lemma ExtraVertColourLayout(data: seq<u8>, pos: nat, n: Option<int>)
    requires pos <= |data|
    ensures pos + 4 > |data| ==> ExtraVertColourAt(data, pos, n) == Err(StructSize)
    ensures pos + 4 <= |data| && Word(data, pos, 0) == 0 ==>
      ExtraVertColourAt(data, pos, n) == Ok((ExtraVertColourBody(0, []), pos + 4))
    ensures pos + 4 <= |data| && Word(data, pos, 0) > 0 && n.None? ==>
      ExtraVertColourAt(data, pos, n) == Err(TypeMismatch)
    ensures pos + 4 <= |data| && Word(data, pos, 0) > 0 && n.Some? && n.value < 0 ==>
      ExtraVertColourAt(data, pos, n) == Err(BadStructFormat)
    ensures pos + 4 <= |data| && Word(data, pos, 0) > 0 && n.Some? && n.value >= 0 ==>
      (ExtraVertColourAt(data, pos, n).Ok? <==> pos + 4 + 4 * n.value <= |data|)
    ensures ExtraVertColourAt(data, pos, n).Ok? && Word(data, pos, 0) > 0 ==>
      var r := ExtraVertColourAt(data, pos, n).value;
      && n.Some? && 0 <= n.value
      && r.0.nightVertColor == RgbasAt(data, pos + 4, n.value).value.0
      && r.1 == pos + 4 + 4 * n.value
  {
  }

  /** The breakable magic number: the read takes `n` bytes, or what is
      left (all of it for a negative `n`), and succeeds only when that is
      exactly 4 bytes. */
  lemma BreakableLayout(data: seq<u8>, pos: nat, n: int)
    requires pos <= |data|
    ensures BreakableAt(data, pos, n).Ok? <==>
      (n == 4 && pos + 4 <= |data|) || ((n < 0 || n > 4) && pos + 4 == |data|)
    ensures BreakableAt(data, pos, n).Ok? ==>
      BreakableAt(data, pos, n).value == (BreakableBody(Word(data, pos, 0)), pos + 4)
  {
  }

  /** BIN_MESH_PLG: the flags, the mesh count and the index total, then
      as many meshes as the count says, each as `MeshesAt` reads it. */
  lemma BinMeshPlgLayout(data: seq<u8>, pos: nat)
    requires pos <= |data|
    ensures BinMeshPlgAt(data, pos).Ok? <==>
      pos + 12 <= |data| && MeshesAt(data, pos + 12, Word(data, pos, 1) as nat).Ok?
    ensures BinMeshPlgAt(data, pos).Ok? ==>
      var ms := MeshesAt(data, pos + 12, Word(data, pos, 1) as nat).value;
      BinMeshPlgAt(data, pos).value ==
        (BinMeshPlgBody(Word(data, pos, 0), Word(data, pos, 1), Word(data, pos, 2), ms.0), ms.1)
  {
    if pos + 12 <= |data| {
      U32sAtWords(data, pos, 3);
    }
  }

  /** CLUMP: three words, 12 bytes. */
  lemma ClumpLayout(data: seq<u8>, pos: nat)
    requires pos <= |data|
    ensures ClumpAt(data, pos).Ok? <==> pos + 12 <= |data|
    ensures ClumpAt(data, pos).Ok? ==>
      ClumpAt(data, pos).value == (ClumpBody(Word(data, pos, 0), Word(data, pos, 1), Word(data, pos, 2)), pos + 12)
  {
    if pos + 12 <= |data| {
      U32sAtWords(data, pos, 3);
    }
  }

  /** ATOMIC: four words, 16 bytes, the fourth dropped. */
  lemma AtomicLayout(data: seq<u8>, pos: nat)
    requires pos <= |data|
    ensures AtomicAt(data, pos).Ok? <==> pos + 16 <= |data|
    ensures AtomicAt(data, pos).Ok? ==>
      AtomicAt(data, pos).value == (AtomicBody(Word(data, pos, 0), Word(data, pos, 1), Word(data, pos, 2)), pos + 16)
  {
    if pos + 16 <= |data| {
      U32sAtWords(data, pos, 4);
    }
  }

  /** MATERIAL: flags, four colour bytes, an unused word, the textured
      word and three more words, 28 bytes in all. */
  lemma MaterialLayout(data: seq<u8>, pos: nat)
    requires pos <= |data|
    ensures MaterialAt(data, pos).Ok? <==> pos + 28 <= |data|
    ensures MaterialAt(data, pos).Ok? ==>
      var m := MaterialAt(data, pos).value;
      && m.1 == pos + 28
      && m.0.flags == Word(data, pos, 0)
      && m.0.color == RwRgba(data[pos + 4], data[pos + 5], data[pos + 6], data[pos + 7])
      && m.0.isTextured == (Word(data, pos, 3) != 0)
      && m.0.ambient == Word(data, pos, 4)
      && m.0.specular == Word(data, pos, 5)
      && m.0.diffuse == Word(data, pos, 6)
  {
    if pos + 28 <= |data| {
      U32sAtWords(data, pos + 16, 3);
    }
  }

  /** GEOMETRY_LIST: one word, the geometry count. */
  lemma GeometryListLayout(data: seq<u8>, pos: nat)
    requires pos <= |data|
    ensures GeometryListAt(data, pos).Ok? <==> pos + 4 <= |data|
    ensures GeometryListAt(data, pos).Ok? ==>
      GeometryListAt(data, pos).value == (GeometryListBody(Word(data, pos, 0)), pos + 4)
  {
  }

  /** MATERIAL_LIST: a count word and then that many words. */
  lemma MaterialListLayout(data: seq<u8>, pos: nat)
    requires pos <= |data|
    ensures MaterialListAt(data, pos).Ok? <==> pos + 4 <= |data| && pos + 4 + 4 * Word(data, pos, 0) as int <= |data|
    ensures MaterialListAt(data, pos).Ok? ==>
      var m := MaterialListAt(data, pos).value;
      && m.0.MaterialListBody?
      && m.0.numberOfMaterials == Word(data, pos, 0)
      && |m.0.data| == Word(data, pos, 0) as int
      && (forall k :: 0 <= k < |m.0.data| ==> m.0.data[k] == Word(data, pos, 1 + k))
      && m.1 == pos + 4 + 4 * Word(data, pos, 0) as int
  {
    if pos + 4 <= |data| {
      var n := Word(data, pos, 0) as nat;
      var q := pos + 4;
      assert U32At(data, pos).value == (Word(data, pos, 0), q);
      if q + 4 * n <= |data| {
        var w := U32sAt(data, q, n).value;
        assert MaterialListAt(data, pos) == Ok((MaterialListBody(n as u32, w.0), w.1));
        WordsAfterCount(data, pos, q, n);
      }
    }
  }

  /** The `n` words after the one at `pos`. */
  lemma WordsAfterCount(data: seq<u8>, pos: nat, q: nat, n: nat)
    requires q == pos + 4 && q + 4 * n <= |data|
    ensures forall k :: 0 <= k < n ==> U32sAt(data, q, n).value.0[k] == Word(data, pos, 1 + k)
  {
    U32sAtWords(data, q, n);
    forall k | 0 <= k < n
      ensures Word(data, q, k) == Word(data, pos, 1 + k)
    {
      assert q + 4 * k == pos + 4 * (1 + k);
    }
  }

  /** A name: `n` bytes, which the decoder must accept. */
  lemma TextLayout(data: seq<u8>, pos: nat, n: nat, utf8: seq<u8> -> Option<string>)
    requires pos <= |data|
    ensures TextAt(data, pos, n, utf8).Ok? <==> pos + n <= |data| && utf8(data[pos..pos + n]).Some?
    ensures pos + n <= |data| && utf8(data[pos..pos + n]).None? ==> TextAt(data, pos, n, utf8) == Err(InvalidUtf8)
    ensures TextAt(data, pos, n, utf8).Ok? ==>
      TextAt(data, pos, n, utf8).value == (utf8(data[pos..pos + n]).value, pos + n)
  {
  }

  /** A size left out or negative makes FRAME and STRING fail in `struct`,
      makes BREAKABLE read to the end (so it needs exactly 4 bytes left),
      and makes EXTRA_VERT_COLOUR fail once its magic number is non-zero. */
  lemma BodyAtBadSize(data: seq<u8>, pos: nat, arg: Option<int>, utf8: seq<u8> -> Option<string>)
    requires pos <= |data|
    requires arg.None? || arg.value < 0
    ensures BodyAt(data, pos, Frame, arg, utf8) == Err(BadStructFormat)
    ensures BodyAt(data, pos, String, arg, utf8) == Err(BadStructFormat)
    ensures BodyAt(data, pos, Breakable, arg, utf8).Ok? <==> pos + 4 == |data|
    ensures BodyAt(data, pos, Breakable, arg, utf8).Ok? ==>
      BodyAt(data, pos, Breakable, arg, utf8).value == (BreakableBody(Word(data, pos, 0)), |data|)
    ensures pos + 4 <= |data| && Word(data, pos, 0) > 0 ==>
      BodyAt(data, pos, ExtraVertColour, arg, utf8) == Err(if arg.None? then TypeMismatch else BadStructFormat)
    ensures pos + 4 <= |data| && Word(data, pos, 0) == 0 ==>
      BodyAt(data, pos, ExtraVertColour, arg, utf8) == Ok((ExtraVertColourBody(0, []), pos + 4))
  {
    BreakableLayout(data, pos, ReadCount(arg));
    ExtraVertColourLayout(data, pos, arg);
  }

  /** STRUCT, EXTENSION and TWOD_EFFECT read nothing; TEXTURE reads up to
      4 bytes and never fails. */
  lemma EmptyBodies(data: seq<u8>, pos: nat, arg: Option<int>, utf8: seq<u8> -> Option<string>)
    requires pos <= |data|
    ensures BodyAt(data, pos, Struct, arg, utf8) == Ok((NoBody, pos))
    ensures BodyAt(data, pos, Extension, arg, utf8) == Ok((NoBody, pos))
    ensures BodyAt(data, pos, TwoDEffect, arg, utf8) == Ok((NoBody, pos))
    ensures BodyAt(data, pos, Texture, arg, utf8).Ok?
  {
  }
}
