/** The model-file layout as functions of the file's bytes and a cursor:
    each returns the decoded value and the cursor after it, or the error the
    source raises. The parser class (DffParsing) is proved to follow them. */
module DffLayout {
  import opened Common
  import opened Stream
  import opened RenderWare
  import opened DffFormat

  // ---------------------------------------------------------------------
  // Headers

  /** `get_struct`: `None` at the end of the data or on a zero type id;
      the leaf types read one 12-byte header, every other type a second one
      whose size is the payload size (the first header's size is kept as
      `size2`) and, behind an EXTENSION wrapper, whose type is the real one. */
  function StructAt(data: seq<u8>, pos: nat): (r: Result<(Option<RwSection>, nat)>)
    requires pos <= |data|
    ensures r.Ok? ==> pos <= r.value.1 <= |data|
  {
    var b1 := ReadAt(data, pos, 12);
    var p1 := After(data, pos, 12);
    if |b1| == 0 then Ok((None, p1))
    else
      var h1 :- UnpackU32s(b1, 3);
      if h1[0] == 0 then Ok((None, p1))
      else
        var t1 :- SectionTypeOf(h1[0]);
        if IsLeafType(t1) then
          Ok((Some(RwSection(t1, h1[1], h1[1], UnpackVersion(h1[2]))), p1))
        else
          WrappedAt(data, p1, t1, h1[1])
  }

  /** The second header record of a section of non-leaf type `t1` whose
      first record gave `size2`. */
  function WrappedAt(data: seq<u8>, pos: nat, t1: SectionType, size2: u32): (r: Result<(Option<RwSection>, nat)>)
    requires pos <= |data|
    ensures r.Ok? ==> pos <= r.value.1 <= |data|
  {
    var b2 := ReadAt(data, pos, 12);
    var p2 := After(data, pos, 12);
    if |b2| == 0 then Ok((None, p2))
    else
      var h2 :- UnpackU32s(b2, 3);
      if h2[0] == 0 then Ok((None, p2))
      else
        var t :- if t1 == Extension then SectionTypeOf(h2[0]) else Ok(t1);
        Ok((Some(RwSection(t, h2[1], size2, UnpackVersion(h2[2]))), p2))
  }

  // ---------------------------------------------------------------------
  // Reads shared by several bodies

  /** `n` RGBA quadruples: `read(4n)` unpacked as '{4n}B'. */
  function RgbasAt(data: seq<u8>, pos: nat, n: nat): (r: Result<(seq<RwRgba>, nat)>)
    requires pos <= |data|
    ensures r.Ok? <==> pos + 4 * n <= |data|
    ensures r.Ok? ==> r.value.1 == pos + 4 * n && |r.value.0| == n
  {
    var b :- BytesAt(data, pos, 4 * n);
    Ok((Rgbas(b.0), b.1))
  }

  /** `n` bytes decoded as UTF-8; `utf8` is the decoder, `None` when it
      rejects the bytes. */
  function TextAt(data: seq<u8>, pos: nat, n: nat, utf8: seq<u8> -> Option<string>): (r: Result<(string, nat)>)
    requires pos <= |data|
    ensures r.Ok? ==> r.value.1 == pos + n <= |data|
  {
    var b :- BytesAt(data, pos, n);
    match utf8(b.0)
    case None => Err(InvalidUtf8)
    case Some(s) => Ok((s, b.1))
  }

  /** `struct.unpack(f'{data}s', read(data))` decoded as UTF-8, for the
      caller's optional `data`: the format built from `None` ("Nones") or
      from a negative count ("-3s") is one `struct` rejects. */
  function SizedTextAt(data: seq<u8>, pos: nat, arg: Option<int>, utf8: seq<u8> -> Option<string>)
    : (r: Result<(string, nat)>)
    requires pos <= |data|
    ensures r.Ok? ==> arg.Some? && r.value.1 == pos + arg.value <= |data|
  {
    if arg.None? || arg.value < 0 then Err(BadStructFormat) else TextAt(data, pos, arg.value, utf8)
  }

  /** The count `read` is given for the caller's optional `data`:
      `read(None)` reads to the end, as a negative count does. */
  function ReadCount(arg: Option<int>): int
  {
    match arg
    case None => -1
    case Some(n) => n
  }

  function V3dsAt(data: seq<u8>, pos: nat, n: nat): (r: Result<(seq<V3d>, nat)>)
    requires pos <= |data|
    ensures r.Ok? <==> pos + 12 * n <= |data|
    ensures r.Ok? ==> r.value.1 == pos + 12 * n && |r.value.0| == n
  {
    var w :- U32sAt(data, pos, 3 * n);
    Ok((V3ds(w.0), w.1))
  }

  // ---------------------------------------------------------------------
  // Section bodies

  function ClumpAt(data: seq<u8>, pos: nat): (r: Result<(Body, nat)>)
    requires pos <= |data|
    ensures r.Ok? ==> pos <= r.value.1 <= |data|
  {
    var w :- U32sAt(data, pos, 3);
    Ok((ClumpBody(w.0[0], w.0[1], w.0[2]), w.1))
  }

  /** The frame records are a plain `read`, so a short file gives a short
      `frame_data` rather than an error. */
  function FrameListAt(data: seq<u8>, pos: nat): (r: Result<(Body, nat)>)
    requires pos <= |data|
    ensures r.Ok? ==> pos <= r.value.1 <= |data|
  {
    var c :- U32At(data, pos);
    Ok((FrameListBody(c.0, ReadAt(data, c.1, c.0 as int * 0x38)), After(data, c.1, c.0 as int * 0x38)))
  }

  function GeometryListAt(data: seq<u8>, pos: nat): (r: Result<(Body, nat)>)
    requires pos <= |data|
    ensures r.Ok? ==> pos <= r.value.1 <= |data|
  {
    var n :- U32At(data, pos);
    Ok((GeometryListBody(n.0), n.1))
  }

  /** `ntc` texture-coordinate pairs: two u32 words each. */
  function TexCoordsAt(data: seq<u8>, pos: nat, ntc: nat): (r: Result<(seq<TexCoords>, nat)>)
    requires pos <= |data|
    ensures r.Ok? <==> pos + ntc * 8 <= |data|
    ensures r.Ok? ==> r.value.1 == pos + ntc * 8 && |r.value.0| == ntc
  {
    var uv :- UnpackU32s(ReadAt(data, pos, ntc * 8), ntc * 2);
    Ok((TexCoordPairs(uv), After(data, pos, ntc * 8)))
  }

  /** `nt` triangles: four u16 each. */
  function TrianglesAt(data: seq<u8>, pos: nat, nt: nat): (r: Result<(seq<Triangle>, nat)>)
    requires pos <= |data|
    ensures r.Ok? <==> pos + nt * 8 <= |data|
    ensures r.Ok? ==> r.value.1 == pos + nt * 8 && |r.value.0| == nt
  {
    var idx :- UnpackU16s(ReadAt(data, pos, nt * 8), nt * 4);
    Ok((Triangles(idx), After(data, pos, nt * 8)))
  }

  /** The per-vertex and per-triangle lists of a non-native geometry. The
      source tests a `prelit` variable that only the PRELIT bit binds, so
      without that bit the read fails. */
  function GeometryListsAt(data: seq<u8>, pos: nat, format: u32, nt: u32, nv: u32)
    : (r: Result<((seq<RwRgba>, seq<TexCoords>, seq<Triangle>), nat)>)
    requires pos <= |data|
    ensures r.Ok? ==> pos <= r.value.1 <= |data|
  {
    if !HasFlag(format, GeometryPrelit) then Err(PrelitUnbound)
    else ListsAt(data, pos, nv, TexCoordCount(format, nv), nt)
  }

  /** `nv` prelit colours, `ntc` texture-coordinate pairs and `nt`
      triangles, one after the other. */
  function ListsAt(data: seq<u8>, pos: nat, nv: nat, ntc: nat, nt: nat)
    : (r: Result<((seq<RwRgba>, seq<TexCoords>, seq<Triangle>), nat)>)
    requires pos <= |data|
    ensures r.Ok? ==> pos <= r.value.1 <= |data|
  {
    var pre :- RgbasAt(data, pos, nv);
    var uv :- TexCoordsAt(data, pre.1, ntc);
    var tri :- TrianglesAt(data, uv.1, nt);
    Ok(((pre.0, uv.0, tri.0), tri.1))
  }

  function GeometryAt(data: seq<u8>, pos: nat): (r: Result<(Body, nat)>)
    requires pos <= |data|
    ensures r.Ok? ==> pos <= r.value.1 <= |data|
  {
    var f :- U32At(data, pos);
    var format := f.0;
    var counts :- U32sAt(data, f.1, 3);
    var nt, nv := counts.0[0], counts.0[1];
    var lists :- if HasFlag(format, GeometryNative) then Ok((([], [], []), counts.1))
                 else GeometryListsAt(data, counts.1, format, nt, nv);
    var g :- GeometryTailAt(data, lists.1, format, counts.0, lists.0);
    Ok((GeometryBody(g.0), g.1))
  }

  /** The part of a geometry read whatever its flags: the bounding sphere,
      the two presence words and the vertex and normal lists they ask for.
      `counts` are the triangle, vertex and morph-target counts. */
  function GeometryTailAt(data: seq<u8>, pos: nat, format: u32, counts: seq<u32>,
                          lists: (seq<RwRgba>, seq<TexCoords>, seq<Triangle>))
    : (r: Result<(GeometrySection, nat)>)
    requires pos <= |data| && |counts| == 3
    ensures r.Ok? ==> pos <= r.value.1 <= |data|
    ensures r.Ok? ==>
      var g := r.value.0;
      && g.format == format && g.flagsSet == FlagsSet(format)
      && [g.numTriangles, g.numVertices, g.numMorphTargets] == counts
      && (g.prelitColor, g.texCoords, g.triangles) == lists
  {
    var nv := counts[1];
    var sphere :- U32sAt(data, pos, 4);
    var has :- U32sAt(data, sphere.1, 2);
    var verts :- if has.0[0] != 0 then V3dsAt(data, has.1, nv) else Ok(([], has.1));
    var norms :- if has.0[1] != 0 then V3dsAt(data, verts.1, nv) else Ok(([], verts.1));
    Ok((GeometrySection(
          format, FlagsSet(format), counts[0], nv, counts[2], has.0[0], has.0[1],
          Sphere(sphere.0[0], sphere.0[1], sphere.0[2], sphere.0[3]),
          lists.0, lists.1, lists.2, verts.0, norms.0),
        norms.1))
  }

  function MaterialListAt(data: seq<u8>, pos: nat): (r: Result<(Body, nat)>)
    requires pos <= |data|
    ensures r.Ok? ==> pos <= r.value.1 <= |data|
  {
    var n :- U32At(data, pos);
    var w :- U32sAt(data, n.1, n.0);
    Ok((MaterialListBody(n.0, w.0), w.1))
  }

  function MaterialAt(data: seq<u8>, pos: nat): (r: Result<(Body, nat)>)
    requires pos <= |data|
    ensures r.Ok? ==> pos <= r.value.1 <= |data|
  {
    var flags :- U32At(data, pos);
    var color :- BytesAt(data, flags.1, 4);
    var unused :- U32At(data, color.1);
    var textured :- U32At(data, unused.1);
    var asd :- U32sAt(data, textured.1, 3);
    var c := color.0;
    Ok((MaterialBody(flags.0, RwRgba(c[0], c[1], c[2], c[3]), textured.0 != 0, asd.0[0], asd.0[1], asd.0[2]),
        asd.1))
  }

  /** A texture reference is returned as the raw result of `read(4)`. */
  function TextureAt(data: seq<u8>, pos: nat): (r: Result<(Body, nat)>)
    requires pos <= |data|
    ensures r.Ok? ==> pos <= r.value.1 <= |data|
  {
    Ok((TextureBody(ReadAt(data, pos, 4)), After(data, pos, 4)))
  }

  /** The breakable magic number is unpacked from `read(n)` with the caller's
      `n` (negative: to the end), so it succeeds exactly when that read
      yields 4 bytes. */
  function BreakableAt(data: seq<u8>, pos: nat, n: int): (r: Result<(Body, nat)>)
    requires pos <= |data|
    ensures r.Ok? ==> pos <= r.value.1 <= |data|
  {
    var w :- UnpackU32s(ReadAt(data, pos, n), 1);
    Ok((BreakableBody(w[0]), After(data, pos, n)))
  }

  /** The first `n` indices of a mesh, one '<I' read each. */
  function IndicesAt(data: seq<u8>, pos: nat, n: nat): (r: Result<(seq<u32>, nat)>)
    requires pos <= |data|
    ensures r.Ok? ==> r.value.1 == pos + 4 * n <= |data| && |r.value.0| == n
    decreases n
  {
    if n == 0 then Ok(([], pos))
    else
      var prev :- IndicesAt(data, pos, n - 1);
      var x :- U32At(data, prev.1);
      Ok((prev.0 + [x.0], x.1))
  }

  /** One mesh: its index count, material index and indices. */
  function MeshAt(data: seq<u8>, pos: nat): (r: Result<(Mesh, nat)>)
    requires pos <= |data|
    ensures r.Ok? ==> pos <= r.value.1 <= |data|
    ensures r.Ok? ==> |r.value.0.indices| == r.value.0.numIndices as int
  {
    var h :- U32sAt(data, pos, 2);
    var idx :- IndicesAt(data, h.1, h.0[0]);
    Ok((Mesh(h.0[0], h.0[1], idx.0), idx.1))
  }

  /** The first `n` meshes of a BIN_MESH_PLG body. */
  function MeshesAt(data: seq<u8>, pos: nat, n: nat): (r: Result<(seq<Mesh>, nat)>)
    requires pos <= |data|
    ensures r.Ok? ==> pos <= r.value.1 <= |data| && |r.value.0| == n
    ensures r.Ok? ==> forall k :: 0 <= k < n ==> |r.value.0[k].indices| == r.value.0[k].numIndices as int
    decreases n
  {
    if n == 0 then Ok(([], pos))
    else
      var prev :- MeshesAt(data, pos, n - 1);
      var m :- MeshAt(data, prev.1);
      Ok((prev.0 + [m.0], m.1))
  }

  function BinMeshPlgAt(data: seq<u8>, pos: nat): (r: Result<(Body, nat)>)
    requires pos <= |data|
    ensures r.Ok? ==> pos <= r.value.1 <= |data|
  {
    var h :- U32sAt(data, pos, 3);
    var ms :- MeshesAt(data, h.1, h.0[1]);
    Ok((BinMeshPlgBody(h.0[0], h.0[1], h.0[2], ms.0), ms.1))
  }

  /** The night colours, one per vertex (`n` is the caller's optional
      vertex count), present only when the magic number is non-zero; then
      `4 * None` is a type error and a negative count gives a format
      `struct` rejects. */
  function ExtraVertColourAt(data: seq<u8>, pos: nat, n: Option<int>): (r: Result<(Body, nat)>)
    requires pos <= |data|
    ensures r.Ok? ==> pos <= r.value.1 <= |data|
  {
    var magic :- U32At(data, pos);
    var colours :-
      if magic.0 > 0 then
        if n.None? then Err(TypeMismatch)
        else if n.value < 0 then Err(BadStructFormat)
        else RgbasAt(data, magic.1, n.value)
      else Ok(([], magic.1));
    Ok((ExtraVertColourBody(magic.0, colours.0), colours.1))
  }

  function AtomicAt(data: seq<u8>, pos: nat): (r: Result<(Body, nat)>)
    requires pos <= |data|
    ensures r.Ok? ==> pos <= r.value.1 <= |data|
  {
    var w :- U32sAt(data, pos, 4);
    Ok((AtomicBody(w.0[0], w.0[1], w.0[2]), w.1))
  }

  /** `get_body`: the layout of the given section type. `arg` is the
      caller's optional `data` (a name length, a read size or a vertex
      count), `None` when it is left out; STRUCT, EXTENSION and
      TWOD_EFFECT read nothing. */
  function BodyAt(data: seq<u8>, pos: nat, t: SectionType, arg: Option<int>, utf8: seq<u8> -> Option<string>)
    : (r: Result<(Body, nat)>)
    requires pos <= |data|
    ensures r.Ok? ==> pos <= r.value.1 <= |data|
  {
    match t
    case Clump => ClumpAt(data, pos)
    case FrameList => FrameListAt(data, pos)
    case Frame =>
      var s :- SizedTextAt(data, pos, arg, utf8);
      Ok((FrameBody(s.0), s.1))
    case GeometryList => GeometryListAt(data, pos)
    case Geometry => GeometryAt(data, pos)
    case MaterialList => MaterialListAt(data, pos)
    case Material => MaterialAt(data, pos)
    case Texture => TextureAt(data, pos)
    case String =>
      var s :- SizedTextAt(data, pos, arg, utf8);
      Ok((StringBody(s.0), s.1))
    case Breakable => BreakableAt(data, pos, ReadCount(arg))
    case BinMeshPlg => BinMeshPlgAt(data, pos)
    case ExtraVertColour => ExtraVertColourAt(data, pos, arg)
    case Atomic => AtomicAt(data, pos)
    case Struct => Ok((NoBody, pos))
    case Extension => Ok((NoBody, pos))
    case TwoDEffect => Ok((NoBody, pos))
  }
}
