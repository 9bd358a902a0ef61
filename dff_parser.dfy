/** `DffParser`: the model-file decoder as the source writes it, a
    sequence of reads from one file cursor. Each method is proved to do
    what the corresponding layout function of DffLayout says. */
module DffParsing {
  import opened Common
  import opened Stream
  import opened DffFormat
  import opened DffLayout
  import opened DffProperties
  import opened RenderWare

  /** The flag tests at the head of the GEOMETRY branch of `get_body`:
      the `flags_set` list, and whether the PRELIT test bound `prelit`. */
  method ListFlags(flagValue: u32) returns (flagsSet: seq<u32>, prelit: bool)
    ensures flagsSet == FlagsSet(flagValue)
    ensures prelit == HasFlag(flagValue, GeometryPrelit)
  {
    flagsSet := [];
    prelit := false;
    if HasFlag(flagValue, GeometryPositions) {
      flagsSet := flagsSet + [GeometryPositions];
    }
    ghost var expected := FlagIfSet(flagValue, GeometryPositions);
    assert flagsSet == expected;
    if HasFlag(flagValue, GeometryTextured) {
      flagsSet := flagsSet + [GeometryTextured];
    }
    expected := expected + FlagIfSet(flagValue, GeometryTextured);
    assert flagsSet == expected;
    if HasFlag(flagValue, GeometryPrelit) {
      prelit := true;
      flagsSet := flagsSet + [GeometryPrelit];
    }
    expected := expected + FlagIfSet(flagValue, GeometryPrelit);
    assert flagsSet == expected;
    if HasFlag(flagValue, GeometryLight) {
      flagsSet := flagsSet + [GeometryLight];
    }
    expected := expected + FlagIfSet(flagValue, GeometryLight);
    assert flagsSet == expected;
    if HasFlag(flagValue, GeometryNative) {
      flagsSet := flagsSet + [GeometryNative];
    }
    expected := expected + FlagIfSet(flagValue, GeometryNative);
    assert flagsSet == expected;
    if HasFlag(flagValue, GeometryTristrip) {
      flagsSet := flagsSet + [GeometryTristrip];
    }
    expected := expected + FlagIfSet(flagValue, GeometryTristrip);
    assert flagsSet == expected;
    if HasFlag(flagValue, GeometryNormals) {
      flagsSet := flagsSet + [GeometryNormals];
    }
    expected := expected + FlagIfSet(flagValue, GeometryNormals);
    assert flagsSet == expected;
    if HasFlag(flagValue, GeometryModulateMaterialColor) {
      flagsSet := flagsSet + [GeometryModulateMaterialColor];
    }
    expected := expected + FlagIfSet(flagValue, GeometryModulateMaterialColor);
    assert flagsSet == expected;
    if HasFlag(flagValue, GeometryTextured2) {
      flagsSet := flagsSet + [GeometryTextured2];
    }
    expected := expected + FlagIfSet(flagValue, GeometryTextured2);
    assert flagsSet == expected;
    FlagsSetOf(flagValue);
  }

  class DffParser {
    /** The open file (`self.file_stream`). */
    const stream: FileStream

    ghost predicate Valid()
      reads this, stream
    {
      stream.Valid()
    }

    /** The parser with its file opened at the start (`__enter__`). */
    constructor (contents: seq<u8>)
      ensures Valid() && fresh(stream)
      ensures stream.data == contents && stream.pos == 0
    {
      stream := new FileStream(contents);
    }

    /** `struct.unpack('<nI', read(4 * n))`. */
    method ReadU32s(n: nat) returns (r: Result<seq<u32>>)
      requires Valid()
      modifies stream
      ensures Valid()
      ensures Follows(U32sAt(stream.data, old(stream.pos), n), r, stream.pos)
    {
      var b := stream.Read(4 * n);
      r := UnpackU32s(b, n);
    }

    /** `get_struct`. */
    method GetStruct() returns (r: Result<Option<RwSection>>)
      requires Valid()
      modifies stream
      ensures Valid()
      ensures Follows(StructAt(stream.data, old(stream.pos)), r, stream.pos)
    {
      var data := stream.Read(12);
      if |data| == 0 {
        return Ok(None);
      }
      var h1 :- UnpackU32s(data, 3);
      var structId, size2, version := h1[0], h1[1], h1[2];
      if structId == 0 {
        return Ok(None);
      }
      var t1 :- SectionTypeOf(structId);
      if t1 == String || t1 == Breakable || t1 == ExtraVertColour {
        return Ok(Some(RwSection(t1, size2, size2, UnpackVersion(version))));
      }
      data := stream.Read(12);
      if |data| == 0 {
        return Ok(None);
      }
      var h2 :- UnpackU32s(data, 3);
      var structId2, size := h2[0], h2[1];
      version := h2[2];
      if structId2 == 0 {
        return Ok(None);
      }
      var t := t1;
      if t1 == Extension {
        t :- SectionTypeOf(structId2);
      }
      r := Ok(Some(RwSection(t, size, size2, UnpackVersion(version))));
    }

    /** `get_body(section_type, data)`; `arg` is the caller's optional
        `data` argument and `utf8` the UTF-8 decoder. */
    method GetBody(t: SectionType, arg: Option<int>, utf8: seq<u8> -> Option<string>) returns (r: Result<Body>)
      requires Valid()
      modifies stream
      ensures Valid()
      ensures Follows(BodyAt(stream.data, old(stream.pos), t, arg, utf8), r, stream.pos)
    {
      match t
      case Clump =>
        var w :- ReadU32s(3);
        r := Ok(ClumpBody(w[0], w[1], w[2]));
      case FrameList =>
        var c :- ReadU32s(1);
        var frameData := stream.Read(c[0] as int * 0x38);
        r := Ok(FrameListBody(c[0], frameData));
      case Frame =>
        var name := ReadText(arg, utf8);
        r := if name.Ok? then Ok(FrameBody(name.value)) else Err(name.error);
      case GeometryList =>
        var n :- ReadU32s(1);
        r := Ok(GeometryListBody(n[0]));
      case Geometry =>
        r := ReadGeometry();
      case MaterialList =>
        var n :- ReadU32s(1);
        var rawData :- ReadU32s(n[0]);
        r := Ok(MaterialListBody(n[0], rawData));
      case Material =>
        r := ReadMaterial();
      case Texture =>
        var raw := stream.Read(4);
        r := Ok(TextureBody(raw));
      case String =>
        var name := ReadText(arg, utf8);
        r := if name.Ok? then Ok(StringBody(name.value)) else Err(name.error);
      case Breakable =>
        var b := stream.Read(ReadCount(arg));
        var w :- UnpackU32s(b, 1);
        r := Ok(BreakableBody(w[0]));
      case BinMeshPlg =>
        r := ReadBinMeshPlg();
      case ExtraVertColour =>
        r := ReadExtraVertColour(arg);
      case Atomic =>
        var w :- ReadU32s(4);
        r := Ok(AtomicBody(w[0], w[1], w[2]));
      case Struct =>
        r := Ok(NoBody);
      case Extension =>
        r := Ok(NoBody);
      case TwoDEffect =>
        r := Ok(NoBody);
    }

    /** `struct.unpack(f'{data}s', read(data))[0].decode('utf-8')`; the
        read runs before `struct` rejects a format built from `None` or a
        negative count. */
    method ReadText(arg: Option<int>, utf8: seq<u8> -> Option<string>) returns (r: Result<string>)
      requires Valid()
      modifies stream
      ensures Valid()
      ensures Follows(SizedTextAt(stream.data, old(stream.pos), arg, utf8), r, stream.pos)
    {
      if arg.None? || arg.value < 0 {
        var rest := stream.Read(ReadCount(arg));
        return Err(BadStructFormat);
      }
      var n: nat := arg.value;
      var b := stream.Read(n);
      var name :- UnpackBytes(b, n);
      match utf8(name)
      case None => r := Err(InvalidUtf8);
      case Some(s) => r := Ok(s);
    }

    /** The GEOMETRY branch of `get_body`. */
    method ReadGeometry() returns (r: Result<Body>)
      requires Valid()
      modifies stream
      ensures Valid()
      ensures Follows(GeometryAt(stream.data, old(stream.pos)), r, stream.pos)
    {
      ghost var p0 := stream.pos;
      var fw :- ReadU32s(1);
      var flagValue := fw[0];
      var flagsSet, prelit := ListFlags(flagValue);

      var counts :- ReadU32s(3);
      var numTriangles, numVertices := counts[0], counts[1];
      var lists :- ReadGeometryLists(flagValue, prelit, numTriangles, numVertices);
      assert GeometryAt(stream.data, p0) ==
        var g :- GeometryTailAt(stream.data, stream.pos, flagValue, counts, lists); Ok((GeometryBody(g.0), g.1));
      var g :- ReadGeometryTail(flagValue, flagsSet, counts, lists);
      r := Ok(GeometryBody(g));
    }

    /** The prelit colours, texture coordinates and triangles of a
        geometry, read only when its NATIVE bit is clear; `prelit` is
        whether the PRELIT bit bound the source's `prelit` variable. */
    method ReadGeometryLists(flagValue: u32, prelit: bool, numTriangles: u32, numVertices: u32)
      returns (r: Result<(seq<RwRgba>, seq<TexCoords>, seq<Triangle>)>)
      requires Valid() && prelit == HasFlag(flagValue, GeometryPrelit)
      modifies stream
      ensures Valid()
      ensures Follows(
        if HasFlag(flagValue, GeometryNative) then Ok((([], [], []), old(stream.pos)))
        else GeometryListsAt(stream.data, old(stream.pos), flagValue, numTriangles, numVertices),
        r, stream.pos)
    {
      if HasFlag(flagValue, GeometryNative) {
        return Ok(([], [], []));
      }
      if !prelit {
        return Err(PrelitUnbound);
      }
      r := ReadLists(numVertices, TexCoordCount(flagValue, numVertices), numTriangles);
    }

    /** `nv` prelit colours, `ntc` texture-coordinate pairs and `nt`
        triangles. */
    method ReadLists(nv: nat, ntc: nat, nt: nat)
      returns (r: Result<(seq<RwRgba>, seq<TexCoords>, seq<Triangle>)>)
      requires Valid()
      modifies stream
      ensures Valid()
      ensures Follows(ListsAt(stream.data, old(stream.pos), nv, ntc, nt), r, stream.pos)
    {
      var prelitColor :- ReadRgbas(nv);
      var texCoords :- ReadTexCoords(ntc);
      var triangles :- ReadTriangles(nt);
      r := Ok((prelitColor, texCoords, triangles));
    }

    /** `n` RGBA colours, '{4n}B'. */
    method ReadRgbas(n: nat) returns (r: Result<seq<RwRgba>>)
      requires Valid()
      modifies stream
      ensures Valid()
      ensures Follows(RgbasAt(stream.data, old(stream.pos), n), r, stream.pos)
    {
      var b := stream.Read(4 * n);
      var p :- UnpackBytes(b, 4 * n);
      r := Ok(Rgbas(p));
    }

    /** `ntc` texture-coordinate pairs, '{2 ntc}I'. */
    method ReadTexCoords(ntc: nat) returns (r: Result<seq<TexCoords>>)
      requires Valid()
      modifies stream
      ensures Valid()
      ensures Follows(TexCoordsAt(stream.data, old(stream.pos), ntc), r, stream.pos)
    {
      var b := stream.Read(ntc * 8);
      var uv :- UnpackU32s(b, ntc * 2);
      r := Ok(TexCoordPairs(uv));
    }

    /** `nt` triangles, '{4 nt}H'. */
    method ReadTriangles(nt: nat) returns (r: Result<seq<Triangle>>)
      requires Valid()
      modifies stream
      ensures Valid()
      ensures Follows(TrianglesAt(stream.data, old(stream.pos), nt), r, stream.pos)
    {
      var b := stream.Read(nt * 8);
      var idx :- UnpackU16s(b, nt * 4);
      r := Ok(Triangles(idx));
    }

    /** `n` three-word vectors, '{3n}I'. */
    method ReadV3ds(n: nat) returns (r: Result<seq<V3d>>)
      requires Valid()
      modifies stream
      ensures Valid()
      ensures Follows(V3dsAt(stream.data, old(stream.pos), n), r, stream.pos)
    {
      var w :- ReadU32s(3 * n);
      r := Ok(V3ds(w));
    }

    /** The rest of the GEOMETRY branch: the bounding sphere, the two
        presence words and the vertices and normals they ask for. */
    method ReadGeometryTail(flagValue: u32, flagsSet: seq<u32>, counts: seq<u32>,
                            lists: (seq<RwRgba>, seq<TexCoords>, seq<Triangle>))
      returns (r: Result<GeometrySection>)
      requires Valid() && |counts| == 3 && flagsSet == FlagsSet(flagValue)
      modifies stream
      ensures Valid()
      ensures Follows(GeometryTailAt(stream.data, old(stream.pos), flagValue, counts, lists), r, stream.pos)
    {
      var numVertices := counts[1];
      var s :- ReadU32s(4);
      var boundingSphere := Sphere(s[0], s[1], s[2], s[3]);
      var has :- ReadU32s(2);
      var hasVertices, hasNormals := has[0], has[1];
      var vertices: seq<V3d> := [];
      var normals: seq<V3d> := [];
      if hasVertices != 0 {
        vertices :- ReadV3ds(numVertices);
      }
      if hasNormals != 0 {
        normals :- ReadV3ds(numVertices);
      }
      r := Ok(GeometrySection(
        flagValue, flagsSet, counts[0], numVertices, counts[2], hasVertices, hasNormals,
        boundingSphere, lists.0, lists.1, lists.2, vertices, normals));
    }

    /** The MATERIAL branch of `get_body`. */
    method ReadMaterial() returns (r: Result<Body>)
      requires Valid()
      modifies stream
      ensures Valid()
      ensures Follows(MaterialAt(stream.data, old(stream.pos)), r, stream.pos)
    {
      var f :- ReadU32s(1);
      var cb := stream.Read(4);
      var c :- UnpackBytes(cb, 4);
      var color := RwRgba(c[0], c[1], c[2], c[3]);
      var unused :- ReadU32s(1);
      var textured :- ReadU32s(1);
      var asd :- ReadU32s(3);
      r := Ok(MaterialBody(f[0], color, textured[0] != 0, asd[0], asd[1], asd[2]));
    }

    /** The BIN_MESH_PLG branch of `get_body`: the three header words, then
        `numMeshes` meshes. */
    method ReadBinMeshPlg() returns (r: Result<Body>)
      requires Valid()
      modifies stream
      ensures Valid()
      ensures Follows(BinMeshPlgAt(stream.data, old(stream.pos)), r, stream.pos)
    {
      var h :- ReadU32s(3);
      var flags, numMeshes, totalNumber := h[0], h[1], h[2];
      var listMeshes :- ReadMeshes(numMeshes);
      r := Ok(BinMeshPlgBody(flags, numMeshes, totalNumber, listMeshes));
    }

    /** The mesh loop of the BIN_MESH_PLG branch: `numMeshes` meshes. */
    method ReadMeshes(numMeshes: u32) returns (r: Result<seq<Mesh>>)
      requires Valid()
      modifies stream
      ensures Valid()
      ensures Follows(MeshesAt(stream.data, old(stream.pos), numMeshes), r, stream.pos)
    {
      ghost var p0 := stream.pos;
      var listMeshes: seq<Mesh> := [];
      var i := 0;
      while i < numMeshes
        invariant Valid() && i <= numMeshes
        invariant MeshesAt(stream.data, p0, i) == Ok((listMeshes, stream.pos))
      {
        ghost var p := stream.pos;
        var mesh := ReadMesh();
        if mesh.Err? {
          MeshesAtFail(stream.data, p0, i, listMeshes, p, mesh.error);
          MeshesAtStops(stream.data, p0, i + 1, numMeshes);
          return Err(mesh.error);
        }
        MeshesAtExtend(stream.data, p0, i, listMeshes, p, mesh.value, stream.pos);
        listMeshes := listMeshes + [mesh.value];
        i := i + 1;
      }
      r := Ok(listMeshes);
    }

    /** One pass of the mesh loop: the index count and material index, then
        the indices one '<I' read at a time. */
    method ReadMesh() returns (r: Result<Mesh>)
      requires Valid()
      modifies stream
      ensures Valid()
      ensures Follows(MeshAt(stream.data, old(stream.pos)), r, stream.pos)
    {
      var mh :- ReadU32s(2);
      var numOfIndices, materialIndex := mh[0], mh[1];
      var indices :- ReadIndices(numOfIndices);
      r := Ok(Mesh(numOfIndices, materialIndex, indices));
    }

    /** The index loop of one mesh: `n` reads of one '<I' each. */
    method ReadIndices(n: u32) returns (r: Result<seq<u32>>)
      requires Valid()
      modifies stream
      ensures Valid()
      ensures Follows(IndicesAt(stream.data, old(stream.pos), n), r, stream.pos)
    {
      ghost var q0 := stream.pos;
      var indices: seq<u32> := [];
      var j := 0;
      while j < n
        invariant Valid() && j <= n
        invariant IndicesAt(stream.data, q0, j) == Ok((indices, stream.pos))
      {
        ghost var p := stream.pos;
        var x := ReadU32s(1);
        if x.Err? {
          IndicesAtFail(stream.data, q0, j, indices, p, x.error);
          IndicesAtStops(stream.data, q0, j + 1, n);
          return Err(x.error);
        }
        IndicesAtExtend(stream.data, q0, j, indices, p, x.value, stream.pos);
        indices := indices + [x.value[0]];
        j := j + 1;
      }
      r := Ok(indices);
    }

    /** The EXTRA_VERT_COLOUR branch of `get_body`, with the caller's
        optional vertex count `n`. */
    method ReadExtraVertColour(n: Option<int>) returns (r: Result<Body>)
      requires Valid()
      modifies stream
      ensures Valid()
      ensures Follows(ExtraVertColourAt(stream.data, old(stream.pos), n), r, stream.pos)
    {
      var m :- ReadU32s(1);
      var magicNumber := m[0];
      var nightVertColours: seq<RwRgba> := [];
      if magicNumber > 0 {
        if n.None? {
          return Err(TypeMismatch);
        }
        if n.value < 0 {
          var rest := stream.Read(4 * n.value);
          return Err(BadStructFormat);
        }
        nightVertColours :- ReadRgbas(n.value);
      }
      r := Ok(ExtraVertColourBody(magicNumber, nightVertColours));
    }
  }
}
