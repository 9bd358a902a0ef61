/** The model-file ("clump") format: section type ids, geometry flag bits
    and the records the section bodies decode into. */
module DffFormat {
  import opened Common

  // ---------------------------------------------------------------------
  // Section types

  datatype SectionType =
    | Clump | Struct | FrameList | Extension | Frame | GeometryList
    | Geometry | MaterialList | Material | Texture | String | BinMeshPlg
    | Breakable | ExtraVertColour | Atomic | TwoDEffect

  /** The id each `SectionType` member stands for. */
  function SectionId(t: SectionType): u32
  {
    match t
    case Clump => 0x10
    case Struct => 0x1
    case FrameList => 0xe
    case Extension => 0x3
    case Frame => 0x253_f2fe
    case GeometryList => 0x1a
    case Geometry => 0xf
    case MaterialList => 0x8
    case Material => 0x7
    case Texture => 0x6
    case String => 0x2
    case BinMeshPlg => 0x50e
    case Breakable => 0x253_f2fd
    case ExtraVertColour => 0x253_f2f9
    case Atomic => 0x14
    case TwoDEffect => 0x253_f2f8
  }

  /** `SectionType(id)`: raises ValueError, here an error, on an id that is
      not a member. */
  function SectionTypeOf(id: u32): (r: Result<SectionType>)
  {
    if id == 0x10 then Ok(Clump)
    else if id == 0x1 then Ok(Struct)
    else if id == 0xe then Ok(FrameList)
    else if id == 0x3 then Ok(Extension)
    else if id == 0x253_f2fe then Ok(Frame)
    else if id == 0x1a then Ok(GeometryList)
    else if id == 0xf then Ok(Geometry)
    else if id == 0x8 then Ok(MaterialList)
    else if id == 0x7 then Ok(Material)
    else if id == 0x6 then Ok(Texture)
    else if id == 0x2 then Ok(String)
    else if id == 0x50e then Ok(BinMeshPlg)
    else if id == 0x253_f2fd then Ok(Breakable)
    else if id == 0x253_f2f9 then Ok(ExtraVertColour)
    else if id == 0x14 then Ok(Atomic)
    else if id == 0x253_f2f8 then Ok(TwoDEffect)
    else Err(UnknownSectionType(id))
  }

  /** The enum lookup and the member values are inverse: every member is
      found from its id, and a found member has exactly that id. */
  lemma SectionTypeOfId(t: SectionType, id: u32)
    ensures SectionTypeOf(SectionId(t)) == Ok(t)
    ensures SectionTypeOf(id).Ok? ==> SectionId(SectionTypeOf(id).value) == id
    ensures SectionTypeOf(id).Err? ==> SectionTypeOf(id) == Err(UnknownSectionType(id))
  {
  }

  /** The three section types that carry no extension wrapper. */
  predicate IsLeafType(t: SectionType)
  {
    t == String || t == Breakable || t == ExtraVertColour
  }

  // ---------------------------------------------------------------------
  // Geometry flags (rpGEOMETRY*)

  const GeometryTristrip: u32 := 0x0000_0001
  const GeometryPositions: u32 := 0x0000_0002
  const GeometryTextured: u32 := 0x0000_0004
  const GeometryPrelit: u32 := 0x0000_0008
  const GeometryNormals: u32 := 0x0000_0010
  const GeometryLight: u32 := 0x0000_0020
  const GeometryModulateMaterialColor: u32 := 0x0000_0040
  const GeometryTextured2: u32 := 0x0000_0080
  const GeometryNative: u32 := 0x0100_0000

  /** The flag constants in the order the geometry decoder tests them. */
  const FlagTestOrder: seq<u32> := [
    GeometryPositions, GeometryTextured, GeometryPrelit, GeometryLight,
    GeometryNative, GeometryTristrip, GeometryNormals,
    GeometryModulateMaterialColor, GeometryTextured2]

  /** `format & flag` is non-zero, for a single-bit `flag`. */
  predicate HasFlag(format: u32, flag: u32)
    requires flag > 0
  {
    (format / flag) % 2 == 1
  }

  /** `(format & 0x00FF0000) >> 16`: the texture-set count field. */
  function TexSetCount(format: u32): (n: nat)
    ensures n < 0x100
  {
    (format / 0x1_0000) % 0x100
  }

  /** `numTexSets * numVertices`: one texture-coordinate pair per vertex
      per texture set. */
  function TexCoordCount(format: u32, numVertices: nat): nat
  {
    TexSetCount(format) * numVertices
  }

  /** The constants among the first `k` in test order whose bit is set in
      `format`, in that order: the list after the first `k` tests. */
  function FlagsUpTo(format: u32, k: nat): seq<u32>
    requires k <= |FlagTestOrder|
  {
    if k == 0 then []
    else
      FlagsUpTo(format, k - 1) + FlagIfSet(format, FlagTestOrder[k - 1])
  }

  /** What one test appends to the list: the flag when its bit is set. */
  function FlagIfSet(format: u32, flag: u32): seq<u32>
    requires flag > 0
  {
    if HasFlag(format, flag) then [flag] else []
  }

  /** The `flags_set` list: each constant in test order whose bit is set. */
  function FlagsSet(format: u32): seq<u32>
  {
    FlagsUpTo(format, |FlagTestOrder|)
  }

  // ---------------------------------------------------------------------
  // Records. Floats are kept as their raw 32-bit words.

  /** A decoded section header: the resolved type, the payload size, the
      outer (first) header's size and the expanded version. */
  datatype RwSection = RwSection(sectionType: SectionType, size: u32, size2: u32, version: nat)

  datatype RwRgba = RwRgba(r: u8, g: u8, b: u8, a: u8)
  datatype TexCoords = TexCoords(u: u32, v: u32)
  datatype Triangle = Triangle(vertex2: u16, vertex1: u16, materialId: u16, vertex3: u16)
  datatype Sphere = Sphere(x: u32, y: u32, z: u32, radius: u32)
  datatype V3d = V3d(x: u32, y: u32, z: u32)

  datatype GeometrySection = GeometrySection(
    format: u32,
    flagsSet: seq<u32>,
    numTriangles: u32,
    numVertices: u32,
    numMorphTargets: u32,
    hasVertices: u32,
    hasNormals: u32,
    boundingSphere: Sphere,
    prelitColor: seq<RwRgba>,
    texCoords: seq<TexCoords>,
    triangles: seq<Triangle>,
    vertices: seq<V3d>,
    normals: seq<V3d>)

  datatype Mesh = Mesh(numIndices: u32, materialIndex: u32, indices: seq<u32>)

  /** What `get_body` returns, one constructor per section type it decodes;
      `NoBody` is the `None` of the types it does not decode. */
  datatype Body =
    | ClumpBody(atomics: u32, lights: u32, cameras: u32)
    | FrameListBody(frameCount: u32, frameData: seq<u8>)
    | FrameBody(nodeName: string)
    | GeometryListBody(numberGeometryList: u32)
    | GeometryBody(geometry: GeometrySection)
    | MaterialListBody(numberOfMaterials: u32, data: seq<u32>)
    | MaterialBody(flags: u32, color: RwRgba, isTextured: bool, ambient: u32, specular: u32, diffuse: u32)
    | TextureBody(raw: seq<u8>)
    | StringBody(name: string)
    | BreakableBody(magicNumber: u32)
    | BinMeshPlgBody(flags: u32, numberOfMeshes: u32, totalNumberOfIndices: u32, meshes: seq<Mesh>)
    | ExtraVertColourBody(magicNumber: u32, nightVertColor: seq<RwRgba>)
    | AtomicBody(frameIndex: u32, geometryIndex: u32, flags: u32)
    | NoBody

  // ---------------------------------------------------------------------
  // Grouping of unpacked values into records

  function Rgbas(b: seq<u8>): (r: seq<RwRgba>)
    requires |b| % 4 == 0
    ensures |r| == |b| / 4
  {
    seq(|b| / 4, k requires 0 <= k < |b| / 4 => RwRgba(b[4 * k], b[4 * k + 1], b[4 * k + 2], b[4 * k + 3]))
  }

  function TexCoordPairs(w: seq<u32>): (r: seq<TexCoords>)
    requires |w| % 2 == 0
    ensures |r| == |w| / 2
  {
    seq(|w| / 2, k requires 0 <= k < |w| / 2 => TexCoords(w[2 * k], w[2 * k + 1]))
  }

  function Triangles(h: seq<u16>): (r: seq<Triangle>)
    requires |h| % 4 == 0
    ensures |r| == |h| / 4
  {
    seq(|h| / 4, k requires 0 <= k < |h| / 4 => Triangle(h[4 * k], h[4 * k + 1], h[4 * k + 2], h[4 * k + 3]))
  }

  function V3ds(w: seq<u32>): (r: seq<V3d>)
    requires |w| % 3 == 0
    ensures |r| == |w| / 3
  {
    seq(|w| / 3, k requires 0 <= k < |w| / 3 => V3d(w[3 * k], w[3 * k + 1], w[3 * k + 2]))
  }
}
