/** The texture-dictionary format as a pure function of the file bytes:
    for each reader step, the value it yields and where it leaves the
    cursor (or the error it raises), written in the order of the reads. */
module TxdLayout {
  import opened Common
  import opened Stream
  import opened RenderWare

  /** A section header: its type id, payload size and expanded library
      version (the source formats the type and version with `hex`, which
      is presentation and not modelled). */
  datatype TxdSection = TxdSection(sectionType: u32, size: u32, libraryId: nat)

  /** The texture dictionary's own record. */
  datatype DictionaryData = DictionaryData(textureCount: u16, deviceId: u16)

  /** The first 8 bytes of a raster descriptor. */
  datatype TextureFormat = TextureFormat(
    platformId: i16, filterMode: i16, uAddressing: u8, vAddressing: u8, padTextureFormat: i16)

  /** The last 20 bytes of a raster descriptor; `d3dFormat` is the value of
      the D3DFORMAT member found, and `rasterFormat` the raw word that the
      source formats with `hex`. */
  datatype RasterFormat = RasterFormat(
    rasterFormat: u32, d3dFormat: u32, width: i16, height: i16,
    depth: u8, numLevels: u8, rasterType: u8, alpha: u8,
    cubeTexture: u8, autoMipMaps: u8, compressed: u8, padRasterFormat: u8)

  /** The dictionary `get_raster_data` returns, its fields grouped as the
      source's comments group them. */
  datatype RasterData = RasterData(
    textureFormat: TextureFormat, name: string, maskName: string, rasterFormat: RasterFormat)

  /** `s.replace('\x00', '')`: the string with every NUL removed. */
  function StripNul(s: string): (r: string)
    ensures '\0' !in r
    ensures |r| <= |s|
  {
    if |s| == 0 then []
    else (if s[0] == '\0' then [] else [s[0]]) + StripNul(s[1..])
  }

  // ---------------------------------------------------------------------
  // Section headers

  /** `get_header`: the three words of a 12-byte record, or `None` when
      the read came back short. It never raises. */
  function HeaderAt(data: seq<u8>, pos: nat): (r: (Option<TxdSection>, nat))
    requires pos <= |data|
    ensures r.0.Some? <==> pos + 12 <= |data|
    ensures r.1 == if pos + 12 <= |data| then pos + 12 else |data|
  {
    var p := After(data, pos, 12);
    match UnpackU32s(ReadAt(data, pos, 12), 3)
    case Ok(w) => (Some(TxdSection(w[0], w[1], UnpackVersion(w[2]))), p)
    case Err(_) => (None, p)
  }

  /** `get_section`: like `get_header`, except that after a short read it
      reads one more byte, returns `None` if that read is empty, and
      otherwise goes on to build the result from names the failed unpack
      never bound. */
  function SectionAt(data: seq<u8>, pos: nat): Result<(Option<TxdSection>, nat)>
    requires pos <= |data|
  {
    var p := After(data, pos, 12);
    match UnpackU32s(ReadAt(data, pos, 12), 3)
    case Ok(w) => Ok((Some(TxdSection(w[0], w[1], UnpackVersion(w[2]))), p))
    case Err(_) =>
      if ReadAt(data, p, 1) == [] then Ok((None, After(data, p, 1)))
      else Err(SectionUnbound)
  }

  /** `get_texture_dictionary_data`: two u16 words ('HH', taken as
      little-endian). */
  function DictionaryDataAt(data: seq<u8>, pos: nat): (r: Result<(DictionaryData, nat)>)
    requires pos <= |data|
    ensures r.Ok? <==> pos + 4 <= |data|
    ensures r.Ok? ==> r.value.1 == pos + 4
  {
    var h :- U16sAt(data, pos, 2);
    Ok((DictionaryData(h.0[0], h.0[1]), h.1))
  }

  // ---------------------------------------------------------------------
  // Raster descriptor

  /** The platform id and filter mode ('<hh'), the two addressing bytes
      ('2B') and the padding word ('h'). */
  function TextureFormatAt(data: seq<u8>, pos: nat): (r: Result<(TextureFormat, nat)>)
    requires pos <= |data|
    ensures r.Ok? <==> pos + 8 <= |data|
    ensures r.Ok? ==> r.value.1 == pos + 8
  {
    var pf :- I16sAt(data, pos, 2);
    var uv :- BytesAt(data, pf.1, 2);
    var pad :- I16sAt(data, uv.1, 1);
    Ok((TextureFormat(pf.0[0], pf.0[1], uv.0[0], uv.0[1], pad.0[0]), pad.1))
  }

  /** The texture name as the `try` block yields it: the 32 bytes decoded
      by `utf8`, or `stem` (the file's stem) when the read came back short
      or the bytes do not decode. */
  function NameOf(b: seq<u8>, stem: string, utf8: seq<u8> -> Option<string>): string
  {
    var decoded := if |b| == 32 then utf8(b) else None;
    if decoded.Some? then decoded.value else stem
  }

  /** `D3DFORMAT(value)`, whose fallback names the undefined member
      `D3DFMT_UNKNOWN` and so fails for every value outside the enum. */
  function D3dFormatOf(value: u32): (r: Result<D3dFormat>)
    ensures r.Ok? <==> FormatOf(value).Some?
    ensures r.Ok? ==> FormatValue(r.value) == value
    ensures r.Err? ==> r.error == UnknownD3dFormat(value)
  {
    match FormatOf(value)
    case Some(f) => Ok(f)
    case None => Err(UnknownD3dFormat(value))
  }

  /** The raster format word ('I'), the D3D format word ('I'), width and
      height ('2h') and the eight single-byte fields ('8B'). */
  function RasterFormatAt(data: seq<u8>, pos: nat): (r: Result<(RasterFormat, nat)>)
    requires pos <= |data|
    ensures r.Ok? ==> r.value.1 == pos + 20
  {
    var rf :- U32At(data, pos);
    var d3d :- U32At(data, rf.1);
    var format :- D3dFormatOf(d3d.0);
    var wh :- I16sAt(data, d3d.1, 2);
    var b :- BytesAt(data, wh.1, 8);
    Ok((RasterFormat(rf.0, FormatValue(format), wh.0[0], wh.0[1],
      b.0[0], b.0[1], b.0[2], b.0[3], b.0[4], b.0[5], b.0[6], b.0[7]), b.1))
  }

  /** `get_raster_data`: the texture format, the name (which cannot fail),
      the mask name ('32s', which can), the raster format; both names have
      their NULs removed, the mask name after a lossy decode by `lossy`. */
  function RasterAt(data: seq<u8>, pos: nat, stem: string, utf8: seq<u8> -> Option<string>, lossy: seq<u8> -> string)
    : (r: Result<(RasterData, nat)>)
    requires pos <= |data|
    ensures r.Ok? ==> r.value.1 == pos + 92
    ensures r.Ok? ==> '\0' !in r.value.0.name && '\0' !in r.value.0.maskName
  {
    var tf :- TextureFormatAt(data, pos);
    var name := NameOf(ReadAt(data, tf.1, 32), stem, utf8);
    var mask :- BytesAt(data, After(data, tf.1, 32), 32);
    var rf :- RasterFormatAt(data, mask.1);
    Ok((RasterData(tf.0, StripNul(name), StripNul(lossy(mask.0)), rf.0), rf.1))
  }

  // ---------------------------------------------------------------------
  // Texture payload

  /** One texture of the dictionary: its raster descriptor, then the raw
      payload `get_file_data(size - 68)`, where `size` is the size field of
      the section header read before it. */
  function TextureAt(data: seq<u8>, pos: nat, size: u32, stem: string,
                     utf8: seq<u8> -> Option<string>, lossy: seq<u8> -> string)
    : Result<((RasterData, seq<u8>), nat)>
    requires pos <= |data|
  {
    var raster :- RasterAt(data, pos, stem, utf8, lossy);
    var payload := ReadAt(data, raster.1, size - 68);
    Ok(((raster.0, payload), After(data, raster.1, size - 68)))
  }
}
