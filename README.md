# gtasa_parser_tools: RenderWare model, texture-dictionary and texel decoders in Dafny

This project models the three decoders of a small toolkit for the
RenderWare files of Grand Theft Auto: San Andreas, and proves what each decoder
computes:

- **DFF model files** (`dff_parser.py`). A RenderWare chunk header is one
  or two 12-byte records: type id, size and packed library id. Headers of
  the STRING, BREAKABLE and EXTRA_VERT_COLOUR types are one record. Every
  other header is two records, and behind an EXTENSION wrapper the second
  record names the real type. `get_body` then reads the body layout of
  each section type (clump, frame list, frame, geometry list, geometry,
  material list, material, texture, string, breakable, bin-mesh PLG,
  extra vertex colours, atomic). A geometry's layout depends on the bits
  of its flag word.
- **TXD texture dictionaries** (`txt_parser.py`). These are section
  headers, the dictionary record (texture count, device id) and the
  92-byte raster descriptor of each texture. The descriptor's 32-byte
  names are stripped of NUL characters. Its D3D format is looked up in
  the `D3DFORMAT` enumeration, whose four-character codes `make_fourcc`
  packs.
- **Texel decoders** (`dxtdecompress.py`).
  - Channel expansion of 5-6-5, 5-5-5, 1-5-5-5, 4-4-4-4 and 4-4-4-3 words.
  - The colour interpolation helpers.
  - The S3TC block decoders `bc1`, `bc2` and `bc3`: 4x4 blocks of 8 or 16 bytes, 2-bit colour controls, 4-bit explicit alphas and 3-bit interpolated alpha indices.
  - The direct and paletted unpackers.

Each reader is modelled twice:

- as a pure function of the file contents and a position, which returns
  the value and the new position or the error Python would raise;
- as a method of a class that holds the file contents and a cursor, and
  makes the source's reads one after another. Its `ensures` ties the
  result and the new cursor to that function.

The image decoders follow the same pattern: a method with the source's
loops, proved equal to a specification function, and lemmas about that
function. Python's `struct` and `bytearray` semantics are written out:

- `read(n)` returns at most the remaining bytes, and with a negative `n`
  it returns all of them.
- `unpack` fails unless it gets exactly the bytes it needs.
- A slice assignment at or past the end of a `bytearray` appends.
- `bytearray(n)` fails for negative `n`.
- `bytes([...])` fails on a value outside 0..255. So `bc1` with an
  `alpha_flag` that is not a byte fails at its first texel write.
- The optional `data` argument of `get_body` may be left out (`None`) or
  be negative. `read(None)` reads to the end, as a negative count does.
  A `struct` format built from `None` or a negative count ("Nones",
  "-3s") is rejected, and `4 * None` is a type error.

Some behaviour follows the code as written:

- **Unbound `prelit`.** A geometry whose NATIVE and PRELIT bits are both
  clear fails, because `prelit` is never bound (`PrelitUnbound`).
- **Unknown D3D format.** A raster with an unknown D3D format fails,
  because the fallback member `D3DFMT_UNKNOWN` does not exist
  (`UnknownD3dFormat`).
- **Unknown section type.** An unknown section type id fails
  (`UnknownSectionType`). Behind a non-EXTENSION first record, the second
  record's id is never looked up.
- **`bc3` alpha rows.** `bc3` takes the alpha indices of block row `j`
  from the bits that standard DXT5 assigns to row `3 - j`
  (`S3tc.AlphaIndex`, `S3tcProperties.AlphaIndexField`).
- **Image sides that are not multiples of 4.** The S3TC decoders write
  past row ends, so the output of such an image is longer than
  `4 * width * height` (`S3tcImageProperties.OnePixelDecode`).
- **Direct and paletted unpackers.** These write one texel per input
  unit, whatever the image size. They fail on input of the wrong length,
  as `unpack` or the tuple assignment does.

`unpack_version` appears in both `dff_parser.py` and `txt_parser.py`, and
`make_fourcc` and `D3DFORMAT` in both `txt_parser.py` and
`dxtdecompress.py`. The copies are identical, so each is modelled once
(`RenderWare.UnpackVersion`, `RenderWare.MakeFourcc`,
`RenderWare.D3dFormat`).

Modules:

| module | file | contents |
|---|---|---|
| `Common` | common.dfy | bytes, little-endian words, `struct.unpack` of counts, slice assignment |
| `Stream` | stream.dfy | `read(n)` at a position; the `FileStream` cursor class |
| `RenderWare` | renderware.dfy | `unpack_version`, `make_fourcc`, `D3DFORMAT` |
| `DffFormat` | dff_format.dfy | section ids, geometry flag constants, section records |
| `DffLayout` | dff_layout.dfy | what `get_struct` and each branch of `get_body` read, as functions |
| `DffParsing` | dff_parser.dfy | the `DffParser` class and its reads |
| `DffProperties` | dff_properties.dfy | header, geometry, mesh and body layouts |
| `TxdLayout`, `TxdReading`, `TxdProperties` | txd_layout.dfy, txd_reader.dfy, txd_properties.dfy | the same for texture dictionaries |
| `Texels` | texel.dfy | channel expansion and interpolation |
| `S3tc`, `S3tcProperties` | s3tc.dfy, s3tc_properties.dfy | the texels of one S3TC block |
| `PixelBuffer` | pixel_buffer.dfy | the output buffer and runs of 4-byte writes |
| `S3tcImage`, `S3tcImageProperties` | s3tc_image.dfy, s3tc_image_properties.dfy | the block traversal of `bc1`/`bc2`/`bc3` |
| `DirectUnpack`, `DirectProperties` | direct.dfy, direct_properties.dfy | `bgra*`, `lum8*`, `pal*` |

## Model

| member | source | states |
|---|---|---|
| Common.LeI16 | txt_parser.py:122 | a signed 16-bit field is non-negative exactly when its high byte is below 0x80, and agrees with the unsigned reading modulo 2^16 |
| Common.LeU16RoundTrip | dff_parser.py:317 | the '<H' reading and the little-endian encoder invert each other, in both directions |
| Common.LeU32RoundTrip | dff_parser.py:198 | the '<I' reading and the little-endian encoder invert each other, in both directions |
| Common.UnpackU32s | dff_parser.py:198 | `struct.unpack('<nI')` succeeds exactly on 4n bytes and then gives n words |
| Common.UnpackU16s | dff_parser.py:317 | '<nH' succeeds exactly on 2n bytes and gives n words |
| Common.UnpackI16s | txt_parser.py:150 | '<nh' succeeds exactly on 2n bytes and gives n signed words |
| Common.UnpackBytes | dff_parser.py:244 | 'ns' and 'nB' succeed exactly on n bytes and give those bytes |
| Common.LeU16 | dff_parser.py:317 | the '<H' reading of two bytes; `LeU16RoundTrip` shows it inverts the little-endian encoder both ways |
| Common.LeU32 | dff_parser.py:198 | the '<I' reading of four bytes; `LeU32RoundTrip` shows it inverts the little-endian encoder both ways |
| Common.SliceAssign | dxtdecompress.py:121-122 | `ret[a:b] = v` with both bounds clamped to the length: inside the buffer it replaces exactly those bytes (`SliceAssignInside`), at or past the end it appends (`SliceAssignPastEnd`) |
| Common.SliceAssignInside | dxtdecompress.py:121-122 | a 4-byte slice assignment inside the buffer keeps its length and changes exactly the assigned bytes |
| Common.SliceAssignPastEnd | dxtdecompress.py:121-122 | a slice assignment at or past the end of a bytearray appends the bytes |
| Common.Zeros | dxtdecompress.py:90 | `bytearray(n)` is n zero bytes |
| Stream.ReadAt | dff_parser.py:194-196 | `read(n)` returns the next n bytes, or every remaining byte when fewer remain or n is negative |
| Stream.After | dff_parser.py:194 | the cursor after a read stays between its old place and the end of the file |
| Stream.U32At | dff_parser.py:236 | one '<I' read succeeds exactly when 4 bytes remain, gives their little-endian value and advances by 4 |
| Stream.U32sAt | dff_parser.py:363-364 | a read of n words succeeds exactly when 4n bytes remain and then advances by 4n, giving n words |
| Stream.U16sAt | dff_parser.py:317 | a read of n u16 succeeds exactly when 2n bytes remain and advances by 2n |
| Stream.I16sAt | txt_parser.py:122 | a read of n signed 16-bit words succeeds exactly when 2n bytes remain and advances by 2n |
| Stream.BytesAt | dff_parser.py:244 | a fixed-length string read succeeds exactly when n bytes remain and gives exactly those bytes |
| Stream.HeaderWords | txt_parser.py:98-100 | a 12-byte header read and unpacked as '<III' gives the three words at the cursor and advances by 12 |
| Stream.FileStream.constructor | dff_parser.py:463-465 | opening a file puts the cursor at its start |
| Stream.FileStream.Read | dff_parser.py:194 | `file.read(n)` returns the bytes `ReadAt` names and advances the cursor by their number |
| RenderWare.UnpackVersion | dff_parser.py:6-10 | `unpack_version`: cases in `UnpackVersionPacked` (high bits set: 0x30000 plus the version field and the build) and `UnpackVersionLegacy` (`libid << 8`); `UnpackPackedVersion` shows it inverts the packing |
| RenderWare.MakeFourcc | txt_parser.py:16-17 | `make_fourcc`: byte k of the code is the low byte of character k (`FourccBytes`); the codes of the format table are spelled out in `FourccValues` |
| RenderWare.UnpackVersionPacked | dff_parser.py:7-8 | an id with high bits set expands to version 3.x.y: high byte 3 plus the top 10 bits, low byte the 6-bit build |
| RenderWare.UnpackVersionLegacy | dff_parser.py:7-10 | an id without high bits expands to itself shifted left by 8 |
| RenderWare.UnpackPackedVersion | dff_parser.py:6-10 | unpacking the packed form of a version and build gives the version back |
| RenderWare.UnpackVersionExamples | txt_parser.py:10-14 | the txd copy on two packed ids (3.6.0.3, 3.4.0.3) and on a legacy id |
| RenderWare.FourccBytes | txt_parser.py:16-17 | byte k of the little-endian code is the code of the k-th character, truncated to 8 bits |
| RenderWare.FourccValues | txt_parser.py:31-39 | the values of the nine four-character members ("UYVY" ... "DXT5") |
| RenderWare.FormatOf | txt_parser.py:144-145 | `D3DFORMAT(value)` finds a member only when that member's value is `value` |
| RenderWare.FormatOfValue | txt_parser.py:20-39 | every member is found from its own value, so no two members share a value |
| DffFormat.SectionTypeOf | dff_parser.py:24-40 | `SectionType(id)`: every member is found from its id, a found member has that id, any other id is an `UnknownSectionType` error (`SectionTypeOfId`) |
| DffFormat.IsLeafType | dff_parser.py:201 | STRING, BREAKABLE and EXTRA_VERT_COLOUR are read from one 12-byte record (`StructAtLeaf`), every other known type from two (`StructAtWrapped`) |
| DffFormat.FlagsSet | dff_parser.py:256-276 | `flags_set`: a constant is listed exactly when it is a non-zero tested flag whose bit is set (`FlagsSetMembers`), one entry per test in test order (`FlagsSetOf`) |
| DffFormat.SectionTypeOfId | dff_parser.py:24-40 | `SectionType(id)` inverts the id table on the sixteen types and fails with the id on any other value |
| DffFormat.TexSetCount | dff_parser.py:300 | the texture-set count field of the flag word is below 256 |
| DffFormat.Rgbas | dff_parser.py:296-298 | one RGBA colour per 4 bytes |
| DffFormat.TexCoordPairs | dff_parser.py:309-311 | one texture-coordinate pair per two words |
| DffFormat.Triangles | dff_parser.py:318-320 | one triangle per four u16 |
| DffFormat.V3ds | dff_parser.py:333-335 | one vector per three words |
| DffLayout.StructAt | dff_parser.py:193-225 | `get_struct` as a function: it ends within the data; `StructAtNone`, `StructAtLeaf` and `StructAtWrapped` give its three results, `StructAtErrors` its failures on a short first or second record and on unknown ids |
| DffLayout.WrappedAt | dff_parser.py:208-225 | the second record of a wrapped header ends within the data (its fields: DffProperties.WrappedAtLayout) |
| DffLayout.RgbasAt | dff_parser.py:295-298 | n colours succeed exactly when 4n bytes remain, give n colours and advance by 4n |
| DffLayout.TextAt | dff_parser.py:401-405 | a name read of n bytes advances by exactly n (cases: DffProperties.TextLayout) |
| DffLayout.SizedTextAt | dff_parser.py:243-248 | a FRAME or STRING name read succeeds only for a `data` that is given and non-negative, and then advances by exactly `data` bytes |
| DffLayout.V3dsAt | dff_parser.py:332-335 | n vectors succeed exactly when 12n bytes remain, give n vectors and advance by 12n |
| DffLayout.ClumpAt | dff_parser.py:228-234 | the CLUMP body ends within the data (layout: DffProperties.ClumpLayout) |
| DffLayout.FrameListAt | dff_parser.py:235-242 | the FRAME_LIST body ends within the data (layout: DffProperties.FrameListLayout) |
| DffLayout.GeometryListAt | dff_parser.py:249-253 | the GEOMETRY_LIST body ends within the data (layout: DffProperties.GeometryListLayout) |
| DffLayout.TexCoordsAt | dff_parser.py:308-311 | ntc pairs succeed exactly when 8 ntc bytes remain, give ntc pairs and advance by 8 ntc |
| DffLayout.TrianglesAt | dff_parser.py:317-320 | nt triangles succeed exactly when 8 nt bytes remain, give nt triangles and advance by 8 nt |
| DffLayout.GeometryListsAt | dff_parser.py:288-320 | the prelit, texture-coordinate and triangle lists of a non-native geometry end within the data |
| DffLayout.ListsAt | dff_parser.py:295-320 | the three lists in a row end within the data (layout: DffProperties.ListsLayout) |
| DffLayout.GeometryAt | dff_parser.py:254-361 | the GEOMETRY body ends within the data (fields: DffProperties.GeometryHeader, GeometryTailLayout) |
| DffLayout.GeometryTailAt | dff_parser.py:323-361 | the returned geometry keeps the flag word, its flag list, the three counts and the three lists it was given |
| DffLayout.MaterialListAt | dff_parser.py:362-369 | the MATERIAL_LIST body ends within the data (layout: DffProperties.MaterialListLayout) |
| DffLayout.MaterialAt | dff_parser.py:370-391 | the MATERIAL body ends within the data (layout: DffProperties.MaterialLayout) |
| DffLayout.TextureAt | dff_parser.py:392-400 | the TEXTURE body, a plain `read(4)`, ends within the data |
| DffLayout.BreakableAt | dff_parser.py:406-410 | the BREAKABLE body ends within the data (cases: DffProperties.BreakableLayout) |
| DffLayout.IndicesAt | dff_parser.py:419-420 | n index reads that succeed give n indices and advance by 4n |
| DffLayout.MeshAt | dff_parser.py:417-428 | a mesh holds exactly `number_of_indices` indices |
| DffLayout.MeshesAt | dff_parser.py:416-428 | the mesh loop gives `numMeshes` meshes, each with exactly its index count of indices |
| DffLayout.BinMeshPlgAt | dff_parser.py:411-435 | the BIN_MESH_PLG body ends within the data; its layout is `BinMeshPlgLayout` |
| DffLayout.ExtraVertColourAt | dff_parser.py:436-449 | the EXTRA_VERT_COLOUR body ends within the data (cases: DffProperties.ExtraVertColourLayout) |
| DffLayout.AtomicAt | dff_parser.py:450-456 | the ATOMIC body ends within the data (layout: DffProperties.AtomicLayout) |
| DffLayout.BodyAt | dff_parser.py:227-462 | `get_body` dispatches on the section type, with `data` given or left out, and ends within the data (a missing or negative `data`: DffProperties.BodyAtBadSize) |
| DffParsing.ListFlags | dff_parser.py:256-276 | the flag tests build `flags_set` in test order and report whether PRELIT bound `prelit` |
| DffParsing.DffParser.constructor | dff_parser.py:463-465 | the parser's cursor starts at the beginning of the file |
| DffParsing.DffParser.ReadU32s | dff_parser.py:363-364 | a bulk '<nI' read returns what `U32sAt` gives and moves the cursor to its end, or fails with its error |
| DffParsing.DffParser.GetStruct | dff_parser.py:193-225 | `get_struct` returns the header `StructAt` describes and leaves the cursor after it, or fails with its error |
| DffParsing.DffParser.GetBody | dff_parser.py:227-462 | `get_body` returns the body `BodyAt` describes for the section type and the optional `data`, and leaves the cursor after it |
| DffParsing.DffParser.ReadText | dff_parser.py:243-248 | a name read returns what `SizedTextAt` gives and moves the cursor to its end |
| DffParsing.DffParser.ReadGeometry | dff_parser.py:254-361 | the GEOMETRY branch returns the geometry `GeometryAt` describes and leaves the cursor after it |
| DffParsing.DffParser.ReadGeometryLists | dff_parser.py:288-320 | a native geometry reads no lists; otherwise the lists are `GeometryListsAt` |
| DffParsing.DffParser.ReadLists | dff_parser.py:295-320 | the three list reads in a row are `ListsAt` |
| DffParsing.DffParser.ReadRgbas | dff_parser.py:295-298 | the prelit read is `RgbasAt` |
| DffParsing.DffParser.ReadTexCoords | dff_parser.py:308-311 | the texture-coordinate read is `TexCoordsAt` |
| DffParsing.DffParser.ReadTriangles | dff_parser.py:317-320 | the triangle read is `TrianglesAt` |
| DffParsing.DffParser.ReadV3ds | dff_parser.py:332-342 | a vertex or normal read is `V3dsAt` |
| DffParsing.DffParser.ReadGeometryTail | dff_parser.py:323-361 | sphere, presence words, vertices and normals are `GeometryTailAt` |
| DffParsing.DffParser.ReadMaterial | dff_parser.py:370-391 | the MATERIAL branch is `MaterialAt` |
| DffParsing.DffParser.ReadBinMeshPlg | dff_parser.py:411-435 | the BIN_MESH_PLG branch is `BinMeshPlgAt` |
| DffParsing.DffParser.ReadMeshes | dff_parser.py:416-428 | the mesh loop is `MeshesAt`; the loop invariant carries the meshes read so far |
| DffParsing.DffParser.ReadMesh | dff_parser.py:417-421 | one pass of the mesh loop is `MeshAt` |
| DffParsing.DffParser.ReadIndices | dff_parser.py:419-420 | the index loop is `IndicesAt` |
| DffParsing.DffParser.ReadExtraVertColour | dff_parser.py:436-449 | the EXTRA_VERT_COLOUR branch, with its optional vertex count, is `ExtraVertColourAt` |
| DffProperties.StructAtNone | dff_parser.py:194-215 | `None` at the end of the data, on a zero first id (12 bytes consumed), on an empty second read, and on a zero second id (24 bytes consumed) |
| DffProperties.StructAtLeaf | dff_parser.py:201-207 | STRING, BREAKABLE and EXTRA_VERT_COLOUR consume 12 bytes and give size == size_2 == the record's size |
| DffProperties.StructAtWrapped | dff_parser.py:208-225 | other headers consume 24 bytes; the size comes from the second record and size_2 from the first; the type is the second record's behind an EXTENSION wrapper, otherwise the first's |
| DffProperties.WrappedAtLayout | dff_parser.py:213-225 | the second record gives size and version, and gives the type after EXTENSION |
| DffProperties.StructAtErrors | dff_parser.py:194-218 | a first read of 1 to 11 bytes fails `unpack`; an unknown first id fails; after a known non-zero id of a wrapped type, a second read of 1 to 11 bytes fails `unpack`; an unknown id behind EXTENSION fails |
| DffProperties.BinMeshPlgLayout | dff_parser.py:411-435 | BIN_MESH_PLG succeeds exactly when the 12-byte header is there and the counted meshes after it read; flags, mesh count and index total are the header words, the meshes and the end are those of `MeshesAt` |
| DffProperties.StructAtConsumes | dff_parser.py:193-225 | a header that is found consumes 12 bytes for the unwrapped types and 24 otherwise |
| DffProperties.IndicesAtOneByOne | dff_parser.py:419-420 | reading the indices one '<I' at a time equals one bulk '<nI' read: same words, same end, same failure |
| DffProperties.IndicesAtWords | dff_parser.py:419-420 | the index loop succeeds exactly when 4n bytes remain and then gives the n words at the cursor |
| DffProperties.IndicesAtStops | dff_parser.py:419-420 | once an index read fails, every longer loop fails with the same error |
| DffProperties.MeshesAtStops | dff_parser.py:416-428 | once a mesh read fails, every longer loop fails with the same error |
| DffProperties.U32sAtWords | dff_parser.py:363-364 | word k of a bulk read is the k-th word at the cursor |
| DffProperties.MeshAtLayout | dff_parser.py:417-421 | a mesh succeeds exactly when its two header words and its `numIndices` words fit; it holds those words and consumes 8 + 4 numIndices bytes |
| DffProperties.FlagsSetMembers | dff_parser.py:256-276 | `flags_set` holds exactly the rpGEOMETRY constants whose bit is set in the flag word |
| DffProperties.FlagsSetOf | dff_parser.py:256-276 | `flags_set` is one optional entry per test, in the source's test order |
| DffProperties.FlagsSetExamples | dff_parser.py:256-276 | two flag words and their lists, showing the test order (NATIVE before TRISTRIP) |
| DffProperties.FrameListLayout | dff_parser.py:235-242 | FRAME_LIST fails only without a count word; the frame data is cut short, never failed, at the end of the file |
| DffProperties.FrameListFull | dff_parser.py:235-242 | a full frame list consumes 4 + 0x38 frame_count bytes and keeps 0x38 frame_count of them |
| DffProperties.RgbasAtLayout | dff_parser.py:295-298 | prelit colour k is bytes 4k..4k+3 |
| DffProperties.TrianglesLayout | dff_parser.py:317-320 | triangle k is u16 number 4k..4k+3, taken as vertex2, vertex1, material id, vertex3 |
| DffProperties.TexCoordsLayout | dff_parser.py:308-311 | texture-coordinate pair k is words 2k and 2k+1 |
| DffProperties.ListsLayout | dff_parser.py:295-320 | the non-native lists succeed exactly when 4 nv + 8 ntc + 8 nt bytes remain, and are then laid out in that order |
| DffProperties.ListsShort | dff_parser.py:295-320 | too few bytes for the lists fails the geometry |
| DffProperties.GeometryHeader | dff_parser.py:255-320 | a decoded geometry has the first four words as flag word and counts, their flag list, no lists when NATIVE is set, and otherwise the lists read after the 16 header bytes |
| DffProperties.GeometryListSizes | dff_parser.py:288-320 | a decoded non-native geometry had PRELIT set and holds one prelit colour per vertex, `numTexSets * numVertices` texture coordinates with `numTexSets == (flags >> 16) & 0xFF`, and `numTriangles` triangles |
| DffProperties.GeometryAtSteps | dff_parser.py:254-361 | the geometry read is the header words, then the lists (none for NATIVE), then the tail |
| DffProperties.GeometryTailLayout | dff_parser.py:323-343 | the vertices and normals are present, one per vertex, exactly when their presence words are nonzero |
| DffProperties.GeometryPrelitUnbound | dff_parser.py:288-289 | with NATIVE and PRELIT both clear, the geometry fails because `prelit` is unbound |
| DffProperties.ExtraVertColourLayout | dff_parser.py:436-449 | no magic word fails; magic 0 gives no colours whatever `data` is; otherwise `data` left out is a type error, a negative `data` a struct error, and else exactly `data` colours from 4 `data` bytes |
| DffProperties.BreakableLayout | dff_parser.py:406-410 | BREAKABLE succeeds exactly when the read of `data` bytes (all that is left for a negative `data`) yields exactly 4 bytes, and gives that word |
| DffProperties.ClumpLayout | dff_parser.py:228-234 | CLUMP is three words: atomics, lights, cameras, 12 bytes |
| DffProperties.AtomicLayout | dff_parser.py:450-456 | ATOMIC is four words, 16 bytes, with the fourth dropped |
| DffProperties.MaterialLayout | dff_parser.py:370-391 | MATERIAL is 28 bytes: flags, colour, an unused word, the textured flag, then ambient, specular and diffuse as raw float words |
| DffProperties.GeometryListLayout | dff_parser.py:249-253 | GEOMETRY_LIST succeeds exactly when 4 bytes remain, gives their word as the count and advances by 4 |
| DffProperties.MaterialListLayout | dff_parser.py:362-369 | MATERIAL_LIST succeeds exactly when the count word and that many words fit; entry k is the word after the count at index k; it advances by 4 + 4 * count |
| DffProperties.TextLayout | dff_parser.py:401-405 | a name read of n bytes succeeds exactly when n bytes remain and the decoder accepts them, gives the decoded name and advances by n; bytes the decoder rejects give a decoding error |
| DffProperties.BodyAtBadSize | dff_parser.py:227-449 | with `data` left out or negative, FRAME and STRING fail in `struct`, BREAKABLE succeeds exactly when 4 bytes are left, and EXTRA_VERT_COLOUR fails exactly when its magic number is non-zero |
| DffProperties.EmptyBodies | dff_parser.py:457-462 | types without a branch, and TWOD_EFFECT, read nothing and return no body |
| TxdLayout.SectionAt | txt_parser.py:80-95 | `get_section`: the same result as `get_header` on every input (`SectionAtIsHeaderAt`) |
| TxdLayout.NameOf | txt_parser.py:126-130 | the name `try` block: the decoded 32 bytes, or the file stem on a short read or a failed decode (`RasterAtFields`) |
| TxdLayout.TextureAt | txt_parser.py:216-225 | one texture: the descriptor, then `size - 68` payload bytes from offset 92, or the rest of the data when fewer remain or `size < 68` (`TexturePayload`) |
| TxdLayout.StripNul | txt_parser.py:165-166 | the name with NUL characters removed contains no NUL and is no longer |
| TxdLayout.HeaderAt | txt_parser.py:97-110 | `get_header` finds a header exactly when 12 bytes remain; the cursor then moves by 12, and otherwise to the end |
| TxdLayout.DictionaryDataAt | txt_parser.py:112-118 | the dictionary record succeeds exactly when 4 bytes remain and consumes exactly 4 |
| TxdLayout.TextureFormatAt | txt_parser.py:122-125 | the texture-format reads succeed exactly when 8 bytes remain and consume exactly 8 |
| TxdLayout.D3dFormatOf | txt_parser.py:143-147 | a known format value gives its member; an unknown one fails, since the fallback member does not exist |
| TxdLayout.RasterFormatAt | txt_parser.py:137-156 | the raster-format reads consume exactly 20 bytes |
| TxdLayout.RasterAt | txt_parser.py:120-179 | a descriptor consumes exactly 92 bytes, and both its names contain no NUL |
| TxdProperties.StripNulFree | txt_parser.py:165 | a name without NUL is unchanged |
| TxdProperties.StripNulCounts | txt_parser.py:165 | stripping keeps every other character exactly as often as it occurred |
| TxdProperties.HeaderAtFields | txt_parser.py:97-110 | the header is type, size and expanded library id of the 12 little-endian bytes; with fewer bytes, `None` |
| TxdProperties.SectionAtIsHeaderAt | txt_parser.py:80-95 | `get_section` behaves as `get_header`, because its extra read at the end of the file gives `b''` |
| TxdProperties.DictionaryDataFields | txt_parser.py:112-118 | `texture_count` and `device_id` are the two u16 at the cursor |
| TxdProperties.TextureFormatFields | txt_parser.py:122-125 | platform id, filter mode and pad are signed 16-bit; U and V addressing are single bytes |
| TxdProperties.RasterFormatFields | txt_parser.py:137-156 | raster format word, D3D format, signed width and height, and the eight bytes depth ... pad in order; an unknown D3D format fails |
| TxdProperties.RasterAtOk | txt_parser.py:120-179 | a descriptor succeeds exactly when 92 bytes remain and its D3D format is a member |
| TxdProperties.RasterAtUnknownFormat | txt_parser.py:143-147 | with 92 bytes and an unknown D3D format the descriptor fails with that value |
| TxdProperties.RasterAtFields | txt_parser.py:120-179 | every field of a successful descriptor at its offset; the name is the strict decoding of bytes 8..40 or the file stem, NUL-stripped |
| TxdProperties.RasterAtSteps | txt_parser.py:120-179 | the descriptor is the texture-format part, the two names and the raster-format part, in that order |
| TxdProperties.TexturePayload | txt_parser.py:181-182 | the payload after a descriptor is `size - 68` bytes when they remain, all remaining bytes otherwise, and all remaining bytes when `size < 68` |
| TxdReading.TxdReader.constructor | txt_parser.py:185-187 | the reader's cursor starts at the beginning of the file |
| TxdReading.TxdReader.GetSection | txt_parser.py:80-95 | `get_section` returns `SectionAt` and leaves the cursor at its end |
| TxdReading.TxdReader.GetHeader | txt_parser.py:97-110 | `get_header` returns `HeaderAt` and leaves the cursor at its end |
| TxdReading.TxdReader.GetTextureDictionaryData | txt_parser.py:112-118 | `get_texture_dictionary_data` returns `DictionaryDataAt` and leaves the cursor at its end |
| TxdReading.TxdReader.GetRasterData | txt_parser.py:120-179 | `get_raster_data` returns `RasterAt` and leaves the cursor after the 92 bytes |
| TxdReading.TxdReader.ReadTextureFormat | txt_parser.py:122-125 | the texture-format reads return `TextureFormatAt` |
| TxdReading.TxdReader.ReadName | txt_parser.py:127-130 | the name is the strict decoding of the 32 bytes read, or the file stem when that fails |
| TxdReading.TxdReader.ReadRasterFormat | txt_parser.py:137-156 | the raster-format reads return `RasterFormatAt` |
| TxdReading.TxdReader.GetFileData | txt_parser.py:181-182 | `get_file_data(size)` returns `read(size)` and advances by its length |
| TxdReading.TxdReader.ReadTexture | txt_parser.py:217-225 | a descriptor and then its `size - 68` payload, as `TextureAt` |
| Texels.Scale | dxtdecompress.py:38-73 | `v * 0xff // max`: fits a byte (`ScaleBound`), strictly increasing (`ScaleOrder`), undone by rounding up (`ScaleInverse`) |
| Texels.UnpackRgb | dxtdecompress.py:28-33 | `unpackRGB`: the `_decode565` channels and an opaque alpha, on every word (`UnpackRgbIsDecode565`) |
| Texels.Decode565 | dxtdecompress.py:62-66 | `_decode565`: the channels give the word back (`Decode565RoundTrip`); 0 is black, 0xffff white (`DecodeExtremes`) |
| Texels.Decode555 | dxtdecompress.py:69-73 | `_decode555`: the channels give the low 15 bits back, the top bit is ignored (`Decode555RoundTrip`) |
| Texels.Decode1555 | dxtdecompress.py:38-43 | `_decode1555`: alpha is 0 or 255 as the top bit is clear or set, and the channels give the word back (`Decode1555RoundTrip`) |
| Texels.Decode4443 | dxtdecompress.py:46-51 | `_decode4443`: the channels give the low 15 bits back (`Decode4443RoundTrip`) |
| Texels.Decode4444 | dxtdecompress.py:54-59 | `_decode4444`: the four channels give the word back (`Decode4444RoundTrip`) |
| Texels.ScaleBound | dxtdecompress.py:38-73 | a field expanded by `* 0xff // max` fits in a byte |
| Texels.ScaleInverse | dxtdecompress.py:38-73 | the expansion is invertible: the field is recovered from the channel |
| Texels.ScaleOrder | dxtdecompress.py:38-73 | the expansion keeps the order of field values strictly |
| Texels.UnpackRgbIsDecode565 | dxtdecompress.py:28-33 | `unpackRGB` is `_decode565` with an opaque alpha |
| Texels.Decode565RoundTrip | dxtdecompress.py:62-66 | a 5-6-5 word is recovered from its three channels |
| Texels.Decode555RoundTrip | dxtdecompress.py:69-73 | the low 15 bits are recovered from the 5-5-5 channels |
| Texels.Decode1555RoundTrip | dxtdecompress.py:38-43 | the 1555 alpha is 0 or 255, 255 exactly when bit 15 is set, and the word is recovered from the four channels |
| Texels.Decode4444RoundTrip | dxtdecompress.py:54-59 | a 4-4-4-4 word is recovered from its four channels |
| Texels.Decode4443RoundTrip | dxtdecompress.py:46-51 | the low 15 bits are recovered from the 4-4-4-3 channels |
| Texels.DecodeExtremes | dxtdecompress.py:38-73 | zero fields give 0 and all-one fields give 255 in every decoder |
| Texels.C2a | dxtdecompress.py:76-77 | `_c2a` lies between its two arguments |
| Texels.C2b | dxtdecompress.py:80-81 | `_c2b` lies between its two arguments |
| Texels.C3 | dxtdecompress.py:84-85 | `_c3` lies between its two arguments |
| Texels.InterpolationSymmetry | dxtdecompress.py:76-85 | `_c3(a, b) == _c2a(b, a)`, and `_c2b` is symmetric |
| S3tc.BlockRgb | dxtdecompress.py:106-119 | the colour of a control code: each channel lies between the endpoints' channels (`BlockRgbBetween`) |
| S3tc.Bc1Texel | dxtdecompress.py:104-122 | a `bc1` texel: alpha 0xff, except `alpha_flag` for code 3 of a block whose first endpoint is not greater (`Bc1Alpha`, `OrByteAlpha`) |
| S3tc.Bc2Alpha | dxtdecompress.py:161 | a `bc2` alpha is a multiple of 0x11, and a row's four alphas give its alpha word back (`Bc2AlphaNibbles`) |
| S3tc.RoundHalfEven | dxtdecompress.py:164-166 | Python's `round(n / d)`: within half of `n / d`, a tie to the even neighbour (`RoundHalfEvenNearest`) |
| S3tc.Unpremultiply | dxtdecompress.py:163-166 | the channel unchanged for alpha 0 or 0xff or without `premultiplied`, and never made smaller (`UnpremultiplyBounds`) |
| S3tc.AlphaIndex | dxtdecompress.py:231-238 | the `bc3` index is the 3-bit field at bit `3 * (4 * (3 - j) + i)` of the 48-bit word `alpha2, alpha3, alpha4` (`AlphaIndexField`, with `FieldAt15` and `FieldAt30` for the two fields that cross words), below 8 (`AlphaIndexRange`) |
| S3tc.Bc3Alpha | dxtdecompress.py:239 | `alphas[alpha_index]`: the texel's alpha in its block (`Bc3TexelAt`) |
| S3tc.Control | dxtdecompress.py:104-105 | a control value is below 4 |
| S3tc.Bc1Texels | dxtdecompress.py:97-122 | a `bc1` block has 16 texels |
| S3tc.Bc1Block | dxtdecompress.py:101-122 | the `bc1` pixel loop, shifting `bits` by 2 per texel, computes `Bc1Texels` |
| S3tc.Bc2Texels | dxtdecompress.py:136-167 | a `bc2` block has 16 texels |
| S3tc.Bc2Block | dxtdecompress.py:141-167 | the `bc2` pixel loop computes `Bc2Texels` |
| S3tc.Nearest | dxtdecompress.py:188-202 | a ramp entry fits in a byte |
| S3tc.Ramp | dxtdecompress.py:184-205 | the `bc3` alpha ramp has 8 entries |
| S3tc.Bc3Texels | dxtdecompress.py:181-246 | a `bc3` block has 16 texels |
| S3tc.Bc3Block | dxtdecompress.py:210-246 | the `bc3` pixel loop computes `Bc3Texels` |
| S3tc.Bc2TexelAt | dxtdecompress.py:141-167 | texel 4j+i of a `bc2` block is the colour of control i+4j with alpha nibble i of word j |
| S3tc.Bc3TexelAt | dxtdecompress.py:210-246 | texel 4j+i of a `bc3` block is the colour of control i+4j with ramp entry `AlphaIndex(j, i)`, and that index is below 8 |
| S3tc.AlphaIndexRange | dxtdecompress.py:231-239 | the `bc3` alpha index is in 0..7, also when the field crosses a 16-bit word |
| S3tcProperties.ShiftedIsDiv | dxtdecompress.py:105 | after n shifts by 2, `bits` is the word divided by 4^n |
| S3tcProperties.ControlBits | dxtdecompress.py:104-105 | control n is bits 2n and 2n+1 of the control word |
| S3tcProperties.Bc1Alpha | dxtdecompress.py:106-122 | a `bc1` alpha is 0xff, except `alpha_flag` for control 3 with `color0 <= color1`, whose colour is then black |
| S3tcProperties.OrByteAlpha | dxtdecompress.py:122 | `0xff OR flag` is 0xff and `0 OR flag` is the flag |
| S3tcProperties.BlockRgbBetween | dxtdecompress.py:106-119 | every channel of a block colour lies between the two endpoint colours' channels |
| S3tcProperties.Bc2AlphaNibbles | dxtdecompress.py:161 | every `bc2` alpha is a multiple of 17, and the four alphas of a row give the row's alpha word back |
| S3tcProperties.RoundHalfEvenNearest | dxtdecompress.py:164-166 | `round` gives an integer within one half of the quotient, and the even one on a tie |
| S3tcProperties.UnpremultiplyBounds | dxtdecompress.py:163-166 | unpremultiplying leaves a channel unchanged for alpha 0 or 255 or without premultiplication, and never lowers it |
| S3tcProperties.RampOrder | dxtdecompress.py:184-205 | the ramp starts with alpha0 and alpha1; in the 7-step case it runs monotonically from alpha0 to alpha1, and in the 5-step case it does too, with entries 6 and 7 equal to 0 and 255 |
| S3tcProperties.RampOfSeven | dxtdecompress.py:185-194 | the six interpolated entries descend from alpha0 to alpha1 |
| S3tcProperties.RampOfFive | dxtdecompress.py:196-203 | the four interpolated entries ascend from alpha0 to alpha1 |
| S3tcProperties.NearestMono | dxtdecompress.py:188-202 | rounding to nearest is monotone |
| S3tcProperties.NearestExact | dxtdecompress.py:188-202 | a whole quotient rounds to itself |
| S3tcProperties.AlphaIndexField | dxtdecompress.py:230-239 | the alpha index of texel (i, j) is the 3-bit field at bit `3 * (4 * (3 - j) + i)` of the 48-bit index word |
| S3tcProperties.FieldAt15 | dxtdecompress.py:236-238 | the field starting at bit 15, which crosses into the middle word, is read whole |
| S3tcProperties.FieldAt30 | dxtdecompress.py:236-238 | the field starting at bit 30, which crosses into the last word, is read whole |
| S3tcImage.BlockWritten | dxtdecompress.py:101-122 | the first n texels of a block written at their pixels, every other pixel unchanged (`BlockPixels`) |
| S3tcImage.RowFrom | dxtdecompress.py:93-122 | a block row: succeeds exactly when a stride per block column remains (`RowFromShape`), and puts each block of the row in place (`RowFromPixels`) |
| S3tcImage.RowsFrom | dxtdecompress.py:92-122 | the block rows: succeeds exactly when a stride per block remains (`RowsFromShape`), puts every block in place (`RowsFromPixels`), and changes nothing without block columns (`RowsFromNoColumns`) |
| S3tcImage.Traverse | dxtdecompress.py:89-124 | the traversal fails on a negative size or a short input and nowhere else (`TraverseFails`), tiles the image (`TraverseTiles`), and grows a 1x1 image to 28 bytes (`OnePixelImage`) |
| S3tcImage.DecodeSpec | dxtdecompress.py:88-248 | what `bc1`, `bc2` and `bc3` return: its failures (`DecodeSpecFails`), each pixel the right texel of the right block (`DecodeTiles`), the 1x1 case (`OnePixelDecode`) |
| S3tcImage.BlockTexels | dxtdecompress.py:94-98 | a block's bytes unpacked per format ('<HHI', '<4H2HI', '<2B3H2HI') give 16 texels of 4 bytes each |
| S3tcImage.DecodeBlock | dxtdecompress.py:94-98 | one block read at the stride of its format is decoded to `BlockTexels` |
| S3tcImage.WriteBlock | dxtdecompress.py:101-122 | the j, i loop writes texel 4j+i at `4 * ((y + j) * width + (x + i))`, as `BlockWritten` |
| S3tcImage.DecodeBlockAt | dxtdecompress.py:93-122 | one pass of the x loop decodes the block at `pos` and writes it at (x, y) |
| S3tcImage.DecodeRow | dxtdecompress.py:93-95 | the x loop is `RowFrom`, failing at the first block `unpack_from` cannot read |
| S3tcImage.DecodeImage | dxtdecompress.py:89-124 | the y and x loops compute `DecodeSpec` |
| S3tcImage.Bc1 | dxtdecompress.py:88-124 | `bc1` computes `Bc1Spec`: `DecodeSpec` of the 8-byte format for a byte `alpha_flag` |
| S3tcImage.Bc1Spec | dxtdecompress.py:88-124 | for a byte `alpha_flag`, the 8-byte block traversal; for any other flag, a negative size fails as before, an image with no block is the zeroed buffer, a short input fails in `unpack_from`, and anything else fails at the first `bytes([...])` |
| S3tcImageProperties.RowsFromNoColumns | dxtdecompress.py:92-93 | with no block column, the block rows leave the buffer unchanged |
| S3tcImageProperties.Bc1FlagOutOfRange | dxtdecompress.py:88-124 | an `alpha_flag` outside a byte gives the same result as any byte flag when a side is not positive, and an error otherwise |
| S3tcImage.Bc2 | dxtdecompress.py:127-169 | `bc2` computes `DecodeSpec` of the 16-byte explicit-alpha format |
| S3tcImage.Bc3 | dxtdecompress.py:171-248 | `bc3` computes `DecodeSpec` of the 16-byte interpolated-alpha format |
| S3tcImageProperties.RowFromShape | dxtdecompress.py:93-95 | a block row succeeds exactly when one stride per 4 columns remains, and then advances by that much |
| S3tcImageProperties.RowsFromShape | dxtdecompress.py:92-95 | the remaining block rows succeed exactly when one stride per block remains |
| S3tcImageProperties.TraverseFails | dxtdecompress.py:89-95 | the traversal fails on a negative buffer size, and otherwise exactly when the input is shorter than one stride per block |
| S3tcImageProperties.DecodeSpecFails | dxtdecompress.py:88-95 | `bc1`/`bc2`/`bc3` fail exactly when `4 * width * height` is negative or the input holds fewer than 8 (or 16) bytes per block |
| S3tcImageProperties.PixelIndexBound | dxtdecompress.py:121 | a pixel inside the image lies inside the `4 * width * height` buffer |
| S3tcImageProperties.PixelIndexInjective | dxtdecompress.py:121 | distinct pixels of an image have distinct offsets |
| S3tcImageProperties.PixelAfterWrite | dxtdecompress.py:121-122 | writing one texel inside the buffer changes that pixel only |
| S3tcImageProperties.BlockPixels | dxtdecompress.py:101-122 | after n texels of a block are written, the pixels they cover hold them and every other pixel is unchanged |
| S3tcImageProperties.PixelPlaced | dxtdecompress.py:93-122 | decoding one block puts its texels at its 4x4 pixels and changes no other pixel |
| S3tcImageProperties.RowFromPixels | dxtdecompress.py:93-122 | a block row puts every block of that row in place and keeps the rows already done |
| S3tcImageProperties.RowsFromPixels | dxtdecompress.py:92-122 | the remaining block rows put every remaining pixel in place |
| S3tcImageProperties.TraverseTiles | dxtdecompress.py:89-124 | for sides that are multiples of 4, the traversal returns `4 * width * height` bytes with every pixel the right texel of the right block |
| S3tcImageProperties.DecodeTiles | dxtdecompress.py:88-248 | for sides that are multiples of 4 and enough input, `bc1`/`bc2`/`bc3` return `4 * width * height` bytes, and pixel (4c+i, 4r+j) is texel (i, j) of block `r * cols + c` |
| S3tcImageProperties.FormatTileTexel | dxtdecompress.py:93-98 | block `r * cols + c` is read at byte `stride * (r * cols + c)` of the input |
| S3tcImageProperties.OnePixelImage | dxtdecompress.py:90-122 | a 1x1 image writes its 16 texels past the end of a 4-byte buffer, which grows to 28 bytes |
| S3tcImageProperties.OnePixelDecode | dxtdecompress.py:88-248 | `bc1`/`bc2`/`bc3` of a 1x1 image return 28 bytes, not `4 * 1 * 1` |
| PixelBuffer.WriteRun | dxtdecompress.py:255-260 | consecutive 4-byte writes: pixel k is texel k, later bytes unchanged (`WriteRunPixels`), the same as overlaying their concatenation (`WriteRunOverlay`, `ZeroRun`) |
| PixelBuffer.NewBuffer | dxtdecompress.py:90 | `bytearray(4 * width * height)` succeeds exactly when the size is not negative, and is then all zero |
| PixelBuffer.Overlay | dxtdecompress.py:255-260 | a run of writes from the start overlays the buffer and extends it when longer |
| PixelBuffer.WriteRunOverlay | dxtdecompress.py:255-260 | consecutive 4-byte writes from offset 0 equal overlaying their concatenation |
| PixelBuffer.ZeroRun | dxtdecompress.py:252-260 | writing k texels into a zero buffer puts texel k at pixel k, keeps the rest zero and grows the buffer to 4k bytes when needed |
| PixelBuffer.WriteRunPixels | dxtdecompress.py:255-260 | after a run of writes, pixel k is texel k and the bytes past the run are unchanged |
| DirectUnpack.Unpack16Spec | dxtdecompress.py:250-296 | a 16-bit unpacker succeeds exactly for a non-negative size and an even input, and writes texel k of word k at `4k` (`Unpack16Layout`) |
| DirectUnpack.Bgra8888Spec | dxtdecompress.py:305-310 | `bgra8888` succeeds exactly for a non-negative size and whole 4-byte groups, pixel k being group k with its first and third bytes swapped (`Bgra8888Layout`), a swap that undoes itself (`Bgra8888Involution`) |
| DirectUnpack.Bgra888Spec | dxtdecompress.py:298-303 | `bgra888` fails on a trailing 1 or 2 bytes, and is `bgra8888` with opaque alpha (`Bgra888Layout`, `Bgra888IsOpaque8888`) |
| DirectUnpack.Lum8Spec | dxtdecompress.py:312-318 | `lum8` succeeds for a non-negative size, one grey opaque texel per byte (`Lum8Layout`) |
| DirectUnpack.Lum8a8Spec | dxtdecompress.py:320-329 | `lum8a8` needs an even input, one grey texel with its alpha per byte pair (`Lum8a8Layout`, `Lum8a8Opaque`) |
| DirectUnpack.Entry | dxtdecompress.py:363 | `palette[idx*4:idx*4+4]`, or for `pal8_noalpha` its first three bytes and 0xff: for an index inside the palette, that entry's bytes (`Pal8Layout`) |
| DirectUnpack.Pal8Spec | dxtdecompress.py:357-377 | `pal8` and `pal8_noalpha`: succeed exactly for a non-negative size, and with every index inside the palette pixel k is entry `data[k]` (`Pal8Layout`, `Pal8NoAlphaIsOpaque`) |
| DirectUnpack.Pal4Spec | dxtdecompress.py:331-355 | `pal4` is `pal8` on the nibbles, high nibble first (`Pal4Layout`), and every texel is whole for a 16-entry palette (`Pal4Texels`) |
| DirectUnpack.Chunks16 | dxtdecompress.py:255-258 | one texel per 16-bit input word |
| DirectUnpack.Unpack16 | dxtdecompress.py:250-296 | the loop over 16-bit words computes `Unpack16Spec` |
| DirectUnpack.Bgra1555 | dxtdecompress.py:250-260 | `bgra1555` writes the 1555 decoding of each word as r, g, b, a |
| DirectUnpack.Bgra4444 | dxtdecompress.py:262-272 | `bgra4444` writes the 4444 decoding of each word as r, g, b, a |
| DirectUnpack.Bgra555 | dxtdecompress.py:274-284 | `bgra555` writes the 555 decoding of each word with alpha 0xff |
| DirectUnpack.Bgra565 | dxtdecompress.py:286-296 | `bgra565` writes the 565 decoding of each word with alpha 0xff |
| DirectUnpack.Chunks8888 | dxtdecompress.py:308-309 | one texel per 4-byte group |
| DirectUnpack.Bgra8888 | dxtdecompress.py:305-310 | the `bgra8888` loop computes `Bgra8888Spec` |
| DirectUnpack.Chunks888 | dxtdecompress.py:301-302 | one texel per 4-byte group, plus one for a final group of 3 bytes |
| DirectUnpack.Bgra888 | dxtdecompress.py:298-303 | the `bgra888` loop computes `Bgra888Spec` |
| DirectUnpack.ChunksLum8 | dxtdecompress.py:315-317 | one texel per input byte |
| DirectUnpack.Lum8 | dxtdecompress.py:312-318 | the `lum8` loop computes `Lum8Spec` |
| DirectUnpack.ChunksLum8a8 | dxtdecompress.py:325-327 | one texel per two input bytes |
| DirectUnpack.Lum8a8 | dxtdecompress.py:320-329 | the `lum8a8` loop computes `Lum8a8Spec` |
| DirectUnpack.PySlice | dxtdecompress.py:363 | a palette slice inside the palette is that slice |
| DirectUnpack.ChunksPal8 | dxtdecompress.py:362-364 | one texel per index byte |
| DirectUnpack.Pal8 | dxtdecompress.py:357-366 | the `pal8` loop computes `Pal8Spec` |
| DirectUnpack.Pal8NoAlpha | dxtdecompress.py:368-377 | the `pal8_noalpha` loop computes `Pal8Spec` with opaque entries |
| DirectUnpack.NibbleIndices | dxtdecompress.py:336-337 | two indices per input byte |
| DirectUnpack.NibblesAt | dxtdecompress.py:337 | index 2k is the high nibble of byte k and index 2k+1 its low nibble |
| DirectUnpack.Pal4Chunks | dxtdecompress.py:336-340 | pixels 2k and 2k+1 are the palette entries of the high and the low nibble of byte k |
| DirectUnpack.Pal4 | dxtdecompress.py:331-342 | the `pal4` loop, two writes per byte, computes `Pal4Spec` |
| DirectUnpack.Pal4NoAlpha | dxtdecompress.py:344-355 | the `pal4_noalpha` loop computes `Pal4Spec` with opaque entries |
| DirectProperties.PixelsDetermine | dxtdecompress.py:258 | two buffers of 4-byte texels with the same pixels are equal |
| DirectProperties.PixelByte | dxtdecompress.py:258 | byte p of a buffer is byte p mod 4 of pixel p / 4 |
| DirectProperties.Unpack16Layout | dxtdecompress.py:250-296 | a 16-bit unpacker succeeds exactly on whole words and a non-negative size; word k gives pixel k; the rest stays zero; the buffer grows when there are more words than pixels |
| DirectProperties.TexelSizes | dxtdecompress.py:258-294 | every 16-bit texel is four bytes |
| DirectProperties.Bgra8888Layout | dxtdecompress.py:305-310 | `bgra8888` succeeds exactly on whole 4-byte groups, and pixel k is group k with bytes 0 and 2 swapped |
| DirectProperties.Bgra8888Involution | dxtdecompress.py:305-310 | applying `bgra8888` twice to a full buffer gives the input back |
| DirectProperties.Bgra888Layout | dxtdecompress.py:298-303 | `bgra888` succeeds unless the input ends in a group of 1 or 2 bytes; pixel k is group k reversed, with alpha 0xff |
| DirectProperties.Bgra888IsOpaque8888 | dxtdecompress.py:298-310 | on whole groups, `bgra888` is `bgra8888` with every input alpha replaced by 0xff |
| DirectProperties.Lum8Layout | dxtdecompress.py:312-318 | `lum8` writes (c, c, c, 255) for each input byte c |
| DirectProperties.Lum8a8Layout | dxtdecompress.py:320-329 | `lum8a8` succeeds exactly on an even length and writes (c, c, c, a) per byte pair |
| DirectProperties.Lum8a8Opaque | dxtdecompress.py:312-329 | when every alpha byte is 0xff (and the size is non-negative, the input of even length), `lum8a8` is `lum8` of its grey bytes |
| DirectProperties.Pal8Layout | dxtdecompress.py:357-377 | when every index names a whole 4-byte palette entry, `pal8` fails exactly on a negative size; pixel k is palette entry `data[k]`, opaque for `pal8_noalpha` |
| DirectProperties.Pal8NoAlphaIsOpaque | dxtdecompress.py:357-377 | when every index names a whole 4-byte palette entry and the size is non-negative, `pal8_noalpha` agrees with `pal8` on every R, G and B byte and sets every written alpha to 255 |
| DirectProperties.Pal4Layout | dxtdecompress.py:331-355 | `pal4` is `pal8` of the nibbles, high nibble first |
| DirectProperties.Pal4Texels | dxtdecompress.py:336-339 | with 16 palette entries every nibble names a whole entry |

## Left out

- `main.py` (archive extraction) is not part of this model. It only seeks, copies and writes files.
- The drivers are not part of this model. These are `main()` in `dxtdecompress.py`, the file loop at the end of `txt_parser.py` and `main()` in `dff_parser.py`: directory scans, JSON, PIL images and file output. From the `txt_parser.py` loop, only the `size - 68` payload read is kept (`TxdReading.TxdReader.ReadTexture`).
- Opening and closing files (`__enter__`, `__exit__`): the file contents are a constructor parameter, and closing is not modelled.
- Floats are kept as their raw 32-bit words. This covers texture coordinates, bounding sphere, vertices, normals and material ambient, specular and diffuse. The model does not interpret them as reals.
- UTF-8 decoding is a parameter: `utf8` is strict decoding, which may fail, and `lossy` is decoding with `errors='replace'`. `Path(file_path).stem` is the `stem` parameter.
- `hex()` formatting of the txd header fields: the model keeps the integers.
- The `FilterMode`, `AddressingMode` and `RasterFormat` enumerations and the `unpack` helper of `dxtdecompress.py` are not used by the modelled code.
- Python exceptions are one `Err` value per kind of failure: a short `unpack`, an unknown enumeration value, an unbound `prelit`, a negative `bytearray` size, a `struct` format built from `None` or a negative count, `4 * None`, and a `bytes` value outside a byte. The model does not keep their messages.
- The output `bytearray` is a `seq<u8>` value that each slice assignment replaces, not an array updated in place. A write at or past the end grows the buffer, which a fixed-size array cannot do.
- S3tcImage.DecodeBlockAt: the source computes and writes each texel in one loop. The model decodes the 16 texels of a block first (`S3tc.Bc1Block` and the others) and then writes them (`S3tcImage.WriteBlock`): the same writes in the same order.
- S3tc.Unpremultiply computes `round(c * 255 / a)` exactly, on rationals, with round-half-even (`S3tc.RoundHalfEven`). S3tc.Nearest computes the `bc3` ramp `round(alpha0 * (6 / 7) + alpha1 * (1 / 7))` and the others as `(2n + d) / (2d)`, which rounds half up. It agrees with `round` because `n / 7` and `n / 5` are never half-integers. Neither models float rounding error. That error cannot change the result: a quotient that is not a half-integer is at least `1 / (2a)` (at least 1/14 for the ramps) from one, far more than the few ulps of error, and a half-integer `c * 255 / a` with `a <= 255` is computed exactly.
- The native-order `struct` formats are read as little-endian, that is, on a little-endian host. These are 'HH', 'h', 'I' and '2h' in `txt_parser.py`, and 'II', 'I', '{n}I', '{n}f', '{n}H' and '4f' in `dff_parser.py`. Their items need no alignment padding, so only the byte order depends on the host; the byte formats '2B', '8B' and 'BBBB' do not depend on it.
- S3tcImageProperties.DecodeTiles: states per-pixel placement only for sides that are multiples of 4. For other sides, writes cross row ends and grow the buffer, so there is no clean per-pixel statement; `S3tcImageProperties.OnePixelDecode` shows the size for a 1x1 image.
