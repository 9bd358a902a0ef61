/** Pieces shared by the model-file and texture-dictionary decoders: the
    library-id expansion (identical in dff_parser.py and txt_parser.py), the
    four-character-code packing (identical in dxtdecompress.py and
    txt_parser.py) and the D3D pixel-format enumeration (identical in both). */
module RenderWare {
  import opened Common

  // ---------------------------------------------------------------------
  // Library id -> version number

  /** `unpack_version`: a library id with any of its high 16 bits set uses
      the packed layout (10 bits of version at bits 22..31, 6 bits of
      revision at bits 16..21, a 16-bit build number below); otherwise it is
      a legacy id that is shifted up by 8 bits. The shifts and masks are
      written as division and remainder by powers of two, and the final
      `|` as a sum, since its operands share no set bit (the left one is a
      multiple of 0x100, the right one below 0x40). Python's integers do
      not wrap, and neither do these. */
  function UnpackVersion(libid: u32): (v: nat)
  {
    if libid / 0x1_0000 != 0 then
      (libid / 0x4000 / 0x100 % 0x400) * 0x100 + 0x3_0000 + libid / 0x1_0000 % 0x40
    else
      libid * 0x100
  }

  /** The packed branch: version 3.x..6.x taken from bits 22..31 above the
      low byte, the 6-bit revision from bits 16..21 in the low byte (so its
      two top bits are clear), the build number dropped. */
  lemma UnpackVersionPacked(libid: u32)
    requires libid >= 0x1_0000
    ensures UnpackVersion(libid) / 0x100 == 0x300 + libid / 0x40_0000
    ensures UnpackVersion(libid) % 0x100 == libid / 0x1_0000 % 0x40
    ensures 0x3_0000 <= UnpackVersion(libid) < 0x7_0000
  {
  }

  /** The legacy branch: the id times 256, so its low byte is zero and the
      id is recovered by shifting back. */
  lemma UnpackVersionLegacy(libid: u32)
    requires libid < 0x1_0000
    ensures UnpackVersion(libid) % 0x100 == 0
    ensures UnpackVersion(libid) / 0x100 == libid
  {
  }

  /** The packing a packed library id is built with: the inverse of the
      packed branch. */
  function PackLibraryId(version: nat, build: nat): (libid: u32)
    requires 0x3_0000 < version < 0x7_0000 && version % 0x100 < 0x40 && build < 0x1_0000
    ensures libid >= 0x1_0000
  {
    (version / 0x100 - 0x300) * 0x40_0000 + version % 0x100 * 0x1_0000 + build
  }

  /** Expanding a packed id gives back the version it was packed from,
      whatever the build number. */
  lemma UnpackPackedVersion(version: nat, build: nat)
    requires 0x3_0000 < version < 0x7_0000 && version % 0x100 < 0x40 && build < 0x1_0000
    ensures UnpackVersion(PackLibraryId(version, build)) == version
  {
    var libid := PackLibraryId(version, build);
    var hi, rev := version / 0x100 - 0x300, version % 0x100;
    assert libid / 0x1_0000 == hi * 0x40 + rev;
    assert libid / 0x4000 / 0x100 == hi;
  }

  /** The two literal cases: a packed 3.6.0.3 id and a legacy id 5. */
  lemma UnpackVersionExamples()
    ensures UnpackVersion(0x1803_FFFF) == 0x3_6003
    ensures UnpackVersion(0x1003_FFFF) == 0x3_4003
    ensures UnpackVersion(5) == 0x500
  {
  }

  // ---------------------------------------------------------------------
  // Four-character codes

  /** `make_fourcc`: the low byte of each character code, first character in
      the least significant byte. The source combines the bytes with `|` of
      disjoint shifted fields, which is their sum. */
  function MakeFourcc(ch1: char, ch2: char, ch3: char, ch4: char): u32
  {
    (ch1 as int % 0x100) + 0x100 * (ch2 as int % 0x100)
      + 0x1_0000 * (ch3 as int % 0x100) + 0x100_0000 * (ch4 as int % 0x100)
  }

  /** Byte k of the code, read little-endian, is the k-th character's code. */
  lemma FourccBytes(ch1: char, ch2: char, ch3: char, ch4: char)
    ensures U32Bytes(MakeFourcc(ch1, ch2, ch3, ch4))
         == [ch1 as int % 0x100, ch2 as int % 0x100, ch3 as int % 0x100, ch4 as int % 0x100]
  {
    var b: seq<u8> := [ch1 as int % 0x100, ch2 as int % 0x100, ch3 as int % 0x100, ch4 as int % 0x100];
    assert MakeFourcc(ch1, ch2, ch3, ch4) == LeU32(b);
    LeU32RoundTrip(0, b);
  }

  // ---------------------------------------------------------------------
  // D3DFORMAT

  datatype D3dFormat =
    | D3d8888 | D3d888 | D3d565 | D3d555 | D3d1555 | D3d4444
    | L8 | A8L8
    | Uyvy | R8G8B8G8 | Yuy2 | G8R8G8B8
    | Dxt1 | Dxt2 | Dxt3 | Dxt4 | Dxt5

  /** The enum member's value. */
  function FormatValue(f: D3dFormat): u32
  {
    match f
    case D3d8888 => 21
    case D3d888 => 22
    case D3d565 => 23
    case D3d555 => 24
    case D3d1555 => 25
    case D3d4444 => 26
    case L8 => 50
    case A8L8 => 51
    case Uyvy => MakeFourcc('U', 'Y', 'V', 'Y')
    case R8G8B8G8 => MakeFourcc('R', 'G', 'B', 'G')
    case Yuy2 => MakeFourcc('Y', 'U', 'Y', '2')
    case G8R8G8B8 => MakeFourcc('G', 'R', 'G', 'B')
    case Dxt1 => MakeFourcc('D', 'X', 'T', '1')
    case Dxt2 => MakeFourcc('D', 'X', 'T', '2')
    case Dxt3 => MakeFourcc('D', 'X', 'T', '3')
    case Dxt4 => MakeFourcc('D', 'X', 'T', '4')
    case Dxt5 => MakeFourcc('D', 'X', 'T', '5')
  }

  /** `D3DFORMAT(value)`: the member with that value, if any. */
  function FormatOf(value: u32): (f: Option<D3dFormat>)
    ensures f.Some? ==> FormatValue(f.value) == value
  {
    if value == FormatValue(D3d8888) then Some(D3d8888)
    else if value == FormatValue(D3d888) then Some(D3d888)
    else if value == FormatValue(D3d565) then Some(D3d565)
    else if value == FormatValue(D3d555) then Some(D3d555)
    else if value == FormatValue(D3d1555) then Some(D3d1555)
    else if value == FormatValue(D3d4444) then Some(D3d4444)
    else if value == FormatValue(L8) then Some(L8)
    else if value == FormatValue(A8L8) then Some(A8L8)
    else if value == FormatValue(Uyvy) then Some(Uyvy)
    else if value == FormatValue(R8G8B8G8) then Some(R8G8B8G8)
    else if value == FormatValue(Yuy2) then Some(Yuy2)
    else if value == FormatValue(G8R8G8B8) then Some(G8R8G8B8)
    else if value == FormatValue(Dxt1) then Some(Dxt1)
    else if value == FormatValue(Dxt2) then Some(Dxt2)
    else if value == FormatValue(Dxt3) then Some(Dxt3)
    else if value == FormatValue(Dxt4) then Some(Dxt4)
    else if value == FormatValue(Dxt5) then Some(Dxt5)
    else None
  }

  /** Every member is found again from its value: the values are distinct. */
  lemma FormatOfValue(f: D3dFormat)
    ensures FormatOf(FormatValue(f)) == Some(f)
  {
    FourccValues();
  }

  /** The four-character codes spelled out: "DXT1" is 0x31545844 and so on. */
  lemma FourccValues()
    ensures FormatValue(Uyvy) == 0x5956_5955
    ensures FormatValue(R8G8B8G8) == 0x4742_4752
    ensures FormatValue(Yuy2) == 0x3259_5559
    ensures FormatValue(G8R8G8B8) == 0x4247_5247
    ensures FormatValue(Dxt1) == 0x3154_5844
    ensures FormatValue(Dxt2) == 0x3254_5844
    ensures FormatValue(Dxt3) == 0x3354_5844
    ensures FormatValue(Dxt4) == 0x3454_5844
    ensures FormatValue(Dxt5) == 0x3554_5844
  {
  }
}
