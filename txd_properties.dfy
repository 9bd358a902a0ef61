/** What the texture-dictionary layout guarantees: where each field of a
    header and a raster descriptor comes from, how many bytes each step
    takes, when a step fails, and how long a texture's payload is. */
module TxdProperties {
  import opened Common
  import opened Stream
  import opened RenderWare
  import opened TxdLayout

  // ---------------------------------------------------------------------
  // Names

  /** Removing NULs from a string without any changes nothing, so
      stripping twice is stripping once. */
  lemma {:induction false} StripNulFree(s: string)
    requires '\0' !in s
    ensures StripNul(s) == s
  {
    if |s| > 0 {
      assert s[0] != '\0';
      assert '\0' !in s[1..];
      StripNulFree(s[1..]);
      assert s == [s[0]] + s[1..];
    }
  }

  /** Stripping keeps every other character as often as it occurred. */
  lemma {:induction false} StripNulCounts(s: string, c: char)
    requires c != '\0'
    ensures multiset(StripNul(s))[c] == multiset(s)[c]
  {
    if |s| > 0 {
      StripNulCounts(s[1..], c);
      assert s == [s[0]] + s[1..];
    }
  }

  // ---------------------------------------------------------------------
  // Section headers

  /** A full header record yields its three words, the third expanded as a
      library version, and takes 12 bytes; a short one yields `None` and
      leaves the cursor at the end of the data. */
  lemma HeaderAtFields(data: seq<u8>, pos: nat)
    requires pos <= |data|
    ensures pos + 12 <= |data| ==>
      HeaderAt(data, pos) == (Some(TxdSection(Word(data, pos, 0), Word(data, pos, 1), UnpackVersion(Word(data, pos, 2)))), pos + 12)
    ensures pos + 12 > |data| ==> HeaderAt(data, pos) == (None, |data|)
  {
    if pos + 12 <= |data| {
      HeaderWords(data, pos);
    }
  }

  /** The extra one-byte read after a short header always comes back
      empty, since a short read leaves the cursor at the end: so the
      branch that uses the unbound names is unreachable and the section
      reader agrees with the header reader everywhere. */
  lemma SectionAtIsHeaderAt(data: seq<u8>, pos: nat)
    requires pos <= |data|
    ensures SectionAt(data, pos) == Ok(HeaderAt(data, pos))
  {
    if pos + 12 > |data| {
      assert After(data, pos, 12) == |data|;
      assert ReadAt(data, |data|, 1) == [];
    }
  }

  /** The dictionary record is the two little-endian u16 words at `pos`. */
  lemma DictionaryDataFields(data: seq<u8>, pos: nat)
    requires pos + 4 <= |data|
    ensures DictionaryDataAt(data, pos) == Ok((DictionaryData(Half(data, pos, 0), Half(data, pos, 1)), pos + 4))
  {
    var b := ReadAt(data, pos, 4);
    assert b[0..2] == data[pos..pos + 2];
    assert b[2..4] == data[pos + 2..pos + 4];
  }

  // ---------------------------------------------------------------------
  // Raster descriptor

  /** The texture format is bytes 0..7: two signed words, two bytes, and a
      signed padding word. */
  lemma TextureFormatFields(data: seq<u8>, pos: nat)
    requires pos + 8 <= |data|
    ensures TextureFormatAt(data, pos) == Ok((TextureFormat(
      LeI16(data[pos..pos + 2]), LeI16(data[pos + 2..pos + 4]), data[pos + 4], data[pos + 5],
      LeI16(data[pos + 6..pos + 8])), pos + 8))
  {
    var b := ReadAt(data, pos, 4);
    assert b[0..2] == data[pos..pos + 2];
    assert b[2..4] == data[pos + 2..pos + 4];
    var c := ReadAt(data, pos + 6, 2);
    assert c[0..2] == data[pos + 6..pos + 8];
  }

  /** The raster format is bytes 0..19: the raster-format word, the D3D
      format word (kept unchanged when it names a D3DFORMAT member, an
      error naming it otherwise), signed width and height, then depth,
      level count, raster type, alpha, cube-texture, auto-mipmap,
      compressed and padding bytes in that order. */
  lemma RasterFormatFields(data: seq<u8>, pos: nat)
    requires pos + 20 <= |data|
    ensures FormatOf(Word(data, pos, 1)).None? ==>
      RasterFormatAt(data, pos) == Err(UnknownD3dFormat(Word(data, pos, 1)))
    ensures FormatOf(Word(data, pos, 1)).Some? ==>
      RasterFormatAt(data, pos) == Ok((RasterFormat(Word(data, pos, 0), Word(data, pos, 1),
        LeI16(data[pos + 8..pos + 10]), LeI16(data[pos + 10..pos + 12]),
        data[pos + 12], data[pos + 13], data[pos + 14], data[pos + 15],
        data[pos + 16], data[pos + 17], data[pos + 18], data[pos + 19]), pos + 20))
  {
    var b := ReadAt(data, pos + 8, 4);
    assert b[0..2] == data[pos + 8..pos + 10];
    assert b[2..4] == data[pos + 10..pos + 12];
  }

  /** A raster descriptor is read exactly when 92 bytes remain and its D3D
      format word (bytes 76..79) names a D3DFORMAT member. */
  lemma RasterAtOk(data: seq<u8>, pos: nat, stem: string, utf8: seq<u8> -> Option<string>, lossy: seq<u8> -> string)
    requires pos <= |data|
    ensures RasterAt(data, pos, stem, utf8, lossy).Ok? <==>
      pos + 92 <= |data| && FormatOf(Word(data, pos, 19)).Some?
  {
    if pos + 92 <= |data| {
      RasterAtSteps(data, pos, stem, utf8, lossy);
      RasterFormatFields(data, pos + 72);
    } else if pos + 72 <= |data| {
      RasterAtSteps(data, pos, stem, utf8, lossy);
    } else if pos + 8 <= |data| {
      assert After(data, pos + 8, 32) == if pos + 40 <= |data| then pos + 40 else |data|;
    }
  }

  /** An unknown D3D format word fails the whole descriptor with that
      value. */
  lemma RasterAtUnknownFormat(data: seq<u8>, pos: nat, stem: string, utf8: seq<u8> -> Option<string>, lossy: seq<u8> -> string)
    requires pos + 92 <= |data| && FormatOf(Word(data, pos, 19)).None?
    ensures RasterAt(data, pos, stem, utf8, lossy) == Err(UnknownD3dFormat(Word(data, pos, 19)))
  {
    RasterAtSteps(data, pos, stem, utf8, lossy);
    RasterFormatFields(data, pos + 72);
  }

  /** Where every field of a descriptor comes from: the texture format
      from bytes 0..7, the name from bytes 8..39 (the stem when they do not
      decode), the mask name from bytes 40..71, both with NULs removed, and
      the raster format from bytes 72..91. */
  lemma RasterAtFields(data: seq<u8>, pos: nat, stem: string, utf8: seq<u8> -> Option<string>, lossy: seq<u8> -> string)
    requires pos + 92 <= |data| && FormatOf(Word(data, pos, 19)).Some?
    ensures RasterAt(data, pos, stem, utf8, lossy) == Ok((RasterData(
      TextureFormat(LeI16(data[pos..pos + 2]), LeI16(data[pos + 2..pos + 4]), data[pos + 4], data[pos + 5],
        LeI16(data[pos + 6..pos + 8])),
      StripNul(NameOf(data[pos + 8..pos + 40], stem, utf8)),
      StripNul(lossy(data[pos + 40..pos + 72])),
      RasterFormat(Word(data, pos, 18), Word(data, pos, 19),
        LeI16(data[pos + 80..pos + 82]), LeI16(data[pos + 82..pos + 84]),
        data[pos + 84], data[pos + 85], data[pos + 86], data[pos + 87],
        data[pos + 88], data[pos + 89], data[pos + 90], data[pos + 91])), pos + 92))
  {
    RasterAtSteps(data, pos, stem, utf8, lossy);
    TextureFormatFields(data, pos);
    RasterFormatFields(data, pos + 72);
  }

  /** The descriptor with 72 bytes available is its three first steps
      followed by the raster format at byte 72. */
  lemma RasterAtSteps(data: seq<u8>, pos: nat, stem: string, utf8: seq<u8> -> Option<string>, lossy: seq<u8> -> string)
    requires pos + 72 <= |data|
    ensures RasterAt(data, pos, stem, utf8, lossy) ==
      var tf := TextureFormatAt(data, pos).value.0;
      var rf :- RasterFormatAt(data, pos + 72);
      Ok((RasterData(tf, StripNul(NameOf(data[pos + 8..pos + 40], stem, utf8)),
        StripNul(lossy(data[pos + 40..pos + 72])), rf.0), rf.1))
  {
    assert TextureFormatAt(data, pos).Ok? && TextureFormatAt(data, pos).value.1 == pos + 8;
    assert ReadAt(data, pos + 8, 32) == data[pos + 8..pos + 40];
    assert After(data, pos + 8, 32) == pos + 40;
    assert BytesAt(data, pos + 40, 32) == Ok((data[pos + 40..pos + 72], pos + 72));
  }

  // ---------------------------------------------------------------------
  // Texture payload

  /** The payload after a descriptor is `size - 68` bytes when the section
      is at least 68 bytes long and that many bytes remain, so the texture
      takes `size + 24` bytes in all; a shorter file gives all remaining
      bytes; and a size below 68 makes the read length negative, which
      reads everything to the end of the file. */
  lemma TexturePayload(data: seq<u8>, pos: nat, size: u32, stem: string,
                       utf8: seq<u8> -> Option<string>, lossy: seq<u8> -> string)
    requires pos <= |data|
    requires TextureAt(data, pos, size, stem, utf8, lossy).Ok?
    ensures var t := TextureAt(data, pos, size, stem, utf8, lossy).value;
      && (68 <= size && pos + size + 24 <= |data| ==>
            |t.0.1| == size - 68 && t.0.1 == data[pos + 92..pos + 24 + size] && t.1 == pos + size + 24)
      && (68 <= size && pos + size + 24 > |data| ==> t.0.1 == data[pos + 92..] && t.1 == |data|)
      && (size < 68 ==> t.0.1 == data[pos + 92..] && t.1 == |data|)
  {
  }
}
