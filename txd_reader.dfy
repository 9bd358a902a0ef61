/** `TxdReader`: the texture-dictionary reader as the source writes it, a
    sequence of reads from one file cursor. Each method is proved to do
    what the corresponding function of TxdLayout says. */
module TxdReading {
  import opened Common
  import opened Stream
  import opened RenderWare
  import opened TxdLayout

  class TxdReader {
    /** The open file (`self.file_stream`). */
    const stream: FileStream
    /** `Path(self.file_path).stem`, the name used for an undecodable
        texture name. */
    const stem: string

    ghost predicate Valid()
      reads this, stream
    {
      stream.Valid()
    }

    /** The reader with its file opened at the start (`__enter__`). */
    constructor (contents: seq<u8>, fileStem: string)
      ensures Valid() && fresh(stream)
      ensures stream.data == contents && stream.pos == 0 && stem == fileStem
    {
      stream := new FileStream(contents);
      stem := fileStem;
    }

    /** `get_section`. */
    method GetSection() returns (r: Result<Option<TxdSection>>)
      requires Valid()
      modifies stream
      ensures Valid()
      ensures Follows(SectionAt(stream.data, old(stream.pos)), r, stream.pos)
    {
      var data := stream.Read(12);
      var w := UnpackU32s(data, 3);
      if w.Err? {
        var next := stream.Read(1);
        if next == [] {
          return Ok(None);
        }
        return Err(SectionUnbound);
      }
      r := Ok(Some(TxdSection(w.value[0], w.value[1], UnpackVersion(w.value[2]))));
    }

    /** `get_header`. */
    method GetHeader() returns (h: Option<TxdSection>)
      requires Valid()
      modifies stream
      ensures Valid()
      ensures (h, stream.pos) == HeaderAt(stream.data, old(stream.pos))
    {
      var data := stream.Read(12);
      var w := UnpackU32s(data, 3);
      if w.Err? {
        return None;
      }
      h := Some(TxdSection(w.value[0], w.value[1], UnpackVersion(w.value[2])));
    }

    /** `get_texture_dictionary_data`. */
    method GetTextureDictionaryData() returns (r: Result<DictionaryData>)
      requires Valid()
      modifies stream
      ensures Valid()
      ensures Follows(DictionaryDataAt(stream.data, old(stream.pos)), r, stream.pos)
    {
      var data := stream.Read(4);
      var h :- UnpackU16s(data, 2);
      r := Ok(DictionaryData(h[0], h[1]));
    }

    /** `get_raster_data`; `utf8` is the strict UTF-8 decoder and `lossy`
        the one that replaces undecodable bytes. */
    method GetRasterData(utf8: seq<u8> -> Option<string>, lossy: seq<u8> -> string) returns (r: Result<RasterData>)
      requires Valid()
      modifies stream
      ensures Valid()
      ensures Follows(RasterAt(stream.data, old(stream.pos), stem, utf8, lossy), r, stream.pos)
    {
      var textureFormat :- ReadTextureFormat();
      var name := ReadName(utf8);
      var maskData := stream.Read(32);
      var maskName :- UnpackBytes(maskData, 32);
      var rasterFormat :- ReadRasterFormat();
      r := Ok(RasterData(textureFormat, StripNul(name), StripNul(lossy(maskName)), rasterFormat));
    }

    /** The "Texture Format" reads of `get_raster_data`. */
    method ReadTextureFormat() returns (r: Result<TextureFormat>)
      requires Valid()
      modifies stream
      ensures Valid()
      ensures Follows(TextureFormatAt(stream.data, old(stream.pos)), r, stream.pos)
    {
      var data := stream.Read(4);
      var platformFilter :- UnpackI16s(data, 2);
      data := stream.Read(2);
      var addressing :- UnpackBytes(data, 2);
      data := stream.Read(2);
      var pad :- UnpackI16s(data, 1);
      r := Ok(TextureFormat(platformFilter[0], platformFilter[1], addressing[0], addressing[1], pad[0]));
    }

    /** The `try` block that reads the texture name, falling back to the
        file stem. */
    method ReadName(utf8: seq<u8> -> Option<string>) returns (name: string)
      requires Valid()
      modifies stream
      ensures Valid()
      ensures name == NameOf(ReadAt(stream.data, old(stream.pos), 32), stem, utf8)
      ensures stream.pos == After(stream.data, old(stream.pos), 32)
    {
      var data := stream.Read(32);
      var raw := UnpackBytes(data, 32);
      var decoded := if raw.Ok? then utf8(raw.value) else None;
      name := if decoded.Some? then decoded.value else stem;
    }

    /** The "Raster Format" reads of `get_raster_data`. */
    method ReadRasterFormat() returns (r: Result<RasterFormat>)
      requires Valid()
      modifies stream
      ensures Valid()
      ensures Follows(RasterFormatAt(stream.data, old(stream.pos)), r, stream.pos)
    {
      var data := stream.Read(4);
      var rasterFormat :- UnpackU32s(data, 1);
      data := stream.Read(4);
      var d3d :- UnpackU32s(data, 1);
      var format :- D3dFormatOf(d3d[0]);
      data := stream.Read(4);
      var size :- UnpackI16s(data, 2);
      data := stream.Read(8);
      var b :- UnpackBytes(data, 8);
      r := Ok(RasterFormat(rasterFormat[0], FormatValue(format), size[0], size[1],
        b[0], b[1], b[2], b[3], b[4], b[5], b[6], b[7]));
    }

    /** `get_file_data(size)`: `read(size)`. */
    method GetFileData(size: int) returns (b: seq<u8>)
      requires Valid()
      modifies stream
      ensures Valid()
      ensures b == ReadAt(stream.data, old(stream.pos), size)
      ensures stream.pos == After(stream.data, old(stream.pos), size)
    {
      b := stream.Read(size);
    }

    /** One pass of the texture loop: the raster descriptor, then the
        payload of `size - 68` bytes, `size` being the preceding section
        header's size field. */
    method ReadTexture(size: u32, utf8: seq<u8> -> Option<string>, lossy: seq<u8> -> string)
      returns (r: Result<(RasterData, seq<u8>)>)
      requires Valid()
      modifies stream
      ensures Valid()
      ensures Follows(TextureAt(stream.data, old(stream.pos), size, stem, utf8, lossy), r, stream.pos)
    {
      var raster :- GetRasterData(utf8, lossy);
      var payload := GetFileData(size - 68);
      r := Ok((raster, payload));
    }
  }
}
