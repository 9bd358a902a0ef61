/** The binary file a parser reads: a byte sequence and a cursor.
    Python's `file.read(n)` never fails; it returns at most `n` bytes (all
    remaining bytes when `n` is negative), and it is the following
    `struct.unpack` that rejects a short buffer. */
module Stream {
  import opened Common

  /** The bytes `read(n)` returns when the cursor is at `pos`. */
  function ReadAt(data: seq<u8>, pos: nat, n: int): (b: seq<u8>)
    requires pos <= |data|
    ensures |b| == if n < 0 || pos + n > |data| then |data| - pos else n
    ensures b == data[pos..pos + |b|]
  {
    if n < 0 || pos + n > |data| then data[pos..] else data[pos..pos + n]
  }

  /** The cursor after `read(n)` at `pos`. */
  function After(data: seq<u8>, pos: nat, n: int): (p: nat)
    requires pos <= |data|
    ensures pos <= p <= |data|
  {
    pos + |ReadAt(data, pos, n)|
  }

  /** A fixed-width read followed by struct.unpack of `n` little-endian u32
      words: the value and the new cursor, or the unpack failure. */
  function U32sAt(data: seq<u8>, pos: nat, n: nat): (r: Result<(seq<u32>, nat)>)
    requires pos <= |data|
    ensures r.Ok? <==> pos + 4 * n <= |data|
    ensures r.Ok? ==> r.value.1 == pos + 4 * n && |r.value.0| == n
  {
    var w :- UnpackU32s(ReadAt(data, pos, 4 * n), n);
    Ok((w, After(data, pos, 4 * n)))
  }

  /** One little-endian u32 at `pos`. */
  function U32At(data: seq<u8>, pos: nat): (r: Result<(u32, nat)>)
    requires pos <= |data|
    ensures r.Ok? <==> pos + 4 <= |data|
    ensures r.Ok? ==> r.value == (LeU32(data[pos..pos + 4]), pos + 4)
  {
    var w :- U32sAt(data, pos, 1);
    Ok((w.0[0], w.1))
  }

  /** A fixed-width read followed by struct.unpack of `n` little-endian
      u16 words. */
  function U16sAt(data: seq<u8>, pos: nat, n: nat): (r: Result<(seq<u16>, nat)>)
    requires pos <= |data|
    ensures r.Ok? <==> pos + 2 * n <= |data|
    ensures r.Ok? ==> r.value.1 == pos + 2 * n && |r.value.0| == n
  {
    var h :- UnpackU16s(ReadAt(data, pos, 2 * n), n);
    Ok((h, After(data, pos, 2 * n)))
  }

  /** The same for `n` signed 16-bit words. */
  function I16sAt(data: seq<u8>, pos: nat, n: nat): (r: Result<(seq<i16>, nat)>)
    requires pos <= |data|
    ensures r.Ok? <==> pos + 2 * n <= |data|
    ensures r.Ok? ==> r.value.1 == pos + 2 * n && |r.value.0| == n
  {
    var h :- UnpackI16s(ReadAt(data, pos, 2 * n), n);
    Ok((h, After(data, pos, 2 * n)))
  }

  /** `n` raw bytes at `pos` that struct.unpack insists on ('nB', 'ns'). */
  function BytesAt(data: seq<u8>, pos: nat, n: nat): (r: Result<(seq<u8>, nat)>)
    requires pos <= |data|
    ensures r.Ok? <==> pos + n <= |data|
    ensures r.Ok? ==> r.value == (data[pos..pos + n], pos + n)
  {
    var b :- UnpackBytes(ReadAt(data, pos, n), n);
    Ok((b, After(data, pos, n)))
  }

  /** The little-endian u32 at byte `pos + 4 * k`. */
  function Word(data: seq<u8>, pos: nat, k: nat): u32
    requires pos + 4 * k + 4 <= |data|
  {
    LeU32(data[pos + 4 * k..pos + 4 * k + 4])
  }

  /** The little-endian u16 at byte `pos + 2 * k`. */
  function Half(data: seq<u8>, pos: nat, k: nat): u16
    requires pos + 2 * k + 2 <= |data|
  {
    LeU16(data[pos + 2 * k..pos + 2 * k + 2])
  }

  /** The words of an `n`-word record starting at word `k0` are the words
      of the whole data at the same offsets. */
  lemma SubSlices(data: seq<u8>, pos: nat, k0: nat, n: nat)
    requires pos + 4 * (k0 + n) <= |data|
    ensures forall k :: 0 <= k < n ==>
      data[pos + 4 * k0..pos + 4 * (k0 + n)][4 * k..4 * k + 4] == data[pos + 4 * (k0 + k)..pos + 4 * (k0 + k) + 4]
  {
  }

  /** A 12-byte header record read at `pos` holds the three words there. */
  lemma HeaderWords(data: seq<u8>, pos: nat)
    requires pos + 12 <= |data|
    ensures UnpackU32s(ReadAt(data, pos, 12), 3) == Ok([Word(data, pos, 0), Word(data, pos, 1), Word(data, pos, 2)])
    ensures After(data, pos, 12) == pos + 12
  {
    SubSlices(data, pos, 0, 3);
    var w := UnpackU32s(ReadAt(data, pos, 12), 3).value;
    assert w[0] == Word(data, pos, 0) && w[1] == Word(data, pos, 1) && w[2] == Word(data, pos, 2);
    assert w == [Word(data, pos, 0), Word(data, pos, 1), Word(data, pos, 2)];
  }

  /** A step that returned `r` and left the cursor at `pos` did what the
      layout function `spec` says: the same value and the same end
      position, or the same error. */
  ghost predicate Follows<T>(spec: Result<(T, nat)>, r: Result<T>, pos: nat)
  {
    match spec
    case Ok(vp) => r == Ok(vp.0) && pos == vp.1
    case Err(e) => r == Err(e)
  }

  class FileStream {
    const data: seq<u8>
    var pos: nat

    ghost predicate Valid()
      reads this
    {
      pos <= |data|
    }

    constructor (contents: seq<u8>)
      ensures Valid() && data == contents && pos == 0
    {
      data := contents;
      pos := 0;
    }

    /** `file.read(n)`. */
    method Read(n: int) returns (b: seq<u8>)
      requires Valid()
      modifies this
      ensures Valid()
      ensures b == ReadAt(data, old(pos), n) && pos == old(pos) + |b|
    {
      b := ReadAt(data, pos, n);
      pos := pos + |b|;
    }
  }
}
