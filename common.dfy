/** Fixed-width integers, little-endian byte decoding, the error taxonomy
    and Python's `bytearray` slice assignment, shared by every decoder. */
module Common {

  type u8 = x: int | 0 <= x < 0x100
  type u16 = x: int | 0 <= x < 0x1_0000
  type u32 = x: int | 0 <= x < 0x1_0000_0000
  type i16 = x: int | -0x8000 <= x < 0x8000

  /** The exceptions the decoders raise, one constructor per cause. */
  datatype Error =
    | StructSize            // struct.unpack given the wrong number of bytes
    | UnknownSectionType(id: u32)   // SectionType(id) on an id the enum lacks
    | PrelitUnbound         // geometry read with PRELIT and NATIVE both clear
    | InvalidUtf8           // bytes.decode('utf-8') rejected the bytes
    | IndexOutOfRange       // data[i] past the end of a pixel buffer
    | UnknownD3dFormat(value: u32)  // fallback to the undefined D3DFMT_UNKNOWN
    | SectionUnbound        // section fields used after their unpack failed
    | NegativeCount         // bytearray(n) with a negative n
    | BadStructFormat       // a struct format built from None or a negative count
    | TypeMismatch          // arithmetic on an optional argument left as None
    | ByteOutOfRange        // bytes([...]) given a value outside 0..255

  datatype Option<+T> = None | Some(value: T)

  datatype Result<+T> = Ok(value: T) | Err(error: Error) {
    predicate IsFailure() { Err? }
    function PropagateFailure<U>(): Result<U>
      requires Err?
    {
      Err(error)
    }
    function Extract(): T
      requires Ok?
    {
      value
    }
  }

  // ---------------------------------------------------------------------
  // Little-endian integers ('<H', '<I', '<h' in struct notation)

  function LeU16(b: seq<u8>): u16
    requires |b| == 2
  {
    b[0] as int + 0x100 * b[1] as int
  }

  function LeU32(b: seq<u8>): u32
    requires |b| == 4
  {
    b[0] as int + 0x100 * b[1] as int + 0x1_0000 * b[2] as int + 0x100_0000 * b[3] as int
  }

  /** Two's complement reading of a 16-bit little-endian word. */
  function LeI16(b: seq<u8>): (v: i16)
    requires |b| == 2
    ensures v >= 0 <==> b[1] < 0x80
    ensures v % 0x1_0000 == LeU16(b)
  {
    var u := LeU16(b);
    if u < 0x8000 then u else u - 0x1_0000
  }

  /** The encoder that LeU16 inverts. */
  function U16Bytes(v: u16): (b: seq<u8>)
    ensures |b| == 2
  {
    [v % 0x100, v / 0x100]
  }

  /** The encoder that LeU32 inverts. */
  function U32Bytes(v: u32): (b: seq<u8>)
    ensures |b| == 4
  {
    [v % 0x100, (v / 0x100) % 0x100, (v / 0x1_0000) % 0x100, v / 0x100_0000]
  }

  lemma LeU16RoundTrip(v: u16, b: seq<u8>)
    requires |b| == 2
    ensures LeU16(U16Bytes(v)) == v
    ensures U16Bytes(LeU16(b)) == b
  {
  }

  lemma LeU32RoundTrip(v: u32, b: seq<u8>)
    requires |b| == 4
    ensures LeU32(U32Bytes(v)) == v
    ensures U32Bytes(LeU32(b)) == b
  {
    LeU32Encode(v);
    LeU32Decode(b);
  }

  /** Encoding then decoding a word gives the word back. */
  lemma LeU32Encode(v: u32)
    ensures LeU32(U32Bytes(v)) == v
  {
    var q1 := v / 0x100;
    var q2 := q1 / 0x100;
    var q3 := q2 / 0x100;
    assert v == v % 0x100 + 0x100 * q1;
    assert q1 == q1 % 0x100 + 0x100 * q2;
    assert q2 == q2 % 0x100 + 0x100 * q3;
    assert v / 0x1_0000 == q2;
    assert v / 0x100_0000 == q3;
  }

  /** Decoding then encoding four bytes gives the bytes back. */
  lemma LeU32Decode(b: seq<u8>)
    requires |b| == 4
    ensures U32Bytes(LeU32(b)) == b
  {
    var w := LeU32(b);
    var hi2 := b[2] as int + 0x100 * b[3] as int;
    var hi1 := b[1] as int + 0x100 * hi2;
    assert w == b[0] as int + 0x100 * hi1;
    assert w % 0x100 == b[0] && w / 0x100 == hi1;
    assert hi1 % 0x100 == b[1] && hi1 / 0x100 == hi2;
    assert hi2 % 0x100 == b[2] && hi2 / 0x100 == b[3];
    assert w == b[0] as int + b[1] as int * 0x100 + 0x1_0000 * hi2;
    assert w / 0x1_0000 == hi2;
    assert w / 0x100_0000 == b[3];
  }

  // ---------------------------------------------------------------------
  // struct.unpack of homogeneous formats: it fails unless the buffer has
  // exactly the byte count the format needs.

  /** '<nI' (and 'nf' with floats kept as their raw 32-bit words). */
  function UnpackU32s(b: seq<u8>, n: nat): (r: Result<seq<u32>>)
    ensures r.Ok? <==> |b| == 4 * n
    ensures r.Ok? ==> |r.value| == n
  {
    if |b| != 4 * n then Err(StructSize)
    else Ok(seq(n, k requires 0 <= k < n => LeU32(b[4 * k..4 * k + 4])))
  }

  /** '<nH'. */
  function UnpackU16s(b: seq<u8>, n: nat): (r: Result<seq<u16>>)
    ensures r.Ok? <==> |b| == 2 * n
    ensures r.Ok? ==> |r.value| == n
  {
    if |b| != 2 * n then Err(StructSize)
    else Ok(seq(n, k requires 0 <= k < n => LeU16(b[2 * k..2 * k + 2])))
  }

  /** '<nh': two's complement 16-bit words. */
  function UnpackI16s(b: seq<u8>, n: nat): (r: Result<seq<i16>>)
    ensures r.Ok? <==> |b| == 2 * n
    ensures r.Ok? ==> |r.value| == n
  {
    if |b| != 2 * n then Err(StructSize)
    else Ok(seq(n, k requires 0 <= k < n => LeI16(b[2 * k..2 * k + 2])))
  }

  /** 'nB' and 'ns': the bytes themselves. */
  function UnpackBytes(b: seq<u8>, n: nat): (r: Result<seq<u8>>)
    ensures r.Ok? <==> |b| == n
    ensures r.Ok? ==> r.value == b
  {
    if |b| != n then Err(StructSize) else Ok(b)
  }

  /** A slice of a slice is a slice of the whole. */
  lemma SliceOfSlice<T>(s: seq<T>, a: nat, b: nat, c: nat, d: nat)
    requires a <= b <= |s| && c <= d <= b - a
    ensures s[a..b][c..d] == s[a + c..a + d]
  {
    var x, y := s[a..b][c..d], s[a + c..a + d];
    assert |x| == |y|;
    forall i | 0 <= i < |x|
      ensures x[i] == y[i]
    {
    }
  }

  // ---------------------------------------------------------------------
  // Slice assignment `s[a:b] = v` on a bytearray: both bounds are clamped
  // to the current length, so a write at or past the end appends.

  function SliceAssign(s: seq<u8>, a: nat, b: nat, v: seq<u8>): (r: seq<u8>)
    requires a <= b
  {
    var lo := if a < |s| then a else |s|;
    var hi := if b < |s| then b else |s|;
    s[..lo] + v + s[hi..]
  }

  /** Inside the buffer, a slice assignment of the slice's own length
      replaces exactly those bytes. */
  lemma SliceAssignInside(s: seq<u8>, a: nat, v: seq<u8>)
    requires a + |v| <= |s|
    ensures |SliceAssign(s, a, a + |v|, v)| == |s|
    ensures forall k :: 0 <= k < |s| ==>
      SliceAssign(s, a, a + |v|, v)[k] == if a <= k < a + |v| then v[k - a] else s[k]
  {
  }

  /** At or past the end, a slice assignment appends (it never leaves a gap). */
  lemma SliceAssignPastEnd(s: seq<u8>, a: nat, b: nat, v: seq<u8>)
    requires |s| <= a <= b
    ensures SliceAssign(s, a, b, v) == s + v
  {
    assert s[..|s|] == s;
  }

  function Zeros(n: nat): (z: seq<u8>)
    ensures |z| == n && forall k :: 0 <= k < n ==> z[k] == 0
  {
    seq(n, _ => 0)
  }
}
