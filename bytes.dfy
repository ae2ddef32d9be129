/** Fixed-width integers and their little-endian byte encoding, as written by
    Python's `struct.pack("<i", x)` and read by Rust's `as u8` cast. */
module Bytes {
  import opened Common

  newtype byte = x: int | 0 <= x < 256

  const TWO32: int := 0x1_0000_0000
  const MIN_I32: int := -0x8000_0000
  const MAX_I32: int := 0x7fff_ffff

  predicate InI32(x: int) {
    MIN_I32 <= x <= MAX_I32
  }

  /** Rust's `i32`. */
  type int32 = x: int | InI32(x)

  /** The two's-complement bit pattern of a 32-bit integer, as an unsigned value. */
  function ToU32(x: int): (u: nat)
    requires InI32(x)
    ensures u < TWO32
    ensures u % TWO32 == x % TWO32
  {
    if x < 0 then x + TWO32 else x
  }

  /** The 32-bit integer with the given bit pattern. */
  function FromU32(u: nat): (x: int)
    requires u < TWO32
    ensures InI32(x)
    ensures x % TWO32 == u
  {
    if u > MAX_I32 then u - TWO32 else u
  }

  /** The four bytes of `u`, least significant first. */
  function LittleEndian4(u: nat): (b: seq<byte>)
    requires u < TWO32
    ensures |b| == 4
  {
    [(u % 256) as byte, (u / 256 % 256) as byte,
     (u / 256 / 256 % 256) as byte, (u / 256 / 256 / 256 % 256) as byte]
  }

  function Value4(b: seq<byte>): (u: nat)
    requires |b| == 4
    ensures u < TWO32
  {
    b[0] as nat + 256 * (b[1] as nat + 256 * (b[2] as nat + 256 * b[3] as nat))
  }

  /** `struct.pack("<i", x)`: `struct.error` when `x` does not fit in 32 bits. */
  function PackI32(x: int): (r: Result<seq<byte>>)
    ensures r.Ok? <==> InI32(x)
    ensures r.Ok? ==> |r.value| == 4
    ensures r.Err? ==> r.error == StructError
  {
    if InI32(x) then Ok(LittleEndian4(ToU32(x))) else Err(StructError)
  }

  /** Reading four little-endian bytes back as a signed 32-bit integer. */
  function UnpackI32(b: seq<byte>): (x: int)
    requires |b| == 4
    ensures InI32(x)
  {
    FromU32(Value4(b))
  }

  lemma LittleEndianValue(u: nat)
    requires u < TWO32
    ensures Value4(LittleEndian4(u)) == u
  {
    var q1 := u / 256;
    var q2 := q1 / 256;
    var q3 := q2 / 256;
    assert u == u % 256 + 256 * q1;
    assert q1 == q1 % 256 + 256 * q2;
    assert q2 == q2 % 256 + 256 * q3;
    assert q3 < 256;
  }

  /** Unpacking what `struct.pack("<i", x)` wrote gives `x` back. */
  lemma PackUnpack(x: int)
    requires InI32(x)
    ensures PackI32(x).Ok? && UnpackI32(PackI32(x).value) == x
  {
    LittleEndianValue(ToU32(x));
  }

  /** `x as u8` in Rust: the low eight bits of the two's-complement pattern. */
  function LowByte(x: int): (b: byte)
    ensures (b as int - x) % 256 == 0
  {
    (x % 256) as byte
  }
}
