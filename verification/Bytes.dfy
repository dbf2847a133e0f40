/** Octets, 16-bit big-endian integers and the sequence helpers every other module uses. */
module Bytes {

  type byte = x: int | 0 <= x < 0x100

  type uint16 = x: int | 0 <= x < 0x1_0000

  datatype Option<+T> = None | Some(value: T)

  const MAX_UINT16 := 0xFFFF

  /** The two octets that binary.BigEndian.PutUint16 stores. */
  function PutUint16(v: uint16): (b: seq<byte>)
    ensures |b| == 2
    ensures GetUint16(b) == v
  {
    [v / 0x100, v % 0x100]
  }

  /** binary.BigEndian.Uint16: only the first two octets are read. */
  function GetUint16(b: seq<byte>): uint16
    requires |b| >= 2
  {
    b[0] as int * 0x100 + b[1] as int
  }

  /** The most significant octet comes first. */
  lemma BigEndian(b: seq<byte>)
    requires |b| >= 2
    ensures GetUint16(b) == 256 * (b[0] as int) + b[1] as int
    ensures PutUint16(GetUint16(b)) == [b[0], b[1]]
  {
    PutGetUint16(b[..2]);
  }

  /** Encoding is the inverse of decoding as well. */
  lemma PutGetUint16(b: seq<byte>)
    requires |b| == 2
    ensures PutUint16(GetUint16(b)) == b
  {
    var v := GetUint16(b);
    assert v / 0x100 == b[0] && v % 0x100 == b[1];
  }

  function Min(a: int, b: int): int {
    if a < b then a else b
  }
}
