/** Octets, and the big-endian numbers they spell. */
module Octets {

  type Byte = b: int | 0 <= b < 256

  /** Two octets as a number, and back. */
  function U16(hi: Byte, lo: Byte): nat {
    hi as int * 256 + lo as int
  }

  function Bytes16(n: nat): (bytes: seq<Byte>)
    requires n < 0x1_0000
    ensures |bytes| == 2 && U16(bytes[0], bytes[1]) == n
  {
    [n / 256, n % 256]
  }

  lemma Bytes16Of(hi: Byte, lo: Byte)
    ensures U16(hi, lo) < 0x1_0000 && Bytes16(U16(hi, lo)) == [hi, lo]
  {
    var n := U16(hi, lo);
    assert n / 256 == hi && n % 256 == lo;
  }

  /** The number any run of octets spells, most significant first. */
  function BigEndian(bytes: seq<Byte>): nat {
    if bytes == [] then 0 else BigEndian(bytes[..|bytes| - 1]) * 256 + bytes[|bytes| - 1] as int
  }
}
