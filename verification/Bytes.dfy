/** Bytes, and strings as the bytes a `std::string` holds. */
module Bytes {
  type byte = b: int | 0 <= b < 0x100

  type Text = seq<byte>

  /** The byte of an ASCII character. */
  function Ascii(c: char): byte
    requires c < 128 as char
  {
    c as int
  }

  /** `find('\0')` cut to the length: where the text as a C string ends. */
  function ZeroAt(s: Text): (k: nat)
    ensures k <= |s| && 0 !in s[..k] && (k < |s| ==> s[k] == 0)
    ensures 0 !in s ==> k == |s|
  {
    if s == [] || s[0] == 0 then 0
    else
      assert s[1..][..ZeroAt(s[1..])] == s[1..ZeroAt(s[1..]) + 1];
      1 + ZeroAt(s[1..])
  }

  function UpToZero(s: Text): (t: Text)
    ensures t <= s && 0 !in t
    ensures t == s <==> 0 !in s
  {
    s[..ZeroAt(s)]
  }

  // ---------------------------------------------------------------- little-endian words

  type u16 = n: int | 0 <= n < 0x1_0000

  function Bytes16(n: u16): seq<byte> {
    [n % 0x100, n / 0x100]
  }

  function Word16(low: byte, high: byte): u16 {
    var l: int, h: int := low, high;
    l + 0x100 * h
  }

  function Bytes32(n: nat): seq<byte>
    requires n < 0x1_0000_0000
  {
    Bytes16(n % 0x1_0000) + Bytes16(n / 0x1_0000)
  }

  function Word32(p: seq<byte>): nat
    requires |p| >= 4
  {
    var low: int, high: int := Word16(p[0], p[1]), Word16(p[2], p[3]);
    low + 0x1_0000 * high
  }

  lemma Word32Of(n: nat, rest: seq<byte>)
    requires n < 0x1_0000_0000
    ensures Word32(Bytes32(n) + rest) == n
  {
  }
}
