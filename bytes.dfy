/** Bytes, fixed-width integers and the layout of an integer in host memory.

    A C `memcpy` of a uint16_t/uint32_t/double copies the bytes of the value in
    host order; `ToMem`/`FromMem` are that layout, `LE`/`FromLE` the
    little-endian one the LAS format uses on disk. */
module Bytes {

  type Byte = b: int | 0 <= b < 0x100
  type U16 = n: int | 0 <= n < 0x1_0000
  type U32 = n: int | 0 <= n < 0x1_0000_0000
  type U64 = n: int | 0 <= n < 0x1_0000_0000_0000_0000
  type I8 = n: int | -0x80 <= n < 0x80

  type Bytes8 = s: seq<Byte> | |s| == 8 witness [0, 0, 0, 0, 0, 0, 0, 0]
  type Bytes16 = s: seq<Byte> | |s| == 16 witness Zeros(16)
  type Bytes32 = s: seq<Byte> | |s| == 32 witness Zeros(32)

  /** Host byte order. */
  datatype Endian = Little | Big

  function Zeros(n: nat): (s: seq<Byte>)
    ensures |s| == n && forall i :: 0 <= i < n ==> s[i] == 0
  {
    seq(n, _ => 0)
  }

  /** 256 to the power n: the number of values n bytes can hold. */
  function Pow256(n: nat): (r: nat)
    ensures r >= 1
  {
    if n == 0 then 1 else 256 * Pow256(n - 1)
  }

  /** The n low-order bytes of v, least significant first. */
  function LE(v: nat, n: nat): (s: seq<Byte>)
    ensures |s| == n
  {
    if n == 0 then [] else [v % 256] + LE(v / 256, n - 1)
  }

  /** The value of a little-endian byte string; it always fits in |s| bytes. */
  function FromLE(s: seq<Byte>): (v: nat)
    ensures v < Pow256(|s|)
  {
    if s == [] then 0 else s[0] + 256 * FromLE(s[1..])
  }

  lemma {:induction false} FromLEOfLE(v: nat, n: nat)
    requires v < Pow256(n)
    ensures FromLE(LE(v, n)) == v
  {
    if n > 0 {
      assert v / 256 < Pow256(n - 1);
      FromLEOfLE(v / 256, n - 1);
      assert LE(v, n)[1..] == LE(v / 256, n - 1);
    }
  }

  lemma {:induction false} LEOfFromLE(s: seq<Byte>)
    ensures LE(FromLE(s), |s|) == s
  {
    if s != [] {
      var v := FromLE(s);
      assert v % 256 == s[0] && v / 256 == FromLE(s[1..]);
      LEOfFromLE(s[1..]);
    }
  }

  /** Two byte strings of the same length have the same value only if they are equal. */
  lemma FromLEInjective(s: seq<Byte>, t: seq<Byte>)
    requires |s| == |t| && FromLE(s) == FromLE(t)
    ensures s == t
  {
    LEOfFromLE(s);
    LEOfFromLE(t);
  }

  function Reverse<T>(s: seq<T>): (r: seq<T>)
    ensures |r| == |s|
    ensures forall i :: 0 <= i < |s| ==> r[i] == s[|s| - 1 - i]
  {
    if s == [] then [] else Reverse(s[1..]) + [s[0]]
  }

  lemma ReverseReverse<T>(s: seq<T>)
    ensures Reverse(Reverse(s)) == s
  {
    assert forall i :: 0 <= i < |s| ==> Reverse(Reverse(s))[i] == s[i];
  }

  /** The n bytes of v as `memcpy` sees them on a host of the given byte order. */
  function ToMem(v: nat, n: nat, host: Endian): (s: seq<Byte>)
    ensures |s| == n
  {
    if host == Little then LE(v, n) else Reverse(LE(v, n))
  }

  /** The value `memcpy` produces from the bytes s on a host of the given byte order. */
  function FromMem(s: seq<Byte>, host: Endian): (v: nat)
    ensures v < Pow256(|s|)
  {
    if host == Little then FromLE(s) else FromLE(Reverse(s))
  }

  lemma MemRoundTrip(v: nat, n: nat, host: Endian)
    requires v < Pow256(n)
    ensures FromMem(ToMem(v, n, host), host) == v
  {
    if host == Big {
      ReverseReverse(LE(v, n));
    }
    FromLEOfLE(v, n);
  }

  lemma MemOfFromMem(s: seq<Byte>, host: Endian)
    ensures ToMem(FromMem(s, host), |s|, host) == s
  {
    if host == Little {
      LEOfFromLE(s);
    } else {
      LEOfFromLE(Reverse(s));
      ReverseReverse(s);
    }
  }

  /** An int32_t stored through its unsigned bit pattern: C's conversion of
      an int64_t to int32_t keeps the low 32 bits. */
  function Wrap32(i: int): U32
  {
    i % 0x1_0000_0000
  }

  /** The int32_t whose bit pattern is u (two's complement). */
  function Signed32(u: U32): (i: int)
    ensures -0x8000_0000 <= i < 0x8000_0000
    ensures Wrap32(i) == u
  {
    if u < 0x8000_0000 then u else u - 0x1_0000_0000
  }

  lemma Signed32OfWrap32(i: int)
    requires -0x8000_0000 <= i < 0x8000_0000
    ensures Signed32(Wrap32(i)) == i
  {
  }

  /** The byte holding an int8_t. */
  function Wrap8(i: I8): Byte
  {
    i % 0x100
  }

  /** The int8_t held in a byte. */
  function Signed8(b: Byte): (i: I8)
    ensures Wrap8(i) == b
  {
    if b < 0x80 then b else b - 0x100
  }
}
