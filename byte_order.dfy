/** The host-order probe and the byte reversal helpers of libslas_pd_functions.h.

    Each helper rewrites a value through a pointer in the source; here it is a
    function from the old value to the new one, plus (for the double) the
    in-place loop over the eight bytes of the union. */
module ByteOrder {
  import opened Bytes

  /** libslas_big_endian: store 0x00010203 in a 32-bit word and return the
      byte at address 3 of its memory. */
  function BigEndian(host: Endian): (r: Byte)
    ensures r == 3 <==> host == Big
    ensures r == 0 <==> host == Little
  {
    var word := ToMem(0x00010203, 4, host);
    word[3]
  }

  /** libslas_swap_uint32_t: split the word into its four bytes with masks and
      shifts, then reassemble them in the opposite order. */
  function SwapU32(word: U32): (r: U32)
    ensures forall k :: 0 <= k < 4 ==> LE(r, 4)[k] == LE(word, 4)[3 - k]
  {
    var t0 := word % 0x100;
    var t1 := (word / 0x100) % 0x100;
    var t2 := (word / 0x1_0000) % 0x100;
    var t3 := word / 0x100_0000;
    var r := t0 * 0x100_0000 + t1 * 0x1_0000 + t2 * 0x100 + t3;
    LEOfFourBytes(t3, t2, t1, t0);
    SplitWord(word);
    r
  }

  /** The bytes the masks and shifts of libslas_swap_uint32_t extract are the
      little-endian bytes of the word. */
  lemma SplitWord(word: U32)
    ensures LE(word, 4) == [word % 0x100, (word / 0x100) % 0x100, (word / 0x1_0000) % 0x100, word / 0x100_0000]
  {
    var w1 := word / 256;
    var w2 := w1 / 256;
    var w3 := w2 / 256;
    assert w2 == word / 0x1_0000;
    assert w3 == word / 0x100_0000;
    assert LE(word, 4) == [word % 256] + LE(w1, 3);
    assert LE(w1, 3) == [w1 % 256] + LE(w2, 2);
    assert LE(w2, 2) == [w2 % 256] + LE(w3, 1);
    assert w3 < 256;
  }

  /** The little-endian bytes of a word assembled from four bytes. */
  lemma LEOfFourBytes(b0: Byte, b1: Byte, b2: Byte, b3: Byte)
    ensures LE(b0 + b1 * 0x100 + b2 * 0x1_0000 + b3 * 0x100_0000, 4) == [b0, b1, b2, b3]
  {
    var v := b0 + b1 * 0x100 + b2 * 0x1_0000 + b3 * 0x100_0000;
    assert v % 256 == b0 && v / 256 == b1 + b2 * 0x100 + b3 * 0x1_0000;
    var v1 := v / 256;
    assert v1 % 256 == b1 && v1 / 256 == b2 + b3 * 0x100;
    var v2 := v1 / 256;
    assert v2 % 256 == b2 && v2 / 256 == b3;
    assert LE(v, 4) == [b0] + LE(v1, 3);
    assert LE(v1, 3) == [b1] + LE(v2, 2);
    assert LE(v2, 2) == [b2] + LE(b3, 1);
  }

  lemma SwapU32Twice(word: U32)
    ensures SwapU32(SwapU32(word)) == word
  {
    var once := SwapU32(word);
    var twice := SwapU32(once);
    assert LE(twice, 4) == LE(word, 4);
    FromLEInjective(LE(twice, 4), LE(word, 4));
    FromLEOfLE(twice, 4);
    FromLEOfLE(word, 4);
  }

  /** libslas_swap_uint16_t: `swab` exchanges the two bytes of the word's
      memory into a temporary, which is then stored back. */
  function SwapU16(word: U16, host: Endian): (r: U16)
    ensures LE(r, 2) == [LE(word, 2)[1], LE(word, 2)[0]]
  {
    var mem := ToMem(word, 2, host);
    var temp := [mem[1], mem[0]];
    var r := FromMem(temp, host);
    MemOfFromMem(temp, host);
    assert ToMem(r, 2, host) == temp;
    r
  }

  lemma SwapU16Twice(word: U16, host: Endian)
    ensures SwapU16(SwapU16(word, host), host) == word
  {
    var twice := SwapU16(SwapU16(word, host), host);
    FromLEOfLE(twice, 2);
    FromLEOfLE(word, 2);
  }

  /** The eight bytes of a double after libslas_swap_double. */
  function SwapDouble(bytes: Bytes8): (r: Bytes8)
    ensures r == Reverse(bytes)
  {
    [bytes[7], bytes[6], bytes[5], bytes[4], bytes[3], bytes[2], bytes[1], bytes[0]]
  }

  /** The loop of libslas_swap_double: exchange bytes i and 7 - i of the union
      for i = 0 .. 3. */
  method SwapDoubleInPlace(eq: array<Byte>)
    requires eq.Length == 8
    modifies eq
    ensures eq[..] == SwapDouble(old(eq[..]))
  {
    var i := 0;
    while i < 4
      invariant 0 <= i <= 4
      invariant forall k :: 0 <= k < i ==> eq[k] == old(eq[7 - k]) && eq[7 - k] == old(eq[k])
      invariant forall k :: i <= k < 8 - i ==> eq[k] == old(eq[k])
    {
      var temp := eq[i];
      eq[i] := eq[7 - i];
      eq[7 - i] := temp;
      i := i + 1;
    }
  }

  lemma SwapDoubleTwice(bytes: Bytes8)
    ensures SwapDouble(SwapDouble(bytes)) == bytes
  {
  }

  /** A double (held as its 64-bit pattern) after libslas_swap_double: its
      memory bytes are reversed, so its little-endian bytes are too. */
  function SwapF64(d: U64, host: Endian): (r: U64)
    ensures LE(r, 8) == Reverse(LE(d, 8))
  {
    var r := FromMem(SwapDouble(ToMem(d, 8, host)), host);
    SwapF64Bytes(d, r, host);
    r
  }

  lemma SwapF64Bytes(d: U64, r: nat, host: Endian)
    requires r == FromMem(SwapDouble(ToMem(d, 8, host)), host)
    ensures LE(r, 8) == Reverse(LE(d, 8))
  {
    MemOfFromMem(SwapDouble(ToMem(d, 8, host)), host);
    if host == Big {
      ReverseReverse(LE(d, 8));
      ReverseReverse(LE(r, 8));
    }
  }

  lemma SwapF64Twice(d: U64, host: Endian)
    ensures SwapF64(SwapF64(d, host), host) == d
  {
    var twice := SwapF64(SwapF64(d, host), host);
    ReverseReverse(LE(d, 8));
    FromLEOfLE(twice, 8);
    FromLEOfLE(d, 8);
  }

  /** A value that is stored after a swap reaches memory in the opposite byte
      order: on a big-endian host, swapping first gives the little-endian bytes. */
  lemma SwappedU32IsLittleEndianOnBigHost(word: U32)
    ensures ToMem(SwapU32(word), 4, Big) == LE(word, 4)
  {
  }
}
