/** A file as a byte sequence and the effect of the stdio calls libslas
    makes on it.

    `fread (buf, n, 1, fp)` and `fwrite (buf, n, 1, fp)` count whole items,
    so they report failure for a zero size as well as for a short transfer.
    Whether the operating system lets an open, seek, write or close succeed
    is not something the library decides: the session operations take it as
    a `Faults` parameter. */
module Stream {
  import opened Bytes

  /** Which of the stdio calls of one library call the system lets succeed. */
  datatype Faults = Faults(openOk: bool, seekOk: bool, writeOk: bool, closeOk: bool)

  /** `fread (buf, n, 1, fp)` at cursor c returns 1. */
  predicate ReadOk(f: seq<Byte>, c: nat, n: nat)
  {
    0 < n && c + n <= |f|
  }

  /** The stream position after `fread` of n bytes at c: a short read stops
      at end of file, a read past the end does not move. */
  function CursorAfterRead(f: seq<Byte>, c: nat, n: nat): (r: nat)
    ensures ReadOk(f, c, n) ==> r == c + n
    ensures !ReadOk(f, c, n) && n > 0 ==> r == if c < |f| then |f| else c
  {
    if c < |f| then (if c + n <= |f| then c + n else |f|) else c
  }

  /** The bytes `fread` delivers on success. */
  function ReadAt(f: seq<Byte>, c: nat, n: nat): (b: seq<Byte>)
    requires ReadOk(f, c, n)
    ensures |b| == n
  {
    f[c..c + n]
  }

  /** The file after writing b at c; a gap between the old end and c reads
      as zeros. */
  function Overwrite(f: seq<Byte>, c: nat, b: seq<Byte>): (r: seq<Byte>)
    ensures |r| == if c + |b| <= |f| then |f| else c + |b|
    ensures r[c..c + |b|] == b
    ensures forall i :: 0 <= i < |r| && !(c <= i < c + |b|) ==> r[i] == if i < |f| then f[i] else 0
  {
    if c <= |f| then
      if c + |b| <= |f| then f[..c] + b + f[c + |b|..] else f[..c] + b
    else
      f + Zeros(c - |f|) + b
  }

  /** Writing into an empty file leaves exactly what was written. */
  lemma OverwriteEmpty(b: seq<Byte>)
    ensures Overwrite([], 0, b) == b
  {
    assert [][..0] + b == b;
  }

  /** Reading back what was just written returns it. */
  lemma ReadBackWritten(f: seq<Byte>, c: nat, b: seq<Byte>)
    requires |b| > 0
    ensures ReadOk(Overwrite(f, c, b), c, |b|)
    ensures ReadAt(Overwrite(f, c, b), c, |b|) == b
  {
  }

  /** Two writes back to back leave what one write of both would. */
  lemma OverwriteTwice(f: seq<Byte>, c: nat, a: seq<Byte>, b: seq<Byte>)
    ensures Overwrite(Overwrite(f, c, a), c + |a|, b) == Overwrite(f, c, a + b)
  {
    var r := Overwrite(Overwrite(f, c, a), c + |a|, b);
    var t := Overwrite(f, c, a + b);
    assert |r| == |t|;
    forall i | 0 <= i < |r|
      ensures r[i] == t[i]
    {
      if c <= i < c + |a| {
        assert r[i] == Overwrite(f, c, a)[c..c + |a|][i - c];
        assert t[i] == t[c..c + |a| + |b|][i - c];
      } else if c + |a| <= i < c + |a| + |b| {
        assert r[i] == r[c + |a|..c + |a| + |b|][i - c - |a|];
        assert t[i] == t[c..c + |a| + |b|][i - c];
      }
    }
  }

  /** A write leaves every byte outside its range as it was. */
  lemma OverwriteElsewhere(f: seq<Byte>, c: nat, b: seq<Byte>, lo: nat, hi: nat)
    requires lo <= hi <= |f|
    requires hi <= c || c + |b| <= lo
    ensures Overwrite(f, c, b)[lo..hi] == f[lo..hi]
  {
    var r := Overwrite(f, c, b);
    assert forall i :: lo <= i < hi ==> r[i] == f[i];
  }
}
