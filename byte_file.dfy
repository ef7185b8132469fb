/**
 * The backing file of the swap device as a byte sequence, and the
 * POSIX calls the device makes on it as total functions.
 *
 * Byte offset `o` of the arena is byte offset `o` of the file; there is
 * no header. Writing past the end grows the file and the gap reads as
 * zeros (a sparse region).
 */
module ByteFile {

  type byte = bv8

  /** `n` zero bytes: a fresh `calloc` buffer, or an unwritten sparse region. */
  function Zeros(n: nat): (z: seq<byte>)
    ensures |z| == n
    ensures forall i :: 0 <= i < n ==> z[i] == 0
  {
    seq(n, _ => 0)
  }

  /**
   * The file after `lseek(fd, o, SEEK_SET); write(fd, d, |d|)`: the bytes
   * `[o, o + |d|)` become `d`, every other existing byte stays, and a gap
   * between the old end and `o` is filled with zeros.
   */
  function WriteAt(f: seq<byte>, o: nat, d: seq<byte>): (r: seq<byte>)
    ensures |r| == if o + |d| <= |f| then |f| else o + |d|
    ensures r[o..o + |d|] == d
    ensures forall i :: 0 <= i < |f| && !(o <= i < o + |d|) ==> r[i] == f[i]
    ensures forall i :: |f| <= i < o ==> r[i] == 0
  {
    if o + |d| <= |f| then f[..o] + d + f[o + |d|..]
    else if o <= |f| then f[..o] + d
    else f + Zeros(o - |f|) + d
  }

  /**
   * The bytes `lseek(fd, o, SEEK_SET); read(fd, buf, n)` delivers: at most
   * `n`, fewer exactly when the file ends before `o + n`.
   */
  function ReadAt(f: seq<byte>, o: nat, n: nat): (r: seq<byte>)
    ensures |r| <= n
    ensures |r| == n <==> n == 0 || o + n <= |f|
    ensures forall i :: 0 <= i < |r| ==> o + i < |f| && r[i] == f[o + i]
  {
    if |f| <= o then []
    else if o + n <= |f| then f[o..o + n]
    else f[o..]
  }

  /**
   * What a mapping of `[o, o + n)` of the file shows: the file's bytes,
   * and zeros where the range runs past the end of the file.
   */
  function Window(f: seq<byte>, o: nat, n: nat): (r: seq<byte>)
    ensures |r| == n
    ensures forall i :: 0 <= i < n ==> r[i] == if o + i < |f| then f[o + i] else 0
  {
    seq(n, i requires 0 <= i < n => if o + i < |f| then f[o + i] else 0)
  }

  /** A window that lies inside the file is the file's own slice. */
  lemma WindowInsideFile(f: seq<byte>, o: nat, n: nat)
    requires o + n <= |f|
    ensures Window(f, o, n) == f[o..o + n] == ReadAt(f, o, n)
  {
  }

  /** Reading back what was just written returns it: the write-back/read round trip. */
  lemma ReadAfterWrite(f: seq<byte>, o: nat, d: seq<byte>)
    ensures ReadAt(WriteAt(f, o, d), o, |d|) == d
    ensures Window(WriteAt(f, o, d), o, |d|) == d
  {
    var g := WriteAt(f, o, d);
    assert g[o..o + |d|] == d;
    WindowInsideFile(g, o, |d|);
  }

  /** Writing back bytes equal to what the file already holds leaves the file as it was. */
  lemma {:induction false} WriteBackOfUnchangedBytes(f: seq<byte>, o: nat, n: nat)
    requires o + n <= |f|
    ensures WriteAt(f, o, f[o..o + n]) == f
  {
    var r := WriteAt(f, o, f[o..o + n]);
    assert |r| == |f|;
    forall i | 0 <= i < |f|
      ensures r[i] == f[i]
    {
      if o <= i < o + n {
        assert r[i] == r[o..o + n][i - o];
      }
    }
  }

  /** A second write of the same range replaces the first one entirely. */
  lemma {:induction false} LastWriteWins(f: seq<byte>, o: nat, d1: seq<byte>, d2: seq<byte>)
    requires |d1| == |d2|
    ensures WriteAt(WriteAt(f, o, d1), o, d2) == WriteAt(f, o, d2)
  {
    var a := WriteAt(WriteAt(f, o, d1), o, d2);
    var b := WriteAt(f, o, d2);
    assert |a| == |b|;
    forall i | 0 <= i < |a|
      ensures a[i] == b[i]
    {
      if o <= i < o + |d2| {
        assert a[i] == a[o..o + |d2|][i - o];
        assert b[i] == b[o..o + |d2|][i - o];
      }
    }
  }

  /**
   * Write-backs of two disjoint byte ranges commute: the file is the same
   * whichever of the two buffers is released first.
   */
  lemma {:induction false} DisjointWritesCommute(f: seq<byte>, o1: nat, d1: seq<byte>, o2: nat, d2: seq<byte>)
    requires o1 + |d1| <= o2 || o2 + |d2| <= o1
    ensures WriteAt(WriteAt(f, o1, d1), o2, d2) == WriteAt(WriteAt(f, o2, d2), o1, d1)
  {
    var g1 := WriteAt(f, o1, d1);
    var g2 := WriteAt(f, o2, d2);
    var a := WriteAt(g1, o2, d2);
    var b := WriteAt(g2, o1, d1);
    assert |a| == |b|;
    forall i | 0 <= i < |a|
      ensures a[i] == b[i]
    {
      if o1 <= i < o1 + |d1| {
        assert g1[i] == g1[o1..o1 + |d1|][i - o1];
        assert b[i] == b[o1..o1 + |d1|][i - o1];
      } else if o2 <= i < o2 + |d2| {
        assert g2[i] == g2[o2..o2 + |d2|][i - o2];
        assert a[i] == a[o2..o2 + |d2|][i - o2];
      }
    }
  }
}
