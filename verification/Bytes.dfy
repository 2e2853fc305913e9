/** Little-endian words inside a byte sequence. */
module Bytes {
  import opened Words

  function Put32(v: u32): (b: seq<u8>)
    ensures |b| == 4
  {
    [v % 0x100, v / 0x100 % 0x100, v / 0x1_0000 % 0x100, v / 0x100_0000]
  }

  function Get32(d: seq<u8>, a: nat): u32
    requires a + 4 <= |d|
  {
    d[a] + (d[a + 1] as int) * 0x100 + (d[a + 2] as int) * 0x1_0000 + (d[a + 3] as int) * 0x100_0000
  }

  /** `d` with `b` copied over it from index `a`. */
  function Splice(d: seq<u8>, a: nat, b: seq<u8>): (r: seq<u8>)
    requires a + |b| <= |d|
    ensures |r| == |d|
    ensures forall i :: 0 <= i < |d| ==> r[i] == if a <= i < a + |b| then b[i - a] else d[i]
  {
    d[..a] + b + d[a + |b|..]
  }

  /** The low byte comes first. */
  lemma LittleEndian(d: seq<u8>, a: nat)
    requires a + 4 <= |d|
    ensures Put32(0x1234_5678) == [0x78, 0x56, 0x34, 0x12]
    ensures d[a..a + 4] == [0x78, 0x56, 0x34, 0x12] ==> Get32(d, a) == 0x1234_5678
  {
    if d[a..a + 4] == [0x78, 0x56, 0x34, 0x12] {
      assert d[a] == d[a..a + 4][0] && d[a + 1] == d[a..a + 4][1] && d[a + 2] == d[a..a + 4][2];
      assert d[a + 3] == d[a..a + 4][3];
    }
  }

  lemma GetPut(d: seq<u8>, a: nat, v: u32)
    requires a + 4 <= |d|
    ensures Get32(Splice(d, a, Put32(v)), a) == v
  {
    assert v / 0x1_0000 == v / 0x100 / 0x100 && v / 0x100_0000 == v / 0x1_0000 / 0x100;
  }

  /** Equal bytes read as equal words. */
  lemma GetSame(d: seq<u8>, e: seq<u8>, a: nat)
    requires a + 4 <= |d| && a + 4 <= |e| && d[a..a + 4] == e[a..a + 4]
    ensures Get32(d, a) == Get32(e, a)
  {
    var x, y := d[a..a + 4], e[a..a + 4];
    assert x[0] == y[0] && x[1] == y[1] && x[2] == y[2] && x[3] == y[3];
  }

  /** The bytes of a word read as that word. */
  lemma GetBytes(d: seq<u8>, a: nat, v: u32)
    requires a + 4 <= |d| && d[a..a + 4] == Put32(v)
    ensures Get32(d, a) == v
  {
    GetPut(d, a, v);
    GetSame(d, Splice(d, a, Put32(v)), a);
  }

  /** Two adjacent copies make one. */
  lemma SpliceAdjacent(d: seq<u8>, a: nat, x: seq<u8>, y: seq<u8>)
    requires a + |x| + |y| <= |d|
    ensures Splice(Splice(d, a, x), a + |x|, y) == Splice(d, a, x + y)
    ensures Splice(Splice(d, a + |x|, y), a, x) == Splice(d, a, x + y)
  {
  }
}
