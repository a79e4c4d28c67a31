/** Machine integers and byte strings shared by the components. */
module Bytes {

  type byte = x: int | 0 <= x < 0x100
  type u16 = x: int | 0 <= x < 0x1_0000
  type u32 = x: int | 0 <= x < 0x1_0000_0000
  type u64 = x: int | 0 <= x < 0x1_0000_0000_0000_0000

  datatype Option<+T> = None | Some(value: T)

  /** `f` stands in `b` at `off`. */
  predicate StandsAt(b: seq<byte>, off: nat, f: seq<byte>) {
    off + |f| <= |b| && b[off..off + |f|] == f
  }

  lemma StandsAtParts(b: seq<byte>, off: nat, x: seq<byte>, y: seq<byte>)
    ensures StandsAt(b, off, x + y) <==> StandsAt(b, off, x) && StandsAt(b, off + |x|, y)
  {
    if off + |x + y| <= |b| {
      assert b[off..off + |x + y|] == b[off..off + |x|] + b[off + |x|..off + |x| + |y|];
      if b[off..off + |x + y|] == x + y {
        assert b[off..off + |x|] == (x + y)[..|x|] == x;
        assert b[off + |x|..off + |x| + |y|] == (x + y)[|x|..] == y;
      }
    }
  }

  function Word16(lo: byte, hi: byte): u16 { (lo as int) + 0x100 * (hi as int) }

  function Le16(n: nat): seq<byte> { [n % 0x100, n / 0x100 % 0x100] }

  /** The string with `d` stored at `at`. */
  function Patch(b: seq<byte>, at: nat, d: seq<byte>): (r: seq<byte>)
    requires at + |d| <= |b|
    ensures |r| == |b|
  {
    b[..at] + d + b[at + |d|..]
  }

  lemma Assoc<T>(x: seq<T>, y: seq<T>, z: seq<T>)
    ensures (x + y) + z == x + (y + z)
  {
  }

  lemma Middle<T>(x: seq<T>, y: seq<T>, z: seq<T>)
    ensures (x + y + z)[|x|..|x| + |y|] == y
  {
  }

  /** The place where the second part of a string stands. */
  lemma StandsSplit(b: seq<byte>, off: nat, x: seq<byte>, y: seq<byte>) returns (mid: nat)
    requires StandsAt(b, off, x + y)
    ensures mid == off + |x| && StandsAt(b, off, x) && StandsAt(b, mid, y)
  {
    StandsAtParts(b, off, x, y);
    mid := off + |x|;
  }
}
