/**
 Bytes, big-endian words and C strings, as the flattened device tree stores them.
 */
module Bytes {

  type byte = b: int | 0 <= b < 256
  type u32 = x: int | 0 <= x < 0x1_0000_0000

  /** FDT_TAGALIGN: round up to a multiple of four. */
  function Align4(n: nat): (r: nat)
    ensures n <= r < n + 4 && r % 4 == 0
    ensures n % 4 == 0 ==> r == n
  {
    (n + 3) / 4 * 4
  }

  lemma {:induction false} Align4Shift(n: nat, d: int)
    requires d % 4 == 0 && 0 <= n + d
    ensures Align4(n + d) == Align4(n) + d
  {
  }

  function Be32(x: u32): (s: seq<byte>)
    ensures |s| == 4
  {
    [x / 0x100_0000, x / 0x1_0000 % 256, x / 0x100 % 256, x % 256]
  }

  function Word(s: seq<byte>, o: nat): (x: u32)
    requires o + 4 <= |s|
  {
    s[o] as int * 0x100_0000 + s[o + 1] as int * 0x1_0000 + s[o + 2] as int * 0x100 + s[o + 3] as int
  }

  lemma {:induction false} Digits(x: u32)
    ensures x / 0x100_0000 * 0x100_0000 + x / 0x1_0000 % 256 * 0x1_0000 + x / 0x100 % 256 * 0x100 + x % 256 == x
  {
    var y := x / 256;
    var z := y / 256;
    assert x / 0x1_0000 == z && x / 0x100_0000 == z / 256;
  }

  /** Reading a word back where it was stored. */
  lemma {:induction false} WordOfBe32(s: seq<byte>, o: nat, x: u32)
    requires o + 4 <= |s| && s[o..o + 4] == Be32(x)
    ensures Word(s, o) == x
  {
    var w := s[o..o + 4];
    assert s[o] == w[0] && s[o + 1] == w[1] && s[o + 2] == w[2] && s[o + 3] == w[3];
    Digits(x);
  }

  function Le32(x: u32): (s: seq<byte>)
    ensures |s| == 4
  {
    [x % 256, x / 0x100 % 256, x / 0x1_0000 % 256, x / 0x100_0000]
  }

  function LeWord(s: seq<byte>, o: nat): (x: u32)
    requires o + 4 <= |s|
  {
    s[o] as int + s[o + 1] as int * 0x100 + s[o + 2] as int * 0x1_0000 + s[o + 3] as int * 0x100_0000
  }

  lemma {:induction false} LeWordOfLe32(s: seq<byte>, o: nat, x: u32)
    requires o + 4 <= |s| && s[o..o + 4] == Le32(x)
    ensures LeWord(s, o) == x
  {
    var w := s[o..o + 4];
    assert s[o] == w[0] && s[o + 1] == w[1] && s[o + 2] == w[2] && s[o + 3] == w[3];
    Digits(x);
  }

  predicate IsCString(s: seq<byte>) {
    forall i :: 0 <= i < |s| ==> s[i] != 0
  }

  /** Index of the first NUL at or after `i`, or the length when there is none. */
  function Nul(s: seq<byte>, i: nat): (z: nat)
    requires i <= |s|
    ensures i <= z <= |s|
    ensures forall k :: i <= k < z ==> s[k] != 0
    ensures z < |s| ==> s[z] == 0
    decreases |s| - i
  {
    if i == |s| || s[i] == 0 then i else Nul(s, i + 1)
  }

  /** Arithmetic in 32 bits. */
  function Wrap(x: int): u32 { x % 0x1_0000_0000 }

  lemma {:induction false} WrapSmall(x: int)
    requires 0 <= x < 0x1_0000_0000
    ensures Wrap(x) == x
  {
  }

  /** `d` with `v` stored at `at`. */
  function Poke(d: seq<byte>, at: nat, v: seq<byte>): (r: seq<byte>)
    requires at + |v| <= |d|
    ensures |r| == |d|
  {
    d[..at] + v + d[at + |v|..]
  }

  /** A store inside a window of a larger buffer. */
  lemma {:induction false} PokeWindow(d: seq<byte>, base: nat, total: nat, at: nat, v: seq<byte>)
    requires base + total <= |d| && at + |v| <= total
    ensures Poke(d, base + at, v)[base..base + total] == Poke(d[base..base + total], at, v)
  {
  }

  function Memmove(d: seq<byte>, dst: nat, src: nat, n: nat): (r: seq<byte>)
    requires dst + n <= |d| && src + n <= |d|
    ensures |r| == |d|
  {
    d[..dst] + d[src..src + n] + d[dst + n..]
  }
}
