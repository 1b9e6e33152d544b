/** Facts about concatenation that the verifier wants spelled out. */
module Seqs {

  lemma {:induction false} SliceSlice<T>(d: seq<T>, a: nat, b: nat, x: nat, y: nat)
    requires a <= b <= |d| && x <= y <= b - a
    ensures d[a..b][x..y] == d[a + x..a + y]
  {
    var l, r := d[a..b][x..y], d[a + x..a + y];
    assert |l| == |r|;
    forall i | 0 <= i < |l| ensures l[i] == r[i] {
      assert l[i] == d[a..b][x + i] == d[a + (x + i)];
    }
  }

  /** Slices agree where the sequences do. */
  lemma {:induction false} SliceEq<T>(d: seq<T>, e: seq<T>, a: nat, b: nat)
    requires a <= b <= |d| == |e| && forall i :: a <= i < b ==> e[i] == d[i]
    ensures e[a..b] == d[a..b]
  {
  }

  lemma {:induction false} Assoc<T>(a: seq<T>, b: seq<T>, c: seq<T>)
    ensures a + (b + c) == a + b + c
  {
  }

  lemma {:induction false} Assoc5<T>(a: seq<T>, b: seq<T>, c: seq<T>, d: seq<T>, e: seq<T>)
    ensures a + (b + c + d + e) == a + b + c + d + e
  {
    Assoc(a, b + c + d, e);
    Assoc(a, b + c, d);
    Assoc(a, b, c);
  }

  lemma {:induction false} Nest<T>(a: seq<T>, l: seq<T>, b: seq<T>, s: seq<T>, c: seq<T>, r: seq<T>, z: seq<T>)
    ensures a + (l + (b + s + c) + r) + z == (a + l + b) + s + (c + r + z)
  {
    Assoc(l, b + s, c);
    Assoc(l, b, s);
  }

  lemma {:induction false} ConsCut<T>(h: seq<T>, t: seq<T>, j: nat)
    requires j <= |t|
    ensures (h + t)[..|h| + j] == h + t[..j] && (h + t)[|h| + j..] == t[j..]
  {
  }
}
