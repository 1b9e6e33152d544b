/**
 The byte moves behind the edits: what a splice of the structure block and the stores that
 follow it leave in each block.
 */
module FdtMoves {
  import opened Bytes
  import opened FdtTokens
  import opened FdtTree
  import opened FdtBlob
  import opened FdtSplice

  /** `c` is `b` with `oldlen` bytes of the structure block at `x` replaced by `newlen` others. */
  ghost predicate Moved(b: Blob, c: Blob, x: nat, oldlen: nat, newlen: nat) {
    && b.Ordered() && c.Ordered() && x + oldlen <= b.sizeStruct
    && |c.data| == |b.data| && c.offRsv == b.offRsv && c.offStruct == b.offStruct && c.sizeStrings == b.sizeStrings
    && c.sizeStruct == b.sizeStruct + newlen - oldlen && c.offStrings == b.offStrings + newlen - oldlen
    && (forall i {:trigger c.data[i]} :: 0 <= i < b.offStruct + x ==> c.data[i] == b.data[i])
    && (forall i {:trigger b.data[i]} :: b.offStruct + x + oldlen <= i < b.DataSize() ==>
         c.data[i + newlen - oldlen] == b.data[i])
  }

  lemma {:induction false} MemmoveBytes(d: seq<byte>, dst: nat, src: nat, n: nat)
    requires dst + n <= |d| && src + n <= |d|
    ensures forall i :: 0 <= i < dst ==> Memmove(d, dst, src, n)[i] == d[i]
    ensures forall i {:trigger d[i]} :: src <= i < src + n ==> Memmove(d, dst, src, n)[i + dst - src] == d[i]
  {
    var e := Memmove(d, dst, src, n);
    forall i | src <= i < src + n ensures e[i + dst - src] == d[i] {
      assert d[src..src + n][i - src] == d[i];
    }
  }

  lemma {:induction false} MovedSplice(b: Blob, x: nat, oldlen: nat, newlen: nat)
    requires b.Ordered() && x + oldlen <= b.sizeStruct && SpliceStruct(b, x, oldlen, newlen).Ok?
    ensures Moved(b, SpliceStruct(b, x, oldlen, newlen).value, x, oldlen, newlen)
    ensures forall i ::
      0 <= i < b.offStruct + x + newlen ==> SpliceStruct(b, x, oldlen, newlen).value.data[i] == b.data[i]
  {
    hide Memmove;
    var p := b.offStruct + x;
    MemmoveBytes(b.data, p + newlen, p + oldlen, b.DataSize() - (p + oldlen));
  }

  lemma {:induction false} MovedCut(b: Blob, x: nat, oldlen: nat, newlen: nat)
    requires b.Ordered() && x + oldlen <= b.sizeStruct && SpliceStruct(b, x, oldlen, newlen).Ok?
    ensures Moved(b, SpliceStruct(b, x, oldlen, newlen).value, x, oldlen, newlen)
  {
    hide Moved, SpliceStruct;
    MovedSplice(b, x, oldlen, newlen);
  }

  lemma {:induction false} MovedWiden(b: Blob, c: Blob, x: nat, oldlen: nat, newlen: nat, y: nat)
    requires Moved(b, c, x, oldlen, newlen) && y <= x
    ensures Moved(b, c, y, x - y + oldlen, x - y + newlen)
  {
  }

  lemma {:induction false} MovedPoke(b: Blob, c: Blob, x: nat, oldlen: nat, newlen: nat, at: nat, v: seq<byte>)
    requires Moved(b, c, x, oldlen, newlen) && x <= at && at + |v| <= x + newlen
    ensures Moved(b, c.(data := Poke(c.data, c.offStruct + at, v)), x, oldlen, newlen)
  {
  }

  lemma {:induction false} PokeBytes(d: seq<byte>, at: nat, v: seq<byte>)
    requires at + |v| <= |d|
    ensures forall i :: 0 <= i < at ==> Poke(d, at, v)[i] == d[i]
    ensures forall i :: at + |v| <= i < |d| ==> Poke(d, at, v)[i] == d[i]
    ensures Poke(d, at, v)[at..at + |v|] == v
  {
  }

  lemma {:induction false} PokeTwice(d: seq<byte>, a: nat, u: seq<byte>, z: nat, v: seq<byte>)
    requires a + |u| <= z && z + |v| <= |d|
    ensures var e := Poke(Poke(d, a, u), z, v);
      && (forall i :: 0 <= i < a ==> e[i] == d[i]) && (forall i :: a + |u| <= i < z ==> e[i] == d[i])
      && e[a..a + |u|] == u && e[z..z + |v|] == v
  {
    var c := Poke(d, a, u);
    PokeBytes(d, a, u);
    PokeBytes(c, z, v);
    hide Poke;
    assert Poke(c, z, v)[a..a + |u|] == c[a..a + |u|];
  }

  lemma {:induction false} MovedBlocks(b: Blob, c: Blob, x: nat, oldlen: nat, newlen: nat)
    requires Moved(b, c, x, oldlen, newlen)
    ensures c.Struct() == Splice(b.Struct(), x, x + oldlen, c.Struct()[x..x + newlen])
    ensures c.Strings() == b.Strings()
    ensures c.data[..c.offStruct] == b.data[..b.offStruct]
  {
    var s, t := b.Struct(), c.Struct();
    StructMoved(b, c, x, oldlen, newlen);
    forall i | 0 <= i < |b.Strings()| ensures c.Strings()[i] == b.Strings()[i] {
      assert b.data[b.offStrings + i] == c.data[b.offStrings + i + newlen - oldlen];
    }
  }

  lemma {:induction false} StructMoved(b: Blob, c: Blob, x: nat, oldlen: nat, newlen: nat)
    requires Moved(b, c, x, oldlen, newlen)
    ensures c.Struct() == Splice(b.Struct(), x, x + oldlen, c.Struct()[x..x + newlen])
  {
    var s, t := b.Struct(), c.Struct();
    var r := Splice(s, x, x + oldlen, t[x..x + newlen]);
    forall i | x + newlen <= i < |t| ensures t[i] == r[i] {
      var k := b.offStruct + i - newlen + oldlen;
      assert c.data[k + newlen - oldlen] == b.data[k];
    }
    assert t == r;
  }

  // ---------- Names ----------

  lemma {:induction false} GetStringOf(tab: seq<byte>, off: nat, name: seq<byte>)
    requires off + |name| + 1 <= |tab| < 0x8000_0000 && IsCString(name)
    requires tab[off..off + |name| + 1] == name + [0]
    ensures GetString(tab, off) == Ok(name)
  {
    var w := tab[off..off + |name| + 1];
    assert w[|name|] == 0 && tab[off + |name|] == w[|name|];
    forall k | off <= k < off + |name| ensures tab[k] != 0 {
      assert w[k - off] == name[k - off];
    }
    assert Nul(tab, off) == off + |name|;
    assert w[..|name|] == name;
    assert tab[off..off + |name|] == w[..|name|];
  }

  /** fdt_find_string_ is complete: a name is reported absent only if it is nowhere in the table. */
  lemma {:induction false} FindStringComplete(tab: seq<byte>, name: seq<byte>, from: nat, p: nat)
    requires from <= p && p + |name| + 1 <= |tab| && tab[p..p + |name| + 1] == name + [0]
    ensures FindString(tab, name, from).Ok? && FindString(tab, name, from).value <= p
    decreases p - from
  {
    if from < p { FindStringComplete(tab, name, from + 1, p); }
  }

  /** The strings after fdt_find_add_string_: the old ones, perhaps with the name behind them. */
  function Added(tab: seq<byte>, name: seq<byte>): (more: seq<byte>) {
    if FindString(tab, name, 0).Ok? then [] else name + [0]
  }

  lemma {:induction false} FindAddBlocks(b: Blob, name: seq<byte>)
    requires b.Ordered() && IsCString(name)
    ensures var f := FindAddString(b, name); var more := Added(b.Strings(), name);
      && (f.r.Err? <==> b.DataSize() + |more| > |b.data|)
      && (f.r.Err? ==> f.r.error == NoSpace)
      && (f.r.Ok? ==> var c := f.blob;
           && c.Ordered() && c == b.(data := c.data, sizeStrings := b.sizeStrings + |more|) && |c.data| == |b.data|
           && (forall i :: 0 <= i < b.DataSize() ==> c.data[i] == b.data[i])
           && c.Struct() == b.Struct() && c.Strings() == b.Strings() + more
           && GetString(c.Strings(), f.r.value.0) == Ok(name) && f.r.value.1 == (more != []))
  {
    hide FindString, GetString, Poke;
    var f := FindAddString(b, name);
    var tab := b.Strings();
    if f.r.Ok? {
      var c := f.blob;
      if FindString(tab, name, 0).Ok? {
        assert tab + [] == tab;
        GetStringOf(tab, f.r.value.0, name);
      } else {
        FreshName(b, name);
      }
    }
  }

  lemma {:induction false} FreshName(b: Blob, name: seq<byte>)
    requires b.Ordered() && IsCString(name) && b.DataSize() + |name| + 1 <= |b.data|
    ensures var c := b.(data := Poke(b.data, b.DataSize(), name + [0]), sizeStrings := b.sizeStrings + |name| + 1);
      && c.Ordered() && (forall i :: 0 <= i < b.DataSize() ==> c.data[i] == b.data[i])
      && c.Struct() == b.Struct() && c.Strings() == b.Strings() + (name + [0])
      && GetString(c.Strings(), b.sizeStrings) == Ok(name)
  {
    var c := b.(data := Poke(b.data, b.DataSize(), name + [0]), sizeStrings := b.sizeStrings + |name| + 1);
    PokeBytes(b.data, b.DataSize(), name + [0]);
    assert c.Struct() == b.Struct();
    assert c.data[b.DataSize()..b.DataSize() + |name| + 1] == name + [0];
    assert c.Strings() == b.Strings() + (name + [0]);
    GetStringOf(c.Strings(), b.sizeStrings, name);
  }
}
