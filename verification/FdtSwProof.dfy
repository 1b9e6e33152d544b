/**
 What a run of the sequential writer leaves behind, before and after fdt_finish.
 */
module FdtSwProof {
  import opened Bytes
  import opened Seqs
  import opened FdtTokens
  import opened FdtTree
  import opened FdtBlob
  import opened FdtMoves
  import opened FdtSw

  /** Name offsets counted from the end of a table of `n` bytes, turned round. */
  function Fixed(ts: seq<Token>, n: nat): (r: seq<Token>)
    ensures |r| == |ts|
  {
    seq(|ts|, i requires 0 <= i < |ts| => if ts[i].Prop? then Prop(Wrap(ts[i].nameoff + n), ts[i].value) else ts[i])
  }

  ghost predicate NamesInside(ts: seq<Token>, n: nat) {
    forall i :: 0 <= i < |ts| && ts[i].Prop? ==> ts[i].nameoff + n >= 0x1_0000_0000
  }

  /** The tokens `ts` are what the structure block holds. */
  ghost predicate Holds(w: Writer, ts: seq<Token>) {
    && w.Apart() && w.phase == Structure
    && Walk(w.Struct(), 0, ts, w.sizeStruct) && NamesInside(ts, w.sizeStrings)
  }

  /** What a reader will make of them. */
  ghost function Written(w: Writer, ts: seq<Token>): seq<Sym>
    requires w.Apart()
  {
    Syms(w.Strings(), Fixed(ts, w.sizeStrings))
  }

  // ---------- Growing the blocks ----------

  lemma {:induction false} GrabBlocks(w: Writer, len: nat, v: seq<byte>)
    requires w.Apart() && w.phase == Structure && |v| <= len && len % 4 == 0 && Grab(w, len, v).r.Ok?
    ensures var c := Grab(w, len, v).w;
      && c.sizeStruct == w.sizeStruct + len && c.sizeStrings == w.sizeStrings && c.Strings() == w.Strings()
      && c.Struct()[..w.sizeStruct] == w.Struct() && c.Struct()[w.sizeStruct..w.sizeStruct + |v|] == v
      && c.data[..c.offStruct] == w.data[..w.offStruct] && c.offStruct == w.offStruct && c.dedup == w.dedup
  {
    hide Poke;
    PokeBytes(w.data, w.Top(), v);
    PokedSlices(w.data, Grab(w, len, v).w.data, w.offStruct, w.Top(), v, len, |w.data| - w.sizeStrings);
  }

  /** What a store between two blocks leaves of them. */
  lemma {:induction false} PokedSlices(d: seq<byte>, e: seq<byte>, off: nat, top: nat, v: seq<byte>, len: nat, tab: nat)
    requires off <= top && |v| <= len && top + len <= tab <= |d| == |e|
    requires forall i :: 0 <= i < top ==> e[i] == d[i]
    requires forall i :: top + |v| <= i < |d| ==> e[i] == d[i]
    requires e[top..top + |v|] == v
    ensures e[off..top + len][..top - off] == d[off..top] && e[off..top + len][top - off..top - off + |v|] == v
    ensures e[..off] == d[..off] && e[tab..] == d[tab..]
  {
    SliceSlice(e, off, top + len, top - off, top - off + |v|);
    SliceSlice(e, off, top + len, 0, top - off);
    SliceEq(d, e, off, top);
    SliceEq(d, e, tab, |d|);
    SliceEq(d, e, 0, off);
  }

  lemma {:induction false} WalkExtend(s: seq<byte>, ts: seq<Token>, g: seq<byte>, t: Token)
    requires Walk(s, 0, ts, |s|) && |s| % 4 == 0 && Walk(g, 0, [t], |g|)
    ensures Walk(s + g, 0, ts + [t], |s| + |g|)
  {
    hide Walk;
    var r := s + g;
    assert Agree(s, 0, |s|, r, 0);
    assert forall i {:trigger g[i]} :: 0 <= i < |g| ==> r[i + |s|] == g[i];
    WalkLocal(s, 0, ts, |s|, r, 0);
    WalkLocal(g, 0, [t], |g|, r, |s|);
    WalkAppend(r, 0, ts, |s|, [t], |s| + |g|);
  }

  /** One more token. */
  lemma {:induction false} GrabHolds(w: Writer, ts: seq<Token>, len: nat, v: seq<byte>, t: Token)
    requires Holds(w, ts) && |v| <= len && len % 4 == 0 && Grab(w, len, v).r.Ok?
    requires t.Prop? ==> t.nameoff + w.sizeStrings >= 0x1_0000_0000
    requires forall g: seq<byte> | |g| == len && g[..|v|] == v :: Walk(g, 0, [t], |g|)
    ensures var c := Grab(w, len, v).w;
      Holds(c, ts + [t]) && Written(c, ts + [t]) == Written(w, ts) + Syms(w.Strings(), Fixed([t], w.sizeStrings))
  {
    hide Walk, Grab;
    var c := Grab(w, len, v).w;
    GrabBlocks(w, len, v);
    var g := c.Struct()[w.sizeStruct..];
    assert g[..|v|] == v;
    WalkExtend(w.Struct(), ts, g, t);
    assert c.Struct() == w.Struct() + g;
    FixedAppend(ts, [t], w.sizeStrings);
    SymsAppend(w.Strings(), Fixed(ts, w.sizeStrings), Fixed([t], w.sizeStrings));
  }

  lemma {:induction false} FixedAppend(ts: seq<Token>, us: seq<Token>, n: nat)
    ensures Fixed(ts + us, n) == Fixed(ts, n) + Fixed(us, n)
  {
  }

  // ---------- Names ----------

  lemma {:induction false} PrependAgrees(front: seq<byte>, tab: seq<byte>, a: nat, b: nat)
    requires a <= b <= |tab|
    ensures Agree(tab, a, b, front + tab, |front|)
  {
  }

  lemma {:induction false} PrependNoNul(front: seq<byte>, tab: seq<byte>, off: nat)
    requires off <= |tab| && Nul(tab, off) == |tab|
    ensures Nul(front + tab, off + |front|) == |front + tab|
  {
    var all := front + tab;
    forall k | off + |front| <= k < |all| ensures all[k] != 0 {
      assert all[k] == tab[k - |front|];
    }
  }

  lemma {:induction false} GetStringPrepend(tab: seq<byte>, front: seq<byte>, off: nat)
    requires off < |tab| && |front| + |tab| < 0x8000_0000
    ensures GetString(front + tab, off + |front|) == GetString(tab, off)
  {
    var all, d := front + tab, |front|;
    var z := Nul(tab, off);
    hide Nul;
    if z < |tab| {
      PrependAgrees(front, tab, off, z + 1);
      AgreeNul(tab, off, all, d);
      assert all[off + d..z + d] == tab[off..z];
    } else {
      PrependNoNul(front, tab, off);
    }
  }

  /** Names keep their meaning while the table grows in front of them. */
  lemma {:induction false} WrittenStable(tab: seq<byte>, front: seq<byte>, ts: seq<Token>)
    requires NamesInside(ts, |tab|) && |front| + |tab| < 0x8000_0000
    ensures Syms(front + tab, Fixed(ts, |front| + |tab|)) == Syms(tab, Fixed(ts, |tab|))
    decreases |ts|
  {
    hide GetString;
    if ts != [] {
      assert Fixed(ts, |tab|)[1..] == Fixed(ts[1..], |tab|);
      assert Fixed(ts, |front| + |tab|)[1..] == Fixed(ts[1..], |front| + |tab|);
      WrittenStable(tab, front, ts[1..]);
      if ts[0].Prop? {
        var j := ts[0].nameoff + |tab| - 0x1_0000_0000;
        assert Wrap(ts[0].nameoff + |tab|) == j && Wrap(ts[0].nameoff + |front| + |tab|) == j + |front|;
        GetStringPrepend(tab, front, j);
      }
    }
  }

  /** The table after the name is looked up or added: it stands `k` bytes before the end. */
  lemma {:induction false} NameOfBlocks(w: Writer, name: seq<byte>)
    requires w.Apart() && w.phase == Structure && |name| < INT32_MAX && IsCString(name)
    ensures var r := NameOf(w, name);
      && r.1.offStruct == w.offStruct && r.1.sizeStruct == w.sizeStruct && r.1.dedup == w.dedup
      && r.1.Struct() == w.Struct() && r.1.data[..w.offStruct] == w.data[..w.offStruct]
      && (r.0.Ok? ==> GetString(r.1.Strings(), r.1.sizeStrings - r.0.value) == Ok(name))
      && r.1.sizeStrings >= w.sizeStrings
      && r.1.Strings() == r.1.Strings()[..r.1.sizeStrings - w.sizeStrings] + w.Strings()
      && r.1.data[|w.data| - w.sizeStrings..] == w.data[|w.data| - w.sizeStrings..]
  {
    hide FindString, GetString, Poke;
    var r := NameOf(w, name);
    if r.1 != w {
      AddStringBlocks(w, name);
    } else {
      assert r.1.Strings()[..0] + w.Strings() == w.Strings();
      if r.0.Ok? { FoundName(w, name); }
    }
  }

  lemma {:induction false} AddStringIs(w: Writer, name: seq<byte>)
    requires w.Apart() && w.phase == Structure && |name| < INT32_MAX && AddString(w, name).r.Ok?
    ensures var offset := w.sizeStrings + |name| + 1;
      && offset <= |w.data| && w.Top() <= |w.data| - offset
      && AddString(w, name).w == w.(data := Poke(w.data, |w.data| - offset, name + [0]), sizeStrings := offset)
  {
    hide Poke;
    WrapSmall(|w.data| - (w.sizeStrings + |name| + 1));
  }

  lemma {:induction false} AddStringBlocks(w: Writer, name: seq<byte>)
    requires w.Apart() && w.phase == Structure && |name| < INT32_MAX && IsCString(name) && AddString(w, name).r.Ok?
    ensures var c := AddString(w, name).w;
      && c.Struct() == w.Struct() && c.data[..w.offStruct] == w.data[..w.offStruct]
      && GetString(c.Strings(), 0) == Ok(name)
      && c.Strings() == c.Strings()[..|name| + 1] + w.Strings()
      && c.data[|w.data| - w.sizeStrings..] == w.data[|w.data| - w.sizeStrings..]
  {
    hide GetString, Poke;
    AddStringIs(w, name);
    hide AddString;
    var c := AddString(w, name).w;
    var v := name + [0];
    PokeTail(w.data, w.sizeStrings, v, w.offStruct, w.Top());
    PokeTail(w.data, w.sizeStrings, v, 0, w.offStruct);
    assert c.Strings() == v + w.Strings();
    assert c.Strings()[..|name| + 1] == v;
    GetStringOf(c.Strings(), 0, name);
  }

  /** Bytes stored in front of the last `n`. */
  lemma {:induction false} PokeTail(d: seq<byte>, n: nat, v: seq<byte>, a: nat, b: nat)
    requires n + |v| <= |d| && a <= b <= |d| - n - |v|
    ensures var e := Poke(d, |d| - n - |v|, v);
      e[a..b] == d[a..b] && e[|d| - n - |v|..] == v + d[|d| - n..] && e[|d| - n..] == d[|d| - n..]
  {
    var at := |d| - n - |v|;
    PokeBytes(d, at, v);
    hide Poke;
    var e := Poke(d, at, v);
    SliceEq(d, e, a, b);
    SliceEq(d, e, |d| - n, |d|);
    assert e[at..] == e[at..at + |v|] + e[at + |v|..];
  }

  lemma {:induction false} FoundName(w: Writer, name: seq<byte>)
    requires w.Apart() && w.phase == Structure && |name| < INT32_MAX && IsCString(name)
    requires NameOf(w, name).0.Ok? && NameOf(w, name).1 == w
    ensures GetString(w.Strings(), w.sizeStrings - NameOf(w, name).0.value) == Ok(name)
  {
    hide GetString, Poke;
    var f := FindString(w.Strings(), name, 0);
    assert w.dedup && f.Ok?;
    GetStringOf(w.Strings(), f.value, name);
  }
}
