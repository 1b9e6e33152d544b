/**
 Renumbering an overlay's phandles so that they cannot meet the base tree's
 (libfdt/fdt_overlay.c): every phandle property is raised by the largest base phandle.
 */
module FdtPhandle {
  import opened Bytes
  import opened FdtTokens
  import opened FdtTree
  import opened FdtRead
  import opened FdtNode
  import opened FdtBlob
  import opened FdtEdit
  import opened FdtOverlay
  import opened FdtInplace

  /** "phandle" and "linux,phandle". */
  const PHANDLE: seq<byte> := [0x70, 0x68, 0x61, 0x6e, 0x64, 0x6c, 0x65]
  const LINUX_PHANDLE: seq<byte> := [0x6c, 0x69, 0x6e, 0x75, 0x78, 0x2c, 0x70, 0x68, 0x61, 0x6e, 0x64, 0x6c, 0x65]

  // ---------- The code ----------

  /** overlay_phandle_add_offset. */
  function AddOffset(b: Blob, node: nat, name: seq<byte>, delta: u32): (r: Out<()>)
    requires b.Ordered()
    ensures r.blob.Ordered() && r.blob.sizeStruct == b.sizeStruct
  {
    var f := FindProp(b.Struct(), b.Strings(), node, name);
    if f.Err? then Out(Err(f.error), b)
    else
      var adj := Raised(b, f.value, delta);
      if adj.Err? then Out(Err(adj.error), b) else SetInplace(b, node, name, 0, Be32(adj.value))
  }

  /** The raised value of the phandle property at `x`. */
  function Raised(b: Blob, x: nat, delta: u32): (r: Result<u32>)
    requires b.Ordered() && Fits(b, x)
  {
    if Word(b.Struct(), x + 4) != 4 then Err(BadPhandle)
    else
      var val := Word(b.Struct(), x + 12);
      var adj := Wrap(val + delta);
      if adj < val || adj == 0xFFFF_FFFF then Err(NoPhandles) else Ok(adj)
  }

  /** overlay_adjust_node_phandles. */
  function AdjustNode(b: Blob, node: nat, delta: u32): (r: Out<()>)
    requires b.Ordered()
    ensures r.blob.Ordered() && r.blob.sizeStruct == b.sizeStruct
    decreases if node < b.sizeStruct then b.sizeStruct - node else 0, 0
  {
    var c := AddOffset(b, node, PHANDLE, delta);
    if c.r.Err? && c.r.error != NotFound then c
    else
      var d := AddOffset(c.blob, node, LINUX_PHANDLE, delta);
      if d.r.Err? && d.r.error != NotFound then d
      else AdjustKids(d.blob, FirstSubnode(d.blob.Struct(), node), delta)
  }

  function AdjustKids(b: Blob, at: Result<nat>, delta: u32): (r: Out<()>)
    requires b.Ordered()
    ensures r.blob.Ordered() && r.blob.sizeStruct == b.sizeStruct
    decreases if at.Ok? && at.value < b.sizeStruct then b.sizeStruct - at.value else 0, 1
  {
    if at.Err? then Out(Ok(()), b)
    else
      var c := AdjustNode(b, at.value, delta);
      if c.r.Err? then c else AdjustKids(c.blob, NextSubnode(c.blob.Struct(), at.value), delta)
  }

  // ---------- The same on trees ----------

  /** One phandle property raised; no property of that name is no error here. */
  function Bump(n: Tree, name: seq<byte>, delta: u32): (r: Result<Tree>) {
    var k := FirstProp(n.props, name);
    if k == |n.props| then Ok(n)
    else
      var v := n.props[k].value;
      if |v| != 4 then Err(BadPhandle)
      else if Word(v, 0) + delta >= 0xFFFF_FFFF then Err(NoPhandles)
      else Ok(Patched(n, k, Be32(Word(v, 0) + delta)))
  }

  function BumpBoth(n: Tree, delta: u32): (r: Result<Tree>) {
    var m := Bump(n, PHANDLE, delta);
    if m.Err? then m else Bump(m.value, LINUX_PHANDLE, delta)
  }

  function Adjust(n: Tree, delta: u32): (r: Result<Tree>)
    decreases n
  {
    var m := BumpBoth(n, delta);
    var ks := AdjustAll(n.kids, delta);
    if m.Err? then m else if ks.Err? then Err(ks.error) else Ok(m.value.(kids := ks.value))
  }

  function AdjustAll(ks: seq<Tree>, delta: u32): (r: Result<seq<Tree>>)
    ensures r.Ok? ==> |r.value| == |ks|
    decreases ks
  {
    if ks == [] then Ok([])
    else
      var m := Adjust(ks[0], delta);
      if m.Err? then Err(m.error)
      else
        var ms := AdjustAll(ks[1..], delta);
        if ms.Err? then ms else Ok([m.value] + ms.value)
  }

  // ---------- The loops refine it ----------

  lemma {:induction false} PropWord(s: seq<byte>, x: nat, v: seq<byte>)
    requires x + 4 <= |s| && s[x..x + 4] == v
    ensures Word(s, x) == Word(v, 0)
  {
    assert v[0] == s[x] && v[1] == s[x + 1] && v[2] == s[x + 2] && v[3] == s[x + 3];
  }

  /** Raising a 32-bit number wraps exactly when the sum is too large. */
  lemma {:induction false} RaiseExact(v: u32, delta: u32)
    ensures (Wrap(v + delta) < v || Wrap(v + delta) == 0xFFFF_FFFF) <==> v + delta >= 0xFFFF_FFFF
    ensures v + delta < 0xFFFF_FFFF ==> Wrap(v + delta) == v + delta
  {
  }

  lemma {:induction false} AddOffsetCorrect(b: Blob, t: Tree, p: seq<nat>, name: seq<byte>, delta: u32)
    requires Decoded(b, t) && IsPath(t, p)
    ensures var n := Sub(t, p); var r := AddOffset(b, Offset(b, t, p), name, delta); var m := Bump(n, name, delta);
      && (m.Err? ==> r.r == Err(m.error) && m.error != NotFound)
      && (m.Ok? ==> (r.r.Ok? || r.r == Err(NotFound)) && Inplace(b, t, r.blob, Put(t, p, m.value)))
  {
    hide NextTag, SymOffset, Before, Sub, IsPath, Put, Decodes, Inplace, Word, Poke, PropOffset, FindProp, NodeOffset,
      SetInplace, Be32, Wrap;
    FindPropAt(b.Struct(), b.Strings(), t, p, name);
    var n := Sub(t, p);
    var k := FirstProp(n.props, name);
    if k == |n.props| {
      PutSelf(t, p);
      InplaceSelf(b, t);
    } else {
      var v := n.props[k].value;
      assert |Poke(v, 0, [])| == |v|;
      InplaceValue(b, t, p, k, 0, []);
      if |v| == 4 {
        PropWord(b.Struct(), PropOffset(b.Struct(), t, p, k) + 12, v);
        RaiseExact(Word(v, 0), delta);
        var adj := Be32(Wrap(Word(v, 0) + delta));
        WrapSmall(4);
        SetInplaceCorrect(b, t, p, name, 0, adj);
        assert Poke(v, 0, adj) == adj by { PokeAll(v, adj); }
      }
    }
  }

  lemma {:induction false} PokeAll(v: seq<byte>, w: seq<byte>)
    requires |w| == |v|
    ensures Poke(v, 0, w) == w
  {
  }

  lemma {:induction false} InplacePut(b: Blob, t: Tree, p: seq<nat>, c: Blob, n: Tree)
    requires Decoded(b, t) && IsPath(t, p) && Inplace(b, t, c, Put(t, p, n))
    ensures var u := Put(t, p, n); Decoded(c, u) && IsPath(u, p) && Sub(u, p) == n && Offset(c, u, p) == Offset(b, t, p)
    ensures |Flat(n)| == |Flat(Sub(t, p))|
  {
    hide Put, Sub, IsPath, Before, NodeOffset, Decodes, SameShape, LikeAll, Flat;
    PutFrame(t, p, n);
    InplaceOffset(b, t, c, Put(t, p, n), p);
    ShapeSize(Sub(t, p), n);
  }

  lemma {:induction false} InplaceThen(b: Blob, t: Tree, p: seq<nat>, c: Blob, n: Tree, d: Blob, m: Tree)
    requires Decoded(b, t) && IsPath(t, p) && Inplace(b, t, c, Put(t, p, n)) && IsPath(Put(t, p, n), p)
    requires Inplace(c, Put(t, p, n), d, Put(Put(t, p, n), p, m))
    ensures Inplace(b, t, d, Put(t, p, m))
  {
    hide Put, Sub, IsPath, Inplace, Decodes;
    PutPut(t, p, n, m);
    InplaceTrans(b, t, c, Put(t, p, n), d, Put(t, p, m));
  }

  lemma {:induction false} BumpBothCorrect(b: Blob, t: Tree, p: seq<nat>, delta: u32)
    requires Decoded(b, t) && IsPath(t, p)
    ensures var o := Offset(b, t, p); var c := AddOffset(b, o, PHANDLE, delta);
      var d := AddOffset(c.blob, o, LINUX_PHANDLE, delta);
      var m := BumpBoth(Sub(t, p), delta);
      if c.r.Err? && c.r.error != NotFound then m == Err(c.r.error)
      else if d.r.Err? && d.r.error != NotFound then m == Err(d.r.error)
      else m.Ok? && Inplace(b, t, d.blob, Put(t, p, m.value))
  {
    hide Put, Sub, IsPath, Inplace, Decodes, Before, NodeOffset, AddOffset, Bump;
    AddOffsetCorrect(b, t, p, PHANDLE, delta);
    var m := Bump(Sub(t, p), PHANDLE, delta);
    if m.Ok? {
      var c := AddOffset(b, Offset(b, t, p), PHANDLE, delta).blob;
      InplacePut(b, t, p, c, m.value);
      var u := Put(t, p, m.value);
      AddOffsetCorrect(c, u, p, LINUX_PHANDLE, delta);
      var l := Bump(m.value, LINUX_PHANDLE, delta);
      if l.Ok? {
        InplaceThen(b, t, p, c, m.value, AddOffset(c, Offset(b, t, p), LINUX_PHANDLE, delta).blob, l.value);
      }
    }
  }

  /** overlay_adjust_node_phandles raises every phandle below the node, in place, or reports why it cannot. */
  lemma {:induction false} AdjustNodeCorrect(b: Blob, t: Tree, p: seq<nat>, delta: u32)
    requires Decoded(b, t) && IsPath(t, p)
    ensures var r := AdjustNode(b, Offset(b, t, p), delta); var m := Adjust(Sub(t, p), delta);
      && (m.Err? ==> r.r == Err(m.error)) && (m.Ok? ==> r.r.Ok? && Inplace(b, t, r.blob, Put(t, p, m.value)))
    decreases |Flat(Sub(t, p))|, 1
  {
    hide Put, Sub, IsPath, Inplace, Decodes, Before, NodeOffset, AddOffset, BumpBoth, AdjustKids, AdjustAll, KidAt,
      Flat;
    BumpBothCorrect(b, t, p, delta);
    var n := Sub(t, p);
    var m := BumpBoth(n, delta);
    if m.Ok? {
      BumpKids(n, delta);
      var d := AddOffset(AddOffset(b, Offset(b, t, p), PHANDLE, delta).blob, Offset(b, t, p), LINUX_PHANDLE,
        delta).blob;
      InplacePut(b, t, p, d, m.value);
      var u := Put(t, p, m.value);
      FirstAt(d.Struct(), d.Strings(), u, p);
      AdjustKidsCorrect(d, u, p, 0, delta);
      assert m.value.kids[0..] == n.kids && m.value.kids[..0] == [];
      var ks := AdjustAll(n.kids, delta);
      if ks.Ok? {
        assert [] + ks.value == ks.value;
        InplaceThen(b, t, p, d, m.value, AdjustKids(d, FirstSubnode(d.Struct(), Offset(b, t, p)), delta).blob,
          m.value.(kids := ks.value));
      }
    }
  }

  lemma {:induction false} KidSmaller(n: Tree, k: nat)
    requires k < |n.kids|
    ensures |Flat(n.kids[k])| < |Flat(n)|
  {
    FlatAllPick(n.kids, k);
  }

  lemma {:induction false} BumpKids(n: Tree, delta: u32)
    requires BumpBoth(n, delta).Ok?
    ensures BumpBoth(n, delta).value.kids == n.kids
  {
    hide Word, Be32;
  }

  lemma {:induction false} AdjustKidsCorrect(b: Blob, t: Tree, p: seq<nat>, k: nat, delta: u32)
    requires Decoded(b, t) && IsPath(t, p) && k <= |Sub(t, p).kids|
    ensures var n := Sub(t, p); var r := AdjustKids(b, KidAt(b.Struct(), t, p, k), delta);
      var m := AdjustAll(n.kids[k..], delta);
      && (m.Err? ==> r.r == Err(m.error))
           && (m.Ok? ==> r.r.Ok? && Inplace(b, t, r.blob, Put(t, p, n.(kids := n.kids[..k] + m.value))))
    decreases |Flat(Sub(t, p))|, 0, |Sub(t, p).kids| - k
  {
    hide Put, Sub, IsPath, Inplace, Decodes, Before, NodeOffset, AdjustNode, Adjust, NextSubnode, Flat;
    var n := Sub(t, p);
    if k == |n.kids| {
      PutSelf(t, p);
      InplaceSelf(b, t);
      assert n.kids[k..] == [] && n.kids[..k] + [] == n.kids;
      assert n.(kids := n.kids) == n;
    } else {
      BeforeKidPath(t, p, k);
      KidSmaller(n, k);
      AdjustNodeCorrect(b, t, p + [k], delta);
      assert n.kids[k..][0] == n.kids[k] && n.kids[k..][1..] == n.kids[k + 1..];
      var m := Adjust(n.kids[k], delta);
      if m.Ok? {
        var c := AdjustNode(b, Offset(b, t, p + [k]), delta).blob;
        AdjustRest(b, t, p, k, delta, c, m.value);
      }
    }
  }

  lemma {:induction false} AdjustRest(b: Blob, t: Tree, p: seq<nat>, k: nat, delta: u32, c: Blob, m: Tree)
    requires Decoded(b, t) && IsPath(t, p) && k < |Sub(t, p).kids| && IsPath(t, p + [k])
      && Inplace(b, t, c, Put(t, p + [k], m))
    ensures c.Ordered()
    ensures var n := Sub(t, p); var r := AdjustKids(c, NextSubnode(c.Struct(), Offset(b, t, p + [k])), delta);
      var ms := AdjustAll(n.kids[k + 1..], delta);
      && (ms.Err? ==> r.r == Err(ms.error))
           && (ms.Ok? ==> r.r.Ok? && Inplace(b, t, r.blob, Put(t, p, n.(kids := n.kids[..k] + ([m] + ms.value)))))
    decreases |Flat(Sub(t, p))|, 0, |Sub(t, p).kids| - k, 0
  {
    hide Put, Sub, IsPath, Inplace, Decodes, Before, NodeOffset, AdjustKids, NextSubnode, KidAt, AdjustAll, Flat;
    var n := Sub(t, p);
    var n1 := n.(kids := n.kids[k := m]);
    PutKid(t, p, k, m);
    InplacePut(b, t, p, c, n1);
    var u := Put(t, p, n1);
    assert c.Ordered();
    InplaceOffset(b, t, c, u, p + [k]);
    NextAtKid(c.Struct(), c.Strings(), u, p, k);
    AdjustKidsCorrect(c, u, p, k + 1, delta);
    assert n1.kids[k + 1..] == n.kids[k + 1..] && n1.kids[..k + 1] == n.kids[..k] + [m];
    var ms := AdjustAll(n.kids[k + 1..], delta);
    if ms.Ok? {
      assert n.kids[..k] + [m] + ms.value == n.kids[..k] + ([m] + ms.value);
      InplaceThen(b, t, p, c, n1, AdjustKids(c, NextSubnode(c.Struct(), Offset(b, t, p + [k])), delta).blob,
        n1.(kids := n.kids[..k] + ([m] + ms.value)));
    }
  }
}
