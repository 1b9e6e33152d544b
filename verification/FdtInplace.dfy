/**
 Overwriting part of a property's value in place (libfdt/fdt_wip.c): every token stays where it
 is, so every offset, before and behind, still denotes the same node.
 */
module FdtInplace {
  import opened Bytes
  import opened FdtTokens
  import opened FdtTree
  import opened FdtRead
  import opened FdtNode
  import opened FdtBlob
  import opened FdtSplice
  import opened FdtMoves
  import opened FdtEdit
  import opened FdtEditNode

  // ---------- Tokens of the same extent ----------

  predicate Like(t: Token, u: Token) {
    match t
    case Prop(off, v) => u.Prop? && u.nameoff == off && |u.value| == |v|
    case _ => u == t
  }

  predicate LikeAll(ts: seq<Token>, us: seq<Token>) {
    |ts| == |us| && forall i :: 0 <= i < |ts| ==> Like(ts[i], us[i])
  }

  lemma {:induction false} LikeNext(s: seq<byte>, r: seq<byte>, a: nat)
    requires NextTag(s, a).Tok? && NextTag(r, a).Tok? && Like(NextTag(s, a).token, NextTag(r, a).token)
    ensures NextTag(s, a).next == NextTag(r, a).next
  {
    var t, u := NextTag(s, a).token, NextTag(r, a).token;
    if t.Prop? {
      assert Word(s, a + 4) == |t.value| && Word(r, a + 4) == |u.value|;
    } else {
      SameNext(s, r, a);
    }
  }

  /** Blocks whose tokens have the same extents hold every symbol at the same offset. */
  lemma {:induction false} LikeOffsets(s: seq<byte>, r: seq<byte>, a: nat, k: nat)
    requires Scan(s, a).Ok? && Scan(r, a).Ok? && LikeAll(Scan(s, a).value, Scan(r, a).value)
    ensures SymOffset(s, a, k) == SymOffset(r, a, k)
    decreases if a < |s| then |s| - a else 0
  {
    hide NextTag;
    var x, y := NextTag(s, a), NextTag(r, a);
    var ts, us := Scan(s, a).value, Scan(r, a).value;
    if !x.token.End? {
      assert ts[0] == x.token && us[0] == y.token && Like(ts[0], us[0]);
      LikeNext(s, r, a);
      assert ts[1..] == Scan(s, x.next).value && us[1..] == Scan(r, y.next).value;
      assert LikeAll(ts[1..], us[1..]);
      LikeOffsets(s, r, x.next, if x.token.Nop? || k == 0 then k else k - 1);
    } else {
      assert ts == [] && us == [];
    }
  }

  lemma {:induction false} LikeRefl(ts: seq<Token>)
    ensures LikeAll(ts, ts)
  {
  }

  lemma {:induction false} LikeTrans(ts: seq<Token>, us: seq<Token>, vs: seq<Token>)
    requires LikeAll(ts, us) && LikeAll(us, vs)
    ensures LikeAll(ts, vs)
  {
    forall i | 0 <= i < |ts| ensures Like(ts[i], vs[i]) { assert Like(ts[i], us[i]) && Like(us[i], vs[i]); }
  }

  lemma {:induction false} LikeMid(pre: seq<Token>, t: Token, u: Token, post: seq<Token>)
    requires Like(t, u)
    ensures LikeAll(pre + [t] + post, pre + [u] + post)
  {
  }

  // ---------- Trees of the same shape ----------

  predicate SameShape(t: Tree, u: Tree)
    decreases t
  {
    && t.name == u.name && |t.props| == |u.props| && |t.kids| == |u.kids|
    && (forall i :: 0 <= i < |t.props| ==>
         t.props[i].name == u.props[i].name && |t.props[i].value| == |u.props[i].value|)
    && (forall i :: 0 <= i < |t.kids| ==> SameShape(t.kids[i], u.kids[i]))
  }

  lemma {:induction false} ShapeRefl(t: Tree)
    ensures SameShape(t, t)
    decreases t
  {
    forall i | 0 <= i < |t.kids| ensures SameShape(t.kids[i], t.kids[i]) { ShapeRefl(t.kids[i]); }
  }

  lemma {:induction false} ShapeTrans(t: Tree, u: Tree, v: Tree)
    requires SameShape(t, u) && SameShape(u, v)
    ensures SameShape(t, v)
    decreases t
  {
    forall i | 0 <= i < |t.kids| ensures SameShape(t.kids[i], v.kids[i]) {
      ShapeTrans(t.kids[i], u.kids[i], v.kids[i]);
    }
    forall i | 0 <= i < |t.props|
      ensures t.props[i].name == v.props[i].name && |t.props[i].value| == |v.props[i].value|
    {
      assert t.props[i].name == u.props[i].name;
    }
  }

  lemma {:induction false} ShapePut(t: Tree, p: seq<nat>, n: Tree)
    requires IsPath(t, p) && SameShape(Sub(t, p), n)
    ensures SameShape(t, Put(t, p, n))
    decreases |p|
  {
    if p != [] {
      var u := Put(t, p, n);
      ShapePut(t.kids[p[0]], p[1..], n);
      forall i | 0 <= i < |t.kids| ensures SameShape(t.kids[i], u.kids[i]) { if i != p[0] { ShapeRefl(t.kids[i]); } }
    }
  }

  lemma {:induction false} ShapeSize(t: Tree, u: Tree)
    requires SameShape(t, u)
    ensures |Flat(t)| == |Flat(u)|
    decreases t, 1
  {
    ShapeSizes(t.kids, u.kids);
  }

  lemma {:induction false} ShapeSizes(ks: seq<Tree>, ls: seq<Tree>)
    requires |ks| == |ls| && forall i :: 0 <= i < |ks| ==> SameShape(ks[i], ls[i])
    ensures |FlatAll(ks)| == |FlatAll(ls)|
    decreases ks, 0
  {
    hide Flat;
    if ks != [] {
      ShapeSize(ks[0], ls[0]);
      ShapeSizes(ks[1..], ls[1..]);
    }
  }

  /** The same paths lead to nodes of the same shape, at the same distance from the start. */
  lemma {:induction false} ShapePath(t: Tree, u: Tree, p: seq<nat>)
    requires SameShape(t, u) && IsPath(t, p)
    ensures IsPath(u, p) && SameShape(Sub(t, p), Sub(u, p)) && |Before(t, p)| == |Before(u, p)|
    decreases |p|
  {
    hide FlatAll;
    if p != [] {
      ShapeSizes(t.kids[..p[0]], u.kids[..p[0]]);
      ShapePath(t.kids[p[0]], u.kids[p[0]], p[1..]);
    }
  }

  // ---------- Edits in place ----------

  /** `c` is `b` with values overwritten: the same tokens, up to values of the same length. */
  ghost predicate Inplace(b: Blob, t: Tree, c: Blob, u: Tree) {
    && Decoded(b, t) && Decoded(c, u) && SameShape(t, u)
    && c == b.(data := c.data) && |c.data| == |b.data| && c.Strings() == b.Strings()
    && LikeAll(Scan(b.Struct(), 0).value, Scan(c.Struct(), 0).value)
  }

  lemma {:induction false} InplaceSelf(b: Blob, t: Tree)
    requires Decoded(b, t)
    ensures Inplace(b, t, b, t)
  {
    hide Decodes, SameShape, LikeAll;
    DecodedScan(b, t);
    ShapeRefl(t);
    LikeRefl(Scan(b.Struct(), 0).value);
  }

  lemma {:induction false} DecodedScan(b: Blob, t: Tree)
    requires Decoded(b, t)
    ensures Scan(b.Struct(), 0).Ok?
  {
    hide Scan, Flat, Syms;
  }

  lemma {:induction false} InplaceTrans(b: Blob, t: Tree, c: Blob, u: Tree, d: Blob, v: Tree)
    requires Inplace(b, t, c, u) && Inplace(c, u, d, v)
    ensures Inplace(b, t, d, v)
  {
    hide Decodes, SameShape, LikeAll;
    DecodedScan(b, t);
    DecodedScan(c, u);
    DecodedScan(d, v);
    ShapeTrans(t, u, v);
    LikeTrans(Scan(b.Struct(), 0).value, Scan(c.Struct(), 0).value, Scan(d.Struct(), 0).value);
  }

  /** Every node and every property keeps its offset. */
  lemma {:induction false} InplaceOffset(b: Blob, t: Tree, c: Blob, u: Tree, p: seq<nat>)
    requires Inplace(b, t, c, u) && IsPath(t, p)
    ensures IsPath(u, p) && Offset(c, u, p) == Offset(b, t, p) && SameShape(Sub(t, p), Sub(u, p))
  {
    hide Decodes, SameShape, LikeAll, SymOffset, Before, IsPath, Sub;
    DecodedScan(b, t);
    DecodedScan(c, u);
    ShapePath(t, u, p);
    LikeOffsets(b.Struct(), c.Struct(), 0, |Before(t, p)|);
  }

  lemma {:induction false} InplaceProp(b: Blob, t: Tree, c: Blob, u: Tree, p: seq<nat>, k: nat)
    requires Inplace(b, t, c, u) && IsPath(t, p) && IsPath(u, p)
    ensures PropOffset(c.Struct(), u, p, k) == PropOffset(b.Struct(), t, p, k)
  {
    hide Decodes, SameShape, LikeAll, SymOffset, Before, IsPath, Sub;
    DecodedScan(b, t);
    DecodedScan(c, u);
    ShapePath(t, u, p);
    LikeOffsets(b.Struct(), c.Struct(), 0, |Before(t, p)| + 1 + k);
  }

  /** The node with one value replaced. */
  function Patched(n: Tree, k: nat, v: seq<byte>): (r: Tree)
    requires k < |n.props|
  {
    n.(props := n.props[k := Property(n.props[k].name, v)])
  }

  lemma {:induction false} PatchedShape(n: Tree, k: nat, v: seq<byte>)
    requires k < |n.props| && |v| == |n.props[k].value|
    ensures SameShape(n, Patched(n, k, v))
  {
    forall i | 0 <= i < |n.kids| ensures SameShape(n.kids[i], n.kids[i]) { ShapeRefl(n.kids[i]); }
  }

  /** A property token with part of its value overwritten is a property token. */
  lemma {:induction false} PatchedWalk(s: seq<byte>, x: nat, off: u32, v: seq<byte>, idx: nat, val: seq<byte>)
    requires PropStands(s, x, off, v) && idx + |val| <= |v| < 0x8000_0000
    ensures var g := Poke(s, x + 12 + idx, val)[x..x + 12 + Align4(|v|)];
      Walk(g, 0, [Prop(off, Poke(v, idx, val))], |g|)
  {
    hide Align4, Walk;
    var r := Poke(s, x + 12 + idx, val);
    var g := r[x..x + 12 + Align4(|v|)];
    assert Word(g, 0) == Word(s, x) && Word(g, 4) == Word(s, x + 4) && Word(g, 8) == Word(s, x + 8);
    PokeWindow(s, x + 12, |v|, idx, val);
    assert g[12..12 + |v|] == r[x + 12..x + 12 + |v|];
    PropToken(g, off, Poke(v, idx, val));
  }

  lemma {:induction false} StructPoke(b: Blob, y: nat, val: seq<byte>)
    requires b.Ordered() && y + |val| <= b.sizeStruct
    ensures var c := b.(data := Poke(b.data, b.offStruct + y, val));
      c.Ordered() && c.Struct() == Poke(b.Struct(), y, val)
  {
    PokeWindow(b.data, b.offStruct, b.sizeStruct, y, val);
  }

  /** The tokens around a patched property. */
  lemma {:induction false} PatchedScan(s: seq<byte>, x: nat, end: nat, off: u32, v: seq<byte>, idx: nat, val: seq<byte>,
                                       pre: seq<Token>)
    requires PropStands(s, x, off, v) && idx + |val| <= |v| < 0x8000_0000 && end == x + 12 + Align4(|v|) && end % 4 == 0
    requires Walk(s, 0, pre, x) && Scan(s, end).Ok?
    ensures Scan(s, 0) == Ok(pre + [Prop(off, v)] + Scan(s, end).value)
    ensures Scan(Poke(s, x + 12 + idx, val), 0) == Ok(pre + [Prop(off, Poke(v, idx, val))] + Scan(s, end).value)
  {
    hide Walk, Scan, Align4, PropStands, Word;
    assert x <= end <= |s| && (end - x) % 4 == 0 by { StandsRoom(s, x, off, v); }
    PatchedWalk(s, x, off, v, idx, val);
    var r := Poke(s, x + 12 + idx, val);
    assert r == Splice(s, x, end, r[x..end]);
    ReplaceTokens(s, x, end, r[x..end], pre, [Prop(off, Poke(v, idx, val))]);
    PatchedWalk(s, x, off, v, 0, []);
    assert Poke(s, x + 12 + 0, []) == s && Poke(v, 0, []) == v;
    assert s == Splice(s, x, end, s[x..end]);
    ReplaceTokens(s, x, end, s[x..end], pre, [Prop(off, v)]);
  }

  lemma {:induction false} StandsRoom(s: seq<byte>, x: nat, off: u32, v: seq<byte>)
    requires PropStands(s, x, off, v)
    ensures x % 4 == 0 && |v| <= Align4(|v|) && Align4(|v|) % 4 == 0 && x + 12 + Align4(|v|) <= |s|
    ensures Word(s, x + 4) == |v| && s[x + 12..x + 12 + |v|] == v
  {
  }

  /** fdt_setprop_inplace_namelen_partial where the bytes fit: only they change. */
  lemma {:induction false} InplaceValue(b: Blob, t: Tree, p: seq<nat>, k: nat, idx: nat, val: seq<byte>)
    requires Decoded(b, t) && IsPath(t, p) && k < |Sub(t, p).props| && idx + |val| <= |Sub(t, p).props[k].value|
    ensures var n := Sub(t, p); var v := n.props[k].value; var x := PropOffset(b.Struct(), t, p, k);
      && x + 12 + |v| <= b.sizeStruct && Word(b.Struct(), x + 4) == |v| && b.Struct()[x + 12..x + 12 + |v|] == v
      && Inplace(b, t, b.(data := Poke(b.data, b.offStruct + x + 12 + idx, val)),
           Put(t, p, Patched(n, k, Poke(v, idx, val))))
  {
    hide NextTag, SymOffset, Flat, Walk, Scan, Syms, Before, Sub, IsPath, Put, Decodes, SameShape, LikeAll, PropStands,
      Word, Align4, GetString, Poke, PropOffset;
    var n, s := Sub(t, p), b.Struct();
    var v, x := n.props[k].value, PropOffset(s, t, p, k);
    var pre, off, end := AtProp(b, t, p, k);
    StandsRoom(s, x, off, v);
    var v' := Poke(v, idx, val);
    var c := b.(data := Poke(b.data, b.offStruct + x + 12 + idx, val));
    StructPoke(b, x + 12 + idx, val);
    PatchedScan(s, x, end, off, v, idx, val, pre);
    LikeMid(pre, Prop(off, v), Prop(off, v'), Scan(s, end).value);
    PatchedDecodes(b, t, p, k, idx, val, c, pre, off, x, end);
    PatchedShape(n, k, v');
    ShapePut(t, p, Patched(n, k, v'));
  }

  lemma {:induction false} PatchedDecodes(b: Blob, t: Tree, p: seq<nat>, k: nat, idx: nat, val: seq<byte>, c: Blob,
                                          pre: seq<Token>, off: u32, x: nat, end: nat)
    requires Decoded(b, t) && IsPath(t, p) && k < |Sub(t, p).props| && idx + |val| <= |Sub(t, p).props[k].value|
    requires PropStands(b.Struct(), x, off, Sub(t, p).props[k].value)
      && end == x + 12 + Align4(|Sub(t, p).props[k].value|) && end % 4 == 0
    requires c == b.(data := Poke(b.data, b.offStruct + x + 12 + idx, val)) && x + 12 + idx + |val| <= b.sizeStruct
      && end <= b.sizeStruct
    requires GetString(b.Strings(), off) == Ok(Sub(t, p).props[k].name) && |Before(t, p)| + 1 + k < |Flat(t)|
    requires Walk(b.Struct(), 0, pre, x) && Syms(b.Strings(), pre) == Flat(t)[..|Before(t, p)| + 1 + k]
    requires Scan(b.Struct(), end).Ok? && Syms(b.Strings(), Scan(b.Struct(), end).value)
      == Flat(t)[|Before(t, p)| + 1 + k + 1..]
    ensures Decoded(c, Put(t, p, Patched(Sub(t, p), k, Poke(Sub(t, p).props[k].value, idx, val))))
      && c.Strings() == b.Strings()
  {
    hide NextTag, SymOffset, Flat, Walk, Scan, Syms, Before, Sub, IsPath, Put, Refines, Moved, Decodes, GetString,
      PropStands, Word, Align4, Poke;
    var n := Sub(t, p);
    var v := n.props[k].value;
    StandsRoom(b.Struct(), x, off, v);
    StructPoke(b, x + 12 + idx, val);
    PatchedWalk(b.Struct(), x, off, v, idx, val);
    MovedSame(b, x, end - x);
    MovedPoke(b, b, x, end - x, end - x, x + 12 + idx, val);
    MovedBlocks(b, c, x, end - x, end - x);
    ResizeRefines(b, t, p, k, Poke(v, idx, val), c, pre, off, x, end, end - x);
    RefinesDecoded(b, t, p, c, Patched(n, k, Poke(v, idx, val)));
  }

  /** fdt_setprop_inplace_namelen_partial on a decoded blob, in every case. */
  lemma {:induction false} SetInplaceCorrect(b: Blob, t: Tree, p: seq<nat>, name: seq<byte>, idx: u32, val: seq<byte>)
    requires Decoded(b, t) && IsPath(t, p) && |val| < INT32_MAX
    ensures var n := Sub(t, p); var k := FirstProp(n.props, name);
      var r := SetInplace(b, Offset(b, t, p), name, idx, val);
      if k == |n.props| then r == Out(Err(NotFound), b)
      else if |n.props[k].value| < Wrap(|val| + idx) then r == Out(Err(NoSpace), b)
      else if |n.props[k].value| < |val| + idx then r == Out(Err(Wild), b)
      else r.r.Ok? && Inplace(b, t, r.blob, Put(t, p, Patched(n, k, Poke(n.props[k].value, idx, val))))
  {
    hide NextTag, SymOffset, Before, Sub, IsPath, Put, Decodes, Inplace, Word, Poke, PropOffset, FindProp, NodeOffset,
      Wrap;
    FindPropAt(b.Struct(), b.Strings(), t, p, name);
    var n := Sub(t, p);
    var k := FirstProp(n.props, name);
    if k < |n.props| {
      assert |Poke(n.props[k].value, 0, [])| == |n.props[k].value|;
      InplaceValue(b, t, p, k, 0, []);
      if |val| + idx <= |n.props[k].value| { InplaceValue(b, t, p, k, idx, val); }
    }
  }

  /** Adding in 32 bits: a sum that passes the length test is the true sum exactly if it does not wrap. */
  lemma {:induction false} PassedSum(len: u32, idx: u32, n: nat)
    requires n < INT32_MAX && !(len < Wrap(n + idx))
    ensures n + idx <= len <==> n + idx < 0x1_0000_0000
  {
  }

  /** A store that passes the length test stays inside the value if and only if index plus length is below 2^32. */
  lemma {:induction false} StoreInside(b: Blob, node: nat, name: seq<byte>, idx: u32, val: seq<byte>)
    requires b.Ordered() && |val| < INT32_MAX && FindProp(b.Struct(), b.Strings(), node, name).Ok?
    ensures var r := SetInplace(b, node, name, idx, val);
      r.r != Err(NoSpace) ==> if idx + |val| < 0x1_0000_0000 then r.r.Ok? else r == Out(Err(Wild), b)
  {
    hide FindProp, Word, Poke, Wrap;
    var x := FindProp(b.Struct(), b.Strings(), node, name).value;
    FoundFits(b, node, name);
    var len := Word(b.Struct(), x + 4);
    if !(len < Wrap(|val| + idx)) { PassedSum(len, idx, |val|); }
  }

  lemma {:induction false} FoundFits(b: Blob, node: nat, name: seq<byte>)
    requires b.Ordered()
    ensures var f := FindProp(b.Struct(), b.Strings(), node, name); f.Ok? ==> Fits(b, f.value)
  {
    hide NextTag, Word;
  }

  /** The input at which it fails: four bytes at offset 2^32 - 4 pass the test on every property, and lie outside it. */
  lemma {:induction false} WildStore(b: Blob, t: Tree, p: seq<nat>, name: seq<byte>, val: seq<byte>)
    requires Decoded(b, t) && IsPath(t, p) && |val| == 4 && FirstProp(Sub(t, p).props, name) < |Sub(t, p).props|
    ensures SetInplace(b, Offset(b, t, p), name, 0xFFFF_FFFC, val) == Out(Err(Wild), b)
  {
    hide Sub, IsPath, Decodes, SetInplace, Put, Patched, Poke, Inplace;
    SetInplaceCorrect(b, t, p, name, 0xFFFF_FFFC, val);
    ValueShort(b, t, p, FirstProp(Sub(t, p).props, name));
  }

  lemma {:induction false} ValueShort(b: Blob, t: Tree, p: seq<nat>, k: nat)
    requires Decoded(b, t) && IsPath(t, p) && k < |Sub(t, p).props|
    ensures |Sub(t, p).props[k].value| < INT32_MAX
  {
    hide Sub, IsPath, Decodes, Put, Patched, Poke, Inplace, PropOffset, Word;
    assert |Poke(Sub(t, p).props[k].value, 0, [])| == |Sub(t, p).props[k].value|;
    InplaceValue(b, t, p, k, 0, []);
  }
}
