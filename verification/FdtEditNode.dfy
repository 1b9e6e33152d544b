/**
 Adding, deleting and blanking out nodes and properties (libfdt/fdt_rw.c, libfdt/fdt_wip.c).
 */
module FdtEditNode {
  import opened Bytes
  import opened Seqs
  import opened FdtTokens
  import opened FdtTree
  import opened FdtRead
  import opened FdtNode
  import opened FdtBlob
  import opened FdtSplice
  import opened FdtMoves
  import opened FdtEdit

  function WithKid(n: Tree, name: seq<byte>): (r: Tree) {
    n.(kids := [Node(name, [], [])] + n.kids)
  }

  function WithoutKid(n: Tree, k: nat): (r: Tree)
    requires k < |n.kids|
  {
    n.(kids := n.kids[..k] + n.kids[k + 1..])
  }

  // ---------- The flattening around a node's children ----------

  lemma {:induction false} FlatKidsCut(t: Tree, p: seq<nat>, k: nat)
    requires IsPath(t, p) && k <= |Sub(t, p).kids|
    ensures var n := Sub(t, p); var i := |Before(t, p)| + 1 + |n.props| + |FlatAll(n.kids[..k])|;
      && i < |Flat(t)|
      && Flat(t)[..i] == Before(t, p) + [Open(n.name)] + Attrs(n.props) + FlatAll(n.kids[..k])
      && Flat(t)[i..] == FlatAll(n.kids[k..]) + [Close] + After(t, p)
  {
    hide *;
    FlatSplit(t, p);
    var n := Sub(t, p);
    assert n.kids[..k] + n.kids[k..] == n.kids;
    FlatAllAppend(n.kids[..k], n.kids[k..]);
    var a := Before(t, p) + [Open(n.name)] + Attrs(n.props);
    var z := FlatAll(n.kids[k..]) + [Close] + After(t, p);
    KidsRegroup(a, FlatAll(n.kids[..k]), FlatAll(n.kids[k..]), [Close], After(t, p));
    assert Flat(t) == a + FlatAll(n.kids[..k]) + z;
  }

  lemma {:induction false} KidsRegroup<T>(a: seq<T>, l: seq<T>, r: seq<T>, c: seq<T>, z: seq<T>)
    ensures a + ((l + r) + c + z) == a + l + (r + c + z)
  {
  }

  /** Replacing children `k..j` of the node at `p`. */
  lemma {:induction false} FlatKids(t: Tree, p: seq<nat>, k: nat, j: nat, qs: seq<Tree>)
    requires IsPath(t, p) && k <= j <= |Sub(t, p).kids|
    ensures var n := Sub(t, p); var i := |Before(t, p)| + 1 + |n.props|;
      && i + |FlatAll(n.kids[..k])| <= |Flat(t)| && i + |FlatAll(n.kids[..j])| <= |Flat(t)|
      && Flat(Put(t, p, n.(kids := n.kids[..k] + qs + n.kids[j..])))
          == Flat(t)[..i + |FlatAll(n.kids[..k])|] + FlatAll(qs) + Flat(t)[i + |FlatAll(n.kids[..j])|..]
  {
    hide *;
    var n := Sub(t, p);
    var ks := n.kids[..k] + qs + n.kids[j..];
    FlatKidsCut(t, p, k);
    FlatKidsCut(t, p, j);
    FlatPut(t, p, n.(kids := ks));
    FlatInner(n.(kids := ks));
    InnerSplit(n.(kids := ks), Before(t, p), After(t, p));
    FlatAllAppend(n.kids[..k], qs);
    FlatAllAppend(n.kids[..k] + qs, n.kids[j..]);
    KidsRegroup(Before(t, p) + [Open(n.name)] + Attrs(n.props), FlatAll(n.kids[..k]) + FlatAll(qs),
      FlatAll(n.kids[j..]), [Close], After(t, p));
    Assoc(Before(t, p) + [Open(n.name)] + Attrs(n.props), FlatAll(n.kids[..k]), FlatAll(qs));
  }

  // ---------- Adding a node ----------

  lemma {:induction false} InsertPointSym(s: seq<byte>, strs: seq<byte>, a: nat, ps: seq<Property>, x: seq<Sym>)
    requires Scan(s, a).Ok? && Syms(strs, Scan(s, a).value) == Attrs(ps) + x && x != [] && (x[0].Open? || x[0].Close?)
    ensures InsertPoint(s, a) == SymOffset(s, a, |ps|)
    decreases if a < |s| then |s| - a else 0
  {
    hide NextTag, Syms, GetString, Attrs;
    var t := NextTag(s, a).token;
    SymsNil(strs);
    if !t.End? {
      ScanStep(s, strs, a);
      var n := NextTag(s, a).next;
      var tail := Syms(strs, Scan(s, n).value);
      if t.Nop? {
        assert SymsOf(strs, t) + tail == tail;
        InsertPointSym(s, strs, n, ps, x);
      } else {
        AttrsCons(ps, x, SymsOf(strs, t), tail);
        if t.Prop? { InsertPointSym(s, strs, n, ps[1..], x); }
      }
    }
  }

  lemma {:induction false} AttrsCons(ps: seq<Property>, x: seq<Sym>, h: seq<Sym>, tail: seq<Sym>)
    requires Attrs(ps) + x == h + tail && |h| == 1 && x != [] && (x[0].Open? || x[0].Close?)
    ensures ps == [] <==> h[0].Open? || h[0].Close?
    ensures ps != [] ==> tail == Attrs(ps[1..]) + x
  {
    var z := Attrs(ps) + x;
    assert z[0] == h[0] && z[1..] == tail;
    if ps != [] { assert z[0] == Attr(ps[0]) && z[1..] == Attrs(ps[1..]) + x; }
  }

  lemma {:induction false} NodeTokens(name: seq<byte>)
    requires IsCString(name)
    ensures Walk(NodeBytes(name), 0, [BeginNode(name), EndNode], |NodeBytes(name)|)
  {
    hide Walk, Be32, Align4, NodeBytes, Agree;
    var g := NodeBytes(name);
    var w := NodeCut(name);
    BeginToken(g[..w], name);
    WordToken(g[w..], FDT_END_NODE);
    WalkTwo(g, [BeginNode(name)], w, [EndNode], 4);
    assert [BeginNode(name)] + [EndNode] == [BeginNode(name), EndNode];
  }

  /** The two tokens of an empty node, as bytes. */
  lemma {:induction false} NodeCut(name: seq<byte>) returns (w: nat)
    ensures w == 4 + Align4(|name| + 1) && w % 4 == 0 && |NodeBytes(name)| == w + 4
    ensures var h := NodeBytes(name)[..w];
      h[0..4] == Be32(FDT_BEGIN_NODE) && h[4..4 + |name|] == name && h[4 + |name|] == 0
    ensures NodeBytes(name)[w..] == Be32(FDT_END_NODE)
  {
    hide Be32;
    w := 4 + Align4(|name| + 1);
  }

  lemma {:induction false} WalkTwo(g: seq<byte>, ts: seq<Token>, w: nat, us: seq<Token>, n: nat)
    requires |g| == w + n && w % 4 == 0 && Walk(g[..w], 0, ts, w) && Walk(g[w..], 0, us, n)
    ensures Walk(g, 0, ts + us, w + n)
  {
    hide Walk;
    assert Agree(g[..w], 0, w, g, 0);
    WalkLocal(g[..w], 0, ts, w, g, 0);
    assert forall i :: 0 <= i < n ==> g[w..][i] == g[i + w];
    WalkLocal(g[w..], 0, us, n, g, w);
    WalkAppend(g, 0, ts, w, us, w + n);
  }

  lemma {:induction false} NodeSyms(strs: seq<byte>, name: seq<byte>)
    ensures Syms(strs, [BeginNode(name), EndNode]) == FlatAll([Node(name, [], [])])
  {
    SymsOne(strs, EndNode);
    assert [BeginNode(name), EndNode][1..] == [EndNode];
    FlatAllOne(Node(name, [], []));
    AttrsNil();
    FlatAllNil();
  }

  /** The offset of the place in front of the first child. */
  lemma {:induction false} InsertAt(b: Blob, t: Tree, p: seq<nat>) returns (pre: seq<Token>, x: nat, m: nat)
    requires Decoded(b, t) && IsPath(t, p)
    ensures var i := |Before(t, p)| + 1 + |Sub(t, p).props|;
      && CheckNode(b.Struct(), Offset(b, t, p)) == Ok(m) && InsertPoint(b.Struct(), m) == x
      && x == SymOffset(b.Struct(), 0, i)
      && x % 4 == 0 && x <= b.sizeStruct && i < |Flat(t)|
      && Walk(b.Struct(), 0, pre, x) && Syms(b.Strings(), pre) == Flat(t)[..i]
      && Scan(b.Struct(), x).Ok? && Syms(b.Strings(), Scan(b.Struct(), x).value) == Flat(t)[i..]
  {
    hide NextTag, SymOffset, Flat, Walk, Scan, Syms, Before, After, Sub, IsPath, Attrs, FlatAll, Inner, InsertPoint;
    var s, strs := b.Struct(), b.Strings();
    var n, i := Sub(t, p), |Before(t, p)| + 1 + |Sub(t, p).props|;
    var pre0;
    pre0, m := AtNode(s, strs, t, p);
    InnerTail(n, After(t, p));
    FlatAllNil();
    InsertPointSym(s, strs, m, n.props, FlatAll(n.kids) + [Close] + After(t, p));
    SymOffsetFrom(s, strs, 0, pre0 + [BeginNode(n.name)], m, |n.props|);
    FlatCut(t, p, |n.props|);
    pre := SymOffsetWalk(s, strs, 0, i);
    x := SymOffset(s, 0, i);
    WalkBounds(s, 0, pre, x);
    ScanWithin(s, x);
  }

  /** What an added node makes of the structure block. */
  lemma {:induction false} AddedNode(b: Blob, x: nat, name: seq<byte>)
    requires b.Ordered() && x <= b.sizeStruct && IsCString(name) && SpliceStruct(b, x, 0, |NodeBytes(name)|).Ok?
    ensures var g := NodeBytes(name); var d := SpliceStruct(b, x, 0, |g|).value;
      var c := d.(data := Poke(d.data, b.offStruct + x, g));
      && Moved(b, c, x, 0, |g|) && c.Struct()[x..x + |g|] == g && c.Struct() == Splice(b.Struct(), x, x, g)
      && c.Strings() == b.Strings()
  {
    hide Poke, NodeBytes, Memmove, Splice;
    var g := NodeBytes(name);
    var d := SpliceStruct(b, x, 0, |g|).value;
    var c := d.(data := Poke(d.data, b.offStruct + x, g));
    hide SpliceStruct, Moved;
    MovedCut(b, x, 0, |g|);
    MovedHeader(b, d, x, 0, |g|);
    MovedPoke(b, d, x, 0, |g|, x, g);
    MovedHeader(b, c, x, 0, |g|);
    MovedBlocks(b, c, x, 0, |g|);
    PokedStruct(c, d.data, x, g);
  }

  lemma {:induction false} PokedStruct(c: Blob, d: seq<byte>, x: nat, g: seq<byte>)
    requires c.Ordered() && x + |g| <= c.sizeStruct && |d| == |c.data| && c.data == Poke(d, c.offStruct + x, g)
    ensures c.Struct()[x..x + |g|] == g
  {
    hide Poke;
    PokeBytes(d, c.offStruct + x, g);
    StructSlice(c, x, x + |g|);
  }

  /** fdt_add_subnode refines putting an empty node in front of the children, unless the name is taken. */
  lemma {:induction false} AddSubnodeCorrect(b: Blob, t: Tree, p: seq<nat>, name: seq<byte>)
    requires Decoded(b, t) && IsPath(t, p) && IsCString(name)
    ensures var n := Sub(t, p); var taken := FirstKid(n.kids, Named(name)) < |n.kids|;
      var r := AddSubnode(b, Offset(b, t, p), name);
      && (taken ==> r == Out(Err(Exists), b))
      && (!taken && b.DataSize() + |NodeBytes(name)| > |b.data| ==> r == Out(Err(NoSpace), b))
      && (!taken && b.DataSize() + |NodeBytes(name)| <= |b.data| ==>
           && r.r.Ok? && Refines(b, t, p, r.blob, WithKid(n, name))
           && IsPath(Put(t, p, WithKid(n, name)), p + [0])
           && r.r.value == Offset(r.blob, Put(t, p, WithKid(n, name)), p + [0])
           && r.r.value <= b.sizeStruct && r.blob.Strings() == b.Strings() && Grew(b, r.blob, |NodeBytes(name)|, [])
           && r.blob.Struct() == Splice(b.Struct(), r.r.value, r.r.value, NodeBytes(name)))
  {
    hide NextTag, SymOffset, Flat, Walk, Scan, Syms, Before, After, Sub, IsPath, Put, Refines, Moved, NodeBytes,
      Memmove, Poke, InsertPoint, Splice, FlatAll, Decodes, NodeFrom, NodeOffset;
    var n := Sub(t, p);
    HuntAt(b.Struct(), b.Strings(), t, p, Named(name));
    if FirstKid(n.kids, Named(name)) == |n.kids| {
      var pre, x, m := InsertAt(b, t, p);
      if SpliceStruct(b, x, 0, |NodeBytes(name)|).Ok? {
        AddedNode(b, x, name);
        MovedGrew(b, AddSubnode(b, Offset(b, t, p), name).blob, x, 0, |NodeBytes(name)|);
        AddRefinesNode(b, t, p, name, pre, x, AddSubnode(b, Offset(b, t, p), name).blob);
      }
    }
  }

  lemma {:induction false} AddRefinesNode(b: Blob, t: Tree, p: seq<nat>, name: seq<byte>, pre: seq<Token>, x: nat,
                                          c: Blob)
    requires Decoded(b, t) && IsPath(t, p) && IsCString(name) && x % 4 == 0 && x <= b.sizeStruct
    requires |Before(t, p)| + 1 + |Sub(t, p).props| < |Flat(t)|
    requires Walk(b.Struct(), 0, pre, x) && Syms(b.Strings(), pre) == Flat(t)[..|Before(t, p)| + 1 + |Sub(t, p).props|]
    requires Scan(b.Struct(), x).Ok? && Syms(b.Strings(), Scan(b.Struct(), x).value)
      == Flat(t)[|Before(t, p)| + 1 + |Sub(t, p).props|..]
    requires Moved(b, c, x, 0, |NodeBytes(name)|) && c.Struct()[x..x + |NodeBytes(name)|] == NodeBytes(name)
    ensures Refines(b, t, p, c, WithKid(Sub(t, p), name)) && IsPath(Put(t, p, WithKid(Sub(t, p), name)), p + [0])
    ensures x == Offset(c, Put(t, p, WithKid(Sub(t, p), name)), p + [0])
  {
    hide NextTag, SymOffset, Flat, Walk, Scan, Syms, Before, After, Sub, IsPath, Put, Refines, Moved, Splice, FlatAll,
      Decodes, NodeBytes, Attrs;
    var n, g, i := Sub(t, p), NodeBytes(name), |Before(t, p)| + 1 + |Sub(t, p).props|;
    var u, n' := Put(t, p, WithKid(n, name)), WithKid(n, name);
    FlatKids(t, p, 0, 0, [Node(name, [], [])]);
    assert n.kids[..0] + [Node(name, [], [])] + n.kids[0..] == [Node(name, [], [])] + n.kids;
    assert n.kids[..0] == [];
    FlatAllNil();
    NodeSyms(b.Strings(), name);
    NodeTokens(name);
    MovedHeader(b, c, x, 0, |g|);
    MovedBlocks(b, c, x, 0, |g|);
    assert b.Strings() + [] == b.Strings();
    RefinesBySyms(b, t, p, c, n', [], i, i, x, x, pre, [BeginNode(name), EndNode]);
    PutFrame(t, p, n');
    BeforeKid(u, p, 0);
    assert n'.kids[..0] == [];
    AttrsNil();
  }

  // ---------- Deleting a node ----------

  /** fdt_del_node on a child refines removing that child, and always fits. */
  lemma {:induction false} DelNodeCorrect(b: Blob, t: Tree, p: seq<nat>, k: nat)
    requires Decoded(b, t) && IsPath(t, p) && k < |Sub(t, p).kids|
    ensures IsPath(t, p + [k])
    ensures var r := DelNode(b, Offset(b, t, p + [k])); r.r.Ok? && Refines(b, t, p, r.blob, WithoutKid(Sub(t, p), k))
  {
    hide NextTag, SymOffset, Flat, Walk, Scan, Syms, Before, After, Sub, IsPath, Put, Refines, FlatAll, Decodes, Attrs,
      SpliceStruct, NodeEnd;
    var n := Sub(t, p);
    BeforeKid(t, p, k);
    var pre, mid, e := NodeEndAt(b.Struct(), b.Strings(), t, p + [k]);
    var o := Offset(b, t, p + [k]);
    ScanWithin(b.Struct(), e);
    var i, j := KidRange(t, p, k);
    WithoutKidFlat(t, p, k, i, j);
    CutRefines(b, t, p, WithoutKid(n, k), i, j, o, e, pre);
  }

  /** fdt_del_node on the root leaves a block without any node. */
  lemma {:induction false} DelRootEmpties(b: Blob, t: Tree)
    requires Decoded(b, t)
    ensures var r := DelNode(b, Offset(b, t, []));
      && r.r.Ok? && r.blob.Ordered() && r.blob.Strings() == b.Strings()
      && Scan(r.blob.Struct(), 0).Ok? && Syms(r.blob.Strings(), Scan(r.blob.Struct(), 0).value) == []
  {
    hide NextTag, SymOffset, Flat, Walk, Scan, Syms, FlatAll, Decodes, Attrs, NodeEnd, Moved, Memmove, Splice;
    var pre, mid, e := NodeEndAt(b.Struct(), b.Strings(), t, []);
    var o := Offset(b, t, []);
    WalkBounds(b.Struct(), 0, pre, o);
    WalkBounds(b.Struct(), o, mid, e);
    ScanWithin(b.Struct(), e);
    var c := SpliceStruct(b, o, e - o, 0).value;
    MovedCut(b, o, e - o, 0);
    MovedHeader(b, c, o, e - o, 0);
    MovedBlocks(b, c, o, e - o, 0);
    hide SpliceStruct;
    assert c.Struct()[o..o] == [];
    WalkNil([]);
    ReplaceTokens(b.Struct(), o, e, [], pre, []);
    assert pre + [] == pre;
    SymsAppend(b.Strings(), pre, Scan(b.Struct(), e).value);
  }

  /** The symbols of child `k`. */
  lemma {:induction false} KidRange(t: Tree, p: seq<nat>, k: nat) returns (i: nat, j: nat)
    requires IsPath(t, p) && k < |Sub(t, p).kids|
    ensures var n := Sub(t, p); var a := |Before(t, p)| + 1 + |n.props|;
      && i == a + |FlatAll(n.kids[..k])| && j == a + |FlatAll(n.kids[..k + 1])| && i <= j <= |Flat(t)|
      && IsPath(t, p + [k]) && Flat(t)[..i] == Before(t, p + [k]) && Flat(t)[j..] == After(t, p + [k])
      && |Before(t, p)| < i
  {
    hide Flat, Before, After, Sub, IsPath, FlatAll, Attrs;
    var n := Sub(t, p);
    BeforeKid(t, p, k);
    FlatKidsCut(t, p, k);
    FlatKidsCut(t, p, k + 1);
    i := |Before(t, p)| + 1 + |n.props| + |FlatAll(n.kids[..k])|;
    j := |Before(t, p)| + 1 + |n.props| + |FlatAll(n.kids[..k + 1])|;
    assert n.kids[..k + 1] == n.kids[..k] + [n.kids[k]];
    FlatAllAppend(n.kids[..k], [n.kids[k]]);
  }

  lemma {:induction false} WithoutKidFlat(t: Tree, p: seq<nat>, k: nat, i: nat, j: nat)
    requires IsPath(t, p) && k < |Sub(t, p).kids| && i <= j <= |Flat(t)|
    requires var n := Sub(t, p); var a := |Before(t, p)| + 1 + |n.props|;
      i == a + |FlatAll(n.kids[..k])| && j == a + |FlatAll(n.kids[..k + 1])|
    ensures Flat(Put(t, p, WithoutKid(Sub(t, p), k))) == Flat(t)[..i] + Flat(t)[j..]
  {
    hide Flat, Before, Sub, IsPath, FlatAll, Put;
    var n := Sub(t, p);
    FlatKids(t, p, k, k + 1, []);
    FlatAllNil();
    assert n.kids[..k] + [] + n.kids[k + 1..] == n.kids[..k] + n.kids[k + 1..];
    assert Flat(t)[..i] + [] + Flat(t)[j..] == Flat(t)[..i] + Flat(t)[j..];
  }

  lemma {:induction false} NodeEndTwo(s: seq<byte>, x: nat, name: seq<byte>, e: nat)
    requires x % 4 == 0 && Walk(s, x, [BeginNode(name), EndNode], e)
    ensures NodeEnd(s, x) == Ok(e)
  {
    hide NextTag;
    var m := NextTag(s, x).next;
    assert [BeginNode(name), EndNode][1..] == [EndNode] && [EndNode][1..] == [];
    assert Walk(s, m, [EndNode], e);
  }

  /** Deleting the node just added gives back every byte of the structure block and the strings. */
  lemma {:induction false} AddThenDelete(b: Blob, t: Tree, p: seq<nat>, name: seq<byte>)
    requires Decoded(b, t) && IsPath(t, p) && IsCString(name)
    ensures var r := AddSubnode(b, Offset(b, t, p), name);
      r.r.Ok? ==> var d := DelNode(r.blob, r.r.value);
        d.r.Ok? && d.blob.Ordered() && d.blob.Struct() == b.Struct() && d.blob.Strings() == b.Strings()
  {
    hide NextTag, SymOffset, Flat, Walk, Scan, Syms, Before, After, Sub, IsPath, Put, FlatAll, Attrs, AddSubnode,
      NodeBytes, Splice, DelNode, Stable;
    var r := AddSubnode(b, Offset(b, t, p), name);
    AddSubnodeCorrect(b, t, p, name);
    if r.r.Ok? {
      var c, u := r.blob, Put(t, p, WithKid(Sub(t, p), name));
      var pre, m := AtNode(c.Struct(), c.Strings(), u, p + [0]);
      DeleteAdded(b, c, r.r.value, name);
    }
  }

  lemma {:induction false} DeleteAdded(b: Blob, c: Blob, x: nat, name: seq<byte>)
    requires b.Ordered() && c.Ordered() && x % 4 == 0 && x <= b.sizeStruct && IsCString(name)
    requires c.Struct() == Splice(b.Struct(), x, x, NodeBytes(name)) && c.Strings() == b.Strings()
    ensures var d := DelNode(c, x);
      d.r.Ok? && d.blob.Ordered() && d.blob.Struct() == b.Struct() && d.blob.Strings() == b.Strings()
  {
    hide NextTag, Walk, NodeBytes, SpliceStruct, NodeEnd, Splice;
    var g := NodeBytes(name);
    assert NodeEnd(c.Struct(), x) == Ok(x + |g|) by {
      NodeTokens(name);
      SpliceAgrees(b.Struct(), x, x, g);
      WalkLocal(g, 0, [BeginNode(name), EndNode], |g|, c.Struct(), x);
      NodeEndTwo(c.Struct(), x, name, x + |g|);
    }
    CutBlocks(c, x, |g|);
    SpliceBack(b.Struct(), x, g);
  }

  lemma {:induction false} CutBlocks(c: Blob, x: nat, n: nat)
    requires c.Ordered() && x + n <= c.sizeStruct
    ensures var d := SpliceStruct(c, x, n, 0);
      d.Ok? && d.value.Ordered() && d.value.Struct() == Splice(c.Struct(), x, x + n, [])
        && d.value.Strings() == c.Strings()
  {
    hide Moved, Memmove;
    assert SpliceStruct(c, x, n, 0).Ok?;
    hide SpliceStruct;
    MovedCut(c, x, n, 0);
    var d := SpliceStruct(c, x, n, 0).value;
    MovedHeader(c, d, x, n, 0);
    MovedBlocks(c, d, x, n, 0);
    assert d.Struct()[x..x] == [];
  }

  lemma {:induction false} SpliceBack(s: seq<byte>, x: nat, g: seq<byte>)
    requires x <= |s|
    ensures Splice(Splice(s, x, x, g), x, x + |g|, []) == s
  {
  }

  // ---------- Blanking out ----------

  lemma {:induction false} NopTokens(k: nat)
    ensures Walk(Nops(k), 0, seq(k, i => Nop), 4 * k)
    decreases k
  {
    hide Walk, Be32;
    if k == 0 {
      WalkNil(Nops(0));
    } else {
      var g := Nops(k);
      NopTokens(k - 1);
      var h := Be32(FDT_NOP);
      WordToken(h, FDT_NOP);
      assert forall i :: 0 <= i < 4 ==> h[i] == g[i];
      WalkLocal(h, 0, [Nop], 4, g, 0);
      var z := Nops(k - 1);
      assert forall i {:trigger z[i]} :: 0 <= i < |z| ==> g[i + 4] == z[i];
      WalkLocal(z, 0, seq(k - 1, i => Nop), 4 * (k - 1), g, 4);
      WalkAppend(g, 0, [Nop], 4, seq(k - 1, i => Nop), 4 * k);
      assert [Nop] + seq(k - 1, i => Nop) == seq(k, i => Nop);
    }
  }

  lemma {:induction false} NopSyms(strs: seq<byte>, ts: seq<Token>)
    requires forall t :: t in ts ==> t == Nop
    ensures Syms(strs, ts) == []
    decreases |ts|
  {
    if ts != [] {
      assert ts[0] in ts && forall t :: t in ts[1..] ==> t in ts;
      NopSyms(strs, ts[1..]);
    }
  }

  /** Overwriting whole tokens with NOPs removes their symbols, and moves nothing. */
  lemma {:induction false} BlankRefines(b: Blob, t: Tree, p: seq<nat>, n: Tree, i: nat, j: nat, x: nat, k: nat, e: nat,
                                        pre: seq<Token>)
    requires Decoded(b, t) && IsPath(t, p) && e == x + 4 * k <= b.sizeStruct && x % 4 == 0
    requires |Before(t, p)| < i <= j <= |Flat(t)|
    requires Walk(b.Struct(), 0, pre, x) && Syms(b.Strings(), pre) == Flat(t)[..i]
    requires Scan(b.Struct(), e).Ok? && Syms(b.Strings(), Scan(b.Struct(), e).value) == Flat(t)[j..]
    requires Flat(Put(t, p, n)) == Flat(t)[..i] + Flat(t)[j..]
    ensures Refines(b, t, p, b.(data := Poke(b.data, b.offStruct + x, Nops(k))), n)
  {
    hide NextTag, SymOffset, Flat, Before, Sub, IsPath, Put, Refines, Decodes, Scan, Walk, Syms, Splice, Poke, Nops;
    var c := b.(data := Poke(b.data, b.offStruct + x, Nops(k)));
    BlankBlocks(b, x, k, e);
    assert b.Strings() + [] == b.Strings();
    NopTokens(k);
    NopSyms(b.Strings(), seq(k, i => Nop));
    assert Flat(t)[..i] + [] + Flat(t)[j..] == Flat(t)[..i] + Flat(t)[j..];
    RefinesBySyms(b, t, p, c, n, [], i, j, x, e, pre, seq(k, i => Nop));
  }

  lemma {:induction false} BlankBlocks(b: Blob, x: nat, k: nat, e: nat)
    requires b.Ordered() && e == x + 4 * k <= b.sizeStruct
    ensures |Nops(k)| == 4 * k
    ensures var c := b.(data := Poke(b.data, b.offStruct + x, Nops(k)));
      c.Ordered() && c.Struct() == Splice(b.Struct(), x, e, Nops(k)) && c.Struct()[x..e] == Nops(k)
        && c.Strings() == b.Strings()
      && c.data[..c.offStruct] == b.data[..b.offStruct]
  {
    hide Nops, Poke, Splice, Moved;
    var c := b.(data := Poke(b.data, b.offStruct + x, Nops(k)));
    BlankMoved(b, x, k, e);
    MovedHeader(b, c, x, e - x, e - x);
    MovedBlocks(b, c, x, e - x, e - x);
    PokedStruct(c, b.data, x, Nops(k));
  }

  lemma {:induction false} BlankMoved(b: Blob, x: nat, k: nat, e: nat)
    requires b.Ordered() && e == x + 4 * k <= b.sizeStruct
    ensures Moved(b, b.(data := Poke(b.data, b.offStruct + x, Nops(k))), x, e - x, e - x)
  {
    hide Nops, Poke;
    MovedSame(b, x, e - x);
    hide Moved;
    MovedPoke(b, b, x, e - x, e - x, x, Nops(k));
  }

  lemma {:induction false} MovedSame(b: Blob, x: nat, n: nat)
    requires b.Ordered() && x + n <= b.sizeStruct
    ensures Moved(b, b, x, n, n)
  {
  }

  /** fdt_nop_property leaves the tree that fdt_delprop leaves. */
  lemma {:induction false} NopPropertyAgrees(b: Blob, t: Tree, p: seq<nat>, name: seq<byte>)
    requires Decoded(b, t) && IsPath(t, p)
    ensures var n := Sub(t, p); var r := NopProperty(b, Offset(b, t, p), name);
      var d := DelProp(b, Offset(b, t, p), name);
      && (r.r.Err? <==> d.r.Err?)
      && (r.r.Err? ==> r == d == Out(Err(NotFound), b))
      && (r.r.Ok? ==>
           Refines(b, t, p, r.blob, WithoutProp(n, name)) && Decoded(d.blob, Put(t, p, WithoutProp(n, name))))
  {
    hide NextTag, SymOffset, Flat, Before, Sub, IsPath, Put, Refines, Align4, Decodes, FindProp, NodeOffset, Word, Scan,
      Walk, Syms, PropOffset, DelProp, Poke, Nops;
    FindPropAt(b.Struct(), b.Strings(), t, p, name);
    DelPropCorrect(b, t, p, name);
    if FirstProp(Sub(t, p).props, name) < |Sub(t, p).props| {
      NopExisting(b, t, p, name);
      RefinesDecoded(b, t, p, DelProp(b, Offset(b, t, p), name).blob, WithoutProp(Sub(t, p), name));
    }
  }

  lemma {:induction false} RefinesDecoded(b: Blob, t: Tree, p: seq<nat>, c: Blob, n: Tree)
    requires b.Ordered() && IsPath(t, p) && Refines(b, t, p, c, n)
    ensures Decoded(c, Put(t, p, n))
  {
  }

  lemma {:induction false} NopExisting(b: Blob, t: Tree, p: seq<nat>, name: seq<byte>)
    requires Decoded(b, t) && IsPath(t, p) && FirstProp(Sub(t, p).props, name) < |Sub(t, p).props|
    ensures var n := Sub(t, p); var k := FirstProp(n.props, name); var x := PropOffset(b.Struct(), t, p, k);
      var w := 3 + Align4(|n.props[k].value|) / 4;
      && x + 12 <= b.sizeStruct && Word(b.Struct(), x + 4) == |n.props[k].value| && x + 4 * w <= b.sizeStruct
      && Refines(b, t, p, b.(data := Poke(b.data, b.offStruct + x, Nops(w))), WithoutProp(n, name))
  {
    hide NextTag, SymOffset, Flat, Before, Sub, IsPath, Put, Refines, Decodes, FindProp, NodeOffset, Word, Scan, Walk,
      Syms, Nops, Poke;
    var n := Sub(t, p);
    var k := FirstProp(n.props, name);
    var x := PropOffset(b.Struct(), t, p, k);
    var pre, off, end := AtProp(b, t, p, k);
    hide PropOffset;
    FlatProps(t, p, k, k + 1, []);
    assert n.props[..k] + [] + n.props[k + 1..] == n.props[..k] + n.props[k + 1..];
    AttrsNil();
    var i := |Before(t, p)| + 1 + k;
    assert Flat(t)[..i] + [] + Flat(t)[i + 1..] == Flat(t)[..i] + Flat(t)[i + 1..];
    BlankRefines(b, t, p, WithoutProp(n, name), i, i + 1, x, 3 + Align4(|n.props[k].value|) / 4, end, pre);
  }

  /** fdt_nop_node on a child leaves the tree that fdt_del_node leaves. */
  lemma {:induction false} NopNodeAgrees(b: Blob, t: Tree, p: seq<nat>, k: nat)
    requires Decoded(b, t) && IsPath(t, p) && k < |Sub(t, p).kids|
    ensures IsPath(t, p + [k])
    ensures var n := WithoutKid(Sub(t, p), k); var r := NopNode(b, Offset(b, t, p + [k]));
      var d := DelNode(b, Offset(b, t, p + [k]));
      && r.r.Ok? && d.r.Ok? && Refines(b, t, p, r.blob, n) && Decoded(d.blob, Put(t, p, n))
  {
    hide NextTag, SymOffset, Flat, Walk, Scan, Syms, Before, After, Sub, IsPath, Put, Refines, FlatAll, Decodes, Attrs,
      NodeEnd, DelNode, Poke, Nops, NodeOffset;
    var n := Sub(t, p);
    BeforeKid(t, p, k);
    DelNodeCorrect(b, t, p, k);
    RefinesDecoded(b, t, p, DelNode(b, Offset(b, t, p + [k])).blob, WithoutKid(n, k));
    var pre, mid, e := NodeEndAt(b.Struct(), b.Strings(), t, p + [k]);
    var o := Offset(b, t, p + [k]);
    ScanWithin(b.Struct(), e);
    var i, j := KidRange(t, p, k);
    WithoutKidFlat(t, p, k, i, j);
    BlankRefines(b, t, p, WithoutKid(n, k), i, j, o, (e - o) / 4, e, pre);
  }
}
