/**
 Nodes of a decoded blob by path: where they sit in the structure block, and what the
 offset-based readers answer there.
 */
module FdtNode {
  import opened Bytes
  import opened Seqs
  import opened FdtTokens
  import opened FdtTree
  import opened FdtRead

  /** The structure block `s`, with its strings, stands for the tree `t`. */
  ghost predicate Decodes(s: seq<byte>, strs: seq<byte>, t: Tree) {
    Scan(s, 0).Ok? && Syms(strs, Scan(s, 0).value) == Flat(t)
  }

  /** A blob stands for at most one tree. */
  lemma {:induction false} DecodesUnique(s: seq<byte>, strs: seq<byte>, t: Tree, u: Tree)
    requires Decodes(s, strs, t) && Decodes(s, strs, u)
    ensures t == u
  {
    hide *;
    assert Flat(t) == Flat(u) by { SameFlat(s, strs, t, u); }
    assert Flat(t) + [] == Flat(u) + [];
    FlatInjective(t, [], u, []);
  }

  lemma {:induction false} SameFlat(s: seq<byte>, strs: seq<byte>, t: Tree, u: Tree)
    requires Decodes(s, strs, t) && Decodes(s, strs, u)
    ensures Flat(t) == Flat(u)
  {
    hide Flat, Scan, Syms;
  }

  /** The offset of the node at path `p`. */
  ghost function NodeOffset(s: seq<byte>, t: Tree, p: seq<nat>): nat
    requires IsPath(t, p)
  {
    SymOffset(s, 0, |Before(t, p)|)
  }

  /** What follows the name of a node: its properties, its children, its end. */
  function Inner(n: Tree): seq<Sym> {
    Attrs(n.props) + FlatAll(n.kids) + [Close]
  }

  lemma {:induction false} FlatInner(n: Tree)
    ensures Flat(n) == [Open(n.name)] + Inner(n)
  {
    hide FlatAll, Attrs;
  }

  lemma {:induction false} SymOffsetFrom(s: seq<byte>, strs: seq<byte>, a: nat, us: seq<Token>, b: nat, i: nat)
    requires Walk(s, a, us, b)
    ensures SymOffset(s, b, i) == SymOffset(s, a, |Syms(strs, us)| + i)
    decreases |us|
  {
    hide SymsOf;
    if us != [] { SymOffsetFrom(s, strs, NextTag(s, a).next, us[1..], b, i); }
  }

  /** Symbol `i` of a decoded blob, with the tokens on both sides of it. */
  lemma {:induction false} Locate(s: seq<byte>, strs: seq<byte>, ss: seq<Sym>, i: nat) returns (pre: seq<Token>)
    requires Scan(s, 0).Ok? && Syms(strs, Scan(s, 0).value) == ss && i < |ss|
    ensures var x := SymOffset(s, 0, i); var r := NextTag(s, x);
      && Walk(s, 0, pre, x) && Syms(strs, pre) == ss[..i] && x % 4 == 0
      && r.Tok? && !r.token.End? && !r.token.Nop? && SymsOf(strs, r.token) == [ss[i]]
      && Scan(s, x).Ok? && Scan(s, r.next).Ok? && Syms(strs, Scan(s, r.next).value) == ss[i + 1..]
      && Walk(s, 0, pre + [r.token], r.next) && Syms(strs, pre + [r.token]) == ss[..i + 1]
  {
    hide NextTag, SymsOf, SymOffset, Scan, Syms, Walk;
    pre := SymOffsetWalk(s, strs, 0, i);
    var x := SymOffset(s, 0, i);
    var r := NextTag(s, x);
    WalkBounds(s, 0, pre, x);
    ScanStep(s, strs, x);
    assert ss[i..][1..] == ss[i + 1..];
    WalkOne(s, x);
    WalkAppend(s, 0, pre, x, [r.token], r.next);
    SymsOne(strs, r.token);
    SymsAppend(strs, pre, [r.token]);
    var rest := Syms(strs, Scan(s, r.next).value);
    assert ss[i..] == [ss[i]] + rest;
    assert rest == ss[i..][1..];
    assert ss[..i] + [ss[i]] == ss[..i + 1];
  }

  lemma {:induction false} AtNode(s: seq<byte>, strs: seq<byte>, t: Tree, p: seq<nat>) returns (pre: seq<Token>, m: nat)
    requires Decodes(s, strs, t) && IsPath(t, p)
    ensures var o := NodeOffset(s, t, p); var n := Sub(t, p);
      && Walk(s, 0, pre, o) && Syms(strs, pre) == Before(t, p) && o % 4 == 0 && m % 4 == 0
      && NextTag(s, o) == Tok(BeginNode(n.name), m) && CheckNode(s, o) == Ok(m)
      && Walk(s, 0, pre + [BeginNode(n.name)], m)
      && Syms(strs, pre + [BeginNode(n.name)]) == Before(t, p) + [Open(n.name)]
      && Scan(s, m).Ok? && Syms(strs, Scan(s, m).value) == Inner(n) + After(t, p)
  {
    hide NextTag, Flat, Inner, SymOffset, Scan, Syms, Walk, Before, After, Sub, IsPath;
    var b, n := Before(t, p), Sub(t, p);
    FlatAt(t, p);
    FlatInner(n);
    assert Flat(t) == b + ([Open(n.name)] + (Inner(n) + After(t, p)));
    pre := Locate(s, strs, Flat(t), |b|);
    var o := NodeOffset(s, t, p);
    m := NextTag(s, o).next;
    WalkBounds(s, 0, pre + [NextTag(s, o).token], m);
    assert Flat(t)[..|b|] == b && Flat(t)[|b|] == Open(n.name) && Flat(t)[|b| + 1..] == Inner(n) + After(t, p);
    assert Flat(t)[..|b| + 1] == b + [Open(n.name)];
  }

  // ---------- Answers at a node ----------

  /** Property number `k` of the node at `p`. */
  ghost function PropOffset(s: seq<byte>, t: Tree, p: seq<nat>, k: nat): nat
    requires IsPath(t, p)
  {
    SymOffset(s, 0, |Before(t, p)| + 1 + k)
  }

  /** fdt_get_property finds the first property of that name, and reports NOTFOUND only if there is none. */
  lemma {:induction false} FindPropAt(s: seq<byte>, strs: seq<byte>, t: Tree, p: seq<nat>, name: seq<byte>)
    requires Decodes(s, strs, t) && IsPath(t, p)
    ensures var n := Sub(t, p); var k := FirstProp(n.props, name);
      FindProp(s, strs, NodeOffset(s, t, p), name) == if k < |n.props| then Ok(PropOffset(s, t, p, k))
        else Err(NotFound)
  {
    hide NextTag, Flat, SymOffset, Scan, Syms, Walk, Before, After, Sub, IsPath, Attrs, FlatAll, PropFrom, PropSym,
      Decodes;
    var n := Sub(t, p);
    var pre, m := AtNode(s, strs, t, p);
    PropFromSym(s, strs, m, name);
    var x := FlatAll(n.kids) + [Close] + After(t, p);
    assert Inner(n) + After(t, p) == Attrs(n.props) + x;
    assert n.kids == [] ==> FlatAll(n.kids) == [] by { FlatAllNil(); }
    PropSymAttrs(n.props, x, name);
    SymOffsetFrom(s, strs, 0, pre + [BeginNode(n.name)], m, FirstProp(n.props, name));
  }

  lemma {:induction false} FlatAllNil()
    ensures FlatAll([]) == []
  {
  }

  lemma {:induction false} BeforeKid(t: Tree, p: seq<nat>, k: nat)
    requires IsPath(t, p) && k < |Sub(t, p).kids|
    ensures IsPath(t, p + [k]) && Sub(t, p + [k]) == Sub(t, p).kids[k]
    ensures var n := Sub(t, p);
      Before(t, p + [k]) == Before(t, p) + [Open(n.name)] + Attrs(n.props) + FlatAll(n.kids[..k])
    ensures var n := Sub(t, p); After(t, p + [k]) == FlatAll(n.kids[k + 1..]) + [Close] + After(t, p)
    decreases |p|
  {
    hide Attrs, FlatAll;
    if p == [] {
      assert (p + [k])[1..] == [];
    } else {
      assert (p + [k])[1..] == p[1..] + [k] && (p + [k])[0] == p[0];
      var c := t.kids[p[0]];
      BeforeKid(c, p[1..], k);
      var n := Sub(t, p);
      Assoc5([Open(t.name)] + Attrs(t.props) + FlatAll(t.kids[..p[0]]), Before(c, p[1..]), [Open(n.name)],
        Attrs(n.props), FlatAll(n.kids[..k]));
      Assoc5([], FlatAll(n.kids[k + 1..]) + [Close], After(c, p[1..]), FlatAll(t.kids[p[0] + 1..]), [Close]);
    }
  }

  /** The first child that the name selects, by the unit-address rule. */
  lemma {:induction false} HuntAt(s: seq<byte>, strs: seq<byte>, t: Tree, p: seq<nat>, want: seq<byte> -> bool)
    requires Decodes(s, strs, t) && IsPath(t, p)
    ensures var n := Sub(t, p); var k := FirstKid(n.kids, want);
      && CheckNode(s, NodeOffset(s, t, p)).Ok?
      && (k < |n.kids| ==> IsPath(t, p + [k]))
      && NodeFrom(s, CheckNode(s, NodeOffset(s, t, p)).value, 0, want)
          == if k < |n.kids| then Ok(NodeOffset(s, t, p + [k])) else Err(NotFound)
  {
    hide NextTag, Flat, SymOffset, Scan, Syms, Walk, Before, After, Sub, IsPath, Attrs, FlatAll, NodeFrom, Hunt,
      Decodes;
    var n := Sub(t, p);
    var pre, m := AtNode(s, strs, t, p);
    NodeFromSym(s, strs, m, 0, want);
    var x := [Close] + After(t, p);
    assert Inner(n) + After(t, p) == Attrs(n.props) + (FlatAll(n.kids) + x);
    HuntAttrs(n.props, FlatAll(n.kids) + x, 0, want);
    HuntKids(n.kids, x, want);
    var k := FirstKid(n.kids, want);
    if k < |n.kids| {
      BeforeKid(t, p, k);
      SymOffsetFrom(s, strs, 0, pre + [BeginNode(n.name)], m, |n.props| + |FlatAll(n.kids[..k])|);
    }
  }

  lemma {:induction false} HuntPast(c: Tree, ks: seq<Tree>, x: seq<Sym>)
    requires x != [] && x[0].Close?
    ensures Hunt(Inner(c) + (FlatAll(ks) + x), 1, Any()) == if ks != [] then Ok(|Inner(c)|) else Err(NotFound)
  {
    var y := FlatAll(ks) + x;
    var z := [Close] + y;
    assert Inner(c) + y == Attrs(c.props) + (FlatAll(c.kids) + z)
      && |Inner(c)| == |c.props| + |FlatAll(c.kids)| + 1 by {
      hide FlatAll;
    }
    hide FlatAll, Attrs, Hunt, Flat, Inner, FirstKid;
    HuntAttrs(c.props, FlatAll(c.kids) + z, 1, Any());
    HuntTrees(c.kids, z, 1, Any());
    HuntStep(z, 1, Any());
    assert z[1..] == y;
    HuntKids(ks, x, Any());
    if ks != [] { FirstKidAny(ks); }
  }

  /** The next sibling: what fdt_next_subnode finds from child `k`. */
  lemma {:induction false} NextAt(s: seq<byte>, strs: seq<byte>, t: Tree, p: seq<nat>, k: nat)
    requires Decodes(s, strs, t) && IsPath(t, p) && k < |Sub(t, p).kids|
    ensures IsPath(t, p + [k])
    ensures k + 1 < |Sub(t, p).kids| ==> IsPath(t, p + [k + 1])
    ensures NextSubnode(s, NodeOffset(s, t, p + [k]))
         == if k + 1 < |Sub(t, p).kids| then Ok(NodeOffset(s, t, p + [k + 1])) else Err(NotFound)
  {
    hide NextTag, Flat, SymOffset, Scan, Syms, Walk, Before, After, Sub, IsPath, Attrs, FlatAll, NodeFrom, Hunt,
      Decodes, Inner;
    var n := Sub(t, p);
    BeforeKid(t, p, k);
    var c := n.kids[k];
    var pre, m := AtNode(s, strs, t, p + [k]);
    NodeFromSym(s, strs, m, 1, Any());
    var x := [Close] + After(t, p);
    var y := FlatAll(n.kids[k + 1..]) + x;
    assert Inner(c) + After(t, p + [k]) == Inner(c) + y;
    HuntPast(c, n.kids[k + 1..], x);
    if k + 1 < |n.kids| {
      BeforeKid(t, p, k + 1);
      assert n.kids[..k + 1] == n.kids[..k] + [c];
      FlatAllAppend(n.kids[..k], [c]);
      FlatAllOne(c);
      FlatInner(c);
      SymOffsetFrom(s, strs, 0, pre + [BeginNode(c.name)], m, |Inner(c)|);
    }
  }

  lemma {:induction false} FirstKidAny(ks: seq<Tree>)
    requires ks != []
    ensures FirstKid(ks, Any()) == 0 && FlatAll(ks[..0]) == []
  {
  }

  /** fdt_node_end_offset_ gives the offset behind the whole subtree. */
  lemma {:induction false} NodeEndAt(s: seq<byte>, strs: seq<byte>, t: Tree, p: seq<nat>)
    returns (pre: seq<Token>, mid: seq<Token>, e: nat)
    requires Decodes(s, strs, t) && IsPath(t, p)
    ensures var o := NodeOffset(s, t, p);
      && NodeEnd(s, o) == Ok(e) && o % 4 == 0 && e % 4 == 0
      && Walk(s, 0, pre, o) && Syms(strs, pre) == Before(t, p)
      && Walk(s, o, mid, e) && Syms(strs, mid) == Flat(Sub(t, p))
      && Scan(s, e).Ok? && Syms(strs, Scan(s, e).value) == After(t, p)
  {
    hide NextTag, Flat, SymOffset, Scan, Syms, Walk, Before, After, Sub, IsPath, Attrs, FlatAll, EndFrom, CloseAt,
      Decodes, SymsOf;
    var n := Sub(t, p);
    var m;
    pre, m := AtNode(s, strs, t, p);
    var o := NodeOffset(s, t, p);
    EndFromSym(s, strs, m, 0);
    var x := [Close] + After(t, p);
    assert Inner(n) + After(t, p) == Attrs(n.props) + (FlatAll(n.kids) + x);
    HuntAttrs(n.props, FlatAll(n.kids) + x, 0, Any());
    CloseKids(n.kids, x);
    var i := |n.props| + |FlatAll(n.kids)|;
    var ss := Inner(n) + After(t, p);
    var us := SymOffsetWalk(s, strs, m, i);
    var y := SymOffset(s, m, i);
    assert ss[i] == Close && ss[..i] + [Close] == Inner(n) && ss[i..][1..] == After(t, p);
    var k := NextTag(s, y);
    e := k.next;
    ScanStep(s, strs, y);
    WalkOne(s, o);
    WalkOne(s, y);
    WalkAppend(s, m, us, y, [k.token], e);
    WalkAppend(s, o, [BeginNode(n.name)], m, us + [k.token], e);
    mid := [BeginNode(n.name)] + (us + [k.token]);
    SymsOne(strs, k.token);
    SymsAppend(strs, us, [k.token]);
    SymsOne(strs, BeginNode(n.name));
    SymsAppend(strs, [BeginNode(n.name)], us + [k.token]);
    FlatInner(n);
    SymsOfBegin(strs, n.name);
    WalkBounds(s, o, mid, e);
  }

  lemma {:induction false} SymsOfBegin(strs: seq<byte>, name: seq<byte>)
    ensures SymsOf(strs, BeginNode(name)) == [Open(name)]
  {
  }

  lemma {:induction false} CloseKids(ks: seq<Tree>, x: seq<Sym>)
    requires x != [] && x[0].Close?
    ensures CloseAt(FlatAll(ks) + x, 0) == Ok(|FlatAll(ks)|)
    decreases |ks|
  {
    hide Flat;
    if ks == [] {
      assert FlatAll(ks) + x == x;
    } else {
      assert FlatAll(ks) + x == Flat(ks[0]) + (FlatAll(ks[1..]) + x);
      HuntTree(ks[0], FlatAll(ks[1..]) + x, 0, Any());
      CloseKids(ks[1..], x);
    }
  }
}
