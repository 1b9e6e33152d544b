/**
 Moving around a blob by offsets (libfdt/fdt.c, libfdt/fdt_ro.c): listing children, and finding
 the ancestors of a node by walking from the root.
 */
module FdtNav {
  import opened Bytes
  import opened Seqs
  import opened FdtTokens
  import opened FdtTree
  import opened FdtRead
  import opened FdtNode
  import opened FdtOverlay

  // ---------- Children ----------

  /** What fdt_for_each_subnode visits. */
  function Listed(s: seq<byte>, at: Result<nat>): (r: seq<nat>)
    decreases if at.Ok? && at.value < |s| then |s| - at.value else 0, at.Ok?
  {
    if at.Err? || at.value >= |s| then [] else [at.value] + Listed(s, NextSubnode(s, at.value))
  }

  /** fdt_for_each_subnode. */
  method ListChildren(s: seq<byte>, node: nat) returns (r: seq<nat>)
    ensures r == Listed(s, FirstSubnode(s, node))
  {
    hide NextTag, FirstSubnode, NextSubnode;
    r := [];
    var at := FirstSubnode(s, node);
    while at.Ok?
      invariant at.Ok? ==> at.value < |s|
      invariant Listed(s, FirstSubnode(s, node)) == r + Listed(s, at)
      decreases if at.Ok? then |s| - at.value else 0, at.Ok?
    {
      Assoc(r, [at.value], Listed(s, NextSubnode(s, at.value)));
      r := r + [at.value];
      at := NextSubnode(s, at.value);
    }
  }

  ghost function KidOffsets(s: seq<byte>, t: Tree, p: seq<nat>, k: nat): (r: seq<nat>)
    requires IsPath(t, p) && k <= |Sub(t, p).kids|
    decreases |Sub(t, p).kids| - k
  {
    if k == |Sub(t, p).kids| then []
    else
      BeforeKidPath(t, p, k);
      [NodeOffset(s, t, p + [k])] + KidOffsets(s, t, p, k + 1)
  }

  lemma {:induction false} ListedFrom(s: seq<byte>, strs: seq<byte>, t: Tree, p: seq<nat>, k: nat)
    requires Decodes(s, strs, t) && IsPath(t, p) && k <= |Sub(t, p).kids|
    ensures Listed(s, KidAt(s, t, p, k)) == KidOffsets(s, t, p, k)
    decreases |Sub(t, p).kids| - k
  {
    hide NextTag, Sub, IsPath, Before, NodeOffset, Decodes, NextSubnode, Scan, Walk, Syms, Inner, After;
    if k < |Sub(t, p).kids| {
      NextAtKid(s, strs, t, p, k);
      ListedFrom(s, strs, t, p, k + 1);
      var pre, m := AtNode(s, strs, t, p + [k]);
      TagInside(s, NodeOffset(s, t, p + [k]));
    }
  }

  lemma {:induction false} TagInside(s: seq<byte>, o: nat)
    requires NextTag(s, o).Tok?
    ensures o < |s|
  {
  }

  /** fdt_first_subnode and fdt_next_subnode list exactly the direct children, in order. */
  lemma {:induction false} ChildrenExact(s: seq<byte>, strs: seq<byte>, t: Tree, p: seq<nat>)
    requires Decodes(s, strs, t) && IsPath(t, p)
    ensures Listed(s, FirstSubnode(s, NodeOffset(s, t, p))) == KidOffsets(s, t, p, 0)
  {
    hide *;
    FirstAt(s, strs, t, p);
    ListedFrom(s, strs, t, p, 0);
  }

  // ---------- Ancestors ----------

  /** The answer of fdt_supernode_atdepth_offset, and the depth it stores. */
  datatype Super = Super(node: Result<nat>, depth: int)

  /** What an error of fdt_next_node becomes. */
  function Blame(e: Error): Error {
    if e == NotFound then BadOffset else if e == BadOffset then BadStructure else e
  }

  /**
   The walk of fdt_supernode_atdepth_offset from `o` on, inside `depth` nodes; `best` is the last
   node met at the depth wanted.
   */
  function SuperFrom(s: seq<byte>, o: nat, depth: int, want: nat, target: nat, best: Result<nat>): (r: Super)
    decreases if o < |s| then |s| - o else 0
  {
    match NextTag(s, o)
    case Bad(e) => Super(Err(Blame(e)), 0)
    case Tok(t, n) =>
      match t
      case End => Super(Err(BadOffset), 0)
      case BeginNode(_) =>
        if o > target then Super(Err(BadOffset), 0)
        else
          var b := if depth == want then Ok(o) else best;
          if o == target then Super(if want > depth then Err(NotFound) else b, depth)
            else SuperFrom(s, n, depth + 1, want, target, b)
      case EndNode =>
        if depth > 1 then SuperFrom(s, n, depth - 1, want, target, best)
        else if n > target then Super(Err(BadOffset), 0)
        else if n == target then Super(Err(NotFound), depth - 2)
        else
          var m := CheckNode(s, n);
          if m.Err? then Super(Err(BadStructure), 0) else SuperFrom(s, m.value, depth - 1, want, target, best)
      case Prop(_, _) => SuperFrom(s, n, depth, want, target, best)
      case Nop => SuperFrom(s, n, depth, want, target, best)
  }

  /** fdt_supernode_atdepth_offset; the first node looked at is at offset 0. */
  function Supernode(s: seq<byte>, node: nat, want: int): (r: Super) {
    if want < 0 then Super(Err(NotFound), 0)
    else
      var best := if want == 0 then Ok(0) else Err(Internal);
      if node == 0 then Super(if want > 0 then Err(NotFound) else best, 0)
      else
        var m := CheckNode(s, 0);
        if m.Err? then Super(Err(BadStructure), 0) else SuperFrom(s, m.value, 1, want, node, best)
  }

  /** fdt_node_depth. */
  function NodeDepth(s: seq<byte>, node: nat): (r: Result<int>) {
    var d := Supernode(s, node, 0);
    if d.node.Err? then Err(d.node.error) else if d.node.value != 0 then Err(Internal) else Ok(d.depth)
  }

  /** fdt_parent_offset. */
  function ParentOffset(s: seq<byte>, node: nat): (r: Result<nat>) {
    var d := NodeDepth(s, node);
    if d.Err? then Err(d.error) else Supernode(s, node, d.value - 1).node
  }

  /** The same walk on symbols, positions counted from `i`. */
  function SuperSym(ss: seq<Sym>, i: nat, depth: nat, want: nat, target: nat, best: Result<nat>): (r: Super)
    decreases |ss|
  {
    if ss == [] then Super(Err(BadOffset), 0)
    else match ss[0]
      case Open(_) =>
        var b := if depth == want then Ok(i) else best;
        if i == target then Super(if want > depth then Err(NotFound) else b, depth)
          else SuperSym(ss[1..], i + 1, depth + 1, want, target, b)
      case Close => if depth > 1 then SuperSym(ss[1..], i + 1, depth - 1, want, target, best)
        else Super(Err(BadOffset), 0)
      case Attr(_) => SuperSym(ss[1..], i + 1, depth, want, target, best)
      case Bogus => SuperSym(ss[1..], i + 1, depth, want, target, best)
  }

  // ---------- From bytes to symbols ----------

  lemma {:induction false} SymOffsetGrows(s: seq<byte>, strs: seq<byte>, a: nat, i: nat, j: nat)
    requires Scan(s, a).Ok? && i < j < |Syms(strs, Scan(s, a).value)|
    ensures SymOffset(s, a, i) < SymOffset(s, a, j)
  {
    hide NextTag, SymsOf, SymOffset, Scan, Syms, Walk;
    var us := SymOffsetWalk(s, strs, a, i);
    var x := SymOffset(s, a, i);
    var all := Syms(strs, Scan(s, a).value);
    assert all[i..][j - i] == all[j];
    var vs := SymOffsetWalk(s, strs, x, j - i);
    WalkBounds(s, x, vs, SymOffset(s, x, j - i));
    SymOffsetFrom(s, strs, a, us, x, j - i);
    assert Syms(strs, vs) == all[i..][..j - i];
    assert vs != [] by { if vs == [] { SymsNil(strs); } }
  }

  /** The position's offset, or the error. */
  function Place(s: seq<byte>, r: Result<nat>): Result<nat> {
    if r.Ok? then Ok(SymOffset(s, 0, r.value)) else r
  }

  /** Reading one token: it moves from what is ahead to what is behind. */
  lemma {:induction false} Advance(s: seq<byte>, strs: seq<byte>, a: nat, pre: seq<Token>)
    requires Scan(s, 0).Ok? && Walk(s, 0, pre, a) && Scan(s, a).Ok?
      && Syms(strs, Scan(s, 0).value) == Syms(strs, pre) + Syms(strs, Scan(s, a).value)
    ensures NextTag(s, a).Tok?
    ensures var t := NextTag(s, a).token; var n := NextTag(s, a).next; var i := |Syms(strs, pre)|;
      if t.End? then Syms(strs, Scan(s, a).value) == []
      else
        && Scan(s, n).Ok? && Walk(s, 0, pre + [t], n)
        && Syms(strs, Scan(s, 0).value) == Syms(strs, pre + [t]) + Syms(strs, Scan(s, n).value)
        && Syms(strs, Scan(s, a).value) == SymsOf(strs, t) + Syms(strs, Scan(s, n).value)
        && |Syms(strs, pre + [t])| == i + |SymsOf(strs, t)|
        && (!t.Nop? ==> SymOffset(s, 0, i) == a && Syms(strs, Scan(s, a).value)[1..] == Syms(strs, Scan(s, n).value))
        && (!t.Nop? ==> Syms(strs, Scan(s, 0).value)[i] == Syms(strs, Scan(s, a).value)[0])
        && (t.Nop? ==> Syms(strs, Scan(s, a).value) == Syms(strs, Scan(s, n).value))
  {
    hide NextTag, Syms, GetString, SymOffset, Walk;
    var t, n := NextTag(s, a).token, NextTag(s, a).next;
    SymsNil(strs);
    if !t.End? {
      ScanStep(s, strs, a);
      var tail := Syms(strs, Scan(s, n).value);
      WalkOne(s, a);
      WalkAppend(s, 0, pre, a, [t], n);
      SymsOne(strs, t);
      SymsAppend(strs, pre, [t]);
      Assoc(Syms(strs, pre), SymsOf(strs, t), tail);
      if t.Nop? {
        assert SymsOf(strs, t) + tail == tail;
      } else {
        assert (SymsOf(strs, t) + tail)[1..] == tail;
        SymOffsetIs(s, strs, 0, pre, a);
      }
    }
  }

  lemma {:induction false} SuperFromSym(s: seq<byte>, strs: seq<byte>, a: nat, pre: seq<Token>, depth: nat, want: nat,
                                        target: nat, best: Result<nat>)
    requires Scan(s, 0).Ok? && Walk(s, 0, pre, a) && Scan(s, a).Ok?
      && Syms(strs, Scan(s, 0).value) == Syms(strs, pre) + Syms(strs, Scan(s, a).value)
    requires |Syms(strs, pre)| <= target < |Syms(strs, Scan(s, 0).value)| && Syms(strs, Scan(s, 0).value)[target].Open?
    requires SuperSym(Syms(strs, Scan(s, a).value), |Syms(strs, pre)|, depth, want, target, best).node != Err(BadOffset)
    ensures var r := SuperSym(Syms(strs, Scan(s, a).value), |Syms(strs, pre)|, depth, want, target, best);
      SuperFrom(s, a, depth, want, SymOffset(s, 0, target), Place(s, best)) == Super(Place(s, r.node), r.depth)
    decreases if a < |s| then |s| - a else 0
  {
    hide NextTag, Syms, GetString, SymOffset, Walk, Scan;
    Advance(s, strs, a, pre);
    var t, n, i := NextTag(s, a).token, NextTag(s, a).next, |Syms(strs, pre)|;
    if t.Nop? {
      SuperFromSym(s, strs, n, pre + [t], depth, want, target, best);
    } else if t.BeginNode? {
      if i != target {
        SymOffsetGrows(s, strs, 0, i, target);
        SuperFromSym(s, strs, n, pre + [t], depth + 1, want, target, if depth == want then Ok(i) else best);
      }
    } else if t.EndNode? {
      if depth > 1 { SuperFromSym(s, strs, n, pre + [t], depth - 1, want, target, best); }
    } else if t.Prop? {
      SuperFromSym(s, strs, n, pre + [t], depth, want, target, best);
    }
  }

  // ---------- From symbols to trees ----------

  /** The last node at the depth wanted, once a whole subtree has been passed. */
  function Passed(t: Tree, i: nat, depth: nat, want: nat, best: Result<nat>): (r: Result<nat>)
    ensures want < depth ==> r == best
    decreases t
  {
    PassedAll(t.kids, i + 1 + |t.props|, depth + 1, want, if depth == want then Ok(i) else best)
  }

  function PassedAll(ks: seq<Tree>, i: nat, depth: nat, want: nat, best: Result<nat>): (r: Result<nat>)
    ensures want < depth ==> r == best
    decreases ks
  {
    if ks == [] then best else PassedAll(ks[1..], i + |Flat(ks[0])|, depth, want, Passed(ks[0], i, depth, want, best))
  }

  lemma {:induction false} SuperAttrs(ps: seq<Property>, x: seq<Sym>, i: nat, depth: nat, want: nat, target: nat,
                                      best: Result<nat>)
    ensures SuperSym(Attrs(ps) + x, i, depth, want, target, best) == SuperSym(x, i + |ps|, depth, want, target, best)
    decreases |ps|
  {
    var ss := Attrs(ps) + x;
    if ps == [] {
      assert ss == x;
    } else {
      assert ss[1..] == Attrs(ps[1..]) + x && ss[0] == Attr(ps[0]);
      SuperAttrs(ps[1..], x, i + 1, depth, want, target, best);
    }
  }

  lemma {:induction false} SuperOpen(ss: seq<Sym>, i: nat, depth: nat, want: nat, target: nat, best: Result<nat>)
    requires ss != [] && ss[0].Open?
    ensures var b := if depth == want then Ok(i) else best;
      SuperSym(ss, i, depth, want, target, best)
        == if i == target then Super(if want > depth then Err(NotFound) else b, depth)
          else SuperSym(ss[1..], i + 1, depth + 1, want, target, b)
  {
  }

  lemma {:induction false} SuperClose(x: seq<Sym>, i: nat, depth: nat, want: nat, target: nat, best: Result<nat>)
    requires depth > 1
    ensures SuperSym([Close] + x, i, depth, want, target, best) == SuperSym(x, i + 1, depth - 1, want, target, best)
  {
    assert ([Close] + x)[1..] == x;
  }

  /** A subtree without the target is passed over. */
  lemma {:induction false} SuperTree(t: Tree, x: seq<Sym>, i: nat, depth: nat, want: nat, target: nat,
                                     best: Result<nat>)
    requires depth > 0 && (target < i || i + |Flat(t)| <= target)
    ensures SuperSym(Flat(t) + x, i, depth, want, target, best)
         == SuperSym(x, i + |Flat(t)|, depth, want, target, Passed(t, i, depth, want, best))
    decreases t, 1
  {
    hide Flat, FlatAll, Attrs, SuperSym, PassedAll;
    FlatHead(t, x);
    var z := [Close] + x;
    var b := if depth == want then Ok(i) else best;
    SuperOpen(Flat(t) + x, i, depth, want, target, best);
    SuperAttrs(t.props, FlatAll(t.kids) + z, i + 1, depth + 1, want, target, b);
    SuperTrees(t.kids, z, i + 1 + |t.props|, depth + 1, want, target, b);
    SuperClose(x, i + 1 + |t.props| + |FlatAll(t.kids)|, depth + 1, want, target,
      PassedAll(t.kids, i + 1 + |t.props|, depth + 1, want, b));
  }

  lemma {:induction false} SuperTrees(ks: seq<Tree>, x: seq<Sym>, i: nat, depth: nat, want: nat, target: nat,
                                      best: Result<nat>)
    requires depth > 0 && (target < i || i + |FlatAll(ks)| <= target)
    ensures SuperSym(FlatAll(ks) + x, i, depth, want, target, best)
         == SuperSym(x, i + |FlatAll(ks)|, depth, want, target, PassedAll(ks, i, depth, want, best))
    decreases ks, 0
  {
    hide Flat, SuperSym, Passed;
    if ks == [] {
      assert FlatAll(ks) + x == x;
    } else {
      assert FlatAll(ks) + x == Flat(ks[0]) + (FlatAll(ks[1..]) + x);
      SuperTree(ks[0], FlatAll(ks[1..]) + x, i, depth, want, target, best);
      SuperTrees(ks[1..], x, i + |Flat(ks[0])|, depth, want, target, Passed(ks[0], i, depth, want, best));
    }
  }

  /** The answer for the node at `p`, started at an ancestor `depth` levels deep. */
  lemma {:induction false} SuperFind(t: Tree, p: seq<nat>, x: seq<Sym>, i: nat, depth: nat, want: nat,
                                     best: Result<nat>)
    requires IsPath(t, p)
    ensures want >= depth && want - depth <= |p| ==> IsPath(t, p[..want - depth])
    ensures SuperSym(Flat(t) + x, i, depth, want, i + |Before(t, p)|, best)
         == Super(if want > depth + |p| then Err(NotFound) else if want < depth then best
           else Ok(i + |Before(t, p[..want - depth])|), depth + |p|)
    decreases |p|
  {
    hide Flat, FlatAll, Attrs, SuperSym, PassedAll;
    var target := i + |Before(t, p)|;
    FlatHead(t, x);
    SuperOpen(Flat(t) + x, i, depth, want, target, best);
    if p == [] {
      if want == depth { assert p[..0] == []; }
    } else {
      SuperDown(t, p, x, i, depth, want, if depth == want then Ok(i) else best);
      if want == depth { assert p[..0] == []; }
    }
  }

  lemma {:induction false} SuperDown(t: Tree, p: seq<nat>, x: seq<Sym>, i: nat, depth: nat, want: nat, b: Result<nat>)
    requires IsPath(t, p) && p != [] && (want == depth ==> b == Ok(i))
    ensures want > depth && want - depth <= |p| ==> IsPath(t, p[..want - depth])
    ensures |Before(t, p)| > 0
    ensures SuperSym((Flat(t) + x)[1..], i + 1, depth + 1, want, i + |Before(t, p)|, b)
         == Super(if want > depth + |p| then Err(NotFound) else if want <= depth then b
           else Ok(i + |Before(t, p[..want - depth])|), depth + |p|)
    decreases |p|, 0
  {
    hide Flat, Attrs, SuperSym, PassedAll, FlatAll;
    var j, q := p[0], p[1..];
    var k := t.kids[j];
    var target := i + |Before(t, p)|;
    var y := FlatAll(t.kids[j + 1..]) + ([Close] + x);
    var i1 := i + 1 + |t.props|;
    var i2 := i1 + |FlatAll(t.kids[..j])|;
    FlatHead(t, x);
    FlatAllPick(t.kids, j);
    var z := FlatAll(t.kids) + ([Close] + x);
    assert z == FlatAll(t.kids[..j]) + (Flat(k) + y);
    assert |Before(t, p)| == 1 + |t.props| + |FlatAll(t.kids[..j])| + |Before(k, q)|;
    SuperAttrs(t.props, z, i + 1, depth + 1, want, target, b);
    SuperTrees(t.kids[..j], Flat(k) + y, i1, depth + 1, want, target, b);
    SuperFind(k, q, y, i2, depth + 1, want, PassedAll(t.kids[..j], i1, depth + 1, want, b));
    if want > depth && want - depth <= |p| {
      var m := want - depth;
      assert p[..m][0] == j && p[..m][1..] == q[..m - 1];
    }
  }

  /** Walking from the root finds, for every node and depth, the ancestor at that depth. */
  lemma {:induction false} SupernodeAt(s: seq<byte>, strs: seq<byte>, t: Tree, p: seq<nat>, want: nat)
    requires Decodes(s, strs, t) && IsPath(t, p) && NodeOffset(s, t, []) == 0
    ensures want <= |p| ==> IsPath(t, p[..want])
    ensures Supernode(s, NodeOffset(s, t, p), want)
         == Super(if want > |p| then Err(NotFound) else Ok(NodeOffset(s, t, p[..want])), |p|)
  {
    hide Decodes, SuperSym, Before, Flat, SymOffset, Scan, Syms, Walk, SuperFrom, IsPath, Sub, After, NextTag, Inner;
    RootBefore(t);
    var pre, m := AtNode(s, strs, t, []);
    if p == [] {
      assert want <= |p| ==> p[..want] == [];
    } else {
      SupernodeBelow(s, strs, t, p, want);
    }
  }

  lemma {:induction false} RootBefore(t: Tree)
    ensures IsPath(t, []) && Before(t, []) == [] && Sub(t, []) == t && After(t, []) == []
  {
  }

  lemma {:induction false} SupernodeBelow(s: seq<byte>, strs: seq<byte>, t: Tree, p: seq<nat>, want: nat)
    requires Decodes(s, strs, t) && IsPath(t, p) && SymOffset(s, 0, 0) == 0 && p != []
    ensures want <= |p| ==> IsPath(t, p[..want])
    ensures Supernode(s, NodeOffset(s, t, p), want)
         == Super(if want > |p| then Err(NotFound) else Ok(NodeOffset(s, t, p[..want])), |p|)
  {
    hide SuperSym, Before, Flat, SymOffset, Scan, Syms, Walk, SuperFrom, IsPath, Sub, After, NextTag, Inner;
    var m := RootTail(s, strs, t);
    var best := if want == 0 then Ok(0) else Err(Internal);
    SuperDown(t, p, [], 0, 0, want, best);
    assert Flat(t) + [] == Flat(t);
    PathOpen(t, p);
    var target := |Before(t, p)|;
    SymOffsetGrows(s, strs, 0, 0, target);
    var tok := NextTag(s, 0).token;
    SuperFromSym(s, strs, m, [tok], 1, want, target, best);
    if want == 0 { RootBefore(t); assert p[..0] == []; }
  }

  lemma {:induction false} PathOpen(t: Tree, p: seq<nat>)
    requires IsPath(t, p)
    ensures |Before(t, p)| < |Flat(t)| && Flat(t)[|Before(t, p)|].Open?
  {
    hide Before, Sub, IsPath, After, Flat;
    FlatAt(t, p);
  }

  /** Behind the root's own tag, when it is the first. */
  lemma {:induction false} RootTail(s: seq<byte>, strs: seq<byte>, t: Tree) returns (m: nat)
    requires Decodes(s, strs, t) && SymOffset(s, 0, 0) == 0
    ensures CheckNode(s, 0) == Ok(m) && NextTag(s, 0).Tok? && Walk(s, 0, [NextTag(s, 0).token], m) && Scan(s, m).Ok?
    ensures Syms(strs, [NextTag(s, 0).token]) == [Flat(t)[0]] && Syms(strs, Scan(s, m).value) == Flat(t)[1..]
    ensures Scan(s, 0).Ok? && Syms(strs, Scan(s, 0).value)
      == Syms(strs, [NextTag(s, 0).token]) + Syms(strs, Scan(s, m).value)
  {
    hide Before, Flat, SymOffset, Scan, Syms, Walk, IsPath, Sub, After, NextTag, Inner;
    RootBefore(t);
    var pre;
    pre, m := AtNode(s, strs, t, []);
    WalkBounds(s, 0, pre, 0);
    assert pre == [];
    var tok := NextTag(s, 0).token;
    WalkOne(s, 0);
    SymsOne(strs, tok);
    ScanStep(s, strs, 0);
    assert pre + [tok] == [tok];
    FlatInner(t);
    assert Inner(t) + [] == Inner(t);
  }

  /** fdt_node_depth is the length of the path, and fdt_parent_offset undoes the step to a child. */
  lemma {:induction false} ParentExact(s: seq<byte>, strs: seq<byte>, t: Tree, p: seq<nat>)
    requires Decodes(s, strs, t) && IsPath(t, p) && NodeOffset(s, t, []) == 0
    ensures NodeDepth(s, NodeOffset(s, t, p)) == Ok(|p|)
    ensures p != [] ==> IsPath(t, p[..|p| - 1])
    ensures ParentOffset(s, NodeOffset(s, t, p)) == if p == [] then Err(NotFound)
      else Ok(NodeOffset(s, t, p[..|p| - 1]))
  {
    hide Decodes, Before, SymOffset, IsPath, Supernode, NodeOffset;
    SupernodeAt(s, strs, t, p, 0);
    assert p[..0] == [];
    if p != [] { SupernodeAt(s, strs, t, p, |p| - 1); } else { NoParent(s, NodeOffset(s, t, p)); }
  }

  lemma {:induction false} NoParent(s: seq<byte>, node: nat)
    ensures Supernode(s, node, -1).node == Err(NotFound)
  {
  }

  /** The parent of a listed child is the node it was listed for. */
  lemma {:induction false} ParentOfChild(s: seq<byte>, strs: seq<byte>, t: Tree, p: seq<nat>, k: nat)
    requires Decodes(s, strs, t) && IsPath(t, p) && k < |Sub(t, p).kids| && NodeOffset(s, t, []) == 0
    ensures IsPath(t, p + [k]) && ParentOffset(s, NodeOffset(s, t, p + [k])) == Ok(NodeOffset(s, t, p))
  {
    hide Decodes, Before, SymOffset, IsPath, Sub, ParentOffset, NodeOffset;
    BeforeKidPath(t, p, k);
    ParentExact(s, strs, t, p + [k]);
    assert (p + [k])[..|p + [k]| - 1] == p;
  }

  // ---------- Offsets that are no nodes ----------

  /** What the walk answers for an offset where no node begins, from inside the root. */
  lemma {:induction false} SuperMiss(s: seq<byte>, a: nat, depth: nat, want: nat, x: nat, best: Result<nat>, e: nat)
    requires depth > 0 && a % 4 == 0 && EndFrom(s, a, depth - 1) == Ok(e) && CheckNode(s, x).Err?
      && CheckNode(s, e).Err?
    ensures SuperFrom(s, a, depth, want, x, best).node
      == Err(if x < e then BadOffset else if x == e then NotFound else BadStructure)
    decreases if a < |s| then |s| - a else 0
  {
    hide NextTag, Blame;
    var t := NextTag(s, a);
    TagStep(s, a);
    match t.token
    case BeginNode(_) =>
      EndBehind(s, t.next, depth);
      if a < x { SuperMiss(s, t.next, depth + 1, want, x, if depth == want then Ok(a) else best, e); }
    case EndNode => if depth > 1 { SuperMiss(s, t.next, depth - 1, want, x, best, e); }
    case Prop(_, _) => SuperMiss(s, t.next, depth, want, x, best, e);
    case Nop => SuperMiss(s, t.next, depth, want, x, best, e);
    case End =>
  }

  lemma {:induction false} TagStep(s: seq<byte>, a: nat)
    ensures NextTag(s, a).Tok? ==> NextTag(s, a).next % 4 == 0 && a < NextTag(s, a).next
  {
  }

  lemma {:induction false} EndBehind(s: seq<byte>, a: nat, depth: nat)
    ensures EndFrom(s, a, depth).Ok? ==> a < EndFrom(s, a, depth).value
  {
  }

  /** Behind the root only NOPs and FDT_END are left. */
  lemma {:induction false} NothingBehind(s: seq<byte>, strs: seq<byte>, e: nat)
    requires Scan(s, e).Ok? && Syms(strs, Scan(s, e).value) == []
    ensures CheckNode(s, e).Err?
  {
    hide NextTag, GetString;
    if CheckNode(s, e).Ok? { ScanStep(s, strs, e); }
  }

  /**
   An offset where no node begins is refused: inside the root with BADOFFSET, at its end with
   NOTFOUND, behind it with BADSTRUCTURE.
   */
  lemma {:induction false} SupernodeMisses(s: seq<byte>, strs: seq<byte>, t: Tree, x: nat, want: nat)
    requires Decodes(s, strs, t) && NodeOffset(s, t, []) == 0 && CheckNode(s, x).Err?
    ensures NodeEnd(s, 0).Ok?
    ensures var e := NodeEnd(s, 0).value;
      Supernode(s, x, want).node == Err(if x < e then BadOffset else if x == e then NotFound else BadStructure)
  {
    hide Before, Flat, SymOffset, Scan, Syms, Walk, IsPath, Sub, After, NextTag, SuperFrom, EndFrom, Decodes;
    RootBefore(t);
    var pre, mid, e := NodeEndAt(s, strs, t, []);
    NothingBehind(s, strs, e);
    var m := CheckNode(s, 0).value;
    SuperMiss(s, m, 1, want, x, if want == 0 then Ok(0) else Err(Internal), e);
  }

  // ---------- The loop ----------

  /** fdt_supernode_atdepth_offset. */
  method FindSupernode(s: seq<byte>, node: nat, want: int) returns (r: Super)
    ensures r == Supernode(s, node, want)
  {
    hide NextTag, CheckNode;
    if want < 0 { return Super(Err(NotFound), 0); }
    var best: Result<nat> := Err(Internal);
    if want == 0 { best := Ok(0); }
    if node == 0 { return Super(if want > 0 then Err(NotFound) else best, 0); }
    var m := CheckNode(s, 0);
    if m.Err? { return Super(Err(BadStructure), 0); }
    var o, depth := m.value, 1;
    while true
      invariant Supernode(s, node, want) == SuperFrom(s, o, depth, want, node, best)
      decreases if o < |s| then |s| - o else 0
    {
      var t := NextTag(s, o);
      if t.Bad? { return Super(Err(Blame(t.error)), 0); }
      match t.token {
        case End => return Super(Err(BadOffset), 0);
        case BeginNode(_) =>
          if o > node { return Super(Err(BadOffset), 0); }
          if depth == want { best := Ok(o); }
          if o == node { return Super(if want > depth then Err(NotFound) else best, depth); }
          o, depth := t.next, depth + 1;
        case EndNode =>
          if depth > 1 {
            o, depth := t.next, depth - 1;
          } else {
            if t.next > node { return Super(Err(BadOffset), 0); }
            if t.next == node { return Super(Err(NotFound), depth - 2); }
            var c := CheckNode(s, t.next);
            if c.Err? { return Super(Err(BadStructure), 0); }
            o, depth := c.value, depth - 1;
          }
        case Prop(_, _) => o := t.next;
        case Nop => o := t.next;
      }
    }
  }
}
