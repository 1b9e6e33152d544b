/**
 What the walk of fdt_get_path (libfdt/fdt_ro.c) leaves in its buffer when it reaches a node, for
 every decodable blob.
 */
module FdtPathWalk {
  import opened Bytes
  import opened FdtTokens
  import opened FdtTree
  import opened FdtRead
  import opened FdtNode
  import opened FdtNav
  import opened FdtPath

  /** The answer at a node of that depth. */
  function Arrived(sh: Sheet, depth: nat): (r: Result<seq<byte>>) {
    if |sh.layers| < depth + 1 then Err(NoSpace) else Ok(Strip(Text(sh)))
  }

  /** The walk on symbols, positions counted from `i`. */
  function SheetSym(ss: seq<Sym>, i: nat, depth: nat, target: nat, buflen: nat, sh: Sheet): (r: Result<seq<byte>>)
    decreases |ss|
  {
    if ss == [] then Err(BadOffset)
    else match ss[0]
      case Open(name) =>
        var e := Meet(sh, depth, name, buflen);
        if i == target then Arrived(e, depth) else SheetSym(ss[1..], i + 1, depth + 1, target, buflen, e)
      case Close => if depth > 1 then SheetSym(ss[1..], i + 1, depth - 1, target, buflen, sh) else Err(BadOffset)
      case Attr(_) => SheetSym(ss[1..], i + 1, depth, target, buflen, sh)
      case Bogus => SheetSym(ss[1..], i + 1, depth, target, buflen, sh)
  }

  // ---------- From bytes to symbols ----------

  /** One round at a node in front of the target. */
  lemma {:induction false} VisitNode(s: seq<byte>, o: nat, depth: nat, target: nat, buflen: nat, sh: Sheet)
    requires o % 4 == 0 && NextTag(s, o).Tok? && NextTag(s, o).token.BeginNode? && o <= target
    requires Wf(sh) && (depth > 0 || sh.layers == [])
    ensures var e := Meet(sh, depth, NextTag(s, o).token.name, buflen);
      Visit(s, o, depth, target, buflen, SheetDraft(sh))
        == if o == target then Arrived(e, depth)
          else PathFrom(s, NextTag(s, o).next, depth + 1, target, buflen, SheetDraft(e))
  {
    hide NextTag, PopTo, Pushed, Meet, Text, PathFrom, Wf;
    MeetSheet(sh, depth, NextTag(s, o).token.name, buflen);
  }

  lemma {:induction false} PathFromSheet(s: seq<byte>, strs: seq<byte>, a: nat, pre: seq<Token>, depth: nat,
                                         target: nat, buflen: nat, sh: Sheet)
    requires Scan(s, 0).Ok? && Walk(s, 0, pre, a) && Scan(s, a).Ok?
    requires Syms(strs, Scan(s, 0).value) == Syms(strs, pre) + Syms(strs, Scan(s, a).value)
    requires |Syms(strs, pre)| <= target < |Syms(strs, Scan(s, 0).value)| && Syms(strs, Scan(s, 0).value)[target].Open?
    requires Wf(sh) && (depth > 0 || sh.layers == [])
    requires SheetSym(Syms(strs, Scan(s, a).value), |Syms(strs, pre)|, depth, target, buflen, sh) != Err(BadOffset)
    ensures PathFrom(s, a, depth, SymOffset(s, 0, target), buflen, SheetDraft(sh))
         == SheetSym(Syms(strs, Scan(s, a).value), |Syms(strs, pre)|, depth, target, buflen, sh)
    decreases if a < |s| then |s| - a else 0
  {
    hide NextTag, Syms, GetString, SymOffset, Walk, Meet, Scan, Arrived, SheetDraft, Visit, Wf;
    Advance(s, strs, a, pre);
    WalkBounds(s, 0, pre, a);
    var t, n, i := NextTag(s, a).token, NextTag(s, a).next, |Syms(strs, pre)|;
    if t.Nop? {
      PathFromSheet(s, strs, n, pre + [t], depth, target, buflen, sh);
    } else if t.BeginNode? {
      if i != target { SymOffsetGrows(s, strs, 0, i, target); }
      VisitNode(s, a, depth, SymOffset(s, 0, target), buflen, sh);
      if i != target {
        PathFromSheet(s, strs, n, pre + [t], depth + 1, target, buflen, Meet(sh, depth, t.name, buflen));
      }
    } else if t.EndNode? {
      if depth > 1 { PathFromSheet(s, strs, n, pre + [t], depth - 1, target, buflen, sh); }
    } else if t.Prop? {
      PathFromSheet(s, strs, n, pre + [t], depth, target, buflen, sh);
    }
  }

  // ---------- From symbols to trees ----------

  /** The sheet once a whole subtree has been passed. */
  function Pass(t: Tree, depth: nat, buflen: nat, sh: Sheet): (r: Sheet)
    decreases t
  {
    PassAll(t.kids, depth + 1, buflen, Meet(sh, depth, t.name, buflen))
  }

  function PassAll(ks: seq<Tree>, depth: nat, buflen: nat, sh: Sheet): (r: Sheet)
    decreases ks
  {
    if ks == [] then sh else PassAll(ks[1..], depth, buflen, Pass(ks[0], depth, buflen, sh))
  }

  /** The sheet when the node at `p` has been met. */
  function Arrive(t: Tree, p: seq<nat>, depth: nat, buflen: nat, sh: Sheet): (r: Sheet)
    requires IsPath(t, p)
    decreases |p|
  {
    var e := Meet(sh, depth, t.name, buflen);
    if p == [] then e
      else Arrive(t.kids[p[0]], p[1..], depth + 1, buflen, PassAll(t.kids[..p[0]], depth + 1, buflen, e))
  }

  lemma {:induction false} SheetAttrs(ps: seq<Property>, x: seq<Sym>, i: nat, depth: nat, target: nat, buflen: nat,
                                      sh: Sheet)
    ensures SheetSym(Attrs(ps) + x, i, depth, target, buflen, sh) == SheetSym(x, i + |ps|, depth, target, buflen, sh)
    decreases |ps|
  {
    hide Meet, Arrived;
    var ss := Attrs(ps) + x;
    if ps == [] {
      assert ss == x;
    } else {
      assert ss[1..] == Attrs(ps[1..]) + x && ss[0] == Attr(ps[0]);
      SheetAttrs(ps[1..], x, i + 1, depth, target, buflen, sh);
    }
  }

  lemma {:induction false} SheetOpen(ss: seq<Sym>, i: nat, depth: nat, target: nat, buflen: nat, sh: Sheet)
    requires ss != [] && ss[0].Open?
    ensures var e := Meet(sh, depth, ss[0].name, buflen);
      SheetSym(ss, i, depth, target, buflen, sh)
        == if i == target then Arrived(e, depth) else SheetSym(ss[1..], i + 1, depth + 1, target, buflen, e)
  {
    hide Meet, Arrived;
  }

  lemma {:induction false} SheetClose(x: seq<Sym>, i: nat, depth: nat, target: nat, buflen: nat, sh: Sheet)
    requires depth > 1
    ensures SheetSym([Close] + x, i, depth, target, buflen, sh) == SheetSym(x, i + 1, depth - 1, target, buflen, sh)
  {
    assert ([Close] + x)[1..] == x;
  }

  lemma {:induction false} SheetTree(t: Tree, x: seq<Sym>, i: nat, depth: nat, target: nat, buflen: nat, sh: Sheet)
    requires depth > 0 && (target < i || i + |Flat(t)| <= target)
    ensures SheetSym(Flat(t) + x, i, depth, target, buflen, sh)
         == SheetSym(x, i + |Flat(t)|, depth, target, buflen, Pass(t, depth, buflen, sh))
    decreases t, 1
  {
    hide Flat, FlatAll, Attrs, SheetSym, Meet, PassAll;
    FlatHead(t, x);
    var z := [Close] + x;
    var e := Meet(sh, depth, t.name, buflen);
    SheetOpen(Flat(t) + x, i, depth, target, buflen, sh);
    SheetAttrs(t.props, FlatAll(t.kids) + z, i + 1, depth + 1, target, buflen, e);
    SheetTrees(t.kids, z, i + 1 + |t.props|, depth + 1, target, buflen, e);
    SheetClose(x, i + 1 + |t.props| + |FlatAll(t.kids)|, depth + 1, target, buflen,
      PassAll(t.kids, depth + 1, buflen, e));
  }

  lemma {:induction false} SheetTrees(ks: seq<Tree>, x: seq<Sym>, i: nat, depth: nat, target: nat, buflen: nat,
                                      sh: Sheet)
    requires depth > 0 && (target < i || i + |FlatAll(ks)| <= target)
    ensures SheetSym(FlatAll(ks) + x, i, depth, target, buflen, sh)
         == SheetSym(x, i + |FlatAll(ks)|, depth, target, buflen, PassAll(ks, depth, buflen, sh))
    decreases ks, 0
  {
    hide Flat, SheetSym, Pass;
    if ks == [] {
      assert FlatAll(ks) + x == x;
    } else {
      assert FlatAll(ks) + x == Flat(ks[0]) + (FlatAll(ks[1..]) + x);
      SheetTree(ks[0], FlatAll(ks[1..]) + x, i, depth, target, buflen, sh);
      SheetTrees(ks[1..], x, i + |Flat(ks[0])|, depth, target, buflen, Pass(ks[0], depth, buflen, sh));
    }
  }

  lemma {:induction false} SheetFind(t: Tree, p: seq<nat>, x: seq<Sym>, i: nat, depth: nat, buflen: nat, sh: Sheet)
    requires IsPath(t, p)
    ensures SheetSym(Flat(t) + x, i, depth, i + |Before(t, p)|, buflen, sh)
      == Arrived(Arrive(t, p, depth, buflen, sh), depth + |p|)
    decreases |p|
  {
    hide Flat, FlatAll, Attrs, SheetSym, Meet, PassAll, Arrived;
    FlatHead(t, x);
    SheetOpen(Flat(t) + x, i, depth, i + |Before(t, p)|, buflen, sh);
    if p != [] { SheetDown(t, p, x, i, depth, buflen, Meet(sh, depth, t.name, buflen)); }
  }

  lemma {:induction false} SheetDown(t: Tree, p: seq<nat>, x: seq<Sym>, i: nat, depth: nat, buflen: nat, e: Sheet)
    requires IsPath(t, p) && p != []
    ensures |Before(t, p)| > 0
    ensures SheetSym((Flat(t) + x)[1..], i + 1, depth + 1, i + |Before(t, p)|, buflen, e)
         == Arrived(Arrive(t.kids[p[0]], p[1..], depth + 1, buflen, PassAll(t.kids[..p[0]], depth + 1, buflen, e)),
           depth + |p|)
    decreases |p|, 0
  {
    hide Flat, Attrs, SheetSym, FlatAll, PassAll, Arrived, Arrive;
    var j, q := p[0], p[1..];
    var k := t.kids[j];
    var target := i + |Before(t, p)|;
    var y := FlatAll(t.kids[j + 1..]) + ([Close] + x);
    var i1 := i + 1 + |t.props|;
    FlatHead(t, x);
    FlatAllPick(t.kids, j);
    var z := FlatAll(t.kids) + ([Close] + x);
    assert z == FlatAll(t.kids[..j]) + (Flat(k) + y);
    assert |Before(t, p)| == 1 + |t.props| + |FlatAll(t.kids[..j])| + |Before(k, q)|;
    SheetAttrs(t.props, z, i + 1, depth + 1, target, buflen, e);
    SheetTrees(t.kids[..j], Flat(k) + y, i1, depth + 1, target, buflen, e);
    SheetFind(k, q, y, i1 + |FlatAll(t.kids[..j])|, depth + 1, buflen, PassAll(t.kids[..j], depth + 1, buflen, e));
  }

  /** fdt_get_path at a node, in a buffer it does not refuse at once. */
  lemma {:induction false} GetPathAt(s: seq<byte>, strs: seq<byte>, t: Tree, p: seq<nat>, buflen: nat)
    requires Decodes(s, strs, t) && IsPath(t, p) && NodeOffset(s, t, []) == 0 && buflen >= 2
    ensures GetPath(s, NodeOffset(s, t, p), buflen) == Arrived(Arrive(t, p, 0, buflen, BLANK), |p|)
  {
    hide Before, Flat, SymOffset, Scan, Syms, Walk, IsPath, Sub, After, NextTag, SheetSym, PathFrom, Visit, Arrived,
      Arrive, SheetDraft;
    RootBefore(t);
    var m := RootTail(s, strs, t);
    PathOpen(t, p);
    assert Flat(t) + [] == Flat(t);
    SheetFind(t, p, [], 0, 0, buflen, BLANK);
    ArrivedNot(Arrive(t, p, 0, buflen, BLANK), |p|);
    SymsNil(strs);
    assert [] + Flat(t) == Flat(t);
    WalkNone(s);
    PathFromSheet(s, strs, 0, [], 0, |Before(t, p)|, buflen, BLANK);
    RootRound(s, NodeOffset(s, t, p), buflen);
  }

  lemma {:induction false} RootRound(s: seq<byte>, target: nat, buflen: nat)
    requires CheckNode(s, 0).Ok? && buflen >= 2
    ensures GetPath(s, target, buflen) == PathFrom(s, 0, 0, target, buflen, SheetDraft(BLANK))
  {
    hide NextTag, Visit;
    assert SheetDraft(BLANK) == Draft([], 0);
  }

  lemma {:induction false} WalkNone(s: seq<byte>)
    ensures Walk(s, 0, [], 0)
  {
  }

  lemma {:induction false} ArrivedNot(sh: Sheet, depth: nat)
    ensures Arrived(sh, depth) != Err(BadOffset)
  {
  }
}
