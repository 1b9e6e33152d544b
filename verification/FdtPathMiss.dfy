/**
 Offsets for which there is no path (libfdt/fdt_ro.c): inside the root fdt_get_path refuses them;
 from the root's end on it takes back more components than it has, and steps out of its buffer.
 */
module FdtPathMiss {
  import opened Bytes
  import opened FdtTokens
  import opened FdtTree
  import opened FdtRead
  import opened FdtNode
  import opened FdtNav
  import opened FdtPath
  import opened FdtPathWalk
  import opened FdtPathExact

  /** The sheet behind the symbols. */
  function Fold(ss: seq<Sym>, depth: nat, buflen: nat, sh: Sheet): (r: Sheet)
    decreases |ss|
  {
    if ss == [] then sh
    else match ss[0]
      case Open(name) => Fold(ss[1..], depth + 1, buflen, Meet(sh, depth, name, buflen))
      case Close => Fold(ss[1..], if depth > 0 then depth - 1 else 0, buflen, sh)
      case Attr(_) => Fold(ss[1..], depth, buflen, sh)
      case Bogus => Fold(ss[1..], depth, buflen, sh)
  }

  lemma {:induction false} FoldAttrs(ps: seq<Property>, x: seq<Sym>, depth: nat, buflen: nat, sh: Sheet)
    ensures Fold(Attrs(ps) + x, depth, buflen, sh) == Fold(x, depth, buflen, sh)
    decreases |ps|
  {
    hide Meet;
    var ss := Attrs(ps) + x;
    if ps == [] {
      assert ss == x;
    } else {
      assert ss[1..] == Attrs(ps[1..]) + x && ss[0] == Attr(ps[0]);
      FoldAttrs(ps[1..], x, depth, buflen, sh);
    }
  }

  lemma {:induction false} FoldHead(ss: seq<Sym>, depth: nat, buflen: nat, sh: Sheet)
    requires ss != [] && (ss[0].Open? || ss[0].Close?)
    ensures ss[0].Open? ==>
      Fold(ss, depth, buflen, sh) == Fold(ss[1..], depth + 1, buflen, Meet(sh, depth, ss[0].name, buflen))
    ensures ss[0].Close? && depth > 0 ==> Fold(ss, depth, buflen, sh) == Fold(ss[1..], depth - 1, buflen, sh)
  {
    hide Meet;
  }

  lemma {:induction false} FoldTree(t: Tree, x: seq<Sym>, depth: nat, buflen: nat, sh: Sheet)
    ensures Fold(Flat(t) + x, depth, buflen, sh) == Fold(x, depth, buflen, Pass(t, depth, buflen, sh))
    decreases t, 1
  {
    hide Flat, FlatAll, Attrs, Fold, Meet, PassAll;
    FlatHead(t, x);
    var z := [Close] + x;
    var e := Meet(sh, depth, t.name, buflen);
    FoldHead(Flat(t) + x, depth, buflen, sh);
    FoldAttrs(t.props, FlatAll(t.kids) + z, depth + 1, buflen, e);
    FoldTrees(t.kids, z, depth + 1, buflen, e);
    FoldHead(z, depth + 1, buflen, PassAll(t.kids, depth + 1, buflen, e));
    assert z[1..] == x;
  }

  lemma {:induction false} FoldTrees(ks: seq<Tree>, x: seq<Sym>, depth: nat, buflen: nat, sh: Sheet)
    ensures Fold(FlatAll(ks) + x, depth, buflen, sh) == Fold(x, depth, buflen, PassAll(ks, depth, buflen, sh))
    decreases ks, 0
  {
    hide Flat, Fold, Pass;
    if ks == [] {
      assert FlatAll(ks) + x == x;
    } else {
      assert FlatAll(ks) + x == Flat(ks[0]) + (FlatAll(ks[1..]) + x);
      FoldTree(ks[0], FlatAll(ks[1..]) + x, depth, buflen, sh);
      FoldTrees(ks[1..], x, depth, buflen, Pass(ks[0], depth, buflen, sh));
    }
  }

  // ---------- Behind the root ----------

  /** From inside the root the walk to an offset at or behind its end comes to the end, one level too high. */
  lemma {:induction false} WalkOut(s: seq<byte>, strs: seq<byte>, a: nat, depth: nat, x: nat, buflen: nat, sh: Sheet,
                                   e: nat)
    requires a % 4 == 0 && depth > 0 && Scan(s, a).Ok? && EndFrom(s, a, depth - 1) == Ok(e) && e <= x && Wf(sh)
    requires Scan(s, e).Ok? && Syms(strs, Scan(s, e).value) == []
    ensures var r := Fold(Syms(strs, Scan(s, a).value), depth, buflen, sh);
      Wf(r) && PathFrom(s, a, depth, x, buflen, SheetDraft(sh)) == Visit(s, e, -1, x, buflen, SheetDraft(r))
    decreases if a < |s| then |s| - a else 0
  {
    hide NextTag, Syms, GetString, Meet, SheetDraft, Visit, Wf;
    var t, n := NextTag(s, a).token, NextTag(s, a).next;
    TagStep(s, a);
    ScanStep(s, strs, a);
    var tail := Syms(strs, Scan(s, n).value);
    assert !t.Nop? ==> (SymsOf(strs, t) + tail)[1..] == tail;
    assert t.Nop? ==> SymsOf(strs, t) + tail == tail;
    match t
    case BeginNode(name) =>
      EndBehind(s, n, depth);
      VisitNode(s, a, depth, x, buflen, sh);
      MeetWf(sh, depth, name, buflen);
      WalkOut(s, strs, n, depth + 1, x, buflen, Meet(sh, depth, name, buflen), e);
    case EndNode => if depth > 1 { WalkOut(s, strs, n, depth - 1, x, buflen, sh, e); }
    case Prop(_, _) => WalkOut(s, strs, n, depth, x, buflen, sh, e);
    case Nop => WalkOut(s, strs, n, depth, x, buflen, sh, e);
    case End =>
  }

  lemma {:induction false} MeetWf(sh: Sheet, depth: nat, name: Name, buflen: nat)
    requires Wf(sh)
    ensures Wf(Meet(sh, depth, name, buflen))
  {
  }

  /** There every component is taken back, and one more; it stays in the buffer if two slashes are left over. */
  lemma {:induction false} RoundBehind(s: seq<byte>, e: nat, x: nat, buflen: nat, sh: Sheet)
    requires e <= x && CheckNode(s, e).Err? && Wf(sh)
    ensures Visit(s, e, -1, x, buflen, SheetDraft(sh)) == Err(if Pend(sh, 0) < 2 then Wild else BadOffset)
  {
    hide NextTag, Slashes, LayersText, PopTo, Pend, PathFrom;
    TextPad(sh);
    TextSlashes(sh);
    PopToExact(Text(sh), |sh.layers|, -1);
  }

  /** The root with everything below it, and what the walk makes of it. */
  lemma {:induction false} RootWalk(s: seq<byte>, strs: seq<byte>, t: Tree) returns (m: nat, e: nat)
    requires Decodes(s, strs, t) && NodeOffset(s, t, []) == 0
    ensures CheckNode(s, 0) == Ok(m) && NextTag(s, 0).token == BeginNode(t.name) && Scan(s, m).Ok?
    ensures Syms(strs, Scan(s, m).value) == Inner(t)
    ensures NodeEnd(s, 0) == Ok(e) && Scan(s, e).Ok? && Syms(strs, Scan(s, e).value) == [] && CheckNode(s, e).Err?
  {
    hide Before, Flat, SymOffset, Scan, Syms, Walk, IsPath, Sub, After, NextTag, EndFrom, Decodes, Inner;
    RootBefore(t);
    var pre;
    pre, m := AtNode(s, strs, t, []);
    assert Inner(t) + [] == Inner(t);
    var pre2, mid;
    pre2, mid, e := NodeEndAt(s, strs, t, []);
    NothingBehind(s, strs, e);
  }

  /** Slashes in the names that went into the buffer, over the whole tree. */
  function AllSlashes(t: Tree, buflen: nat): (n: nat) { Pend(Pass(t, 0, buflen, BLANK), 0) }

  /** From the root's end on the call steps out of its buffer, unless two slashes in names save it. */
  lemma {:induction false} GetPathBehind(s: seq<byte>, strs: seq<byte>, t: Tree, x: nat, buflen: nat)
    requires Decodes(s, strs, t) && NodeOffset(s, t, []) == 0 && buflen >= 2
    requires NodeEnd(s, 0).Ok? && NodeEnd(s, 0).value <= x
    ensures GetPath(s, x, buflen) == Err(if AllSlashes(t, buflen) < 2 then Wild else BadOffset)
  {
    hide Decodes, Scan, Syms, NextTag, EndFrom, PathFrom, Visit, Meet, SheetDraft, Fold, Pend, PassAll, GetPath, Flat,
      FlatAll, Attrs, NodeOffset, Wf;
    var m, e := RootWalk(s, strs, t);
    RootRound(s, x, buflen);
    BlankTop();
    RootStep(s, x, buflen);
    var r := Meet(BLANK, 0, t.name, buflen);
    MeetWf(BLANK, 0, t.name, buflen);
    RootInside(s, m, e);
    WalkOut(s, strs, m, 1, x, buflen, r, e);
    InnerFold(t, 1, buflen, r);
    RoundBehind(s, e, x, buflen, Pass(t, 0, buflen, BLANK));
  }

  lemma {:induction false} RootInside(s: seq<byte>, m: nat, e: nat)
    requires CheckNode(s, 0) == Ok(m) && NodeEnd(s, 0) == Ok(e)
    ensures EndFrom(s, m, 0) == Ok(e) && m % 4 == 0 && 0 < m < e
  {
    hide NextTag;
    EndBehind(s, m, 0);
  }

  lemma {:induction false} RootStep(s: seq<byte>, x: nat, buflen: nat)
    requires CheckNode(s, 0).Ok? && x > 0
    ensures PathFrom(s, 0, 0, x, buflen, SheetDraft(BLANK))
         == PathFrom(s, CheckNode(s, 0).value, 1, x, buflen,
           SheetDraft(Meet(BLANK, 0, NextTag(s, 0).token.name, buflen)))
  {
    hide NextTag, Meet, SheetDraft, Visit;
    BlankTop();
    VisitNode(s, 0, 0, x, buflen, BLANK);
  }

  lemma {:induction false} InnerFold(t: Tree, depth: nat, buflen: nat, sh: Sheet)
    requires depth > 0
    ensures Fold(Inner(t), depth, buflen, sh) == PassAll(t.kids, depth, buflen, sh)
  {
    hide Fold, PassAll, FlatAll, Attrs;
    assert Inner(t) == Attrs(t.props) + (FlatAll(t.kids) + [Close]);
    FoldAttrs(t.props, FlatAll(t.kids) + [Close], depth, buflen, sh);
    FoldTrees(t.kids, [Close], depth, buflen, sh);
    FoldClose(depth, buflen, PassAll(t.kids, depth, buflen, sh));
  }

  lemma {:induction false} FoldClose(depth: nat, buflen: nat, sh: Sheet)
    ensures Fold([Close], depth, buflen, sh) == sh
  {
    assert [Close][1..] == [];
  }

  // ---------- Inside the root ----------

  /** Up to the root's end nothing is taken back that is not there. */
  lemma {:induction false} WalkTame(s: seq<byte>, a: nat, depth: nat, x: nat, buflen: nat, sh: Sheet, e: nat)
    requires a % 4 == 0 && depth > 0 && EndFrom(s, a, depth - 1) == Ok(e) && x < e && Wf(sh)
    ensures var r := PathFrom(s, a, depth, x, buflen, SheetDraft(sh));
      r != Err(Wild) && (CheckNode(s, x).Err? ==> r == Err(BadOffset))
    decreases if a < |s| then |s| - a else 0
  {
    hide NextTag, Meet, SheetDraft, Visit, Wf;
    var t, n := NextTag(s, a).token, NextTag(s, a).next;
    TagStep(s, a);
    match t
    case BeginNode(name) =>
      if a <= x {
        VisitNode(s, a, depth, x, buflen, sh);
        MeetWf(sh, depth, name, buflen);
        if a < x { WalkTame(s, n, depth + 1, x, buflen, Meet(sh, depth, name, buflen), e); }
      } else {
        VisitPast(s, a, depth, x, buflen, SheetDraft(sh));
      }
    case EndNode =>
      if depth > 1 { WalkTame(s, n, depth - 1, x, buflen, sh, e); }
        else { VisitPast(s, n, depth - 2, x, buflen, SheetDraft(sh)); }
    case Prop(_, _) => WalkTame(s, n, depth, x, buflen, sh, e);
    case Nop => WalkTame(s, n, depth, x, buflen, sh, e);
    case End =>
  }

  lemma {:induction false} VisitPast(s: seq<byte>, o: nat, depth: int, x: nat, buflen: nat, d: Draft)
    requires o > x
    ensures Visit(s, o, depth, x, buflen, d) == Err(BadOffset)
  {
  }

  lemma {:induction false} GetPathInside(s: seq<byte>, strs: seq<byte>, t: Tree, x: nat, buflen: nat)
    requires Decodes(s, strs, t) && NodeOffset(s, t, []) == 0 && buflen >= 2
    requires NodeEnd(s, 0).Ok? && x < NodeEnd(s, 0).value
    ensures GetPath(s, x, buflen) != Err(Wild) && (CheckNode(s, x).Err? ==> GetPath(s, x, buflen) == Err(BadOffset))
  {
    hide Decodes, Scan, Syms, NextTag, EndFrom, PathFrom, Visit, Meet, SheetDraft, GetPath, NodeOffset, Inner, Wf,
      Arrived;
    var m, e := RootWalk(s, strs, t);
    RootRound(s, x, buflen);
    BlankTop();
    RootInside(s, m, e);
    if x > 0 {
      RootStep(s, x, buflen);
      MeetWf(BLANK, 0, t.name, buflen);
      WalkTame(s, m, 1, x, buflen, Meet(BLANK, 0, t.name, buflen), e);
    } else {
      RootItself(s, buflen);
    }
  }

  lemma {:induction false} RootItself(s: seq<byte>, buflen: nat)
    requires CheckNode(s, 0).Ok? && buflen >= 2
    ensures GetPath(s, 0, buflen) != Err(Wild)
  {
    hide NextTag, Meet, SheetDraft, Visit, PathFrom;
    RootRound(s, 0, buflen);
    BlankTop();
    RootPathFrom(s, buflen);
    VisitNode(s, 0, 0, 0, buflen, BLANK);
  }

  lemma {:induction false} RootPathFrom(s: seq<byte>, buflen: nat)
    requires CheckNode(s, 0).Ok?
    ensures PathFrom(s, 0, 0, 0, buflen, SheetDraft(BLANK)) == Visit(s, 0, 0, 0, buflen, SheetDraft(BLANK))
  {
    hide NextTag, SheetDraft, Visit;
  }

  /**
   For every offset: the call steps out of its buffer if and only if the offset is at or behind the
   root's end and the names in the buffer hold fewer than two slashes.
   */
  lemma {:induction false} GetPathWild(s: seq<byte>, strs: seq<byte>, t: Tree, x: nat, buflen: nat)
    requires Decodes(s, strs, t) && NodeOffset(s, t, []) == 0
    ensures NodeEnd(s, 0).Ok?
    ensures GetPath(s, x, buflen) == Err(Wild) <==> buflen >= 2 && x >= NodeEnd(s, 0).value && AllSlashes(t, buflen) < 2
  {
    hide Decodes, GetPath, NodeOffset, NodeEnd, AllSlashes, Scan, Syms, NextTag, Inner;
    var m, e := RootWalk(s, strs, t);
    if buflen < 2 {
      SmallBuffer(s, x, buflen);
    } else if x < e {
      GetPathInside(s, strs, t, x, buflen);
    } else {
      GetPathBehind(s, strs, t, x, buflen);
    }
  }

  /** All names of a tree are free of slashes. */
  predicate SlashFree(t: Tree)
    decreases t
  {
    NoSlash(t.name) && forall k :: k in t.kids ==> SlashFree(k)
  }

  lemma {:induction false} FreeClean(t: Tree, len: nat, buflen: nat)
    requires SlashFree(t)
    ensures !Dirty(t, len, buflen)
    decreases t, 1
  {
    FreeAllClean(t.kids, len + |t.name| + 1, buflen);
  }

  lemma {:induction false} FreeAllClean(ks: seq<Tree>, len: nat, buflen: nat)
    requires forall k :: k in ks ==> SlashFree(k)
    ensures !DirtyAny(ks, len, buflen)
    decreases ks, 0
  {
    hide Dirty, SlashFree;
    if ks != [] {
      FreeClean(ks[0], len, buflen);
      FreeAllClean(ks[1..], len, buflen);
    }
  }

  /** Without slashes in names the buffer is left exactly for offsets at or behind the root's end. */
  lemma {:induction false} WildWithoutSlashes(s: seq<byte>, strs: seq<byte>, t: Tree, x: nat, buflen: nat)
    requires Decodes(s, strs, t) && NodeOffset(s, t, []) == 0 && SlashFree(t) && buflen >= 2
    ensures NodeEnd(s, 0).Ok? && (GetPath(s, x, buflen) == Err(Wild) <==> x >= NodeEnd(s, 0).value)
  {
    hide Decodes, GetPath, NodeOffset, NodeEnd, Pend, Pass, Dirty, SlashFree, Render, Top;
    GetPathWild(s, strs, t, x, buflen);
    BlankTop();
    FreeClean(t, |Render(Top(BLANK, 0))|, buflen);
    PassClean(t, 0, buflen, BLANK);
  }
}
