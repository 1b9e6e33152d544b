/**
 Merging an overlay node into the base tree: overlay_apply_node (libfdt/fdt_overlay.c).
 */
module FdtOverlay {
  import opened Bytes
  import opened Options
  import opened FdtTokens
  import opened FdtTree
  import opened FdtRead
  import opened FdtNode
  import opened FdtBlob
  import opened FdtSplice
  import opened FdtMoves
  import opened FdtEdit
  import opened FdtEditNode

  // ---------- The code ----------

  /** The property loop of overlay_apply_node; `o` lies behind a tag of the overlay `s`. */
  function ApplyProps(b: Blob, target: nat, s: seq<byte>, strs: seq<byte>, o: nat): (r: Out<()>)
    requires |s| < INT32_MAX
    decreases if o < |s| then |s| - o else 0
  {
    var t := NextTag(s, o);
    if t.Bad? || t.token.End? then Out(Ok(()), b)
    else if t.token.Nop? then ApplyProps(b, target, s, strs, t.next)
    else if t.token.Prop? then
      var name := GetString(strs, t.token.nameoff);
      if name.Err? then Out(Err(name.error), b)
      else
        var c := SetProp(b, target, name.value, t.token.value);
        if c.r.Err? then c else ApplyProps(c.blob, target, s, strs, t.next)
    else Out(Ok(()), b)
  }

  /** The base node for an overlay child: a new one, or the one the name selects. */
  function Target(b: Blob, target: nat, name: seq<byte>): (r: Out<nat>)
  {
    var a := AddSubnode(b, target, name);
    if a.r == Err(Exists) && b.Ordered() then
      var f := FindChild(b.Struct(), target, name);
      Out(if f == Err(NotFound) then Err(Internal) else f, b)
    else a
  }

  function ApplyNode(b: Blob, target: nat, s: seq<byte>, strs: seq<byte>, node: nat): (r: Out<()>)
    requires |s| < INT32_MAX
    decreases if node < |s| then |s| - node else 0, 0
  {
    var m := CheckNode(s, node);
    if m.Err? then Out(Ok(()), b)
    else
      var c := ApplyProps(b, target, s, strs, m.value);
      if c.r.Err? then c else ApplyKids(c.blob, target, s, strs, FirstSubnode(s, node))
  }

  /** The child loop of overlay_apply_node, from child `at` on. */
  function ApplyKids(b: Blob, target: nat, s: seq<byte>, strs: seq<byte>, at: Result<nat>): (r: Out<()>)
    requires |s| < INT32_MAX
    decreases if at.Ok? && at.value < |s| then |s| - at.value else 0, 1
  {
    if at.Err? || NextTag(s, at.value).Bad? || !NextTag(s, at.value).token.BeginNode? then Out(Ok(()), b)
    else
      var n := Target(b, target, NextTag(s, at.value).token.name);
      if n.r.Err? then Out(Err(n.r.error), n.blob)
      else
        var c := ApplyNode(n.blob, n.r.value, s, strs, at.value);
        if c.r.Err? then c else ApplyKids(c.blob, target, s, strs, NextSubnode(s, at.value))
  }

  // ---------- The merge of trees ----------

  function MergeProps(n: Tree, ps: seq<Property>): (r: Tree)
    decreases |ps|
  {
    if ps == [] then n else MergeProps(WithProp(n, ps[0].name, ps[0].value), ps[1..])
  }

  /** Overlay properties win; each overlay child is merged into the child its name selects, or a new one. */
  function Merge(n: Tree, o: Tree): (r: Tree)
    decreases o
  {
    MergeKids(MergeProps(n, o.props), o.kids)
  }

  function MergeKids(n: Tree, ks: seq<Tree>): (r: Tree)
    decreases ks
  {
    if ks == [] then n
    else
      var j := FirstKid(n.kids, Named(ks[0].name));
      var m := if j < |n.kids| then n else WithKid(n, ks[0].name);
      var i := if j < |n.kids| then j else 0;
      MergeKids(m.(kids := m.kids[i := Merge(m.kids[i], ks[0])]), ks[1..])
  }

  // ---------- The room a merge takes ----------

  /** The bytes in use and the strings block. */
  datatype Use = Use(size: int, strs: seq<byte>)

  function UseOf(b: Blob): Use
    requires b.Ordered()
  {
    Use(b.DataSize(), b.Strings())
  }

  /** Setting a property takes the difference of the values, or the header, the value and the name. */
  function SetUse(u: Use, n: Tree, name: seq<byte>, val: seq<byte>): Use {
    var k := FirstProp(n.props, name);
    if k < |n.props| then Use(u.size + Align4(|val|) - Align4(|n.props[k].value|), u.strs)
    else Use(u.size + |Added(u.strs, name)| + 12 + Align4(|val|), u.strs + Added(u.strs, name))
  }

  /** A child takes its tags and name if the node has none of that name. */
  function KidUse(u: Use, n: Tree, name: seq<byte>): Use {
    if FirstKid(n.kids, Named(name)) < |n.kids| then u else Use(u.size + |NodeBytes(name)|, u.strs)
  }

  /** The use after setting properties one by one, or None as soon as one exceeds the buffer. */
  function PropsUse(u: Use, n: Tree, ps: seq<Property>, cap: nat): (r: Option<Use>)
    decreases |ps|
  {
    if ps == [] then Some(u)
    else
      var v := SetUse(u, n, ps[0].name, ps[0].value);
      if v.size > cap then None else PropsUse(v, WithProp(n, ps[0].name, ps[0].value), ps[1..], cap)
  }

  /** The same for a whole merge. */
  function MergeUse(u: Use, n: Tree, o: Tree, cap: nat): (r: Option<Use>)
    decreases o
  {
    var v := PropsUse(u, n, o.props, cap);
    if v.None? then None else KidsUse(v.value, MergeProps(n, o.props), o.kids, cap)
  }

  function KidsUse(u: Use, n: Tree, ks: seq<Tree>, cap: nat): (r: Option<Use>)
    decreases ks
  {
    if ks == [] then Some(u)
    else
      var j := FirstKid(n.kids, Named(ks[0].name));
      var m := if j < |n.kids| then n else WithKid(n, ks[0].name);
      var i := if j < |n.kids| then j else 0;
      var v := KidUse(u, n, ks[0].name);
      if v.size > cap then None
      else
        var w := MergeUse(v, m.kids[i], ks[0], cap);
        if w.None? then None else KidsUse(w.value, m.(kids := m.kids[i := Merge(m.kids[i], ks[0])]), ks[1..], cap)
  }

  /** A call that fits exactly if the use does, and then leaves that use. */
  predicate Takes(r: Out<()>, u: Option<Use>) {
    && (r.r.Ok? <==> u.Some?) && (r.r.Err? ==> r.r.error == NoSpace)
    && (r.r.Ok? ==> r.blob.Ordered() && UseOf(r.blob) == u.value)
  }

  lemma {:induction false} SetUses(b: Blob, c: Blob, n: Tree, name: seq<byte>, val: seq<byte>)
    requires b.Ordered() && Grew(b, c, SetNeed(b, n, name, val), SetNames(b, n, name))
    ensures UseOf(c) == SetUse(UseOf(b), n, name, val)
  {
    hide Added, Align4;
    assert b.Strings() + [] == b.Strings();
  }

  lemma {:induction false} SetFits(b: Blob, n: Tree, name: seq<byte>, val: seq<byte>)
    requires b.Ordered()
    ensures SetUse(UseOf(b), n, name, val).size == b.DataSize() + SetNeed(b, n, name, val)
  {
    hide Added, Align4;
  }

  lemma {:induction false} PropsUseStep(u: Use, n: Tree, ps: seq<Property>, cap: nat)
    requires ps != []
    ensures var v := SetUse(u, n, ps[0].name, ps[0].value);
      PropsUse(u, n, ps, cap) == if v.size > cap then None
        else PropsUse(v, WithProp(n, ps[0].name, ps[0].value), ps[1..], cap)
  {
    hide SetUse, WithProp;
  }

  /** The tree and the use after one child. */
  lemma {:induction false} KidsUseStep(u: Use, n: Tree, ks: seq<Tree>, k: nat, cap: nat)
    requires k < |ks|
    ensures var j := FirstKid(n.kids, Named(ks[k].name)); var m := if j < |n.kids| then n else WithKid(n, ks[k].name);
      var i := if j < |n.kids| then j else 0; var v := KidUse(u, n, ks[k].name);
      && KidsUse(u, n, ks[k..], cap) ==
        (if v.size > cap then None
         else
           var w := MergeUse(v, m.kids[i], ks[k], cap);
           if w.None? then None
             else KidsUse(w.value, m.(kids := m.kids[i := Merge(m.kids[i], ks[k])]), ks[k + 1..], cap))
      && MergeKids(n, ks[k..]) == MergeKids(m.(kids := m.kids[i := Merge(m.kids[i], ks[k])]), ks[k + 1..])
  {
    hide MergeUse, KidUse, Merge, NameEq;
    assert ks[k..][0] == ks[k] && ks[k..][1..] == ks[k + 1..];
  }

  // ---------- Composing refinements ----------

  lemma {:induction false} PutPut(t: Tree, p: seq<nat>, n: Tree, m: Tree)
    requires IsPath(t, p)
    ensures IsPath(Put(t, p, n), p) && Put(Put(t, p, n), p, m) == Put(t, p, m)
    decreases |p|
  {
    if p != [] {
      PutPut(t.kids[p[0]], p[1..], n, m);
      assert t.kids[p[0] := Put(t.kids[p[0]], p[1..], n)][p[0] := Put(t.kids[p[0]], p[1..], m)]
        == t.kids[p[0] := Put(t.kids[p[0]], p[1..], m)];
    }
  }

  lemma {:induction false} PutSelf(t: Tree, p: seq<nat>)
    requires IsPath(t, p)
    ensures Put(t, p, Sub(t, p)) == t
    decreases |p|
  {
    if p != [] {
      PutSelf(t.kids[p[0]], p[1..]);
      assert t.kids[p[0] := t.kids[p[0]]] == t.kids;
    }
  }

  lemma {:induction false} PutKid(t: Tree, p: seq<nat>, k: nat, m: Tree)
    requires IsPath(t, p) && k < |Sub(t, p).kids| && IsPath(t, p + [k])
    ensures var n := Sub(t, p); Put(t, p + [k], m) == Put(t, p, n.(kids := n.kids[k := m]))
    decreases |p|
  {
    if p == [] {
      assert (p + [k])[1..] == [];
    } else {
      assert (p + [k])[1..] == p[1..] + [k] && (p + [k])[0] == p[0];
      PutKid(t.kids[p[0]], p[1..], k, m);
    }
  }

  lemma {:induction false} RefinesSelf(b: Blob, t: Tree, p: seq<nat>)
    requires Decoded(b, t) && IsPath(t, p)
    ensures Refines(b, t, p, b, Sub(t, p))
  {
    hide Put, Sub, IsPath, Before, NodeOffset, Decodes;
    PutSelf(t, p);
  }

  lemma {:induction false} RefinesTrans(b: Blob, t: Tree, p: seq<nat>, c: Blob, n: Tree, d: Blob, m: Tree)
    requires b.Ordered() && IsPath(t, p) && Refines(b, t, p, c, n)
    requires IsPath(Put(t, p, n), p) && Refines(c, Put(t, p, n), p, d, m)
    ensures Refines(b, t, p, d, m)
  {
    hide Put, Sub, IsPath, Before, NodeOffset, Decodes;
    var u := Put(t, p, n);
    PutPut(t, p, n, m);
    BeforeStable(t, p, n, p);
    forall q | IsPath(t, q) && |Before(t, q)| <= |Before(t, p)|
      ensures IsPath(Put(t, p, m), q) && Offset(d, Put(t, p, m), q) == Offset(b, t, q)
    {
      BeforeStable(t, p, n, q);
    }
  }

  /** An edit of a child is an edit of its parent. */
  lemma {:induction false} RefinesKid(b: Blob, t: Tree, p: seq<nat>, k: nat, c: Blob, m: Tree)
    requires b.Ordered() && IsPath(t, p) && k < |Sub(t, p).kids| && IsPath(t, p + [k]) && Refines(b, t, p + [k], c, m)
    ensures var n := Sub(t, p); Refines(b, t, p, c, n.(kids := n.kids[k := m]))
  {
    hide Put, Sub, IsPath, Before, NodeOffset, Decodes, Attrs, FlatAll;
    PutKid(t, p, k, m);
    BeforeKid(t, p, k);
  }

  /** The node itself keeps its offset. */
  lemma {:induction false} RefinesOffset(b: Blob, t: Tree, p: seq<nat>, c: Blob, n: Tree)
    requires b.Ordered() && IsPath(t, p) && Refines(b, t, p, c, n)
    ensures Decoded(c, Put(t, p, n)) && IsPath(Put(t, p, n), p) && Sub(Put(t, p, n), p) == n
    ensures Offset(c, Put(t, p, n), p) == Offset(b, t, p) && |c.data| == |b.data|
  {
    hide Put, Sub, IsPath, Before, NodeOffset, Decodes;
    PutFrame(t, p, n);
  }

  // ---------- The loops refine the merge ----------

  lemma {:induction false} ApplyPropsCorrect(b: Blob, t: Tree, p: seq<nat>, s: seq<byte>, strs: seq<byte>, o: nat,
                                             ps: seq<Property>, x: seq<Sym>)
    requires Decoded(b, t) && IsPath(t, p) && |s| < INT32_MAX
    requires Scan(s, o).Ok? && Syms(strs, Scan(s, o).value) == Attrs(ps) + x && x != [] && (x[0].Open? || x[0].Close?)
    ensures var r := ApplyProps(b, Offset(b, t, p), s, strs, o);
      && Takes(r, PropsUse(UseOf(b), Sub(t, p), ps, |b.data|))
      && (r.r.Ok? ==> Refines(b, t, p, r.blob, MergeProps(Sub(t, p), ps)))
    decreases if o < |s| then |s| - o else 0, 0
  {
    hide NextTag, Syms, Attrs, GetString, Put, Sub, IsPath, Before, NodeOffset, Decodes, Refines, SetProp, WithProp;
    var k := NextTag(s, o).token;
    SymsNil(strs);
    if !k.End? {
      ScanStep(s, strs, o);
      var n := NextTag(s, o).next;
      var tail := Syms(strs, Scan(s, n).value);
      if k.Nop? {
        assert SymsOf(strs, k) + tail == tail;
        ApplyPropsCorrect(b, t, p, s, strs, n, ps, x);
      } else {
        AttrsCons(ps, x, SymsOf(strs, k), tail);
        if k.Prop? {
          PropHead(strs, k, ps, x, tail);
          ApplyOne(b, t, p, s, strs, n, ps, x, ps[0].name, ps[0].value);
        } else {
          RefinesSelf(b, t, p);
        }
      }
    }
  }

  lemma {:induction false} PropHead(strs: seq<byte>, k: Token, ps: seq<Property>, x: seq<Sym>, tail: seq<Sym>)
    requires k.Prop? && ps != [] && Attrs(ps) + x == SymsOf(strs, k) + tail
    ensures GetString(strs, k.nameoff) == Ok(ps[0].name) && k.value == ps[0].value
  {
    hide GetString;
    assert (Attrs(ps) + x)[0] == Attr(ps[0]);
  }

  lemma {:induction false} ApplyOne(b: Blob, t: Tree, p: seq<nat>, s: seq<byte>, strs: seq<byte>, n: nat,
                                    ps: seq<Property>, x: seq<Sym>, name: seq<byte>, val: seq<byte>)
    requires Decoded(b, t) && IsPath(t, p) && |s| < INT32_MAX && ps != [] && ps[0] == Property(name, val)
    requires IsCString(name) && |val| < INT32_MAX
    requires Scan(s, n).Ok? && Syms(strs, Scan(s, n).value) == Attrs(ps[1..]) + x && x != []
      && (x[0].Open? || x[0].Close?)
    ensures var c := SetProp(b, Offset(b, t, p), name, val); var u := PropsUse(UseOf(b), Sub(t, p), ps, |b.data|);
      && (c.r.Err? ==> c.r.error == NoSpace && u.None?)
      && (c.r.Ok? ==> var r := ApplyProps(c.blob, Offset(b, t, p), s, strs, n);
           && Takes(r, u)
           && (r.r.Ok? ==> Refines(b, t, p, r.blob, MergeProps(Sub(t, p), ps))))
    decreases if n < |s| then |s| - n else 0, 1
  {
    hide NextTag, Syms, Attrs, Put, Sub, IsPath, Before, NodeOffset, Decodes, Refines, SetProp, WithProp, ApplyProps,
      PropsUse, SetUse, SetNeed, SetNames, Grew, UseOf;
    SetPropCorrect(b, t, p, name, val);
    PropsUseStep(UseOf(b), Sub(t, p), ps, |b.data|);
    SetFits(b, Sub(t, p), name, val);
    var c := SetProp(b, Offset(b, t, p), name, val);
    if c.r.Ok? {
      SetUses(b, c.blob, Sub(t, p), name, val);
      var m := WithProp(Sub(t, p), name, val);
      RefinesOffset(b, t, p, c.blob, m);
      var u := Put(t, p, m);
      ApplyPropsCorrect(c.blob, u, p, s, strs, n, ps[1..], x);
      var r := ApplyProps(c.blob, Offset(b, t, p), s, strs, n);
      if r.r.Ok? {
        RefinesTrans(b, t, p, c.blob, m, r.blob, MergeProps(m, ps[1..]));
      }
    }
  }

  /** The base child that an overlay child is merged into. */
  lemma {:induction false} TargetCorrect(b: Blob, t: Tree, p: seq<nat>, name: seq<byte>)
    requires Decoded(b, t) && IsPath(t, p) && IsCString(name)
    ensures var n := Sub(t, p); var j := FirstKid(n.kids, Named(name)); var r := Target(b, Offset(b, t, p), name);
      var m := if j < |n.kids| then n else WithKid(n, name); var i := if j < |n.kids| then j else 0;
      && (r.r.Ok? <==> KidUse(UseOf(b), n, name).size <= |b.data|) && (r.r.Err? ==> r.r.error == NoSpace)
      && (r.r.Ok? ==>
           && r.blob.Ordered() && UseOf(r.blob) == KidUse(UseOf(b), n, name)
           && Refines(b, t, p, r.blob, m) && Decoded(r.blob, Put(t, p, m)) && i < |m.kids|
           && IsPath(Put(t, p, m), p) && Sub(Put(t, p, m), p) == m && Offset(r.blob, Put(t, p, m), p) == Offset(b, t, p)
           && IsPath(Put(t, p, m), p + [i]) && Sub(Put(t, p, m), p + [i]) == m.kids[i]
           && r.r.value == Offset(r.blob, Put(t, p, m), p + [i]))
  {
    hide NextTag, Put, Sub, IsPath, Before, After, Attrs, FlatAll, NodeOffset, Decodes, Refines, AddSubnode, NodeFrom,
      NodeBytes, Splice, Stable;
    var n := Sub(t, p);
    AddSubnodeCorrect(b, t, p, name);
    HuntAt(b.Struct(), b.Strings(), t, p, Named(name));
    var r := Target(b, Offset(b, t, p), name);
    if r.r.Ok? {
      var j := FirstKid(n.kids, Named(name));
      var m := if j < |n.kids| then n else WithKid(n, name);
      if j < |n.kids| {
        RefinesSelf(b, t, p);
        PutSelf(t, p);
      }
      RefinesOffset(b, t, p, r.blob, m);
      BeforeKid(Put(t, p, m), p, if j < |n.kids| then j else 0);
    }
  }

  /**
   overlay_apply_node refines the merge of the two trees. It fails only for want of room, exactly
   when the merge of the trees would at some point take more than the buffer has.
   */
  lemma {:induction false} ApplyNodeCorrect(b: Blob, t: Tree, p: seq<nat>, s: seq<byte>, strs: seq<byte>, o: Tree,
                                            q: seq<nat>)
    requires Decoded(b, t) && IsPath(t, p) && |s| < INT32_MAX && Decodes(s, strs, o) && IsPath(o, q)
    ensures var r := ApplyNode(b, Offset(b, t, p), s, strs, NodeOffset(s, o, q));
      && Takes(r, MergeUse(UseOf(b), Sub(t, p), Sub(o, q), |b.data|))
      && (r.r.Ok? ==> Refines(b, t, p, r.blob, Merge(Sub(t, p), Sub(o, q))))
    decreases Sub(o, q), 1
  {
    hide NextTag, Syms, Scan, Walk, Attrs, FlatAll, Put, Sub, IsPath, Before, After, NodeOffset, Decodes, Refines,
      ApplyProps, ApplyKids, MergeKids, MergeProps;
    var n := Sub(o, q);
    var pre, m := AtNode(s, strs, o, q);
    InnerTail(n, After(o, q));
    FlatAllNil();
    ApplyPropsCorrect(b, t, p, s, strs, m, n.props, FlatAll(n.kids) + [Close] + After(o, q));
    var c := ApplyProps(b, Offset(b, t, p), s, strs, m);
    if c.r.Ok? {
      var k := MergeProps(Sub(t, p), n.props);
      RefinesOffset(b, t, p, c.blob, k);
      FirstAt(s, strs, o, q);
      ApplyKidsCorrect(c.blob, Put(t, p, k), p, s, strs, o, q, 0);
      var r := ApplyKids(c.blob, Offset(b, t, p), s, strs, FirstSubnode(s, NodeOffset(s, o, q)));
      assert n.kids[0..] == n.kids;
      if r.r.Ok? { RefinesTrans(b, t, p, c.blob, k, r.blob, MergeKids(k, n.kids)); }
    }
  }

  lemma {:induction false} FirstAt(s: seq<byte>, strs: seq<byte>, t: Tree, p: seq<nat>)
    requires Decodes(s, strs, t) && IsPath(t, p)
    ensures FirstSubnode(s, NodeOffset(s, t, p)) == KidAt(s, t, p, 0)
  {
    hide NextTag, Sub, IsPath, Before, NodeOffset, Decodes, NodeFrom, FlatAll;
    HuntAt(s, strs, t, p, Any());
    if Sub(t, p).kids != [] {
      FirstKidAny(Sub(t, p).kids);
    }
    BeforeKidPath(t, p, 0);
  }

  lemma {:induction false} BeforeKidPath(t: Tree, p: seq<nat>, k: nat)
    requires IsPath(t, p)
    ensures k < |Sub(t, p).kids| ==> IsPath(t, p + [k]) && Sub(t, p + [k]) == Sub(t, p).kids[k]
  {
    hide IsPath, Sub, Before, After, FlatAll, Attrs;
    if k < |Sub(t, p).kids| { BeforeKid(t, p, k); }
  }

  /** The offset of child `k`, or NOTFOUND behind the last. */
  ghost function KidAt(s: seq<byte>, t: Tree, p: seq<nat>, k: nat): Result<nat>
    requires IsPath(t, p)
  {
    BeforeKidPath(t, p, k);
    if k < |Sub(t, p).kids| then Ok(NodeOffset(s, t, p + [k])) else Err(NotFound)
  }

  lemma {:induction false} ApplyKidsCorrect(b: Blob, t: Tree, p: seq<nat>, s: seq<byte>, strs: seq<byte>, o: Tree,
                                            q: seq<nat>, k: nat)
    requires Decoded(b, t) && IsPath(t, p) && |s| < INT32_MAX && Decodes(s, strs, o) && IsPath(o, q)
      && k <= |Sub(o, q).kids|
    ensures var r := ApplyKids(b, Offset(b, t, p), s, strs, KidAt(s, o, q, k));
      && Takes(r, KidsUse(UseOf(b), Sub(t, p), Sub(o, q).kids[k..], |b.data|))
      && (r.r.Ok? ==> Refines(b, t, p, r.blob, MergeKids(Sub(t, p), Sub(o, q).kids[k..])))
    decreases Sub(o, q), 0, |Sub(o, q).kids| - k
  {
    hide NextTag, Syms, Scan, Walk, Attrs, FlatAll, Put, Sub, IsPath, Before, After, NodeOffset, Decodes, Refines,
      ApplyProps, ApplyNode, Merge, Target, Inner, NextSubnode, CheckNode;
    var ks := Sub(o, q).kids;
    if k == |ks| {
      RefinesSelf(b, t, p);
    } else {
      BeforeKidPath(o, q, k);
      var pre, m0 := AtNode(s, strs, o, q + [k]);
      var name := ks[k].name;
      CNameOf(s, NodeOffset(s, o, q + [k]));
      TargetCorrect(b, t, p, name);
      var a := Target(b, Offset(b, t, p), name);
      if a.r.Ok? {
        KidStep(b, t, p, s, strs, o, q, k);
      }
    }
  }

  lemma {:induction false} CNameOf(s: seq<byte>, x: nat)
    requires NextTag(s, x).Tok? && NextTag(s, x).token.BeginNode?
    ensures IsCString(NextTag(s, x).token.name)
  {
    hide IsCString;
  }

  /** One round of the child loop. */
  lemma {:induction false} KidStep(b: Blob, t: Tree, p: seq<nat>, s: seq<byte>, strs: seq<byte>, o: Tree, q: seq<nat>,
                                   k: nat)
    requires Decoded(b, t) && IsPath(t, p) && |s| < INT32_MAX && Decodes(s, strs, o) && IsPath(o, q)
      && k < |Sub(o, q).kids|
    requires IsCString(Sub(o, q).kids[k].name) && Target(b, Offset(b, t, p), Sub(o, q).kids[k].name).r.Ok?
    requires KidAt(s, o, q, k).Ok?
    ensures var a := Target(b, Offset(b, t, p), Sub(o, q).kids[k].name);
      var c := ApplyNode(a.blob, a.r.value, s, strs, KidAt(s, o, q, k).value);
      var u := KidsUse(UseOf(b), Sub(t, p), Sub(o, q).kids[k..], |b.data|);
      && (c.r.Err? ==> c.r.error == NoSpace && u.None?)
      && (c.r.Ok? ==> var r := ApplyKids(c.blob, Offset(b, t, p), s, strs, NextSubnode(s, KidAt(s, o, q, k).value));
           && Takes(r, u)
           && (r.r.Ok? ==> Refines(b, t, p, r.blob, MergeKids(Sub(t, p), Sub(o, q).kids[k..]))))
    decreases Sub(o, q), 0, |Sub(o, q).kids| - k, 0
  {
    hide NextTag, Attrs, FlatAll, Put, Sub, IsPath, Before, After, NodeOffset, Decodes, Refines, ApplyNode, ApplyKids,
      Merge, Target, NextSubnode, MergeUse, KidsUse, KidUse, UseOf, MergeKids, NameEq;
    var n, ks := Sub(t, p), Sub(o, q).kids;
    BeforeKidPath(o, q, k);
    KidsUseStep(UseOf(b), n, ks, k, |b.data|);
    TargetCorrect(b, t, p, ks[k].name);
    var a := Target(b, Offset(b, t, p), ks[k].name);
    var j := FirstKid(n.kids, Named(ks[k].name));
    var m := if j < |n.kids| then n else WithKid(n, ks[k].name);
    var i := if j < |n.kids| then j else 0;
    var u := Put(t, p, m);
    RefinesOffset(b, t, p, a.blob, m);
    ApplyNodeCorrect(a.blob, u, p + [i], s, strs, o, q + [k]);
    var c := ApplyNode(a.blob, a.r.value, s, strs, NodeOffset(s, o, q + [k]));
    if c.r.Ok? {
      var m' := m.(kids := m.kids[i := Merge(m.kids[i], ks[k])]);
      RefinesKid(a.blob, u, p, i, c.blob, Merge(m.kids[i], ks[k]));
      RefinesTrans(b, t, p, a.blob, m, c.blob, m');
      RefinesOffset(b, t, p, c.blob, m');
      NextAtKid(s, strs, o, q, k);
      ApplyKidsCorrect(c.blob, Put(t, p, m'), p, s, strs, o, q, k + 1);
      var r := ApplyKids(c.blob, Offset(b, t, p), s, strs, NextSubnode(s, NodeOffset(s, o, q + [k])));
      if r.r.Ok? { RefinesTrans(b, t, p, c.blob, m', r.blob, MergeKids(m', ks[k + 1..])); }
    }
  }

  lemma {:induction false} NextAtKid(s: seq<byte>, strs: seq<byte>, o: Tree, q: seq<nat>, k: nat)
    requires Decodes(s, strs, o) && IsPath(o, q) && k < |Sub(o, q).kids|
    ensures IsPath(o, q + [k]) && NextSubnode(s, NodeOffset(s, o, q + [k])) == KidAt(s, o, q, k + 1)
  {
    hide NextTag, Sub, IsPath, Before, NodeOffset, Decodes, NextSubnode;
    NextAt(s, strs, o, q, k);
  }
}
