/**
 Copying a subtree of one blob into another that is being written: copy_properties and
 copy_node (xen-dom-mgmt/src/xen-dom-fdt.c).
 */
module FdtCopy {
  import opened Bytes
  import opened Seqs
  import opened FdtTokens
  import opened FdtTree
  import opened FdtRead
  import opened FdtNode
  import opened FdtBlob
  import opened FdtMoves
  import opened FdtEdit
  import opened FdtEditNode
  import opened FdtOverlay
  import opened FdtSw
  import opened FdtSwProof
  import opened FdtSwRun

  /** copy_properties, from offset `o` behind a tag of the source `s`; a name that cannot be read is a null pointer. */
  function CopyProps(w: Writer, s: seq<byte>, strs: seq<byte>, o: nat): (r: Done)
    requires w.Apart() && |s| < INT32_MAX && |strs| < INT32_MAX
    ensures r.w.Apart()
    decreases if o < |s| then |s| - o else 0
  {
    match NextTag(s, o)
    case Bad(e) => Done(Err(e), w)
    case Tok(t, n) =>
      if t.End? then Done(Err(BadStructure), w)
      else if t.Nop? then CopyProps(w, s, strs, n)
      else if t.Prop? then
        var name := GetString(strs, t.nameoff);
        if name.Err? then Done(Err(if w.phase == Structure then Wild else BadState), w)
        else
          var c := AddProp(w, name.value, t.value);
          if c.r.Err? then c else CopyProps(c.w, s, strs, n)
      else Done(Ok(()), w)
  }

  /** copy_node. The recursion ends because child and sibling offsets grow. */
  function CopyNode(w: Writer, s: seq<byte>, strs: seq<byte>, node: nat): (r: Done)
    requires w.Apart() && |s| < INT32_MAX && |strs| < INT32_MAX
    ensures r.w.Apart()
    decreases if node < |s| then |s| - node else 0, 0
  {
    var m := CheckNode(s, node);
    if m.Err? then Done(Err(if w.phase == Structure then Wild else BadState), w)
    else
      var b := OpenNode(w, NextTag(s, node).token.name);
      if b.r.Err? then b
      else
        var c := CopyProps(b.w, s, strs, m.value);
        if c.r.Err? then c
        else
          var d := CopyKids(c.w, s, strs, FirstSubnode(s, node));
          if d.r.Err? then d else CloseNode(d.w)
  }

  function CopyKids(w: Writer, s: seq<byte>, strs: seq<byte>, at: Result<nat>): (r: Done)
    requires w.Apart() && |s| < INT32_MAX && |strs| < INT32_MAX
    ensures r.w.Apart()
    decreases if at.Ok? && at.value < |s| then |s| - at.value else 0, 1
  {
    if at.Err? || at.value >= |s| then Done(Ok(()), w)
    else
      var c := CopyNode(w, s, strs, at.value);
      if c.r.Err? then c else CopyKids(c.w, s, strs, NextSubnode(s, at.value))
  }

  // ---------- The room a copy takes ----------

  /** The bytes of both blocks and the one gap-free end of the buffer that holds the names. */
  function UseW(w: Writer): Use
    requires w.Apart()
  {
    Use(w.Top() + w.sizeStrings, w.Strings())
  }

  /** A property takes its header, its padded value and, unless the table has it, its name. */
  function SpentProp(u: Use, p: Property, dedup: bool): Use {
    var size := u.size + 12 + Align4(|p.value|);
    if dedup && FindString(u.strs, p.name, 0).Ok? then Use(size, u.strs)
    else Use(size + |p.name| + 1, p.name + [0] + u.strs)
  }

  function SpentProps(u: Use, ps: seq<Property>, dedup: bool): (r: Use)
    ensures r.size >= u.size
    decreases |ps|
  {
    if ps == [] then u else SpentProps(SpentProp(u, ps[0], dedup), ps[1..], dedup)
  }

  /** A node takes its two tags and its padded name besides. */
  function SpentTree(u: Use, n: Tree, dedup: bool): (r: Use)
    ensures r.size >= u.size
    decreases n
  {
    var v := SpentProps(u.(size := u.size + 4 + Align4(|n.name| + 1)), n.props, dedup);
    var k := SpentTrees(v, n.kids, dedup);
    k.(size := k.size + 4)
  }

  function SpentTrees(u: Use, ks: seq<Tree>, dedup: bool): (r: Use)
    ensures r.size >= u.size
    decreases ks
  {
    if ks == [] then u else SpentTrees(SpentTree(u, ks[0], dedup), ks[1..], dedup)
  }

  /** A call that succeeds exactly if the use fits the buffer, and then leaves that use. */
  predicate Spends(w: Writer, r: Done, u: Use)
    requires w.Apart()
  {
    && r.w.Apart() && |r.w.data| == |w.data| && r.w.dedup == w.dedup && (r.r.Ok? <==> u.size <= |w.data|)
    && (r.r.Ok? ==> UseW(r.w) == u) && (r.r.Err? ==> r.r.error in {NoSpace, Wild})
  }

  lemma {:induction false} GrabSpends(w: Writer, len: nat, v: seq<byte>)
    requires w.Apart() && |v| <= len && len % 4 == 0 && w.phase == Structure
    ensures Spends(w, Grab(w, len, v), UseW(w).(size := UseW(w).size + len))
  {
    if Grab(w, len, v).r.Ok? { GrabBlocks(w, len, v); }
  }

  lemma {:induction false} NameSpends(w: Writer, name: seq<byte>)
    requires w.Apart() && w.phase == Structure && |name| < INT32_MAX && IsCString(name)
    ensures var r := NameOf(w, name); var found := w.dedup && FindString(w.Strings(), name, 0).Ok?;
      && r.1.dedup == w.dedup && (found ==> r.0.Ok? && r.1 == w)
      && (!found ==> (r.0.Ok? <==> UseW(w).size + |name| + 1 <= |w.data|))
      && (!found && r.0.Ok? ==> UseW(r.1) == Use(UseW(w).size + |name| + 1, name + [0] + w.Strings()))
  {
    hide FindString, GetString, Poke, IsCString;
    var r := NameOf(w, name);
    if r.1 != w {
      var at := |w.data| - (w.sizeStrings + |name| + 1);
      PokeBytes(w.data, at, name + [0]);
      var c := r.1;
      assert c.Strings()[..|name| + 1] == name + [0];
      NameOfBlocks(w, name);
    }
  }

  lemma {:induction false} PropSpends(w: Writer, name: seq<byte>, val: seq<byte>)
    requires w.Apart() && w.phase == Structure && |name| < INT32_MAX && |val| < INT32_MAX && IsCString(name)
    ensures Spends(w, AddProp(w, name, val), SpentProp(UseW(w), Property(name, val), w.dedup))
  {
    hide FindString, NameOf, Grab, PropHeader, Align4, IsCString;
    NameSpends(w, name);
    var n := NameOf(w, name);
    if n.0.Ok? { GrabSpends(n.1, 12 + Align4(|val|), PropHeader(|val|, 0x1_0000_0000 - n.0.value) + val); }
  }

  /** The writer `v` holds what `w` held and behind it tokens `us`, free of NOPs, that read as `out`. */
  ghost predicate Extends(w: Writer, ts: seq<Token>, v: Writer, us: seq<Token>, out: seq<Sym>) {
    && Holds(w, ts) && Holds(v, ts + us) && Keeps(w, v) && Nop !in us && Written(v, ts + us) == Written(w, ts) + out
  }

  lemma {:induction false} ExtendsTrans(u: Writer, ts: seq<Token>, v: Writer, us: seq<Token>, x: seq<Sym>, w: Writer,
                                        vs: seq<Token>, y: seq<Sym>)
    requires Extends(u, ts, v, us, x) && Extends(v, ts + us, w, vs, y)
    ensures Extends(u, ts, w, us + vs, x + y)
  {
    hide Written, Holds, Keeps;
    HoldsApart(u, ts);
    HoldsApart(v, ts + us);
    KeepsTrans(u, v, w);
    assert ts + us + vs == ts + (us + vs);
    Assoc(Written(u, ts), x, y);
  }

  lemma {:induction false} ExtendsHolds(w: Writer, ts: seq<Token>, v: Writer, us: seq<Token>, out: seq<Sym>)
    requires Extends(w, ts, v, us, out)
    ensures Holds(v, ts + us) && v.Apart() && v.phase == Structure
  {
  }

  /**
   A call that is to write `whole`: it succeeds exactly if the use fits, and if it fails for want of
   room it has written a first part of it and kept all that was there before.
   */
  ghost predicate Copied(w: Writer, ts: seq<Token>, r: Done, us: seq<Token>, out: seq<Sym>, whole: seq<Sym>, u: Use)
    requires w.Apart()
  {
    && Spends(w, r, u) && out <= whole && (r.r.Ok? ==> out == whole)
    && (r.r != Err(Wild) ==> Extends(w, ts, r.w, us, out))
  }

  lemma {:induction false} CopiedStep(w: Writer, ts: seq<Token>, r: Done, us: seq<Token>, x: seq<Sym>, u: Use)
    requires w.Apart() && (r.r != Err(Wild) ==> Stepped(w, ts, r, us, x)) && Spends(w, r, u)
    ensures Copied(w, ts, r, us, if r.r.Ok? then x else [], x, u)
  {
    hide Walk, Written, Holds, Keeps, Spends;
  }

  lemma {:induction false} CopiedOn(w: Writer, ts: seq<Token>, a: Done, us: seq<Token>, x: seq<Sym>, u: Use, b: Done,
                                    vs: seq<Token>, out: seq<Sym>, y: seq<Sym>, v: Use)
    requires w.Apart() && a.w.Apart() && a.r.Ok? && Copied(w, ts, a, us, x, x, u)
      && Copied(a.w, ts + us, b, vs, out, y, v)
    ensures Copied(w, ts, b, us + vs, x + out, x + y, v)
  {
    hide Extends, UseW;
    if b.r != Err(Wild) { ExtendsTrans(w, ts, a.w, us, x, b.w, vs, out); }
    assert x + y == x + out + y[|out|..];
  }

  lemma {:induction false} CopiedStop(w: Writer, ts: seq<Token>, a: Done, us: seq<Token>, out: seq<Sym>, x: seq<Sym>,
                                      u: Use, y: seq<Sym>, v: Use)
    requires w.Apart() && a.r.Err? && Copied(w, ts, a, us, out, x, u) && v.size >= u.size
    ensures Copied(w, ts, a, us, out, x + y, v)
  {
    hide Extends, UseW;
    assert x + y == out + (x[|out|..] + y);
  }

  // ---------- The copy is exact ----------

  lemma {:induction false} CopyPropStep(w: Writer, ts: seq<Token>, name: seq<byte>, val: seq<byte>)
    returns (us: seq<Token>)
    requires Holds(w, ts) && IsCString(name) && |name| < INT32_MAX && |val| < INT32_MAX
    ensures w.Apart()
    ensures var r := AddProp(w, name, val); var x := [Attr(Property(name, val))];
      Copied(w, ts, r, us, if r.r.Ok? then x else [], x, SpentProp(UseW(w), Property(name, val), w.dedup))
  {
    hide Written, Holds, Keeps, AddProp, Stepped, Spends, SpentProp, UseW, Copied, IsCString;
    HoldsApart(w, ts);
    PropSpends(w, name, val);
    WildExactly(w, name, val);
    us := [];
    if NameFits(w, name) { us := PropStep(w, ts, name, val); }
    CopiedStep(w, ts, AddProp(w, name, val), us, [Attr(Property(name, val))],
      SpentProp(UseW(w), Property(name, val), w.dedup));
  }

  lemma {:induction false} CopyPropsCorrect(w: Writer, ts: seq<Token>, s: seq<byte>, strs: seq<byte>, o: nat,
                                            ps: seq<Property>, x: seq<Sym>)
    returns (us: seq<Token>, out: seq<Sym>)
    requires Holds(w, ts) && |s| < INT32_MAX && |strs| < INT32_MAX
    requires Scan(s, o).Ok? && Syms(strs, Scan(s, o).value) == Attrs(ps) + x && x != [] && (x[0].Open? || x[0].Close?)
    ensures w.Apart() && Copied(w, ts, CopyProps(w, s, strs, o), us, out, Attrs(ps), SpentProps(UseW(w), ps, w.dedup))
    decreases if o < |s| then |s| - o else 0, 0
  {
    hide NextTag, Syms, Attrs, GetString, Holds, AddProp, Copied, UseW, SpentProp;
    HoldsApart(w, ts);
    var k := NextTag(s, o).token;
    SymsNil(strs);
    us, out := [], [];
    if !k.End? {
      ScanStep(s, strs, o);
      var n := NextTag(s, o).next;
      var tail := Syms(strs, Scan(s, n).value);
      if k.Nop? {
        assert SymsOf(strs, k) + tail == tail;
        us, out := CopyPropsCorrect(w, ts, s, strs, n, ps, x);
      } else {
        AttrsCons(ps, x, SymsOf(strs, k), tail);
        if k.Prop? {
          PropHead(strs, k, ps, x, tail);
          us, out := CopyOneProp(w, ts, s, strs, n, ps, x);
        } else {
          AttrsNil();
          CopiedNothing(w, ts);
        }
      }
    }
  }

  lemma {:induction false} CopiedNothing(w: Writer, ts: seq<Token>)
    requires Holds(w, ts)
    ensures w.Apart() && Copied(w, ts, Done(Ok(()), w), [], [], [], UseW(w))
  {
    hide Walk, Written;
    assert ts + [] == ts && Written(w, ts) + [] == Written(w, ts);
  }

  /** A property, and those behind it. */
  lemma {:induction false} CopyOneProp(w: Writer, ts: seq<Token>, s: seq<byte>, strs: seq<byte>, n: nat,
                                       ps: seq<Property>, x: seq<Sym>)
    returns (us: seq<Token>, out: seq<Sym>)
    requires Holds(w, ts) && |s| < INT32_MAX && |strs| < INT32_MAX && ps != []
    requires IsCString(ps[0].name) && |ps[0].name| < INT32_MAX && |ps[0].value| < INT32_MAX
    requires Scan(s, n).Ok? && Syms(strs, Scan(s, n).value) == Attrs(ps[1..]) + x && x != []
      && (x[0].Open? || x[0].Close?)
    ensures w.Apart()
    ensures var c := AddProp(w, ps[0].name, ps[0].value); var r := if c.r.Err? then c else CopyProps(c.w, s, strs, n);
      Copied(w, ts, r, us, out, Attrs(ps), SpentProps(UseW(w), ps, w.dedup))
    decreases if n < |s| then |s| - n else 0, 1
  {
    hide Attrs, Syms, Holds, AddProp, Copied, UseW, SpentProp, CopyProps;
    HoldsApart(w, ts);
    AttrsSplit(ps);
    us := CopyPropStep(w, ts, ps[0].name, ps[0].value);
    var c, x0 := AddProp(w, ps[0].name, ps[0].value), [Attr(Property(ps[0].name, ps[0].value))];
    var u, v := SpentProp(UseW(w), ps[0], w.dedup), SpentProps(UseW(w), ps, w.dedup);
    out := [];
    if c.r.Ok? {
      CopiedHolds(w, ts, c, us, x0, x0, u);
      var ws, y := CopyPropsCorrect(c.w, ts + us, s, strs, n, ps[1..], x);
      CopiedOn(w, ts, c, us, x0, u, CopyProps(c.w, s, strs, n), ws, y, Attrs(ps[1..]), v);
      us, out := us + ws, x0 + y;
    } else {
      CopiedStop(w, ts, c, us, [], x0, u, Attrs(ps[1..]), v);
    }
  }

  lemma {:induction false} CopiedHolds(w: Writer, ts: seq<Token>, r: Done, us: seq<Token>, out: seq<Sym>, x: seq<Sym>,
                                       u: Use)
    requires w.Apart() && r.r.Ok? && Copied(w, ts, r, us, out, x, u)
    ensures Holds(r.w, ts + us) && r.w.Apart() && r.w.phase == Structure && r.w.dedup == w.dedup && UseW(r.w) == u
      && out == x
  {
    hide Extends, UseW, Holds;
    ExtendsHolds(w, ts, r.w, us, out);
  }

  lemma {:induction false} AttrsSplit(ps: seq<Property>)
    requires ps != []
    ensures Attrs(ps) == [Attr(ps[0])] + Attrs(ps[1..])
  {
  }

  lemma {:induction false} OpenCopied(w: Writer, ts: seq<Token>, name: seq<byte>) returns (us: seq<Token>)
    requires Holds(w, ts) && IsCString(name)
    ensures w.Apart()
    ensures var r := OpenNode(w, name); var x := [Open(name)];
      Copied(w, ts, r, us, if r.r.Ok? then x else [], x, UseW(w).(size := UseW(w).size + 4 + Align4(|name| + 1)))
  {
    hide Holds, Stepped, Spends, UseW, Copied, Grab, Align4, Be32;
    HoldsApart(w, ts);
    us := OpenStep(w, ts, name);
    GrabSpends(w, 4 + Align4(|name| + 1), Be32(FDT_BEGIN_NODE) + name + [0]);
    CopiedStep(w, ts, OpenNode(w, name), us, [Open(name)], UseW(w).(size := UseW(w).size + (4 + Align4(|name| + 1))));
  }

  lemma {:induction false} CloseCopied(w: Writer, ts: seq<Token>) returns (us: seq<Token>)
    requires Holds(w, ts)
    ensures w.Apart()
    ensures var r := CloseNode(w);
      Copied(w, ts, r, us, if r.r.Ok? then [Close] else [], [Close], UseW(w).(size := UseW(w).size + 4))
  {
    hide Holds, Stepped, Spends, UseW, Copied, Grab, Be32;
    HoldsApart(w, ts);
    us := CloseStep(w, ts);
    GrabSpends(w, 4, Be32(FDT_END_NODE));
    CopiedStep(w, ts, CloseNode(w), us, [Close], UseW(w).(size := UseW(w).size + 4));
  }

  /**
   copy_node appends exactly the source subtree, NOPs dropped and names entered anew, and succeeds
   exactly if that fits the buffer. If the room runs out, what it wrote is a first part of it.
   */
  lemma {:induction false} CopyNodeCorrect(w: Writer, ts: seq<Token>, s: seq<byte>, strs: seq<byte>, t: Tree,
                                           p: seq<nat>)
    returns (us: seq<Token>, out: seq<Sym>)
    requires Holds(w, ts) && |s| < INT32_MAX && |strs| < INT32_MAX && Decodes(s, strs, t) && IsPath(t, p)
    ensures w.Apart()
    ensures Copied(w, ts, CopyNode(w, s, strs, NodeOffset(s, t, p)), us, out, Flat(Sub(t, p)),
      SpentTree(UseW(w), Sub(t, p), w.dedup))
    decreases Sub(t, p), 1
  {
    hide NextTag, Syms, Scan, Walk, Attrs, FlatAll, Sub, IsPath, Before, After, NodeOffset, Decodes, CopyProps,
      CopyKids, Holds, Copied, OpenNode, CloseNode, Flat, UseW, SpentProps, SpentTrees, Align4;
    HoldsApart(w, ts);
    var n := Sub(t, p);
    var pre, m := AtNode(s, strs, t, p);
    CNameOf(s, NodeOffset(s, t, p));
    var b := OpenNode(w, n.name);
    us := OpenCopied(w, ts, n.name);
    FlatInnerKids(n);
    var u, v := UseW(w).(size := UseW(w).size + 4 + Align4(|n.name| + 1)), SpentTree(UseW(w), n, w.dedup);
    out := [];
    if b.r.Ok? {
      CopiedHolds(w, ts, b, us, [Open(n.name)], [Open(n.name)], u);
      var ws, y := CopyInner(b.w, ts + us, s, strs, t, p, m);
      var r := CopyNode(w, s, strs, NodeOffset(s, t, p));
      CopiedOn(w, ts, b, us, [Open(n.name)], u, r, ws, y, Attrs(n.props) + FlatAll(n.kids) + [Close], v);
      us, out := us + ws, [Open(n.name)] + y;
    } else {
      CopiedStop(w, ts, b, us, [], [Open(n.name)], u, Attrs(n.props) + FlatAll(n.kids) + [Close], v);
    }
  }

  lemma {:induction false} FlatInnerKids(n: Tree)
    ensures [Open(n.name)] + (Attrs(n.props) + FlatAll(n.kids) + [Close]) == Flat(n)
  {
    hide Attrs, FlatAll;
  }

  /** The use of what stands between a node's two tags, and of its end. */
  function SpentInner(u: Use, n: Tree, dedup: bool): (r: Use) {
    var k := SpentTrees(SpentProps(u, n.props, dedup), n.kids, dedup);
    k.(size := k.size + 4)
  }

  /** What copy_node does behind its fdt_begin_node. */
  function InnerCopy(w: Writer, s: seq<byte>, strs: seq<byte>, node: nat, m: nat): (r: Done)
    requires w.Apart() && |s| < INT32_MAX && |strs| < INT32_MAX
  {
    var c := CopyProps(w, s, strs, m);
    if c.r.Err? then c
    else
      var d := CopyKids(c.w, s, strs, FirstSubnode(s, node));
      if d.r.Err? then d else CloseNode(d.w)
  }

  lemma {:induction false} CopyInner(w: Writer, ts: seq<Token>, s: seq<byte>, strs: seq<byte>, t: Tree, p: seq<nat>,
                                     m: nat)
    returns (us: seq<Token>, out: seq<Sym>)
    requires Holds(w, ts) && |s| < INT32_MAX && |strs| < INT32_MAX && Decodes(s, strs, t) && IsPath(t, p)
    requires Scan(s, m).Ok? && Syms(strs, Scan(s, m).value) == Inner(Sub(t, p)) + After(t, p)
    ensures w.Apart()
    ensures var n := Sub(t, p);
      Copied(w, ts, InnerCopy(w, s, strs, NodeOffset(s, t, p), m), us, out, Attrs(n.props) + FlatAll(n.kids) + [Close],
             SpentInner(UseW(w), n, w.dedup))
    decreases Sub(t, p), 0, |Sub(t, p).kids| + 2
  {
    hide NextTag, Syms, Scan, Attrs, FlatAll, Sub, IsPath, After, NodeOffset, Decodes, CopyProps, CopyKids, Holds,
      Copied, CloseNode, UseW, SpentProps, SpentTrees, Inner;
    HoldsApart(w, ts);
    var n := Sub(t, p);
    InnerTail(n, After(t, p));
    FlatAllNil();
    us, out := CopyPropsCorrect(w, ts, s, strs, m, n.props, FlatAll(n.kids) + [Close] + After(t, p));
    var c := CopyProps(w, s, strs, m);
    var u, v := SpentProps(UseW(w), n.props, w.dedup), SpentInner(UseW(w), n, w.dedup);
    Assoc(Attrs(n.props), FlatAll(n.kids), [Close]);
    if c.r.Ok? {
      CopiedHolds(w, ts, c, us, out, Attrs(n.props), u);
      var ws, y := CopyRest(c.w, ts + us, s, strs, t, p);
      var r := InnerCopy(w, s, strs, NodeOffset(s, t, p), m);
      CopiedOn(w, ts, c, us, Attrs(n.props), u, r, ws, y, FlatAll(n.kids) + [Close], v);
      us, out := us + ws, Attrs(n.props) + y;
    } else {
      CopiedStop(w, ts, c, us, out, Attrs(n.props), u, FlatAll(n.kids) + [Close], v);
    }
  }

  /** The children and the end of the node. */
  lemma {:induction false} CopyRest(w: Writer, ts: seq<Token>, s: seq<byte>, strs: seq<byte>, t: Tree, p: seq<nat>)
    returns (us: seq<Token>, out: seq<Sym>)
    requires Holds(w, ts) && |s| < INT32_MAX && |strs| < INT32_MAX && Decodes(s, strs, t) && IsPath(t, p)
    ensures w.Apart()
    ensures var n := Sub(t, p); var d := CopyKids(w, s, strs, FirstSubnode(s, NodeOffset(s, t, p)));
      var k := SpentTrees(UseW(w), n.kids, w.dedup);
      Copied(w, ts, if d.r.Err? then d else CloseNode(d.w), us, out, FlatAll(n.kids) + [Close], k.(size := k.size + 4))
    decreases Sub(t, p), 0, |Sub(t, p).kids| + 1
  {
    hide NextTag, Attrs, FlatAll, Sub, IsPath, NodeOffset, Decodes, CopyKids, Holds, Copied, CloseNode, UseW,
      SpentTrees;
    HoldsApart(w, ts);
    var n := Sub(t, p);
    FirstAt(s, strs, t, p);
    us, out := CopyKidsCorrect(w, ts, s, strs, t, p, 0);
    assert n.kids[0..] == n.kids;
    var d := CopyKids(w, s, strs, FirstSubnode(s, NodeOffset(s, t, p)));
    var k := SpentTrees(UseW(w), n.kids, w.dedup);
    if d.r.Ok? {
      CopiedHolds(w, ts, d, us, out, FlatAll(n.kids), k);
      var ws := CloseCopied(d.w, ts + us);
      var e := CloseNode(d.w);
      var y := if e.r.Ok? then [Close] else [];
      CopiedOn(w, ts, d, us, FlatAll(n.kids), k, e, ws, y, [Close], k.(size := k.size + 4));
      us, out := us + ws, FlatAll(n.kids) + y;
    } else {
      CopiedStop(w, ts, d, us, out, FlatAll(n.kids), k, [Close], k.(size := k.size + 4));
    }
  }

  lemma {:induction false} CopyKidsCorrect(w: Writer, ts: seq<Token>, s: seq<byte>, strs: seq<byte>, t: Tree,
                                           p: seq<nat>, k: nat)
    returns (us: seq<Token>, out: seq<Sym>)
    requires Holds(w, ts) && |s| < INT32_MAX && |strs| < INT32_MAX && Decodes(s, strs, t) && IsPath(t, p)
      && k <= |Sub(t, p).kids|
    ensures w.Apart()
    ensures var ks := Sub(t, p).kids[k..];
      Copied(w, ts, CopyKids(w, s, strs, KidAt(s, t, p, k)), us, out, FlatAll(ks), SpentTrees(UseW(w), ks, w.dedup))
    decreases Sub(t, p), 0, |Sub(t, p).kids| - k
  {
    hide NextTag, Attrs, Flat, Sub, IsPath, Before, After, NodeOffset, Decodes, CopyNode, Holds, Copied, NextSubnode,
      Walk, Scan, Syms, Inner, CheckNode, UseW, SpentTree;
    HoldsApart(w, ts);
    var ks := Sub(t, p).kids;
    us, out := [], [];
    if k == |ks| {
      CopiedNothing(w, ts);
    } else {
      BeforeKidPath(t, p, k);
      var pre, m := AtNode(s, strs, t, p + [k]);
      var o := NodeOffset(s, t, p + [k]);
      InBlock(s, o);
      us, out := CopyNodeCorrect(w, ts, s, strs, t, p + [k]);
      var c := CopyNode(w, s, strs, o);
      assert ks[k..][0] == ks[k] && ks[k..][1..] == ks[k + 1..];
      var u, v := SpentTree(UseW(w), ks[k], w.dedup), SpentTrees(UseW(w), ks[k..], w.dedup);
      if c.r.Ok? {
        CopiedHolds(w, ts, c, us, out, Flat(ks[k]), u);
        NextAtKid(s, strs, t, p, k);
        var ws, y := CopyKidsCorrect(c.w, ts + us, s, strs, t, p, k + 1);
        var r := CopyKids(c.w, s, strs, NextSubnode(s, o));
        CopiedOn(w, ts, c, us, Flat(ks[k]), u, r, ws, y, FlatAll(ks[k + 1..]), v);
        us, out := us + ws, Flat(ks[k]) + y;
      } else {
        CopiedStop(w, ts, c, us, out, Flat(ks[k]), u, FlatAll(ks[k + 1..]), v);
      }
    }
  }

  lemma {:induction false} InBlock(s: seq<byte>, o: nat)
    requires NextTag(s, o).Tok?
    ensures o < |s|
  {
  }

  /** A subtree copied and finished decodes to the source subtree; both succeed exactly if it fits with an end tag. */
  lemma {:induction false} CopyRoundTrip(w: Writer, s: seq<byte>, strs: seq<byte>, t: Tree, p: seq<nat>)
    requires w.Apart() && w.phase == Structure && w.sizeStruct == 0 && w.sizeStrings == 0
    requires |s| < INT32_MAX && |strs| < INT32_MAX && Decodes(s, strs, t) && IsPath(t, p)
    ensures var c := CopyNode(w, s, strs, NodeOffset(s, t, p));
      && (c.r.Ok? && FdtSw.Finish(c.w).Ok? <==> SpentTree(UseW(w), Sub(t, p), w.dedup).size + 4 <= |w.data|)
      && (c.r.Ok? ==> var r := FdtSw.Finish(c.w);
            r.Ok? ==> r.value.Ordered() && Decodes(r.value.Struct(), r.value.Strings(), Sub(t, p)))
  {
    hide Walk, Syms, FdtSw.Finish, Scan, NextTag, CopyNode, Flat, Fixed, Sub, IsPath, NodeOffset, SpentTree;
    EmptyHolds(w);
    var us, out := CopyNodeCorrect(w, [], s, strs, t, p);
    var c := CopyNode(w, s, strs, NodeOffset(s, t, p));
    if c.r.Ok? {
      assert [] + us == us && [] + Flat(Sub(t, p)) == Flat(Sub(t, p));
      FinishCorrect(c.w, us);
    }
  }
}
