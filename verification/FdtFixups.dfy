/**
 Following the renumbering through the overlay's references: every cell that __local_fixups__
 lists is raised by the same amount (libfdt/fdt_overlay.c).
 */
module FdtFixups {
  import opened Bytes
  import opened FdtTokens
  import opened FdtTree
  import opened FdtRead
  import opened FdtNode
  import opened FdtBlob
  import opened FdtEdit
  import opened FdtOverlay
  import opened FdtInplace
  import opened FdtPhandle

  // ---------- Properties one by one ----------

  /** nextprop_: the next property among the tokens from `o` on. */
  function NextProp(s: seq<byte>, o: nat): (r: Result<nat>)
    ensures r.Ok? ==> o <= r.value && r.value + 12 <= |s| && r.value + 12 + Word(s, r.value + 4) <= |s|
    ensures r.Ok? && o % 4 == 0 ==> r.value % 4 == 0
    decreases if o < |s| then |s| - o else 0
  {
    match NextTag(s, o)
    case Bad(e) => Err(e)
    case Tok(t, n) =>
      if t.End? then Err(BadStructure)
      else if t.Prop? then Ok(o)
      else if t.Nop? then NextProp(s, n)
      else Err(NotFound)
  }

  /** fdt_first_property_offset and fdt_next_property_offset. */
  function FirstProperty(s: seq<byte>, node: nat): (r: Result<nat>)
    ensures r.Ok? ==>
      node < r.value && r.value % 4 == 0 && r.value + 12 <= |s| && r.value + 12 + Word(s, r.value + 4) <= |s|
  {
    var m := CheckNode(s, node);
    if m.Err? then Err(m.error) else NextProp(s, m.value)
  }

  function NextProperty(s: seq<byte>, x: nat): (r: Result<nat>)
    ensures r.Ok? ==>
      x < r.value && r.value % 4 == 0 && r.value + 12 <= |s| && r.value + 12 + Word(s, r.value + 4) <= |s|
  {
    var t := NextTag(s, x);
    if x % 4 == 0 && t.Tok? && t.token.Prop? then NextProp(s, t.next) else Err(BadOffset)
  }

  lemma {:induction false} NextPropSym(s: seq<byte>, strs: seq<byte>, a: nat)
    requires Scan(s, a).Ok?
    ensures var ss := Syms(strs, Scan(s, a).value);
      NextProp(s, a) == if ss == [] then Err(BadStructure) else if ss[0].Open? || ss[0].Close? then Err(NotFound)
        else Ok(SymOffset(s, a, 0))
    decreases if a < |s| then |s| - a else 0
  {
    hide NextTag, Syms, GetString;
    var t := NextTag(s, a).token;
    if t.End? {
      SymsNil(strs);
    } else {
      ScanStep(s, strs, a);
      if t.Nop? { NextPropSym(s, strs, NextTag(s, a).next); }
      var tail := Syms(strs, Scan(s, NextTag(s, a).next).value);
      assert t.Nop? ==> SymsOf(strs, t) + tail == tail;
    }
  }

  /** The offset of property `k`, or NOTFOUND behind the last. */
  ghost function PropAt(s: seq<byte>, t: Tree, p: seq<nat>, k: nat): Result<nat>
    requires IsPath(t, p)
  {
    if k < |Sub(t, p).props| then Ok(PropOffset(s, t, p, k)) else Err(NotFound)
  }

  lemma {:induction false} TailHead(n: Tree, k: nat, a: seq<Sym>)
    requires k <= |n.props|
    ensures var x := Attrs(n.props[k..]) + (FlatAll(n.kids) + [Close] + a);
      x != [] && (k < |n.props| ==> x[0].Attr?) && (k == |n.props| ==> x[0].Open? || x[0].Close?)
  {
    hide FlatAll;
    FlatAllHead(n.kids);
    var x := Attrs(n.props[k..]) + (FlatAll(n.kids) + [Close] + a);
    if k < |n.props| { assert x[0] == Attr(n.props[k..][0]); } else { assert x == FlatAll(n.kids) + [Close] + a; }
  }

  lemma {:induction false} FlatAllHead(ks: seq<Tree>)
    ensures FlatAll(ks) == [] || FlatAll(ks)[0].Open?
  {
  }

  lemma {:induction false} FirstPropertyAt(s: seq<byte>, strs: seq<byte>, t: Tree, p: seq<nat>)
    requires Decodes(s, strs, t) && IsPath(t, p)
    ensures FirstProperty(s, NodeOffset(s, t, p)) == PropAt(s, t, p, 0)
  {
    hide NextTag, SymOffset, Scan, Syms, Walk, Before, After, Sub, IsPath, Attrs, FlatAll, NextProp, Decodes;
    var n := Sub(t, p);
    var pre, m := AtNode(s, strs, t, p);
    NextPropSym(s, strs, m);
    assert n.props[0..] == n.props;
    TailHead(n, 0, After(t, p));
    assert Inner(n) + After(t, p) == Attrs(n.props) + (FlatAll(n.kids) + [Close] + After(t, p));
    SymOffsetFrom(s, strs, 0, pre + [BeginNode(n.name)], m, 0);
  }

  lemma {:induction false} NextPropertyAt(s: seq<byte>, strs: seq<byte>, t: Tree, p: seq<nat>, k: nat)
    requires Decodes(s, strs, t) && IsPath(t, p) && k < |Sub(t, p).props|
    ensures NextProperty(s, PropOffset(s, t, p, k)) == PropAt(s, t, p, k + 1)
  {
    hide NextTag, SymOffset, Scan, Syms, Walk, Before, After, Sub, IsPath, Attrs, FlatAll, NextProp, Flat, GetString;
    var n, i := Sub(t, p), |Before(t, p)| + 1 + k;
    FlatCut(t, p, k);
    FlatCut(t, p, k + 1);
    AttrsHead(n.props, k);
    assert Flat(t)[i] == Flat(t)[i..][0];
    var pre := Locate(s, strs, Flat(t), i);
    var x := SymOffset(s, 0, i);
    var r := NextTag(s, x);
    NextPropSym(s, strs, r.next);
    TailHead(n, k + 1, After(t, p));
    SymOffsetFrom(s, strs, 0, pre + [r.token], r.next, 0);
  }

  // ---------- The code ----------

  /** The innermost loop: cells j to m of the fixup property at `fx`, in the node's property `name`. */
  function FixCells(b: Blob, node: nat, name: seq<byte>, fx: nat, j: nat, m: nat, delta: u32): (r: Out<()>)
    requires b.Ordered() && fx + 12 + 4 * m <= b.sizeStruct
    ensures r.blob == b.(data := r.blob.data) && r.blob.Ordered()
    decreases m - j
  {
    if j >= m then Out(Ok(()), b)
    else
      var c := FixCell(b, node, name, Word(b.Struct(), fx + 12 + 4 * j), delta);
      if c.r.Err? then c else FixCells(c.blob, node, name, fx, j + 1, m, delta)
  }

  /** One cell: the word is read first, unchecked, and only the store looks at the offset. */
  function FixCell(b: Blob, node: nat, name: seq<byte>, poffset: u32, delta: u32): (r: Out<()>)
    requires b.Ordered()
    ensures r.blob == b.(data := r.blob.data) && r.blob.Ordered()
  {
    var x := FindProp(b.Struct(), b.Strings(), node, name);
    if x.Err? then Out(Err(x.error), b) else FixCellAt(b, node, name, x.value, poffset, delta)
  }

  function FixCellAt(b: Blob, node: nat, name: seq<byte>, x: nat, poffset: u32, delta: u32): (r: Out<()>)
    requires Fits(b, x)
    ensures r.blob == b.(data := r.blob.data) && r.blob.Ordered()
  {
    var at := b.offStruct + x + 12 + poffset;
    if at + 4 > |b.data| then Out(Err(Wild), b)
    else
      var c := SetInplace(b, node, name, poffset, Be32(Wrap(Word(b.data, at) + delta)));
      if c.r == Err(NoSpace) then Out(Err(BadOverlay), c.blob) else c
  }

  /** The loop over the properties of the fixup node. */
  function FixProps(b: Blob, node: nat, at: Result<nat>, delta: u32): (r: Out<()>)
    requires b.Ordered()
    ensures r.blob == b.(data := r.blob.data) && r.blob.Ordered()
    decreases if at.Ok? && at.value < b.sizeStruct then b.sizeStruct - at.value else 0
  {
    if at.Err? then Out(Ok(()), b)
    else
      var c := FixProp(b, node, at.value, delta);
      if c.r.Err? then c else FixProps(c.blob, node, NextProperty(c.blob.Struct(), at.value), delta)
  }

  /** One property of the fixup node. */
  function FixProp(b: Blob, node: nat, fx: nat, delta: u32): (r: Out<()>)
    requires b.Ordered()
    ensures r.blob == b.(data := r.blob.data) && r.blob.Ordered()
  {
    var t := NextTag(b.Struct(), fx);
    if t.Bad? || !t.token.Prop? then Out(Err(BadOffset), b)
    else
      var name := GetString(b.Strings(), t.token.nameoff);
      if name.Err? then Out(Err(name.error), b)
      else if |t.token.value| % 4 != 0 then Out(Err(BadOverlay), b)
      else
        var x := FindProp(b.Struct(), b.Strings(), node, name.value);
        if x.Err? then Out(Err(if x.error == NotFound then BadOverlay else x.error), b)
        else FixCells(b, node, name.value, fx, 0, |t.token.value| / 4, delta)
  }

  /** overlay_update_local_node_references. */
  function FixNode(b: Blob, node: nat, fixup: nat, delta: u32): (r: Out<()>)
    requires b.Ordered()
    ensures r.blob == b.(data := r.blob.data) && r.blob.Ordered()
    decreases if fixup < b.sizeStruct then 2 * (b.sizeStruct - fixup) else 1
  {
    var c := FixProps(b, node, FirstProperty(b.Struct(), fixup), delta);
    if c.r.Err? then c else FixKids(c.blob, node, FirstSubnode(c.blob.Struct(), fixup), delta)
  }

  function FixKids(b: Blob, node: nat, at: Result<nat>, delta: u32): (r: Out<()>)
    requires b.Ordered()
    ensures r.blob == b.(data := r.blob.data) && r.blob.Ordered()
    decreases if at.Ok? && at.value < b.sizeStruct then 2 * (b.sizeStruct - at.value) + 1 else 0
  {
    if at.Err? then Out(Ok(()), b)
    else
      var t := NextTag(b.Struct(), at.value);
      if t.Bad? || !t.token.BeginNode? then Out(Ok(()), b)
      else
        var k := FindChild(b.Struct(), node, t.token.name);
        if k.Err? then Out(Err(if k.error == NotFound then BadOverlay else k.error), b)
        else
          var c := FixNode(b, k.value, at.value, delta);
          if c.r.Err? then c else FixKids(c.blob, node, NextSubnode(c.blob.Struct(), at.value), delta)
  }

  // ---------- The same on trees ----------

  /** A cell: four bytes at `idx` in property `prop` of the node at `path`. */
  datatype Cell = Cell(path: seq<nat>, prop: nat, idx: nat)

  predicate InTree(t: Tree, c: Cell) {
    IsPath(t, c.path) && c.prop < |Sub(t, c.path).props| && c.idx + 4 <= |Sub(t, c.path).props[c.prop].value|
  }

  function CellWord(t: Tree, c: Cell): u32
    requires InTree(t, c)
  {
    Word(Sub(t, c.path).props[c.prop].value, c.idx)
  }

  /** The tree with one cell raised, modulo 2^32. */
  function Raise(t: Tree, c: Cell, delta: u32): (r: Tree) {
    if !InTree(t, c) then t
    else
      var n := Sub(t, c.path);
      Put(t, c.path, Patched(n, c.prop, Poke(n.props[c.prop].value, c.idx, Be32(Wrap(CellWord(t, c) + delta)))))
  }

  lemma {:induction false} RaiseShape(t: Tree, c: Cell, delta: u32)
    ensures SameShape(t, Raise(t, c, delta))
  {
    hide IsPath, Sub, Put, SameShape, Word, Be32, Wrap, Patched;
    if InTree(t, c) {
      var n := Sub(t, c.path);
      var v := Poke(n.props[c.prop].value, c.idx, Be32(Wrap(CellWord(t, c) + delta)));
      PatchedShape(n, c.prop, v);
      ShapePut(t, c.path, Patched(n, c.prop, v));
    } else {
      ShapeRefl(t);
    }
  }

  lemma {:induction false} ShapeFirst(ps: seq<Property>, qs: seq<Property>, name: seq<byte>)
    requires |ps| == |qs| && forall i :: 0 <= i < |ps| ==> ps[i].name == qs[i].name
    ensures FirstProp(ps, name) == FirstProp(qs, name)
    decreases |ps|
  {
    if ps != [] { ShapeFirst(ps[1..], qs[1..], name); }
  }

  lemma {:induction false} ShapeFirstKid(ks: seq<Tree>, ls: seq<Tree>, want: seq<byte> -> bool)
    requires |ks| == |ls| && forall i :: 0 <= i < |ks| ==> ks[i].name == ls[i].name
    ensures FirstKid(ks, want) == FirstKid(ls, want)
    decreases |ks|
  {
    if ks != [] { ShapeFirstKid(ks[1..], ls[1..], want); }
  }

  /** The names and sizes a lookup needs. */
  lemma {:induction false} ShapeParts(n: Tree, m: Tree)
    requires SameShape(n, m)
    ensures |n.props| == |m.props| && |n.kids| == |m.kids|
    ensures forall i :: 0 <= i < |n.props| ==>
      n.props[i].name == m.props[i].name && |n.props[i].value| == |m.props[i].value|
    ensures forall i :: 0 <= i < |n.kids| ==> n.kids[i].name == m.kids[i].name && SameShape(n.kids[i], m.kids[i])
  {
    forall i | 0 <= i < |n.kids| ensures n.kids[i].name == m.kids[i].name && SameShape(n.kids[i], m.kids[i]) {
      assert SameShape(n.kids[i], m.kids[i]);
    }
  }

  /** What stays the same at a node of a tree of the same shape. */
  lemma {:induction false} ShapeAt(t: Tree, u: Tree, p: seq<nat>)
    requires SameShape(t, u) && IsPath(t, p)
    ensures IsPath(u, p) && SameShape(Sub(t, p), Sub(u, p)) && |Flat(Sub(u, p))| == |Flat(Sub(t, p))|
    ensures var n, m := Sub(t, p), Sub(u, p);
      && |n.props| == |m.props| && |n.kids| == |m.kids|
      && (forall i :: 0 <= i < |n.props| ==>
           n.props[i].name == m.props[i].name && |n.props[i].value| == |m.props[i].value|)
      && (forall i :: 0 <= i < |n.kids| ==> n.kids[i].name == m.kids[i].name)
  {
    hide SameShape, IsPath, Sub, Flat;
    ShapePath(t, u, p);
    ShapeParts(Sub(t, p), Sub(u, p));
    ShapeSize(Sub(t, p), Sub(u, p));
  }

  lemma {:induction false} ShapeSym(t: Tree, u: Tree)
    requires SameShape(t, u)
    ensures SameShape(u, t)
    decreases t
  {
    forall i | 0 <= i < |t.kids| ensures SameShape(u.kids[i], t.kids[i]) { ShapeSym(t.kids[i], u.kids[i]); }
  }

  /** For each property of each node, the bytes from the start of its value to the end of the blob. */
  type Room = (seq<nat>, nat) -> int

  ghost function Gap(b: Blob, t: Tree, p: seq<nat>, k: nat): int
    requires b.Ordered() && IsPath(t, p)
  {
    |b.data| - (b.offStruct + PropOffset(b.Struct(), t, p, k) + 12)
  }

  ghost function RoomOf(b: Blob, t: Tree): Room
    requires b.Ordered()
  {
    (p: seq<nat>, k: nat) => if IsPath(t, p) then Gap(b, t, p, k) else 0
  }

  ghost predicate Measures(room: Room, b: Blob, t: Tree)
    requires b.Ordered()
  {
    forall p, k :: IsPath(t, p) && 0 <= k < |Sub(t, p).props| ==> room(p, k) == Gap(b, t, p, k)
  }

  lemma {:induction false} RoomMeasures(b: Blob, t: Tree)
    requires b.Ordered()
    ensures Measures(RoomOf(b, t), b, t)
  {
    hide Gap, IsPath, Sub;
  }

  /** Stores in place move nothing, so the room stays. */
  lemma {:induction false} MeasuresKept(room: Room, b: Blob, t: Tree, c: Blob, u: Tree)
    requires Inplace(b, t, c, u) && Measures(room, b, t)
    ensures Measures(room, c, u)
  {
    hide IsPath, Sub, PropOffset, SameShape, LikeAll, Decodes, Flat;
    forall p, k | IsPath(u, p) && 0 <= k < |Sub(u, p).props| ensures room(p, k) == Gap(c, u, p, k) {
      ShapeSym(t, u);
      ShapeAt(u, t, p);
      InplaceProp(b, t, c, u, p, k);
    }
  }

  /** What becomes of one listed offset, with so many bytes in the value and so many up to the end of the blob. */
  function Verdict(len: nat, room: int, idx: u32): (r: Result<()>) {
    if idx + 4 > room then Err(Wild) else if idx + 4 <= len then Ok(()) else Err(BadOverlay)
  }

  /** The cells that value `i` of the fixup node at `f` lists from the j-th on, each read when its turn comes. */
  function LiveCells(t: Tree, p: seq<nat>, f: seq<nat>, i: nat, k: nat, j: nat, delta: u32, room: Room)
    : (r: Result<Tree>)
    requires IsPath(t, p) && IsPath(t, f) && i < |Sub(t, f).props| && k < |Sub(t, p).props|
    ensures r.Ok? ==> SameShape(t, r.value)
    decreases |Sub(t, f).props[i].value| - 4 * j
  {
    var v := Sub(t, f).props[i].value;
    if 4 * j + 4 > |v| then ShapeRefl(t); Ok(t)
    else
      var idx := Word(v, 4 * j);
      var d := Verdict(|Sub(t, p).props[k].value|, room(p, k), idx);
      if d.Err? then Err(d.error)
      else
        var u := Raise(t, Cell(p, k, idx), delta);
        RaiseShape(t, Cell(p, k, idx), delta); ShapeAt(t, u, p); ShapeAt(t, u, f);
        var r := LiveCells(u, p, f, i, k, j + 1, delta, room);
        if r.Ok? then ShapeTrans(t, u, r.value); r else r
  }

  function LiveProp(t: Tree, p: seq<nat>, f: seq<nat>, i: nat, delta: u32, room: Room): (r: Result<Tree>)
    requires IsPath(t, p) && IsPath(t, f) && i < |Sub(t, f).props|
    ensures r.Ok? ==> SameShape(t, r.value)
  {
    var q := Sub(t, f).props[i];
    var k := FirstProp(Sub(t, p).props, q.name);
    if |q.value| % 4 != 0 || k == |Sub(t, p).props| then Err(BadOverlay) else LiveCells(t, p, f, i, k, 0, delta, room)
  }

  function LiveProps(t: Tree, p: seq<nat>, f: seq<nat>, i: nat, delta: u32, room: Room): (r: Result<Tree>)
    requires IsPath(t, p) && IsPath(t, f) && i <= |Sub(t, f).props|
    ensures r.Ok? ==> SameShape(t, r.value)
    decreases |Sub(t, f).props| - i
  {
    if i == |Sub(t, f).props| then ShapeRefl(t); Ok(t)
    else
      var u := LiveProp(t, p, f, i, delta, room);
      if u.Err? then u
      else
        ShapeAt(t, u.value, p); ShapeAt(t, u.value, f);
        var r := LiveProps(u.value, p, f, i + 1, delta, room);
        if r.Ok? then ShapeTrans(t, u.value, r.value); r else r
  }

  /** The fixup node at `f` worked through for the node at `p`; it may list cells of the fixups themselves. */
  function LiveNode(t: Tree, p: seq<nat>, f: seq<nat>, delta: u32, room: Room): (r: Result<Tree>)
    requires IsPath(t, p) && IsPath(t, f)
    ensures r.Ok? ==> SameShape(t, r.value)
    decreases |Flat(Sub(t, f))|, 1, 0
  {
    var u := LiveProps(t, p, f, 0, delta, room);
    if u.Err? then u
    else
      ShapeAt(t, u.value, p); ShapeAt(t, u.value, f);
      var r := LiveKids(u.value, p, f, 0, delta, room);
      if r.Ok? then ShapeTrans(t, u.value, r.value); r else r
  }

  function LiveKids(t: Tree, p: seq<nat>, f: seq<nat>, k: nat, delta: u32, room: Room): (r: Result<Tree>)
    requires IsPath(t, p) && IsPath(t, f) && k <= |Sub(t, f).kids|
    ensures r.Ok? ==> SameShape(t, r.value)
    decreases |Flat(Sub(t, f))|, 0, |Sub(t, f).kids| - k
  {
    if k == |Sub(t, f).kids| then ShapeRefl(t); Ok(t)
    else
      var i := FirstKid(Sub(t, p).kids, Named(Sub(t, f).kids[k].name));
      if i == |Sub(t, p).kids| then Err(BadOverlay)
      else
        BeforeKidPath(t, p, i); BeforeKidPath(t, f, k); KidSmaller(Sub(t, f), k);
        var u := LiveNode(t, p + [i], f + [k], delta, room);
        if u.Err? then u
        else
          ShapeAt(t, u.value, p); ShapeAt(t, u.value, f);
          var r := LiveKids(u.value, p, f, k + 1, delta, room);
          if r.Ok? then ShapeTrans(t, u.value, r.value); r else r
  }

  // ---------- The loops refine it ----------

  lemma {:induction false} SliceWord(s: seq<byte>, x: nat, v: seq<byte>, i: nat)
    requires x + |v| <= |s| && s[x..x + |v|] == v && i + 4 <= |v|
    ensures Word(s, x + i) == Word(v, i)
  {
    assert v[i] == s[x + i] && v[i + 1] == s[x + i + 1] && v[i + 2] == s[x + i + 2] && v[i + 3] == s[x + i + 3];
  }

  /** What stays the same while cells of the node at `p` are raised. */
  lemma {:induction false} AfterRaise(b: Blob, t: Tree, c: Blob, u: Tree, p: seq<nat>, f: seq<nat>)
    requires Inplace(b, t, c, u) && IsPath(t, p) && IsPath(t, f)
    ensures IsPath(u, p) && Offset(c, u, p) == Offset(b, t, p) && SameShape(Sub(t, p), Sub(u, p)) && Decoded(c, u)
    ensures IsPath(u, f) && Offset(c, u, f) == Offset(b, t, f)
  {
    hide IsPath, Sub, Before, NodeOffset, Decodes, SameShape, LikeAll;
    InplaceOffset(b, t, c, u, p);
    InplaceOffset(b, t, c, u, f);
  }

  /** What a call made of the blob is what the tree function makes of the tree. */
  ghost predicate Agrees(b: Blob, t: Tree, r: Out<()>, l: Result<Tree>) {
    if l.Err? then r.r == Err(l.error) else r.r.Ok? && Inplace(b, t, r.blob, l.value)
  }

  lemma {:induction false} AgreesThen(b: Blob, t: Tree, c: Blob, u: Tree, r: Out<()>, l: Result<Tree>)
    requires Inplace(b, t, c, u) && Agrees(c, u, r, l)
    ensures Agrees(b, t, r, l)
  {
    hide Inplace;
    if l.Ok? { InplaceTrans(b, t, c, u, r.blob, l.value); }
  }

  lemma {:induction false} FixCellCorrect(b: Blob, t: Tree, p: seq<nat>, name: seq<byte>, idx: u32, delta: u32)
    requires Decoded(b, t) && IsPath(t, p) && FirstProp(Sub(t, p).props, name) < |Sub(t, p).props|
    ensures var k := FirstProp(Sub(t, p).props, name); var r := FixCell(b, Offset(b, t, p), name, idx, delta);
      var d := Verdict(|Sub(t, p).props[k].value|, Gap(b, t, p, k), idx);
      if d.Err? then r.r == Err(d.error) else r.r.Ok? && Inplace(b, t, r.blob, Raise(t, Cell(p, k, idx), delta))
  {
    hide NextTag, SymOffset, Before, Sub, IsPath, Put, Decodes, Inplace, Word, Poke, PropOffset, FindProp, NodeOffset,
      SetInplace, Be32, Wrap, Patched;
    FindPropAt(b.Struct(), b.Strings(), t, p, name);
    var n := Sub(t, p);
    var k := FirstProp(n.props, name);
    var v := n.props[k].value;
    assert |Poke(v, 0, [])| == |v|;
    InplaceValue(b, t, p, k, 0, []);
    var x := PropOffset(b.Struct(), t, p, k);
    FoundFits(b, Offset(b, t, p), name);
    var at := b.offStruct + x + 12 + idx;
    if at + 4 <= |b.data| {
      WrapSmall(4 + idx);
      if idx + 4 <= |v| {
        SliceWord(b.Struct(), x + 12, v, idx);
        StructWord(b, x + 12 + idx);
      }
      SetInplaceCorrect(b, t, p, name, idx, Be32(Wrap(Word(b.data, at) + delta)));
    }
  }

  lemma {:induction false} StructWord(b: Blob, x: nat)
    requires b.Ordered() && x + 4 <= b.sizeStruct
    ensures Word(b.data, b.offStruct + x) == Word(b.Struct(), x)
  {
    SliceWord(b.data, b.offStruct, b.Struct(), x);
  }

  /** Offsets from 2^31 on are read outside every blob, also those the length test would let pass. */
  lemma {:induction false} WildCell(b: Blob, t: Tree, p: seq<nat>, name: seq<byte>, idx: u32, delta: u32)
    requires Decoded(b, t) && IsPath(t, p) && FirstProp(Sub(t, p).props, name) < |Sub(t, p).props|
    requires idx >= 0x8000_0000
    ensures FixCell(b, Offset(b, t, p), name, idx, delta).r == Err(Wild)
  {
    hide Sub, IsPath, Decodes, FixCell, Inplace, Raise, PropOffset;
    FixCellCorrect(b, t, p, name, idx, delta);
  }

  /**
   Every listed offset of every property of a decoded overlay: it is raised exactly if its four bytes
   lie in the value, refused exactly if they lie behind the value and in the blob, and undefined
   exactly if they leave the blob.
   */
  lemma {:induction false} VerdictExact(b: Blob, t: Tree, p: seq<nat>, name: seq<byte>, idx: u32, delta: u32)
    requires Decoded(b, t) && IsPath(t, p) && FirstProp(Sub(t, p).props, name) < |Sub(t, p).props|
    ensures var k := FirstProp(Sub(t, p).props, name); var at := b.offStruct + PropOffset(b.Struct(), t, p, k) + 12;
      var len := |Sub(t, p).props[k].value|; var r := FixCell(b, Offset(b, t, p), name, idx, delta).r;
      && at + len <= |b.data|
      && (r.Ok? <==> idx + 4 <= len)
      && (r == Err(BadOverlay) <==> len < idx + 4 && at + idx + 4 <= |b.data|)
      && (r == Err(Wild) <==> at + idx + 4 > |b.data|)
  {
    hide Sub, IsPath, Decodes, FixCell, Inplace, Raise, PropOffset, Patched, Put, Poke, Word;
    FixCellCorrect(b, t, p, name, idx, delta);
    var k := FirstProp(Sub(t, p).props, name);
    assert |Poke(Sub(t, p).props[k].value, 0, [])| == |Sub(t, p).props[k].value|;
    InplaceValue(b, t, p, k, 0, []);
  }

  lemma {:induction false} FixupWord(b: Blob, t: Tree, f: seq<nat>, i: nat, j: nat)
    requires Decoded(b, t) && IsPath(t, f) && i < |Sub(t, f).props| && j + 4 <= |Sub(t, f).props[i].value|
    ensures var x := PropOffset(b.Struct(), t, f, i); var v := Sub(t, f).props[i].value;
      x + 12 + |v| <= b.sizeStruct && Word(b.Struct(), x + 12 + j) == Word(v, j)
  {
    hide Before, Sub, IsPath, Decodes, Inplace, Word, PropOffset, Put, Patched, Poke;
    var v := Sub(t, f).props[i].value;
    assert |Poke(v, 0, [])| == |v|;
    InplaceValue(b, t, f, i, 0, []);
    SliceWord(b.Struct(), PropOffset(b.Struct(), t, f, i) + 12, v, j);
  }

  lemma {:induction false} FixCellsCorrect(b: Blob, t: Tree, p: seq<nat>, f: seq<nat>, i: nat, j: nat, delta: u32,
                                           room: Room)
    requires Decoded(b, t) && Measures(room, b, t) && IsPath(t, p) && IsPath(t, f) && i < |Sub(t, f).props|
    requires var q := Sub(t, f).props[i];
      |q.value| % 4 == 0 && 4 * j <= |q.value| && FirstProp(Sub(t, p).props, q.name) < |Sub(t, p).props|
    requires PropOffset(b.Struct(), t, f, i) + 12 + |Sub(t, f).props[i].value| <= b.sizeStruct
    ensures var q := Sub(t, f).props[i]; var k := FirstProp(Sub(t, p).props, q.name);
      Agrees(b, t, FixCells(b, Offset(b, t, p), q.name, PropOffset(b.Struct(), t, f, i), j, |q.value| / 4, delta),
        LiveCells(t, p, f, i, k, j, delta, room))
    decreases |Sub(t, f).props[i].value| - 4 * j
  {
    hide Before, Sub, IsPath, Decodes, Inplace, Word, PropOffset, NodeOffset, FixCell, Raise, SameShape, Verdict;
    var q := Sub(t, f).props[i];
    var k := FirstProp(Sub(t, p).props, q.name);
    if 4 * j == |q.value| {
      InplaceSelf(b, t);
    } else {
      FixupWord(b, t, f, i, 4 * j);
      var idx := Word(q.value, 4 * j);
      FixCellCorrect(b, t, p, q.name, idx, delta);
      var c := FixCell(b, Offset(b, t, p), q.name, idx, delta);
      if c.r.Ok? { FixCellsRest(b, t, p, f, i, j, delta, c.blob, Cell(p, k, idx), room); }
    }
  }

  lemma {:induction false} FixCellsRest(b: Blob, t: Tree, p: seq<nat>, f: seq<nat>, i: nat, j: nat, delta: u32, c: Blob,
                                        z: Cell, room: Room)
    requires Decoded(b, t) && Measures(room, b, t) && IsPath(t, p) && IsPath(t, f) && i < |Sub(t, f).props|
    requires var q := Sub(t, f).props[i];
      |q.value| % 4 == 0 && 4 * j < |q.value| && FirstProp(Sub(t, p).props, q.name) < |Sub(t, p).props|
    requires PropOffset(b.Struct(), t, f, i) + 12 + |Sub(t, f).props[i].value| <= b.sizeStruct
    requires Inplace(b, t, c, Raise(t, z, delta))
    ensures c.Ordered() && c.sizeStruct == b.sizeStruct
    ensures var u := Raise(t, z, delta);
      && IsPath(u, p) && IsPath(u, f) && i < |Sub(u, f).props|
      && FirstProp(Sub(t, p).props, Sub(t, f).props[i].name) < |Sub(u, p).props|
    ensures var q := Sub(t, f).props[i]; var k := FirstProp(Sub(t, p).props, q.name);
      Agrees(b, t, FixCells(c, Offset(b, t, p), q.name, PropOffset(b.Struct(), t, f, i), j + 1, |q.value| / 4, delta),
        LiveCells(Raise(t, z, delta), p, f, i, k, j + 1, delta, room))
    decreases |Sub(t, f).props[i].value| - 4 * j, 0
  {
    hide Before, Sub, IsPath, Decodes, Word, PropOffset, NodeOffset, FixCells, Raise, SameShape, LikeAll, LiveCells,
      Agrees, Flat;
    var q := Sub(t, f).props[i];
    var u := Raise(t, z, delta);
    RaiseShape(t, z, delta);
    ShapeAt(t, u, p);
    ShapeAt(t, u, f);
    AfterRaise(b, t, c, u, p, f);
    MeasuresKept(room, b, t, c, u);
    InplaceProp(b, t, c, u, f, i);
    ShapeFirst(Sub(t, p).props, Sub(u, p).props, q.name);
    FixCellsCorrect(c, u, p, f, i, j + 1, delta, room);
    AgreesThen(b, t, c, u,
      FixCells(c, Offset(b, t, p), q.name, PropOffset(b.Struct(), t, f, i), j + 1, |q.value| / 4, delta),
      LiveCells(u, p, f, i, FirstProp(Sub(t, p).props, q.name), j + 1, delta, room));
  }

  /** The token of a property, as fdt_getprop_by_offset sees it. */
  lemma {:induction false} PropTokenAt(b: Blob, t: Tree, p: seq<nat>, k: nat)
    requires Decoded(b, t) && IsPath(t, p) && k < |Sub(t, p).props|
    ensures var x := PropOffset(b.Struct(), t, p, k); var r := NextTag(b.Struct(), x); var q := Sub(t, p).props[k];
      r.Tok? && r.token.Prop? && r.token.value == q.value && GetString(b.Strings(), r.token.nameoff) == Ok(q.name)
      && x + 12 + |q.value| <= b.sizeStruct
  {
    hide SymOffset, Scan, Syms, Walk, Before, After, Sub, IsPath, Flat, GetString, PropOffset, Word;
    var pre, off, end := AtProp(b, t, p, k);
    var q := Sub(t, p).props[k];
    StandsRoom(b.Struct(), PropOffset(b.Struct(), t, p, k), off, q.value);
    StandsTag(b.Struct(), PropOffset(b.Struct(), t, p, k), off, q.value);
  }

  lemma {:induction false} StandsTag(s: seq<byte>, x: nat, off: u32, v: seq<byte>)
    requires PropStands(s, x, off, v)
    ensures var r := NextTag(s, x); r.Tok? && r.token == Prop(off, v)
  {
    hide Align4, Word;
  }

  lemma {:induction false} FixPropCorrect(b: Blob, t: Tree, p: seq<nat>, f: seq<nat>, i: nat, delta: u32, room: Room)
    requires Decoded(b, t) && Measures(room, b, t) && IsPath(t, p) && IsPath(t, f) && i < |Sub(t, f).props|
    ensures Agrees(b, t, FixProp(b, Offset(b, t, p), PropOffset(b.Struct(), t, f, i), delta),
      LiveProp(t, p, f, i, delta, room))
  {
    hide Before, Sub, IsPath, Decodes, Inplace, Word, PropOffset, NodeOffset, FixCells, SameShape, FindProp, NextTag,
      GetString, LiveCells, Scan, Syms, Flat, Walk;
    var q := Sub(t, f).props[i];
    PropTokenAt(b, t, f, i);
    FindPropAt(b.Struct(), b.Strings(), t, p, q.name);
    if |q.value| % 4 == 0 && FirstProp(Sub(t, p).props, q.name) < |Sub(t, p).props| {
      FixCellsCorrect(b, t, p, f, i, 0, delta, room);
    }
  }

  lemma {:induction false} FixPropsCorrect(b: Blob, t: Tree, p: seq<nat>, f: seq<nat>, i: nat, delta: u32, room: Room)
    requires Decoded(b, t) && Measures(room, b, t) && IsPath(t, p) && IsPath(t, f) && i <= |Sub(t, f).props|
    ensures Agrees(b, t, FixProps(b, Offset(b, t, p), PropAt(b.Struct(), t, f, i), delta),
      LiveProps(t, p, f, i, delta, room))
    decreases |Sub(t, f).props| - i
  {
    hide Before, Sub, IsPath, Decodes, Inplace, PropOffset, NodeOffset, FixProp, SameShape, LiveProp, NextProperty;
    if i == |Sub(t, f).props| {
      InplaceSelf(b, t);
    } else {
      FixPropCorrect(b, t, p, f, i, delta, room);
      var u := LiveProp(t, p, f, i, delta, room);
      if u.Ok? {
        FixPropsRest(b, t, p, f, i, delta, FixProp(b, Offset(b, t, p), PropOffset(b.Struct(), t, f, i), delta).blob,
          u.value, room);
      }
    }
  }

  lemma {:induction false} FixPropsRest(b: Blob, t: Tree, p: seq<nat>, f: seq<nat>, i: nat, delta: u32, c: Blob,
                                        u: Tree, room: Room)
    requires Decoded(b, t) && Measures(room, b, t) && IsPath(t, p) && IsPath(t, f) && i < |Sub(t, f).props|
      && Inplace(b, t, c, u)
    ensures c.Ordered() && IsPath(u, p) && IsPath(u, f) && |Sub(u, f).props| == |Sub(t, f).props|
    ensures Agrees(b, t, FixProps(c, Offset(b, t, p), NextProperty(c.Struct(), PropOffset(b.Struct(), t, f, i)), delta),
      LiveProps(u, p, f, i + 1, delta, room))
    decreases |Sub(t, f).props| - i, 0
  {
    hide Before, Sub, IsPath, Decodes, PropOffset, NodeOffset, SameShape, NextProperty, LikeAll, FixProps, LiveProps,
      Agrees, Flat;
    AfterRaise(b, t, c, u, p, f);
    MeasuresKept(room, b, t, c, u);
    ShapeAt(t, u, f);
    InplaceProp(b, t, c, u, f, i);
    NextPropertyAt(c.Struct(), c.Strings(), u, f, i);
    FixPropsCorrect(c, u, p, f, i + 1, delta, room);
    AgreesThen(b, t, c, u,
      FixProps(c, Offset(b, t, p), NextProperty(c.Struct(), PropOffset(b.Struct(), t, f, i)), delta),
      LiveProps(u, p, f, i + 1, delta, room));
  }

  /**
   overlay_update_local_node_references does to the blob what LiveNode does to the tree, on every
   decodable overlay: the same cells raised in the same order, the same error, the same stray store.
   */
  lemma {:induction false} FixNodeCorrect(b: Blob, t: Tree, p: seq<nat>, f: seq<nat>, delta: u32, room: Room)
    requires Decoded(b, t) && Measures(room, b, t) && IsPath(t, p) && IsPath(t, f)
    ensures Agrees(b, t, FixNode(b, Offset(b, t, p), Offset(b, t, f), delta), LiveNode(t, p, f, delta, room))
    decreases |Flat(Sub(t, f))|, 1, 0
  {
    hide Before, Sub, IsPath, Decodes, NodeOffset, SameShape, FixProps, FixKids, Inplace, KidAt, LiveProps, LiveKids,
      Flat, PropOffset;
    FirstPropertyAt(b.Struct(), b.Strings(), t, f);
    FixPropsCorrect(b, t, p, f, 0, delta, room);
    var u := LiveProps(t, p, f, 0, delta, room);
    if u.Ok? {
      var c := FixProps(b, Offset(b, t, p), FirstProperty(b.Struct(), Offset(b, t, f)), delta).blob;
      AfterRaise(b, t, c, u.value, p, f);
      MeasuresKept(room, b, t, c, u.value);
      ShapeAt(t, u.value, f);
      FirstAt(c.Struct(), c.Strings(), u.value, f);
      FixKidsCorrect(c, u.value, p, f, 0, delta, room);
      AgreesThen(b, t, c, u.value, FixKids(c, Offset(b, t, p), FirstSubnode(c.Struct(), Offset(b, t, f)), delta),
        LiveKids(u.value, p, f, 0, delta, room));
    }
  }

  lemma {:induction false} ChildAt(b: Blob, t: Tree, p: seq<nat>, name: seq<byte>)
    requires Decoded(b, t) && IsPath(t, p)
    ensures var n := Sub(t, p); var i := FirstKid(n.kids, Named(name));
      && (i < |n.kids| ==> IsPath(t, p + [i]))
      && FindChild(b.Struct(), Offset(b, t, p), name) == if i < |n.kids| then Ok(Offset(b, t, p + [i]))
           else Err(NotFound)
  {
    hide Before, Sub, IsPath, Decodes, NodeOffset, NodeFrom, NextTag;
    HuntAt(b.Struct(), b.Strings(), t, p, Named(name));
  }

  lemma {:induction false} FixKidsCorrect(b: Blob, t: Tree, p: seq<nat>, f: seq<nat>, k: nat, delta: u32, room: Room)
    requires Decoded(b, t) && Measures(room, b, t) && IsPath(t, p) && IsPath(t, f) && k <= |Sub(t, f).kids|
    ensures Agrees(b, t, FixKids(b, Offset(b, t, p), KidAt(b.Struct(), t, f, k), delta),
      LiveKids(t, p, f, k, delta, room))
    decreases |Flat(Sub(t, f))|, 0, |Sub(t, f).kids| - k
  {
    hide Before, Sub, IsPath, Decodes, NodeOffset, SameShape, FixNode, Inplace, LiveNode, NextTag, NextSubnode,
      FindChild, After, Inner, Scan, Syms, Walk, Flat;
    var xs, n := Sub(t, f).kids, Sub(t, p);
    if k == |xs| {
      InplaceSelf(b, t);
    } else {
      BeforeKidPath(t, f, k);
      var pre, m := AtNode(b.Struct(), b.Strings(), t, f + [k]);
      ChildAt(b, t, p, xs[k].name);
      var i := FirstKid(n.kids, Named(xs[k].name));
      if i < |n.kids| {
        BeforeKidPath(t, p, i);
        KidSmaller(Sub(t, f), k);
        FixNodeCorrect(b, t, p + [i], f + [k], delta, room);
        var u := LiveNode(t, p + [i], f + [k], delta, room);
        if u.Ok? {
          FixKidsRest(b, t, p, f, k, delta, FixNode(b, Offset(b, t, p + [i]), Offset(b, t, f + [k]), delta).blob,
            u.value, room);
        }
      }
    }
  }

  lemma {:induction false} FixKidsRest(b: Blob, t: Tree, p: seq<nat>, f: seq<nat>, k: nat, delta: u32, c: Blob, u: Tree,
                                       room: Room)
    requires Decoded(b, t) && Measures(room, b, t) && IsPath(t, p) && IsPath(t, f) && k < |Sub(t, f).kids|
      && IsPath(t, f + [k])
      && Inplace(b, t, c, u)
    ensures c.Ordered() && IsPath(u, p) && IsPath(u, f) && |Sub(u, f).kids| == |Sub(t, f).kids|
    ensures Agrees(b, t, FixKids(c, Offset(b, t, p), NextSubnode(c.Struct(), Offset(b, t, f + [k])), delta),
      LiveKids(u, p, f, k + 1, delta, room))
    decreases |Flat(Sub(t, f))|, 0, |Sub(t, f).kids| - k, 0
  {
    hide Before, Sub, IsPath, Decodes, NodeOffset, SameShape, FixKids, NextSubnode, LikeAll, LiveKids, Agrees, Flat;
    AfterRaise(b, t, c, u, p, f);
    MeasuresKept(room, b, t, c, u);
    ShapeAt(t, u, f);
    InplaceOffset(b, t, c, u, f + [k]);
    NextAtKid(c.Struct(), c.Strings(), u, f, k);
    FixKidsCorrect(c, u, p, f, k + 1, delta, room);
    AgreesThen(b, t, c, u, FixKids(c, Offset(b, t, p), NextSubnode(c.Struct(), Offset(b, t, f + [k])), delta),
      LiveKids(u, p, f, k + 1, delta, room));
  }
}
