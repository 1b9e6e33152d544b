/**
 Why overlay renumbering is sound (libfdt/fdt_overlay.c, libfdt/fdt_ro.c): raised by the largest
 base phandle, no overlay phandle meets a base phandle, and every listed reference still names
 its node.
 */
module FdtRenumber {
  import opened Bytes
  import opened Options
  import opened FdtTokens
  import opened FdtTree
  import opened FdtRead
  import opened FdtNode
  import opened FdtBlob
  import opened FdtEdit
  import opened FdtInplace
  import opened FdtPhandle
  import opened FdtFixups
  import opened FdtCells

  function Max(a: u32, b: u32): u32 { if a < b then b else a }

  // ---------- Phandles of a tree ----------

  function Value(ps: seq<Property>, name: seq<byte>): (r: Option<seq<byte>>) {
    var k := FirstProp(ps, name);
    if k < |ps| then Some(ps[k].value) else None
  }

  /** What the two properties say: "phandle" if it is a word, else "linux,phandle" if it is one, else none. */
  function Choose(a: Option<seq<byte>>, b: Option<seq<byte>>): (h: u32) {
    if a.Some? && |a.value| == 4 then Word(a.value, 0) else if b.Some? && |b.value| == 4 then Word(b.value, 0) else 0
  }

  function Phandle(n: Tree): (h: u32) {
    Choose(Value(n.props, PHANDLE), Value(n.props, LINUX_PHANDLE))
  }

  function MaxPhandle(t: Tree): (m: u32)
    decreases t
  {
    Max(Phandle(t), MaxAll(t.kids))
  }

  function MaxAll(ks: seq<Tree>): (m: u32)
    decreases ks
  {
    if ks == [] then 0 else Max(MaxPhandle(ks[0]), MaxAll(ks[1..]))
  }

  lemma {:induction false} MaxAbove(t: Tree, p: seq<nat>)
    requires IsPath(t, p)
    ensures Phandle(Sub(t, p)) <= MaxPhandle(t)
    decreases |p|
  {
    hide Phandle;
    if p != [] {
      MaxAbove(t.kids[p[0]], p[1..]);
      MaxAllAbove(t.kids, p[0]);
    }
  }

  lemma {:induction false} MaxAllAbove(ks: seq<Tree>, i: nat)
    requires i < |ks|
    ensures MaxPhandle(ks[i]) <= MaxAll(ks)
    decreases |ks|
  {
    hide MaxPhandle;
    if i > 0 { MaxAllAbove(ks[1..], i - 1); }
  }

  /** The maximum is some node's phandle, or there is none. */
  lemma {:induction false} MaxReached(t: Tree) returns (p: seq<nat>)
    ensures IsPath(t, p) && Phandle(Sub(t, p)) == MaxPhandle(t)
    decreases t, 1
  {
    hide Phandle;
    if Phandle(t) >= MaxAll(t.kids) {
      p := [];
    } else {
      var i, q := MaxAllReached(t.kids);
      p := [i] + q;
      assert p[1..] == q;
    }
  }

  lemma {:induction false} MaxAllReached(ks: seq<Tree>) returns (i: nat, q: seq<nat>)
    requires MaxAll(ks) > 0
    ensures i < |ks| && IsPath(ks[i], q) && Phandle(Sub(ks[i], q)) == MaxAll(ks)
    decreases ks, 0
  {
    hide Phandle, MaxPhandle;
    if MaxPhandle(ks[0]) >= MaxAll(ks[1..]) {
      i := 0;
      q := MaxReached(ks[0]);
    } else {
      i, q := MaxAllReached(ks[1..]);
      i := i + 1;
    }
  }

  // ---------- fdt_get_phandle and fdt_find_max_phandle ----------

  function ValueAt(s: seq<byte>, f: Result<nat>): (r: Option<seq<byte>>)
    requires f.Ok? ==> f.value + 12 <= |s| && f.value + 12 + Word(s, f.value + 4) <= |s|
  {
    if f.Err? then None else Some(s[f.value + 12..f.value + 12 + Word(s, f.value + 4)])
  }

  /** fdt_get_phandle. */
  function GetPhandle(s: seq<byte>, strs: seq<byte>, node: nat): (h: u32) {
    Choose(ValueAt(s, FindProp(s, strs, node, PHANDLE)), ValueAt(s, FindProp(s, strs, node, LINUX_PHANDLE)))
  }

  /** fdt_find_max_phandle, from `o` on: fdt_next_node visits every BEGIN_NODE. */
  function MaxFrom(s: seq<byte>, strs: seq<byte>, o: nat, max: u32): (r: Result<u32>)
    decreases if o < |s| then |s| - o else 0
  {
    match NextTag(s, o)
    case Bad(e) => if e == Truncated then Ok(max) else Err(e)
    case Tok(t, n) =>
      if t.End? then Ok(max)
      else if t.BeginNode? then MaxFrom(s, strs, n, Max(max, GetPhandle(s, strs, o)))
      else MaxFrom(s, strs, n, max)
  }

  function ValueSym(ss: seq<Sym>, name: seq<byte>): (r: Option<seq<byte>>) {
    if ss == [] then None
    else match ss[0]
      case Attr(p) => if p.name == name then Some(p.value) else ValueSym(ss[1..], name)
      case Bogus => ValueSym(ss[1..], name)
      case Open(_) => None
      case Close => None
  }

  function PhandleSym(ss: seq<Sym>): (h: u32) {
    Choose(ValueSym(ss, PHANDLE), ValueSym(ss, LINUX_PHANDLE))
  }

  function MaxSym(ss: seq<Sym>, max: u32): (m: u32) {
    if ss == [] then max
    else if ss[0].Open? then MaxSym(ss[1..], Max(max, PhandleSym(ss[1..])))
    else MaxSym(ss[1..], max)
  }

  lemma {:induction false} PropFromValue(s: seq<byte>, strs: seq<byte>, a: nat, name: seq<byte>)
    requires Scan(s, a).Ok?
    ensures ValueAt(s, PropFrom(s, strs, a, name)) == ValueSym(Syms(strs, Scan(s, a).value), name)
    decreases if a < |s| then |s| - a else 0
  {
    hide Syms, GetString, NextTag, Word;
    var t := NextTag(s, a).token;
    if t.End? {
      SymsNil(strs);
    } else {
      ScanStep(s, strs, a);
      var n := NextTag(s, a).next;
      var tail := Syms(strs, Scan(s, n).value);
      if t.Prop? || t.Nop? { PropFromValue(s, strs, n, name); }
      assert !t.Nop? ==> (SymsOf(strs, t) + tail)[1..] == tail;
      assert t.Nop? ==> SymsOf(strs, t) + tail == tail;
      if t.Prop? { PropBytes(s, a); }
    }
  }

  lemma {:induction false} PropBytes(s: seq<byte>, a: nat)
    requires NextTag(s, a).Tok? && NextTag(s, a).token.Prop?
    ensures a + 12 <= |s| && a + 12 + Word(s, a + 4) <= |s|
      && NextTag(s, a).token.value == s[a + 12..a + 12 + Word(s, a + 4)]
  {
    hide Word;
  }

  lemma {:induction false} MaxFromSym(s: seq<byte>, strs: seq<byte>, a: nat, max: u32)
    requires Scan(s, a).Ok? && a % 4 == 0
    ensures MaxFrom(s, strs, a, max) == Ok(MaxSym(Syms(strs, Scan(s, a).value), max))
    decreases if a < |s| then |s| - a else 0
  {
    hide NextTag, Syms, GetString, Choose, FindProp, PropFrom, ValueSym, ValueAt, Word;
    var t := NextTag(s, a).token;
    if t.End? {
      SymsNil(strs);
    } else {
      ScanStep(s, strs, a);
      var n := NextTag(s, a).next;
      var tail := Syms(strs, Scan(s, n).value);
      TagAligned(s, a);
      if t.BeginNode? { PhandleFromSym(s, strs, a); }
      MaxFromSym(s, strs, n, if t.BeginNode? then Max(max, GetPhandle(s, strs, a)) else max);
      assert !t.Nop? ==> (SymsOf(strs, t) + tail)[1..] == tail;
      assert t.Nop? ==> SymsOf(strs, t) + tail == tail;
    }
  }

  lemma {:induction false} TagAligned(s: seq<byte>, a: nat)
    requires NextTag(s, a).Tok?
    ensures NextTag(s, a).next % 4 == 0
  {
  }

  lemma {:induction false} PhandleFromSym(s: seq<byte>, strs: seq<byte>, a: nat)
    requires a % 4 == 0 && NextTag(s, a).Tok? && NextTag(s, a).token.BeginNode? && Scan(s, NextTag(s, a).next).Ok?
    ensures GetPhandle(s, strs, a) == PhandleSym(Syms(strs, Scan(s, NextTag(s, a).next).value))
  {
    hide NextTag, Syms, GetString, Choose, PropFrom, ValueSym, Scan, Word;
    var n := NextTag(s, a).next;
    PropFromValue(s, strs, n, PHANDLE);
    PropFromValue(s, strs, n, LINUX_PHANDLE);
  }

  lemma {:induction false} ValueAttrs(ps: seq<Property>, x: seq<Sym>, name: seq<byte>)
    requires x != [] && (x[0].Open? || x[0].Close?)
    ensures ValueSym(Attrs(ps) + x, name) == Value(ps, name)
    decreases |ps|
  {
    var ss := Attrs(ps) + x;
    if ps == [] {
      assert ss == x;
    } else {
      assert ss[1..] == Attrs(ps[1..]) + x && ss[0] == Attr(ps[0]);
      ValueAttrs(ps[1..], x, name);
    }
  }

  lemma {:induction false} MaxAttrs(ps: seq<Property>, x: seq<Sym>, max: u32)
    ensures MaxSym(Attrs(ps) + x, max) == MaxSym(x, max)
    decreases |ps|
  {
    hide PhandleSym;
    var ss := Attrs(ps) + x;
    if ps == [] {
      assert ss == x;
    } else {
      assert ss[1..] == Attrs(ps[1..]) + x && ss[0] == Attr(ps[0]);
      MaxAttrs(ps[1..], x, max);
    }
  }

  lemma {:induction false} MaxTree(t: Tree, x: seq<Sym>, max: u32)
    ensures MaxSym(Flat(t) + x, max) == MaxSym(x, Max(max, MaxPhandle(t)))
    decreases t, 1
  {
    hide Flat, Choose, PhandleSym, Attrs, FlatAll, MaxAll, MaxSym;
    var z := [Close] + x;
    var y := Attrs(t.props) + (FlatAll(t.kids) + z);
    FlatHead(t, x);
    FlatAllHead(t.kids);
    PhandleHere(t, z);
    var m := Max(max, Phandle(t));
    MaxStep(Flat(t) + x, max);
    MaxAttrs(t.props, FlatAll(t.kids) + z, m);
    MaxTrees(t.kids, z, m);
    MaxStep(z, Max(m, MaxAll(t.kids)));
    assert z[1..] == x;
  }

  lemma {:induction false} MaxStep(ss: seq<Sym>, max: u32)
    requires ss != []
    ensures MaxSym(ss, max) == MaxSym(ss[1..], if ss[0].Open? then Max(max, PhandleSym(ss[1..])) else max)
  {
    hide PhandleSym;
  }

  lemma {:induction false} PhandleHere(t: Tree, z: seq<Sym>)
    requires z != [] && z[0].Close? && (FlatAll(t.kids) == [] || FlatAll(t.kids)[0].Open?)
    ensures PhandleSym(Attrs(t.props) + (FlatAll(t.kids) + z)) == Phandle(t)
  {
    hide Choose, ValueSym, Value, FlatAll;
    var x := FlatAll(t.kids) + z;
    ValueAttrs(t.props, x, PHANDLE);
    ValueAttrs(t.props, x, LINUX_PHANDLE);
  }

  lemma {:induction false} MaxTrees(ks: seq<Tree>, x: seq<Sym>, max: u32)
    ensures MaxSym(FlatAll(ks) + x, max) == MaxSym(x, Max(max, MaxAll(ks)))
    decreases ks, 0
  {
    hide Flat, MaxSym, MaxPhandle;
    if ks == [] {
      assert FlatAll(ks) + x == x;
    } else {
      assert FlatAll(ks) + x == Flat(ks[0]) + (FlatAll(ks[1..]) + x);
      MaxTree(ks[0], FlatAll(ks[1..]) + x, max);
      MaxTrees(ks[1..], x, Max(max, MaxPhandle(ks[0])));
    }
  }

  /** fdt_find_max_phandle finds the largest phandle of the tree. */
  lemma {:induction false} MaxCorrect(b: Blob, t: Tree)
    requires Decoded(b, t)
    ensures MaxFrom(b.Struct(), b.Strings(), 0, 0) == Ok(MaxPhandle(t))
  {
    hide Flat, MaxSym, MaxPhandle, MaxFrom, Scan, Syms;
    MaxFromSym(b.Struct(), b.Strings(), 0, 0);
    assert Flat(t) + [] == Flat(t);
    MaxTree(t, [], 0);
    MaxEnd(MaxPhandle(t));
  }

  lemma {:induction false} MaxEnd(m: u32)
    ensures MaxSym([], Max(0, m)) == m
  {
  }

  // ---------- Raised phandles ----------

  predicate HasPhandle(n: Tree) {
    Value(n.props, PHANDLE).Some? || Value(n.props, LINUX_PHANDLE).Some?
  }

  lemma {:induction false} PatchedValue(n: Tree, k: nat, v: seq<byte>, name: seq<byte>)
    requires k < |n.props|
    ensures Value(Patched(n, k, v).props, name) == if k == FirstProp(n.props, name) then Some(v)
      else Value(n.props, name)
  {
    ShapeFirst(n.props, Patched(n, k, v).props, name);
  }

  lemma {:induction false} BumpValue(n: Tree, name: seq<byte>, delta: u32, x: seq<byte>)
    requires Bump(n, name, delta).Ok?
    ensures var m := Bump(n, name, delta).value; var v := Value(n.props, x);
      && m.kids == n.kids && m.name == n.name
      && (x != name || v.None? ==> Value(m.props, x) == v)
      && (x == name && v.Some? ==>
           |v.value| == 4 && Word(v.value, 0) + delta < 0xFFFF_FFFF
           && Value(m.props, x) == Some(Be32(Word(v.value, 0) + delta)))
  {
    hide Word, Be32;
    var k := FirstProp(n.props, name);
    if k < |n.props| { PatchedValue(n, k, Be32(Word(n.props[k].value, 0) + delta), x); }
  }

  lemma {:induction false} NamesDiffer()
    ensures PHANDLE != LINUX_PHANDLE
  {
    assert |PHANDLE| != |LINUX_PHANDLE|;
  }

  lemma {:induction false} BumpPhandle(n: Tree, delta: u32)
    requires BumpBoth(n, delta).Ok?
    ensures var m := BumpBoth(n, delta).value;
      && m.kids == n.kids && m.name == n.name && (HasPhandle(m) <==> HasPhandle(n))
      && Phandle(m) == (if HasPhandle(n) then Phandle(n) + delta else 0) && Phandle(m) < 0xFFFF_FFFF
  {
    hide Word, Be32, Bump, Value;
    NamesDiffer();
    var l := Bump(n, PHANDLE, delta).value;
    BumpValue(n, PHANDLE, delta, PHANDLE);
    BumpValue(n, PHANDLE, delta, LINUX_PHANDLE);
    BumpValue(l, LINUX_PHANDLE, delta, PHANDLE);
    BumpValue(l, LINUX_PHANDLE, delta, LINUX_PHANDLE);
    var a, b := Value(n.props, PHANDLE), Value(n.props, LINUX_PHANDLE);
    if a.Some? { WordBack(Word(a.value, 0) + delta); }
    if b.Some? { WordBack(Word(b.value, 0) + delta); }
  }

  lemma {:induction false} WordBack(x: u32)
    ensures Word(Be32(x), 0) == x
  {
    hide Be32, Word;
    assert Be32(x)[0..4] == Be32(x);
    WordOfBe32(Be32(x), 0, x);
  }

  /** Other properties are left alone. */
  lemma {:induction false} BumpOther(n: Tree, delta: u32, k: nat)
    requires BumpBoth(n, delta).Ok? && k < |n.props| && n.props[k].name != PHANDLE && n.props[k].name != LINUX_PHANDLE
    ensures var m := BumpBoth(n, delta).value; |m.props| == |n.props| && m.props[k] == n.props[k]
  {
    hide Word, Be32;
    BumpOne(n, PHANDLE, delta, k);
    BumpOne(Bump(n, PHANDLE, delta).value, LINUX_PHANDLE, delta, k);
  }

  lemma {:induction false} BumpOne(n: Tree, name: seq<byte>, delta: u32, k: nat)
    requires Bump(n, name, delta).Ok? && k < |n.props| && n.props[k].name != name
    ensures var m := Bump(n, name, delta).value; |m.props| == |n.props| && m.props[k] == n.props[k]
  {
    hide Word, Be32;
  }

  lemma {:induction false} AdjustAllAt(ks: seq<Tree>, delta: u32, i: nat)
    requires AdjustAll(ks, delta).Ok? && i < |ks|
    ensures Adjust(ks[i], delta) == Ok(AdjustAll(ks, delta).value[i])
    decreases |ks|
  {
    hide Adjust;
    if i > 0 { AdjustAllAt(ks[1..], delta, i - 1); }
  }

  /** What the renumbering does at one node. */
  lemma {:induction false} AdjustAt(t: Tree, delta: u32, p: seq<nat>)
    requires Adjust(t, delta).Ok? && IsPath(t, p)
    ensures var u := Adjust(t, delta).value;
      IsPath(u, p) && BumpBoth(Sub(t, p), delta).Ok? && Sub(u, p).props == BumpBoth(Sub(t, p), delta).value.props
    decreases |p|
  {
    hide BumpBoth;
    if p != [] {
      AdjustAllAt(t.kids, delta, p[0]);
      AdjustAt(t.kids[p[0]], delta, p[1..]);
    }
  }

  /** Every phandle of the overlay is raised by delta, and none wraps. */
  lemma {:induction false} AdjustRaises(t: Tree, delta: u32, p: seq<nat>)
    requires Adjust(t, delta).Ok? && IsPath(t, p)
    ensures var u := Adjust(t, delta).value;
      && IsPath(u, p) && (HasPhandle(Sub(u, p)) <==> HasPhandle(Sub(t, p)))
      && Phandle(Sub(u, p)) == (if HasPhandle(Sub(t, p)) then Phandle(Sub(t, p)) + delta else 0)
      && Phandle(Sub(u, p)) < 0xFFFF_FFFF
  {
    hide BumpBoth, Sub, IsPath, Adjust, Value, Choose;
    AdjustAt(t, delta, p);
    BumpPhandle(Sub(t, p), delta);
  }

  // ---------- Raised cells ----------

  /** The two cells share no byte. */
  predicate Apart(c: Cell, z: Cell) {
    c.path != z.path || c.prop != z.prop || c.idx + 4 <= z.idx || z.idx + 4 <= c.idx
  }

  lemma {:induction false} PutProps(t: Tree, p: seq<nat>, k: nat, v: seq<byte>, q: seq<nat>)
    requires IsPath(t, p) && IsPath(t, q) && k < |Sub(t, p).props|
    ensures var u := Put(t, p, Patched(Sub(t, p), k, v));
      && IsPath(u, q)
      && Sub(u, q).props == if p == q then Patched(Sub(t, p), k, v).props else Sub(t, q).props
    decreases |p|
  {
    if p != [] && q != [] {
      assert p == [p[0]] + p[1..] && q == [q[0]] + q[1..];
      if p[0] == q[0] { PutProps(t.kids[p[0]], p[1..], k, v, q[1..]); }
    }
  }

  /** What raising one cell does to the properties of a node. */
  lemma {:induction false} RaiseProps(t: Tree, c: Cell, delta: u32, q: seq<nat>)
    requires IsPath(t, q)
    ensures var u := Raise(t, c, delta);
      && IsPath(u, q)
      && Sub(u, q).props == if InTree(t, c) && c.path == q
           then Patched(Sub(t, q), c.prop,
             Poke(Sub(t, q).props[c.prop].value, c.idx, Be32(Wrap(CellWord(t, c) + delta)))).props
           else Sub(t, q).props
  {
    hide IsPath, Sub, Put, Patched, Word, Be32, Wrap, Poke;
    if InTree(t, c) {
      var n := Sub(t, c.path);
      PutProps(t, c.path, c.prop, Poke(n.props[c.prop].value, c.idx, Be32(Wrap(CellWord(t, c) + delta))), q);
    }
  }

  lemma {:induction false} PokeWord(v: seq<byte>, i: nat, w: seq<byte>, j: nat)
    requires i + 4 <= |v| && |w| == 4 && j + 4 <= |v|
    ensures i + 4 <= j || j + 4 <= i ==> Word(Poke(v, i, w), j) == Word(v, j)
    ensures Word(Poke(v, i, w), i) == Word(w, 0)
  {
  }

  lemma {:induction false} RaiseCell(t: Tree, c: Cell, delta: u32, z: Cell)
    requires InTree(t, z)
    ensures var u := Raise(t, c, delta);
      && InTree(u, z)
      && (Apart(c, z) ==> CellWord(u, z) == CellWord(t, z))
           && (c == z ==> CellWord(u, z) == Wrap(CellWord(t, z) + delta))
  {
    hide IsPath, Sub, Raise, Word, Be32, Wrap, Poke;
    RaiseProps(t, c, delta, z.path);
    if InTree(t, c) && c.path == z.path && c.prop == z.prop {
      var v := Sub(t, z.path).props[z.prop].value;
      PokeWord(v, c.idx, Be32(Wrap(CellWord(t, c) + delta)), z.idx);
      WordBack(Wrap(CellWord(t, c) + delta));
    }
  }

  lemma {:induction false} RaiseAllApart(t: Tree, cs: seq<Cell>, delta: u32, z: Cell)
    requires InTree(t, z) && forall c :: c in cs ==> Apart(c, z)
    ensures InTree(RaiseAll(t, cs, delta), z) && CellWord(RaiseAll(t, cs, delta), z) == CellWord(t, z)
    decreases |cs|
  {
    hide Raise, InTree, CellWord, Apart;
    if cs != [] {
      assert cs[0] in cs && forall c :: c in cs[1..] ==> c in cs;
      RaiseCell(t, cs[0], delta, z);
      RaiseAllApart(Raise(t, cs[0], delta), cs[1..], delta, z);
    }
  }

  /** A cell listed once, apart from the others, is raised exactly once. */
  lemma {:induction false} RaiseAllOnce(t: Tree, a: seq<Cell>, z: Cell, b: seq<Cell>, delta: u32)
    requires InTree(t, z) && (forall c :: c in a ==> Apart(c, z)) && (forall c :: c in b ==> Apart(c, z))
    ensures var u := RaiseAll(t, a + [z] + b, delta); InTree(u, z) && CellWord(u, z) == Wrap(CellWord(t, z) + delta)
  {
    hide Raise, InTree, CellWord, Apart, Wrap, RaiseAll;
    var t1 := RaiseAll(t, a, delta);
    RaiseAppend(t, a + [z], b, delta);
    RaiseAppend(t, a, [z], delta);
    RaiseAllApart(t, a, delta, z);
    RaiseAllOne(t1, z, delta);
    RaiseCell(t1, z, delta, z);
    RaiseAllApart(Raise(t1, z, delta), b, delta, z);
  }

  lemma {:induction false} RaiseAllOne(t: Tree, z: Cell, delta: u32)
    ensures RaiseAll(t, [z], delta) == Raise(t, z, delta)
  {
    assert [z][1..] == [];
  }

  // ---------- Links ----------

  /** The cell does not lie in a phandle property. */
  predicate PlainCell(t: Tree, c: Cell)
    requires InTree(t, c)
  {
    var name := Sub(t, c.path).props[c.prop].name;
    name != PHANDLE && name != LINUX_PHANDLE
  }

  /** No listed cell lies in a phandle property of the node at `q`. */
  predicate Spares(t: Tree, q: seq<nat>, cs: seq<Cell>) {
    forall c :: c in cs && c.path == q && InTree(t, c) ==> PlainCell(t, c)
  }

  lemma {:induction false} RaisePhandle(t: Tree, c: Cell, delta: u32, q: seq<nat>)
    requires IsPath(t, q) && (c.path == q && InTree(t, c) ==> PlainCell(t, c))
    ensures var u := Raise(t, c, delta);
      IsPath(u, q) && Phandle(Sub(u, q)) == Phandle(Sub(t, q)) && (HasPhandle(Sub(u, q)) <==> HasPhandle(Sub(t, q)))
  {
    hide IsPath, Sub, Raise, Choose, Word, Be32, Wrap, Poke, Patched, Value;
    RaiseProps(t, c, delta, q);
    if InTree(t, c) && c.path == q {
      var n := Sub(t, q);
      var v := Poke(n.props[c.prop].value, c.idx, Be32(Wrap(CellWord(t, c) + delta)));
      PatchedValue(n, c.prop, v, PHANDLE);
      PatchedValue(n, c.prop, v, LINUX_PHANDLE);
    }
  }

  lemma {:induction false} RaiseSpares(t: Tree, c: Cell, delta: u32, q: seq<nat>, cs: seq<Cell>)
    requires Spares(t, q, cs)
    ensures Spares(Raise(t, c, delta), q, cs)
  {
    hide Raise, SameShape, IsPath, Sub;
    var u := Raise(t, c, delta);
    RaiseShape(t, c, delta);
    ShapeSym(t, u);
    forall z | z in cs && z.path == q && InTree(u, z) ensures PlainCell(u, z) {
      ShapePath(u, t, z.path);
      ShapeParts(Sub(u, z.path), Sub(t, z.path));
      assert InTree(t, z);
    }
  }

  lemma {:induction false} RaiseAllPhandle(t: Tree, cs: seq<Cell>, delta: u32, q: seq<nat>)
    requires IsPath(t, q) && Spares(t, q, cs)
    ensures var u := RaiseAll(t, cs, delta);
      IsPath(u, q) && Phandle(Sub(u, q)) == Phandle(Sub(t, q)) && (HasPhandle(Sub(u, q)) <==> HasPhandle(Sub(t, q)))
    decreases |cs|
  {
    hide IsPath, Sub, Raise, PlainCell, InTree, Phandle, HasPhandle;
    if cs != [] {
      assert cs[0] in cs && forall c :: c in cs[1..] ==> c in cs;
      RaisePhandle(t, cs[0], delta, q);
      RaiseSpares(t, cs[0], delta, q, cs);
      RaiseAllPhandle(Raise(t, cs[0], delta), cs[1..], delta, q);
    }
  }

  /** The i-th listed cell shares no byte with another listed one. */
  predicate Once(cs: seq<Cell>, i: nat)
    requires i < |cs|
  {
    forall j :: 0 <= j < |cs| && j != i ==> Apart(cs[j], cs[i])
  }

  lemma {:induction false} OnceRaised(t: Tree, cs: seq<Cell>, i: nat, delta: u32)
    requires i < |cs| && Once(cs, i) && InTree(t, cs[i])
    ensures var u := RaiseAll(t, cs, delta); InTree(u, cs[i]) && CellWord(u, cs[i]) == Wrap(CellWord(t, cs[i]) + delta)
  {
    hide InTree, CellWord, Apart, Wrap, RaiseAll;
    var a, z, b := cs[..i], cs[i], cs[i + 1..];
    assert cs == a + [z] + b;
    forall c | c in a ensures Apart(c, z) {
      var j :| 0 <= j < |a| && a[j] == c;
      assert cs[j] == c;
    }
    forall c | c in b ensures Apart(c, z) {
      var j :| 0 <= j < |b| && b[j] == c;
      assert cs[i + 1 + j] == c;
    }
    RaiseAllOnce(t, a, z, b, delta);
  }

  /**
   The links survive: a cell listed once, that named a node before, still names it after, and no
   number has wrapped, as long as no listed cell lies in that node's own phandle properties.
   */
  lemma {:induction false} LinksKept(t: Tree, delta: u32, cs: seq<Cell>, i: nat, q: seq<nat>)
    requires Adjust(t, delta).Ok? && i < |cs| && Once(cs, i) && IsPath(t, q) && Spares(Adjust(t, delta).value, q, cs)
    requires HasPhandle(Sub(t, q)) && InTree(t, cs[i]) && PlainCell(t, cs[i])
      && CellWord(t, cs[i]) == Phandle(Sub(t, q))
    ensures var u := RaiseAll(Adjust(t, delta).value, cs, delta);
      && IsPath(u, q) && InTree(u, cs[i]) && Phandle(Sub(u, q)) == Phandle(Sub(t, q)) + delta < 0xFFFF_FFFF
      && CellWord(u, cs[i]) == Phandle(Sub(u, q))
  {
    hide IsPath, Sub, Adjust, RaiseAll, Phandle, HasPhandle, Spares, Once, Word;
    var t1 := Adjust(t, delta).value;
    AdjustRaises(t, delta, q);
    AdjustCell(t, delta, cs[i]);
    OnceRaised(t1, cs, i, delta);
    RaiseAllPhandle(t1, cs, delta, q);
    RaiseExact(CellWord(t, cs[i]), delta);
  }

  /** The property that gives a node its phandle, once both are known to be words. */
  function Telling(n: Tree): (k: nat) {
    var k := FirstProp(n.props, PHANDLE);
    if k < |n.props| then k else FirstProp(n.props, LINUX_PHANDLE)
  }

  /** A phandle whose own cell is listed is raised twice, and may wrap. */
  lemma {:induction false} RaisedTwice(t: Tree, delta: u32, cs: seq<Cell>, i: nat, q: seq<nat>)
    requires Adjust(t, delta).Ok? && i < |cs| && Once(cs, i) && IsPath(t, q)
    requires HasPhandle(Sub(t, q)) && cs[i] == Cell(q, Telling(Sub(t, q)), 0)
    ensures var u := RaiseAll(Adjust(t, delta).value, cs, delta);
      IsPath(u, q) && Phandle(Sub(u, q)) == Wrap(Phandle(Sub(t, q)) + 2 * delta)
  {
    hide IsPath, Sub, Adjust, RaiseAll, Once, Word, Be32, BumpBoth, Wrap, SameShape;
    var t1 := Adjust(t, delta).value;
    AdjustRaises(t, delta, q);
    AdjustAt(t, delta, q);
    BumpFirst(Sub(t, q), delta);
    ShapeFirst(Sub(t, q).props, Sub(t1, q).props, PHANDLE);
    ShapeFirst(Sub(t, q).props, Sub(t1, q).props, LINUX_PHANDLE);
    OnceRaised(t1, cs, i, delta);
    RaiseAllShape(t1, cs, delta);
    var u := RaiseAll(t1, cs, delta);
    ShapeAt(t1, u, q);
    ShapeFirst(Sub(t1, q).props, Sub(u, q).props, PHANDLE);
    ShapeFirst(Sub(t1, q).props, Sub(u, q).props, LINUX_PHANDLE);
    WrapTwice(Phandle(Sub(t, q)), delta);
  }

  lemma {:induction false} WrapTwice(h: u32, delta: u32)
    ensures h + delta < 0x1_0000_0000 ==> Wrap(h + delta + delta) == Wrap(h + 2 * delta)
  {
  }

  /** Renumbering changes values of the two phandle properties only, to words. */
  lemma {:induction false} BumpFirst(n: Tree, delta: u32)
    requires BumpBoth(n, delta).Ok?
    ensures var m := BumpBoth(n, delta).value; var k := Telling(n);
      && |m.props| == |n.props| && (forall i :: 0 <= i < |n.props| ==> m.props[i].name == n.props[i].name)
      && (k < |n.props| ==> |n.props[k].value| == 4 && |m.props[k].value| == 4)
  {
    hide Word, Be32;
    NamesDiffer();
    var l := Bump(n, PHANDLE, delta).value;
    assert |l.props| == |n.props| && forall i :: 0 <= i < |n.props| ==> l.props[i].name == n.props[i].name;
  }

  /** The renumbering leaves cells of other properties alone. */
  lemma {:induction false} AdjustCell(t: Tree, delta: u32, z: Cell)
    requires Adjust(t, delta).Ok? && InTree(t, z) && PlainCell(t, z)
    ensures InTree(Adjust(t, delta).value, z) && CellWord(Adjust(t, delta).value, z) == CellWord(t, z)
  {
    hide IsPath, Sub, Adjust, BumpBoth, Word;
    AdjustAt(t, delta, z.path);
    BumpOther(Sub(t, z.path), delta, z.prop);
  }

  /** With delta the largest base phandle, no overlay node with a nonzero phandle shares it with a base node. */
  lemma {:induction false} PhandlesApart(base: Tree, p: seq<nat>, t: Tree, q: seq<nat>, delta: u32, cs: seq<Cell>)
    requires delta == MaxPhandle(base) && Adjust(t, delta).Ok? && IsPath(t, q) && Spares(Adjust(t, delta).value, q, cs)
    requires IsPath(base, p) && Phandle(Sub(t, q)) != 0
    ensures var u := RaiseAll(Adjust(t, delta).value, cs, delta);
      IsPath(u, q) && Phandle(Sub(base, p)) < Phandle(Sub(u, q)) == Phandle(Sub(t, q)) + delta
  {
    hide IsPath, Sub, Adjust, RaiseAll, Spares, MaxPhandle, Value, Word;
    MaxAbove(base, p);
    AdjustRaises(t, delta, q);
    RaiseAllPhandle(Adjust(t, delta).value, cs, delta, q);
  }

  /** Only a zero phandle is raised onto one that the base already uses. */
  lemma {:induction false} ApartExact(base: Tree, t: Tree, q: seq<nat>, delta: u32, cs: seq<Cell>)
    requires delta == MaxPhandle(base) && Adjust(t, delta).Ok? && IsPath(t, q) && HasPhandle(Sub(t, q))
    requires Spares(Adjust(t, delta).value, q, cs)
    ensures var u := RaiseAll(Adjust(t, delta).value, cs, delta);
      && IsPath(u, q)
      && ((exists p :: IsPath(base, p) && Phandle(Sub(base, p)) == Phandle(Sub(u, q))) <==> Phandle(Sub(t, q)) == 0)
  {
    hide IsPath, Sub, Adjust, RaiseAll, Spares, MaxPhandle, Value, Word;
    AdjustRaises(t, delta, q);
    RaiseAllPhandle(Adjust(t, delta).value, cs, delta, q);
    var p := MaxReached(base);
    forall p | IsPath(base, p) ensures Phandle(Sub(base, p)) <= delta { MaxAbove(base, p); }
  }

  // ---------- The first three steps of fdt_overlay_apply ----------

  /** "__local_fixups__". */
  const LOCAL_FIXUPS: seq<byte> :=
    [0x5f, 0x5f, 0x6c, 0x6f, 0x63, 0x61, 0x6c, 0x5f, 0x66, 0x69, 0x78, 0x75, 0x70, 0x73, 0x5f, 0x5f]

  function Renumber(base: Blob, over: Blob): (r: Out<()>)
    requires base.Ordered() && over.Ordered()
  {
    var m := MaxFrom(base.Struct(), base.Strings(), 0, 0);
    if m.Err? then Out(Err(m.error), over)
    else
      var c := AdjustNode(over, 0, m.value);
      if c.r.Err? then c else UpdateReferences(c.blob, m.value)
  }

  /** overlay_update_local_references. */
  function UpdateReferences(b: Blob, delta: u32): (r: Out<()>)
    requires b.Ordered()
  {
    var f := FindChild(b.Struct(), 0, LOCAL_FIXUPS);
    if f.Err? then (if f.error == NotFound then Out(Ok(()), b) else Out(Err(f.error), b))
    else FixNode(b, 0, f.value, delta)
  }

  /** What the renumbering makes of the overlay's tree. */
  ghost function Renumbered(t: Tree, delta: u32, room: Room): (r: Result<Tree>) {
    var m := Adjust(t, delta);
    if m.Err? then m
    else
      var f := FirstKid(m.value.kids, Named(LOCAL_FIXUPS));
      if f == |m.value.kids| then m else LiveNode(m.value, [], [f], delta, room)
  }

  /** The code does exactly that, in place, on every decodable pair whose overlay starts with its root. */
  lemma {:induction false} RenumberCorrect(base: Blob, s: Tree, over: Blob, t: Tree)
    requires Decoded(base, s) && Decoded(over, t) && Offset(over, t, []) == 0
    ensures Agrees(over, t, Renumber(base, over), Renumbered(t, MaxPhandle(s), RoomOf(over, t)))
  {
    hide Adjust, AdjustNode, Inplace, Decodes, Before, NodeOffset, FixNode, FindChild, LiveNode, MaxFrom, MaxPhandle,
      Sub, IsPath;
    MaxCorrect(base, s);
    var delta := MaxPhandle(s);
    RootPath(t);
    AdjustNodeCorrect(over, t, [], delta);
    var m := Adjust(t, delta);
    if m.Ok? {
      RootPath(m.value);
      var c := AdjustNode(over, 0, delta).blob;
      RoomMeasures(over, t);
      MeasuresKept(RoomOf(over, t), over, t, c, m.value);
      UpdateCorrect(over, t, c, m.value, delta, RoomOf(over, t));
    }
  }

  lemma {:induction false} RootPath(t: Tree)
    ensures IsPath(t, []) && Sub(t, []) == t && forall n :: Put(t, [], n) == n
  {
  }

  lemma {:induction false} KidPath(t: Tree, f: nat)
    requires f < |t.kids|
    ensures IsPath(t, [f]) && Sub(t, [f]) == t.kids[f]
  {
  }

  lemma {:induction false} UpdateCorrect(b: Blob, t: Tree, c: Blob, u: Tree, delta: u32, room: Room)
    requires Inplace(b, t, c, u) && Offset(b, t, []) == 0 && Measures(room, c, u)
    ensures c.Ordered()
    ensures var f := FirstKid(u.kids, Named(LOCAL_FIXUPS)); f < |u.kids| ==> IsPath(u, [f])
    ensures var f := FirstKid(u.kids, Named(LOCAL_FIXUPS));
      Agrees(b, t, UpdateReferences(c, delta), if f == |u.kids| then Ok(u) else LiveNode(u, [], [f], delta, room))
  {
    hide Decodes, Before, NodeOffset, FixNode, FindChild, LiveNode, Sub, IsPath, SameShape, LikeAll, Agrees;
    RootPath(t);
    RootPath(u);
    InplaceOffset(b, t, c, u, []);
    ChildAt(c, u, [], LOCAL_FIXUPS);
    var f := FirstKid(u.kids, Named(LOCAL_FIXUPS));
    if f < |u.kids| {
      KidPath(u, f);
      assert [] + [f] == [f];
      FixNodeCorrect(c, u, [], [f], delta, room);
      AgreesThen(b, t, c, u, FixNode(c, 0, Offset(c, u, [f]), delta), LiveNode(u, [], [f], delta, room));
    } else {
      AgreesOk(b, t, c, u);
    }
  }

  lemma {:induction false} AgreesOk(b: Blob, t: Tree, c: Blob, u: Tree)
    requires Inplace(b, t, c, u)
    ensures Agrees(b, t, Out(Ok(()), c), Ok(u))
  {
    hide Inplace;
  }

  // ---------- Fixups that leave themselves alone ----------

  lemma {:induction false} ClearOff(n: Tree, p: seq<nat>, x: Tree, g: seq<nat>)
    requires p != [] && g != [] && p[0] != g[0]
    ensures Clear(n, p, x, g)
    decreases x, 1
  {
    hide ClearAll;
    ClearAllOff(n, p, x.kids, g);
  }

  lemma {:induction false} ClearAllOff(n: Tree, p: seq<nat>, xs: seq<Tree>, g: seq<nat>)
    requires p != [] && g != [] && p[0] != g[0]
    ensures ClearAll(n, p, xs, g)
    decreases xs, 0
  {
    hide Clear;
    if xs != [] {
      var i := FirstKid(n.kids, Named(xs[0].name));
      if i < |n.kids| { ClearOff(n.kids[i], p + [i], xs[0], g); }
      ClearAllOff(n, p, xs[1..], g);
    }
  }

  /** The fixup node lists no fixups of its own. */
  predicate ListsOthers(t: Tree, f: nat)
    requires f < |t.kids|
  {
    forall i :: 0 <= i < |t.kids[f].kids| ==> FirstKid(t.kids, Named(t.kids[f].kids[i].name)) != f
  }

  lemma {:induction false} ClearTop(t: Tree, xs: seq<Tree>, f: nat)
    requires f < |t.kids| && forall i :: 0 <= i < |xs| ==> FirstKid(t.kids, Named(xs[i].name)) != f
    ensures ClearAll(t, [], xs, [f])
    decreases |xs|
  {
    hide Clear;
    if xs != [] {
      var i := FirstKid(t.kids, Named(xs[0].name));
      if i < |t.kids| { ClearOff(t.kids[i], [] + [i], xs[0], [f]); }
      forall j | 0 <= j < |xs| - 1 ensures FirstKid(t.kids, Named(xs[1..][j].name)) != f {
        assert xs[1..][j] == xs[j + 1];
      }
      ClearTop(t, xs[1..], f);
    }
  }

  /** The overlay's fixup node, if it has one, lists no fixups of its own. */
  predicate FixupsApart(t: Tree) {
    var f := FirstKid(t.kids, Named(LOCAL_FIXUPS));
    f < |t.kids| ==> ListsOthers(t, f)
  }

  lemma {:induction false} ApartMeans(t: Tree)
    requires FixupsApart(t)
    ensures var f := FirstKid(t.kids, Named(LOCAL_FIXUPS)); f < |t.kids| ==> ListsOthers(t, f)
  {
  }

  lemma {:induction false} ApartShape(t: Tree, u: Tree)
    requires SameShape(t, u) && FixupsApart(t)
    ensures FixupsApart(u)
  {
    hide SameShape;
    ShapeParts(t, u);
    ShapeFirstKid(t.kids, u.kids, Named(LOCAL_FIXUPS));
    var f := FirstKid(u.kids, Named(LOCAL_FIXUPS));
    if f < |u.kids| {
      ShapeParts(t.kids[f], u.kids[f]);
      var xs := u.kids[f].kids;
      forall i | 0 <= i < |xs| ensures FirstKid(u.kids, Named(xs[i].name)) != f {
        ShapeFirstKid(t.kids, u.kids, Named(xs[i].name));
        assert xs[i].name == t.kids[f].kids[i].name;
      }
    }
  }

  lemma {:induction false} BumpShape(n: Tree, name: seq<byte>, delta: u32)
    requires Bump(n, name, delta).Ok?
    ensures SameShape(n, Bump(n, name, delta).value) && Bump(n, name, delta).value.kids == n.kids
  {
    hide SameShape, Word, Be32;
    var k := FirstProp(n.props, name);
    if k == |n.props| { ShapeRefl(n); } else { PatchedShape(n, k, Be32(Word(n.props[k].value, 0) + delta)); }
  }

  /** Renumbering keeps names and lengths. */
  lemma {:induction false} AdjustShape(t: Tree, delta: u32)
    requires Adjust(t, delta).Ok?
    ensures SameShape(t, Adjust(t, delta).value)
    decreases t
  {
    hide Bump;
    var l := Bump(t, PHANDLE, delta).value;
    BumpShape(t, PHANDLE, delta);
    BumpShape(l, LINUX_PHANDLE, delta);
    var m := BumpBoth(t, delta).value;
    ShapeTrans(t, l, m);
    var u := Adjust(t, delta).value;
    forall i | 0 <= i < |t.kids| ensures SameShape(t.kids[i], u.kids[i]) {
      AdjustAllAt(t.kids, delta, i);
      AdjustShape(t.kids[i], delta);
    }
  }

  /** The cells that the overlay lists, in the tree whose phandles have been raised. */
  ghost function Listed(u: Tree, room: Room): (r: Result<seq<Cell>>) {
    var f := FirstKid(u.kids, Named(LOCAL_FIXUPS));
    if f == |u.kids| then Ok([]) else Cells(u, [], u.kids[f], room)
  }

  /** Fixups that list nothing in themselves raise exactly the listed cells. */
  lemma {:induction false} RenumberedListed(t: Tree, delta: u32, room: Room)
    requires Adjust(t, delta).Ok? && FixupsApart(t)
    ensures Lists(Adjust(t, delta).value, Listed(Adjust(t, delta).value, room), delta, Renumbered(t, delta, room))
  {
    hide Adjust, LiveNode, Cells, RaiseAll, Sub, IsPath, ClearAll, FixupsApart;
    var u := Adjust(t, delta).value;
    RaiseNone(u, delta);
    AdjustShape(t, delta);
    ApartShape(t, u);
    ApartMeans(u);
    var f := FirstKid(u.kids, Named(LOCAL_FIXUPS));
    if f < |u.kids| {
      RootPath(u);
      KidPath(u, f);
      ClearTop(u, u.kids[f].kids, f);
      LiveNodeListed(u, [], [f], [f], delta, room);
    }
  }

  /** Every offset the overlay lists is read inside the blob. */
  predicate ListsInside(u: Tree, room: Room) {
    var f := FirstKid(u.kids, Named(LOCAL_FIXUPS));
    f < |u.kids| ==> Within(u, [], u.kids[f], room)
  }

  /**
   If every listed offset is read inside the blob, the renumbering succeeds exactly if the listing
   does and fails with BADOVERLAY alone; if one is not, it does not succeed.
   */
  lemma {:induction false} RenumberedTame(t: Tree, delta: u32, room: Room)
    requires Adjust(t, delta).Ok? && FixupsApart(t)
    ensures var u, r := Adjust(t, delta).value, Renumbered(t, delta, room);
      && (if Listed(u, room).Ok? then r.Ok? else r == Err(Listed(u, room).error))
      && if ListsInside(u, room) then r.Err? ==> r.error == BadOverlay else r.Err?
  {
    hide Adjust, LiveNode, Cells, RaiseAll, Renumbered, FixupsApart, Within;
    RenumberedListed(t, delta, room);
    var u := Adjust(t, delta).value;
    var f := FirstKid(u.kids, Named(LOCAL_FIXUPS));
    if f < |u.kids| { CellsDecided(u, [], u.kids[f], room); }
  }

  /** The same of the code, on two decoded blobs. */
  lemma {:induction false} RenumberTame(base: Blob, s: Tree, over: Blob, t: Tree)
    requires Decoded(base, s) && Decoded(over, t) && Offset(over, t, []) == 0
    requires Adjust(t, MaxPhandle(s)).Ok? && FixupsApart(t)
    ensures var u := Adjust(t, MaxPhandle(s)).value; var r := Renumber(base, over).r; var room := RoomOf(over, t);
      && (if Listed(u, room).Ok? then r.Ok? else r == Err(Listed(u, room).error))
      && if ListsInside(u, room) then r.Err? ==> r.error == BadOverlay else r.Err?
  {
    hide Adjust, Listed, ListsInside, Renumbered, FixupsApart, Decodes, NodeOffset, MaxPhandle, RoomOf, Inplace;
    RenumberCorrect(base, s, over, t);
    RenumberedTame(t, MaxPhandle(s), RoomOf(over, t));
  }

  /** What holds between base and overlay once the overlay is renumbered. */
  ghost predicate Reconciled(s: Tree, t: Tree, u: Tree, cs: seq<Cell>) {
    && SameShape(t, u)
    && (forall p, q ::
          IsPath(s, p) && IsPath(t, q) && IsPath(u, q) && Phandle(Sub(t, q)) != 0 && Untouched(t, s, q, cs) ==>
          Phandle(Sub(s, p)) < Phandle(Sub(u, q)) == Phandle(Sub(t, q)) + MaxPhandle(s))
    && (forall i, q ::
          (0 <= i < |cs| && Once(cs, i) && IsPath(t, q) && IsPath(u, q) && Untouched(t, s, q, cs)
           && Names(t, cs[i], q)) ==>
          InTree(u, cs[i]) && CellWord(u, cs[i]) == Phandle(Sub(u, q)))
  }

  ghost predicate Untouched(t: Tree, s: Tree, q: seq<nat>, cs: seq<Cell>) {
    Adjust(t, MaxPhandle(s)).Ok? && Spares(Adjust(t, MaxPhandle(s)).value, q, cs)
  }

  /** The cell holds the phandle of the node at `q`, and is no phandle itself. */
  predicate Names(t: Tree, z: Cell, q: seq<nat>)
    requires IsPath(t, q)
  {
    InTree(t, z) && PlainCell(t, z) && HasPhandle(Sub(t, q)) && CellWord(t, z) == Phandle(Sub(t, q))
  }

  /**
   After a successful renumbering the overlay blob stands for a tree of the same shape in which every
   nonzero phandle lies above all base phandles and every reference listed once names its node.
   */
  lemma {:induction false} OverlayReconciled(base: Blob, s: Tree, over: Blob, t: Tree) returns (u: Tree, cs: seq<Cell>)
    requires Decoded(base, s) && Decoded(over, t) && Offset(over, t, []) == 0 && FixupsApart(t)
      && Renumber(base, over).r.Ok?
    ensures Adjust(t, MaxPhandle(s)).Ok? && Listed(Adjust(t, MaxPhandle(s)).value, RoomOf(over, t)) == Ok(cs)
    ensures Inplace(over, t, Renumber(base, over).blob, u) && Reconciled(s, t, u, cs)
  {
    hide Adjust, Inplace, Decodes, NodeOffset, Cells, RaiseAll, Renumber, Sub, IsPath, MaxPhandle, Phandle, Spares,
      Once, InTree, PlainCell, HasPhandle, LiveNode, FixupsApart, SameShape;
    RenumberCorrect(base, s, over, t);
    var delta := MaxPhandle(s);
    var t1 := Adjust(t, delta).value;
    RenumberedListed(t, delta, RoomOf(over, t));
    cs := Listed(t1, RoomOf(over, t)).value;
    u := RaiseAll(t1, cs, delta);
    InplaceShape(over, t, Renumber(base, over).blob, u);
    forall p, q | IsPath(s, p) && IsPath(t, q) && IsPath(u, q) && Phandle(Sub(t, q)) != 0 && Untouched(t, s, q, cs)
      ensures Phandle(Sub(s, p)) < Phandle(Sub(u, q)) == Phandle(Sub(t, q)) + delta
    {
      PhandlesApart(s, p, t, q, delta, cs);
    }
    forall i, q | 0 <= i < |cs| && Once(cs, i) && IsPath(t, q) && IsPath(u, q) && Untouched(t, s, q, cs)
      && Names(t, cs[i], q)
      ensures InTree(u, cs[i]) && CellWord(u, cs[i]) == Phandle(Sub(u, q))
    {
      LinksKept(t, delta, cs, i, q);
    }
  }

  lemma {:induction false} InplaceShape(b: Blob, t: Tree, c: Blob, u: Tree)
    requires Inplace(b, t, c, u)
    ensures SameShape(t, u)
  {
    hide SameShape, LikeAll, Decodes;
  }
}
