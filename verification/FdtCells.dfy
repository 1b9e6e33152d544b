/**
 The cells a fixup node lists, read off at once (libfdt/fdt_overlay.c): where the fixups do not list
 their own cells, working through them raises exactly these.
 */
module FdtCells {
  import opened Bytes
  import opened FdtTokens
  import opened FdtTree
  import opened FdtRead
  import opened FdtOverlay
  import opened FdtInplace
  import opened FdtFixups

  /** Cells j, j + 1, ... of one fixup value, or what becomes of the first that lies outside the property. */
  function ValueCells(n: Tree, p: seq<nat>, k: nat, v: seq<byte>, j: nat, room: Room): (r: Result<seq<Cell>>)
    requires k < |n.props|
    decreases |v| - 4 * j
  {
    if 4 * j + 4 > |v| then Ok([])
    else
      var d := Verdict(|n.props[k].value|, room(p, k), Word(v, 4 * j));
      var rest := ValueCells(n, p, k, v, j + 1, room);
      if d.Err? then Err(d.error) else if rest.Err? then rest else Ok([Cell(p, k, Word(v, 4 * j))] + rest.value)
  }

  function PropCells(n: Tree, p: seq<nat>, q: Property, room: Room): (r: Result<seq<Cell>>) {
    var k := FirstProp(n.props, q.name);
    if |q.value| % 4 != 0 || k == |n.props| then Err(BadOverlay) else ValueCells(n, p, k, q.value, 0, room)
  }

  function PropsCells(n: Tree, p: seq<nat>, qs: seq<Property>, room: Room): (r: Result<seq<Cell>>) {
    if qs == [] then Ok([]) else Both(PropCells(n, p, qs[0], room), PropsCells(n, p, qs[1..], room))
  }

  function Both(a: Result<seq<Cell>>, b: Result<seq<Cell>>): (r: Result<seq<Cell>>) {
    if a.Err? then a else if b.Err? then b else Ok(a.value + b.value)
  }

  /** All cells the fixup tree `x` lists for the node `n` at `p`. */
  function Cells(n: Tree, p: seq<nat>, x: Tree, room: Room): (r: Result<seq<Cell>>)
    decreases x
  {
    Both(PropsCells(n, p, x.props, room), KidsCells(n, p, x.kids, room))
  }

  function KidsCells(n: Tree, p: seq<nat>, xs: seq<Tree>, room: Room): (r: Result<seq<Cell>>)
    decreases xs
  {
    if xs == [] then Ok([])
    else
      var i := FirstKid(n.kids, Named(xs[0].name));
      if i == |n.kids| then Err(BadOverlay)
      else Both(Cells(n.kids[i], p + [i], xs[0], room), KidsCells(n, p, xs[1..], room))
  }

  function RaiseAll(t: Tree, cs: seq<Cell>, delta: u32): (r: Tree)
    decreases |cs|
  {
    if cs == [] then t else RaiseAll(Raise(t, cs[0], delta), cs[1..], delta)
  }

  lemma {:induction false} RaiseAllShape(t: Tree, cs: seq<Cell>, delta: u32)
    ensures SameShape(t, RaiseAll(t, cs, delta))
    decreases |cs|
  {
    hide SameShape, Raise;
    if cs == [] {
      ShapeRefl(t);
    } else {
      RaiseShape(t, cs[0], delta);
      RaiseAllShape(Raise(t, cs[0], delta), cs[1..], delta);
      ShapeTrans(t, Raise(t, cs[0], delta), RaiseAll(t, cs, delta));
    }
  }

  lemma {:induction false} RaiseAppend(t: Tree, cs: seq<Cell>, ds: seq<Cell>, delta: u32)
    ensures RaiseAll(t, cs + ds, delta) == RaiseAll(RaiseAll(t, cs, delta), ds, delta)
    decreases |cs|
  {
    hide Raise;
    if cs == [] {
      assert cs + ds == ds;
    } else {
      assert (cs + ds)[1..] == cs[1..] + ds;
      RaiseAppend(Raise(t, cs[0], delta), cs[1..], ds, delta);
    }
  }

  lemma {:induction false} ShapeValueCells(n: Tree, m: Tree, p: seq<nat>, k: nat, v: seq<byte>, j: nat, room: Room)
    requires k < |n.props| && k < |m.props| && |n.props[k].value| == |m.props[k].value|
    ensures ValueCells(n, p, k, v, j, room) == ValueCells(m, p, k, v, j, room)
    decreases |v| - 4 * j
  {
    hide Word, Verdict;
    if 4 * j + 4 <= |v| { ShapeValueCells(n, m, p, k, v, j + 1, room); }
  }

  lemma {:induction false} ShapePropsCells(n: Tree, m: Tree, p: seq<nat>, qs: seq<Property>, room: Room)
    requires SameShape(n, m)
    ensures PropsCells(n, p, qs, room) == PropsCells(m, p, qs, room)
    decreases |qs|
  {
    hide SameShape, ValueCells;
    if qs != [] {
      ShapeParts(n, m);
      ShapeFirst(n.props, m.props, qs[0].name);
      var k := FirstProp(n.props, qs[0].name);
      if k < |n.props| { ShapeValueCells(n, m, p, k, qs[0].value, 0, room); }
      ShapePropsCells(n, m, p, qs[1..], room);
    }
  }

  lemma {:induction false} ShapeCells(n: Tree, m: Tree, p: seq<nat>, x: Tree, room: Room)
    requires SameShape(n, m)
    ensures Cells(n, p, x, room) == Cells(m, p, x, room)
    decreases x, 1
  {
    hide SameShape, PropsCells, KidsCells;
    ShapePropsCells(n, m, p, x.props, room);
    ShapeKidsCells(n, m, p, x.kids, room);
  }

  lemma {:induction false} ShapeKidsCells(n: Tree, m: Tree, p: seq<nat>, xs: seq<Tree>, room: Room)
    requires SameShape(n, m)
    ensures KidsCells(n, p, xs, room) == KidsCells(m, p, xs, room)
    decreases xs, 0
  {
    hide SameShape, Cells;
    if xs != [] {
      ShapeParts(n, m);
      ShapeFirstKid(n.kids, m.kids, Named(xs[0].name));
      var i := FirstKid(n.kids, Named(xs[0].name));
      if i < |n.kids| { ShapeCells(n.kids[i], m.kids[i], p + [i], xs[0], room); }
      ShapeKidsCells(n, m, p, xs[1..], room);
    }
  }

  /** Editing properties outside a subtree leaves it alone. */
  lemma {:induction false} PutElsewhere(t: Tree, p: seq<nat>, k: nat, v: seq<byte>, f: seq<nat>)
    requires IsPath(t, p) && IsPath(t, f) && !(f <= p) && k < |Sub(t, p).props|
    ensures var u := Put(t, p, Patched(Sub(t, p), k, v)); IsPath(u, f) && Sub(u, f) == Sub(t, f)
    decreases |p|
  {
    if p != [] && f != [] {
      if p[0] == f[0] {
        assert f == [f[0]] + f[1..] && p == [p[0]] + p[1..];
        PutElsewhere(t.kids[p[0]], p[1..], k, v, f[1..]);
      }
    }
  }

  lemma {:induction false} RaiseElsewhere(t: Tree, c: Cell, delta: u32, f: seq<nat>)
    requires IsPath(t, f) && !(f <= c.path)
    ensures IsPath(Raise(t, c, delta), f) && Sub(Raise(t, c, delta), f) == Sub(t, f)
  {
    hide IsPath, Sub, Put, Patched, Word, Be32, Wrap, Poke;
    if InTree(t, c) {
      var n := Sub(t, c.path);
      PutElsewhere(t, c.path, c.prop, Poke(n.props[c.prop].value, c.idx, Be32(Wrap(CellWord(t, c) + delta))), f);
    }
  }

  lemma {:induction false} RaiseAllElsewhere(t: Tree, cs: seq<Cell>, delta: u32, f: seq<nat>)
    requires IsPath(t, f) && forall c :: c in cs ==> !(f <= c.path)
    ensures IsPath(RaiseAll(t, cs, delta), f) && Sub(RaiseAll(t, cs, delta), f) == Sub(t, f)
    decreases |cs|
  {
    hide Raise, IsPath, Sub;
    if cs != [] {
      assert cs[0] in cs && forall c :: c in cs[1..] ==> c in cs;
      RaiseElsewhere(t, cs[0], delta, f);
      RaiseAllElsewhere(Raise(t, cs[0], delta), cs[1..], delta, f);
    }
  }

  lemma {:induction false} ValueCellsPath(n: Tree, p: seq<nat>, k: nat, v: seq<byte>, j: nat, room: Room)
    requires k < |n.props|
    ensures var cs := ValueCells(n, p, k, v, j, room); cs.Ok? ==> forall c :: c in cs.value ==> c.path == p
    decreases |v| - 4 * j
  {
    hide Word, Verdict;
    if 4 * j + 4 <= |v| { ValueCellsPath(n, p, k, v, j + 1, room); }
  }

  /** The fixups never lead into the subtree at `g`. */
  predicate Clear(n: Tree, p: seq<nat>, x: Tree, g: seq<nat>)
    decreases x
  {
    !(g <= p) && ClearAll(n, p, x.kids, g)
  }

  predicate ClearAll(n: Tree, p: seq<nat>, xs: seq<Tree>, g: seq<nat>)
    decreases xs
  {
    xs == [] ||
    (ClearAll(n, p, xs[1..], g) &&
    var i := FirstKid(n.kids, Named(xs[0].name));
    i < |n.kids| ==> Clear(n.kids[i], p + [i], xs[0], g))
  }

  lemma {:induction false} ShapeClear(n: Tree, m: Tree, p: seq<nat>, x: Tree, g: seq<nat>)
    requires SameShape(n, m) && Clear(n, p, x, g)
    ensures Clear(m, p, x, g)
    decreases x, 1
  {
    hide SameShape, ClearAll;
    ShapeClearAll(n, m, p, x.kids, g);
  }

  lemma {:induction false} ShapeClearAll(n: Tree, m: Tree, p: seq<nat>, xs: seq<Tree>, g: seq<nat>)
    requires SameShape(n, m) && ClearAll(n, p, xs, g)
    ensures ClearAll(m, p, xs, g)
    decreases xs, 0
  {
    hide SameShape, Clear;
    if xs != [] {
      ShapeParts(n, m);
      ShapeFirstKid(n.kids, m.kids, Named(xs[0].name));
      var i := FirstKid(n.kids, Named(xs[0].name));
      if i < |n.kids| { ShapeClear(n.kids[i], m.kids[i], p + [i], xs[0], g); }
      ShapeClearAll(n, m, p, xs[1..], g);
    }
  }

  /** All cells stay out of the subtree at `g`. */
  predicate Avoid(cs: seq<Cell>, g: seq<nat>) {
    forall c :: c in cs ==> !(g <= c.path)
  }

  lemma {:induction false} AvoidBelow(cs: seq<Cell>, g: seq<nat>, f: seq<nat>)
    requires Avoid(cs, g) && g <= f
    ensures Avoid(cs, f)
  {
    forall c | c in cs ensures !(f <= c.path) { assert !(g <= c.path); }
  }

  // ---------- Working through the fixups raises the listed cells ----------

  predicate Lists(t: Tree, cs: Result<seq<Cell>>, delta: u32, l: Result<Tree>) {
    if cs.Err? then l == Err(cs.error) else l == Ok(RaiseAll(t, cs.value, delta))
  }

  lemma {:induction false} LiveCellsListed(t: Tree, p: seq<nat>, f: seq<nat>, i: nat, k: nat, j: nat, delta: u32,
                                           room: Room)
    requires IsPath(t, p) && IsPath(t, f) && !(f <= p) && i < |Sub(t, f).props| && k < |Sub(t, p).props|
    ensures Lists(t, ValueCells(Sub(t, p), p, k, Sub(t, f).props[i].value, j, room), delta,
      LiveCells(t, p, f, i, k, j, delta, room))
    decreases |Sub(t, f).props[i].value| - 4 * j
  {
    hide Sub, IsPath, Word, Raise, SameShape, Verdict, Flat;
    var v, n := Sub(t, f).props[i].value, Sub(t, p);
    if 4 * j + 4 <= |v| && Verdict(|n.props[k].value|, room(p, k), Word(v, 4 * j)).Ok? {
      var z := Cell(p, k, Word(v, 4 * j));
      var u := Raise(t, z, delta);
      RaiseShape(t, z, delta);
      ShapeAt(t, u, p);
      ShapeAt(t, u, f);
      RaiseElsewhere(t, z, delta, f);
      ShapeValueCells(n, Sub(u, p), p, k, v, j + 1, room);
      LiveCellsListed(u, p, f, i, k, j + 1, delta, room);
      var rest := ValueCells(n, p, k, v, j + 1, room);
      if rest.Ok? { assert ([z] + rest.value)[1..] == rest.value; }
    }
  }

  lemma {:induction false} PropsCellsPath(n: Tree, p: seq<nat>, qs: seq<Property>, room: Room)
    ensures var cs := PropsCells(n, p, qs, room); cs.Ok? ==> forall c :: c in cs.value ==> c.path == p
    decreases |qs|
  {
    hide ValueCells;
    if qs != [] {
      var k := FirstProp(n.props, qs[0].name);
      if k < |n.props| { ValueCellsPath(n, p, k, qs[0].value, 0, room); }
      PropsCellsPath(n, p, qs[1..], room);
    }
  }

  lemma {:induction false} LivePropsListed(t: Tree, p: seq<nat>, f: seq<nat>, i: nat, delta: u32, room: Room)
    requires IsPath(t, p) && IsPath(t, f) && !(f <= p) && i <= |Sub(t, f).props|
    ensures Lists(t, PropsCells(Sub(t, p), p, Sub(t, f).props[i..], room), delta, LiveProps(t, p, f, i, delta, room))
    decreases |Sub(t, f).props| - i
  {
    hide Sub, IsPath, SameShape, RaiseAll, ValueCells, LiveCells, Flat;
    var qs, n := Sub(t, f).props, Sub(t, p);
    if i == |qs| {
      assert qs[i..] == [];
      RaiseNone(t, delta);
    } else {
      assert qs[i..][0] == qs[i] && qs[i..][1..] == qs[i + 1..];
      var k := FirstProp(n.props, qs[i].name);
      if |qs[i].value| % 4 == 0 && k < |n.props| { LiveCellsListed(t, p, f, i, k, 0, delta, room); }
      var cs := PropCells(n, p, qs[i], room);
      if cs.Ok? {
        var u := RaiseAll(t, cs.value, delta);
        ValueCellsPath(n, p, k, qs[i].value, 0, room);
        RaiseAllElsewhere(t, cs.value, delta, f);
        RaiseAllShape(t, cs.value, delta);
        ShapeAt(t, u, p);
        ShapePropsCells(n, Sub(u, p), p, qs[i + 1..], room);
        LivePropsListed(u, p, f, i + 1, delta, room);
        var ds := PropsCells(n, p, qs[i + 1..], room);
        if ds.Ok? { RaiseAppend(t, cs.value, ds.value, delta); }
      }
    }
  }

  lemma {:induction false} RaiseNone(t: Tree, delta: u32)
    ensures RaiseAll(t, [], delta) == t
  {
  }

  /** Fixups that do not lead into the subtree at `g`, which holds them, raise exactly the cells they list. */
  lemma {:induction false} LiveNodeListed(t: Tree, p: seq<nat>, f: seq<nat>, g: seq<nat>, delta: u32, room: Room)
    requires IsPath(t, p) && IsPath(t, f) && g <= f && Clear(Sub(t, p), p, Sub(t, f), g)
    ensures var cs := Cells(Sub(t, p), p, Sub(t, f), room);
      Lists(t, cs, delta, LiveNode(t, p, f, delta, room)) && (cs.Ok? ==> Avoid(cs.value, g))
    decreases Sub(t, f), 1
  {
    hide Sub, IsPath, SameShape, RaiseAll, PropsCells, KidsCells, LiveProps, LiveKids, ClearAll, Flat;
    var x, n := Sub(t, f), Sub(t, p);
    assert x.props[0..] == x.props && x.kids[0..] == x.kids;
    LivePropsListed(t, p, f, 0, delta, room);
    var cs := PropsCells(n, p, x.props, room);
    if cs.Ok? {
      var u := RaiseAll(t, cs.value, delta);
      PropsCellsPath(n, p, x.props, room);
      RaiseAllElsewhere(t, cs.value, delta, f);
      RaiseAllShape(t, cs.value, delta);
      ShapeAt(t, u, p);
      ShapeClearAll(n, Sub(u, p), p, x.kids, g);
      ShapeKidsCells(n, Sub(u, p), p, x.kids, room);
      LiveKidsListed(u, p, f, 0, g, delta, room);
      var ds := KidsCells(n, p, x.kids, room);
      if ds.Ok? { RaiseAppend(t, cs.value, ds.value, delta); }
    }
  }

  lemma {:induction false} LiveKidsListed(t: Tree, p: seq<nat>, f: seq<nat>, k: nat, g: seq<nat>, delta: u32,
                                          room: Room)
    requires IsPath(t, p) && IsPath(t, f) && g <= f && k <= |Sub(t, f).kids|
      && ClearAll(Sub(t, p), p, Sub(t, f).kids[k..], g)
    ensures var cs := KidsCells(Sub(t, p), p, Sub(t, f).kids[k..], room);
      Lists(t, cs, delta, LiveKids(t, p, f, k, delta, room)) && (cs.Ok? ==> Avoid(cs.value, g))
    decreases Sub(t, f), 0, |Sub(t, f).kids| - k
  {
    hide Sub, IsPath, SameShape, RaiseAll, Cells, LiveNode, Clear, Flat;
    var xs, n := Sub(t, f).kids, Sub(t, p);
    if k == |xs| {
      assert xs[k..] == [];
      RaiseNone(t, delta);
    } else {
      assert xs[k..][0] == xs[k] && xs[k..][1..] == xs[k + 1..];
      var i := FirstKid(n.kids, Named(xs[k].name));
      if i < |n.kids| {
        BeforeKidPath(t, p, i);
        BeforeKidPath(t, f, k);
        LiveNodeListed(t, p + [i], f + [k], g, delta, room);
        var cs := Cells(n.kids[i], p + [i], xs[k], room);
        if cs.Ok? { LiveRestListed(t, p, f, k, g, delta, cs.value, room); }
      }
    }
  }

  lemma {:induction false} LiveRestListed(t: Tree, p: seq<nat>, f: seq<nat>, k: nat, g: seq<nat>, delta: u32,
                                          cs: seq<Cell>, room: Room)
    requires IsPath(t, p) && IsPath(t, f) && g <= f && k < |Sub(t, f).kids| && Avoid(cs, g)
    requires ClearAll(Sub(t, p), p, Sub(t, f).kids[k + 1..], g)
    ensures var u := RaiseAll(t, cs, delta); IsPath(u, p) && IsPath(u, f) && k + 1 <= |Sub(u, f).kids|
    ensures var ds := KidsCells(Sub(t, p), p, Sub(t, f).kids[k + 1..], room);
      && Lists(t, if ds.Ok? then Ok(cs + ds.value) else ds, delta,
           LiveKids(RaiseAll(t, cs, delta), p, f, k + 1, delta, room))
      && (ds.Ok? ==> Avoid(cs + ds.value, g))
    decreases Sub(t, f), 0, |Sub(t, f).kids| - k, 0
  {
    hide Sub, IsPath, SameShape, RaiseAll, KidsCells, LiveKids, ClearAll, Flat;
    var xs, n := Sub(t, f).kids, Sub(t, p);
    var u := RaiseAll(t, cs, delta);
    AvoidBelow(cs, g, f);
    RaiseAllElsewhere(t, cs, delta, f);
    RaiseAllShape(t, cs, delta);
    ShapeAt(t, u, p);
    ShapeClearAll(n, Sub(u, p), p, xs[k + 1..], g);
    ShapeKidsCells(n, Sub(u, p), p, xs[k + 1..], room);
    LiveKidsListed(u, p, f, k + 1, g, delta, room);
    var ds := KidsCells(n, p, xs[k + 1..], room);
    if ds.Ok? { RaiseAppend(t, cs, ds.value, delta); }
  }

  // ---------- Listed offsets and the end of the blob ----------

  /** Every word of the value is an offset whose four bytes are read inside the blob. */
  predicate ReadsInside(v: seq<byte>, room: int) {
    forall j :: 0 <= j < |v| / 4 ==> Word(v, 4 * j) + 4 <= room
  }

  /** The same for all that the fixup tree `x` lists for the node `n` at `p`. */
  predicate Within(n: Tree, p: seq<nat>, x: Tree, room: Room)
    decreases x
  {
    WithinProps(n, p, x.props, room) && WithinKids(n, p, x.kids, room)
  }

  predicate WithinProps(n: Tree, p: seq<nat>, qs: seq<Property>, room: Room)
    decreases |qs|
  {
    qs == [] ||
    (WithinProps(n, p, qs[1..], room) &&
    var k := FirstProp(n.props, qs[0].name);
    k < |n.props| ==> ReadsInside(qs[0].value, room(p, k)))
  }

  predicate WithinKids(n: Tree, p: seq<nat>, xs: seq<Tree>, room: Room)
    decreases xs
  {
    xs == [] ||
    (WithinKids(n, p, xs[1..], room) &&
    var i := FirstKid(n.kids, Named(xs[0].name));
    i < |n.kids| ==> Within(n.kids[i], p + [i], xs[0], room))
  }

  /** Such offsets only ever fail with BADOVERLAY, and one that is not such never succeeds. */
  predicate Decided(cs: Result<seq<Cell>>, inside: bool) {
    if inside then cs.Err? ==> cs.error == BadOverlay else cs.Err?
  }

  lemma {:induction false} ValueDecided(n: Tree, p: seq<nat>, k: nat, v: seq<byte>, j: nat, room: Room)
    requires k < |n.props|
    ensures var cs := ValueCells(n, p, k, v, j, room);
      Decided(cs, forall i :: j <= i < |v| / 4 ==> Word(v, 4 * i) + 4 <= room(p, k))
    decreases |v| - 4 * j
  {
    hide Word;
    if 4 * j + 4 <= |v| { ValueDecided(n, p, k, v, j + 1, room); }
  }

  lemma {:induction false} PropsDecided(n: Tree, p: seq<nat>, qs: seq<Property>, room: Room)
    ensures Decided(PropsCells(n, p, qs, room), WithinProps(n, p, qs, room))
    decreases |qs|
  {
    hide ValueCells, Word;
    if qs != [] {
      var k := FirstProp(n.props, qs[0].name);
      if k < |n.props| { ValueDecided(n, p, k, qs[0].value, 0, room); }
      PropsDecided(n, p, qs[1..], room);
    }
  }

  /**
   If every listed offset is read inside the blob the only failure is BADOVERLAY; otherwise the call
   does not succeed.
   */
  lemma {:induction false} CellsDecided(n: Tree, p: seq<nat>, x: Tree, room: Room)
    ensures Decided(Cells(n, p, x, room), Within(n, p, x, room))
    decreases x, 1
  {
    hide PropsCells, KidsCells, WithinProps, WithinKids;
    PropsDecided(n, p, x.props, room);
    KidsDecided(n, p, x.kids, room);
  }

  lemma {:induction false} KidsDecided(n: Tree, p: seq<nat>, xs: seq<Tree>, room: Room)
    ensures Decided(KidsCells(n, p, xs, room), WithinKids(n, p, xs, room))
    decreases xs, 0
  {
    hide Cells, Within;
    if xs != [] {
      var i := FirstKid(n.kids, Named(xs[0].name));
      if i < |n.kids| { CellsDecided(n.kids[i], p + [i], xs[0], room); }
      KidsDecided(n, p, xs[1..], room);
    }
  }
}
