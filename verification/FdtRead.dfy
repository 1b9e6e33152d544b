/**
 Reading a blob by offsets: property lookup and node navigation of libfdt/fdt.c,
 libfdt/fdt_ro.c and libfdt/fdt_wip.c. Every reader is a loop over fdt_next_tag; it is
 explained first by what it does to the symbols, then by what that is in the tree.
 */
module FdtRead {
  import opened Bytes
  import opened FdtTokens
  import opened FdtTree

  // ---------- The readers on bytes ----------

  /** fdt_check_node_offset_: the offset behind the BEGIN_NODE at `o`. */
  function CheckNode(s: seq<byte>, o: nat): (r: Result<nat>)
    ensures r.Ok? ==> o < r.value < |s| + 4 && r.value % 4 == 0
  {
    var t := NextTag(s, o);
    if o % 4 == 0 && t.Tok? && t.token.BeginNode? then Ok(t.next) else Err(BadOffset)
  }

  /** The property called `name` among those from `o` on (fdt_get_property_namelen_ with nextprop_). */
  function PropFrom(s: seq<byte>, strs: seq<byte>, o: nat, name: seq<byte>): (r: Result<nat>)
    ensures r.Ok? ==> r.value + 12 <= |s| && r.value + 12 + Word(s, r.value + 4) <= |s|
    ensures r.Ok? && o % 4 == 0 ==> r.value % 4 == 0
    decreases if o < |s| then |s| - o else 0
  {
    match NextTag(s, o)
    case Bad(e) => Err(e)
    case Tok(t, n) =>
      if t.End? then Err(BadStructure)
      else if t.Prop? then
        if GetString(strs, t.nameoff) == Ok(name) then Ok(o) else PropFrom(s, strs, n, name)
      else if t.Nop? then PropFrom(s, strs, n, name)
      else Err(NotFound)
  }

  function FindProp(s: seq<byte>, strs: seq<byte>, node: nat, name: seq<byte>): (r: Result<nat>)
    ensures r.Ok? ==> r.value % 4 == 0 && r.value + 12 <= |s| && r.value + 12 + Word(s, r.value + 4) <= |s|
  {
    var m := CheckNode(s, node);
    if m.Err? then Err(m.error) else PropFrom(s, strs, m.value, name)
  }

  const AT: byte := 0x40

  /** fdt_nodename_eq_: `name` may leave out the unit address. */
  predicate NameEq(nodeName: seq<byte>, name: seq<byte>) {
    && name <= nodeName
    && (|nodeName| == |name| || (AT !in name && nodeName[|name|] == AT))
  }

  function Named(name: seq<byte>): seq<byte> -> bool { nm => NameEq(nm, name) }
  function Any(): seq<byte> -> bool { nm => true }

  /** The next wanted node one level below depth zero (fdt_next_node under its three callers). */
  function NodeFrom(s: seq<byte>, o: nat, depth: nat, want: seq<byte> -> bool): (r: Result<nat>)
    ensures r.Ok? ==> o <= r.value && r.value + 4 <= |s|
    decreases if o < |s| then |s| - o else 0
  {
    match NextTag(s, o)
    case Bad(e) => Err(e)
    case Tok(t, n) =>
      match t
      case End => Err(NotFound)
      case BeginNode(name) => if depth == 0 && want(name) then Ok(o) else NodeFrom(s, n, depth + 1, want)
      case EndNode => if depth == 0 then Err(NotFound) else NodeFrom(s, n, depth - 1, want)
      case Prop(_, _) => NodeFrom(s, n, depth, want)
      case Nop => NodeFrom(s, n, depth, want)
  }

  /** fdt_subnode_offset_namelen. */
  function FindChild(s: seq<byte>, node: nat, name: seq<byte>): (r: Result<nat>)
  {
    var m := CheckNode(s, node);
    if m.Err? then Err(m.error) else NodeFrom(s, m.value, 0, Named(name))
  }

  /** fdt_first_subnode and fdt_next_subnode report every failure as NOTFOUND. */
  function FirstSubnode(s: seq<byte>, node: nat): (r: Result<nat>)
    ensures r.Ok? ==> node < r.value && r.value + 4 <= |s|
  {
    var m := CheckNode(s, node);
    if m.Err? || NodeFrom(s, m.value, 0, Any()).Err? then Err(NotFound) else NodeFrom(s, m.value, 0, Any())
  }

  function NextSubnode(s: seq<byte>, node: nat): (r: Result<nat>)
    ensures r.Ok? ==> node < r.value && r.value + 4 <= |s|
  {
    var m := CheckNode(s, node);
    if m.Err? || NodeFrom(s, m.value, 1, Any()).Err? then Err(NotFound) else NodeFrom(s, m.value, 1, Any())
  }

  /** The offset behind the END_NODE that leaves depth zero (fdt_node_end_offset_). */
  function EndFrom(s: seq<byte>, o: nat, depth: nat): (r: Result<nat>)
    ensures r.Ok? ==> o < r.value < |s| + 4 && r.value % 4 == 0
    decreases if o < |s| then |s| - o else 0
  {
    match NextTag(s, o)
    case Bad(e) => Err(e)
    case Tok(t, n) =>
      match t
      case End => Err(NotFound)
      case BeginNode(_) => EndFrom(s, n, depth + 1)
      case EndNode => if depth == 0 then Ok(n) else EndFrom(s, n, depth - 1)
      case Prop(_, _) => EndFrom(s, n, depth)
      case Nop => EndFrom(s, n, depth)
  }

  function NodeEnd(s: seq<byte>, node: nat): (r: Result<nat>)
    ensures r.Ok? ==> node % 4 == 0 && node < r.value < |s| + 4 && r.value % 4 == 0
  {
    var m := CheckNode(s, node);
    if m.Err? then Err(m.error) else EndFrom(s, m.value, 0)
  }

  // ---------- The readers on symbols ----------

  function Shift(r: Result<nat>, n: nat): Result<nat> {
    match r
    case Ok(i) => Ok(i + n)
    case Err(e) => Err(e)
  }

  function PropSym(ss: seq<Sym>, name: seq<byte>): (r: Result<nat>)
    ensures r.Ok? ==> r.value < |ss|
    decreases |ss|
  {
    if ss == [] then Err(BadStructure)
    else match ss[0]
      case Attr(p) => if p.name == name then Ok(0) else Shift(PropSym(ss[1..], name), 1)
      case Bogus => Shift(PropSym(ss[1..], name), 1)
      case Open(_) => Err(NotFound)
      case Close => Err(NotFound)
  }

  function Hunt(ss: seq<Sym>, depth: nat, want: seq<byte> -> bool): (r: Result<nat>)
    ensures r.Ok? ==> r.value < |ss| && ss[r.value].Open? && want(ss[r.value].name)
    decreases |ss|
  {
    if ss == [] then Err(NotFound)
    else match ss[0]
      case Open(name) => if depth == 0 && want(name) then Ok(0) else Shift(Hunt(ss[1..], depth + 1, want), 1)
      case Close => if depth == 0 then Err(NotFound) else Shift(Hunt(ss[1..], depth - 1, want), 1)
      case Attr(_) => Shift(Hunt(ss[1..], depth, want), 1)
      case Bogus => Shift(Hunt(ss[1..], depth, want), 1)
  }

  function CloseAt(ss: seq<Sym>, depth: nat): (r: Result<nat>)
    ensures r.Ok? ==> r.value < |ss| && ss[r.value].Close?
    decreases |ss|
  {
    if ss == [] then Err(NotFound)
    else match ss[0]
      case Open(_) => Shift(CloseAt(ss[1..], depth + 1), 1)
      case Close => if depth == 0 then Ok(0) else Shift(CloseAt(ss[1..], depth - 1), 1)
      case Attr(_) => Shift(CloseAt(ss[1..], depth), 1)
      case Bogus => Shift(CloseAt(ss[1..], depth), 1)
  }

  /** What the scan from `a` holds once its first token is read. */
  lemma {:induction false} ScanStep(s: seq<byte>, strs: seq<byte>, a: nat)
    requires Scan(s, a).Ok? && !NextTag(s, a).token.End?
    ensures var n := NextTag(s, a).next;
      Scan(s, n).Ok? && Syms(strs, Scan(s, a).value) == SymsOf(strs, NextTag(s, a).token) + Syms(strs, Scan(s, n).value)
  {
    hide NextTag, SymsOf;
    assert Scan(s, a).value[1..] == Scan(s, NextTag(s, a).next).value;
  }

  lemma {:induction false} PropFromSym(s: seq<byte>, strs: seq<byte>, a: nat, name: seq<byte>)
    requires Scan(s, a).Ok?
    ensures var r := PropSym(Syms(strs, Scan(s, a).value), name);
      PropFrom(s, strs, a, name) == if r.Ok? then Ok(SymOffset(s, a, r.value)) else r
    decreases if a < |s| then |s| - a else 0
  {
    hide NextTag, Syms, GetString;
    var t := NextTag(s, a).token;
    if t.End? {
      SymsNil(strs);
    } else {
      ScanStep(s, strs, a);
      var tail := Syms(strs, Scan(s, NextTag(s, a).next).value);
      if t.Prop? || t.Nop? { PropFromSym(s, strs, NextTag(s, a).next, name); }
      assert !t.Nop? ==> (SymsOf(strs, t) + tail)[1..] == tail;
      assert t.Nop? ==> SymsOf(strs, t) + tail == tail;
    }
  }

  lemma {:induction false} SymsNil(strs: seq<byte>)
    ensures Syms(strs, []) == []
  {
  }

  lemma {:induction false} NodeFromSym(s: seq<byte>, strs: seq<byte>, a: nat, depth: nat, want: seq<byte> -> bool)
    requires Scan(s, a).Ok?
    ensures var r := Hunt(Syms(strs, Scan(s, a).value), depth, want);
      NodeFrom(s, a, depth, want) == if r.Ok? then Ok(SymOffset(s, a, r.value)) else r
    decreases if a < |s| then |s| - a else 0
  {
    hide NextTag, Syms, GetString;
    var t := NextTag(s, a).token;
    if t.End? {
      SymsNil(strs);
    } else {
      ScanStep(s, strs, a);
      var n := NextTag(s, a).next;
      var tail := Syms(strs, Scan(s, n).value);
      var d := if t.BeginNode? then depth + 1 else if t.EndNode? && depth > 0 then depth - 1 else depth;
      NodeFromSym(s, strs, n, d, want);
      assert !t.Nop? ==> (SymsOf(strs, t) + tail)[1..] == tail;
      assert t.Nop? ==> SymsOf(strs, t) + tail == tail;
    }
  }

  lemma {:induction false} EndFromSym(s: seq<byte>, strs: seq<byte>, a: nat, depth: nat)
    requires Scan(s, a).Ok?
    ensures var r := CloseAt(Syms(strs, Scan(s, a).value), depth);
      EndFrom(s, a, depth) == if r.Ok? then var x := NextTag(s, SymOffset(s, a, r.value));
        if x.Tok? then Ok(x.next) else Err(x.error) else r
    decreases if a < |s| then |s| - a else 0
  {
    hide NextTag, Syms, GetString;
    var t := NextTag(s, a).token;
    if t.End? {
      SymsNil(strs);
    } else {
      ScanStep(s, strs, a);
      var n := NextTag(s, a).next;
      var tail := Syms(strs, Scan(s, n).value);
      var d := if t.BeginNode? then depth + 1 else if t.EndNode? && depth > 0 then depth - 1 else depth;
      EndFromSym(s, strs, n, d);
      assert !t.Nop? ==> (SymsOf(strs, t) + tail)[1..] == tail;
      assert t.Nop? ==> SymsOf(strs, t) + tail == tail;
    }
  }

  // ---------- The readers on trees ----------

  function FirstProp(ps: seq<Property>, name: seq<byte>): (k: nat)
    ensures k <= |ps|
    ensures k < |ps| ==> ps[k].name == name
    ensures forall i :: 0 <= i < k ==> ps[i].name != name
    decreases |ps|
  {
    if ps == [] || ps[0].name == name then 0 else 1 + FirstProp(ps[1..], name)
  }

  function FirstKid(ks: seq<Tree>, want: seq<byte> -> bool): (k: nat)
    ensures k <= |ks|
    ensures k < |ks| ==> want(ks[k].name)
    ensures forall i :: 0 <= i < k ==> !want(ks[i].name)
    decreases |ks|
  {
    if ks == [] || want(ks[0].name) then 0 else 1 + FirstKid(ks[1..], want)
  }

  lemma {:induction false} PropSymAttrs(ps: seq<Property>, x: seq<Sym>, name: seq<byte>)
    requires x != [] && (x[0].Open? || x[0].Close?)
    ensures var k := FirstProp(ps, name);
      PropSym(Attrs(ps) + x, name) == if k < |ps| then Ok(k) else Err(NotFound)
    decreases |ps|
  {
    var ss := Attrs(ps) + x;
    if ps == [] {
      assert ss == x;
    } else {
      assert ss[1..] == Attrs(ps[1..]) + x && ss[0] == Attr(ps[0]);
      PropSymAttrs(ps[1..], x, name);
    }
  }

  lemma {:induction false} HuntAttrs(ps: seq<Property>, x: seq<Sym>, d: nat, want: seq<byte> -> bool)
    ensures Hunt(Attrs(ps) + x, d, want) == Shift(Hunt(x, d, want), |ps|)
    ensures CloseAt(Attrs(ps) + x, d) == Shift(CloseAt(x, d), |ps|)
    decreases |ps|
  {
    var ss := Attrs(ps) + x;
    if ps == [] {
      assert ss == x;
    } else {
      assert ss[1..] == Attrs(ps[1..]) + x && ss[0] == Attr(ps[0]);
      HuntAttrs(ps[1..], x, d, want);
    }
  }

  lemma {:induction false} FlatHead(t: Tree, x: seq<Sym>)
    ensures (Flat(t) + x)[0] == Open(t.name) && |Flat(t)| == 2 + |t.props| + |FlatAll(t.kids)|
    ensures (Flat(t) + x)[1..] == Attrs(t.props) + (FlatAll(t.kids) + ([Close] + x))
  {
    hide FlatAll, Attrs;
  }

  lemma {:induction false} HuntStep(ss: seq<Sym>, d: nat, want: seq<byte> -> bool)
    requires ss != [] && (ss[0].Open? || (ss[0].Close? && d > 0))
    ensures ss[0].Open? && (d > 0 || !want(ss[0].name)) ==> Hunt(ss, d, want) == Shift(Hunt(ss[1..], d + 1, want), 1)
    ensures ss[0].Open? ==> CloseAt(ss, d) == Shift(CloseAt(ss[1..], d + 1), 1)
    ensures ss[0].Close? ==> Hunt(ss, d, want) == Shift(Hunt(ss[1..], d - 1, want), 1)
    ensures ss[0].Close? ==> CloseAt(ss, d) == Shift(CloseAt(ss[1..], d - 1), 1)
  {
  }

  lemma {:induction false} ShiftAdd(r: Result<nat>, ps: seq<Property>, ss: seq<Sym>)
    ensures Shift(Shift(Shift(Shift(r, 1), |ss|), |ps|), 1) == Shift(r, 2 + |ps| + |ss|)
  {
  }

  /** A whole subtree leaves the depth as it was; below the wanted level it is passed over. */
  lemma {:induction false} HuntTree(t: Tree, x: seq<Sym>, d: nat, want: seq<byte> -> bool)
    ensures d > 0 || !want(t.name) ==> Hunt(Flat(t) + x, d, want) == Shift(Hunt(x, d, want), |Flat(t)|)
    ensures CloseAt(Flat(t) + x, d) == Shift(CloseAt(x, d), |Flat(t)|)
    decreases t, 1
  {
    hide *;
    var z := [Close] + x;
    var y := FlatAll(t.kids) + z;
    FlatHead(t, x);
    HuntStep(Flat(t) + x, d, want);
    HuntAttrs(t.props, y, d + 1, want);
    HuntTrees(t.kids, z, d + 1, want);
    HuntStep(z, d + 1, want);
    assert z[1..] == x;
    ShiftAdd(Hunt(x, d, want), t.props, FlatAll(t.kids));
    ShiftAdd(CloseAt(x, d), t.props, FlatAll(t.kids));
  }

  lemma {:induction false} HuntTrees(ks: seq<Tree>, x: seq<Sym>, d: nat, want: seq<byte> -> bool)
    requires d > 0
    ensures Hunt(FlatAll(ks) + x, d, want) == Shift(Hunt(x, d, want), |FlatAll(ks)|)
    ensures CloseAt(FlatAll(ks) + x, d) == Shift(CloseAt(x, d), |FlatAll(ks)|)
    decreases ks, 0
  {
    hide Flat, Hunt, CloseAt;
    if ks == [] {
      assert FlatAll(ks) + x == x;
    } else {
      assert FlatAll(ks) + x == Flat(ks[0]) + (FlatAll(ks[1..]) + x);
      HuntTree(ks[0], FlatAll(ks[1..]) + x, d, want);
      HuntTrees(ks[1..], x, d, want);
    }
  }

  /** Among siblings the hunt stops at the first wanted one. */
  lemma {:induction false} HuntKids(ks: seq<Tree>, x: seq<Sym>, want: seq<byte> -> bool)
    requires x != [] && x[0].Close?
    ensures var k := FirstKid(ks, want);
      Hunt(FlatAll(ks) + x, 0, want) == if k < |ks| then Ok(|FlatAll(ks[..k])|) else Err(NotFound)
    decreases |ks|
  {
    hide Flat;
    var ss := FlatAll(ks) + x;
    if ks == [] {
      assert ss == x;
    } else {
      assert ss == Flat(ks[0]) + (FlatAll(ks[1..]) + x);
      if want(ks[0].name) {
        assert ss[0] == Open(ks[0].name);
      } else {
        HuntTree(ks[0], FlatAll(ks[1..]) + x, 0, want);
        HuntKids(ks[1..], x, want);
        var k := FirstKid(ks[1..], want);
        if k < |ks| - 1 { assert ks[..k + 1][1..] == ks[1..][..k]; }
      }
    }
  }
}
