/**
 Path names (libfdt/fdt_ro.c): fdt_get_path builds the name of a node in a buffer while walking
 from the root. A component is taken back by stepping to the slash in front of it, so a slash inside
 a name, or a step with no slash left, leads astray; when is made exact here.
 */
module FdtPath {
  import opened Bytes
  import opened FdtTokens
  import opened FdtRead
  import opened FdtNav

  const SLASH: byte := 0x2f

  type Name = seq<byte>

  // ---------- fdt_get_path ----------

  /** Step back until the byte in front is a slash; with no such byte the next read is in front of the buffer. */
  function PopOne(text: seq<byte>): (r: Result<seq<byte>>)
    ensures r.Ok? ==> |r.value| < |text|
    decreases |text|
  {
    if |text| <= 1 then Err(Wild)
    else if text[|text| - 2] == SLASH then Ok(text[..|text| - 1])
    else PopOne(text[..|text| - 1])
  }

  /** The text on its way, and how many components the code believes it has. */
  datatype Draft = Draft(text: seq<byte>, pdepth: int)

  function PopTo(d: Draft, depth: int): (r: Result<Draft>)
    decreases d.pdepth - depth
  {
    if d.pdepth > depth then
      var t := PopOne(d.text);
      if t.Err? then Err(t.error) else PopTo(Draft(t.value, d.pdepth - 1), depth)
    else Ok(d)
  }

  /** A name goes in if its parent did and there is room. */
  function Pushed(e: Draft, depth: int, name: Name, buflen: nat): (r: Draft) {
    if e.pdepth >= depth && |e.text| + |name| + 1 <= buflen then Draft(e.text + name + [SLASH], e.pdepth + 1) else e
  }

  /** The text handed out: the last slash goes, except for the root's. */
  function Strip(text: seq<byte>): (r: seq<byte>) {
    if |text| > 1 then text[..|text| - 1] else text
  }

  /** One round of fdt_get_path, at offset `o` with the depth fdt_next_node counts. */
  function Visit(s: seq<byte>, o: nat, depth: int, target: nat, buflen: nat, d: Draft): (r: Result<seq<byte>>)
    decreases if o < |s| then |s| - o else 0, 0
  {
    if o > target then Err(BadOffset)
    else
      var e := PopTo(d, depth);
      var m := CheckNode(s, o);
      if e.Err? then Err(e.error)
      else if e.value.pdepth >= depth && m.Err? then Err(BadOffset)
      else
        var g := if m.Ok? then Pushed(e.value, depth, NextTag(s, o).token.name, buflen) else e.value;
        if o == target then (if g.pdepth < depth + 1 then Err(NoSpace) else Ok(Strip(g.text)))
        else if m.Err? then Err(BadStructure)
        else PathFrom(s, m.value, depth + 1, target, buflen, g)
  }

  /** fdt_next_node on the way to the next round; `depth` nodes are open. */
  function PathFrom(s: seq<byte>, o: nat, depth: int, target: nat, buflen: nat, d: Draft): (r: Result<seq<byte>>)
    decreases if o < |s| then |s| - o else 0, 1
  {
    match NextTag(s, o)
    case Bad(e) => Err(Blame(e))
    case Tok(t, n) =>
      match t
      case End => Err(BadOffset)
      case BeginNode(_) => Visit(s, o, depth, target, buflen, d)
      case EndNode =>
        if depth > 1 then PathFrom(s, n, depth - 1, target, buflen, d) else Visit(s, n, depth - 2, target, buflen, d)
      case Prop(_, _) => PathFrom(s, n, depth, target, buflen, d)
      case Nop => PathFrom(s, n, depth, target, buflen, d)
  }

  function GetPath(s: seq<byte>, node: nat, buflen: nat): (r: Result<seq<byte>>) {
    if buflen < 2 then Err(NoSpace) else Visit(s, 0, 0, node, buflen, Draft([], 0))
  }

  // ---------- Slashes ----------

  function Slashes(x: seq<byte>): (n: nat) {
    if x == [] then 0 else Slashes(x[..|x| - 1]) + if x[|x| - 1] == SLASH then 1 else 0
  }

  lemma {:induction false} SlashesAppend(x: seq<byte>, y: seq<byte>)
    ensures Slashes(x + y) == Slashes(x) + Slashes(y)
    decreases |y|
  {
    if y == [] {
      assert x + y == x;
    } else {
      var z := y[..|y| - 1];
      assert (x + y)[..|x + y| - 1] == x + z;
      SlashesAppend(x, z);
    }
  }

  predicate NoSlash(n: Name) { SLASH !in n }

  lemma {:induction false} NoSlashes(n: Name)
    ensures NoSlash(n) <==> Slashes(n) == 0
    decreases |n|
  {
    if n != [] {
      var m := n[..|n| - 1];
      NoSlashes(m);
      assert forall c :: c in n <==> c in m || c == n[|n| - 1];
    }
  }

  /** Whole components: nothing, or text that ends in a slash. */
  predicate Pad(x: seq<byte>) { x == [] || x[|x| - 1] == SLASH }

  lemma {:induction false} PadSlashes(x: seq<byte>)
    requires Pad(x)
    ensures Slashes(x) == 0 <==> x == []
  {
  }

  /** What stepping back over one component leaves. */
  function DropSeg(x: seq<byte>): (r: seq<byte>)
    ensures |r| <= |x| && Pad(r)
    decreases |x|
  {
    if |x| <= 1 then [] else if x[|x| - 2] == SLASH then x[..|x| - 1] else DropSeg(x[..|x| - 1])
  }

  lemma {:induction false} DropSegSlashes(x: seq<byte>)
    requires x != []
    ensures Slashes(DropSeg(x)) == Slashes(x[..|x| - 1])
    decreases |x|
  {
    if |x| == 1 {
      assert x[..0] == [];
    } else if x[|x| - 2] != SLASH {
      var y := x[..|x| - 1];
      assert y[|y| - 1] == x[|x| - 2];
      DropSegSlashes(y);
    }
  }

  lemma {:induction false} PopIsDrop(h: seq<byte>, x: seq<byte>)
    requires x != [] && Pad(h)
    ensures PopOne(h + x) == if h == [] && DropSeg(x) == [] then Err(Wild) else Ok(h + DropSeg(x))
    decreases |x|
  {
    var t := h + x;
    var y := x[..|x| - 1];
    assert t[..|t| - 1] == h + y;
    if |x| == 1 {
      if h != [] { assert t[|t| - 2] == h[|h| - 1]; }
      assert h + y == h && h + [] == h;
    } else {
      assert t[|t| - 2] == x[|x| - 2];
      if x[|x| - 2] != SLASH { PopIsDrop(h, y); }
    }
  }

  lemma {:induction false} PopOneExact(text: seq<byte>)
    requires Pad(text)
    ensures var r := PopOne(text);
      if Slashes(text) >= 2 then r.Ok? && Pad(r.value) && Slashes(r.value) == Slashes(text) - 1 else r == Err(Wild)
  {
    if text == [] {
      assert Slashes(text) == 0;
    } else {
      assert [] + text == text && [] + DropSeg(text) == DropSeg(text);
      PopIsDrop([], text);
      DropSegSlashes(text);
      PadSlashes(DropSeg(text));
    }
  }

  /** Popping stays in the buffer exactly while a slash is left over for each component and one more. */
  lemma {:induction false} PopToExact(text: seq<byte>, pdepth: int, depth: int)
    requires Pad(text)
    ensures PopTo(Draft(text, pdepth), depth).Ok? <==> pdepth <= depth || Slashes(text) > pdepth - depth
    ensures var r := PopTo(Draft(text, pdepth), depth);
      if r.Ok? then r.value.pdepth == (if pdepth > depth then depth else pdepth) && Pad(r.value.text)
        else r.error == Wild
    decreases pdepth - depth
  {
    hide PopOne, Slashes, Pad;
    if pdepth > depth {
      PopOneExact(text);
      var r := PopOne(text);
      if r.Ok? { PopToExact(r.value, pdepth - 1, depth); }
    }
  }

  // ---------- The draft, layer by layer ----------

  /** A component together with what earlier names left in front of it. */
  datatype Layer = Layer(pad: seq<byte>, name: Name)

  /** The draft as the components the code believes in, and what is left over behind them. */
  datatype Sheet = Sheet(layers: seq<Layer>, tail: seq<byte>)

  const BLANK := Sheet([], [])

  function LayersText(ls: seq<Layer>): (r: seq<byte>) {
    if ls == [] then [] else LayersText(ls[..|ls| - 1]) + ls[|ls| - 1].pad + ls[|ls| - 1].name + [SLASH]
  }

  function Text(sh: Sheet): (r: seq<byte>) { LayersText(sh.layers) + sh.tail }

  predicate Padded(ls: seq<Layer>) { forall i :: 0 <= i < |ls| ==> Pad(ls[i].pad) }

  predicate Wf(sh: Sheet) { Padded(sh.layers) && Pad(sh.tail) }

  function SheetDraft(sh: Sheet): (d: Draft) { Draft(Text(sh), |sh.layers|) }

  lemma {:induction false} TextPad(sh: Sheet)
    requires Wf(sh)
    ensures Pad(LayersText(sh.layers)) && Pad(Text(sh)) && (sh.layers != [] ==> LayersText(sh.layers) != [])
  {
  }

  function Pop(sh: Sheet): (r: Sheet)
    requires sh.layers != []
    ensures Wf(sh) ==> Wf(r)
    ensures |r.layers| == |sh.layers| - 1
  {
    var l := sh.layers[|sh.layers| - 1];
    var dropped := DropSeg(l.name + [SLASH] + sh.tail);
    assert Pad(l.pad) && Pad(dropped) ==> Pad(l.pad + dropped);
    Sheet(sh.layers[..|sh.layers| - 1], l.pad + dropped)
  }

  /** With a component below it, the last one is popped inside the buffer. */
  lemma {:induction false} PopSheet(sh: Sheet)
    requires Wf(sh) && |sh.layers| > 1
    ensures PopOne(Text(sh)) == Ok(Text(Pop(sh)))
  {
    hide PopOne, DropSeg;
    var n := |sh.layers| - 1;
    var l := sh.layers[n];
    var below := Sheet(sh.layers[..n], []);
    TextPad(below);
    var h, x := LayersText(sh.layers[..n]) + l.pad, l.name + [SLASH] + sh.tail;
    assert Text(sh) == h + x;
    PopIsDrop(h, x);
    assert h + DropSeg(x) == Text(Pop(sh));
  }

  function Cut(sh: Sheet, depth: nat): (r: Sheet)
    ensures Wf(sh) ==> Wf(r)
    ensures |r.layers| == if |sh.layers| > depth then depth else |sh.layers|
    decreases |sh.layers|
  {
    if |sh.layers| > depth then Cut(Pop(sh), depth) else sh
  }

  lemma {:induction false} CutSheet(sh: Sheet, depth: nat)
    requires Wf(sh) && (depth > 0 || sh.layers == [])
    ensures PopTo(SheetDraft(sh), depth) == Ok(SheetDraft(Cut(sh, depth)))
    decreases |sh.layers|
  {
    hide PopOne, Text;
    if |sh.layers| > depth {
      PopSheet(sh);
      CutSheet(Pop(sh), depth);
    }
  }

  /** What meeting a node does to the sheet. */
  function Meet(sh: Sheet, depth: nat, name: Name, buflen: nat): (r: Sheet)
    ensures Wf(sh) ==> Wf(r)
    ensures |r.layers| <= depth + 1
  {
    var e := Cut(sh, depth);
    if |e.layers| >= depth && |Text(e)| + |name| + 1 <= buflen then Sheet(e.layers + [Layer(e.tail, name)], []) else e
  }

  lemma {:induction false} MeetSheet(sh: Sheet, depth: nat, name: Name, buflen: nat)
    requires Wf(sh) && (depth > 0 || sh.layers == [])
    ensures PopTo(SheetDraft(sh), depth).Ok?
    ensures Pushed(PopTo(SheetDraft(sh), depth).value, depth, name, buflen) == SheetDraft(Meet(sh, depth, name, buflen))
  {
    hide PopTo, Cut;
    CutSheet(sh, depth);
    var e := Cut(sh, depth);
    var ls := e.layers + [Layer(e.tail, name)];
    assert ls[..|ls| - 1] == e.layers && ls[|ls| - 1] == Layer(e.tail, name);
    assert LayersText(ls) + [] == LayersText(ls);
    assert LayersText(ls) == Text(e) + name + [SLASH];
  }

  // ---------- The loop with its buffer ----------

  /** Step back over one component; without a slash in front the read at -1 comes next. */
  method StepBack(buf: array<byte>, p: nat) returns (r: Result<nat>)
    requires p <= buf.Length
    ensures r.Ok? ==> r.value < p && PopOne(buf[..p]) == Ok(buf[..r.value])
    ensures r.Err? ==> PopOne(buf[..p]) == Err(r.error)
  {
    if p == 0 { return Err(Wild); }
    var q: nat := p - 1;
    assert buf[..p][..q] == buf[..q];
    while q > 0 && buf[q - 1] != SLASH
      invariant q < p
      invariant PopOne(buf[..p]) == PopOne(buf[..q + 1])
    {
      assert buf[..q + 1][..q] == buf[..q];
      q := q - 1;
    }
    if q == 0 { return Err(Wild); }
    assert buf[..q + 1][..q] == buf[..q];
    return Ok(q);
  }

  /** Take back the components deeper than the node met. */
  method StepBackTo(buf: array<byte>, p: nat, pdepth: int, depth: int) returns (r: Result<nat>, qdepth: int)
    requires p <= buf.Length
    ensures r.Ok? ==> r.value <= p && PopTo(Draft(buf[..p], pdepth), depth) == Ok(Draft(buf[..r.value], qdepth))
    ensures r.Err? ==> PopTo(Draft(buf[..p], pdepth), depth) == Err(r.error)
  {
    hide PopOne;
    var q: nat := p;
    qdepth := pdepth;
    while qdepth > depth
      invariant q <= p && PopTo(Draft(buf[..p], pdepth), depth) == PopTo(Draft(buf[..q], qdepth), depth)
    {
      var s := StepBack(buf, q);
      if s.Err? { return s, qdepth; }
      q, qdepth := s.value, qdepth - 1;
    }
    return Ok(q), qdepth;
  }

  /** Put the name in behind its parent's if there is room. */
  method PushName(buf: array<byte>, p: nat, pdepth: int, depth: int, name: Name) returns (q: nat, qdepth: int)
    requires p <= buf.Length
    modifies buf
    ensures q <= buf.Length
    ensures Draft(buf[..q], qdepth) == Pushed(Draft(old(buf[..p]), pdepth), depth, name, buf.Length)
  {
    q, qdepth := p, pdepth;
    if pdepth >= depth && p + |name| + 1 <= buf.Length {
      ghost var e := buf[..p];
      forall i | 0 <= i < |name| { buf[p + i] := name[i]; }
      buf[p + |name|] := SLASH;
      assert buf[..p] == e && buf[p..p + |name|] == name;
      assert buf[..p + |name| + 1] == buf[..p] + buf[p..p + |name|] + [buf[p + |name|]];
      q, qdepth := p + |name| + 1, pdepth + 1;
    }
  }

  /** fdt_next_node behind the tag of a node: where the next round is, or how the walk fails. */
  method NextNode(s: seq<byte>, from: nat, open: int, ghost target: nat, ghost buflen: nat, ghost d: Draft)
    returns (r: Result<nat>, depth: int)
    requires from < |s| + 4
    ensures r.Ok? ==> from <= r.value < |s| + 4
    ensures PathFrom(s, from, open, target, buflen, d)
         == if r.Ok? then Visit(s, r.value, depth, target, buflen, d) else Err(r.error)
  {
    hide NextTag, Visit;
    var o := from;
    depth := open;
    while true
      invariant from <= o < |s| + 4
      invariant PathFrom(s, from, open, target, buflen, d) == PathFrom(s, o, depth, target, buflen, d)
      decreases |s| + 4 - o
    {
      var t := NextTag(s, o);
      if t.Bad? { return Err(Blame(t.error)), depth; }
      match t.token {
        case End => return Err(BadOffset), depth;
        case BeginNode(_) => return Ok(o), depth;
        case EndNode =>
          if depth <= 1 { return Ok(t.next), depth - 2; }
          o, depth := t.next, depth - 1;
        case Prop(_, _) => o := t.next;
        case Nop => o := t.next;
      }
    }
  }

  /** fdt_get_path: the length of the path left in the buffer, in front of a NUL. */
  method GetPathInto(s: seq<byte>, node: nat, buf: array<byte>) returns (r: Result<nat>)
    modifies buf
    ensures var f := GetPath(s, node, buf.Length);
      && (r.Ok? <==> f.Ok?) && (r.Err? ==> r.error == f.error)
      && (r.Ok? ==> r.value < buf.Length && buf[..r.value] == f.value && buf[r.value] == 0)
  {
    hide NextTag, PopTo, Pushed, PathFrom;
    if buf.Length < 2 { return Err(NoSpace); }
    var o: nat, depth: int, p: nat, pdepth: int := 0, 0, 0, 0;
    assert buf[..0] == [];
    while o <= node
      invariant p <= buf.Length
      invariant GetPath(s, node, buf.Length) == Visit(s, o, depth, node, buf.Length, Draft(buf[..p], pdepth))
      decreases |s| + 4 - o
    {
      var back, qdepth := StepBackTo(buf, p, pdepth, depth);
      if back.Err? { return Err(back.error); }
      p, pdepth := back.value, qdepth;
      var m := CheckNode(s, o);
      if pdepth >= depth && m.Err? { return Err(BadOffset); }
      if m.Ok? { p, pdepth := PushName(buf, p, pdepth, depth, NextTag(s, o).token.name); }
      if o == node {
        if pdepth < depth + 1 { return Err(NoSpace); }
        if p > 1 {
          assert buf[..p][..p - 1] == buf[..p - 1];
          p := p - 1;
        }
        ghost var text := buf[..p];
        buf[p] := 0;
        assert buf[..p] == text;
        return Ok(p);
      }
      if m.Err? { return Err(BadStructure); }
      var next, deep := NextNode(s, m.value, depth + 1, node, buf.Length, Draft(buf[..p], pdepth));
      if next.Err? { return Err(next.error); }
      o, depth := next.value, deep;
    }
    return Err(BadOffset);
  }
}
