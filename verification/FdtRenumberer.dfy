/**
 The renumbering at work: loops that overwrite words of the overlay in place.
 */
module FdtRenumberer {
  import opened Bytes
  import opened FdtTokens
  import opened FdtTree
  import opened FdtRead
  import opened FdtBlob
  import opened FdtPhandle
  import opened FdtFixups
  import opened FdtRenumber
  import opened FdtEditor

  /** fdt_find_max_phandle. */
  method FindMax(s: seq<byte>, strs: seq<byte>) returns (r: Result<u32>)
    ensures r == MaxFrom(s, strs, 0, 0)
  {
    hide NextTag, GetPhandle;
    var max: u32, o := 0, 0;
    while true
      invariant MaxFrom(s, strs, 0, 0) == MaxFrom(s, strs, o, max)
      decreases if o < |s| then |s| - o else 0
    {
      var t := NextTag(s, o);
      if t.Bad? { return if t.error == Truncated then Ok(max) else Err(t.error); }
      if t.token.End? { return Ok(max); }
      if t.token.BeginNode? {
        var h := GetPhandle(s, strs, o);
        if max < h { max := h; }
      }
      o := t.next;
    }
  }

  /** overlay_phandle_add_offset. */
  method RaisePhandleOf(e: Editor, node: nat, name: seq<byte>, delta: u32) returns (r: Result<()>)
    requires e.View().Ordered()
    modifies e.data
    ensures var f := AddOffset(old(e.View()), node, name, delta);
      e.View() == f.blob && (r.Ok? <==> f.r.Ok?) && (r.Err? ==> r.error == f.r.error)
  {
    hide FindProp, SetInplace, Raised;
    var x := e.LookUp(node, name);
    if x.Err? { return Err(x.error); }
    var adj := Raised(e.View(), x.value, delta);
    if adj.Err? { return Err(adj.error); }
    r := e.SetPart(node, name, 0, Be32(adj.value));
  }

  /** overlay_adjust_node_phandles. */
  method AdjustPhandles(e: Editor, node: nat, delta: u32) returns (r: Result<()>)
    requires e.View().Ordered()
    modifies e.data
    ensures var f := AdjustNode(old(e.View()), node, delta);
      e.View() == f.blob && (r.Ok? <==> f.r.Ok?) && (r.Err? ==> r.error == f.r.error)
    decreases if node < e.sizeStruct then e.sizeStruct - node else 0
  {
    hide AddOffset, FirstSubnode, NextSubnode;
    r := RaisePhandleOf(e, node, PHANDLE, delta);
    if r.Err? && r.error != NotFound { return; }
    r := RaisePhandleOf(e, node, LINUX_PHANDLE, delta);
    if r.Err? && r.error != NotFound { return; }
    ghost var b := e.View();
    var child := FirstSubnode(e.View().Struct(), node);
    while child.Ok?
      invariant e.View().Ordered() && (child.Ok? ==> node < child.value < e.sizeStruct)
      invariant AdjustKids(b, FirstSubnode(b.Struct(), node), delta) == AdjustKids(e.View(), child, delta)
      decreases if child.Ok? then e.sizeStruct - child.value else 0, child.Ok?
    {
      r := AdjustPhandles(e, child.value, delta);
      if r.Err? { return; }
      child := NextSubnode(e.View().Struct(), child.value);
    }
    return Ok(());
  }

  /** The loop over the cells of one fixup property. */
  method RaiseCells(e: Editor, node: nat, name: seq<byte>, fx: nat, m: nat, delta: u32) returns (r: Result<()>)
    requires e.View().Ordered() && fx + 12 + 4 * m <= e.sizeStruct
    modifies e.data
    ensures var f := FixCells(old(e.View()), node, name, fx, 0, m, delta);
      e.View() == f.blob && (r.Ok? <==> f.r.Ok?) && (r.Err? ==> r.error == f.r.error)
  {
    hide FixCell, Word;
    ghost var b := e.View();
    var j := 0;
    while j < m
      invariant j <= m && e.View().Ordered()
      invariant FixCells(b, node, name, fx, 0, m, delta) == FixCells(e.View(), node, name, fx, j, m, delta)
    {
      r := RaiseOne(e, node, name, Word(e.View().Struct(), fx + 12 + 4 * j), delta);
      if r.Err? { return; }
      j := j + 1;
    }
    return Ok(());
  }

  method RaiseOne(e: Editor, node: nat, name: seq<byte>, poffset: u32, delta: u32) returns (r: Result<()>)
    requires e.View().Ordered()
    modifies e.data
    ensures var f := FixCell(old(e.View()), node, name, poffset, delta);
      e.View() == f.blob && (r.Ok? <==> f.r.Ok?) && (r.Err? ==> r.error == f.r.error)
  {
    hide FindProp, SetInplace, Be32, Wrap, Word;
    var x := e.LookUp(node, name);
    if x.Err? { return Err(x.error); }
    var at := e.offStruct + x.value + 12 + poffset;
    if at + 4 > e.data.Length { return Err(Wild); }
    r := e.SetPart(node, name, poffset, Be32(Wrap(Word(e.data[..], at) + delta)));
    if r == Err(NoSpace) { r := Err(BadOverlay); }
  }

  /** One property of the fixup node. */
  method RaiseListed(e: Editor, node: nat, fx: nat, delta: u32) returns (r: Result<()>)
    requires e.View().Ordered()
    modifies e.data
    ensures var f := FixProp(old(e.View()), node, fx, delta);
      e.View() == f.blob && (r.Ok? <==> f.r.Ok?) && (r.Err? ==> r.error == f.r.error)
  {
    hide FindProp, GetString, FixCells;
    var t := NextTag(e.View().Struct(), fx);
    if t.Bad? || !t.token.Prop? { return Err(BadOffset); }
    PropBytes(e.View().Struct(), fx);
    hide NextTag;
    var name := GetString(e.View().Strings(), t.token.nameoff);
    if name.Err? { return Err(name.error); }
    if |t.token.value| % 4 != 0 { return Err(BadOverlay); }
    var x := e.LookUp(node, name.value);
    if x.Err? { return Err(if x.error == NotFound then BadOverlay else x.error); }
    r := RaiseCells(e, node, name.value, fx, |t.token.value| / 4, delta);
  }

  /** overlay_update_local_node_references. */
  method UpdateNode(e: Editor, node: nat, fixup: nat, delta: u32) returns (r: Result<()>)
    requires e.View().Ordered()
    modifies e.data
    ensures var f := FixNode(old(e.View()), node, fixup, delta);
      e.View() == f.blob && (r.Ok? <==> f.r.Ok?) && (r.Err? ==> r.error == f.r.error)
    decreases if fixup < e.sizeStruct then 2 * (e.sizeStruct - fixup) else 1
  {
    hide FixProps, FixKids;
    r := UpdateProps(e, node, fixup, delta);
    if r.Err? { return; }
    r := UpdateKids(e, node, fixup, delta);
  }

  method UpdateProps(e: Editor, node: nat, fixup: nat, delta: u32) returns (r: Result<()>)
    requires e.View().Ordered()
    modifies e.data
    ensures var f := FixProps(old(e.View()), node, FirstProperty(old(e.View()).Struct(), fixup), delta);
      e.View() == f.blob && (r.Ok? <==> f.r.Ok?) && (r.Err? ==> r.error == f.r.error)
  {
    hide FixProp, NextProperty, FirstProperty;
    ghost var b := e.View();
    var at := FirstProperty(e.View().Struct(), fixup);
    while at.Ok?
      invariant e.View().Ordered() && (at.Ok? ==> at.value < e.sizeStruct)
      invariant FixProps(b, node, FirstProperty(b.Struct(), fixup), delta) == FixProps(e.View(), node, at, delta)
      decreases if at.Ok? then e.sizeStruct - at.value else 0, at.Ok?
    {
      r := RaiseListed(e, node, at.value, delta);
      if r.Err? { return; }
      at := NextProperty(e.View().Struct(), at.value);
    }
    return Ok(());
  }

  method UpdateKids(e: Editor, node: nat, fixup: nat, delta: u32) returns (r: Result<()>)
    requires e.View().Ordered()
    modifies e.data
    ensures var f := FixKids(old(e.View()), node, FirstSubnode(old(e.View()).Struct(), fixup), delta);
      e.View() == f.blob && (r.Ok? <==> f.r.Ok?) && (r.Err? ==> r.error == f.r.error)
    decreases if fixup < e.sizeStruct then 2 * (e.sizeStruct - fixup) - 1 else 0
  {
    hide FixNode, NextTag, FindChild, FirstSubnode, NextSubnode;
    ghost var b := e.View();
    var at := FirstSubnode(e.View().Struct(), fixup);
    while at.Ok? && NextTag(e.View().Struct(), at.value).Tok? && NextTag(e.View().Struct(), at.value).token.BeginNode?
      invariant e.View().Ordered() && (at.Ok? ==> fixup < at.value < e.sizeStruct)
      invariant FixKids(b, node, FirstSubnode(b.Struct(), fixup), delta) == FixKids(e.View(), node, at, delta)
      decreases if at.Ok? then e.sizeStruct - at.value else 0, at.Ok?
    {
      var k := e.FindSubnode(node, NextTag(e.View().Struct(), at.value).token.name);
      if k.Err? { return Err(if k.error == NotFound then BadOverlay else k.error); }
      r := UpdateNode(e, k.value, at.value, delta);
      if r.Err? { return; }
      at := NextSubnode(e.View().Struct(), at.value);
    }
    return Ok(());
  }

  /** fdt_overlay_apply up to the local references. */
  method RenumberOverlay(base: Blob, over: Editor) returns (r: Result<()>)
    requires base.Ordered() && over.View().Ordered()
    modifies over.data
    ensures var f := Renumber(base, old(over.View()));
      over.View() == f.blob && (r.Ok? <==> f.r.Ok?) && (r.Err? ==> r.error == f.r.error)
  {
    hide MaxFrom, AdjustNode, FindChild, FixNode;
    var delta := FindMax(base.Struct(), base.Strings());
    if delta.Err? { return Err(delta.error); }
    r := AdjustPhandles(over, 0, delta.value);
    if r.Err? { return; }
    var f := over.FindSubnode(0, LOCAL_FIXUPS);
    if f.Err? { return if f.error == NotFound then Ok(()) else Err(f.error); }
    r := UpdateNode(over, 0, f.value, delta.value);
  }
}
