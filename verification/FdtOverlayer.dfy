/**
 overlay_apply_node and copy_node as recursive loops over the source blob that edit, or
 append to, the other blob in place.
 */
module FdtOverlayer {
  import opened Bytes
  import opened FdtTokens
  import opened FdtTree
  import opened FdtRead
  import opened FdtBlob
  import opened FdtOverlay
  import opened FdtEditor
  import opened FdtSw
  import opened FdtCopy
  import opened FdtWriter

  /** The node of the base that an overlay child named `name` goes to. */
  method Destination(base: Editor, target: nat, name: seq<byte>) returns (r: Result<nat>)
    modifies base, base.data
    ensures base.data == old(base.data)
    ensures Out(r, base.View()) == Target(old(base.View()), target, name)
  {
    hide AddSubnode, FindChild;
    ExistsUnchanged(base.View(), target, name);
    r := base.AddNode(target, name);
    if r == Err(Exists) && base.View().Ordered() {
      r := base.FindSubnode(target, name);
      if r == Err(NotFound) { r := Err(Internal); }
    }
  }

  lemma {:induction false} ExistsUnchanged(b: Blob, target: nat, name: seq<byte>)
    ensures AddSubnode(b, target, name).r.Err? ==> AddSubnode(b, target, name).blob == b
  {
    hide SpliceStruct, FindChild, CheckNode, InsertPoint, NodeBytes, Poke;
  }

  /** overlay_apply_node. */
  method Apply(base: Editor, target: nat, s: seq<byte>, strs: seq<byte>, node: nat) returns (r: Result<()>)
    requires |s| < INT32_MAX
    modifies base, base.data
    ensures base.data == old(base.data)
    ensures var f := ApplyNode(old(base.View()), target, s, strs, node);
      base.View() == f.blob && (r.Ok? <==> f.r.Ok?) && (r.Err? ==> r.error == f.r.error)
    decreases if node < |s| then |s| - node else 0
  {
    hide NextTag, GetString, SetProp, Target, CheckNode, FirstSubnode, NextSubnode;
    var m := CheckNode(s, node);
    if m.Err? { return Ok(()); }
    r := ApplyProperties(base, target, s, strs, m.value);
    if r.Err? { return; }
    ghost var b := base.View();
    var child := FirstSubnode(s, node);
    while child.Ok? && NextTag(s, child.value).Tok? && NextTag(s, child.value).token.BeginNode?
      invariant base.data == old(base.data) && (child.Ok? ==> node < child.value && child.value < |s|)
      invariant ApplyKids(b, target, s, strs, FirstSubnode(s, node)) == ApplyKids(base.View(), target, s, strs, child)
      decreases if child.Ok? then |s| - child.value else 0, child.Ok?
    {
      var n := Destination(base, target, NextTag(s, child.value).token.name);
      if n.Err? { return Err(n.error); }
      r := Apply(base, n.value, s, strs, child.value);
      if r.Err? { return; }
      child := NextSubnode(s, child.value);
    }
    return Ok(());
  }

  /** Its property loop. */
  method ApplyProperties(base: Editor, target: nat, s: seq<byte>, strs: seq<byte>, start: nat) returns (r: Result<()>)
    requires |s| < INT32_MAX
    modifies base, base.data
    ensures base.data == old(base.data)
    ensures var f := ApplyProps(old(base.View()), target, s, strs, start);
      base.View() == f.blob && (r.Ok? <==> f.r.Ok?) && (r.Err? ==> r.error == f.r.error)
  {
    hide NextTag, GetString, SetProp;
    ghost var b := base.View();
    var o := start;
    while true
      invariant base.data == old(base.data)
      invariant ApplyProps(b, target, s, strs, start) == ApplyProps(base.View(), target, s, strs, o)
      decreases if o < |s| then |s| - o else 0
    {
      var t := NextTag(s, o);
      if t.Bad? { return Ok(()); }
      match t.token {
        case Prop(off, value) =>
          var name := GetString(strs, off);
          if name.Err? { return Err(name.error); }
          r := base.Set(target, name.value, value);
          if r.Err? { return; }
        case Nop =>
        case BeginNode(_) => return Ok(());
        case EndNode => return Ok(());
        case End => return Ok(());
      }
      o := t.next;
    }
  }

  /** copy_node. */
  method CopyTree(w: SwWriter, s: seq<byte>, strs: seq<byte>, node: nat) returns (r: Result<()>)
    requires w.Valid() && |s| < INT32_MAX && |strs| < INT32_MAX
    modifies w, w.mem
    ensures w.mem == old(w.mem) && w.Valid()
    ensures var f := CopyNode(old(w.View()), s, strs, node);
      w.View() == f.w && (r.Ok? <==> f.r.Ok?) && (r.Err? ==> r.error == f.r.error)
    decreases if node < |s| then |s| - node else 0
  {
    hide NextTag, GetString, CheckNode, FirstSubnode, NextSubnode, OpenNode, CloseNode, AddProp, CopyProps;
    var m := CheckNode(s, node);
    if m.Err? { return Err(if w.phase == Structure then Wild else BadState); }
    NodeTag(s, node);
    r := w.Begin(NextTag(s, node).token.name);
    if r.Err? { return; }
    r := CopyProperties(w, s, strs, m.value);
    if r.Err? { return; }
    ghost var v := w.View();
    var child := FirstSubnode(s, node);
    while child.Ok? && child.value < |s|
      invariant w.mem == old(w.mem) && w.Valid() && (child.Ok? ==> node < child.value)
      invariant CopyKids(v, s, strs, FirstSubnode(s, node)) == CopyKids(w.View(), s, strs, child)
      decreases if child.Ok? && child.value < |s| then |s| - child.value else 0, child.Ok?
    {
      r := CopyTree(w, s, strs, child.value);
      if r.Err? { return; }
      child := NextSubnode(s, child.value);
    }
    r := w.End();
  }

  lemma {:induction false} NodeTag(s: seq<byte>, node: nat)
    requires CheckNode(s, node).Ok?
    ensures NextTag(s, node).Tok? && NextTag(s, node).token.BeginNode?
  {
    hide NextTag;
  }

  /** copy_properties. */
  method CopyProperties(w: SwWriter, s: seq<byte>, strs: seq<byte>, start: nat) returns (r: Result<()>)
    requires w.Valid() && |s| < INT32_MAX && |strs| < INT32_MAX
    modifies w, w.mem
    ensures w.mem == old(w.mem) && w.Valid()
    ensures var f := CopyProps(old(w.View()), s, strs, start);
      w.View() == f.w && (r.Ok? <==> f.r.Ok?) && (r.Err? ==> r.error == f.r.error)
  {
    hide NextTag, GetString, AddProp;
    ghost var v := w.View();
    var o := start;
    while true
      invariant w.mem == old(w.mem) && w.Valid()
      invariant CopyProps(v, s, strs, start) == CopyProps(w.View(), s, strs, o)
      decreases if o < |s| then |s| - o else 0
    {
      var t := NextTag(s, o);
      if t.Bad? { return Err(t.error); }
      match t.token {
        case Prop(off, value) =>
          var name := GetString(strs, off);
          if name.Err? { return Err(if w.phase == Structure then Wild else BadState); }
          r := w.Property(name.value, value);
          if r.Err? { return; }
        case Nop =>
        case BeginNode(_) => return Ok(());
        case EndNode => return Ok(());
        case End => return Err(BadStructure);
      }
      o := t.next;
    }
  }
}
