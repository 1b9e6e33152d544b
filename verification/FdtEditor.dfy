/**
 The editing calls as the library performs them: moves and stores in one byte array, with
 the header fields beside it. Every method does exactly what its function in FdtBlob says.
 */
module FdtEditor {
  import opened Bytes
  import opened FdtTokens
  import opened FdtTree
  import opened FdtRead
  import opened FdtBlob

  class Editor {
    var data: array<byte>
    var offRsv: u32
    var offStruct: u32
    var sizeStruct: u32
    var offStrings: u32
    var sizeStrings: u32

    constructor (data: array<byte>, offRsv: u32, offStruct: u32, sizeStruct: u32, offStrings: u32, sizeStrings: u32)
      ensures this.data == data
      ensures View() == Blob(data[..], offRsv, offStruct, sizeStruct, offStrings, sizeStrings)
    {
      this.data := data;
      this.offRsv, this.offStruct, this.sizeStruct := offRsv, offStruct, sizeStruct;
      this.offStrings, this.sizeStrings := offStrings, sizeStrings;
    }

    function View(): (b: Blob)
      reads this, data
      ensures |b.data| == data.Length
    {
      Blob(data[..], offRsv, offStruct, sizeStruct, offStrings, sizeStrings)
    }

    /** memcpy of `v` to `at`. */
    method Store(at: nat, v: seq<byte>)
      requires at + |v| <= data.Length
      modifies data
      ensures data[..] == Poke(old(data[..]), at, v)
    {
      forall i | 0 <= i < |v| { data[at + i] := v[i]; }
    }

    method Move(dst: nat, src: nat, n: nat)
      requires dst + n <= data.Length && src + n <= data.Length
      modifies data
      ensures data[..] == Memmove(old(data[..]), dst, src, n)
    {
      forall i | 0 <= i < n { data[dst + i] := data[src + i]; }
    }

    /** fdt_splice_struct_ over fdt_splice_. */
    method Splice(x: nat, oldlen: nat, newlen: nat) returns (r: Result<()>)
      requires View().Ordered()
      modifies this`sizeStruct, this`offStrings, data
      ensures var s := SpliceStruct(old(View()), x, oldlen, newlen);
        && (r.Ok? <==> s.Ok?) && (r.Err? ==> r.error == s.error)
        && View() == if s.Ok? then s.value else old(View())
    {
      hide Memmove, Poke;
      var p, dsize := offStruct + x, offStrings + sizeStrings;
      if p + oldlen > dsize { return Err(BadOffset); }
      if dsize - oldlen + newlen > data.Length { return Err(NoSpace); }
      Move(p + newlen, p + oldlen, dsize - (p + oldlen));
      sizeStruct := Wrap(sizeStruct + newlen - oldlen);
      offStrings := Wrap(offStrings + newlen - oldlen);
      return Ok(());
    }

    /** fdt_find_string_ over the strings block. */
    method FindName(name: seq<byte>) returns (r: Result<nat>)
      requires View().Ordered()
      ensures r == FindString(View().Strings(), name, 0)
    {
      var tab := data[offStrings..offStrings + sizeStrings];
      var p := 0;
      while p + |name| + 1 <= |tab|
        invariant FindString(tab, name, 0) == FindString(tab, name, p)
      {
        if tab[p..p + |name| + 1] == name + [0] { return Ok(p); }
        p := p + 1;
      }
      return Err(NotFound);
    }

    /** fdt_find_add_string_. */
    method FindAddName(name: seq<byte>) returns (r: Result<nat>, added: bool)
      requires View().Ordered()
      modifies this`sizeStrings, data
      ensures var f := FindAddString(old(View()), name);
        && View() == f.blob && (r.Ok? <==> f.r.Ok?)
        && (r.Ok? ==> f.r.value == (r.value, added)) && (r.Err? ==> r.error == f.r.error)
    {
      added := false;
      r := FindName(name);
      if r.Ok? { return; }
      if offStrings + sizeStrings + |name| + 1 > data.Length { return Err(NoSpace), false; }
      Store(offStrings + sizeStrings, name + [0]);
      r, added := Ok(sizeStrings), true;
      sizeStrings := sizeStrings + |name| + 1;
    }

    /** The property lookup: nextprop_ under fdt_get_property_namelen_. */
    method LookUp(node: nat, name: seq<byte>) returns (r: Result<nat>)
      requires View().Ordered()
      ensures r == FindProp(View().Struct(), View().Strings(), node, name)
    {
      hide NextTag, GetString;
      var s, strs := View().Struct(), View().Strings();
      var m := CheckNode(s, node);
      if m.Err? { return Err(m.error); }
      var o := m.value;
      while true
        invariant FindProp(s, strs, node, name) == PropFrom(s, strs, o, name)
        decreases if o < |s| then |s| - o else 0
      {
        var t := NextTag(s, o);
        if t.Bad? { return Err(t.error); }
        match t.token {
          case End => return Err(BadStructure);
          case Prop(off, _) =>
            if GetString(strs, off) == Ok(name) { return Ok(o); }
          case Nop =>
          case BeginNode(_) => return Err(NotFound);
          case EndNode => return Err(NotFound);
        }
        o := t.next;
      }
    }

    /** fdt_add_property_ and the value copy. */
    method Add(node: nat, name: seq<byte>, val: seq<byte>) returns (r: Result<()>)
      requires View().Ordered() && |val| < INT32_MAX
      modifies this, data
      ensures data == old(data)
      ensures var f := AddProperty(old(View()), node, name, val);
        View() == f.blob && (r.Ok? <==> f.r.Ok?) && (r.Err? ==> r.error == f.r.error)
    {
      hide NextTag, GetString, FindAddString, CheckNode, Memmove, Poke, PropHeader, Align4, SpliceStruct, FindString;
      var m := CheckNode(View().Struct(), node);
      if m.Err? { return Err(m.error); }
      var was := sizeStrings;
      var off, added := FindAddName(name);
      if off.Err? { return Err(off.error); }
      r := Splice(m.value, 0, 12 + Align4(|val|));
      if r.Err? {
        if added { sizeStrings := was; }
        return;
      }
      Store(offStruct + m.value, PropHeader(|val|, off.value) + val);
    }

    /** fdt_resize_property_ and the value copy of fdt_setprop and fdt_appendprop. */
    method Resized(x: nat, keep: nat, val: seq<byte>) returns (r: Result<()>)
      requires View().Ordered() && x + 12 <= sizeStruct && keep <= Word(View().Struct(), x + 4)
        && keep + |val| < 0x1_0000_0000
      modifies this`sizeStruct, this`offStrings, data
      ensures var f := Resize(old(View()), x, keep, val);
        View() == f.blob && (r.Ok? <==> f.r.Ok?) && (r.Err? ==> r.error == f.r.error)
    {
      hide Memmove, Poke, Be32, Align4, SpliceStruct, Word;
      r := Splice(x + 12, Align4(Word(View().Struct(), x + 4)), Align4(keep + |val|));
      if r.Err? { return; }
      Store(offStruct + x + 4, Be32(keep + |val|));
      Store(offStruct + x + 12 + keep, val);
    }

    /** fdt_setprop. */
    method Set(node: nat, name: seq<byte>, val: seq<byte>) returns (r: Result<()>)
      requires |val| < INT32_MAX
      modifies this, data
      ensures data == old(data)
      ensures var f := SetProp(old(View()), node, name, val);
        View() == f.blob && (r.Ok? <==> f.r.Ok?) && (r.Err? ==> r.error == f.r.error)
    {
      hide FindProp, Resize, AddProperty, Word;
      r := View().Probe();
      if r.Err? { return; }
      var x := LookUp(node, name);
      if x.Ok? {
        r := Resized(x.value, 0, val);
      } else if x.error == NotFound {
        r := Add(node, name, val);
      } else {
        r := Err(x.error);
      }
    }

    /** fdt_appendprop. */
    method Append(node: nat, name: seq<byte>, val: seq<byte>) returns (r: Result<()>)
      requires |val| < INT32_MAX
      modifies this, data
      ensures data == old(data)
      ensures var f := AppendProp(old(View()), node, name, val);
        View() == f.blob && (r.Ok? <==> f.r.Ok?) && (r.Err? ==> r.error == f.r.error)
    {
      hide FindProp, Resize, AddProperty, Word;
      r := View().Probe();
      if r.Err? { return; }
      var x := LookUp(node, name);
      if x.Ok? {
        var oldlen := Word(View().Struct(), x.value + 4);
        if oldlen + |val| > INT32_MAX { return Err(Wild); }
        r := Resized(x.value, oldlen, val);
      } else {
        r := Add(node, name, val);
      }
    }

    /** fdt_delprop. */
    method Delete(node: nat, name: seq<byte>) returns (r: Result<()>)
      modifies this, data
      ensures data == old(data)
      ensures var f := DelProp(old(View()), node, name);
        View() == f.blob && (r.Ok? <==> f.r.Ok?) && (r.Err? ==> r.error == f.r.error)
    {
      hide FindProp, SpliceStruct, Word, Align4;
      r := View().Probe();
      if r.Err? { return; }
      var x := LookUp(node, name);
      if x.Err? { return Err(x.error); }
      r := Splice(x.value, 12 + Align4(Word(View().Struct(), x.value + 4)), 0);
    }

    /** fdt_subnode_offset_namelen over fdt_next_node. */
    method FindSubnode(node: nat, name: seq<byte>) returns (r: Result<nat>)
      requires View().Ordered()
      ensures r == FindChild(View().Struct(), node, name)
    {
      hide NextTag, GetString;
      var s := View().Struct();
      var m := CheckNode(s, node);
      if m.Err? { return Err(m.error); }
      var o, depth := m.value, 0;
      while true
        invariant FindChild(s, node, name) == NodeFrom(s, o, depth, Named(name)) && depth >= 0
        decreases if o < |s| then |s| - o else 0
      {
        var t := NextTag(s, o);
        if t.Bad? { return Err(t.error); }
        match t.token {
          case End => return Err(NotFound);
          case BeginNode(nm) =>
            if depth == 0 && NameEq(nm, name) { return Ok(o); }
            depth := depth + 1;
          case EndNode =>
            if depth == 0 { return Err(NotFound); }
            depth := depth - 1;
          case Prop(_, _) =>
          case Nop =>
        }
        o := t.next;
      }
    }

    /** fdt_node_end_offset_. */
    method EndOf(node: nat) returns (r: Result<nat>)
      requires View().Ordered()
      ensures r == NodeEnd(View().Struct(), node)
    {
      hide NextTag, GetString;
      var s := View().Struct();
      var m := CheckNode(s, node);
      if m.Err? { return Err(m.error); }
      var o, depth := m.value, 0;
      while true
        invariant NodeEnd(s, node) == EndFrom(s, o, depth) && depth >= 0
        decreases if o < |s| then |s| - o else 0
      {
        var t := NextTag(s, o);
        if t.Bad? { return Err(t.error); }
        match t.token {
          case End => return Err(NotFound);
          case BeginNode(_) => depth := depth + 1;
          case EndNode =>
            if depth == 0 { return Ok(t.next); }
            depth := depth - 1;
          case Prop(_, _) =>
          case Nop =>
        }
        o := t.next;
      }
    }

    /** fdt_add_subnode. */
    method AddNode(parent: nat, name: seq<byte>) returns (r: Result<nat>)
      modifies this, data
      ensures data == old(data)
      ensures var f := AddSubnode(old(View()), parent, name); View() == f.blob && r == f.r
    {
      hide NextTag, NodeFrom, SpliceStruct, NodeBytes, Poke, Memmove;
      var probe := View().Probe();
      if probe.Err? { return Err(probe.error); }
      var f := FindSubnode(parent, name);
      if f.Ok? { return Err(Exists); }
      if f.error != NotFound { return Err(f.error); }
      var s := View().Struct();
      var x := CheckNode(s, parent).value;
      ghost var x0 := x;
      var t := NextTag(s, x);
      while t.Tok? && (t.token.Prop? || t.token.Nop?)
        invariant t == NextTag(s, x) && InsertPoint(s, x) == InsertPoint(s, x0)
        decreases if x < |s| then |s| - x else 0
      {
        x := t.next;
        t := NextTag(s, x);
      }
      var done := Splice(x, 0, |NodeBytes(name)|);
      if done.Err? { return Err(done.error); }
      Store(offStruct + x, NodeBytes(name));
      return Ok(x);
    }

    /** fdt_del_node. */
    method DeleteNode(node: nat) returns (r: Result<()>)
      modifies this, data
      ensures data == old(data)
      ensures var f := DelNode(old(View()), node);
        View() == f.blob && (r.Ok? <==> f.r.Ok?) && (r.Err? ==> r.error == f.r.error)
    {
      hide NodeEnd, SpliceStruct;
      r := View().Probe();
      if r.Err? { return; }
      var e := EndOf(node);
      if e.Err? { return Err(e.error); }
      r := Splice(node, e.value - node, 0);
    }

    /** fdt_nop_region_: NOP words from `at` on. */
    method Blank(at: nat, words: nat)
      requires at + 4 * words <= data.Length
      modifies data
      ensures data[..] == Poke(old(data[..]), at, Nops(words))
    {
      hide Poke, Nops, Be32;
      ghost var was := data[..];
      NopsNone(was, at);
      for k := 0 to words
        invariant data[..] == Poke(was, at, Nops(k))
      {
        Store(at + 4 * k, Be32(FDT_NOP));
        NopsSnoc(was, at, k);
      }
    }

    /** The same, counted from the structure block; outside the buffer the outcome is undefined. */
    method BlankWords(x: nat, words: nat) returns (r: Result<()>)
      modifies data
      ensures var f := Blanked(old(View()), x, words);
        View() == f.blob && (r.Ok? <==> f.r.Ok?) && (r.Err? ==> r.error == f.r.error)
    {
      hide Poke, Nops;
      if offStruct + x + 4 * words > data.Length { return Err(Wild); }
      Blank(offStruct + x, words);
      return Ok(());
    }

    /** fdt_nop_property. */
    method NopProp(node: nat, name: seq<byte>) returns (r: Result<()>)
      requires View().Ordered()
      modifies data
      ensures var f := NopProperty(old(View()), node, name);
        View() == f.blob && (r.Ok? <==> f.r.Ok?) && (r.Err? ==> r.error == f.r.error)
    {
      hide FindProp, Poke, Nops, Word;
      var x := LookUp(node, name);
      if x.Err? { return Err(x.error); }
      var len := Word(View().Struct(), x.value + 4);
      r := BlankWords(x.value, 3 + Align4(len) / 4);
    }

    /** fdt_nop_node. */
    method NopSubtree(node: nat) returns (r: Result<()>)
      requires View().Ordered()
      modifies data
      ensures var f := NopNode(old(View()), node);
        View() == f.blob && (r.Ok? <==> f.r.Ok?) && (r.Err? ==> r.error == f.r.error)
    {
      hide NodeEnd, Poke, Nops;
      var e := EndOf(node);
      if e.Err? { return Err(e.error); }
      r := BlankWords(node, (e.value - node) / 4);
    }

    /** fdt_setprop_inplace_namelen_partial. */
    method SetPart(node: nat, name: seq<byte>, idx: u32, val: seq<byte>) returns (r: Result<()>)
      requires View().Ordered() && |val| < INT32_MAX
      modifies data
      ensures var f := SetInplace(old(View()), node, name, idx, val);
        View() == f.blob && (r.Ok? <==> f.r.Ok?) && (r.Err? ==> r.error == f.r.error)
    {
      hide FindProp, Poke, Word;
      var x := LookUp(node, name);
      if x.Err? { return Err(x.error); }
      var len := Word(View().Struct(), x.value + 4);
      if len < Wrap(|val| + idx) { return Err(NoSpace); }
      if len < |val| + idx { return Err(Wild); }
      Store(offStruct + x.value + 12 + idx, val);
      return Ok(());
    }
  }

  lemma {:induction false} NopsAppend(k: nat)
    ensures Nops(k + 1) == Nops(k) + Be32(FDT_NOP)
    decreases k
  {
    hide Be32;
    if k > 0 { NopsAppend(k - 1); }
  }

  lemma {:induction false} NopsNone(d: seq<byte>, at: nat)
    requires at <= |d|
    ensures Poke(d, at, Nops(0)) == d
  {
  }

  lemma {:induction false} NopsSnoc(d: seq<byte>, at: nat, k: nat)
    requires at + 4 * (k + 1) <= |d|
    ensures Poke(Poke(d, at, Nops(k)), at + 4 * k, Be32(FDT_NOP)) == Poke(d, at, Nops(k + 1))
  {
    hide Be32, Nops;
    NopsAppend(k);
  }
}
