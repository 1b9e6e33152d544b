/**
 The blob as the editing functions of libfdt/fdt_rw.c and libfdt/fdt_wip.c see it: one
 buffer of totalsize bytes and the header fields that delimit its blocks. The functions
 here are exact on bytes, including what they leave in the free space behind the strings.
 */
module FdtBlob {
  import opened Bytes
  import opened FdtTokens
  import opened FdtRead

  const INT32_MAX := 0x7FFF_FFFF

  datatype Blob = Blob(data: seq<byte>, offRsv: u32, offStruct: u32, sizeStruct: u32, offStrings: u32,
                       sizeStrings: u32) {

    /** What fdt_rw_probe_ accepts. */
    predicate Ordered() {
      && |data| < INT32_MAX
      && 40 <= offRsv && offRsv + 16 <= offStruct && offStruct + sizeStruct <= offStrings
      && offStrings + sizeStrings <= |data|
    }

    function Struct(): (s: seq<byte>)
      requires Ordered()
      ensures |s| == sizeStruct
    {
      data[offStruct..offStruct + sizeStruct]
    }

    function Strings(): (s: seq<byte>)
      requires Ordered()
      ensures |s| == sizeStrings
    {
      data[offStrings..offStrings + sizeStrings]
    }

    function DataSize(): nat { offStrings + sizeStrings }

    function Probe(): (r: Result<()>)
      ensures r.Ok? <==> Ordered()
    {
      if |data| >= INT32_MAX then Err(Truncated) else if Ordered() then Ok(()) else Err(BadLayout)
    }
  }

  /** Two blobs that differ at most in their free space. */
  predicate SameBlocks(b: Blob, c: Blob)
  {
    && c == b.(data := c.data) && |c.data| == |b.data|
    && forall i :: 0 <= i < b.DataSize() && i < |b.data| ==> c.data[i] == b.data[i]
  }

  /** Result and resulting blob of one editing call. */
  datatype Out<+T> = Out(r: Result<T>, blob: Blob)

  /** fdt_splice_ followed by fdt_splice_struct_'s header update; `x` counts from the structure block. */
  function SpliceStruct(b: Blob, x: nat, oldlen: nat, newlen: nat): (r: Result<Blob>)
    requires b.Ordered()
    ensures r.Ok? ==> |r.value.data| == |b.data| && b.offStruct + x + newlen <= |b.data|
    ensures r.Ok? ==>
      r.value.offStruct == b.offStruct && r.value.offRsv == b.offRsv && r.value.sizeStrings == b.sizeStrings
  {
    var p, dsize := b.offStruct + x, b.DataSize();
    if p + oldlen > dsize then Err(BadOffset)
    else if dsize - oldlen + newlen > |b.data| then Err(NoSpace)
    else Ok(b.(data := Memmove(b.data, p + newlen, p + oldlen, dsize - (p + oldlen)),
               sizeStruct := Wrap(b.sizeStruct + newlen - oldlen),
               offStrings := Wrap(b.offStrings + newlen - oldlen)))
  }

  /** fdt_find_string_: the first place where `name` and its NUL stand in the table. */
  function FindString(tab: seq<byte>, name: seq<byte>, from: nat): (r: Result<nat>)
    ensures r.Ok? ==> from <= r.value && r.value + |name| + 1 <= |tab|
                      && tab[r.value..r.value + |name| + 1] == name + [0]
    decreases if from < |tab| then |tab| - from else 0
  {
    if from + |name| + 1 > |tab| then Err(NotFound)
    else if tab[from..from + |name| + 1] == name + [0] then Ok(from)
    else FindString(tab, name, from + 1)
  }

  /** fdt_find_add_string_: the name's offset, and whether it was appended. */
  function FindAddString(b: Blob, name: seq<byte>): (r: Out<(nat, bool)>)
    requires b.Ordered()
    ensures |r.blob.data| == |b.data| && r.blob.Ordered() && (r.r.Ok? ==> r.r.value.0 < INT32_MAX)
    ensures r.blob == b.(data := r.blob.data, sizeStrings := r.blob.sizeStrings) && (r.r.Err? ==> r.blob == b)
  {
    var len := |name| + 1;
    match FindString(b.Strings(), name, 0)
    case Ok(p) => Out(Ok((p, false)), b)
    case Err(_) =>
      if b.DataSize() + len > |b.data| then Out(Err(NoSpace), b)
      else Out(Ok((b.sizeStrings, true)),
               b.(data := Poke(b.data, b.DataSize(), name + [0]), sizeStrings := b.sizeStrings + len))
  }

  /** Tag, length and name offset of a property. */
  function PropHeader(len: u32, nameoff: u32): (r: seq<byte>)
    ensures |r| == 12
  {
    Be32(FDT_PROP) + Be32(len) + Be32(nameoff)
  }

  /** fdt_add_property_ with the copy of the value that its callers do. */
  function AddProperty(b: Blob, node: nat, name: seq<byte>, val: seq<byte>): (r: Out<()>)
    requires b.Ordered() && |val| < INT32_MAX
    ensures |r.blob.data| == |b.data|
  {
    var m := CheckNode(b.Struct(), node);
    if m.Err? then Out(Err(m.error), b)
    else
      var f := FindAddString(b, name);
      if f.r.Err? then Out(Err(f.r.error), b)
      else
        var c := f.blob;
        var at := b.offStruct + m.value;
        var s := SpliceStruct(c, m.value, 0, 12 + Align4(|val|));
        if s.Err? then Out(Err(s.error), if f.r.value.1 then c.(sizeStrings := b.sizeStrings) else c)
        else Out(Ok(()), s.value.(data := Poke(s.value.data, at, PropHeader(|val|, f.r.value.0) + val)))
  }

  /** fdt_setprop. */
  function SetProp(b: Blob, node: nat, name: seq<byte>, val: seq<byte>): (r: Out<()>)
    requires |val| < INT32_MAX
    ensures |r.blob.data| == |b.data|
  {
    if b.Probe().Err? then Out(b.Probe(), b)
    else
      match FindProp(b.Struct(), b.Strings(), node, name)
      case Ok(x) => Resize(b, x, 0, val)
      case Err(e) => if e == NotFound then AddProperty(b, node, name, val) else Out(Err(e), b)
  }

  /** Give the property at `x` the first `keep` bytes of its value followed by `val`. */
  function Resize(b: Blob, x: nat, keep: nat, val: seq<byte>): (r: Out<()>)
    requires b.Ordered() && x + 12 <= b.sizeStruct && keep <= Word(b.Struct(), x + 4)
    requires keep + |val| < 0x1_0000_0000
    ensures |r.blob.data| == |b.data|
  {
    var s := SpliceStruct(b, x + 12, Align4(Word(b.Struct(), x + 4)), Align4(keep + |val|));
    if s.Err? then Out(Err(s.error), b)
    else
      var d := Poke(s.value.data, b.offStruct + x + 4, Be32(keep + |val|));
      Out(Ok(()), s.value.(data := Poke(d, b.offStruct + x + 12 + keep, val)))
  }

  /** fdt_appendprop. Any failure of the lookup is taken for absence; lengths that overflow an int are undefined. */
  function AppendProp(b: Blob, node: nat, name: seq<byte>, val: seq<byte>): (r: Out<()>)
    requires |val| < INT32_MAX
    ensures |r.blob.data| == |b.data|
  {
    if b.Probe().Err? then Out(b.Probe(), b)
    else
      var f := FindProp(b.Struct(), b.Strings(), node, name);
      assert f.Ok? ==> Fits(b, f.value);
      AppendAt(b, node, f, name, val)
  }

  /** A property header and value fit into the structure block at `x`. */
  predicate Fits(b: Blob, x: nat) {
    && b.Ordered() && x % 4 == 0 && x + 12 <= b.sizeStruct && x + 12 + Word(b.Struct(), x + 4) <= b.sizeStruct
  }

  function AppendAt(b: Blob, node: nat, f: Result<nat>, name: seq<byte>, val: seq<byte>): (r: Out<()>)
    requires b.Ordered() && (f.Ok? ==> Fits(b, f.value)) && |val| < INT32_MAX
    ensures |r.blob.data| == |b.data|
  {
    match f
    case Ok(x) =>
      var oldlen := Word(b.Struct(), x + 4);
      if oldlen + |val| > INT32_MAX then Out(Err(Wild), b) else Resize(b, x, oldlen, val)
    case Err(_) => AddProperty(b, node, name, val)
  }

  /** fdt_delprop. */
  function DelProp(b: Blob, node: nat, name: seq<byte>): (r: Out<()>)
    ensures |r.blob.data| == |b.data|
  {
    if b.Probe().Err? then Out(b.Probe(), b)
    else
      match FindProp(b.Struct(), b.Strings(), node, name)
      case Err(e) => Out(Err(e), b)
      case Ok(x) => Deliver(b, (), SpliceStruct(b, x, 12 + Align4(Word(b.Struct(), x + 4)), 0))
  }

  function Deliver<T>(b: Blob, v: T, s: Result<Blob>): (r: Out<T>) {
    match s
    case Err(e) => Out(Err(e), b)
    case Ok(c) => Out(Ok(v), c)
  }

  /** Behind the properties and NOPs from `o` on: where fdt_add_subnode_namelen puts the node. */
  function InsertPoint(s: seq<byte>, o: nat): (x: nat)
    ensures x < |s| + 4 || x == o
    decreases if o < |s| then |s| - o else 0
  {
    var r := NextTag(s, o);
    if r.Tok? && (r.token.Prop? || r.token.Nop?) then InsertPoint(s, r.next) else o
  }

  /** A node without content, as fdt_add_subnode_namelen writes it. */
  function NodeBytes(name: seq<byte>): (r: seq<byte>)
    ensures |r| == 8 + Align4(|name| + 1)
  {
    Be32(FDT_BEGIN_NODE) + name + seq(Align4(|name| + 1) - |name|, i => 0) + Be32(FDT_END_NODE)
  }

  /** fdt_add_subnode: the new node's offset. */
  function AddSubnode(b: Blob, parent: nat, name: seq<byte>): (r: Out<nat>)
    ensures |r.blob.data| == |b.data|
  {
    if b.Probe().Err? then Out(Err(b.Probe().error), b)
    else
      match FindChild(b.Struct(), parent, name)
      case Ok(_) => Out(Err(Exists), b)
      case Err(e) =>
        if e != NotFound then Out(Err(e), b)
        else
          var x := InsertPoint(b.Struct(), CheckNode(b.Struct(), parent).value);
          var s := SpliceStruct(b, x, 0, |NodeBytes(name)|);
          if s.Err? then Out(Err(s.error), b)
          else Out(Ok(x), s.value.(data := Poke(s.value.data, b.offStruct + x, NodeBytes(name))))
  }

  /** fdt_del_node. */
  function DelNode(b: Blob, node: nat): (r: Out<()>)
    ensures |r.blob.data| == |b.data|
  {
    if b.Probe().Err? then Out(b.Probe(), b)
    else
      match NodeEnd(b.Struct(), node)
      case Err(e) => Out(Err(e), b)
      case Ok(e) => Deliver(b, (), SpliceStruct(b, node, e - node, 0))
  }

  /** `k` NOP words. */
  function Nops(k: nat): (r: seq<byte>)
    ensures |r| == 4 * k
  {
    if k == 0 then [] else Be32(FDT_NOP) + Nops(k - 1)
  }

  /** fdt_nop_region_ on whole words; nothing keeps them inside the buffer. */
  function Blanked(b: Blob, x: nat, words: nat): (r: Out<()>)
    ensures |r.blob.data| == |b.data|
    ensures r.r == Err(Wild) <==> b.offStruct + x + 4 * words > |b.data|
  {
    if b.offStruct + x + 4 * words > |b.data| then Out(Err(Wild), b)
    else Out(Ok(()), b.(data := Poke(b.data, b.offStruct + x, Nops(words))))
  }

  /** fdt_nop_property. */
  function NopProperty(b: Blob, node: nat, name: seq<byte>): (r: Out<()>)
    requires b.Ordered()
    ensures |r.blob.data| == |b.data|
  {
    NopPropertyAt(b, FindProp(b.Struct(), b.Strings(), node, name))
  }

  function NopPropertyAt(b: Blob, f: Result<nat>): (r: Out<()>)
    requires b.Ordered() && (f.Ok? ==> Fits(b, f.value))
    ensures |r.blob.data| == |b.data|
  {
    match f
    case Err(e) => Out(Err(e), b)
    case Ok(x) => Blanked(b, x, 3 + Align4(Word(b.Struct(), x + 4)) / 4)
  }

  /** fdt_nop_node. */
  function NopNode(b: Blob, node: nat): (r: Out<()>)
    requires b.Ordered()
    ensures |r.blob.data| == |b.data|
  {
    match NodeEnd(b.Struct(), node)
    case Err(e) => Out(Err(e), b)
    case Ok(e) => Blanked(b, node, (e - node) / 4)
  }

  /** fdt_setprop_inplace_namelen_partial: index and length are added in 32 bits. */
  function SetInplace(b: Blob, node: nat, name: seq<byte>, idx: u32, val: seq<byte>): (r: Out<()>)
    requires b.Ordered() && |val| < INT32_MAX
    ensures |r.blob.data| == |b.data| && r.blob == b.(data := r.blob.data)
  {
    SetInplaceAt(b, FindProp(b.Struct(), b.Strings(), node, name), idx, val)
  }

  function SetInplaceAt(b: Blob, f: Result<nat>, idx: u32, val: seq<byte>): (r: Out<()>)
    requires b.Ordered() && |val| < INT32_MAX && (f.Ok? ==> Fits(b, f.value))
    ensures |r.blob.data| == |b.data| && r.blob == b.(data := r.blob.data)
  {
    match f
    case Err(e) => Out(Err(e), b)
    case Ok(x) =>
      var len := Word(b.Struct(), x + 4);
      if len < Wrap(|val| + idx) then Out(Err(NoSpace), b)
      else if len < |val| + idx then Out(Err(Wild), b)
      else Out(Ok(()), b.(data := Poke(b.data, b.offStruct + x + 12 + idx, val)))
  }
}
