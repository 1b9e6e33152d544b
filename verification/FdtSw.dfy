/**
 The sequential writer (libfdt/fdt_sw.c): structure block growing up, string table growing
 down, and fdt_finish, which closes the gap and turns the name offsets round.
 */
module FdtSw {
  import opened Bytes
  import opened FdtTokens
  import opened FdtBlob

  const HEADER_SIZE := 48

  datatype Phase = MemRsv | Structure | Complete

  /** An unfinished blob. `data` is the whole buffer, totalsize bytes. */
  datatype Writer = Writer(data: seq<byte>, dedup: bool, phase: Phase, offStruct: nat, sizeStruct: nat,
                           sizeStrings: nat) {

    /** The two growing blocks are inside the buffer and do not overlap. */
    predicate Apart() {
      && |data| < INT32_MAX
      && HEADER_SIZE <= offStruct && sizeStruct % 4 == 0 && offStruct + sizeStruct + sizeStrings <= |data|
      && (phase == Structure ==> HEADER_SIZE + 16 <= offStruct)
      && (phase == MemRsv ==> sizeStruct == 0 && sizeStrings == 0)
    }

    function Top(): nat { offStruct + sizeStruct }

    function Struct(): (s: seq<byte>)
      requires Apart()
      ensures |s| == sizeStruct
    {
      data[offStruct..offStruct + sizeStruct]
    }

    function Strings(): (s: seq<byte>)
      requires Apart()
      ensures |s| == sizeStrings
    {
      data[|data| - sizeStrings..]
    }
  }

  function Zeros(n: nat): (s: seq<byte>)
    ensures |s| == n
  {
    seq(n, i => 0)
  }

  datatype Done = Done(r: Result<()>, w: Writer)

  /** fdt_create_with_flags on a buffer of `size` bytes. */
  function Create(size: nat, dedup: bool): (r: Result<Writer>)
    requires size < INT32_MAX
    ensures r.Ok? <==> HEADER_SIZE <= size
    ensures r.Ok? ==> r.value.Apart() && r.value.phase == MemRsv
  {
    if size < HEADER_SIZE then Err(NoSpace)
    else Ok(Writer(Zeros(size), dedup, MemRsv, HEADER_SIZE, 0, 0))
  }

  /** fdt_add_reservemap_entry with the sixteen bytes of the entry. */
  function AddReserve(w: Writer, entry: seq<byte>): (r: Done)
    requires w.Apart() && |entry| == 16
    ensures r.w.Apart() && r.w.phase == w.phase && (r.r.Ok? ==> HEADER_SIZE + 16 <= r.w.offStruct)
  {
    if w.phase != MemRsv then Done(Err(BadState), w)
    else if w.offStruct + 16 > |w.data| then Done(Err(NoSpace), w)
    else Done(Ok(()), w.(data := Poke(w.data, w.offStruct, entry), offStruct := w.offStruct + 16))
  }

  /** fdt_finish_reservemap. */
  function FinishReserve(w: Writer): (r: Done)
    requires w.Apart()
    ensures r.w.Apart() && (r.r.Ok? ==> r.w.phase == Structure && r.w.sizeStruct == 0 && r.w.sizeStrings == 0)
  {
    var d := AddReserve(w, Zeros(16));
    if d.r.Err? then d else Done(Ok(()), d.w.(phase := Structure))
  }

  /** fdt_grab_space_ for `len` bytes and a store of `v` at their start. */
  function Grab(w: Writer, len: nat, v: seq<byte>): (r: Done)
    requires w.Apart() && |v| <= len && len % 4 == 0 && w.phase == Structure
    ensures r.w.Apart() && r.w.phase == Structure && |r.w.data| == |w.data|
    ensures r.r.Ok? <==> w.Top() + len + w.sizeStrings <= |w.data|
    ensures r.r.Err? ==> r == Done(Err(NoSpace), w)
  {
    if w.sizeStruct + len > |w.data| - w.offStruct - w.sizeStrings then Done(Err(NoSpace), w)
    else Done(Ok(()), w.(data := Poke(w.data, w.Top(), v), sizeStruct := w.sizeStruct + len))
  }

  /** fdt_begin_node. */
  function OpenNode(w: Writer, name: seq<byte>): (r: Done)
    requires w.Apart()
    ensures r.w.Apart()
  {
    if w.phase != Structure then Done(Err(BadState), w)
    else Grab(w, 4 + Align4(|name| + 1), Be32(FDT_BEGIN_NODE) + name + [0])
  }

  /** fdt_end_node. */
  function CloseNode(w: Writer): (r: Done)
    requires w.Apart()
    ensures r.w.Apart()
  {
    if w.phase != Structure then Done(Err(BadState), w) else Grab(w, 4, Be32(FDT_END_NODE))
  }

  /** fdt_add_string_: the name goes in front of the table. The room is computed in 32 bits without sign. */
  function AddString(w: Writer, name: seq<byte>): (r: Done)
    requires w.Apart() && w.phase == Structure && |name| < INT32_MAX
    ensures r.w.Apart() && r.w.phase == Structure && |r.w.data| == |w.data|
    ensures r.r.Err? ==> r.w == w && r.r.error in {NoSpace, Wild}
    ensures r.r == Err(Wild) <==> w.sizeStrings + |name| + 1 > |w.data|
  {
    var offset := w.sizeStrings + |name| + 1;
    if Wrap(|w.data| - offset) < w.Top() then Done(Err(NoSpace), w)
    else if offset > |w.data| then Done(Err(Wild), w)
    else Done(Ok(()), w.(data := Poke(w.data, |w.data| - offset, name + [0]), sizeStrings := offset))
  }

  /** The name is in the table, or the buffer could hold it beside the table. */
  predicate NameFits(w: Writer, name: seq<byte>)
    requires w.Apart()
  {
    (w.dedup && FindString(w.Strings(), name, 0).Ok?) || w.sizeStrings + |name| + 1 <= |w.data|
  }

  /** The name's distance from the end of the table, and the writer that holds it. */
  function NameOf(w: Writer, name: seq<byte>): (r: (Result<nat>, Writer))
    requires w.Apart() && w.phase == Structure && |name| < INT32_MAX
    ensures r.1.Apart() && r.1.phase == Structure && |r.1.data| == |w.data|
    ensures r.0.Ok? ==> 1 <= r.0.value <= r.1.sizeStrings
    ensures r.0.Err? ==> r.1 == w && r.0.error in {NoSpace, Wild}
  {
    var f := if w.dedup then FindString(w.Strings(), name, 0) else Err(NotFound);
    if f.Ok? then (Ok(w.sizeStrings - f.value), w)
    else
      var a := AddString(w, name);
      if a.r.Err? then (Err(a.r.error), w) else (Ok(a.w.sizeStrings), a.w)
  }

  /** fdt_property: name, header and value, or the name taken back again. */
  function AddProp(w: Writer, name: seq<byte>, val: seq<byte>): (r: Done)
    requires w.Apart() && |name| < INT32_MAX && |val| < INT32_MAX
    ensures r.w.Apart()
  {
    if w.phase != Structure then Done(Err(BadState), w)
    else
      var n := NameOf(w, name);
      if n.0.Err? then Done(Err(n.0.error), w)
      else
        var g := Grab(n.1, 12 + Align4(|val|), PropHeader(|val|, 0x1_0000_0000 - n.0.value) + val);
        if g.r.Err? then Done(Err(NoSpace), n.1.(sizeStrings := w.sizeStrings)) else g
  }

  /**
   fdt_property is undefined exactly for a name that is not in the table and not shorter than the
   buffer beside it.
   */
  lemma {:induction false} WildExactly(w: Writer, name: seq<byte>, val: seq<byte>)
    requires w.Apart() && |name| < INT32_MAX && |val| < INT32_MAX
    ensures AddProp(w, name, val).r == Err(Wild) <==> w.phase == Structure && !NameFits(w, name)
  {
    hide NameFits, NameOf, Grab, PropHeader, Align4;
    if w.phase == Structure { NameWild(w, name); }
  }

  lemma {:induction false} NameWild(w: Writer, name: seq<byte>)
    requires w.Apart() && w.phase == Structure && |name| < INT32_MAX
    ensures NameOf(w, name).0 == Err(Wild) <==> !NameFits(w, name)
  {
    hide FindString, AddString;
  }

  /** fdt_resize into a buffer whose other bytes are `junk`. */
  function Resized(w: Writer, size: nat, junk: seq<byte>): (r: Done)
    requires w.Apart() && size < INT32_MAX && |junk| == size
    ensures r.w.Apart()
  {
    if w.Top() + w.sizeStrings > size then Done(Err(NoSpace), w)
    else Done(Ok(()),
      w.(data := w.data[..w.Top()] + junk[w.Top()..size - w.sizeStrings] + w.data[|w.data| - w.sizeStrings..]))
  }

  // ---------- fdt_finish ----------

  /** Turn every name offset from the end of the table into one from its start. */
  function FixNames(s: seq<byte>, o: nat, size: nat): (r: Result<seq<byte>>)
    ensures r.Ok? ==> |r.value| == |s|
    decreases if o < |s| then |s| - o else 0
  {
    match NextTag(s, o)
    case Bad(e) => Err(e)
    case Tok(t, n) =>
      if t.End? then Ok(s)
      else if t.Prop? then FixNames(Poke(s, o + 8, Be32(Wrap(t.nameoff + size))), n, size)
      else FixNames(s, n, size)
  }

  function Finish(w: Writer): (r: Result<Blob>)
    requires w.Apart()
  {
    if w.phase != Structure then Err(BadState)
    else
      var g := Grab(w, 4, Be32(FDT_END));
      if g.r.Err? then Err(NoSpace)
      else
        var c := g.w;
        match FixNames(c.Struct(), 0, c.sizeStrings)
        case Err(e) => Err(e)
        case Ok(s) =>
          Ok(Blob(c.data[..c.offStruct] + s + c.Strings(), HEADER_SIZE, c.offStruct, c.sizeStruct, c.Top(),
            c.sizeStrings))
  }
}
