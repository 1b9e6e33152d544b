/**
 The header check (libfdt/fdt.c) and the walk of fdt_check_full (libfdt/fdt_check.c).
 */
module FdtCheck {
  import opened Bytes
  import opened FdtTokens
  import opened FdtTree

  // ---------- The header ----------

  const FDT_MAGIC: u32 := 0xd00d_feed

  datatype Header = Header(
    magic: u32, totalsize: u32, offStruct: u32, offStrings: u32, offRsv: u32,
    version: u32, lastComp: u32, sizeStrings: u32, sizeStruct: u32)

  function HeaderSize(version: u32): nat {
    if version <= 1 then 28 else if version <= 2 then 32 else if version <= 16 then 36 else 40
  }

  predicate CheckOff(hdr: nat, total: u32, off: u32) { hdr <= off <= total }

  /** check_block_, with the sum in 32 bits. */
  predicate CheckBlock(hdr: nat, total: u32, base: u32, size: u32) {
    && CheckOff(hdr, total, base)
    && !(Wrap(base + size) < base)
    && CheckOff(hdr, total, Wrap(base + size))
  }

  /** fdt_check_header at an aligned address. */
  function CheckHeader(h: Header): (r: Result<()>) {
    var hdr := HeaderSize(h.version);
    if h.magic != FDT_MAGIC then Err(BadMagic)
    else if h.version < 2 || h.lastComp > 17 || h.version < h.lastComp then Err(BadVersion)
    else if h.totalsize < hdr || h.totalsize > 0x7FFF_FFFF || !CheckOff(hdr, h.totalsize, h.offRsv) then Err(Truncated)
    else if h.version < 17 && !CheckOff(hdr, h.totalsize, h.offStruct) then Err(Truncated)
    else if h.version >= 17 && !CheckBlock(hdr, h.totalsize, h.offStruct, h.sizeStruct) then Err(Truncated)
    else if !CheckBlock(hdr, h.totalsize, h.offStrings, h.sizeStrings) then Err(Truncated)
    else Ok(())
  }

  /** Every block of a version 17 blob that passes lies inside it, as plain integers. */
  lemma {:induction false} CheckHeaderBounds(h: Header)
    requires h.version >= 17
    ensures CheckHeader(h).Ok? <==>
      && h.magic == FDT_MAGIC && h.lastComp <= 17 && 40 <= h.totalsize <= 0x7FFF_FFFF && 40 <= h.offRsv <= h.totalsize
      && 40 <= h.offStruct && h.offStruct + h.sizeStruct <= h.totalsize
      && 40 <= h.offStrings && h.offStrings + h.sizeStrings <= h.totalsize
  {
    forall base: u32, size: u32 ensures CheckBlock(40, h.totalsize, base, size) && h.totalsize <= 0x7FFF_FFFF <==>
      40 <= base && base + size <= h.totalsize <= 0x7FFF_FFFF {
      assert base + size < 0x1_0000_0000 ==> Wrap(base + size) == base + size;
      assert base + size >= 0x1_0000_0000 ==> Wrap(base + size) == base + size - 0x1_0000_0000;
    }
  }

  // ---------- What a sound token stream is ----------

  function Delta(t: Token): int { if t.BeginNode? then 1 else if t.EndNode? then -1 else 0 }

  /** Nodes opened minus nodes closed. */
  function Depth(ts: seq<Token>): (r: int)
    decreases |ts|
  {
    if ts == [] then 0 else Delta(ts[0]) + Depth(ts[1..])
  }

  /** Starting at depth `d`, the stream comes back to zero with its last token and not before. */
  ghost predicate ClosesAtEnd(ts: seq<Token>, d: nat) {
    d + Depth(ts) == 0 && forall i :: 0 <= i < |ts| ==> d + Depth(ts[..i]) >= 1
  }

  predicate Leaf(t: Token) { t.Prop? || t.Nop? }

  /** Leaves, then at most one node, whose name is empty and which reaches to the end. */
  ghost predicate OneRoot(ts: seq<Token>) {
    exists k :: 0 <= k <= |ts| && (forall i :: 0 <= i < k ==> Leaf(ts[i])) && RootFrom(ts, k)
  }

  ghost predicate RootFrom(ts: seq<Token>, k: nat)
    requires k <= |ts|
  {
    k == |ts| || (ts[k] == BeginNode([]) && ClosesAtEnd(ts[k + 1..], 1))
  }

  ghost predicate Resolved(strs: seq<byte>, ts: seq<Token>) {
    forall i :: 0 <= i < |ts| && ts[i].Prop? ==> GetString(strs, ts[i].nameoff).Ok?
  }

  /** The blob is sound: its tokens end in FDT_END, form one root and have names. */
  ghost predicate Sound(s: seq<byte>, strs: seq<byte>) {
    Scan(s, 0).Ok? && Resolved(strs, Scan(s, 0).value) && OneRoot(Scan(s, 0).value)
  }

  // ---------- The walk ----------

  /** The rest of fdt_check_full's loop from one of its states. */
  function Judge(s: seq<byte>, strs: seq<byte>, o: nat, depth: nat, expectEnd: bool): (r: Result<()>)
    decreases if o < |s| then |s| - o else 0
  {
    match NextTag(s, o)
    case Bad(e) => Err(e)
    case Tok(t, n) =>
      if expectEnd && !t.End? then Err(BadStructure)
      else match t
        case Nop => Judge(s, strs, n, depth, expectEnd)
        case End => if depth != 0 then Err(BadStructure) else Ok(())
        case BeginNode(name) =>
          if depth == 0 && name != [] then Err(BadStructure) else Judge(s, strs, n, depth + 1, expectEnd)
        case EndNode =>
          if depth == 0 then Err(BadStructure) else Judge(s, strs, n, depth - 1, expectEnd || depth == 1)
        case Prop(off, _) =>
          var name := GetString(strs, off);
          if name.Err? then Err(name.error) else Judge(s, strs, n, depth, expectEnd)
  }

  /** fdt_check_full behind its header and reserve-map checks. It accepts exactly the sound blobs. */
  method CheckFull(s: seq<byte>, strs: seq<byte>) returns (r: Result<()>)
    ensures r.Ok? <==> Sound(s, strs)
  {
    JudgeExact(s, strs);
    var nextoffset, depth, expectEnd := 0, 0, false;
    while true
      invariant Judge(s, strs, 0, 0, false) == Judge(s, strs, nextoffset, depth, expectEnd)
      decreases if nextoffset < |s| then |s| - nextoffset else 0
    {
      var step := NextTag(s, nextoffset);
      if step.Bad? { return Err(step.error); }
      if expectEnd && !step.token.End? { return Err(BadStructure); }
      match step.token {
        case Nop =>
        case End =>
          if depth != 0 { return Err(BadStructure); }
          return Ok(());
        case BeginNode(name) =>
          if depth == 0 && name != [] { return Err(BadStructure); }
          depth := depth + 1;
        case EndNode =>
          if depth == 0 { return Err(BadStructure); }
          depth := depth - 1;
          if depth == 0 { expectEnd := true; }
        case Prop(off, _) =>
          var name := GetString(strs, off);
          if name.Err? { return Err(name.error); }
      }
      nextoffset := step.next;
    }
  }

  // ---------- It is exact ----------

  ghost predicate Fine(ts: seq<Token>, depth: nat, expectEnd: bool) {
    if expectEnd then ts == [] && depth == 0 else if depth == 0 then OneRoot(ts) else ClosesAtEnd(ts, depth)
  }

  lemma {:induction false} ClosesStep(t: Token, ts: seq<Token>, d: nat)
    requires d >= 1
    ensures ClosesAtEnd([t] + ts, d) <==>
      d + Delta(t) >= 0 && (if d + Delta(t) == 0 then ts == [] else ClosesAtEnd(ts, d + Delta(t)))
  {
    var us := [t] + ts;
    assert us[1..] == ts && us[..0] == [];
    forall i | 0 <= i < |ts| ensures Depth(us[..i + 1]) == Delta(t) + Depth(ts[..i]) {
      var vs := us[..i + 1];
      assert vs[0] == t && vs[1..] == ts[..i] && Depth(vs) == Delta(vs[0]) + Depth(vs[1..]);
    }
    if ClosesAtEnd(us, d) {
      if ts != [] { assert d + Depth(us[..1]) >= 1; assert ts[..0] == []; }
      forall i | 0 <= i < |ts| ensures d + Delta(t) + Depth(ts[..i]) >= 1 { assert d + Depth(us[..i + 1]) >= 1; }
    } else if d + Delta(t) > 0 && ClosesAtEnd(ts, d + Delta(t)) {
      forall i | 0 <= i < |us| ensures d + Depth(us[..i]) >= 1 {
        if i > 0 { assert Depth(us[..(i - 1) + 1]) == Delta(t) + Depth(ts[..i - 1]); }
      }
    }
  }

  lemma {:induction false} OneRootStep(t: Token, ts: seq<Token>)
    ensures Leaf(t) ==> (OneRoot([t] + ts) <==> OneRoot(ts))
    ensures t.BeginNode? ==> (OneRoot([t] + ts) <==> t.name == [] && ClosesAtEnd(ts, 1))
    ensures t.EndNode? || t.End? ==> !OneRoot([t] + ts)
  {
    var us := [t] + ts;
    hide ClosesAtEnd;
    if OneRoot(us) {
      var k :| 0 <= k <= |us| && (forall i :: 0 <= i < k ==> Leaf(us[i])) && RootFrom(us, k);
      if k == 0 {
        assert us[1..] == ts;
      } else {
        assert Leaf(us[0]);
        assert us[k..] == ts[k - 1..] && (k < |us| ==> us[k + 1..] == ts[k..]);
        assert RootFrom(ts, k - 1);
        assert forall i :: 0 <= i < k - 1 ==> ts[i] == us[i + 1];
      }
    }
    if Leaf(t) && OneRoot(ts) {
      var k :| 0 <= k <= |ts| && (forall i :: 0 <= i < k ==> Leaf(ts[i])) && RootFrom(ts, k);
      assert k < |ts| ==> us[k + 2..] == ts[k + 1..];
      assert RootFrom(us, k + 1);
      assert forall i :: 0 <= i < k + 1 ==> us[i] == if i == 0 then t else ts[i - 1];
    }
    if t.BeginNode? && t.name == [] && ClosesAtEnd(ts, 1) {
      assert us[1..] == ts;
      assert RootFrom(us, 0);
    }
  }

  lemma {:induction false} JudgeIs(s: seq<byte>, strs: seq<byte>, o: nat, depth: nat, expectEnd: bool)
    requires expectEnd ==> depth == 0
    ensures Judge(s, strs, o, depth, expectEnd).Ok? <==>
      Scan(s, o).Ok? && Resolved(strs, Scan(s, o).value) && Fine(Scan(s, o).value, depth, expectEnd)
    decreases if o < |s| then |s| - o else 0
  {
    hide NextTag, GetString, ClosesAtEnd, OneRoot;
    var step := NextTag(s, o);
    if step.Bad? {
    } else if step.token.End? {
      NothingLeft(depth);
    } else {
      var t, n := step.token, step.next;
      JudgeIs(s, strs, n, depth, expectEnd);
      if !expectEnd && t.BeginNode? { JudgeIs(s, strs, n, depth + 1, false); }
      if !expectEnd && t.EndNode? && depth > 0 { JudgeIs(s, strs, n, depth - 1, depth == 1); }
      if Scan(s, n).Ok? {
        var ts := Scan(s, n).value;
        ResolvedStep(strs, t, ts);
        if depth == 0 { OneRootStep(t, ts); } else { ClosesStep(t, ts, depth); }
      }
    }
  }

  lemma {:induction false} NothingLeft(depth: nat)
    ensures OneRoot([]) && (depth > 0 ==> !ClosesAtEnd([], depth))
  {
    assert RootFrom([], 0);
  }

  lemma {:induction false} ResolvedStep(strs: seq<byte>, t: Token, ts: seq<Token>)
    ensures Resolved(strs, [t] + ts) <==> (t.Prop? ==> GetString(strs, t.nameoff).Ok?) && Resolved(strs, ts)
  {
    hide GetString;
    var us := [t] + ts;
    assert us[0] == t;
    if Resolved(strs, us) {
      forall i | 0 <= i < |ts| && ts[i].Prop? ensures GetString(strs, ts[i].nameoff).Ok? { assert us[i + 1] == ts[i]; }
    }
  }

  lemma {:induction false} JudgeExact(s: seq<byte>, strs: seq<byte>)
    ensures Judge(s, strs, 0, 0, false).Ok? <==> Sound(s, strs)
  {
    hide Judge, OneRoot;
    JudgeIs(s, strs, 0, 0, false);
  }
}
