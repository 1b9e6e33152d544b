/**
 Whole runs of the sequential writer, failing calls and moves of the buffer included, and
 the round trip through fdt_finish.
 */
module FdtSwRun {
  import opened Bytes
  import opened Seqs
  import opened FdtTokens
  import opened FdtTree
  import opened FdtNode
  import opened FdtBlob
  import opened FdtMoves
  import opened FdtSplice
  import opened FdtSw
  import opened FdtSwProof

  datatype Op =
    | OpenOp(name: seq<byte>)
    | PropOp(name: seq<byte>, val: seq<byte>)
    | CloseOp
    | ResizeOp(size: nat, junk: seq<byte>)

  /** Names are C strings, and a new property name is not longer than the buffer: then no call is undefined. */
  predicate Admissible(w: Writer, op: Op)
    requires w.Apart()
  {
    match op
    case OpenOp(name) => IsCString(name)
    case PropOp(name, val) => IsCString(name) && |name| < INT32_MAX && |val| < INT32_MAX && NameFits(w, name)
    case CloseOp => true
    case ResizeOp(size, junk) => size < INT32_MAX && |junk| == size
  }

  function Do(w: Writer, op: Op): (r: Done)
    requires w.Apart() && Admissible(w, op)
    ensures r.w.Apart()
  {
    match op
    case OpenOp(name) => OpenNode(w, name)
    case PropOp(name, val) => AddProp(w, name, val)
    case CloseOp => CloseNode(w)
    case ResizeOp(size, junk) => Resized(w, size, junk)
  }

  /** What a successful call adds for the reader. */
  function Effect(op: Op): (r: seq<Sym>) {
    match op
    case OpenOp(name) => [Open(name)]
    case PropOp(name, val) => [Attr(Property(name, val))]
    case CloseOp => [Close]
    case ResizeOp(_, _) => []
  }

  /** `v` keeps every token and live string of `w`, at the same distances. */
  ghost predicate Keeps(w: Writer, v: Writer)
    requires w.Apart()
  {
    && v.Apart() && v.offStruct == w.offStruct && v.phase == w.phase && v.dedup == w.dedup
    && v.sizeStruct >= w.sizeStruct && v.sizeStrings >= w.sizeStrings
    && v.Struct()[..w.sizeStruct] == w.Struct() && v.Strings()[v.sizeStrings - w.sizeStrings..] == w.Strings()
    && v.data[..w.offStruct] == w.data[..w.offStruct]
  }

  /** A call adds `us`, which reads as `out`, or fails and leaves both blocks alone. */
  ghost predicate Stepped(w: Writer, ts: seq<Token>, r: Done, us: seq<Token>, out: seq<Sym>) {
    && Holds(w, ts) && Holds(r.w, ts + us) && Keeps(w, r.w) && Nop !in us
    && Written(r.w, ts + us) == Written(w, ts) + (if r.r.Ok? then out else [])
    && (r.r.Err? ==> us == [] && r.w.Struct() == w.Struct() && r.w.Strings() == w.Strings())
  }

  lemma {:induction false} StepFailed(w: Writer, ts: seq<Token>, r: Done, out: seq<Sym>)
    requires Holds(w, ts) && r.r.Err? && r.w == w
    ensures Stepped(w, ts, r, [], out)
  {
    hide Walk, Syms;
    assert ts + [] == ts;
    assert Written(w, ts) + [] == Written(w, ts);
  }

  lemma {:induction false} GrabStep(w: Writer, ts: seq<Token>, len: nat, v: seq<byte>, t: Token, out: seq<Sym>)
    requires Holds(w, ts) && |v| <= len && len % 4 == 0 && !t.Nop?
    requires t.Prop? ==> t.nameoff + w.sizeStrings >= 0x1_0000_0000
    requires forall g: seq<byte> | |g| == len && g[..|v|] == v :: Walk(g, 0, [t], |g|)
    requires Syms(w.Strings(), Fixed([t], w.sizeStrings)) == out
    ensures var r := Grab(w, len, v); Stepped(w, ts, r, if r.r.Ok? then [t] else [], out)
  {
    hide Walk, Syms, Fixed;
    var r := Grab(w, len, v);
    if r.r.Ok? {
      GrabHolds(w, ts, len, v, t);
      GrabBlocks(w, len, v);
      hide Holds;
    } else {
      StepFailed(w, ts, r, out);
    }
  }

  lemma {:induction false} OpenStep(w: Writer, ts: seq<Token>, name: seq<byte>) returns (us: seq<Token>)
    requires Holds(w, ts) && IsCString(name)
    ensures Stepped(w, ts, OpenNode(w, name), us, [Open(name)])
  {
    hide Walk, Syms, Fixed, Align4, Be32;
    var v := Be32(FDT_BEGIN_NODE) + name + [0];
    var len := 4 + Align4(|name| + 1);
    forall g: seq<byte> | |g| == len && g[..|v|] == v ensures Walk(g, 0, [Token.BeginNode(name)], |g|) {
      assert g[0..4] == v[0..4] && g[4..4 + |name|] == v[4..4 + |name|] && g[4 + |name|] == v[4 + |name|];
      BeginToken(g, name);
    }
    FixedOther(Token.BeginNode(name), w.sizeStrings);
    SymsOne(w.Strings(), Token.BeginNode(name));
    SymsOfBegin(w.Strings(), name);
    GrabStep(w, ts, len, v, Token.BeginNode(name), [Open(name)]);
    us := if Grab(w, len, v).r.Ok? then [Token.BeginNode(name)] else [];
  }

  lemma {:induction false} FixedOther(t: Token, n: nat)
    requires !t.Prop?
    ensures Fixed([t], n) == [t]
  {
  }

  lemma {:induction false} CloseStep(w: Writer, ts: seq<Token>) returns (us: seq<Token>)
    requires Holds(w, ts)
    ensures Stepped(w, ts, CloseNode(w), us, [Close])
  {
    hide Walk, Syms, Fixed, Be32;
    var v := Be32(FDT_END_NODE);
    forall g: seq<byte> | |g| == 4 && g[..|v|] == v ensures Walk(g, 0, [Token.EndNode], |g|) {
      assert g == v;
      WordToken(g, FDT_END_NODE);
    }
    FixedOther(Token.EndNode, w.sizeStrings);
    SymsOne(w.Strings(), Token.EndNode);
    GrabStep(w, ts, 4, v, Token.EndNode, [Close]);
    us := if Grab(w, 4, v).r.Ok? then [Token.EndNode] else [];
  }

  // ---------- Properties ----------

  /** Looking up or adding the name changes no token and no meaning. */
  lemma {:induction false} NameStep(w: Writer, ts: seq<Token>, name: seq<byte>)
    requires Holds(w, ts) && IsCString(name) && |name| < INT32_MAX
    ensures var n := NameOf(w, name); Holds(n.1, ts) && Keeps(w, n.1) && Written(n.1, ts) == Written(w, ts)
  {
    hide Walk, Syms, Fixed, GetString, NameOf, NameFits;
    NameOfBlocks(w, name);
    var n := NameOf(w, name);
    WrittenStable(w.Strings(), n.1.Strings()[..n.1.sizeStrings - w.sizeStrings], ts);
  }

  lemma {:induction false} PropStep(w: Writer, ts: seq<Token>, name: seq<byte>, val: seq<byte>) returns (us: seq<Token>)
    requires Holds(w, ts) && Admissible(w, PropOp(name, val))
    ensures Stepped(w, ts, AddProp(w, name, val), us, [Attr(Property(name, val))])
  {
    hide Walk, Syms, Fixed, GetString, NameOf, Align4, PropHeader, Holds, Keeps, Grab;
    HoldsApart(w, ts);
    NameStep(w, ts, name);
    var n := NameOf(w, name);
    var r := AddProp(w, name, val);
    if n.0.Err? {
      StepFailed(w, ts, r, [Attr(Property(name, val))]);
      us := [];
    } else {
      var off := 0x1_0000_0000 - n.0.value;
      var len, v := 12 + Align4(|val|), PropHeader(|val|, off) + val;
      HoldsApart(n.1, ts);
      NameOfBlocks(w, name);
      PropEncodes(len, v, off, val);
      PropSymOf(n.1, off, name, val);
      GrabStep(n.1, ts, len, v, Prop(off, val), [Attr(Property(name, val))]);
      us := if Grab(n.1, len, v).r.Ok? then [Prop(off, val)] else [];
      if Grab(n.1, len, v).r.Ok? {
        StepTrans(w, ts, n.1, r, us, [Attr(Property(name, val))]);
      } else {
        NameUndone(w, ts, name);
        StepUndone(w, ts, r, [Attr(Property(name, val))]);
      }
    }
  }

  lemma {:induction false} HoldsApart(w: Writer, ts: seq<Token>)
    requires Holds(w, ts)
    ensures w.Apart() && w.phase == Structure && NamesInside(ts, w.sizeStrings)
  {
  }

  lemma {:induction false} PropEncodes(len: nat, v: seq<byte>, off: u32, val: seq<byte>)
    requires |val| < INT32_MAX && len == 12 + Align4(|val|) && v == PropHeader(|val|, off) + val
    ensures forall g: seq<byte> | |g| == len && g[..|v|] == v :: Walk(g, 0, [Prop(off, val)], |g|)
  {
    hide Walk, Be32, Align4;
    forall g: seq<byte> | |g| == len && g[..|v|] == v ensures Walk(g, 0, [Prop(off, val)], |g|) {
      assert g[0..4] == v[0..4] && g[4..8] == v[4..8] && g[8..12] == v[8..12] && g[12..12 + |val|] == v[12..];
      assert v[0..4] == Be32(FDT_PROP) && v[4..8] == Be32(|val|) && v[8..12] == Be32(off) && v[12..] == val;
      WordOfBe32(g, 0, FDT_PROP);
      WordOfBe32(g, 4, |val|);
      WordOfBe32(g, 8, off);
      hide Word;
      PropToken(g, off, val);
    }
  }

  lemma {:induction false} PropSymOf(w: Writer, off: u32, name: seq<byte>, val: seq<byte>)
    requires w.Apart() && off + w.sizeStrings >= 0x1_0000_0000
    requires GetString(w.Strings(), off + w.sizeStrings - 0x1_0000_0000) == Ok(name)
    ensures Syms(w.Strings(), Fixed([Prop(off, val)], w.sizeStrings)) == [Attr(Property(name, val))]
  {
    hide GetString, Syms;
    var t := Prop(Wrap(off + w.sizeStrings), val);
    assert Wrap(off + w.sizeStrings) == off + w.sizeStrings - 0x1_0000_0000;
    assert Fixed([Prop(off, val)], w.sizeStrings) == [t];
    SymsOne(w.Strings(), t);
  }

  lemma {:induction false} StepTrans(w: Writer, ts: seq<Token>, v: Writer, r: Done, us: seq<Token>, out: seq<Sym>)
    requires Holds(w, ts) && Keeps(w, v) && Holds(v, ts) && Written(v, ts) == Written(w, ts)
    requires Stepped(v, ts, r, us, out) && r.r.Ok?
    ensures Stepped(w, ts, r, us, out)
  {
    hide Holds, Written;
    HoldsApart(w, ts);
  }

  /** fdt_del_last_string_ after a failed grab. */
  lemma {:induction false} NameUndone(w: Writer, ts: seq<Token>, name: seq<byte>)
    requires Holds(w, ts) && IsCString(name) && |name| < INT32_MAX
    ensures var v := NameOf(w, name).1.(sizeStrings := w.sizeStrings);
      v.Apart() && v.phase == w.phase && v.dedup == w.dedup && v.offStruct == w.offStruct && v.Struct() == w.Struct()
      && v.Strings() == w.Strings() && v.data[..w.offStruct] == w.data[..w.offStruct]
  {
    hide Walk, NameOf, Syms, GetString;
    NameOfBlocks(w, name);
  }

  lemma {:induction false} StepUndone(w: Writer, ts: seq<Token>, r: Done, out: seq<Sym>)
    requires Holds(w, ts) && r.r.Err? && r.w.Apart() && r.w.phase == w.phase && r.w.dedup == w.dedup
      && r.w.offStruct == w.offStruct
    requires r.w.Struct() == w.Struct() && r.w.Strings() == w.Strings()
      && r.w.data[..w.offStruct] == w.data[..w.offStruct]
    ensures Stepped(w, ts, r, [], out)
  {
    hide Walk, Syms;
    assert |r.w.Struct()| == |w.Struct()| && |r.w.Strings()| == |w.Strings()|;
    assert ts + [] == ts;
    assert Written(w, ts) + [] == Written(w, ts);
  }

  lemma {:induction false} ResizeStep(w: Writer, ts: seq<Token>, size: nat, junk: seq<byte>)
    requires Holds(w, ts) && size < INT32_MAX && |junk| == size
    ensures Stepped(w, ts, Resized(w, size, junk), [], [])
  {
    hide Walk, Syms;
    var r := Resized(w, size, junk);
    assert r.w.Struct() == w.Struct();
    assert r.w.Strings() == w.Strings();
    assert r.w.data[..w.offStruct] == w.data[..w.offStruct];
    assert ts + [] == ts;
    assert Written(w, ts) + [] == Written(w, ts);
  }

  // ---------- Runs ----------

  /** Every call of every run keeps what was written before it. */
  lemma {:induction false} DoCorrect(w: Writer, ts: seq<Token>, op: Op) returns (us: seq<Token>)
    requires Holds(w, ts) && Admissible(w, op)
    ensures Stepped(w, ts, Do(w, op), us, Effect(op))
  {
    hide Stepped, Holds, OpenNode, CloseNode, AddProp, Resized;
    match op
    case OpenOp(name) => us := OpenStep(w, ts, name);
    case PropOp(name, val) => us := PropStep(w, ts, name, val);
    case CloseOp => us := CloseStep(w, ts);
    case ResizeOp(size, junk) => us := []; ResizeStep(w, ts, size, junk);
  }

  predicate RunAdmissible(w: Writer, ops: seq<Op>)
    requires w.Apart()
    decreases |ops|
  {
    ops != [] ==> Admissible(w, ops[0]) && RunAdmissible(Do(w, ops[0]).w, ops[1..])
  }

  function Run(w: Writer, ops: seq<Op>): (r: Writer)
    requires w.Apart() && RunAdmissible(w, ops)
    ensures r.Apart()
    decreases |ops|
  {
    if ops == [] then w else Run(Do(w, ops[0]).w, ops[1..])
  }

  /** The effects of the calls that succeeded, in order. */
  function Log(w: Writer, ops: seq<Op>): (r: seq<Sym>)
    requires w.Apart() && RunAdmissible(w, ops)
    decreases |ops|
  {
    if ops == [] then []
    else
      var d := Do(w, ops[0]);
      (if d.r.Ok? then Effect(ops[0]) else []) + Log(d.w, ops[1..])
  }

  lemma {:induction false} RunCorrect(w: Writer, ts: seq<Token>, ops: seq<Op>) returns (us: seq<Token>)
    requires Holds(w, ts) && RunAdmissible(w, ops)
    ensures var v := Run(w, ops);
      && Holds(v, ts + us) && Keeps(w, v) && Nop !in us && Written(v, ts + us) == Written(w, ts) + Log(w, ops)
    decreases |ops|
  {
    hide Walk, Syms, Fixed, Do, Effect, Written, Holds, Keeps;
    HoldsApart(w, ts);
    if ops == [] {
      us := [];
      KeepsSelf(w);
      assert ts + us == ts && Written(w, ts) + [] == Written(w, ts);
    } else {
      var r := Do(w, ops[0]);
      var vs := DoCorrect(w, ts, ops[0]);
      var ws := RunCorrect(r.w, ts + vs, ops[1..]);
      us := vs + ws;
      assert ts + vs + ws == ts + us;
      KeepsTrans(w, r.w, Run(w, ops));
      Assoc(Written(w, ts), if r.r.Ok? then Effect(ops[0]) else [], Log(r.w, ops[1..]));
    }
  }

  lemma {:induction false} KeepsSelf(w: Writer)
    requires w.Apart()
    ensures Keeps(w, w)
  {
  }

  lemma {:induction false} KeepsTrans(u: Writer, v: Writer, w: Writer)
    requires u.Apart() && v.Apart() && Keeps(u, v) && Keeps(v, w)
    ensures Keeps(u, w)
  {
    assert w.Struct()[..u.sizeStruct] == w.Struct()[..v.sizeStruct][..u.sizeStruct];
    var x := w.Strings()[w.sizeStrings - v.sizeStrings..];
    assert w.Strings()[w.sizeStrings - u.sizeStrings..] == x[v.sizeStrings - u.sizeStrings..];
  }

  // ---------- Finishing ----------

  /** fdt_finish's walk rewrites the name offsets and nothing else. */
  lemma {:induction false} FixNamesCorrect(s: seq<byte>, o: nat, ts: seq<Token>, e: nat, size: nat)
    requires Walk(s, o, ts, e) && o % 4 == 0 && e + 4 <= |s| && NextTag(s, e) == Tok(End, e + 4)
    ensures var r := FixNames(s, o, size);
      && r.Ok? && Walk(r.value, o, Fixed(ts, size), e) && NextTag(r.value, e) == Tok(End, e + 4)
      && forall i :: 0 <= i < o ==> r.value[i] == s[i]
    decreases |ts|
  {
    hide NextTag, Be32;
    WalkBounds(s, o, ts, e);
    if ts == [] {
    } else {
      var n := NextTag(s, o).next;
      WalkBounds(s, n, ts[1..], e);
      var c := if ts[0].Prop? then FixOne(s, o, e, size) else s;
      if ts[0].Prop? {
        WalkLocal(s, n, ts[1..], e, c, 0);
      }
      FixNamesCorrect(c, n, ts[1..], e, size);
      var r := FixNames(c, n, size).value;
      assert Agree(c, o, n, r, 0);
      NextTagLocal(c, o, r, 0);
      assert Fixed(ts, size)[1..] == Fixed(ts[1..], size);
    }
  }

  /** One rewritten name offset: the token keeps its length and value, the rest its bytes. */
  ghost function FixOne(s: seq<byte>, o: nat, e: nat, size: nat): (c: seq<byte>)
    requires NextTag(s, o).Tok? && NextTag(s, o).token.Prop? && o % 4 == 0 && NextTag(s, o).next <= e && e + 4 <= |s|
    requires NextTag(s, e) == Tok(End, e + 4)
    ensures c == Poke(s, o + 8, Be32(Wrap(NextTag(s, o).token.nameoff + size)))
    ensures |c| == |s| && forall i :: 0 <= i < o ==> c[i] == s[i]
    ensures NextTag(c, o)
      == Tok(Prop(Wrap(NextTag(s, o).token.nameoff + size), NextTag(s, o).token.value), NextTag(s, o).next)
    ensures NextTag(c, e) == Tok(End, e + 4)
    ensures Agree(s, NextTag(s, o).next, |s|, c, 0)
  {
    FixOneCorrect(s, o, e, size);
    Poke(s, o + 8, Be32(Wrap(NextTag(s, o).token.nameoff + size)))
  }

  lemma {:induction false} FixOneCorrect(s: seq<byte>, o: nat, e: nat, size: nat)
    requires NextTag(s, o).Tok? && NextTag(s, o).token.Prop? && o % 4 == 0 && NextTag(s, o).next <= e && e + 4 <= |s|
    requires NextTag(s, e) == Tok(End, e + 4)
    ensures var t := NextTag(s, o); var c := Poke(s, o + 8, Be32(Wrap(t.token.nameoff + size)));
      && |c| == |s| && (forall i :: 0 <= i < o ==> c[i] == s[i])
      && NextTag(c, o) == Tok(Prop(Wrap(t.token.nameoff + size), t.token.value), t.next)
      && NextTag(c, e) == Tok(End, e + 4)
      && Agree(s, t.next, |s|, c, 0)
  {
    hide Be32, Poke;
    var t := NextTag(s, o);
    var off := Wrap(t.token.nameoff + size);
    var c := Poke(s, o + 8, Be32(off));
    PokeBytes(s, o + 8, Be32(off));
    WordOfBe32(c, o + 8, off);
    assert Word(c, o) == Word(s, o) && Word(c, o + 4) == Word(s, o + 4) && Word(c, e) == Word(s, e);
    hide Word;
    var len := Word(s, o + 4);
    SliceEq(s, c, o + 12, o + 12 + len);
  }

  /** A finished blob has exactly the tokens written, and reads as what was written. */
  lemma {:induction false} FinishCorrect(w: Writer, ts: seq<Token>)
    requires Holds(w, ts)
    ensures var r := Finish(w);
      && (r.Ok? <==> w.Top() + 4 + w.sizeStrings <= |w.data|)
      && (r.Err? ==> r.error == NoSpace)
      && (r.Ok? ==> var b := r.value;
           && b.Ordered() && Scan(b.Struct(), 0) == Ok(Fixed(ts, w.sizeStrings)) && b.Strings() == w.Strings()
           && |b.data| == b.DataSize() && b.data[..b.offStruct] == w.data[..w.offStruct])
  {
    hide NextTag, Walk, Be32, Fixed, Poke;
    var v := Be32(FDT_END);
    var g := Grab(w, 4, v);
    if g.r.Ok? {
      var c := g.w;
      GrabBlocks(w, 4, v);
      FinishWalk(w.Struct(), c.Struct(), ts);
      FixNamesCorrect(c.Struct(), 0, ts, w.sizeStruct, c.sizeStrings);
      var s := FixNames(c.Struct(), 0, c.sizeStrings).value;
      WalkScan(s, 0, Fixed(ts, w.sizeStrings), w.sizeStruct);
      ScanEnd(s, w.sizeStruct);
      assert Fixed(ts, w.sizeStrings) + [] == Fixed(ts, w.sizeStrings);
      var b := Finish(w).value;
      assert b.Struct() == s && b.Strings() == c.Strings();
    }
  }

  lemma {:induction false} ScanEnd(s: seq<byte>, e: nat)
    requires NextTag(s, e).Tok? && NextTag(s, e).token.End?
    ensures Scan(s, e) == Ok([])
  {
  }

  lemma {:induction false} FinishWalk(s: seq<byte>, c: seq<byte>, ts: seq<Token>)
    requires Walk(s, 0, ts, |s|) && |s| % 4 == 0 && |c| == |s| + 4 && c[..|s|] == s && c[|s|..|s| + 4] == Be32(FDT_END)
    ensures Walk(c, 0, ts, |s|) && NextTag(c, |s|) == Tok(End, |s| + 4)
  {
    hide Walk, Be32;
    assert forall i {:trigger s[i]} :: 0 <= i < |s| ==> c[i] == s[i];
    WalkLocal(s, 0, ts, |s|, c, 0);
    WordOfBe32(c, |s|, FDT_END);
  }

  /** The round trip: the symbols a finished blob decodes to are those of the calls that succeeded. */
  lemma {:induction false} RoundTrip(w: Writer, ops: seq<Op>)
    requires w.Apart() && w.phase == Structure && w.sizeStruct == 0 && w.sizeStrings == 0 && RunAdmissible(w, ops)
    ensures var r := Finish(Run(w, ops));
      r.Ok? ==> var b := r.value;
        && b.Ordered() && Scan(b.Struct(), 0).Ok? && Syms(b.Strings(), Scan(b.Struct(), 0).value) == Log(w, ops)
        && Nop !in Scan(b.Struct(), 0).value && b.data[..b.offStruct] == w.data[..w.offStruct]
  {
    hide Walk, Syms, Finish, Scan, NextTag;
    assert Holds(w, []) by { EmptyHolds(w); }
    var us := RunCorrect(w, [], ops);
    var v := Run(w, ops);
    assert [] + us == us;
    FinishCorrect(v, us);
    assert Written(w, []) == [] by { EmptyHolds(w); }
    assert [] + Log(w, ops) == Log(w, ops);
    FixedNop(us, v.sizeStrings);
  }

  lemma {:induction false} EmptyHolds(w: Writer)
    requires w.Apart() && w.phase == Structure && w.sizeStruct == 0 && w.sizeStrings == 0
    ensures Holds(w, []) && Written(w, []) == []
  {
  }

  lemma {:induction false} FixedNop(ts: seq<Token>, n: nat)
    requires Nop !in ts
    ensures Nop !in Fixed(ts, n)
  {
  }

  // ---------- From fdt_create on ----------

  function Join(es: seq<seq<byte>>): (r: seq<byte>) {
    if es == [] then [] else es[0] + Join(es[1..])
  }

  predicate Entries(es: seq<seq<byte>>) { forall i :: 0 <= i < |es| ==> |es[i]| == 16 }

  /** One fdt_add_reservemap_entry after the other. */
  function Reserves(w: Writer, es: seq<seq<byte>>): (r: Done)
    requires w.Apart() && Entries(es)
    ensures r.w.Apart() && r.w.phase == w.phase
    decreases |es|
  {
    if es == [] then Done(Ok(()), w)
    else
      var d := AddReserve(w, es[0]);
      if d.r.Err? then d else Reserves(d.w, es[1..])
  }

  /** The reserve map grows by exactly the entry, and fails only for want of room. */
  lemma {:induction false} ReserveOne(w: Writer, e: seq<byte>)
    requires w.Apart() && w.phase == MemRsv && |e| == 16
    ensures var d := AddReserve(w, e);
      && (d.r.Ok? <==> w.offStruct + 16 <= |w.data|)
      && (d.r.Ok? ==> d.w.offStruct == w.offStruct + 16 && |d.w.data| == |w.data|)
      && (d.r.Ok? ==> d.w.data[HEADER_SIZE..d.w.offStruct] == w.data[HEADER_SIZE..w.offStruct] + e)
  {
    hide Poke;
    if w.offStruct + 16 <= |w.data| {
      PokeBytes(w.data, w.offStruct, e);
      var d := Poke(w.data, w.offStruct, e);
      SliceEq(w.data, d, HEADER_SIZE, w.offStruct);
      assert d[HEADER_SIZE..w.offStruct + 16] == d[HEADER_SIZE..w.offStruct] + d[w.offStruct..w.offStruct + 16];
    }
  }

  lemma {:induction false} ReservesExact(w: Writer, es: seq<seq<byte>>)
    requires w.Apart() && w.phase == MemRsv && Entries(es)
    ensures var d := Reserves(w, es);
      && (d.r.Ok? <==> w.offStruct + 16 * |es| <= |w.data|)
      && (d.r.Ok? ==> d.w.offStruct == w.offStruct + 16 * |es| && |d.w.data| == |w.data|)
      && (d.r.Ok? ==> d.w.data[HEADER_SIZE..d.w.offStruct] == w.data[HEADER_SIZE..w.offStruct] + Join(es))
    decreases |es|
  {
    hide AddReserve;
    if es != [] {
      ReserveOne(w, es[0]);
      var d := AddReserve(w, es[0]);
      if d.r.Ok? {
        ReservesExact(d.w, es[1..]);
        Assoc(w.data[HEADER_SIZE..w.offStruct], es[0], Join(es[1..]));
      }
    }
  }

  /**
   Everything from fdt_create to fdt_finish: the reserve map holds the entries and its terminator, and
   the tokens read as the calls that succeeded.
   */
  lemma {:induction false} WholeRun(size: nat, dedup: bool, es: seq<seq<byte>>, ops: seq<Op>)
    requires HEADER_SIZE <= size < INT32_MAX && Entries(es)
    ensures var a := Reserves(Create(size, dedup).value, es); var f := FinishReserve(a.w);
      && (a.r.Ok? && f.r.Ok? <==> HEADER_SIZE + 16 * |es| + 16 <= size)
      && (a.r.Ok? && f.r.Ok? && RunAdmissible(f.w, ops) && Finish(Run(f.w, ops)).Ok? ==>
            var b := Finish(Run(f.w, ops)).value;
            && b.Ordered() && Scan(b.Struct(), 0).Ok? && Syms(b.Strings(), Scan(b.Struct(), 0).value) == Log(f.w, ops)
            && b.data[HEADER_SIZE..b.offStruct] == Join(es) + Zeros(16))
  {
    hide Reserves, AddReserve, Run, RunAdmissible, Finish, Log, Scan, Syms, Join;
    var w := Create(size, dedup).value;
    ReservesExact(w, es);
    var a := Reserves(w, es);
    if a.r.Ok? {
      ReserveOne(a.w, Zeros(16));
      var f := FinishReserve(a.w);
      if f.r.Ok? {
        assert [] + Join(es) == Join(es) && w.data[HEADER_SIZE..w.offStruct] == [];
        if RunAdmissible(f.w, ops) && Finish(Run(f.w, ops)).Ok? { WholeBlob(f.w, ops); }
      }
    }
  }

  lemma {:induction false} WholeBlob(w: Writer, ops: seq<Op>)
    requires w.Apart() && w.phase == Structure && w.sizeStruct == 0 && w.sizeStrings == 0 && RunAdmissible(w, ops)
      && Finish(Run(w, ops)).Ok?
    ensures var b := Finish(Run(w, ops)).value;
      && b.Ordered() && Scan(b.Struct(), 0).Ok? && Syms(b.Strings(), Scan(b.Struct(), 0).value) == Log(w, ops)
      && b.offStruct == w.offStruct && b.data[HEADER_SIZE..b.offStruct] == w.data[HEADER_SIZE..w.offStruct]
  {
    hide Run, RunAdmissible, Finish, Log, Scan, Syms;
    RoundTrip(w, ops);
    var b := Finish(Run(w, ops)).value;
    assert |b.data[..b.offStruct]| == |w.data[..w.offStruct]|;
    assert b.data[HEADER_SIZE..b.offStruct] == b.data[..b.offStruct][HEADER_SIZE..];
    assert w.data[HEADER_SIZE..w.offStruct] == w.data[..w.offStruct][HEADER_SIZE..];
  }
}
