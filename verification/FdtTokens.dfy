/**
 The structure block as a stream of tokens: fdt_next_tag (libfdt/fdt.c) and what
 repeated calls of it deliver.
 */
module FdtTokens {
  import opened Bytes

  const FDT_BEGIN_NODE: u32 := 1
  const FDT_END_NODE: u32 := 2
  const FDT_PROP: u32 := 3
  const FDT_NOP: u32 := 4
  const FDT_END: u32 := 9

  /**
   The library's error codes; and Wild for a call that reads or writes outside the object it works
   on, after which the C program promises nothing, and Endless for one that never returns.
   */
  datatype Error =
    | Wild | Endless
    | NotFound | Exists | NoSpace | BadOffset | BadPath | BadPhandle | BadState | Truncated
    | BadMagic | BadVersion | BadStructure | BadLayout | Internal | BadOverlay | NoPhandles

  datatype Result<+T> = Ok(value: T) | Err(error: Error)

  datatype Token =
    | BeginNode(name: seq<byte>)
    | Prop(nameoff: u32, value: seq<byte>)
    | EndNode
    | Nop
    | End

  /** One call of fdt_next_tag: a token and the next offset, or the negative next offset. */
  datatype Step = Tok(token: Token, next: nat) | Bad(error: Error)

  /** fdt_next_tag on a structure block whose bounds the header check has accepted. */
  function NextTag(s: seq<byte>, o: int): (r: Step)
    ensures r.Tok? ==> 0 <= o && o + 4 <= |s| && o + 4 <= r.next < |s| + 4 && r.next % 4 == 0
    ensures r.Tok? && r.token.BeginNode? ==> IsCString(r.token.name)
    ensures r.Tok? && r.token.Prop? ==> |r.token.value| + 12 <= |s|
  {
    if o < 0 || o + 4 > |s| then Bad(Truncated)
    else
      var tag := Word(s, o);
      if tag == FDT_BEGIN_NODE then
        var z := Nul(s, o + 4);
        if z == |s| then Bad(BadStructure) else Tok(BeginNode(s[o + 4..z]), Align4(z + 1))
      else if tag == FDT_PROP then
        if o + 8 > |s| then Bad(BadStructure)
        else
          var len := Word(s, o + 4);
          if o + 12 + len > |s| then Bad(BadStructure)
          else Tok(Prop(Word(s, o + 8), s[o + 12..o + 12 + len]), Align4(o + 12 + len))
      else if tag == FDT_END_NODE then Tok(EndNode, Align4(o + 4))
      else if tag == FDT_NOP then Tok(Nop, Align4(o + 4))
      else if tag == FDT_END then Tok(End, Align4(o + 4))
      else Bad(BadStructure)
  }

  /** `t` holds, from `a + d`, the bytes that `s` holds between `a` and `b`. */
  ghost predicate Agree(s: seq<byte>, a: nat, b: nat, t: seq<byte>, d: int) {
    && 0 <= a + d && b <= |s| && b + d <= |t|
    && forall i {:trigger s[i]} :: a <= i < b ==> t[i + d] == s[i]
  }

  lemma {:induction false} AgreeWord(s: seq<byte>, o: nat, t: seq<byte>, d: int)
    requires o + 4 <= |s| && Agree(s, o, o + 4, t, d)
    ensures Word(t, o + d) == Word(s, o)
  {
    assert t[o + d] == s[o] && t[o + 1 + d] == s[o + 1] && t[o + 2 + d] == s[o + 2] && t[o + 3 + d] == s[o + 3];
  }

  lemma {:induction false} AgreeSlice(s: seq<byte>, a: nat, b: nat, t: seq<byte>, d: int)
    requires a <= b && Agree(s, a, b, t, d)
    ensures t[a + d..b + d] == s[a..b]
  {
    forall k | 0 <= k < b - a ensures t[a + d..b + d][k] == s[a..b][k] {
      assert s[a + k] == t[a + k + d];
    }
  }

  lemma {:induction false} AgreeNul(s: seq<byte>, i: nat, t: seq<byte>, d: int)
    requires i <= |s| && Nul(s, i) < |s| && Agree(s, i, Nul(s, i) + 1, t, d)
    ensures Nul(t, i + d) == Nul(s, i) + d
  {
    var z := Nul(s, i);
    assert s[z] == t[z + d];
    forall k | i + d <= k < z + d ensures t[k] != 0 {
      assert s[k - d] == t[k - d + d];
    }
  }

  /** A token is decided by its own bytes and may be moved by a multiple of four. */
  lemma {:induction false} NextTagLocal(s: seq<byte>, o: nat, t: seq<byte>, d: int)
    requires NextTag(s, o).Tok? && o % 4 == 0 && d % 4 == 0
    requires NextTag(s, o).next <= |s| && Agree(s, o, NextTag(s, o).next, t, d)
    ensures 0 <= o + d && 0 <= NextTag(s, o).next + d
    ensures NextTag(t, o + d) == Tok(NextTag(s, o).token, NextTag(s, o).next + d)
  {
    AgreeWord(s, o, t, d);
    var tag := Word(s, o);
    if tag == FDT_BEGIN_NODE {
      NextTagLocalBegin(s, o, t, d);
    } else if tag == FDT_PROP {
      NextTagLocalProp(s, o, t, d);
    } else {
      Align4Shift(o + 4, d);
    }
  }

  lemma {:induction false} NextTagLocalBegin(s: seq<byte>, o: nat, t: seq<byte>, d: int)
    requires o + 4 <= |s| && Word(s, o) == FDT_BEGIN_NODE && d % 4 == 0
    requires var z := Nul(s, o + 4); z < |s| && Align4(z + 1) <= |s| && Agree(s, o, Align4(z + 1), t, d)
    ensures NextTag(t, o + d) == Tok(BeginNode(s[o + 4..Nul(s, o + 4)]), Align4(Nul(s, o + 4) + 1) + d)
  {
    AgreeWord(s, o, t, d);
    var z := Nul(s, o + 4);
    AgreeNul(s, o + 4, t, d);
    AgreeSlice(s, o + 4, z, t, d);
    Align4Shift(z + 1, d);
  }

  lemma {:induction false} NextTagLocalProp(s: seq<byte>, o: nat, t: seq<byte>, d: int)
    requires o + 12 <= |s| && Word(s, o) == FDT_PROP && d % 4 == 0
    requires var e := o + 12 + Word(s, o + 4); Align4(e) <= |s| && Agree(s, o, Align4(e), t, d)
    ensures var e := o + 12 + Word(s, o + 4);
            NextTag(t, o + d) == Tok(Prop(Word(s, o + 8), s[o + 12..e]), Align4(e) + d)
  {
    var e := o + 12 + Word(s, o + 4);
    AgreeWord(s, o, t, d);
    AgreeWord(s, o + 4, t, d);
    AgreeWord(s, o + 8, t, d);
    AgreeSlice(s, o + 12, e, t, d);
    Align4Shift(e, d);
  }

  // ---------- Walks ----------

  /** Repeated fdt_next_tag from `a` delivers exactly `ts`, none of them FDT_END, and stops at `b`. */
  ghost predicate Walk(s: seq<byte>, a: nat, ts: seq<Token>, b: nat)
    decreases |ts|
  {
    if ts == [] then a == b
    else
      var r := NextTag(s, a);
      r.Tok? && r.token == ts[0] && !r.token.End? && Walk(s, r.next, ts[1..], b)
  }

  lemma {:induction false} WalkBounds(s: seq<byte>, a: nat, ts: seq<Token>, b: nat)
    requires Walk(s, a, ts, b)
    ensures a + 4 * |ts| <= b && (a % 4 == 0 ==> b % 4 == 0)
    decreases |ts|
  {
    if ts != [] { WalkBounds(s, NextTag(s, a).next, ts[1..], b); }
  }

  lemma {:induction false} WalkLocal(s: seq<byte>, a: nat, ts: seq<Token>, b: nat, t: seq<byte>, d: int)
    requires Walk(s, a, ts, b) && a % 4 == 0 && d % 4 == 0 && Agree(s, a, b, t, d)
    ensures 0 <= b + d && Walk(t, a + d, ts, b + d)
    decreases |ts|
  {
    WalkBounds(s, a, ts, b);
    if ts != [] {
      var n := NextTag(s, a).next;
      WalkBounds(s, n, ts[1..], b);
      NextTagLocal(s, a, t, d);
      WalkLocal(s, n, ts[1..], b, t, d);
    }
  }

  lemma {:induction false} WalkAppend(s: seq<byte>, a: nat, ts: seq<Token>, b: nat, us: seq<Token>, c: nat)
    requires Walk(s, a, ts, b) && Walk(s, b, us, c)
    ensures Walk(s, a, ts + us, c)
    decreases |ts|
  {
    hide NextTag;
    if ts == [] {
      assert ts + us == us;
    } else {
      WalkAppend(s, NextTag(s, a).next, ts[1..], b, us, c);
      assert (ts + us)[1..] == ts[1..] + us;
    }
  }

  lemma {:induction false} WalkSplit(s: seq<byte>, a: nat, ts: seq<Token>, us: seq<Token>, c: nat) returns (b: nat)
    requires Walk(s, a, ts + us, c)
    ensures Walk(s, a, ts, b) && Walk(s, b, us, c)
    decreases |ts|
  {
    if ts == [] {
      assert ts + us == us;
      b := a;
    } else {
      assert (ts + us)[1..] == ts[1..] + us;
      b := WalkSplit(s, NextTag(s, a).next, ts[1..], us, c);
    }
  }

  lemma {:induction false} WalkOne(s: seq<byte>, a: nat)
    requires NextTag(s, a).Tok? && !NextTag(s, a).token.End?
    ensures Walk(s, a, [NextTag(s, a).token], NextTag(s, a).next)
  {
    assert [NextTag(s, a).token][1..] == [];
  }

  // ---------- Whole scans ----------

  /** All tokens from `o` up to, and without, FDT_END. */
  function Scan(s: seq<byte>, o: nat): (r: Result<seq<Token>>)
    decreases if o < |s| then |s| - o else 0
  {
    match NextTag(s, o)
    case Bad(e) => Err(e)
    case Tok(t, n) =>
      if t.End? then Ok([])
      else match Scan(s, n)
        case Err(e) => Err(e)
        case Ok(ts) => Ok([t] + ts)
  }

  lemma {:induction false} WalkScan(s: seq<byte>, a: nat, ts: seq<Token>, b: nat)
    requires Walk(s, a, ts, b)
    ensures Scan(s, b).Ok? ==> Scan(s, a) == Ok(ts + Scan(s, b).value)
    ensures Scan(s, b).Err? ==> Scan(s, a) == Scan(s, b)
    decreases |ts|
  {
    if ts == [] {
      if Scan(s, b).Ok? { assert ts + Scan(s, b).value == Scan(s, b).value; }
    } else {
      WalkScan(s, NextTag(s, a).next, ts[1..], b);
      if Scan(s, b).Ok? { assert [ts[0]] + (ts[1..] + Scan(s, b).value) == ts + Scan(s, b).value; }
    }
  }

  /** A scan is a walk that meets FDT_END. */
  lemma {:induction false} ScanWalk(s: seq<byte>, a: nat) returns (e: nat)
    requires Scan(s, a).Ok?
    ensures Walk(s, a, Scan(s, a).value, e) && NextTag(s, e).Tok? && NextTag(s, e).token.End?
    decreases if a < |s| then |s| - a else 0
  {
    if NextTag(s, a).token.End? {
      e := a;
    } else {
      e := ScanWalk(s, NextTag(s, a).next);
      assert Scan(s, a).value[1..] == Scan(s, NextTag(s, a).next).value;
    }
  }

  lemma {:induction false} ScanLocal(s: seq<byte>, a: nat, t: seq<byte>, d: int)
    requires Scan(s, a).Ok? && a % 4 == 0 && d % 4 == 0
    requires |t| == |s| + d && Agree(s, a, |s|, t, d)
    ensures Scan(t, a + d) == Scan(s, a)
    decreases if a < |s| then |s| - a else 0
  {
    var e := ScanWalk(s, a);
    WalkBounds(s, a, Scan(s, a).value, e);
    WalkLocal(s, a, Scan(s, a).value, e, t, d);
    AgreeWord(s, e, t, d);
    WalkScan(t, a + d, Scan(s, a).value, e + d);
    assert Scan(s, a).value + [] == Scan(s, a).value;
  }
}
