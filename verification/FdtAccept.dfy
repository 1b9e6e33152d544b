/**
 Which decoded blobs fdt_check_full accepts (libfdt/fdt_check.c), and why it accepts what the
 sequential writer finishes.
 */
module FdtAccept {
  import opened Bytes
  import opened FdtTokens
  import opened FdtTree
  import opened FdtRead
  import opened FdtNode
  import opened FdtCheck
  import opened FdtSw
  import opened FdtSwRun

  /** The check on symbols. */
  predicate JudgeSym(ss: seq<Sym>, depth: nat)
    decreases |ss|
  {
    if ss == [] then depth == 0
    else match ss[0]
      case Open(name) => (depth > 0 || name == []) && JudgeSym(ss[1..], depth + 1)
      case Close => depth > 0 && (if depth == 1 then ss[1..] == [] else JudgeSym(ss[1..], depth - 1))
      case Attr(_) => JudgeSym(ss[1..], depth)
      case Bogus => false
  }

  /** The tokens do not end in a NOP. */
  predicate EndsSolid(ts: seq<Token>) { ts != [] && !ts[|ts| - 1].Nop? }

  lemma {:induction false} OnlyNops(strs: seq<byte>, ts: seq<Token>)
    requires Syms(strs, ts) == [] && ts != [] && End !in ts
    ensures ts[|ts| - 1].Nop?
    decreases |ts|
  {
    hide GetString;
    assert ts[0] in ts;
    if |ts| > 1 {
      assert ts[1..][|ts| - 2] == ts[|ts| - 1] && forall t :: t in ts[1..] ==> t in ts;
      OnlyNops(strs, ts[1..]);
    }
  }

  lemma {:induction false} ScanNoEnd(s: seq<byte>, a: nat)
    requires Scan(s, a).Ok?
    ensures End !in Scan(s, a).value
    decreases if a < |s| then |s| - a else 0
  {
    hide NextTag;
    if !NextTag(s, a).token.End? { ScanNoEnd(s, NextTag(s, a).next); }
  }

  /** Once the root is closed only FDT_END may follow. */
  lemma {:induction false} JudgeLast(s: seq<byte>, strs: seq<byte>, a: nat)
    requires Scan(s, a).Ok?
    ensures Judge(s, strs, a, 0, true).Ok? <==> Scan(s, a).value == []
  {
    hide NextTag;
  }

  lemma {:induction false} JudgeInside(s: seq<byte>, strs: seq<byte>, a: nat, depth: nat)
    requires Scan(s, a).Ok? && depth > 0
    ensures Judge(s, strs, a, depth, false).Ok? <==>
      JudgeSym(Syms(strs, Scan(s, a).value), depth) && EndsSolid(Scan(s, a).value)
    decreases if a < |s| then |s| - a else 0
  {
    hide NextTag, Syms, GetString;
    var t, ts := NextTag(s, a).token, Scan(s, a).value;
    SymsNil(strs);
    if !t.End? {
      ScanStep(s, strs, a);
      var n := NextTag(s, a).next;
      var us := Scan(s, n).value;
      var tail := Syms(strs, us);
      assert ts == [t] + us;
      assert us != [] ==> ts[|ts| - 1] == us[|us| - 1];
      assert !t.Nop? ==> (SymsOf(strs, t) + tail)[1..] == tail;
      assert t.Nop? ==> SymsOf(strs, t) + tail == tail;
      if t.BeginNode? {
        JudgeInside(s, strs, n, depth + 1);
      } else if t.EndNode? && depth == 1 {
        JudgeLast(s, strs, n);
        ScanNoEnd(s, n);
        if us != [] && tail == [] { OnlyNops(strs, us); }
      } else {
        JudgeInside(s, strs, n, if t.EndNode? then depth - 1 else depth);
      }
    }
  }

  lemma {:induction false} JudgeTop(s: seq<byte>, strs: seq<byte>, a: nat)
    requires Scan(s, a).Ok? && Syms(strs, Scan(s, a).value) != [] && Syms(strs, Scan(s, a).value)[0].Open?
    ensures Judge(s, strs, a, 0, false).Ok? <==>
      JudgeSym(Syms(strs, Scan(s, a).value), 0) && EndsSolid(Scan(s, a).value)
    decreases if a < |s| then |s| - a else 0
  {
    hide NextTag, Syms, GetString;
    var t, ts := NextTag(s, a).token, Scan(s, a).value;
    SymsNil(strs);
    if !t.End? {
      ScanStep(s, strs, a);
      var n := NextTag(s, a).next;
      var us := Scan(s, n).value;
      var tail := Syms(strs, us);
      assert ts == [t] + us;
      assert us != [] ==> ts[|ts| - 1] == us[|us| - 1];
      assert !t.Nop? ==> (SymsOf(strs, t) + tail)[1..] == tail;
      assert t.Nop? ==> SymsOf(strs, t) + tail == tail;
      if t.Nop? {
        JudgeTop(s, strs, n);
      } else {
        JudgeInside(s, strs, n, 1);
      }
    }
  }

  lemma {:induction false} JudgeAttrs(ps: seq<Property>, x: seq<Sym>, depth: nat)
    ensures JudgeSym(Attrs(ps) + x, depth) <==> JudgeSym(x, depth)
    decreases |ps|
  {
    var ss := Attrs(ps) + x;
    if ps == [] {
      assert ss == x;
    } else {
      assert ss[1..] == Attrs(ps[1..]) + x && ss[0] == Attr(ps[0]);
      JudgeAttrs(ps[1..], x, depth);
    }
  }

  lemma {:induction false} JudgeHead(ss: seq<Sym>, depth: nat)
    requires ss != [] && (ss[0].Open? || ss[0].Close?)
    ensures ss[0].Open? ==> (JudgeSym(ss, depth) <==> (depth > 0 || ss[0].name == []) && JudgeSym(ss[1..], depth + 1))
    ensures ss[0].Close? && depth > 1 ==> (JudgeSym(ss, depth) <==> JudgeSym(ss[1..], depth - 1))
  {
  }

  lemma {:induction false} JudgeTree(t: Tree, x: seq<Sym>, depth: nat)
    requires depth > 0
    ensures JudgeSym(Flat(t) + x, depth) <==> JudgeSym(x, depth)
    decreases t, 1
  {
    hide Flat, FlatAll, Attrs, JudgeSym;
    FlatHead(t, x);
    var z := [Close] + x;
    JudgeHead(Flat(t) + x, depth);
    JudgeAttrs(t.props, FlatAll(t.kids) + z, depth + 1);
    JudgeTrees(t.kids, z, depth + 1);
    JudgeHead(z, depth + 1);
    assert z[1..] == x;
  }

  lemma {:induction false} JudgeTrees(ks: seq<Tree>, x: seq<Sym>, depth: nat)
    requires depth > 0
    ensures JudgeSym(FlatAll(ks) + x, depth) <==> JudgeSym(x, depth)
    decreases ks, 0
  {
    hide Flat, JudgeSym;
    if ks == [] {
      assert FlatAll(ks) + x == x;
    } else {
      assert FlatAll(ks) + x == Flat(ks[0]) + (FlatAll(ks[1..]) + x);
      JudgeTree(ks[0], FlatAll(ks[1..]) + x, depth);
      JudgeTrees(ks[1..], x, depth);
    }
  }

  lemma {:induction false} JudgeRoot(t: Tree)
    ensures JudgeSym(Flat(t), 0) <==> t.name == []
  {
    hide Flat, FlatAll, Attrs, JudgeSym;
    assert Flat(t) + [] == Flat(t);
    FlatHead(t, []);
    JudgeHead(Flat(t), 0);
    var z := [Close] + [];
    JudgeAttrs(t.props, FlatAll(t.kids) + z, 1);
    JudgeTrees(t.kids, z, 1);
    JudgeClose();
    assert z == [Close];
  }

  lemma {:induction false} JudgeClose()
    ensures JudgeSym([Close], 1)
  {
    assert [Close][1..] == [];
  }

  /** A blob that stands for a tree is accepted exactly when the root has no name and no NOP follows it. */
  lemma {:induction false} AcceptedExactly(s: seq<byte>, strs: seq<byte>, t: Tree)
    requires Decodes(s, strs, t)
    ensures Sound(s, strs) <==> t.name == [] && EndsSolid(Scan(s, 0).value)
  {
    hide Judge, JudgeSym, Flat, Scan, Syms, OneRoot;
    JudgeExact(s, strs);
    JudgeTop(s, strs, 0);
    JudgeRoot(t);
  }

  /**
   The calls that succeeded spell a tree: then the finished blob stands for it, and passes the full
   check if its root has no name.
   */
  lemma {:induction false} WriterAccepted(w: Writer, ops: seq<Op>, t: Tree)
    requires w.Apart() && w.phase == Structure && w.sizeStruct == 0 && w.sizeStrings == 0 && RunAdmissible(w, ops)
    requires Log(w, ops) == Flat(t) && Finish(Run(w, ops)).Ok?
    ensures var b := Finish(Run(w, ops)).value;
      b.Ordered() && Decodes(b.Struct(), b.Strings(), t) && (Sound(b.Struct(), b.Strings()) <==> t.name == [])
  {
    hide Run, Log, Finish, Flat, Scan, Syms, Sound, RunAdmissible;
    RoundTrip(w, ops);
    var b := Finish(Run(w, ops)).value;
    AcceptedExactly(b.Struct(), b.Strings(), t);
    var ts := Scan(b.Struct(), 0).value;
    SymsNil(b.Strings());
    if ts != [] { assert ts[|ts| - 1] in ts; }
  }
}
