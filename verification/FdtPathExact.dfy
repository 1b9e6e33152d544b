/**
 When fdt_get_path (libfdt/fdt_ro.c) gives the right name: exactly when no name it has taken back on
 the way held a slash.
 */
module FdtPathExact {
  import opened Bytes
  import opened FdtTokens
  import opened FdtTree
  import opened FdtNode
  import opened FdtPath
  import opened FdtPathWalk

  // ---------- The right name ----------

  /** Each name followed by a slash. */
  function Render(st: seq<Name>): (r: seq<byte>)
    ensures |r| >= |st|
  {
    if st == [] then [] else Render(st[..|st| - 1]) + st[|st| - 1] + [SLASH]
  }

  /** The names from a node down to the one at `p`. */
  function Names(t: Tree, p: seq<nat>): (r: seq<Name>)
    requires IsPath(t, p)
    ensures |r| == |p| + 1
    decreases |p|
  {
    [t.name] + if p == [] then [] else Names(t.kids[p[0]], p[1..])
  }

  lemma {:induction false} RenderAppend(a: seq<Name>, b: seq<Name>)
    ensures Render(a + b) == Render(a) + Render(b)
    decreases |b|
  {
    if b == [] {
      assert a + b == a;
    } else {
      var c := b[..|b| - 1];
      assert (a + b)[..|a + b| - 1] == a + c && (a + b)[|a + b| - 1] == b[|b| - 1];
      RenderAppend(a, c);
    }
  }

  lemma {:induction false} RenderOne(name: Name)
    ensures Render([name]) == name + [SLASH]
  {
    assert [name][..0] == [];
    assert [] + name + [SLASH] == name + [SLASH];
  }

  // ---------- Counting slashes ----------

  function LayerJunk(ls: seq<Layer>): (n: nat) {
    if ls == [] then 0 else LayerJunk(ls[..|ls| - 1]) + Slashes(ls[|ls| - 1].pad)
  }

  /** Slashes that belong to no component. */
  function Junk(sh: Sheet): (n: nat) { LayerJunk(sh.layers) + Slashes(sh.tail) }

  /** Slashes inside the names from layer `d` on. */
  function Inside(ls: seq<Layer>, d: nat): (n: nat) {
    if |ls| <= d then 0 else Inside(ls[..|ls| - 1], d) + Slashes(ls[|ls| - 1].name)
  }

  /** The slashes that will belong to no component once all below layer `d` is taken back. */
  function Pend(sh: Sheet, d: nat): (n: nat) { Junk(sh) + Inside(sh.layers, d) }

  function NamesOf(ls: seq<Layer>): (r: seq<Name>)
    ensures |r| == |ls|
  {
    seq(|ls|, i requires 0 <= i < |ls| => ls[i].name)
  }

  /** The names of the first `d` layers. */
  function Top(sh: Sheet, d: nat): (r: seq<Name>) {
    NamesOf(if |sh.layers| > d then sh.layers[..d] else sh.layers)
  }

  lemma {:induction false} PopPend(sh: Sheet, d: nat)
    requires Wf(sh) && |sh.layers| > d
    ensures Pend(Pop(sh), d) == Pend(sh, d)
  {
    hide Slashes, DropSeg;
    var l := sh.layers[|sh.layers| - 1];
    var x := l.name + [SLASH] + sh.tail;
    var y := x[..|x| - 1];
    DropSegSlashes(x);
    SlashesAppend(l.pad, DropSeg(x));
    SlashesAppend(l.name + [SLASH], sh.tail);
    SlashesAppend(l.name, [SLASH]);
    assert y + [SLASH] == x;
    SlashesAppend(y, [SLASH]);
  }

  lemma {:induction false} CutPend(sh: Sheet, d: nat)
    requires Wf(sh)
    ensures var e := Cut(sh, d);
      && Pend(e, d) == Pend(sh, d) == Junk(e)
      && e.layers == if |sh.layers| > d then sh.layers[..d] else sh.layers
    decreases |sh.layers|
  {
    hide Pop;
    if |sh.layers| > d {
      PopPend(sh, d);
      PopLayers(sh);
      CutPend(Pop(sh), d);
      assert sh.layers[..|sh.layers| - 1][..d] == sh.layers[..d];
      assert |sh.layers| - 1 == d ==> sh.layers[..|sh.layers| - 1] == sh.layers[..d];
    }
  }

  lemma {:induction false} PopLayers(sh: Sheet)
    requires sh.layers != []
    ensures Pop(sh).layers == sh.layers[..|sh.layers| - 1]
  {
  }

  lemma {:induction false} SlashOne()
    ensures Slashes([SLASH]) == 1
  {
    assert [SLASH][..0] == [];
  }

  lemma {:induction false} LayersSlashes(ls: seq<Layer>)
    ensures Slashes(LayersText(ls)) == |ls| + Inside(ls, 0) + LayerJunk(ls)
    decreases |ls|
  {
    hide Slashes;
    SlashOne();
    if ls == [] {
      SlashNone();
    } else {
      var h, l := ls[..|ls| - 1], ls[|ls| - 1];
      LayersSlashes(h);
      SlashesAppend(LayersText(h) + l.pad + l.name, [SLASH]);
      SlashesAppend(LayersText(h) + l.pad, l.name);
      SlashesAppend(LayersText(h), l.pad);
    }
  }

  lemma {:induction false} SlashNone()
    ensures Slashes([]) == 0
  {
  }

  /** Every slash of the text ends a component, lies inside a name, or is left over. */
  lemma {:induction false} TextSlashes(sh: Sheet)
    ensures Slashes(Text(sh)) == |sh.layers| + Pend(sh, 0)
  {
    hide Slashes, LayersText;
    LayersSlashes(sh.layers);
    SlashesAppend(LayersText(sh.layers), sh.tail);
  }

  lemma {:induction false} LayersRender(ls: seq<Layer>)
    requires Padded(ls)
    ensures |LayersText(ls)| >= |Render(NamesOf(ls))| && (LayerJunk(ls) == 0 ==> LayersText(ls) == Render(NamesOf(ls)))
    decreases |ls|
  {
    hide Slashes;
    if ls != [] {
      var h, l := ls[..|ls| - 1], ls[|ls| - 1];
      LayersRender(h);
      assert NamesOf(ls)[..|ls| - 1] == NamesOf(h) && NamesOf(ls)[|ls| - 1] == l.name;
      PadSlashes(l.pad);
      if l.pad == [] { assert LayersText(h) + l.pad == LayersText(h); }
    }
  }

  /** Without leftovers the text is the names; with leftovers it is longer. */
  lemma {:induction false} TextRender(sh: Sheet)
    requires Wf(sh)
    ensures |Text(sh)| >= |Render(NamesOf(sh.layers))| && (Junk(sh) == 0 ==> Text(sh) == Render(NamesOf(sh.layers)))
  {
    hide Slashes, LayersText, Render;
    LayersRender(sh.layers);
    PadSlashes(sh.tail);
    if sh.tail == [] { assert LayersText(sh.layers) + sh.tail == LayersText(sh.layers); }
  }

  // ---------- One node ----------

  /** The node's name goes in. */
  predicate Enters(sh: Sheet, depth: nat, name: Name, buflen: nat) {
    |sh.layers| >= depth && |Text(Cut(sh, depth))| + |name| + 1 <= buflen
  }

  lemma {:induction false} MeetPend(sh: Sheet, depth: nat, name: Name, buflen: nat)
    requires Wf(sh)
    ensures var r := Meet(sh, depth, name, buflen); var on := Enters(sh, depth, name, buflen);
      && Wf(r) && Pend(r, depth + 1) == Pend(sh, depth)
      && Pend(r, depth) == Pend(sh, depth) + (if on then Slashes(name) else 0)
      && Top(r, depth) == Top(sh, depth) && (on <==> |r.layers| == depth + 1)
      && (on ==> |sh.layers| >= depth && NamesOf(r.layers) == Top(sh, depth) + [name] && |Text(r)| <= buflen)
      && (!on ==> r == Cut(sh, depth))
  {
    hide Slashes, LayersText, Cut;
    var e := Cut(sh, depth);
    CutPend(sh, depth);
    var r := Meet(sh, depth, name, buflen);
    if Enters(sh, depth, name, buflen) {
      var l := Layer(e.tail, name);
      assert r.layers[..depth] == e.layers && r.layers[depth] == l;
      LayersGrow(e.layers, l);
      SlashNone();
      assert LayersText(r.layers) + [] == LayersText(r.layers);
    }
  }

  lemma {:induction false} LayersGrow(ls: seq<Layer>, l: Layer)
    ensures LayersText(ls + [l]) == LayersText(ls) + l.pad + l.name + [SLASH]
    ensures LayerJunk(ls + [l]) == LayerJunk(ls) + Slashes(l.pad)
    ensures Inside(ls + [l], |ls|) == Slashes(l.name) && Inside(ls + [l], |ls| + 1) == 0 && Inside(ls, |ls|) == 0
    ensures NamesOf(ls + [l]) == NamesOf(ls) + [l.name]
  {
    hide Slashes;
    assert (ls + [l])[..|ls|] == ls;
  }

  lemma {:induction false} InsideStep(ls: seq<Layer>, d: nat)
    ensures Inside(ls, d) == Inside(ls, d + 1) + if |ls| > d then Slashes(ls[d].name) else 0
    decreases |ls|
  {
    hide Slashes;
    if |ls| > d + 1 { InsideStep(ls[..|ls| - 1], d); }
  }

  lemma {:induction false} PendStep(sh: Sheet, r: Sheet, d: nat)
    requires Top(sh, d + 1) == Top(r, d + 1)
    ensures Pend(sh, d) - Pend(sh, d + 1) == Pend(r, d) - Pend(r, d + 1) && Top(sh, d) == Top(r, d)
  {
    hide Slashes;
    InsideStep(sh.layers, d);
    InsideStep(r.layers, d);
    var a, b := Top(sh, d + 1), Top(r, d + 1);
    assert |sh.layers| > d <==> |a| == d + 1;
    assert |r.layers| > d <==> |b| == d + 1;
    if |a| == d + 1 {
      assert a[d] == sh.layers[d].name && b[d] == r.layers[d].name;
      assert a[..d] == Top(sh, d) && b[..d] == Top(r, d);
    } else {
      assert a == Top(sh, d) && b == Top(r, d);
    }
  }

  // ---------- Subtrees on the way ----------

  /** Passing a subtree keeps the names above it and only adds leftovers. */
  lemma {:induction false} PassKeeps(t: Tree, depth: nat, buflen: nat, sh: Sheet)
    requires Wf(sh)
    ensures var r := Pass(t, depth, buflen, sh);
      Wf(r) && Top(r, depth) == Top(sh, depth) && Pend(r, depth) >= Pend(sh, depth)
    decreases t, 1
  {
    hide Wf, Top, Pend, Meet, PassAll, Enters, NamesOf, Text;
    var e := Meet(sh, depth, t.name, buflen);
    MeetPend(sh, depth, t.name, buflen);
    PassAllKeeps(t.kids, depth + 1, buflen, e);
    PendStep(e, PassAll(t.kids, depth + 1, buflen, e), depth);
  }

  lemma {:induction false} PassAllKeeps(ks: seq<Tree>, depth: nat, buflen: nat, sh: Sheet)
    requires Wf(sh)
    ensures var r := PassAll(ks, depth, buflen, sh);
      Wf(r) && Top(r, depth) == Top(sh, depth) && Pend(r, depth) >= Pend(sh, depth)
    decreases ks, 0
  {
    hide Wf, Top, Pend, Pass;
    if ks != [] {
      PassKeeps(ks[0], depth, buflen, sh);
      PassAllKeeps(ks[1..], depth, buflen, Pass(ks[0], depth, buflen, sh));
    }
  }

  /** Below a node whose name did not go in, none does. */
  lemma {:induction false} PassShort(t: Tree, depth: nat, buflen: nat, sh: Sheet)
    requires |sh.layers| < depth
    ensures Pass(t, depth, buflen, sh) == sh
    decreases t, 1
  {
    PassAllShort(t.kids, depth + 1, buflen, sh);
  }

  lemma {:induction false} PassAllShort(ks: seq<Tree>, depth: nat, buflen: nat, sh: Sheet)
    requires |sh.layers| < depth
    ensures PassAll(ks, depth, buflen, sh) == sh
    decreases ks, 0
  {
    hide Pass;
    if ks != [] {
      PassShort(ks[0], depth, buflen, sh);
      PassAllShort(ks[1..], depth, buflen, sh);
    }
  }

  /** Some name of the subtree that fits behind a path of `len` bytes holds a slash. */
  predicate Dirty(t: Tree, len: nat, buflen: nat)
    decreases t
  {
    len + |t.name| + 1 <= buflen && (!NoSlash(t.name) || DirtyAny(t.kids, len + |t.name| + 1, buflen))
  }

  predicate DirtyAny(ks: seq<Tree>, len: nat, buflen: nat)
    decreases ks
  {
    ks != [] && (Dirty(ks[0], len, buflen) || DirtyAny(ks[1..], len, buflen))
  }

  /** So far the text is the names, and the next name goes in if it fits behind them. */
  lemma {:induction false} CleanEnters(sh: Sheet, depth: nat, name: Name, buflen: nat)
    requires Wf(sh) && |sh.layers| >= depth && Pend(sh, depth) == 0
    ensures Enters(sh, depth, name, buflen) <==> |Render(Top(sh, depth))| + |name| + 1 <= buflen
    ensures |Render(Top(sh, depth) + [name])| == |Render(Top(sh, depth))| + |name| + 1
  {
    hide Slashes, LayersText, Cut, Render, Text;
    CutPend(sh, depth);
    TextRender(Cut(sh, depth));
    assert |sh.layers| == depth ==> sh.layers[..depth] == sh.layers;
    RenderAppend(Top(sh, depth), [name]);
    RenderOne(name);
  }

  /** A clean sheet stays clean exactly if the subtree it passes is. */
  lemma {:induction false} PassClean(t: Tree, depth: nat, buflen: nat, sh: Sheet)
    requires Wf(sh) && |sh.layers| >= depth && Pend(sh, depth) == 0
    ensures Pend(Pass(t, depth, buflen, sh), depth) > 0 <==> Dirty(t, |Render(Top(sh, depth))|, buflen)
    decreases t, 1
  {
    hide Wf, Pend, Meet, PassAll, Enters, NamesOf, Text, Render, DirtyAny, Slashes;
    var e := Meet(sh, depth, t.name, buflen);
    MeetPend(sh, depth, t.name, buflen);
    CleanEnters(sh, depth, t.name, buflen);
    NoSlashes(t.name);
    if Enters(sh, depth, t.name, buflen) {
      assert e.layers[..depth + 1] == e.layers;
      PassAllClean(t.kids, depth + 1, buflen, e);
      PassAllKeeps(t.kids, depth + 1, buflen, e);
      PendStep(e, PassAll(t.kids, depth + 1, buflen, e), depth);
    } else {
      PassAllShort(t.kids, depth + 1, buflen, e);
    }
  }

  lemma {:induction false} PassAllClean(ks: seq<Tree>, depth: nat, buflen: nat, sh: Sheet)
    requires Wf(sh) && |sh.layers| >= depth && Pend(sh, depth) == 0
    ensures Pend(PassAll(ks, depth, buflen, sh), depth) > 0 <==> DirtyAny(ks, |Render(Top(sh, depth))|, buflen)
    decreases ks, 0
  {
    hide Wf, Pend, Pass, Render, Dirty;
    if ks != [] {
      var r := Pass(ks[0], depth, buflen, sh);
      PassClean(ks[0], depth, buflen, sh);
      PassKeeps(ks[0], depth, buflen, sh);
      TopSize(sh, r, depth);
      if Pend(r, depth) == 0 {
        PassAllClean(ks[1..], depth, buflen, r);
      } else {
        PassAllKeeps(ks[1..], depth, buflen, r);
      }
    }
  }

  lemma {:induction false} TopSize(sh: Sheet, r: Sheet, depth: nat)
    requires Top(sh, depth) == Top(r, depth)
    ensures |sh.layers| >= depth <==> |r.layers| >= depth
  {
    assert |Top(sh, depth)| == |Top(r, depth)|;
  }

  // ---------- The node itself ----------

  /** A name taken back before the node at `p` is met, and which had fitted, holds a slash. */
  predicate DirtyBefore(t: Tree, p: seq<nat>, len: nat, buflen: nat)
    requires IsPath(t, p)
    decreases |p|
  {
    p != [] && len + |t.name| + 1 <= buflen &&
    (DirtyAny(t.kids[..p[0]], len + |t.name| + 1, buflen)
      || DirtyBefore(t.kids[p[0]], p[1..], len + |t.name| + 1, buflen))
  }

  /** When all names have gone in they are the right ones, and leftovers are never lost. */
  lemma {:induction false} ArriveKeeps(t: Tree, p: seq<nat>, depth: nat, buflen: nat, sh: Sheet)
    requires IsPath(t, p) && Wf(sh)
    ensures var a := Arrive(t, p, depth, buflen, sh);
      && Wf(a) && |a.layers| <= depth + |p| + 1
      && (|a.layers| == depth + |p| + 1 ==>
            && |sh.layers| >= depth && NamesOf(a.layers) == Top(sh, depth) + Names(t, p) && |Text(a)| <= buflen
            && Junk(a) >= Pend(sh, depth))
    decreases |p|
  {
    hide Wf, Pend, Meet, PassAll, Enters, Text, Junk, Top, NamesOf, Names;
    var e := Meet(sh, depth, t.name, buflen);
    MeetPend(sh, depth, t.name, buflen);
    NamesStep(Top(sh, depth), t, p);
    if p == [] {
      PendTop(e, depth + 1);
    } else {
      var g := PassAll(t.kids[..p[0]], depth + 1, buflen, e);
      PassAllKeeps(t.kids[..p[0]], depth + 1, buflen, e);
      ArriveKeeps(t.kids[p[0]], p[1..], depth + 1, buflen, g);
      TopSize(e, g, depth + 1);
      TopFull(e, depth + 1);
    }
  }

  lemma {:induction false} TopFull(sh: Sheet, d: nat)
    ensures |sh.layers| == d ==> Top(sh, d) == NamesOf(sh.layers)
  {
  }

  lemma {:induction false} NamesStep(st: seq<Name>, t: Tree, p: seq<nat>)
    requires IsPath(t, p)
    ensures p == [] ==> st + Names(t, p) == st + [t.name]
    ensures p != [] ==> st + Names(t, p) == st + [t.name] + Names(t.kids[p[0]], p[1..])
  {
    if p == [] { assert Names(t, p) == [t.name]; }
  }

  lemma {:induction false} PendTop(sh: Sheet, d: nat)
    requires |sh.layers| <= d
    ensures Pend(sh, d) == Junk(sh)
  {
  }

  lemma {:induction false} ArriveClean(t: Tree, p: seq<nat>, depth: nat, buflen: nat, sh: Sheet)
    requires IsPath(t, p) && Wf(sh) && |sh.layers| >= depth && Pend(sh, depth) == 0
    requires |Render(Top(sh, depth) + Names(t, p))| <= buflen
    ensures var a := Arrive(t, p, depth, buflen, sh);
      (|a.layers| == depth + |p| + 1 && Junk(a) == 0) <==> !DirtyBefore(t, p, |Render(Top(sh, depth))|, buflen)
    decreases |p|
  {
    hide Wf, Pend, Meet, PassAll, Enters, Text, Junk, DirtyAny, Render, Top, NamesOf, Names;
    var e := Meet(sh, depth, t.name, buflen);
    var st := Top(sh, depth);
    NamesStep(st, t, p);
    MeetPend(sh, depth, t.name, buflen);
    CleanEnters(sh, depth, t.name, buflen);
    NameFits(st, t, p);
    if p == [] {
      PendTop(e, depth + 1);
    } else {
      var ks, k, q := t.kids[..p[0]], t.kids[p[0]], p[1..];
      var g := PassAll(ks, depth + 1, buflen, e);
      TopFull(e, depth + 1);
      PassAllKeeps(ks, depth + 1, buflen, e);
      PassAllClean(ks, depth + 1, buflen, e);
      TopSize(e, g, depth + 1);
      if Pend(g, depth + 1) == 0 {
        ArriveClean(k, q, depth + 1, buflen, g);
      } else {
        ArriveKeeps(k, q, depth + 1, buflen, g);
      }
    }
  }

  lemma {:induction false} NameFits(st: seq<Name>, t: Tree, p: seq<nat>)
    requires IsPath(t, p)
    ensures |Render(st + Names(t, p))| >= |Render(st)| + |t.name| + 1
  {
    hide Render;
    var ns := Names(t, p);
    assert ns == [t.name] + ns[1..];
    RenderAppend(st, ns);
    RenderAppend([t.name], ns[1..]);
    RenderOne(t.name);
  }

  /** The name of the node at `p`, as fdt_get_path means it. */
  function PathName(t: Tree, p: seq<nat>): (r: seq<byte>)
    requires IsPath(t, p)
  {
    Strip(Render(Names(t, p)))
  }

  /** Its size with the slash or the NUL behind it. */
  predicate PathFits(t: Tree, p: seq<nat>, buflen: nat)
    requires IsPath(t, p)
  {
    buflen >= 2 && |Render(Names(t, p))| <= buflen
  }

  /**
   fdt_get_path answers NOSPACE whenever the path name does not fit; and when it fits, the answer is
   that name if and only if no name of a node taken back on the way, which had fitted, holds a slash.
   */
  lemma {:induction false} GetPathExact(s: seq<byte>, strs: seq<byte>, t: Tree, p: seq<nat>, buflen: nat)
    requires Decodes(s, strs, t) && IsPath(t, p) && NodeOffset(s, t, []) == 0
    ensures !PathFits(t, p, buflen) ==> GetPath(s, NodeOffset(s, t, p), buflen) == Err(NoSpace)
    ensures PathFits(t, p, buflen) ==>
      (GetPath(s, NodeOffset(s, t, p), buflen) == Ok(PathName(t, p)) <==> !DirtyBefore(t, p, 0, buflen))
  {
    hide Decodes, NodeOffset, IsPath, Render, Names, Arrive, DirtyBefore, Text, Junk, GetPath, Strip;
    if buflen >= 2 {
      GetPathAt(s, strs, t, p, buflen);
      ArriveKeeps(t, p, 0, buflen, BLANK);
      var a := Arrive(t, p, 0, buflen, BLANK);
      BlankTop();
      assert [] + Names(t, p) == Names(t, p);
      TextRender(a);
      if PathFits(t, p, buflen) {
        ArriveClean(t, p, 0, buflen, BLANK);
        if |a.layers| == |p| + 1 && Junk(a) > 0 { JunkShows(t, p, a, buflen); }
      }
    } else {
      SmallBuffer(s, NodeOffset(s, t, p), buflen);
    }
  }

  lemma {:induction false} BlankTop()
    ensures Wf(BLANK) && Pend(BLANK, 0) == 0 && Top(BLANK, 0) == [] && Render([]) == []
  {
  }

  lemma {:induction false} SmallBuffer(s: seq<byte>, node: nat, buflen: nat)
    requires buflen < 2
    ensures GetPath(s, node, buflen) == Err(NoSpace)
  {
  }

  /** Leftover slashes make the answer wrong. */
  lemma {:induction false} JunkShows(t: Tree, p: seq<nat>, a: Sheet, buflen: nat)
    requires IsPath(t, p) && Wf(a) && NamesOf(a.layers) == Names(t, p) && Junk(a) > 0
    requires a == Arrive(t, p, 0, buflen, BLANK)
    ensures Strip(Text(a)) != PathName(t, p)
  {
    hide Slashes, LayersText, Render, IsPath, Names, NamesOf, Text, Junk, Arrive;
    if p == [] { RootClean(t, p, buflen); }
    TextDiffers(a, Names(t, p));
    TextRender(a);
    TextEnds(a);
    RenderLast(Names(t, p));
    if Strip(Text(a)) == PathName(t, p) { StripInjective(Text(a), Render(Names(t, p))); }
  }

  lemma {:induction false} StripInjective(x: seq<byte>, y: seq<byte>)
    requires |x| >= 2 && |y| >= 2 && x[|x| - 1] == y[|y| - 1] && Strip(x) == Strip(y)
    ensures x == y
  {
    assert x == x[..|x| - 1] + [x[|x| - 1]] && y == y[..|y| - 1] + [y[|y| - 1]];
  }

  lemma {:induction false} TextEnds(sh: Sheet)
    requires Wf(sh) && sh.layers != []
    ensures Text(sh) != [] && Text(sh)[|Text(sh)| - 1] == SLASH
  {
    hide LayersText;
    TextPad(sh);
  }

  /** Leftovers put more slashes into the text than the names have. */
  lemma {:induction false} TextDiffers(a: Sheet, st: seq<Name>)
    requires Wf(a) && NamesOf(a.layers) == st && Junk(a) > 0
    ensures Text(a) != Render(st)
  {
    hide Slashes, LayersText, Render, NamesOf, Text;
    var clean := Sheet(CleanLayers(st), []);
    CleanText(st);
    TextSlashes(a);
    TextSlashes(clean);
    InsideNames(a.layers, clean.layers);
    assert |a.layers| == |NamesOf(a.layers)| == |NamesOf(clean.layers)| == |clean.layers|;
  }

  lemma {:induction false} RootClean(t: Tree, p: seq<nat>, buflen: nat)
    requires p == [] && IsPath(t, p)
    ensures Junk(Arrive(t, p, 0, buflen, BLANK)) == 0
  {
    hide Slashes, Meet, Text;
    BlankTop();
    MeetPend(BLANK, 0, t.name, buflen);
    PendTop(Meet(BLANK, 0, t.name, buflen), 1);
  }

  lemma {:induction false} RenderLast(st: seq<Name>)
    requires st != []
    ensures Render(st) != [] && Render(st)[|Render(st)| - 1] == SLASH
  {
  }

  /** The layers of a sheet without leftovers. */
  function CleanLayers(st: seq<Name>): (r: seq<Layer>)
    ensures |r| == |st| && Padded(r)
  {
    seq(|st|, i requires 0 <= i < |st| => Layer([], st[i]))
  }

  lemma {:induction false} CleanText(st: seq<Name>)
    ensures var sh := Sheet(CleanLayers(st), []);
      Wf(sh) && Junk(sh) == 0 && Text(sh) == Render(st) && NamesOf(sh.layers) == st
  {
    hide Slashes, LayersText, Render;
    var sh := Sheet(CleanLayers(st), []);
    CleanJunk(CleanLayers(st));
    SlashNone();
    TextRender(sh);
    assert NamesOf(sh.layers) == st;
  }

  lemma {:induction false} CleanJunk(ls: seq<Layer>)
    requires forall i :: 0 <= i < |ls| ==> ls[i].pad == []
    ensures LayerJunk(ls) == 0
    decreases |ls|
  {
    if ls != [] { CleanJunk(ls[..|ls| - 1]); }
  }

  lemma {:induction false} InsideNames(ls: seq<Layer>, ms: seq<Layer>)
    requires NamesOf(ls) == NamesOf(ms)
    ensures Inside(ls, 0) == Inside(ms, 0)
    decreases |ls|
  {
    hide Slashes;
    assert |NamesOf(ls)| == |NamesOf(ms)|;
    if ls != [] {
      var n := |ls| - 1;
      assert NamesOf(ls)[n] == ls[n].name && NamesOf(ms)[n] == ms[n].name;
      assert NamesOf(ls[..n]) == NamesOf(ls)[..n] && NamesOf(ms[..n]) == NamesOf(ms)[..n];
      InsideNames(ls[..n], ms[..n]);
    }
  }

  // ---------- The names that matter ----------

  /** The node at `q` has been left behind when the one at `p` is met. */
  predicate Aside(q: seq<nat>, p: seq<nat>) {
    p != [] && q != [] && (q[0] < p[0] || (q[0] == p[0] && Aside(q[1..], p[1..])))
  }

  /** The node's name holds a slash and its path fits behind `len` bytes. */
  predicate Slashed(t: Tree, q: seq<nat>, len: nat, buflen: nat)
    requires IsPath(t, q)
  {
    len + |Render(Names(t, q))| <= buflen && !NoSlash(Sub(t, q).name)
  }

  lemma {:induction false} SlashedDown(t: Tree, q: seq<nat>, len: nat, buflen: nat)
    requires IsPath(t, q) && q != []
    ensures Slashed(t, q, len, buflen) <==> Slashed(t.kids[q[0]], q[1..], len + |t.name| + 1, buflen)
  {
    hide Render;
    var ns := Names(t.kids[q[0]], q[1..]);
    RenderAppend([t.name], ns);
    RenderOne(t.name);
  }

  lemma {:induction false} DirtyMeans(t: Tree, len: nat, buflen: nat)
    ensures Dirty(t, len, buflen) <==> exists q :: IsPath(t, q) && Slashed(t, q, len, buflen)
    decreases t, 1
  {
    hide DirtyAny, Slashed;
    RootSlashed(t, len, buflen);
    DirtyAnyMeans(t.kids, len + |t.name| + 1, buflen);
    var l := len + |t.name| + 1;
    if DirtyAny(t.kids, l, buflen) {
      var i, q :| 0 <= i < |t.kids| && IsPath(t.kids[i], q) && Slashed(t.kids[i], q, l, buflen);
      assert ([i] + q)[1..] == q;
      SlashedDown(t, [i] + q, len, buflen);
      SlashedFits(t, [i] + q, len, buflen);
    }
    forall q | IsPath(t, q) && Slashed(t, q, len, buflen) ensures Dirty(t, len, buflen) {
      SlashedFits(t, q, len, buflen);
      if q != [] {
        SlashedDown(t, q, len, buflen);
        assert IsPath(t.kids[q[0]], q[1..]);
      }
    }
  }

  lemma {:induction false} RootSlashed(t: Tree, len: nat, buflen: nat)
    ensures IsPath(t, []) && (Slashed(t, [], len, buflen) <==> len + |t.name| + 1 <= buflen && !NoSlash(t.name))
  {
    RenderOne(t.name);
    assert [t.name] + [] == [t.name];
  }

  lemma {:induction false} SlashedFits(t: Tree, q: seq<nat>, len: nat, buflen: nat)
    requires IsPath(t, q) && Slashed(t, q, len, buflen)
    ensures len + |t.name| + 1 <= buflen
  {
    hide Render;
    NameFits([], t, q);
    BlankTop();
    assert [] + Names(t, q) == Names(t, q);
  }

  lemma {:induction false} DirtyAnyMeans(ks: seq<Tree>, len: nat, buflen: nat)
    ensures DirtyAny(ks, len, buflen) <==>
       exists i, q :: 0 <= i < |ks| && IsPath(ks[i], q) && Slashed(ks[i], q, len, buflen)
    decreases ks, 0
  {
    hide Dirty, Slashed;
    if ks != [] {
      DirtyMeans(ks[0], len, buflen);
      DirtyAnyMeans(ks[1..], len, buflen);
      if DirtyAny(ks[1..], len, buflen) {
        var i, q :| 0 <= i < |ks| - 1 && IsPath(ks[1..][i], q) && Slashed(ks[1..][i], q, len, buflen);
        assert ks[i + 1] == ks[1..][i];
      }
      forall i, q | 0 <= i < |ks| && IsPath(ks[i], q)
        && Slashed(ks[i], q, len, buflen) ensures DirtyAny(ks, len, buflen) {
        if i > 0 { assert ks[1..][i - 1] == ks[i]; }
      }
    }
  }

  /**
   The condition of fdt_get_path in terms of the tree: a node to the left of the path, whose own path
   fits, has a slash in its name.
   */
  lemma {:induction false} DirtyBeforeExact(t: Tree, p: seq<nat>, len: nat, buflen: nat)
    requires IsPath(t, p)
    ensures DirtyBefore(t, p, len, buflen) <==> exists q :: IsPath(t, q) && Aside(q, p) && Slashed(t, q, len, buflen)
    decreases |p|
  {
    hide DirtyAny, Slashed;
    if p != [] {
      var j, l := p[0], len + |t.name| + 1;
      DirtyAnyMeans(t.kids[..j], l, buflen);
      DirtyBeforeExact(t.kids[j], p[1..], l, buflen);
      if DirtyAny(t.kids[..j], l, buflen) && l <= buflen {
        var i, q :| 0 <= i < j && IsPath(t.kids[..j][i], q) && Slashed(t.kids[..j][i], q, l, buflen);
        assert ([i] + q)[1..] == q;
        SlashedDown(t, [i] + q, len, buflen);
      } else if DirtyBefore(t.kids[j], p[1..], l, buflen) && l <= buflen {
        var q :| IsPath(t.kids[j], q) && Aside(q, p[1..]) && Slashed(t.kids[j], q, l, buflen);
        assert ([j] + q)[1..] == q;
        SlashedDown(t, [j] + q, len, buflen);
      }
      forall q | IsPath(t, q) && Aside(q, p) && Slashed(t, q, len, buflen) ensures DirtyBefore(t, p, len, buflen) {
        SlashedFits(t, q, len, buflen);
        SlashedDown(t, q, len, buflen);
        if q[0] < j { assert t.kids[..j][q[0]] == t.kids[q[0]]; }
      }
    }
  }

  const ROOT := Sheet([Layer([], [])], [])
  const AB: Name := [0x61, SLASH, 0x62]
  const C: Name := [0x63]
  const CCC: Name := [0x63, 0x63, 0x63]

  lemma {:induction false} MeetRoot(buflen: nat)
    requires buflen >= 1
    ensures Meet(BLANK, 0, [], buflen) == ROOT
  {
  }

  lemma {:induction false} MeetSlashed(buflen: nat)
    requires buflen >= 5
    ensures Meet(ROOT, 1, AB, buflen) == Sheet([Layer([], []), Layer([], AB)], [])
  {
    assert ROOT.layers[..0] == [];
    assert Text(ROOT) == [SLASH];
  }

  lemma {:induction false} PopSlashed()
    ensures Cut(Sheet([Layer([], []), Layer([], AB)], []), 1) == Sheet([Layer([], [])], [0x61, SLASH])
  {
    var g := Sheet([Layer([], []), Layer([], AB)], []);
    var x := AB + [SLASH] + [];
    assert x == [0x61, SLASH, 0x62, SLASH];
    var y := x[..3];
    assert y == AB && y[..2] == [0x61, SLASH];
    assert DropSeg(y) == y[..2];
    assert DropSeg(x) == [0x61, SLASH];
    assert g.layers[..1] == [Layer([], [])];
    assert Pop(g) == Sheet([Layer([], [])], [0x61, SLASH]);
  }

  /** What a sibling of "a/b" finds in the buffer. */
  lemma {:induction false} MeetBehind(name: Name, buflen: nat)
    ensures var a := Meet(Sheet([Layer([], []), Layer([], AB)], []), 1, name, buflen);
      if 3 + |name| + 1 <= buflen
      then |a.layers| == 2 && Text(a) == [SLASH, 0x61, SLASH] + name + [SLASH]
      else |a.layers| == 1
  {
    PopSlashed();
    var e := Sheet([Layer([], [])], [0x61, SLASH]);
    assert e.layers[..0] == [];
    assert Text(e) == [SLASH, 0x61, SLASH];
    var ls := [Layer([], []), Layer([0x61, SLASH], name)];
    assert ls[..1] == e.layers;
    assert LayersText(e.layers) == [SLASH];
    assert [SLASH] + [0x61, SLASH] == [SLASH, 0x61, SLASH];
    assert [SLASH] + [0x61, SLASH] + name + [SLASH] + [] == [SLASH, 0x61, SLASH] + name + [SLASH];
  }

  lemma {:induction false} NameBehind(name: Name)
    ensures Render([[], name]) == [SLASH] + name + [SLASH]
  {
    assert [[], name][..1] == [[]];
    RenderOne([]);
    assert [] + [SLASH] == [SLASH];
  }

  /** A child "a/b" and another one under an unnamed root. */
  function Two(name: Name): Tree { Node([], [], [Node(AB, [], []), Node(name, [], [])]) }

  lemma {:induction false} ArriveBehind(name: Name, buflen: nat)
    requires buflen >= 5
    ensures IsPath(Two(name), [1]) && Names(Two(name), [1]) == [[], name]
    ensures Arrive(Two(name), [1], 0, buflen, BLANK) == Meet(Sheet([Layer([], []), Layer([], AB)], []), 1, name, buflen)
  {
    hide Meet;
    MeetRoot(buflen);
    MeetSlashed(buflen);
    var ab := Node(AB, [], []);
    assert [1][1..] == [] && Two(name).kids[..1] == [ab] && [ab][1..] == [];
    assert Pass(ab, 1, buflen, ROOT) == Meet(ROOT, 1, AB, buflen);
    assert PassAll([ab], 1, buflen, ROOT) == Meet(ROOT, 1, AB, buflen);
  }

  /** The input that goes wrong: behind a sibling "a/b", the node "c" is reported as "/a/c". */
  lemma {:induction false} SlashedSibling(s: seq<byte>, strs: seq<byte>)
    requires Decodes(s, strs, Two(C)) && NodeOffset(s, Two(C), []) == 0
    ensures IsPath(Two(C), [1]) && PathName(Two(C), [1]) == [SLASH, 0x63]
    ensures GetPath(s, NodeOffset(s, Two(C), [1]), 100) == Ok([SLASH, 0x61, SLASH, 0x63])
  {
    hide Decodes, NodeOffset, GetPath, Meet, Arrive, Names, IsPath, Render;
    ArriveBehind(C, 100);
    GetPathAt(s, strs, Two(C), [1], 100);
    MeetBehind(C, 100);
    NameBehind(C);
    assert ([SLASH, 0x61, SLASH] + C + [SLASH])[..4] == [SLASH, 0x61, SLASH, 0x63];
    assert ([SLASH] + C + [SLASH])[..2] == [SLASH, 0x63];
  }

  /** And a path that fits may still get NOSPACE: "/ccc" with six bytes, behind the same sibling. */
  lemma {:induction false} SlashedNoSpace(s: seq<byte>, strs: seq<byte>)
    requires Decodes(s, strs, Two(CCC)) && NodeOffset(s, Two(CCC), []) == 0
    ensures IsPath(Two(CCC), [1]) && PathFits(Two(CCC), [1], 6)
    ensures GetPath(s, NodeOffset(s, Two(CCC), [1]), 6) == Err(NoSpace)
  {
    hide Decodes, NodeOffset, GetPath, Meet, Arrive, Names, IsPath, Render;
    ArriveBehind(CCC, 6);
    GetPathAt(s, strs, Two(CCC), [1], 6);
    MeetBehind(CCC, 6);
    NameBehind(CCC);
  }
}
