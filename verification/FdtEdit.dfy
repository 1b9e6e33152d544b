/**
 The editing calls refine edits of the tree: setprop, appendprop, delprop (libfdt/fdt_rw.c).
 */
module FdtEdit {
  import opened Bytes
  import opened Seqs
  import opened FdtTokens
  import opened FdtTree
  import opened FdtRead
  import opened FdtNode
  import opened FdtBlob
  import opened FdtSplice
  import opened FdtMoves

  ghost predicate Decoded(b: Blob, t: Tree) {
    b.Ordered() && Decodes(b.Struct(), b.Strings(), t)
  }

  ghost function Offset(b: Blob, t: Tree, p: seq<nat>): nat
    requires b.Ordered() && IsPath(t, p)
  {
    NodeOffset(b.Struct(), t, p)
  }

  // ---------- Edits of one node ----------

  function WithProp(n: Tree, name: seq<byte>, val: seq<byte>): (r: Tree) {
    var k := FirstProp(n.props, name);
    if k < |n.props| then n.(props := n.props[k := Property(name, val)])
    else n.(props := [Property(name, val)] + n.props)
  }

  function WithAppended(n: Tree, name: seq<byte>, val: seq<byte>): (r: Tree) {
    var k := FirstProp(n.props, name);
    WithProp(n, name, (if k < |n.props| then n.props[k].value else []) + val)
  }

  function WithoutProp(n: Tree, name: seq<byte>): (r: Tree) {
    var k := FirstProp(n.props, name);
    if k < |n.props| then n.(props := n.props[..k] + n.props[k + 1..]) else n
  }

  // ---------- The flattening around a node's properties ----------

  lemma {:induction false} AttrsAppend(ps: seq<Property>, qs: seq<Property>)
    ensures Attrs(ps + qs) == Attrs(ps) + Attrs(qs)
  {
  }

  lemma {:induction false} FlatSplit(t: Tree, p: seq<nat>)
    requires IsPath(t, p)
    ensures var n := Sub(t, p);
      Flat(t) == Before(t, p) + [Open(n.name)] + Attrs(n.props) + (FlatAll(n.kids) + [Close] + After(t, p))
  {
    hide *;
    FlatAt(t, p);
    var n := Sub(t, p);
    FlatInner(n);
    InnerSplit(n, Before(t, p), After(t, p));
  }

  lemma {:induction false} InnerSplit(n: Tree, b: seq<Sym>, a: seq<Sym>)
    ensures b + ([Open(n.name)] + Inner(n)) + a == b + [Open(n.name)] + Attrs(n.props) + (FlatAll(n.kids) + [Close] + a)
  {
    hide Attrs, FlatAll;
  }

  lemma {:induction false} FlatCut(t: Tree, p: seq<nat>, k: nat)
    requires IsPath(t, p) && k <= |Sub(t, p).props|
    ensures var n := Sub(t, p); var i := |Before(t, p)| + 1 + k;
      && i < |Flat(t)|
      && Flat(t)[..i] == Before(t, p) + [Open(n.name)] + Attrs(n.props[..k])
      && Flat(t)[i..] == Attrs(n.props[k..]) + (FlatAll(n.kids) + [Close] + After(t, p))
  {
    hide *;
    FlatSplit(t, p);
    var n := Sub(t, p);
    assert n.props[..k] + n.props[k..] == n.props;
    AttrsAppend(n.props[..k], n.props[k..]);
    var a, z := Before(t, p) + [Open(n.name)], FlatAll(n.kids) + [Close] + After(t, p);
    assert Flat(t) == (a + Attrs(n.props[..k])) + (Attrs(n.props[k..]) + z);
  }

  /** Replacing properties `k..j` of the node at `p` replaces the symbols in their place. */
  lemma {:induction false} FlatProps(t: Tree, p: seq<nat>, k: nat, j: nat, qs: seq<Property>)
    requires IsPath(t, p) && k <= j <= |Sub(t, p).props|
    ensures var n := Sub(t, p); var i := |Before(t, p)| + 1;
      && i + j <= |Flat(t)|
      && Flat(Put(t, p, n.(props := n.props[..k] + qs + n.props[j..])))
           == Flat(t)[..i + k] + Attrs(qs) + Flat(t)[i + j..]
  {
    hide *;
    var n := Sub(t, p);
    var ps := n.props[..k] + qs + n.props[j..];
    FlatCut(t, p, k);
    FlatCut(t, p, j);
    FlatPut(t, p, n.(props := ps));
    FlatInner(n.(props := ps));
    InnerSplit(n.(props := ps), Before(t, p), After(t, p));
    AttrsAppend(n.props[..k], qs);
    AttrsAppend(n.props[..k] + qs, n.props[j..]);
    Regroup(Before(t, p) + [Open(n.name)], Attrs(n.props[..k]), Attrs(qs), Attrs(n.props[j..]),
      FlatAll(n.kids) + [Close] + After(t, p));
  }

  lemma {:induction false} Regroup<T>(a: seq<T>, b: seq<T>, c: seq<T>, d: seq<T>, e: seq<T>)
    ensures a + (b + c + d) + e == (a + b) + c + (d + e)
  {
  }

  // ---------- Stability of offsets ----------

  /** Replacing the subtree at `p` leaves every path to a node at or before `p` in place. */
  lemma {:induction false} BeforeStable(t: Tree, p: seq<nat>, n: Tree, q: seq<nat>)
    requires IsPath(t, p) && IsPath(t, q) && |Before(t, q)| <= |Before(t, p)|
    ensures IsPath(Put(t, p, n), q) && Before(Put(t, p, n), q) == Before(t, q)
    decreases |p|
  {
    hide Flat, FlatAll, Attrs;
    if q != [] && p != [] {
      var i, j := q[0], p[0];
      var u := Put(t, p, n);
      if i == j {
        BeforeStable(t.kids[i], p[1..], n, q[1..]);
        assert u.kids[..i] == t.kids[..i];
      } else if i < j {
        assert u.kids[..i] == t.kids[..i] && u.kids[i] == t.kids[i];
      } else {
        BeforeFits(t.kids[j], p[1..]);
        FlatAllLonger(t.kids, j, i);
        assert false;
      }
    }
  }

  lemma {:induction false} BeforeFits(t: Tree, p: seq<nat>)
    requires IsPath(t, p)
    ensures |Before(t, p)| < |Flat(t)|
  {
    hide Before, After, Sub, IsPath;
    FlatAt(t, p);
  }

  lemma {:induction false} FlatAllLonger(ks: seq<Tree>, j: nat, i: nat)
    requires j < i <= |ks|
    ensures |FlatAll(ks[..i])| >= |FlatAll(ks[..j])| + |Flat(ks[j])|
  {
    hide Flat, FlatAll;
    FlatAllPick(ks[..i], j);
    assert ks[..i][..j] == ks[..j];
  }

  /** The nodes at or before the node at `p` keep their offsets. */
  ghost predicate Stable(b: Blob, t: Tree, p: seq<nat>, c: Blob, u: Tree)
    requires b.Ordered() && c.Ordered() && IsPath(t, p)
  {
    forall q | IsPath(t, q) && |Before(t, q)| <= |Before(t, p)| ::
      IsPath(u, q) && Offset(c, u, q) == Offset(b, t, q)
  }

  lemma {:induction false} StableFrom(b: Blob, t: Tree, p: seq<nat>, c: Blob, n: Tree)
    requires b.Ordered() && c.Ordered() && IsPath(t, p)
    requires forall k :: 0 <= k <= |Before(t, p)| ==> SymOffset(c.Struct(), 0, k) == SymOffset(b.Struct(), 0, k)
    ensures Stable(b, t, p, c, Put(t, p, n))
  {
    hide Before, SymOffset, IsPath, Put;
    forall q | IsPath(t, q) && |Before(t, q)| <= |Before(t, p)|
      ensures IsPath(Put(t, p, n), q) && Offset(c, Put(t, p, n), q) == Offset(b, t, q)
    {
      BeforeStable(t, p, n, q);
    }
  }

  // ---------- Properties in place ----------

  /** The property token with name offset `off` and value `v` stands at `x`. */
  ghost predicate PropStands(s: seq<byte>, x: nat, off: u32, v: seq<byte>) {
    && x % 4 == 0 && x + 12 + Align4(|v|) <= |s|
    && Word(s, x) == FDT_PROP && Word(s, x + 4) == |v| && Word(s, x + 8) == off && s[x + 12..x + 12 + |v|] == v
  }

  /** Where property `k` of the node at `p` stands, and what surrounds it. */
  lemma {:induction false} AtProp(b: Blob, t: Tree, p: seq<nat>, k: nat) returns (pre: seq<Token>, off: u32, end: nat)
    requires Decoded(b, t) && IsPath(t, p) && k < |Sub(t, p).props|
    ensures var x := PropOffset(b.Struct(), t, p, k); var q := Sub(t, p).props[k];
      PropStands(b.Struct(), x, off, q.value) && GetString(b.Strings(), off) == Ok(q.name)
        && end == x + 12 + Align4(|q.value|)
    ensures end <= b.sizeStruct && end % 4 == 0 && |Before(t, p)| + 1 + k < |Flat(t)|
    ensures Walk(b.Struct(), 0, pre, PropOffset(b.Struct(), t, p, k))
    ensures Syms(b.Strings(), pre) == Flat(t)[..|Before(t, p)| + 1 + k]
    ensures Scan(b.Struct(), end).Ok? && Syms(b.Strings(), Scan(b.Struct(), end).value)
      == Flat(t)[|Before(t, p)| + 1 + k + 1..]
  {
    hide NextTag, SymOffset, Flat, Walk, Scan, Syms, Before, After, Sub, IsPath, Attrs, FlatAll;
    var s, strs := b.Struct(), b.Strings();
    var i := |Before(t, p)| + 1 + k;
    var q := Sub(t, p).props[k];
    FlatCut(t, p, k);
    assert Flat(t)[i] == Flat(t)[i..][0];
    AttrsHead(Sub(t, p).props, k);
    pre := Locate(s, strs, Flat(t), i);
    var x := SymOffset(s, 0, i);
    TokenWithin(s, x);
    off := PropSymbol(s, strs, x, q);
    end := NextTag(s, x).next;
  }

  lemma {:induction false} AttrsHead(ps: seq<Property>, k: nat)
    requires k < |ps|
    ensures Attrs(ps[k..])[0] == Attr(ps[k])
  {
  }

  lemma {:induction false} PropSymbol(s: seq<byte>, strs: seq<byte>, x: nat, q: Property) returns (off: u32)
    requires NextTag(s, x).Tok? && x % 4 == 0 && SymsOf(strs, NextTag(s, x).token) == [Attr(q)]
    requires NextTag(s, x).next <= |s|
    ensures PropStands(s, x, off, q.value) && GetString(strs, off) == Ok(q.name)
    ensures NextTag(s, x).next == x + 12 + Align4(|q.value|)
  {
    hide GetString;
    off := NextTag(s, x).token.nameoff;
    Align4Shift(|q.value|, x + 12);
  }

  /** A token followed by a scan lies inside the block. */
  lemma {:induction false} TokenWithin(s: seq<byte>, x: nat)
    requires NextTag(s, x).Tok? && Scan(s, NextTag(s, x).next).Ok?
    ensures NextTag(s, x).next <= |s|
  {
  }

  /** `g` is a property token like the one at `x`, its value cut to `keep` bytes and followed by `val`. */
  ghost predicate Rewritten(s: seq<byte>, x: nat, keep: nat, val: seq<byte>, g: seq<byte>)
    requires x + 12 + keep <= |s|
  {
    && |g| == 12 + Align4(keep + |val|)
    && Word(g, 0) == Word(s, x) && Word(g, 4) == keep + |val| && Word(g, 8) == Word(s, x + 8)
    && g[12..12 + (keep + |val|)] == s[x + 12..x + 12 + keep] + val
  }

  /** The bytes Resize leaves. */
  lemma {:induction false} ResizeBlocks(b: Blob, x: nat, keep: nat, val: seq<byte>)
    requires b.Ordered() && x + 12 <= b.sizeStruct && keep <= Word(b.Struct(), x + 4)
    requires keep + |val| < 0x8000_0000 && x + 12 + Align4(Word(b.Struct(), x + 4)) <= b.sizeStruct
    ensures var r := Resize(b, x, keep, val); var o, w := Align4(Word(b.Struct(), x + 4)), Align4(keep + |val|);
      && (r.r.Ok? <==> b.DataSize() - o + w <= |b.data|)
      && (r.r.Err? ==> r == Out(Err(NoSpace), b))
      && (r.r.Ok? ==>
           Moved(b, r.blob, x, 12 + o, 12 + w)
           && Rewritten(b.Struct(), x, keep, val, r.blob.Struct()[x..x + 12 + w]))
  {
    hide Moved, Word, Rewritten;
    var o, w := Align4(Word(b.Struct(), x + 4)), Align4(keep + |val|);
    var sp := SpliceStruct(b, x + 12, o, w);
    if sp.Ok? {
      MovedSplice(b, x + 12, o, w);
      MovedWiden(b, sp.value, x + 12, o, w, x);
      hide Memmove, Align4;
      ResizeStores(b, sp.value, x, o, keep, val);
    }
  }

  lemma {:induction false} ResizeStores(b: Blob, c0: Blob, x: nat, o: nat, keep: nat, val: seq<byte>)
    requires keep + |val| < 0x8000_0000 && keep <= o && Moved(b, c0, x, 12 + o, 12 + Align4(keep + |val|))
    requires forall i :: 0 <= i < b.offStruct + x + 12 + Align4(keep + |val|) ==> c0.data[i] == b.data[i]
    ensures var w := Align4(keep + |val|); var d := Poke(c0.data, b.offStruct + x + 4, Be32(keep + |val|));
      var c := c0.(data := Poke(d, b.offStruct + x + 12 + keep, val));
      Moved(b, c, x, 12 + o, 12 + w) && Rewritten(b.Struct(), x, keep, val, c.Struct()[x..x + 12 + w])
  {
    hide Be32, Word, Align4, Poke, Rewritten, Moved;
    MovedHeader(b, c0, x, 12 + o, 12 + Align4(keep + |val|));
    var at, w := b.offStruct + x, Align4(keep + |val|);
    var c1 := c0.(data := Poke(c0.data, at + 4, Be32(keep + |val|)));
    ResizeWrites(b, c0, x, o, keep, val);
    MovedPoke(b, c0, x, 12 + o, 12 + w, x + 4, Be32(keep + |val|));
    MovedPoke(b, c1, x, 12 + o, 12 + w, x + 12 + keep, val);
  }

  lemma {:induction false} ResizeWrites(b: Blob, c0: Blob, x: nat, o: nat, keep: nat, val: seq<byte>)
    requires keep + |val| < 0x8000_0000 && keep <= o && b.Ordered() && c0.Ordered() && x + 12 + o <= b.sizeStruct
    requires |c0.data| == |b.data| && c0.offStruct == b.offStruct && x + 12 + Align4(keep + |val|) <= c0.sizeStruct
    requires forall i :: 0 <= i < b.offStruct + x + 12 + Align4(keep + |val|) ==> c0.data[i] == b.data[i]
    ensures var w := Align4(keep + |val|); var d := Poke(c0.data, b.offStruct + x + 4, Be32(keep + |val|));
      var c := c0.(data := Poke(d, b.offStruct + x + 12 + keep, val));
      Rewritten(b.Struct(), x, keep, val, c.Struct()[x..x + 12 + w])
  {
    hide Be32, Word, Align4, Poke;
    var at, w := b.offStruct + x, Align4(keep + |val|);
    var c := c0.(data := Poke(Poke(c0.data, at + 4, Be32(keep + |val|)), at + 12 + keep, val));
    PokeTwice(c0.data, at + 4, Be32(keep + |val|), at + 12 + keep, val);
    StoredWords(b, c, x, w, keep + |val|);
    StoredValue(b, c, x, w, keep, val);
  }

  lemma {:induction false} StoredWords(b: Blob, c: Blob, x: nat, w: nat, len: u32)
    requires |c.data| == |b.data| && b.Ordered() && c.Ordered() && c.offStruct == b.offStruct && x + 12 <= b.sizeStruct
      && x + 12 + w <= c.sizeStruct
    requires forall i :: b.offStruct + x <= i < b.offStruct + x + 4 ==> c.data[i] == b.data[i]
    requires forall i :: b.offStruct + x + 8 <= i < b.offStruct + x + 12 ==> c.data[i] == b.data[i]
    requires c.data[b.offStruct + x + 4..b.offStruct + x + 8] == Be32(len)
    ensures var s, g := b.Struct(), c.Struct()[x..x + 12 + w];
      Word(g, 0) == Word(s, x) && Word(g, 4) == len && Word(g, 8) == Word(s, x + 8)
  {
    hide Be32, Word;
    var s, g := b.Struct(), c.Struct()[x..x + 12 + w];
    var at := b.offStruct + x;
    StoredSlice(c, x, w, 0);
    StoredSlice(c, x, w, 4);
    StoredSlice(c, x, w, 8);
    StructSlice(b, x, x + 4);
    StructSlice(b, x + 8, x + 12);
    SliceEq(b.data, c.data, at, at + 4);
    SliceEq(b.data, c.data, at + 8, at + 12);
    WordEq(s, x, g, 0);
    WordEq(s, x + 8, g, 8);
    WordOfBe32(g, 4, len);
  }

  lemma {:induction false} StoredSlice(c: Blob, x: nat, w: nat, k: nat)
    requires c.Ordered() && x + 12 + w <= c.sizeStruct && k <= 8
    ensures c.Struct()[x..x + 12 + w][k..k + 4] == c.data[c.offStruct + x + k..c.offStruct + x + k + 4]
  {
    SliceSlice(c.Struct(), x, x + 12 + w, k, k + 4);
    StructSlice(c, x + k, x + k + 4);
  }

  lemma {:induction false} WordEq(s: seq<byte>, x: nat, t: seq<byte>, y: nat)
    requires x + 4 <= |s| && y + 4 <= |t| && s[x..x + 4] == t[y..y + 4]
    ensures Word(s, x) == Word(t, y)
  {
    var u, v := s[x..x + 4], t[y..y + 4];
    assert u[0] == s[x] && u[1] == s[x + 1] && u[2] == s[x + 2] && u[3] == s[x + 3];
    assert v[0] == t[y] && v[1] == t[y + 1] && v[2] == t[y + 2] && v[3] == t[y + 3];
  }

  lemma {:induction false} StoredValue(b: Blob, c: Blob, x: nat, w: nat, keep: nat, val: seq<byte>)
    requires b.Ordered() && c.Ordered() && c.offStruct == b.offStruct && x + 12 + keep <= b.sizeStruct
    requires x + 12 + w <= c.sizeStruct && keep + |val| <= w
    requires forall i :: b.offStruct + x + 12 <= i < b.offStruct + x + 12 + keep ==> c.data[i] == b.data[i]
    requires c.data[b.offStruct + x + 12 + keep..b.offStruct + x + 12 + keep + |val|] == val
    ensures var s, g := b.Struct(), c.Struct()[x..x + 12 + w];
      g[12..12 + (keep + |val|)] == s[x + 12..x + 12 + keep] + val
  {
    var s, g := b.Struct(), c.Struct()[x..x + 12 + w];
    var at := b.offStruct + x + 12 + keep;
    assert forall k {:trigger g[k]} :: 12 <= k < 12 + keep ==> g[k] == s[x + k];
    forall k | 0 <= k < |val| ensures g[12 + keep + k] == val[k] {
      assert c.data[at..at + |val|][k] == c.data[at + k];
    }
    var v := s[x + 12..x + 12 + keep] + val;
    assert forall k {:trigger v[k]} :: 0 <= k < |v| ==> g[12 + k] == v[k];
    assert g[12..12 + (keep + |val|)] == v;
  }

  // ---------- The refinements ----------

  /** `c` is `b` with the node at `p` turned into `n`: all else, and every earlier offset, is kept. */
  ghost predicate Refines(b: Blob, t: Tree, p: seq<nat>, c: Blob, n: Tree)
    requires b.Ordered() && IsPath(t, p)
  {
    && Decoded(c, Put(t, p, n)) && Stable(b, t, p, c, Put(t, p, n))
    && |c.data| == |b.data| && c.offRsv == b.offRsv && c.offStruct == b.offStruct
    && c.data[..c.offStruct] == b.data[..b.offStruct]
  }

  /** `c` uses so many bytes more than `b`, among them `more` at the end of the strings. */
  predicate Grew(b: Blob, c: Blob, n: int, more: seq<byte>) {
    b.Ordered() && c.Ordered() && c.DataSize() == b.DataSize() + n && c.Strings() == b.Strings() + more
  }

  lemma {:induction false} MovedGrew(b: Blob, c: Blob, x: nat, oldlen: nat, newlen: nat)
    requires Moved(b, c, x, oldlen, newlen)
    ensures Grew(b, c, newlen - oldlen, [])
  {
    hide Splice;
    MovedBlocks(b, c, x, oldlen, newlen);
    assert b.Strings() + [] == b.Strings();
  }

  /** One replaced token range, seen from the node that owns it. */
  lemma {:induction false} RefinesBySyms(b: Blob, t: Tree, p: seq<nat>, c: Blob, n: Tree, more: seq<byte>, i: nat,
                                         j: nat, x: nat, e: nat, pre: seq<Token>, mid: seq<Token>)
    requires Decoded(b, t) && IsPath(t, p) && c.Ordered() && x <= e <= b.sizeStruct && e % 4 == 0
    requires x <= c.sizeStruct - (b.sizeStruct - e) && (c.sizeStruct - (b.sizeStruct - e) - x) % 4 == 0
    requires c.Struct() == Splice(b.Struct(), x, e, c.Struct()[x..c.sizeStruct - (b.sizeStruct - e)])
    requires c.Strings() == b.Strings() + more
    requires |c.data| == |b.data| && c.offRsv == b.offRsv && c.offStruct == b.offStruct
      && c.data[..c.offStruct] == b.data[..b.offStruct]
    requires |Before(t, p)| < i <= j <= |Flat(t)|
    requires Walk(b.Struct(), 0, pre, x) && Syms(b.Strings(), pre) == Flat(t)[..i]
    requires Scan(b.Struct(), e).Ok? && Syms(b.Strings(), Scan(b.Struct(), e).value) == Flat(t)[j..]
    requires var g := c.Struct()[x..c.sizeStruct - (b.sizeStruct - e)]; Walk(g, 0, mid, |g|)
    requires Flat(Put(t, p, n)) == Flat(t)[..i] + Syms(b.Strings() + more, mid) + Flat(t)[j..]
    ensures Refines(b, t, p, c, n)
    ensures mid != [] && !mid[0].Nop? ==> SymOffset(c.Struct(), 0, i) == x
  {
    hide NextTag, SymOffset, Flat, Walk, Scan, Syms, Before, IsPath, Put, Splice, Stable;
    var g := c.Struct()[x..c.sizeStruct - (b.sizeStruct - e)];
    ReplaceSyms(b.Struct(), b.Strings(), t, more, i, j, x, e, g, pre, mid, Put(t, p, n));
    StableFrom(b, t, p, c, n);
  }

  lemma {:induction false} SymsProp(strs: seq<byte>, off: u32, q: Property)
    requires GetString(strs, off) == Ok(q.name)
    ensures Syms(strs, [Prop(off, q.value)]) == Attrs([q])
  {
    hide GetString;
    SymsOne(strs, Prop(off, q.value));
  }

  lemma {:induction false} RewrittenToken(s: seq<byte>, x: nat, off: u32, v: seq<byte>, keep: nat, val: seq<byte>,
                                          g: seq<byte>)
    requires PropStands(s, x, off, v) && keep <= |v| && keep + |val| < 0x8000_0000 && Rewritten(s, x, keep, val, g)
    ensures Walk(g, 0, [Prop(off, v[..keep] + val)], |g|)
  {
    hide Walk, Word;
    assert s[x + 12..x + 12 + keep] == v[..keep];
    PropToken(g, off, v[..keep] + val);
  }

  /** Giving property `k` the value `keep` old bytes followed by `val`. */
  lemma {:induction false} ResizeCorrect(b: Blob, t: Tree, p: seq<nat>, k: nat, keep: nat, val: seq<byte>)
    requires Decoded(b, t) && IsPath(t, p) && k < |Sub(t, p).props|
    requires keep <= |Sub(t, p).props[k].value| && keep + |val| < 0x8000_0000
    ensures var n := Sub(t, p); var q := n.props[k]; var x := PropOffset(b.Struct(), t, p, k);
      && x + 12 <= b.sizeStruct && Word(b.Struct(), x + 4) == |q.value|
      && var r := Resize(b, x, keep, val);
      && (r.r.Ok? <==> b.DataSize() - Align4(|q.value|) + Align4(keep + |val|) <= |b.data|)
      && (r.r.Err? ==> r == Out(Err(NoSpace), b))
      && (r.r.Ok? ==> Refines(b, t, p, r.blob, n.(props := n.props[k := Property(q.name, q.value[..keep] + val)])))
      && (r.r.Ok? ==> Grew(b, r.blob, Align4(keep + |val|) - Align4(|q.value|), []))
  {
    hide NextTag, SymOffset, Flat, Walk, Scan, Syms, Before, Sub, IsPath, Put, Refines, Moved, Rewritten, Word, Resize,
      Align4, Decodes, Splice, Grew;
    var n := Sub(t, p);
    var q := n.props[k];
    var x := PropOffset(b.Struct(), t, p, k);
    var pre, off, end := AtProp(b, t, p, k);
    ResizeBlocks(b, x, keep, val);
    var r := Resize(b, x, keep, val);
    if r.r.Ok? {
      var w := 12 + Align4(keep + |val|);
      MovedHeader(b, r.blob, x, end - x, w);
      MovedGrew(b, r.blob, x, end - x, w);
      RewrittenToken(b.Struct(), x, off, q.value, keep, val, r.blob.Struct()[x..x + w]);
      ResizeRefines(b, t, p, k, q.value[..keep] + val, r.blob, pre, off, x, end, w);
    }
  }

  lemma {:induction false} ResizeRefines(b: Blob, t: Tree, p: seq<nat>, k: nat, val: seq<byte>, c: Blob,
                                         pre: seq<Token>, off: u32, x: nat, end: nat, w: nat)
    requires Decoded(b, t) && IsPath(t, p) && k < |Sub(t, p).props| && w % 4 == 0 && end % 4 == 0 && x <= end
    requires Moved(b, c, x, end - x, w) && Walk(c.Struct()[x..x + w], 0, [Prop(off, val)], w)
    requires GetString(b.Strings(), off) == Ok(Sub(t, p).props[k].name) && |Before(t, p)| + 1 + k < |Flat(t)|
    requires Walk(b.Struct(), 0, pre, x) && Syms(b.Strings(), pre) == Flat(t)[..|Before(t, p)| + 1 + k]
    requires Scan(b.Struct(), end).Ok? && Syms(b.Strings(), Scan(b.Struct(), end).value)
      == Flat(t)[|Before(t, p)| + 1 + k + 1..]
    ensures var n := Sub(t, p); Refines(b, t, p, c, n.(props := n.props[k := Property(n.props[k].name, val)]))
  {
    hide NextTag, SymOffset, Flat, Walk, Scan, Syms, Before, Sub, IsPath, Put, Refines, Moved, Decodes, Splice,
      GetString;
    var n, i := Sub(t, p), |Before(t, p)| + 1 + k;
    var v := Property(n.props[k].name, val);
    MovedBlocks(b, c, x, end - x, w);
    MovedHeader(b, c, x, end - x, w);
    assert b.Strings() + [] == b.Strings();
    SymsProp(b.Strings(), off, v);
    FlatProps(t, p, k, k + 1, [v]);
    assert n.props[k := v] == n.props[..k] + [v] + n.props[k + 1..];
    RefinesBySyms(b, t, p, c, n.(props := n.props[k := v]), [], i, i + 1, x, end, pre, [Prop(off, val)]);
  }

  lemma {:induction false} MovedHeader(b: Blob, c: Blob, x: nat, oldlen: nat, newlen: nat)
    requires Moved(b, c, x, oldlen, newlen)
    ensures b.Ordered() && c.Ordered() && |c.data| == |b.data| && c.offRsv == b.offRsv && c.offStruct == b.offStruct
    ensures c.sizeStruct - b.sizeStruct == newlen - oldlen && x + oldlen <= b.sizeStruct
  {
  }

  /** The stores of fdt_add_property_ after its splice. */
  lemma {:induction false} AddStores(c: Blob, d: Blob, m: nat, off: u32, val: seq<byte>)
    requires Moved(c, d, m, 0, 12 + Align4(|val|)) && |val| < 0x8000_0000 && m % 4 == 0
    ensures var e := d.(data := Poke(d.data, d.offStruct + m, PropHeader(|val|, off) + val));
      var w := 12 + Align4(|val|);
      Moved(c, e, m, 0, w) && Walk(e.Struct()[m..m + w], 0, [Prop(off, val)], w)
  {
    hide Walk, Poke, Word, Align4, Be32;
    var w := 12 + Align4(|val|);
    var v := PropHeader(|val|, off) + val;
    var e := d.(data := Poke(d.data, d.offStruct + m, v));
    MovedPoke(c, d, m, 0, w, m, v);
    hide Moved;
    MovedHeader(c, e, m, 0, w);
    PokeBytes(d.data, d.offStruct + m, v);
    var g := e.Struct()[m..m + w];
    StructSlice(e, m, m + |v|);
    assert g[..|v|] == e.Struct()[m..m + |v|];
    assert g[..|v|] == v;
    AddToken(g, v, off, val);
  }

  lemma {:induction false} StructSlice(b: Blob, x: nat, y: nat)
    requires b.Ordered() && x <= y <= b.sizeStruct
    ensures b.Struct()[x..y] == b.data[b.offStruct + x..b.offStruct + y]
  {
    SliceSlice(b.data, b.offStruct, b.offStruct + b.sizeStruct, x, y);
  }

  lemma {:induction false} AddToken(g: seq<byte>, v: seq<byte>, off: u32, val: seq<byte>)
    requires |val| < 0x8000_0000 && |g| == 12 + Align4(|val|) && v == PropHeader(|val|, off) + val && g[..|v|] == v
    ensures Walk(g, 0, [Prop(off, val)], |g|)
  {
    hide Walk, Word, Align4, Be32;
    assert g[0..4] == v[0..4] && g[4..8] == v[4..8] && g[8..12] == v[8..12] && g[12..12 + |val|] == v[12..];
    assert v[0..4] == Be32(FDT_PROP) && v[4..8] == Be32(|val|) && v[8..12] == Be32(off) && v[12..] == val;
    WordOfBe32(g, 0, FDT_PROP);
    WordOfBe32(g, 4, |val|);
    WordOfBe32(g, 8, off);
    PropToken(g, off, val);
  }

  /** fdt_add_property_: the property becomes the node's first, or there is no room and nothing changes. */
  lemma {:induction false} AddCorrect(b: Blob, t: Tree, p: seq<nat>, name: seq<byte>, val: seq<byte>)
    requires Decoded(b, t) && IsPath(t, p) && IsCString(name) && |val| < INT32_MAX
    ensures var n := Sub(t, p); var r := AddProperty(b, Offset(b, t, p), name, val);
      && (r.r.Ok? <==> b.DataSize() + |Added(b.Strings(), name)| + 12 + Align4(|val|) <= |b.data|)
      && (r.r.Err? ==> r.r.error == NoSpace && SameBlocks(b, r.blob))
      && (r.r.Ok? ==> Refines(b, t, p, r.blob, n.(props := [Property(name, val)] + n.props)))
      && (r.r.Ok? ==> Grew(b, r.blob, |Added(b.Strings(), name)| + 12 + Align4(|val|), Added(b.Strings(), name)))
  {
    hide NextTag, SymOffset, Flat, Walk, Scan, Syms, Before, After, Sub, IsPath, Put, Refines, Moved, Align4, Decodes,
      Splice, Inner, GetString, FindString, Memmove, Poke, PropHeader, FindAddString, Added, NodeOffset;
    var pre, m := AtNode(b.Struct(), b.Strings(), t, p);
    FindAddBlocks(b, name);
    var f, more := FindAddString(b, name), Added(b.Strings(), name);
    if f.r.Ok? {
      var c := f.blob;
      ScanWithin(b.Struct(), m);
      var w := 12 + Align4(|val|);
      var s := SpliceStruct(c, m, 0, w);
      if s.Ok? {
        MovedCut(c, m, 0, w);
        MovedHeader(c, s.value, m, 0, w);
        AddStores(c, s.value, m, f.r.value.0, val);
        var d := AddProperty(b, Offset(b, t, p), name, val).blob;
        AddRefines(b, t, p, name, val, pre + [BeginNode(Sub(t, p).name)], m, c, d, f.r.value.0, more);
        MovedGrew(c, d, m, 0, w);
      }
    }
  }

  lemma {:induction false} ScanWithin(s: seq<byte>, m: nat)
    requires Scan(s, m).Ok?
    ensures m + 4 <= |s|
  {
  }

  /** `pre` leads into the node at `p`: its content starts at `m`. */
  ghost predicate Entered(s: seq<byte>, strs: seq<byte>, t: Tree, p: seq<nat>, pre: seq<Token>, m: nat)
    requires IsPath(t, p)
  {
    && m % 4 == 0 && Walk(s, 0, pre, m) && Syms(strs, pre) == Before(t, p) + [Open(Sub(t, p).name)]
    && Scan(s, m).Ok? && Syms(strs, Scan(s, m).value) == Inner(Sub(t, p)) + After(t, p)
  }

  /** `c` is `b` with `more` appended to the strings. */
  ghost predicate Longer(b: Blob, c: Blob, more: seq<byte>) {
    && b.Ordered() && c.Ordered() && c.offRsv == b.offRsv && c.offStruct == b.offStruct && |c.data| == |b.data|
    && c.Struct() == b.Struct() && c.Strings() == b.Strings() + more
    && forall i :: 0 <= i < b.DataSize() ==> c.data[i] == b.data[i]
  }

  lemma {:induction false} AddRefines(b: Blob, t: Tree, p: seq<nat>, name: seq<byte>, val: seq<byte>, pre: seq<Token>,
                                      m: nat, c: Blob, d: Blob, off: u32, more: seq<byte>)
    requires Decoded(b, t) && IsPath(t, p) && Entered(b.Struct(), b.Strings(), t, p, pre, m)
    requires Longer(b, c, more) && GetString(c.Strings(), off) == Ok(name)
    requires var w := 12 + Align4(|val|); Moved(c, d, m, 0, w) && Walk(d.Struct()[m..m + w], 0, [Prop(off, val)], w)
    ensures var n := Sub(t, p); Refines(b, t, p, d, n.(props := [Property(name, val)] + n.props))
  {
    hide NextTag, SymOffset, Flat, Walk, Scan, Syms, Before, After, Sub, IsPath, Put, Refines, Moved, Align4, Decodes,
      Splice, Inner, GetString, Attrs, FlatAll;
    var n, w, q := Sub(t, p), 12 + Align4(|val|), Property(name, val);
    MovedHeader(c, d, m, 0, w);
    MovedBlocks(c, d, m, 0, w);
    SymsProp(b.Strings() + more, off, q);
    FlatProps(t, p, 0, 0, [q]);
    FlatCut(t, p, 0);
    var i := |Before(t, p)| + 1;
    assert n.props[..0] + [q] + n.props[0..] == [q] + n.props;
    AttrsNil();
    assert n.props[..0] == [] && n.props[0..] == n.props;
    assert Before(t, p) + [Open(n.name)] + [] == Before(t, p) + [Open(n.name)];
    InnerTail(n, After(t, p));
    assert d.data[..d.offStruct] == b.data[..b.offStruct];
    RefinesBySyms(b, t, p, d, n.(props := [q] + n.props), more, i, i, m, m, pre, [Prop(off, val)]);
  }

  lemma {:induction false} AttrsNil()
    ensures Attrs([]) == []
  {
  }

  lemma {:induction false} InnerTail(n: Tree, a: seq<Sym>)
    ensures Inner(n) + a == Attrs(n.props) + (FlatAll(n.kids) + [Close] + a)
  {
    hide Attrs, FlatAll;
  }

  /** Bytes fdt_setprop needs beyond those in use. */
  ghost function SetNeed(b: Blob, n: Tree, name: seq<byte>, val: seq<byte>): int
    requires b.Ordered()
  {
    var k := FirstProp(n.props, name);
    if k < |n.props| then Align4(|val|) - Align4(|n.props[k].value|)
      else |Added(b.Strings(), name)| + 12 + Align4(|val|)
  }

  /** What fdt_setprop enters into the strings. */
  ghost function SetNames(b: Blob, n: Tree, name: seq<byte>): seq<byte>
    requires b.Ordered()
  {
    if FirstProp(n.props, name) < |n.props| then [] else Added(b.Strings(), name)
  }

  ghost function AppendNeed(b: Blob, n: Tree, name: seq<byte>, val: seq<byte>): int
    requires b.Ordered()
  {
    var k := FirstProp(n.props, name);
    if k < |n.props| then Align4(|n.props[k].value| + |val|) - Align4(|n.props[k].value|)
    else |Added(b.Strings(), name)| + 12 + Align4(|val|)
  }

  /** fdt_setprop refines setting one property; it fails only for want of room, and then changes no block. */
  lemma {:induction false} SetPropCorrect(b: Blob, t: Tree, p: seq<nat>, name: seq<byte>, val: seq<byte>)
    requires Decoded(b, t) && IsPath(t, p) && IsCString(name) && |val| < INT32_MAX
    ensures var n := Sub(t, p); var r := SetProp(b, Offset(b, t, p), name, val);
      && (r.r.Ok? <==> b.DataSize() + SetNeed(b, n, name, val) <= |b.data|)
      && (r.r.Err? ==> r.r.error == NoSpace && SameBlocks(b, r.blob))
      && (r.r.Ok? ==> Refines(b, t, p, r.blob, WithProp(n, name, val)))
      && (r.r.Ok? ==> Grew(b, r.blob, SetNeed(b, n, name, val), SetNames(b, n, name)))
  {
    hide NextTag, SymOffset, Flat, Before, Sub, IsPath, Put, Refines, Align4, Decodes, FindProp, Resize, AddProperty,
      Added, PropOffset, NodeOffset, Grew;
    var n := Sub(t, p);
    FindPropAt(b.Struct(), b.Strings(), t, p, name);
    var k := FirstProp(n.props, name);
    if k < |n.props| {
      ResizeCorrect(b, t, p, k, 0, val);
      assert n.props[k].value[..0] + val == val;
    } else {
      AddCorrect(b, t, p, name, val);
    }
  }

  /** The two values together have a length that no int holds. */
  predicate TooLong(n: Tree, name: seq<byte>, val: seq<byte>) {
    var k := FirstProp(n.props, name);
    k < |n.props| && |n.props[k].value| + |val| > INT32_MAX
  }

  /** fdt_appendprop refines lengthening one property, or creating it. */
  lemma {:induction false} AppendPropCorrect(b: Blob, t: Tree, p: seq<nat>, name: seq<byte>, val: seq<byte>)
    requires Decoded(b, t) && IsPath(t, p) && IsCString(name) && |val| < INT32_MAX
    ensures var n := Sub(t, p); var r := AppendProp(b, Offset(b, t, p), name, val);
      && (r.r == Err(Wild) <==> TooLong(n, name, val))
      && (!TooLong(n, name, val) ==> (r.r.Ok? <==> b.DataSize() + AppendNeed(b, n, name, val) <= |b.data|))
      && (r.r.Err? && r.r.error != Wild ==> r.r.error == NoSpace && SameBlocks(b, r.blob))
      && (r.r.Ok? ==> Refines(b, t, p, r.blob, WithAppended(n, name, val)))
  {
    hide FindProp, AppendProp, AddProperty, Sub, IsPath, Refines, FirstProp, Decodes, WithAppended, NodeOffset,
      PropOffset, Align4, Added;
    FindPropAt(b.Struct(), b.Strings(), t, p, name);
    if FirstProp(Sub(t, p).props, name) < |Sub(t, p).props| {
      AppendExisting(b, t, p, name, val);
    } else {
      AddCorrect(b, t, p, name, val);
      AppendFresh(b, t, p, name, val);
    }
  }

  lemma {:induction false} AppendFresh(b: Blob, t: Tree, p: seq<nat>, name: seq<byte>, val: seq<byte>)
    requires b.Ordered() && IsPath(t, p) && |val| < INT32_MAX && FirstProp(Sub(t, p).props, name) == |Sub(t, p).props|
    requires FindProp(b.Struct(), b.Strings(), Offset(b, t, p), name).Err?
    ensures AppendProp(b, Offset(b, t, p), name, val) == AddProperty(b, Offset(b, t, p), name, val)
    ensures var n := Sub(t, p); WithAppended(n, name, val) == n.(props := [Property(name, val)] + n.props)
  {
    hide AddProperty, FindProp, Sub, IsPath, NodeOffset, Resize;
    assert [] + val == val;
  }

  lemma {:induction false} AppendExisting(b: Blob, t: Tree, p: seq<nat>, name: seq<byte>, val: seq<byte>)
    requires Decoded(b, t) && IsPath(t, p) && |val| < INT32_MAX
    requires FirstProp(Sub(t, p).props, name) < |Sub(t, p).props|
    requires FindProp(b.Struct(), b.Strings(), Offset(b, t, p), name)
      == Ok(PropOffset(b.Struct(), t, p, FirstProp(Sub(t, p).props, name)))
    ensures var n := Sub(t, p); var r := AppendProp(b, Offset(b, t, p), name, val);
      && (TooLong(n, name, val) ==> r.r == Err(Wild))
      && (!TooLong(n, name, val) ==> (r.r.Ok? <==> b.DataSize() + AppendNeed(b, n, name, val) <= |b.data|))
      && (!TooLong(n, name, val) && r.r.Err? ==> r == Out(Err(NoSpace), b))
      && (r.r.Ok? ==> Refines(b, t, p, r.blob, WithAppended(n, name, val)))
  {
    hide Sub, IsPath, Put, Refines, Align4, Decodes, FindProp, Resize, AddProperty, PropOffset, NodeOffset, Word,
      PropStands, Walk, Syms, Scan, Flat, Before, GetString;
    var n := Sub(t, p);
    var k := FirstProp(n.props, name);
    var v := n.props[k].value;
    var pre, off, end := AtProp(b, t, p, k);
    if |v| + |val| <= INT32_MAX {
      ResizeCorrect(b, t, p, k, |v|, val);
    } else {
      ResizeCorrect(b, t, p, k, 0, []);
    }
    assert v[..|v|] + val == v + val;
  }

  /** fdt_delprop refines removing the first property of that name, and needs no room. */
  lemma {:induction false} DelPropCorrect(b: Blob, t: Tree, p: seq<nat>, name: seq<byte>)
    requires Decoded(b, t) && IsPath(t, p)
    ensures var n := Sub(t, p); var r := DelProp(b, Offset(b, t, p), name);
      && (FirstProp(n.props, name) == |n.props| ==> r == Out(Err(NotFound), b))
      && (FirstProp(n.props, name) < |n.props| ==> r.r.Ok? && Refines(b, t, p, r.blob, WithoutProp(n, name)))
  {
    hide NextTag, SymOffset, Flat, Before, Sub, IsPath, Put, Refines, Align4, Decodes, FindProp, NodeOffset, Word,
      Memmove, Scan, Walk, Syms, PropOffset;
    FindPropAt(b.Struct(), b.Strings(), t, p, name);
    if FirstProp(Sub(t, p).props, name) < |Sub(t, p).props| {
      DelExisting(b, t, p, name);
    }
  }

  lemma {:induction false} DelExisting(b: Blob, t: Tree, p: seq<nat>, name: seq<byte>)
    requires Decoded(b, t) && IsPath(t, p) && FirstProp(Sub(t, p).props, name) < |Sub(t, p).props|
    ensures var n := Sub(t, p); var x := PropOffset(b.Struct(), t, p, FirstProp(n.props, name));
      x + 12 <= b.sizeStruct && Word(b.Struct(), x + 4) == |n.props[FirstProp(n.props, name)].value|
    ensures var n := Sub(t, p); var k := FirstProp(n.props, name);
      var c := SpliceStruct(b, PropOffset(b.Struct(), t, p, k), 12 + Align4(|n.props[k].value|), 0);
      c.Ok? && Refines(b, t, p, c.value, WithoutProp(n, name))
  {
    hide NextTag, SymOffset, Flat, Before, Sub, IsPath, Put, Refines, Align4, Decodes, FindProp, NodeOffset, Word, Scan,
      Walk, Syms, SpliceStruct;
    var n := Sub(t, p);
    var k := FirstProp(n.props, name);
    var pre, off, end := AtProp(b, t, p, k);
    FlatProps(t, p, k, k + 1, []);
    assert n.props[..k] + [] + n.props[k + 1..] == n.props[..k] + n.props[k + 1..];
    AttrsNil();
    var i := |Before(t, p)| + 1 + k;
    assert Flat(t)[..i] + [] + Flat(t)[i + 1..] == Flat(t)[..i] + Flat(t)[i + 1..];
    CutRefines(b, t, p, WithoutProp(n, name), i, i + 1, PropOffset(b.Struct(), t, p, k), end, pre);
  }

  /** Cutting out whole tokens always fits. */
  lemma {:induction false} CutRefines(b: Blob, t: Tree, p: seq<nat>, n: Tree, i: nat, j: nat, x: nat, e: nat,
                                      pre: seq<Token>)
    requires Decoded(b, t) && IsPath(t, p) && x <= e <= b.sizeStruct && e % 4 == 0
    requires |Before(t, p)| < i <= j <= |Flat(t)|
    requires Walk(b.Struct(), 0, pre, x) && Syms(b.Strings(), pre) == Flat(t)[..i]
    requires Scan(b.Struct(), e).Ok? && Syms(b.Strings(), Scan(b.Struct(), e).value) == Flat(t)[j..]
    requires Flat(Put(t, p, n)) == Flat(t)[..i] + Flat(t)[j..]
    ensures var c := SpliceStruct(b, x, e - x, 0); c.Ok? && Refines(b, t, p, c.value, n)
  {
    hide NextTag, SymOffset, Flat, Before, Sub, IsPath, Put, Refines, Decodes, Scan, Walk, Syms, Moved, Memmove, Splice;
    assert SpliceStruct(b, x, e - x, 0).Ok?;
    var c := SpliceStruct(b, x, e - x, 0).value;
    MovedCut(b, x, e - x, 0);
    MovedHeader(b, c, x, e - x, 0);
    MovedBlocks(b, c, x, e - x, 0);
    hide SpliceStruct;
    assert b.Strings() + [] == b.Strings();
    SymsNil(b.Strings());
    WalkNil(c.Struct()[x..x]);
    assert Flat(t)[..i] + [] + Flat(t)[j..] == Flat(t)[..i] + Flat(t)[j..];
    RefinesBySyms(b, t, p, c, n, [], i, j, x, e, pre, []);
  }

  lemma {:induction false} WalkNil(s: seq<byte>)
    ensures Walk(s, 0, [], 0)
  {
  }
}
