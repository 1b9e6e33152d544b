/**
 The tree a structure block stands for. A tree is flattened into symbols: tokens with the
 NOPs dropped and the property names resolved in the strings block.
 */
module FdtTree {
  import opened Bytes
  import opened FdtTokens
  import opened Seqs

  datatype Property = Property(name: seq<byte>, value: seq<byte>)
  datatype Tree = Node(name: seq<byte>, props: seq<Property>, kids: seq<Tree>)

  /** `Bogus` is a property whose name does not resolve. */
  datatype Sym = Open(name: seq<byte>) | Attr(prop: Property) | Close | Bogus

  // ---------- From tokens to symbols ----------

  /** fdt_get_string on a finished blob. */
  function GetString(strs: seq<byte>, off: u32): (r: Result<seq<byte>>)
    ensures r.Ok? ==> IsCString(r.value)
    ensures r.Ok? ==> off + |r.value| < |strs| && strs[off..off + |r.value|] == r.value && strs[off + |r.value|] == 0
  {
    if off >= 0x8000_0000 || off >= |strs| then Err(BadOffset)
    else
      var z := Nul(strs, off);
      if z == |strs| then Err(Truncated) else Ok(strs[off..z])
  }

  function SymsOf(strs: seq<byte>, t: Token): (r: seq<Sym>)
    ensures |r| == if t.Nop? || t.End? then 0 else 1
  {
    match t
    case BeginNode(name) => [Open(name)]
    case EndNode => [Close]
    case Prop(off, value) =>
      var name := GetString(strs, off);
      if name.Ok? then [Attr(Property(name.value, value))] else [Bogus]
    case Nop => []
    case End => []
  }

  function Syms(strs: seq<byte>, ts: seq<Token>): (r: seq<Sym>)
    decreases |ts|
  {
    if ts == [] then [] else SymsOf(strs, ts[0]) + Syms(strs, ts[1..])
  }

  lemma {:induction false} SymsAppend(strs: seq<byte>, ts: seq<Token>, us: seq<Token>)
    ensures Syms(strs, ts + us) == Syms(strs, ts) + Syms(strs, us)
    decreases |ts|
  {
    hide SymsOf;
    if ts == [] {
      assert ts + us == us;
    } else {
      SymsAppend(strs, ts[1..], us);
      assert (ts + us)[1..] == ts[1..] + us;
    }
  }

  lemma {:induction false} SymsOne(strs: seq<byte>, t: Token)
    ensures Syms(strs, [t]) == SymsOf(strs, t)
  {
    hide SymsOf;
    assert [t][1..] == [];
  }

  /** Names already resolved stay so when strings are added behind them. */
  lemma {:induction false} GetStringExtend(strs: seq<byte>, more: seq<byte>, off: u32)
    requires GetString(strs, off).Ok?
    ensures GetString(strs + more, off) == GetString(strs, off)
  {
    var z := Nul(strs, off);
    assert (strs + more)[z] == 0;
    assert forall k :: off <= k < z ==> (strs + more)[k] == strs[k];
    assert Nul(strs + more, off) == z;
    assert (strs + more)[off..z] == strs[off..z];
  }

  lemma {:induction false} SymsExtend(strs: seq<byte>, more: seq<byte>, ts: seq<Token>)
    requires Bogus !in Syms(strs, ts)
    ensures Syms(strs + more, ts) == Syms(strs, ts)
    decreases |ts|
  {
    hide GetString;
    if ts != [] {
      var s := SymsOf(strs, ts[0]);
      assert forall x :: x in Syms(strs, ts) <==> x in s || x in Syms(strs, ts[1..]);
      if ts[0].Prop? {
        assert GetString(strs, ts[0].nameoff).Err? ==> Bogus in s;
        GetStringExtend(strs, more, ts[0].nameoff);
      }
      SymsExtend(strs, more, ts[1..]);
    }
  }

  // ---------- Where the i-th symbol sits ----------

  /** Offset of the token for symbol number `i`, counted from `a`. */
  function SymOffset(s: seq<byte>, a: nat, i: nat): nat
    decreases if a < |s| then |s| - a else 0
  {
    var r := NextTag(s, a);
    if r.Bad? || r.token.End? then a
    else if r.token.Nop? then SymOffset(s, r.next, i)
    else if i == 0 then a
    else SymOffset(s, r.next, i - 1)
  }

  /** Walking to symbol `i` passes exactly the symbols before it. */
  lemma {:induction false} SymOffsetWalk(s: seq<byte>, strs: seq<byte>, a: nat, i: nat) returns (us: seq<Token>)
    requires Scan(s, a).Ok? && i <= |Syms(strs, Scan(s, a).value)|
    ensures var x := SymOffset(s, a, i); var all := Syms(strs, Scan(s, a).value);
      && Walk(s, a, us, x) && Syms(strs, us) == all[..i]
      && Scan(s, x).Ok? && Scan(s, a).value == us + Scan(s, x).value && Syms(strs, Scan(s, x).value) == all[i..]
      && NextTag(s, x).Tok? && !NextTag(s, x).token.Nop?
      && (i < |all| ==> !NextTag(s, x).token.End? && SymsOf(strs, NextTag(s, x).token) == [all[i]])
    decreases if a < |s| then |s| - a else 0
  {
    hide SymsOf;
    var r := NextTag(s, a);
    var ts := Scan(s, a).value;
    us := [];
    if r.token.End? {
    } else {
      assert ts[0] == r.token && ts[1..] == Scan(s, r.next).value;
      if r.token.Nop? || i > 0 {
        us := SymOffsetWalk(s, strs, r.next, if r.token.Nop? then i else i - 1);
        SymOffsetCons(strs, ts, us, Scan(s, SymOffset(s, a, i)).value, i);
        us := [r.token] + us;
        assert us[1..] == us[1..] && us[0] == r.token;
      }
    }
  }

  lemma {:induction false} SymOffsetCons(strs: seq<byte>, ts: seq<Token>, us: seq<Token>, vs: seq<Token>, i: nat)
    requires ts != [] && ts[1..] == us + vs && !ts[0].End?
    requires var j := if ts[0].Nop? then i else i - 1;
      0 <= j <= |Syms(strs, ts[1..])| && Syms(strs, us) == Syms(strs, ts[1..])[..j]
        && Syms(strs, vs) == Syms(strs, ts[1..])[j..]
    ensures ts == [ts[0]] + us + vs && i <= |Syms(strs, ts)|
    ensures Syms(strs, [ts[0]] + us) == Syms(strs, ts)[..i] && Syms(strs, vs) == Syms(strs, ts)[i..]
  {
    hide SymsOf;
    assert ts == [ts[0]] + ts[1..];
    Assoc([ts[0]], us, vs);
    assert ([ts[0]] + us)[1..] == us;
    var h := SymsOf(strs, ts[0]);
    ConsCut(h, Syms(strs, ts[1..]), if ts[0].Nop? then i else i - 1);
  }

  /** And conversely a walk up to a token that is no NOP ends where its symbol count says. */
  lemma {:induction false} SymOffsetIs(s: seq<byte>, strs: seq<byte>, a: nat, us: seq<Token>, x: nat)
    requires Walk(s, a, us, x) && NextTag(s, x).Tok? && !NextTag(s, x).token.Nop?
    ensures SymOffset(s, a, |Syms(strs, us)|) == x
    decreases |us|
  {
    hide SymsOf;
    if us == [] {
    } else {
      SymOffsetIs(s, strs, NextTag(s, a).next, us[1..], x);
    }
  }

  // ---------- From symbols to trees ----------

  function Attrs(ps: seq<Property>): (r: seq<Sym>)
    ensures |r| == |ps|
  {
    seq(|ps|, i requires 0 <= i < |ps| => Attr(ps[i]))
  }

  function Flat(t: Tree): (r: seq<Sym>)
    ensures |r| >= 2 && r[0] == Open(t.name)
    decreases t
  {
    [Open(t.name)] + Attrs(t.props) + FlatAll(t.kids) + [Close]
  }

  function FlatAll(ks: seq<Tree>): (r: seq<Sym>)
    ensures ks != [] ==> r != [] && r[0].Open?
    decreases ks
  {
    if ks == [] then [] else Flat(ks[0]) + FlatAll(ks[1..])
  }

  lemma {:induction false} FlatAllAppend(ks: seq<Tree>, ls: seq<Tree>)
    ensures FlatAll(ks + ls) == FlatAll(ks) + FlatAll(ls)
    decreases |ks|
  {
    hide Flat;
    if ks == [] {
      assert ks + ls == ls;
    } else {
      FlatAllAppend(ks[1..], ls);
      assert (ks + ls)[1..] == ks[1..] + ls;
    }
  }

  lemma {:induction false} FlatAllOne(t: Tree)
    ensures FlatAll([t]) == Flat(t)
  {
    hide Flat;
    assert [t][1..] == [];
  }

  /** No name of a flattened tree is unresolved. */
  lemma {:induction false} FlatNoBogus(t: Tree)
    ensures Bogus !in Flat(t)
    decreases t, 1
  {
    FlatAllNoBogus(t.kids);
  }

  lemma {:induction false} FlatAllNoBogus(ks: seq<Tree>)
    ensures Bogus !in FlatAll(ks)
    decreases ks, 0
  {
    if ks != [] {
      FlatNoBogus(ks[0]);
      FlatAllNoBogus(ks[1..]);
    }
  }

  /** Flattening is uniquely readable: the tree and what follows it are determined. */
  lemma {:induction false} FlatInjective(t: Tree, r: seq<Sym>, u: Tree, q: seq<Sym>)
    requires Flat(t) + r == Flat(u) + q
    ensures t == u && r == q
    decreases t, 1
  {
    var x, y := FlatAll(t.kids) + [Close] + r, FlatAll(u.kids) + [Close] + q;
    assert (Flat(t) + r)[0] == (Flat(u) + q)[0];
    assert (Flat(t) + r)[1..] == Attrs(t.props) + x;
    assert (Flat(u) + q)[1..] == Attrs(u.props) + y;
    AttrsInjective(t.props, x, u.props, y);
    FlatAllInjective(t.kids, r, u.kids, q);
  }

  lemma {:induction false} AttrsInjective(ps: seq<Property>, x: seq<Sym>, qs: seq<Property>, y: seq<Sym>)
    requires Attrs(ps) + x == Attrs(qs) + y && x != [] && y != [] && !x[0].Attr? && !y[0].Attr?
    ensures ps == qs && x == y
  {
    var z := Attrs(ps) + x;
    assert z[|ps|] == x[0] && z[|qs|] == y[0];
    assert forall i :: 0 <= i < |ps| ==> z[i] == Attr(ps[i]);
    assert forall i :: 0 <= i < |qs| ==> z[i] == Attr(qs[i]);
    assert |ps| == |qs|;
    assert x == z[|ps|..] && y == z[|qs|..];
  }

  lemma {:induction false} FlatAllInjective(ks: seq<Tree>, r: seq<Sym>, ls: seq<Tree>, q: seq<Sym>)
    requires FlatAll(ks) + [Close] + r == FlatAll(ls) + [Close] + q
    ensures ks == ls && r == q
    decreases ks, 0
  {
    hide Flat;
    var z := FlatAll(ks) + [Close] + r;
    if ks == [] || ls == [] {
      assert z[0].Close? == (ks == []);
      assert z[0].Close? == (ls == []);
      assert r == z[1..] && q == z[1..];
    } else {
      var x, y := FlatAll(ks[1..]) + [Close] + r, FlatAll(ls[1..]) + [Close] + q;
      assert z == Flat(ks[0]) + x && z == Flat(ls[0]) + y;
      FlatInjective(ks[0], x, ls[0], y);
      FlatAllInjective(ks[1..], r, ls[1..], q);
      assert ks == [ks[0]] + ks[1..] && ls == [ls[0]] + ls[1..];
    }
  }

  // ---------- Paths ----------

  predicate IsPath(t: Tree, p: seq<nat>)
    decreases |p|
  {
    p == [] || (p[0] < |t.kids| && IsPath(t.kids[p[0]], p[1..]))
  }

  function Sub(t: Tree, p: seq<nat>): Tree
    requires IsPath(t, p)
    decreases |p|
  {
    if p == [] then t else Sub(t.kids[p[0]], p[1..])
  }

  function Put(t: Tree, p: seq<nat>, n: Tree): (r: Tree)
    requires IsPath(t, p)
    decreases |p|
  {
    if p == [] then n else t.(kids := t.kids[p[0] := Put(t.kids[p[0]], p[1..], n)])
  }

  /** The symbols before, and behind, the subtree at `p`. */
  function Before(t: Tree, p: seq<nat>): seq<Sym>
    requires IsPath(t, p)
    decreases |p|
  {
    if p == [] then []
    else [Open(t.name)] + Attrs(t.props) + FlatAll(t.kids[..p[0]]) + Before(t.kids[p[0]], p[1..])
  }

  function After(t: Tree, p: seq<nat>): seq<Sym>
    requires IsPath(t, p)
    decreases |p|
  {
    if p == [] then [] else After(t.kids[p[0]], p[1..]) + FlatAll(t.kids[p[0] + 1..]) + [Close]
  }

  lemma {:induction false} FlatAt(t: Tree, p: seq<nat>)
    requires IsPath(t, p)
    ensures Flat(t) == Before(t, p) + Flat(Sub(t, p)) + After(t, p)
    decreases |p|
  {
    if p != [] {
      var i := p[0];
      var k := t.kids[i];
      FlatAt(k, p[1..]);
      FlatAllPick(t.kids, i);
      Nest([Open(t.name)] + Attrs(t.props), FlatAll(t.kids[..i]), Before(k, p[1..]), Flat(Sub(k, p[1..])),
           After(k, p[1..]), FlatAll(t.kids[i + 1..]), [Close]);
    }
  }

  lemma {:induction false} FlatAllPick(ks: seq<Tree>, i: nat)
    requires i < |ks|
    ensures FlatAll(ks) == FlatAll(ks[..i]) + Flat(ks[i]) + FlatAll(ks[i + 1..])
  {
    hide Flat;
    assert ks == ks[..i] + ks[i..] && ks[i..][0] == ks[i] && ks[i..][1..] == ks[i + 1..];
    FlatAllAppend(ks[..i], ks[i..]);
    assert FlatAll(ks[i..]) == Flat(ks[i]) + FlatAll(ks[i + 1..]);
    Assoc(FlatAll(ks[..i]), Flat(ks[i]), FlatAll(ks[i + 1..]));
  }

  /** Replacing the subtree at `p` changes neither side of it. */
  lemma {:induction false} PutFrame(t: Tree, p: seq<nat>, n: Tree)
    requires IsPath(t, p)
    ensures IsPath(Put(t, p, n), p) && Sub(Put(t, p, n), p) == n
    ensures Before(Put(t, p, n), p) == Before(t, p) && After(Put(t, p, n), p) == After(t, p)
    decreases |p|
  {
    hide Flat, FlatAll;
    if p != [] {
      var i := p[0];
      var u := Put(t, p, n);
      PutFrame(t.kids[i], p[1..], n);
      assert u.kids[..i] == t.kids[..i] && u.kids[i + 1..] == t.kids[i + 1..];
      assert u.kids[i] == Put(t.kids[i], p[1..], n);
    }
  }

  lemma {:induction false} FlatPut(t: Tree, p: seq<nat>, n: Tree)
    requires IsPath(t, p)
    ensures Flat(Put(t, p, n)) == Before(t, p) + Flat(n) + After(t, p)
  {
    hide Flat, Put, Before, After, Sub;
    PutFrame(t, p, n);
    FlatAt(Put(t, p, n), p);
  }
}
