/**
 Looking a path name up (libfdt/fdt_ro.c): fdt_path_offset follows an absolute path from the root,
 and inverts fdt_get_path exactly when no earlier sibling answers to a name on the way.
 */
module FdtLookup {
  import opened Bytes
  import opened FdtTokens
  import opened FdtTree
  import opened FdtRead
  import opened FdtNode
  import opened FdtEdit
  import opened FdtOverlay
  import opened FdtNav
  import opened FdtPath
  import opened FdtPathExact

  // ---------- The path name as a caller writes it ----------

  /** A slash in front of each name. */
  function Spell(ns: seq<Name>): (r: seq<byte>) {
    if ns == [] then [] else [SLASH] + ns[0] + Spell(ns[1..])
  }

  /** The absolute path of a node; the root's own name has no place in it. */
  function Spelling(t: Tree, p: seq<nat>): (r: seq<byte>)
    requires IsPath(t, p)
  {
    if p == [] then [SLASH] else Spell(Names(t, p)[1..])
  }

  lemma {:induction false} RenderSpell(ns: seq<Name>)
    ensures [SLASH] + Render(ns) == Spell(ns) + [SLASH]
    decreases |ns|
  {
    if ns != [] {
      assert ns == [ns[0]] + ns[1..];
      RenderAppend([ns[0]], ns[1..]);
      RenderOne(ns[0]);
      RenderSpell(ns[1..]);
      calc {
        [SLASH] + Render(ns);
        [SLASH] + (ns[0] + [SLASH] + Render(ns[1..]));
        [SLASH] + ns[0] + ([SLASH] + Render(ns[1..]));
        [SLASH] + ns[0] + (Spell(ns[1..]) + [SLASH]);
        Spell(ns) + [SLASH];
      }
    }
  }

  /** fdt_get_path puts the root's name in front: its name for a node is the absolute path iff that is empty. */
  lemma {:induction false} PathNameSpells(t: Tree, p: seq<nat>)
    requires IsPath(t, p)
    ensures PathName(t, p) == Spelling(t, p) <==> t.name == [] || (p == [] && t.name == [SLASH])
  {
    hide Render, Spell;
    var ns := Names(t, p);
    var rest := ns[1..];
    assert ns == [t.name] + rest;
    RenderAppend([t.name], rest);
    RenderOne(t.name);
    RenderSpell(rest);
    assert Render(ns) == t.name + ([SLASH] + Render(rest)) == t.name + (Spell(rest) + [SLASH]);
    SpellShort(rest);
    if p == [] {
      assert rest == [];
      assert Render(ns) == t.name + [SLASH];
      if t.name != [] { assert (t.name + [SLASH])[..|t.name|] == t.name; }
    } else {
      assert rest != [];
      assert Strip(Render(ns)) == t.name + Spell(rest);
    }
  }

  lemma {:induction false} SpellShort(ns: seq<Name>)
    ensures Spell(ns) == [] <==> ns == []
  {
  }

  // ---------- fdt_path_offset ----------

  function Upto(s: seq<byte>): (n: nat)
    ensures n <= |s| && (forall i :: 0 <= i < n ==> s[i] != SLASH) && (n < |s| ==> s[n] == SLASH)
  {
    if s == [] || s[0] == SLASH then 0 else 1 + Upto(s[1..])
  }

  /** fdt_path_offset_namelen from a node on. */
  function PathStep(s: seq<byte>, node: nat, path: seq<byte>): (r: Result<nat>)
    decreases |path|
  {
    if path == [] then Ok(node)
    else if path[0] == SLASH then PathStep(s, node, path[1..])
    else
      var n := Upto(path);
      var k := FindChild(s, node, path[..n]);
      if k.Err? then k else PathStep(s, k.value, path[n..])
  }

  /** fdt_path_offset of an absolute path. */
  function PathOffset(s: seq<byte>, path: seq<byte>): (r: Result<nat>) {
    PathStep(s, 0, path)
  }

  /** Where the names lead: at each level the first child that the name selects. */
  function Resolve(n: Tree, ns: seq<Name>): (r: Result<seq<nat>>)
    ensures r.Ok? ==> IsPath(n, r.value) && |r.value| == |ns|
    decreases |ns|
  {
    if ns == [] then Ok([])
    else
      var i := FirstKid(n.kids, Named(ns[0]));
      if i == |n.kids| then Err(NotFound)
      else
        var r := Resolve(n.kids[i], ns[1..]);
        if r.Err? then r else Ok([i] + r.value)
  }

  predicate Good(n: Name) { n != [] && NoSlash(n) }

  lemma {:induction false} UptoName(n: Name, rest: seq<byte>)
    requires NoSlash(n) && (rest == [] || rest[0] == SLASH)
    ensures Upto(n + rest) == |n|
    decreases |n|
  {
    if n != [] {
      assert n[0] in n && forall c :: c in n[1..] ==> c in n;
      assert (n + rest)[1..] == n[1..] + rest;
      UptoName(n[1..], rest);
    }
  }

  /** The names in a path: whatever stands between slashes. */
  function Words(path: seq<byte>): (ns: seq<Name>)
    decreases |path|
  {
    if path == [] then []
    else if path[0] == SLASH then Words(path[1..])
    else [path[..Upto(path)]] + Words(path[Upto(path)..])
  }

  lemma {:induction false} WordsFirst(n: Name, rest: seq<byte>)
    requires Good(n) && (rest == [] || rest[0] == SLASH)
    ensures Words([SLASH] + n + rest) == [n] + Words(rest)
  {
    var path := n + rest;
    UptoName(n, rest);
    assert path[..|n|] == n && path[|n|..] == rest && path[0] == n[0] && n[0] in n;
    assert ([SLASH] + n + rest)[1..] == path;
  }

  lemma {:induction false} WordsSpell(ns: seq<Name>)
    requires forall n :: n in ns ==> Good(n)
    ensures Words(Spell(ns)) == ns
    decreases |ns|
  {
    hide Good;
    if ns != [] {
      assert ns[0] in ns && forall n :: n in ns[1..] ==> n in ns;
      WordsSpell(ns[1..]);
      WordsFirst(ns[0], Spell(ns[1..]));
    }
  }

  ghost function Found(s: seq<byte>, t: Tree, p: seq<nat>, r: Result<seq<nat>>): Result<nat>
    requires IsPath(t, p) && (r.Ok? ==> IsPath(t, p + r.value))
  {
    if r.Ok? then Ok(NodeOffset(s, t, p + r.value)) else Err(r.error)
  }

  lemma {:induction false} PathJoin(t: Tree, p: seq<nat>, q: seq<nat>)
    requires IsPath(t, p) && IsPath(Sub(t, p), q)
    ensures IsPath(t, p + q) && Sub(t, p + q) == Sub(Sub(t, p), q)
    decreases |p|
  {
    if p == [] {
      assert p + q == q;
    } else {
      assert (p + q)[1..] == p[1..] + q;
      PathJoin(t.kids[p[0]], p[1..], q);
    }
  }

  /** From any node, any path leads where its names lead. */
  lemma {:induction false} PathStepAt(s: seq<byte>, strs: seq<byte>, t: Tree, p: seq<nat>, path: seq<byte>)
    requires Decodes(s, strs, t) && IsPath(t, p)
    ensures var r := Resolve(Sub(t, p), Words(path));
      (r.Ok? ==> IsPath(t, p + r.value)) && PathStep(s, NodeOffset(s, t, p), path) == Found(s, t, p, r)
    decreases |path|
  {
    hide Before, Decodes, IsPath, Sub, FindChild, NodeOffset, NodeFrom, NextTag, NameEq;
    var r := Resolve(Sub(t, p), Words(path));
    if r.Ok? { PathJoin(t, p, r.value); }
    if path == [] {
      assert p + [] == p;
    } else if path[0] == SLASH {
      PathStepAt(s, strs, t, p, path[1..]);
    } else {
      var n := Upto(path);
      SlashLater(path);
      assert Words(path)[1..] == Words(path[n..]);
      KidNamed(s, strs, t, p, path[..n]);
      var i := FirstKid(Sub(t, p).kids, Named(path[..n]));
      if i < |Sub(t, p).kids| {
        PathStepAt(s, strs, t, p + [i], path[n..]);
        var q := Resolve(Sub(t, p).kids[i], Words(path[n..]));
        if q.Ok? { assert p + [i] + q.value == p + ([i] + q.value); }
      }
    }
  }

  /** fdt_path_offset of any absolute path finds the node that its names lead to, and NOTFOUND if there is none. */
  lemma {:induction false} LookupExact(s: seq<byte>, strs: seq<byte>, t: Tree, path: seq<byte>)
    requires Decodes(s, strs, t) && NodeOffset(s, t, []) == 0
    ensures var r := Resolve(t, Words(path));
      PathOffset(s, path) == if r.Ok? then Ok(NodeOffset(s, t, r.value)) else Err(NotFound)
  {
    hide Before, IsPath, Decodes, Sub, Resolve, NodeOffset, Words, PathStep;
    RootBefore(t);
    PathStepAt(s, strs, t, [], path);
    var r := Resolve(t, Words(path));
    ResolveMisses(t, Words(path));
    if r.Ok? { assert [] + r.value == r.value; }
  }

  lemma {:induction false} ResolveMisses(n: Tree, ns: seq<Name>)
    ensures Resolve(n, ns).Err? ==> Resolve(n, ns).error == NotFound
    decreases |ns|
  {
    hide NameEq;
    if ns != [] {
      var i := FirstKid(n.kids, Named(ns[0]));
      if i < |n.kids| { ResolveMisses(n.kids[i], ns[1..]); }
    }
  }

  /** A path leads to a given node if and only if its names do. */
  lemma {:induction false} LeadsTo(s: seq<byte>, strs: seq<byte>, t: Tree, p: seq<nat>, path: seq<byte>)
    requires Decodes(s, strs, t) && IsPath(t, p) && NodeOffset(s, t, []) == 0
    ensures PathOffset(s, path) == Ok(NodeOffset(s, t, p)) <==> Resolve(t, Words(path)) == Ok(p)
  {
    hide Before, IsPath, Decodes, Sub, Resolve, NodeOffset, Words, PathOffset;
    LookupExact(s, strs, t, path);
    var r := Resolve(t, Words(path));
    if r.Ok? && NodeOffset(s, t, r.value) == NodeOffset(s, t, p) { OffsetInjective(s, strs, t, r.value, p); }
  }

  lemma {:induction false} KidNamed(s: seq<byte>, strs: seq<byte>, t: Tree, p: seq<nat>, name: Name)
    requires Decodes(s, strs, t) && IsPath(t, p)
    ensures var i := FirstKid(Sub(t, p).kids, Named(name));
      && (i < |Sub(t, p).kids| ==> IsPath(t, p + [i]) && Sub(t, p + [i]) == Sub(t, p).kids[i])
      && FindChild(s, NodeOffset(s, t, p), name) == if i < |Sub(t, p).kids| then Ok(NodeOffset(s, t, p + [i]))
           else Err(NotFound)
  {
    hide Before, Decodes, IsPath, Sub, NodeOffset, NodeFrom, NextTag;
    HuntAt(s, strs, t, p, Named(name));
    BeforeKidPath(t, p, FirstKid(Sub(t, p).kids, Named(name)));
  }

  /** No earlier sibling is selected by the name of a node on the path. */
  predicate Selected(t: Tree, p: seq<nat>)
    requires IsPath(t, p)
    decreases |p|
  {
    p == [] || (FirstKid(t.kids, Named(t.kids[p[0]].name)) == p[0] && Selected(t.kids[p[0]], p[1..]))
  }

  lemma {:induction false} NamesTail(t: Tree, p: seq<nat>)
    requires IsPath(t, p) && p != []
    ensures var ns, ms := Names(t, p)[1..], Names(t.kids[p[0]], p[1..]);
      ns != [] && ns[0] == t.kids[p[0]].name && ns[1..] == ms[1..]
  {
    assert Names(t, p)[1..] == Names(t.kids[p[0]], p[1..]);
  }

  lemma {:induction false} ResolveNames(t: Tree, p: seq<nat>)
    requires IsPath(t, p)
    ensures Resolve(t, Names(t, p)[1..]) == Ok(p) <==> Selected(t, p)
    decreases |p|
  {
    hide NameEq, FirstKid, Names;
    if p != [] {
      NamesTail(t, p);
      var k, ns := t.kids[p[0]], Names(t, p)[1..];
      ResolveNames(k, p[1..]);
      assert p == [p[0]] + p[1..];
      var i := FirstKid(t.kids, Named(k.name));
      if i < |t.kids| {
        var r := Resolve(t.kids[i], ns[1..]);
        if r.Ok? { assert ([i] + r.value)[0] == i && ([i] + r.value)[1..] == r.value; }
      }
    } else {
      assert Names(t, p)[1..] == [];
    }
  }

  predicate GoodNames(t: Tree, p: seq<nat>)
    requires IsPath(t, p)
  {
    forall n :: n in Names(t, p)[1..] ==> Good(n)
  }

  /** Different nodes have different offsets. */
  lemma {:induction false} OffsetInjective(s: seq<byte>, strs: seq<byte>, t: Tree, p: seq<nat>, q: seq<nat>)
    requires Decodes(s, strs, t) && IsPath(t, p) && IsPath(t, q) && NodeOffset(s, t, p) == NodeOffset(s, t, q)
    ensures p == q
  {
    hide Before, IsPath, SymOffset, Scan, Syms, Flat;
    PathOpen(t, p);
    PathOpen(t, q);
    var a, b := |Before(t, p)|, |Before(t, q)|;
    if a < b { SymOffsetGrows(s, strs, 0, a, b); } else if b < a { SymOffsetGrows(s, strs, 0, b, a); }
    BeforeInjective(t, p, q);
  }

  lemma {:induction false} BeforeInjective(t: Tree, p: seq<nat>, q: seq<nat>)
    requires IsPath(t, p) && IsPath(t, q) && |Before(t, p)| == |Before(t, q)|
    ensures p == q
    decreases |p|
  {
    hide Flat, FlatAll, Attrs;
    if p != [] && q != [] {
      var i, j := p[0], q[0];
      if i == j {
        BeforeInjective(t.kids[i], p[1..], q[1..]);
        assert p == [i] + p[1..] && q == [j] + q[1..];
      } else if i < j {
        BeforeFits(t.kids[i], p[1..]);
        FlatAllLonger(t.kids, i, j);
      } else {
        BeforeFits(t.kids[j], q[1..]);
        FlatAllLonger(t.kids, j, i);
      }
    }
  }

  /**
   fdt_path_offset of a node's path name returns that node exactly when the names in it lead there; if
   no name on the way is empty or holds a slash, exactly when no earlier sibling on the way matches
   under the unit-address rule.
   */
  lemma {:induction false} PathInverse(s: seq<byte>, strs: seq<byte>, t: Tree, p: seq<nat>)
    requires Decodes(s, strs, t) && IsPath(t, p) && NodeOffset(s, t, []) == 0
    ensures PathOffset(s, Spelling(t, p)) == Ok(NodeOffset(s, t, p)) <==> Resolve(t, Words(Spelling(t, p))) == Ok(p)
    ensures GoodNames(t, p) ==> (PathOffset(s, Spelling(t, p)) == Ok(NodeOffset(s, t, p)) <==> Selected(t, p))
  {
    hide Before, IsPath, Decodes, Sub, Resolve, Selected, NodeOffset, Names, Words, PathOffset;
    LeadsTo(s, strs, t, p, Spelling(t, p));
    if GoodNames(t, p) {
      ResolveNames(t, p);
      WordsSpelling(t, p);
    }
  }

  lemma {:induction false} WordsSpelling(t: Tree, p: seq<nat>)
    requires IsPath(t, p) && GoodNames(t, p)
    ensures Words(Spelling(t, p)) == Names(t, p)[1..]
  {
    hide Names, Spell;
    if p == [] {
      assert [SLASH][1..] == [];
      assert Words([SLASH]) == Words([]);
      assert Names(t, p)[1..] == [];
    } else {
      hide Words;
      WordsSpell(Names(t, p)[1..]);
    }
  }

  /** What fdt_get_path gives leads back to the node exactly when the names in it do, or the steps are unambiguous. */
  lemma {:induction false} GetThenLookUp(s: seq<byte>, strs: seq<byte>, t: Tree, p: seq<nat>, buflen: nat)
    requires Decodes(s, strs, t) && IsPath(t, p) && NodeOffset(s, t, []) == 0
    ensures var text := GetPath(s, NodeOffset(s, t, p), buflen);
      && (text.Ok? ==>
           (PathOffset(s, text.value) == Ok(NodeOffset(s, t, p)) <==> Resolve(t, Words(text.value)) == Ok(p)))
      && (t.name == [] && GoodNames(t, p) && PathFits(t, p, buflen) && !DirtyBefore(t, p, 0, buflen) ==>
           text.Ok? && (PathOffset(s, text.value) == Ok(NodeOffset(s, t, p)) <==> Selected(t, p)))
  {
    hide *;
    var text := GetPath(s, NodeOffset(s, t, p), buflen);
    if text.Ok? { LeadsTo(s, strs, t, p, text.value); }
    GetPathExact(s, strs, t, p, buflen);
    PathNameSpells(t, p);
    PathInverse(s, strs, t, p);
  }

  // ---------- The loops ----------

  /** The first slash, or the end. */
  method FindSlash(path: seq<byte>, from: nat) returns (q: nat)
    requires from <= |path|
    ensures from <= q <= |path| && q - from == Upto(path[from..])
  {
    q := from;
    while q < |path| && path[q] != SLASH
      invariant from <= q <= |path| && Upto(path[from..]) == q - from + Upto(path[q..])
    {
      assert path[q..][1..] == path[q + 1..];
      q := q + 1;
    }
  }

  /** The loop of fdt_path_offset_namelen, from a node and a place in the path on. */
  method Descend(s: seq<byte>, node: nat, path: seq<byte>, from: nat) returns (r: Result<nat>)
    requires from <= |path|
    ensures r == PathStep(s, node, path[from..])
  {
    hide FindChild, Upto;
    var offset, p := node, from;
    while p < |path|
      invariant p <= |path| && PathStep(s, node, path[from..]) == PathStep(s, offset, path[p..])
    {
      if path[p] == SLASH {
        assert path[p..][1..] == path[p + 1..];
        p := p + 1;
      } else {
        var q := FindSlash(path, p);
        SlashLater(path[p..]);
        assert path[p..][..q - p] == path[p..q] && path[p..][q - p..] == path[q..];
        var k := FindChild(s, offset, path[p..q]);
        if k.Err? { return k; }
        offset, p := k.value, q;
      }
    }
    assert path[p..] == [];
    return Ok(offset);
  }

  lemma {:induction false} SlashLater(s: seq<byte>)
    requires s != [] && s[0] != SLASH
    ensures Upto(s) > 0
  {
  }
}
