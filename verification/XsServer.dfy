/**
 The store at work: the loops of the server over its one mutable tree, each proved against the
 operation on trees it implements.
 */
module XsServer {
  import opened XsPath
  import opened Options
  import opened XsStore
  import opened XsTeardown

  // ---------- Places in the tree ----------

  predicate IsPos(e: Entry, p: seq<nat>)
    decreases |p|
  {
    p == [] || (p[0] < |e.kids| && IsPos(e.kids[p[0]], p[1..]))
  }

  function At(e: Entry, p: seq<nat>): (r: Entry)
    requires IsPos(e, p)
    decreases |p|
  {
    if p == [] then e else At(e.kids[p[0]], p[1..])
  }

  /** The tree with the entry at a place replaced. */
  function Set(e: Entry, p: seq<nat>, x: Entry): (r: Entry)
    requires IsPos(e, p)
    decreases |p|
  {
    if p == [] then x else e.(kids := e.kids[p[0] := Set(e.kids[p[0]], p[1..], x)])
  }

  /** The tree with the entry at a place unlinked from its parent. */
  function Cut(e: Entry, p: seq<nat>): (r: Entry)
    requires p != [] && IsPos(e, p)
    decreases |p|
  {
    if |p| == 1 then e.(kids := Without(e.kids, p[0])) else e.(kids := e.kids[p[0] := Cut(e.kids[p[0]], p[1..])])
  }

  lemma {:induction false} AtSet(e: Entry, p: seq<nat>, x: Entry)
    requires IsPos(e, p)
    ensures IsPos(Set(e, p, x), p) && At(Set(e, p, x), p) == x
    decreases |p|
  {
    if p != [] { AtSet(e.kids[p[0]], p[1..], x); }
  }

  lemma {:induction false} SetAt(e: Entry, p: seq<nat>)
    requires IsPos(e, p)
    ensures Set(e, p, At(e, p)) == e
    decreases |p|
  {
    if p != [] { SetAt(e.kids[p[0]], p[1..]); }
  }

  lemma {:induction false} SetSet(e: Entry, p: seq<nat>, x: Entry, y: Entry)
    requires IsPos(e, p)
    ensures IsPos(Set(e, p, x), p) && Set(Set(e, p, x), p, y) == Set(e, p, y)
    decreases |p|
  {
    if p != [] {
      SetSet(e.kids[p[0]], p[1..], x, y);
      var a, b := Set(e.kids[p[0]], p[1..], x), Set(e.kids[p[0]], p[1..], y);
      assert e.kids[p[0] := a][p[0] := b] == e.kids[p[0] := b];
    }
  }

  lemma {:induction false} Down(e: Entry, p: seq<nat>, j: nat, x: Entry)
    requires IsPos(e, p) && j < |At(e, p).kids|
    ensures IsPos(e, p + [j]) && At(e, p + [j]) == At(e, p).kids[j]
    ensures Set(e, p + [j], x) == Set(e, p, At(e, p).(kids := At(e, p).kids[j := x]))
    decreases |p|
  {
    if p == [] {
      assert p + [j] == [j] && [j][1..] == [];
    } else {
      assert (p + [j])[1..] == p[1..] + [j];
      Down(e.kids[p[0]], p[1..], j, x);
    }
  }

  lemma {:induction false} CutSet(e: Entry, c: seq<nat>, p: seq<nat>, x: Entry)
    requires c != [] && c <= p && IsPos(e, p)
    ensures IsPos(e, c) && IsPos(Set(e, p, x), c) && Cut(Set(e, p, x), c) == Cut(e, c)
    decreases |c|
  {
    var k := Set(e.kids[p[0]], p[1..], x);
    if |c| == 1 {
      assert Without(e.kids[p[0] := k], p[0]) == Without(e.kids, p[0]);
    } else {
      assert c[1..] <= p[1..];
      CutSet(e.kids[p[0]], c[1..], p[1..], x);
      var z := Cut(e.kids[p[0]], c[1..]);
      assert e.kids[p[0] := k][p[0] := z] == e.kids[p[0] := z];
    }
  }

  lemma {:induction false} CutAdded(e: Entry, p: seq<nat>, x: Entry)
    requires IsPos(e, p)
    ensures var f := Set(e, p, At(e, p).(kids := At(e, p).kids + [x])); var c := p + [|At(e, p).kids|];
      IsPos(f, c) && Cut(f, c) == e
    decreases |p|
  {
    var ks := At(e, p).kids;
    var y := At(e, p).(kids := ks + [x]);
    var c := p + [|ks|];
    if p == [] {
      assert c == [|ks|] && c[1..] == [];
      assert Without(ks + [x], |ks|) == ks;
    } else {
      assert c[1..] == p[1..] + [|ks|];
      CutAdded(e.kids[p[0]], p[1..], x);
      var k := Set(e.kids[p[0]], p[1..], y);
      assert e.kids[p[0] := k][p[0] := e.kids[p[0]]] == e.kids;
    }
  }

  lemma {:induction false} SaneAt(e: Entry, p: seq<nat>)
    requires Sane(e) && IsPos(e, p)
    ensures Sane(At(e, p))
    decreases |p|
  {
    if p != [] {
      SaneKids(e, p[0]);
      SaneAt(e.kids[p[0]], p[1..]);
    }
  }

  lemma {:induction false} SaneSetAt(e: Entry, p: seq<nat>, x: Entry)
    requires Sane(e) && IsPos(e, p) && Sane(x) && x.key == At(e, p).key
    ensures Sane(Set(e, p, x)) && Set(e, p, x).key == e.key
    decreases |p|
  {
    if p != [] {
      SaneKids(e, p[0]);
      SaneSetAt(e.kids[p[0]], p[1..], x);
      SaneSet(e, p[0], Set(e.kids[p[0]], p[1..], x));
    }
  }

  /** Where a path leads. */
  function Place(e: Entry, cs: Comps): (r: Option<seq<nat>>)
    ensures r.Some? ==> IsPos(e, r.value) && |r.value| == |cs|
    decreases |cs|
  {
    if cs == [] then Some([])
    else
      var j := Find(e.kids, cs[0]);
      if j == |e.kids| then None
      else
        var r := Place(e.kids[j], cs[1..]);
        if r.Some? then Some([j] + r.value) else None
  }

  lemma {:induction false} PlaceReaches(e: Entry, cs: Comps)
    ensures Place(e, cs).Some? <==> Reach(e, cs).Some?
    ensures Place(e, cs).Some? ==> At(e, Place(e, cs).value) == Reach(e, cs).value
    ensures Place(e, cs).Some? && cs != [] ==> Cut(e, Place(e, cs).value) == Remove(e, cs)
    decreases |cs|
  {
    if cs != [] {
      var j := Find(e.kids, cs[0]);
      if j < |e.kids| { PlaceReaches(e.kids[j], cs[1..]); }
    }
  }

  /** A path the lookup follows: not too long, and with a component unless it is the root's. */
  predicate Leads(key: string) { |key| <= ABS_PATH_MAX && (key == "/" || Tokens(key) != []) }

  lemma {:induction false} SlashTokens()
    ensures Tokens("/") == []
  {
    assert "/"[1..] == "";
  }

  /** The state of a lookup that has consumed some components. */
  predicate Seeks(e: Entry, cs: Comps, p: seq<nat>, rest: Comps)
    requires IsPos(e, p)
  {
    var r := Place(At(e, p), rest);
    Place(e, cs) == if r.Some? then Some(p + r.value) else None
  }

  lemma {:induction false} SeeksStart(e: Entry, cs: Comps)
    ensures Seeks(e, cs, [], cs[0..])
  {
    assert cs[0..] == cs;
    var r := Place(e, cs);
    if r.Some? { assert [] + r.value == r.value; }
  }

  lemma {:induction false} SeeksStep(e: Entry, cs: Comps, p: seq<nat>, rest: Comps)
    requires IsPos(e, p) && rest != [] && Seeks(e, cs, p, rest)
    ensures var j := Find(At(e, p).kids, rest[0]);
      if j == |At(e, p).kids| then Place(e, cs) == None else IsPos(e, p + [j]) && Seeks(e, cs, p + [j], rest[1..])
  {
    hide Find, Place, At, IsPos;
    var x := At(e, p);
    var j := Find(x.kids, rest[0]);
    PlaceStep(x, rest);
    if j < |x.kids| {
      Down(e, p, j, e);
      var r := Place(x.kids[j], rest[1..]);
      if r.Some? { assert p + ([j] + r.value) == (p + [j]) + r.value; }
    }
  }

  lemma {:induction false} PlaceStep(e: Entry, cs: Comps)
    requires cs != []
    ensures var j := Find(e.kids, cs[0]);
      Place(e, cs) == if j == |e.kids| then None else var r := Place(e.kids[j], cs[1..]);
        if r.Some? then Some([j] + r.value) else None
  {
    hide Find;
  }

  /** A write carried on from a place gives what the whole write gives. */
  predicate Writes(e0: Entry, cs: Comps, e: Entry, p: seq<nat>, rest: Comps, data: Option<string>, d: nat,
                   ps: seq<Perm>)
    requires Sane(e0) && IsPos(e, p) && Sane(At(e, p))
  {
    var r := WriteTree(At(e, p), rest, data, d, ps);
    WriteTree(e0, cs, data, d, ps) == if r.Ok? then Ok(Set(e, p, r.value)) else r
  }

  lemma {:induction false} WritesStart(e: Entry, cs: Comps, data: Option<string>, d: nat, ps: seq<Perm>)
    requires Sane(e)
    ensures Writes(e, cs, e, [], cs, data, d, ps)
  {
  }

  lemma {:induction false} WritesDown(e0: Entry, cs: Comps, e: Entry, p: seq<nat>, rest: Comps, data: Option<string>,
                                      d: nat, ps: seq<Perm>)
    requires Sane(e0) && Sane(e) && IsPos(e, p) && Sane(At(e, p)) && rest != []
      && Writes(e0, cs, e, p, rest, data, d, ps)
    requires Find(At(e, p).kids, rest[0]) < |At(e, p).kids|
    ensures var q := p + [Find(At(e, p).kids, rest[0])];
      IsPos(e, q) && Sane(At(e, q)) && Writes(e0, cs, e, q, rest[1..], data, d, ps)
  {
    hide May;
    var x := At(e, p);
    var j := Find(x.kids, rest[0]);
    SaneKids(x, j);
    hide Sane;
    var r := WriteTree(x.kids[j], rest[1..], data, d, ps);
    Down(e, p, j, if r.Ok? then r.value else x);
  }

  lemma {:induction false} WritesNew(e0: Entry, cs: Comps, e: Entry, p: seq<nat>, rest: Comps, data: Option<string>,
                                     d: nat, ps: seq<Perm>)
    requires Sane(e0) && Sane(e) && IsPos(e, p) && Sane(At(e, p)) && rest != []
      && Writes(e0, cs, e, p, rest, data, d, ps)
    requires IsName(rest[0]) && Find(At(e, p).kids, rest[0]) == |At(e, p).kids| && May(At(e, p).perms, WRITE, d)
    ensures var x := At(e, p); var f := Set(e, p, x.(kids := x.kids + [Fresh(x, rest[0], ps)]));
      var q := p + [|x.kids|];
      Sane(f) && IsPos(f, p) && IsPos(f, q) && Sane(At(f, q)) && Writes(e0, cs, f, q, rest[1..], data, d, ps)
  {
    hide May;
    var x := At(e, p);
    var k := Fresh(x, rest[0], ps);
    var y := x.(kids := x.kids + [k]);
    var f := Set(e, p, y);
    FreshSane(x, rest[0], ps);
    SaneAdd(x, k);
    SaneSetAt(e, p, y);
    hide Sane, Find;
    AtSet(e, p, y);
    var r := WriteTree(k, rest[1..], data, d, ps);
    var z := if r.Ok? then r.value else k;
    Down(f, p, |x.kids|, z);
    SetSet(e, p, y, x.(kids := x.kids + [z]));
    assert y.kids[|x.kids| := z] == x.kids + [z];
  }

  // ---------- The server ----------

  class Store {
    var root: Entry

    ghost predicate Valid()
      reads this
    {
      Sane(root)
    }

    /** The root belongs to the control domain and has no children. */
    constructor ()
      ensures Valid() && root == Entry("", None, [Perm(0, NONE)], [])
    {
      root := Entry("", None, [Perm(0, NONE)], []);
    }

    /** The search of one list of siblings. */
    static method FindKid(kids: seq<Entry>, name: Name) returns (j: nat)
      ensures j == Find(kids, name)
    {
      j := 0;
      while j < |kids|
        invariant j <= |kids| && forall i :: 0 <= i < j ==> kids[i].key != name
      {
        if kids[j].key == name { break; }
        j := j + 1;
      }
    }

    /** key_to_entry: where the path leads, unless it is too long or leads nowhere. */
    method KeyToEntry(key: string) returns (r: Option<seq<nat>>)
      requires Valid()
      ensures r == if Leads(key) then Place(root, Tokens(key)) else None
    {
      hide Sane, Find;
      if |key| > ABS_PATH_MAX { return None; }
      if key == "/" {
        SlashTokens();
        return Some([]);
      }
      var toks, cur, i := Tokens(key), [], 0;
      SeeksStart(root, toks);
      while i < |toks|
        invariant i <= |toks| && IsPos(root, cur) && Seeks(root, toks, cur, toks[i..])
      {
        var j := FindKid(At(root, cur).kids, toks[i]);
        SeeksStep(root, toks, cur, toks[i..]);
        assert toks[i..][1..] == toks[i + 1..];
        if j == |At(root, cur).kids| { return None; }
        cur, i := cur + [j], i + 1;
      }
      if i == 0 { return None; }
      assert cur + [] == cur;
      return Some(cur);
    }

    /** xss_do_write_deadline: on refusal the entries made so far are freed again. */
    method DoWrite(path: string, data: Option<string>, d: nat, ps: seq<Perm>) returns (r: Outcome<()>)
      requires Valid() && AreNames(Tokens(path))
      modifies this
      ensures Valid()
      ensures r.Ok? <==> Write(old(root), Tokens(path), data, d, ps).Ok?
      ensures r.Ok? ==> root == Write(old(root), Tokens(path), data, d, ps).value
      ensures r.Err? ==> r.error == EACCES && root == old(root)
    {
      hide Sane, Find, May, WriteTree;
      var toks, cur, i := Tokens(path), [], 0;
      var inserted: Option<seq<nat>> := None;
      ghost var was := root;
      WritesStart(root, toks, data, d, ps);
      while i < |toks|
        invariant i <= |toks| && Sane(was) && Sane(root) && IsPos(root, cur) && Sane(At(root, cur)) && |cur| == i
        invariant Writes(was, toks, root, cur, toks[i..], data, d, ps)
        invariant inserted.None? ==> root == was
        invariant inserted.Some? ==>
          inserted.value != [] && inserted.value <= cur && Undoes(root, cur, inserted.value, was)
      {
        var parent := At(root, cur);
        var j := FindKid(parent.kids, toks[i]);
        assert toks[i..][0] == toks[i] && toks[i..][1..] == toks[i + 1..];
        assert toks[i] in toks;
        if j == |parent.kids| {
          SaneOwner(parent);
          if !May(parent.perms, WRITE, d) {
            Refused(was, toks, root, cur, toks[i..], data, d, ps);
            if inserted.Some? { root := Cut(root, inserted.value); }
            return Err(EACCES);
          }
          WritesNew(was, toks, root, cur, toks[i..], data, d, ps);
          inserted := Insert(cur, parent, toks[i], ps, inserted, was);
        } else {
          WritesDown(was, toks, root, cur, toks[i..], data, d, ps);
          if inserted.Some? { UndoesDown(root, cur, j, inserted.value, was); }
        }
        cur, i := cur + [j], i + 1;
      }
      assert toks[i..] == [];
      r := SetValue(cur, data, d, inserted, toks, ps, was);
    }

    /** The making of one entry, and the memory of the first one made. */
    method Insert(cur: seq<nat>, parent: Entry, name: Name, ps: seq<Perm>, inserted: Option<seq<nat>>, ghost was: Entry)
      returns (r: Option<seq<nat>>)
      requires IsPos(root, cur) && parent == At(root, cur)
      requires inserted.None? ==> root == was
      requires inserted.Some? ==>
        inserted.value != [] && inserted.value <= cur && Undoes(root, cur, inserted.value, was)
      modifies this
      ensures root == Set(old(root), cur, parent.(kids := parent.kids + [Fresh(parent, name, ps)]))
      ensures IsPos(root, cur + [|parent.kids|]) && r.Some? && r.value != [] && r.value <= cur + [|parent.kids|]
      ensures Undoes(root, cur + [|parent.kids|], r.value, was)
    {
      ghost var e := root;
      var y := parent.(kids := parent.kids + [Fresh(parent, name, ps)]);
      root := Set(root, cur, y);
      AtSet(e, cur, y);
      Down(root, cur, |parent.kids|, y);
      if inserted.None? {
        CutAdded(e, cur, Fresh(parent, name, ps));
        return Some(cur + [|parent.kids|]);
      }
      CutSet(e, inserted.value, cur, y);
      return inserted;
    }

    /** The end of a write: the value is replaced if there is one and the domain may. */
    method SetValue(cur: seq<nat>, data: Option<string>, d: nat, inserted: Option<seq<nat>>, ghost toks: Comps,
                    ps: seq<Perm>, ghost was: Entry)
      returns (r: Outcome<()>)
      requires Sane(was) && Sane(root) && IsPos(root, cur) && Sane(At(root, cur)) && |cur| == |toks|
      requires Writes(was, toks, root, cur, [], data, d, ps)
      requires inserted.None? ==> root == was
      requires inserted.Some? ==>
        inserted.value != [] && inserted.value <= cur && Undoes(root, cur, inserted.value, was)
      modifies this
      ensures Valid()
      ensures r.Ok? <==> Write(was, toks, data, d, ps).Ok?
      ensures r.Ok? ==> root == Write(was, toks, data, d, ps).value
      ensures r.Err? ==> r.error == EACCES && root == was
    {
      hide Find, May;
      var e := At(root, cur);
      if cur != [] && data.Some? {
        if !May(e.perms, WRITE, d) {
          if inserted.Some? { root := Cut(root, inserted.value); }
          return Err(EACCES);
        }
        SaneSetAt(root, cur, e.(value := data));
        root := Set(root, cur, e.(value := data));
      } else {
        SetAt(root, cur);
      }
      return Ok(());
    }

    /** remove_ref_entries. */
    method RemoveRefEntries(d: nat)
      requires Valid()
      modifies this
      ensures Valid() && root == PurgeRoot(old(root), d)
    {
      PurgeSane(root, d);
      var ks := RemoveRefs(root.kids, d);
      root := root.(kids := ks);
    }

    /** The list without a domain's elements. */
    static method ForgetDomain(perms: seq<Perm>, d: nat) returns (r: seq<Perm>)
      ensures r == Forget(perms, d)
    {
      r := [];
      var i := 0;
      while i < |perms|
        invariant i <= |perms| && Forget(perms, d) == r + Forget(perms[i..], d)
      {
        assert perms[i..][0] == perms[i] && perms[i..][1..] == perms[i + 1..];
        if perms[i].domid != d { r := r + [perms[i]]; }
        i := i + 1;
      }
    }

    /** remove_ref_entries_recursive. */
    static method RemoveRefs(kids: seq<Entry>, d: nat) returns (r: seq<Entry>)
      requires forall k :: k in kids ==> Sane(k)
      ensures r == Purge(kids, d)
      decreases kids
    {
      hide Purge, Forget, Sane;
      r := [];
      var i := 0;
      PurgeStep(kids, |kids|, d);
      while i < |kids|
        invariant i <= |kids| && Purge(kids, d) == r + Purge(kids[i..], d)
      {
        PurgeStep(kids, i, d);
        var e := kids[i];
        assert e in kids;
        SaneOwner(e);
        assert forall k :: k in e.kids ==> Sane(k) by { SaneBelow(e); }
        if e.perms[0].domid != d {
          var ps := ForgetDomain(e.perms, d);
          var ks := RemoveRefs(e.kids, d);
          r := r + [e.(perms := ps, kids := ks)];
        }
        i := i + 1;
      }
    }
  }

  /** Cutting at c takes the tree back to what it was, and c is on the way to p. */
  predicate Undoes(e: Entry, p: seq<nat>, c: seq<nat>, was: Entry) {
    IsPos(e, p) && c != [] && c <= p && IsPos(e, c) && Cut(e, c) == was
  }

  lemma {:induction false} UndoesDown(e: Entry, p: seq<nat>, j: nat, c: seq<nat>, was: Entry)
    requires Undoes(e, p, c, was) && j < |At(e, p).kids|
    ensures Undoes(e, p + [j], c, was)
  {
    Down(e, p, j, e);
  }

  lemma {:induction false} PurgeStep(kids: seq<Entry>, i: nat, d: nat)
    requires i <= |kids|
    ensures i == |kids| ==> Purge(kids[i..], d) == [] && kids[0..] == kids
    ensures i < |kids| ==>
      Purge(kids[i..], d) == (if OwnedBy(kids[i], d) then [] else [PurgeEntry(kids[i], d)]) + Purge(kids[i + 1..], d)
  {
    if i < |kids| { assert kids[i..][0] == kids[i] && kids[i..][1..] == kids[i + 1..]; }
  }

  lemma {:induction false} SaneBelow(e: Entry)
    requires Sane(e)
    ensures forall k :: k in e.kids ==> Sane(k)
  {
  }

  lemma {:induction false} SaneOwner(e: Entry)
    requires Sane(e)
    ensures e.perms != []
  {
  }

  lemma {:induction false} Refused(e0: Entry, cs: Comps, e: Entry, p: seq<nat>, rest: Comps, data: Option<string>,
                                   d: nat, ps: seq<Perm>)
    requires Sane(e0) && IsPos(e, p) && Sane(At(e, p)) && rest != [] && cs != []
      && Writes(e0, cs, e, p, rest, data, d, ps)
    requires Find(At(e, p).kids, rest[0]) == |At(e, p).kids| && !May(At(e, p).perms, WRITE, d)
    ensures Write(e0, cs, data, d, ps) == Err(EACCES)
  {
  }
}
