/**
 The XenStore tree: entries with a value, a permission list and ordered children, and what a path
 lookup sees of them.
 */
module XsStore {
  import opened Options
  import opened XsPath

  /** The two bits of a permission: (have & want) == want is Covers. */
  datatype Rights = Rights(read: bool, write: bool)
  {
    predicate Covers(want: Rights) {
      (want.read ==> read) && (want.write ==> write)
    }
  }

  const NONE := Rights(false, false)
  const READ := Rights(true, false)
  const WRITE := Rights(false, true)

  datatype Perm = Perm(domid: nat, rights: Rights)
  datatype Entry = Entry(key: Name, value: Option<string>, perms: seq<Perm>, kids: seq<Entry>)

  // ---------- Permissions ----------

  /** What the list grants a domain: its own element, or else the head's rights. */
  function Granted(perms: seq<Perm>, d: nat, default: Rights): Rights {
    if perms == [] then default
    else if perms[0].domid == d then perms[0].rights
    else Granted(perms[1..], d, default)
  }

  /** check_perms. */
  predicate May(perms: seq<Perm>, want: Rights, d: nat)
    requires perms != []
  {
    d == 0 || perms[0].domid == d || Granted(perms, d, perms[0].rights).Covers(want)
  }

  lemma {:induction false} GrantedFirst(perms: seq<Perm>, d: nat, default: Rights)
    ensures (forall i :: 0 <= i < |perms| ==> perms[i].domid != d) ==> Granted(perms, d, default) == default
    ensures forall i :: 0 <= i < |perms| && Names(perms, i, d) ==> Granted(perms, d, default) == perms[i].rights
    decreases |perms|
  {
    if perms != [] {
      GrantedFirst(perms[1..], d, default);
      forall i | 0 <= i < |perms| && Names(perms, i, d) ensures Granted(perms, d, default) == perms[i].rights {
        if i > 0 { assert Names(perms[1..], i - 1, d); }
      }
    }
  }

  /** The i-th element is the first one for the domain. */
  predicate Names(perms: seq<Perm>, i: nat, d: nat)
    requires i < |perms|
  {
    perms[i].domid == d && forall k :: 0 <= k < i ==> perms[k].domid != d
  }

  /**
   The control domain and the owner may do everything; another domain what the first element that
   names it grants, or, if none does, what the head grants to all.
   */
  lemma {:induction false} MayExact(perms: seq<Perm>, want: Rights, d: nat)
    requires perms != []
    ensures d == 0 || perms[0].domid == d ==> May(perms, want, d)
    ensures d != 0 && perms[0].domid != d ==>
      (May(perms, want, d) <==>
        if exists i :: 0 <= i < |perms| && Names(perms, i, d)
        then exists i :: 0 <= i < |perms| && Names(perms, i, d) && perms[i].rights.Covers(want)
        else perms[0].rights.Covers(want))
  {
    GrantedFirst(perms, d, perms[0].rights);
    if i :| 0 <= i < |perms| && Names(perms, i, d) {
      assert Granted(perms, d, perms[0].rights) == perms[i].rights;
    } else if k :| 0 <= k < |perms| && perms[k].domid == d {
      var j := FirstFor(perms, d, k);
      assert Names(perms, j, d);
    }
  }

  lemma {:induction false} FirstFor(perms: seq<Perm>, d: nat, k: nat) returns (j: nat)
    requires k < |perms| && perms[k].domid == d
    ensures j <= k && Names(perms, j, d)
    decreases k
  {
    if i :| 0 <= i < k && perms[i].domid == d { j := FirstFor(perms, d, i); } else { j := k; }
  }

  // ---------- Trees ----------

  predicate Distinct(kids: seq<Entry>) {
    forall i, j :: 0 <= i < j < |kids| ==> kids[i].key != kids[j].key
  }

  /** Every entry has an owner, and siblings have different names. */
  predicate Sane(e: Entry) {
    e.perms != [] && Distinct(e.kids) && forall k :: k in e.kids ==> IsName(k.key) && Sane(k)
  }

  /** Index of the first child with this name, or their number. */
  function Find(kids: seq<Entry>, name: Name): (j: nat)
    ensures j <= |kids|
    ensures forall i :: 0 <= i < j ==> kids[i].key != name
    ensures j < |kids| ==> kids[j].key == name
  {
    if kids == [] || kids[0].key == name then 0 else 1 + Find(kids[1..], name)
  }

  function Keys(kids: seq<Entry>): (r: seq<Name>)
    ensures |r| == |kids| && forall i :: 0 <= i < |kids| ==> r[i] == kids[i].key
  {
    if kids == [] then [] else [kids[0].key] + Keys(kids[1..])
  }

  /** What a path shows: the value, the permissions, and the children in order. */
  datatype Info = Info(value: Option<string>, perms: seq<Perm>, names: seq<Name>)

  function Look(e: Entry, cs: Comps): (r: Option<Info>)
    decreases |cs|
  {
    if cs == [] then Some(Info(e.value, e.perms, Keys(e.kids)))
    else
      var j := Find(e.kids, cs[0]);
      if j < |e.kids| then Look(e.kids[j], cs[1..]) else None
  }

  /** How many components of the path exist. */
  function Depth(e: Entry, cs: Comps): (n: nat)
    ensures n <= |cs|
    decreases |cs|
  {
    if cs == [] then 0
    else
      var j := Find(e.kids, cs[0]);
      if j < |e.kids| then 1 + Depth(e.kids[j], cs[1..]) else 0
  }

  lemma {:induction false} LookSane(e: Entry, cs: Comps)
    requires Sane(e) && Look(e, cs).Some?
    ensures Look(e, cs).value.perms != []
    decreases |cs|
  {
    if cs != [] { LookSane(e.kids[Find(e.kids, cs[0])], cs[1..]); }
  }

  /** Depth is the length of the longest existing prefix; longer ones are all absent. */
  lemma {:induction false} DepthExact(e: Entry, cs: Comps, n: nat)
    requires n <= |cs|
    ensures Look(e, cs[..n]).Some? <==> n <= Depth(e, cs)
    decreases |cs|
  {
    if n > 0 {
      var j := Find(e.kids, cs[0]);
      assert cs[..n][0] == cs[0] && cs[..n][1..] == cs[1..][..n - 1];
      if j < |e.kids| { DepthExact(e.kids[j], cs[1..], n - 1); }
    }
  }

  lemma {:induction false} FindUnique(kids: seq<Entry>, j: nat)
    requires j < |kids| && Distinct(kids)
    ensures Find(kids, kids[j].key) == j
  {
  }

  lemma {:induction false} LookChild(e: Entry, cs: Comps, name: Name)
    requires Look(e, cs).Some?
    ensures Look(e, cs + [name]).Some? <==> name in Look(e, cs).value.names
    decreases |cs|
  {
    if cs == [] {
      assert ([name])[1..] == [] && cs + [name] == [name];
      var ks := Keys(e.kids);
      if name in ks {
        var i :| 0 <= i < |ks| && ks[i] == name;
        assert e.kids[i].key == name;
      }
      if Find(e.kids, name) < |e.kids| { assert ks[Find(e.kids, name)] == name; }
    } else {
      assert (cs + [name])[1..] == cs[1..] + [name];
      LookChild(e.kids[Find(e.kids, cs[0])], cs[1..], name);
    }
  }

  lemma {:induction false} LookNames(e: Entry, cs: Comps)
    requires Sane(e) && Look(e, cs).Some?
    ensures var ns := Look(e, cs).value.names; AreNames(ns) && forall i, j :: 0 <= i < j < |ns| ==> ns[i] != ns[j]
    decreases |cs|
  {
    if cs == [] {
      var ns := Keys(e.kids);
      forall n | n in ns ensures IsName(n) {
        var i :| 0 <= i < |ns| && ns[i] == n;
        assert e.kids[i] in e.kids;
      }
    } else {
      LookNames(e.kids[Find(e.kids, cs[0])], cs[1..]);
    }
  }

  /** A listing names each existing child once and nothing else. */
  lemma {:induction false} DirectoryExact(e: Entry, cs: Comps)
    requires Sane(e) && Look(e, cs).Some?
    ensures var ns := Look(e, cs).value.names;
      && (forall name :: name in ns <==> Look(e, cs + [name]).Some?)
      && (forall i, j :: 0 <= i < j < |ns| ==> ns[i] != ns[j])
  {
    LookNames(e, cs);
    forall name ensures name in Look(e, cs).value.names <==> Look(e, cs + [name]).Some? { LookChild(e, cs, name); }
  }

  /** Nothing of a tree escapes its lookups. */
  lemma {:induction false} LookDetermines(e: Entry, f: Entry)
    requires Sane(e) && Sane(f) && e.key == f.key && forall cs :: Look(e, cs) == Look(f, cs)
    ensures e == f
  {
    assert Look(e, []) == Look(f, []);
    forall i | 0 <= i < |e.kids| ensures e.kids[i] == f.kids[i] {
      var a, b := e.kids[i], f.kids[i];
      assert Keys(e.kids)[i] == Keys(f.kids)[i];
      FindUnique(e.kids, i);
      FindUnique(f.kids, i);
      forall cs ensures Look(a, cs) == Look(b, cs) {
        assert ([a.key] + cs)[1..] == cs;
        assert Look(e, [a.key] + cs) == Look(f, [a.key] + cs);
      }
      LookDetermines(a, b);
    }
    assert e.kids == f.kids;
  }

  // ---------- Writing ----------

  /** The entry made for a missing component. */
  function Fresh(parent: Entry, name: Name, ps: seq<Perm>): Entry {
    Entry(name, None, if ps == [] then parent.perms else ps, [])
  }

  /** xss_do_write_deadline from one entry down: missing components are made on the way. */
  function WriteTree(e: Entry, cs: Comps, data: Option<string>, d: nat, ps: seq<Perm>): (r: Outcome<Entry>)
    requires Sane(e)
    decreases |cs|
  {
    if cs == [] then
      if data.None? then Ok(e) else if May(e.perms, WRITE, d) then Ok(e.(value := data)) else Err(EACCES)
    else
      var j := Find(e.kids, cs[0]);
      if j < |e.kids| then
        var r := WriteTree(e.kids[j], cs[1..], data, d, ps);
        if r.Ok? then Ok(e.(kids := e.kids[j := r.value])) else r
      else if !May(e.perms, WRITE, d) then Err(EACCES)
      else
        var r := WriteTree(Fresh(e, cs[0], ps), cs[1..], data, d, ps);
        if r.Ok? then Ok(e.(kids := e.kids + [r.value])) else r
  }

  /** A path without components writes nothing. */
  function Write(e: Entry, cs: Comps, data: Option<string>, d: nat, ps: seq<Perm>): (r: Outcome<Entry>)
    requires Sane(e)
  {
    if cs == [] then Ok(e) else WriteTree(e, cs, data, d, ps)
  }

  /** The write is allowed: decided by the deepest entry that exists, and by the list given to new ones. */
  predicate Permitted(e: Entry, cs: Comps, data: Option<string>, d: nat, ps: seq<Perm>)
    requires Sane(e)
  {
    var n := Depth(e, cs);
    DepthExact(e, cs, n);
    LookSane(e, cs[..n]);
    var perms := Look(e, cs[..n]).value.perms;
    if n == |cs| then data.None? || May(perms, WRITE, d)
    else May(perms, WRITE, d) && (ps == [] || (n + 1 == |cs| && data.None?) || May(ps, WRITE, d))
  }

  /** What path q shows after a successful write. */
  function Written(e: Entry, cs: Comps, data: Option<string>, ps: seq<Perm>, q: Comps): (r: Option<Info>)
    requires Sane(e)
  {
    var n := Depth(e, cs);
    DepthExact(e, cs, n);
    var last := Look(e, cs[..n]).value;
    if q <= cs && n < |q| then
      Some(Info(if q == cs then data else None, if ps == [] then last.perms else ps, if q == cs then [] else [cs[|q|]]))
    else if n < |cs| && q == cs[..n] then Some(last.(names := last.names + [cs[n]]))
    else if q == cs && data.Some? then Some(last.(value := data))
    else Look(e, q)
  }

  lemma {:induction false} SaneKids(e: Entry, j: nat)
    requires Sane(e) && j < |e.kids|
    ensures Sane(e.kids[j]) && IsName(e.kids[j].key)
  {
    assert e.kids[j] in e.kids;
  }

  lemma {:induction false} SaneSet(e: Entry, j: nat, k: Entry)
    requires Sane(e) && j < |e.kids| && Sane(k) && k.key == e.kids[j].key
    ensures Sane(e.(kids := e.kids[j := k])) && Keys(e.kids[j := k]) == Keys(e.kids)
  {
    SaneKids(e, j);
    var ks := e.kids[j := k];
    forall x | x in ks ensures IsName(x.key) && Sane(x) {
      var i :| 0 <= i < |ks| && ks[i] == x;
      if i != j { SaneKids(e, i); }
    }
    assert Distinct(ks);
  }

  lemma {:induction false} SaneAdd(e: Entry, k: Entry)
    requires Sane(e) && Sane(k) && IsName(k.key) && Find(e.kids, k.key) == |e.kids|
    ensures Sane(e.(kids := e.kids + [k])) && Keys(e.kids + [k]) == Keys(e.kids) + [k.key]
  {
    var ks := e.kids + [k];
    assert Distinct(ks);
    forall x | x in ks ensures IsName(x.key) && Sane(x) {
      var i :| 0 <= i < |ks| && ks[i] == x;
      if i < |e.kids| { SaneKids(e, i); }
    }
  }

  lemma {:induction false} FreshSane(e: Entry, name: Name, ps: seq<Perm>)
    requires Sane(e)
    ensures Sane(Fresh(e, name, ps))
  {
  }

  /** A write keeps siblings distinct and every list inhabited. */
  lemma {:induction false} WriteSane(e: Entry, cs: Comps, data: Option<string>, d: nat, ps: seq<Perm>)
    requires Sane(e) && AreNames(cs)
    ensures var r := WriteTree(e, cs, data, d, ps); r.Ok? ==> Sane(r.value) && r.value.key == e.key
    decreases |cs|
  {
    var r := WriteTree(e, cs, data, d, ps);
    if cs != [] && r.Ok? {
      assert cs[0] in cs && forall c :: c in cs[1..] ==> c in cs;
      var j := Find(e.kids, cs[0]);
      if j < |e.kids| {
        SaneKids(e, j);
        WriteSane(e.kids[j], cs[1..], data, d, ps);
        SaneSet(e, j, WriteTree(e.kids[j], cs[1..], data, d, ps).value);
      } else {
        FreshSane(e, cs[0], ps);
        WriteSane(Fresh(e, cs[0], ps), cs[1..], data, d, ps);
        SaneAdd(e, WriteTree(Fresh(e, cs[0], ps), cs[1..], data, d, ps).value);
      }
    }
  }

  /** Success is exactly permission at the deepest existing entry. */
  lemma {:induction false} WriteDecides(e: Entry, cs: Comps, data: Option<string>, d: nat, ps: seq<Perm>)
    requires Sane(e)
    ensures WriteTree(e, cs, data, d, ps).Ok? <==> Permitted(e, cs, data, d, ps)
    ensures WriteTree(e, cs, data, d, ps).Err? ==> WriteTree(e, cs, data, d, ps).error == EACCES
    decreases |cs|
  {
    hide May;
    if cs != [] {
      var j := Find(e.kids, cs[0]);
      if j < |e.kids| {
        SaneKids(e, j);
        WriteDecides(e.kids[j], cs[1..], data, d, ps);
        var n := Depth(e, cs);
        assert cs[..n][0] == cs[0] && cs[..n][1..] == cs[1..][..n - 1];
      } else {
        assert cs[..0] == [];
        FreshSane(e, cs[0], ps);
        WriteDecides(Fresh(e, cs[0], ps), cs[1..], data, d, ps);
        FreshDepth(Fresh(e, cs[0], ps), cs[1..]);
      }
    } else {
      assert cs[..0] == [];
    }
  }

  lemma {:induction false} FreshDepth(e: Entry, cs: Comps)
    requires e.kids == []
    ensures Depth(e, cs) == 0 && cs[..0] == []
  {
  }

  /** A successful write changes what the map says at its own path and nowhere else. */
  lemma {:induction false} WriteShows(e: Entry, cs: Comps, data: Option<string>, d: nat, ps: seq<Perm>, q: Comps)
    requires Sane(e) && AreNames(cs) && WriteTree(e, cs, data, d, ps).Ok?
    ensures Look(WriteTree(e, cs, data, d, ps).value, q) == Written(e, cs, data, ps, q)
    decreases |cs|
  {
    hide May, Sane, Find;
    if cs == [] {
      assert cs[..0] == [];
    } else {
      assert cs[0] in cs && forall c :: c in cs[1..] ==> c in cs;
      var j := Find(e.kids, cs[0]);
      if j < |e.kids| {
        WriteShowsBelow(e, cs, data, d, ps, q);
      } else {
        WriteShowsNew(e, cs, data, d, ps, q);
      }
    }
  }

  /** What a write under an existing child shows. */
  lemma {:induction false} WrittenBelow(e: Entry, cs: Comps, data: Option<string>, ps: seq<Perm>, q: Comps)
    requires Sane(e) && cs != [] && Find(e.kids, cs[0]) < |e.kids|
    ensures Sane(e.kids[Find(e.kids, cs[0])])
    ensures Written(e, cs, data, ps, q)
         == if q != [] && q[0] == cs[0] then Written(e.kids[Find(e.kids, cs[0])], cs[1..], data, ps, q[1..])
           else Look(e, q)
  {
    var j := Find(e.kids, cs[0]);
    SaneKids(e, j);
    hide Sane, Find;
    var n := Depth(e, cs);
    assert n > 0;
    assert cs[..n][0] == cs[0] && cs[..n][1..] == cs[1..][..n - 1];
    if q != [] && q[0] == cs[0] {
      PrefixStep(q, cs);
      CutStep(q, cs, n);
    } else if q != [] {
      assert q[0] != cs[..n][0];
    }
  }

  /** What a write that makes a new child shows. */
  lemma {:induction false} WrittenNew(e: Entry, cs: Comps, data: Option<string>, ps: seq<Perm>, q: Comps)
    requires Sane(e) && cs != [] && Find(e.kids, cs[0]) == |e.kids|
    ensures Sane(Fresh(e, cs[0], ps))
    ensures Written(e, cs, data, ps, q)
         == if q == [] then Some(Info(e.value, e.perms, Keys(e.kids) + [cs[0]]))
            else if q[0] == cs[0] then Written(Fresh(e, cs[0], ps), cs[1..], data, ps, q[1..])
            else Look(e, q)
  {
    var f := Fresh(e, cs[0], ps);
    FreshSane(e, cs[0], ps);
    FreshDepth(f, cs[1..]);
    hide Sane, Find;
    assert cs[..0] == [] && cs[1..][..0] == [];
    if q != [] && q[0] == cs[0] {
      PrefixStep(q, cs);
      FreshLook(f, q[1..]);
      FreshLook(f, []);
      if q[1..] == [] {
        assert q == [cs[0]];
        if |cs| > 1 { assert [] + [cs[1]] == [cs[1]]; }
      }
    }
  }

  lemma {:induction false} FreshLook(e: Entry, q: Comps)
    requires e.kids == []
    ensures Look(e, q) == if q == [] then Some(Info(e.value, e.perms, [])) else None
  {
  }

  lemma {:induction false} WriteShowsBelow(e: Entry, cs: Comps, data: Option<string>, d: nat, ps: seq<Perm>, q: Comps)
    requires Sane(e) && AreNames(cs) && WriteTree(e, cs, data, d, ps).Ok? && cs != [] && Find(e.kids, cs[0]) < |e.kids|
    ensures Look(WriteTree(e, cs, data, d, ps).value, q) == Written(e, cs, data, ps, q)
    decreases |cs|, 0
  {
    hide May, Written;
    var j := Find(e.kids, cs[0]);
    SaneKids(e, j);
    WrittenBelow(e, cs, data, ps, q);
    var k := WriteTree(e.kids[j], cs[1..], data, d, ps).value;
    assert forall c :: c in cs[1..] ==> c in cs;
    WriteSane(e.kids[j], cs[1..], data, d, ps);
    SaneSet(e, j, k);
    hide Sane;
    if q != [] {
      FindSet(e.kids, j, k, q[0]);
      if q[0] == cs[0] { WriteShows(e.kids[j], cs[1..], data, d, ps, q[1..]); }
    }
  }

  lemma {:induction false} PrefixStep(q: Comps, cs: Comps)
    requires q != [] && cs != [] && q[0] == cs[0]
    ensures (q <= cs <==> q[1..] <= cs[1..]) && (q == cs <==> q[1..] == cs[1..])
  {
    assert q == [q[0]] + q[1..] && cs == [cs[0]] + cs[1..];
  }

  lemma {:induction false} CutStep(q: Comps, cs: Comps, n: nat)
    requires q != [] && 0 < n <= |cs| && q[0] == cs[0]
    ensures q == cs[..n] <==> q[1..] == cs[1..][..n - 1]
  {
    assert cs[..n][0] == cs[0] && cs[..n][1..] == cs[1..][..n - 1];
    PrefixStep(q, cs[..n]);
  }

  lemma {:induction false} FindSet(kids: seq<Entry>, j: nat, k: Entry, name: Name)
    requires j < |kids| && k.key == kids[j].key
    ensures Find(kids[j := k], name) == Find(kids, name)
    decreases |kids|
  {
    if j == 0 {
      assert kids[0 := k][1..] == kids[1..];
    } else {
      assert kids[j := k][1..] == kids[1..][j - 1 := k];
      FindSet(kids[1..], j - 1, k, name);
    }
  }

  lemma {:induction false} FindAdd(kids: seq<Entry>, k: Entry, name: Name)
    requires Find(kids, k.key) == |kids|
    ensures name != k.key ==>
      Find(kids + [k], name) == (if Find(kids, name) < |kids| then Find(kids, name) else |kids| + 1)
    ensures name == k.key ==> Find(kids + [k], name) == |kids|
    decreases |kids|
  {
    if kids == [] {
      assert kids + [k] == [k] && [k][1..] == [];
    } else {
      assert (kids + [k])[1..] == kids[1..] + [k];
      FindAdd(kids[1..], k, name);
    }
  }

  lemma {:induction false} WriteShowsNew(e: Entry, cs: Comps, data: Option<string>, d: nat, ps: seq<Perm>, q: Comps)
    requires Sane(e) && AreNames(cs) && WriteTree(e, cs, data, d, ps).Ok? && cs != [] && Find(e.kids, cs[0]) == |e.kids|
    ensures Look(WriteTree(e, cs, data, d, ps).value, q) == Written(e, cs, data, ps, q)
    decreases |cs|, 0
  {
    hide May, Written;
    var f := Fresh(e, cs[0], ps);
    FreshSane(e, cs[0], ps);
    WrittenNew(e, cs, data, ps, q);
    var k := WriteTree(f, cs[1..], data, d, ps).value;
    assert cs[0] in cs && forall c :: c in cs[1..] ==> c in cs;
    WriteSane(f, cs[1..], data, d, ps);
    SaneAdd(e, k);
    hide Sane;
    if q != [] {
      FindAdd(e.kids, k, q[0]);
      if q[0] == cs[0] { WriteShows(f, cs[1..], data, d, ps, q[1..]); }
    }
  }

  /**
   A write is a map update: allowed exactly as stated, and then only its own path and the missing
   ones above it change. A write to the root is allowed to anyone and changes nothing.
   */
  lemma {:induction false} WriteRefines(e: Entry, cs: Comps, data: Option<string>, d: nat, ps: seq<Perm>)
    requires Sane(e) && AreNames(cs)
    ensures var r := Write(e, cs, data, d, ps);
      && (r.Ok? <==> cs == [] || Permitted(e, cs, data, d, ps))
      && (r.Err? ==> r.error == EACCES) && (cs == [] ==> r == Ok(e))
      && (r.Ok? ==> Sane(r.value) && r.value.key == e.key)
      && (r.Ok? && cs != [] ==> forall q :: Look(r.value, q) == Written(e, cs, data, ps, q))
  {
    hide Written, Permitted, Sane, WriteTree;
    WriteDecides(e, cs, data, d, ps);
    WriteSane(e, cs, data, d, ps);
    var r := Write(e, cs, data, d, ps);
    if r.Ok? && cs != [] {
      forall q ensures Look(r.value, q) == Written(e, cs, data, ps, q) { WriteShows(e, cs, data, d, ps, q); }
    }
  }

  /** A write that succeeds with a new value shows it afterwards if and only if the path has a component. */
  lemma {:induction false} WriteSeen(e: Entry, cs: Comps, data: string, d: nat, ps: seq<Perm>)
    requires Sane(e) && AreNames(cs) && Write(e, cs, Some(data), d, ps).Ok?
    requires Look(e, cs).Some? ==> Look(e, cs).value.value != Some(data)
    ensures var i := Look(Write(e, cs, Some(data), d, ps).value, cs);
      i.Some? && (i.value.value == Some(data) <==> cs != [])
  {
    hide Sane, Permitted, WriteTree;
    WriteRefines(e, cs, Some(data), d, ps);
    DepthExact(e, cs, Depth(e, cs));
    if cs != [] { assert cs[..|cs|] == cs; }
  }

  /** The path `/` has none: the server reports success and keeps the tree. */
  lemma {:induction false} RootWriteLost(e: Entry, data: Option<string>, d: nat, ps: seq<Perm>)
    requires Sane(e)
    ensures Tokens("/") == [] && Write(e, Tokens("/"), data, d, ps) == Ok(e)
  {
    assert "/"[1..] == "";
  }

  /**
   A guest creates entries exactly where it may write the deepest existing ancestor, and then reads
   its value back.
   */
  lemma {:induction false} GuestCreates(e: Entry, cs: Comps, data: string, d: nat)
    requires Sane(e) && AreNames(cs) && Look(e, cs).None?
    ensures var n := Depth(e, cs); var r := Write(e, cs, Some(data), d, []);
      && n < |cs| && Look(e, cs[..n]).Some? && Look(e, cs[..n + 1]).None? && Look(e, cs[..n]).value.perms != []
      && (r.Ok? <==> May(Look(e, cs[..n]).value.perms, WRITE, d))
      && (r.Ok? ==> Look(r.value, cs) == Some(Info(Some(data), Look(e, cs[..n]).value.perms, [])))
  {
    hide May, WriteTree;
    var n := Depth(e, cs);
    assert cs[..|cs|] == cs;
    DepthExact(e, cs, |cs|);
    DepthExact(e, cs, n);
    DepthExact(e, cs, n + 1);
    LookSane(e, cs[..n]);
    hide Sane;
    WriteRefines(e, cs, Some(data), d, []);
  }

  // ---------- Removing ----------

  /** The list without one of its members. */
  function Without<T>(s: seq<T>, j: nat): (r: seq<T>)
    requires j < |s|
    ensures |r| == |s| - 1
  {
    s[..j] + s[j + 1..]
  }

  /** free_node on the entry at a path below e. */
  function Remove(e: Entry, cs: Comps): (r: Entry)
    requires cs != [] && Look(e, cs).Some?
    decreases |cs|
  {
    var j := Find(e.kids, cs[0]);
    if |cs| == 1 then e.(kids := Without(e.kids, j)) else e.(kids := e.kids[j := Remove(e.kids[j], cs[1..])])
  }

  /** The list without the first occurrence of x. */
  function Drop<T(==)>(s: seq<T>, x: T): (r: seq<T>) {
    if s == [] then [] else if s[0] == x then s[1..] else [s[0]] + Drop(s[1..], x)
  }

  /** What path q shows after a removal: the whole prefix is gone. */
  function Removed(e: Entry, cs: Comps, q: Comps): (r: Option<Info>)
    requires cs != []
  {
    if cs <= q then None
    else if q == cs[..|cs| - 1] && Look(e, q).Some? then
      Some(Look(e, q).value.(names := Drop(Look(e, q).value.names, cs[|cs| - 1])))
    else Look(e, q)
  }

  lemma {:induction false} SaneWithout(e: Entry, j: nat)
    requires Sane(e) && j < |e.kids|
    ensures Sane(e.(kids := Without(e.kids, j)))
    ensures Keys(Without(e.kids, j)) == Drop(Keys(e.kids), e.kids[j].key)
  {
    var ks := Without(e.kids, j);
    forall x | x in ks ensures IsName(x.key) && Sane(x) { assert x in e.kids; }
    assert Distinct(ks) by {
      forall a, b | 0 <= a < b < |ks| ensures ks[a].key != ks[b].key {
        assert ks[a] == e.kids[if a < j then a else a + 1] && ks[b] == e.kids[if b < j then b else b + 1];
      }
    }
    KeysWithout(e.kids, j);
  }

  lemma {:induction false} KeysWithout(kids: seq<Entry>, j: nat)
    requires Distinct(kids) && j < |kids|
    ensures Keys(Without(kids, j)) == Drop(Keys(kids), kids[j].key)
    decreases |kids|
  {
    if j == 0 {
      assert Without(kids, 0) == kids[1..];
    } else {
      assert Without(kids, j)[1..] == Without(kids[1..], j - 1);
      assert Keys(kids)[1..] == Keys(kids[1..]);
      KeysWithout(kids[1..], j - 1);
    }
  }

  lemma {:induction false} DistinctTail(kids: seq<Entry>)
    requires Distinct(kids) && kids != []
    ensures Distinct(kids[1..])
  {
  }

  lemma {:induction false} FindCons(k: Entry, kids: seq<Entry>, name: Name)
    ensures Find([k] + kids, name) == if k.key == name then 0 else 1 + Find(kids, name)
  {
    assert ([k] + kids)[1..] == kids;
  }

  lemma {:induction false} FindNone(kids: seq<Entry>, name: Name)
    requires forall i :: 0 <= i < |kids| ==> kids[i].key != name
    ensures Find(kids, name) == |kids|
    decreases |kids|
  {
    if kids != [] { FindNone(kids[1..], name); }
  }

  lemma {:induction false} FindAbsent(kids: seq<Entry>)
    requires Distinct(kids) && kids != []
    ensures Find(kids[1..], kids[0].key) == |kids| - 1
  {
    forall i | 0 <= i < |kids| - 1 ensures kids[1..][i].key != kids[0].key { assert kids[1..][i] == kids[i + 1]; }
    FindNone(kids[1..], kids[0].key);
  }

  lemma {:induction false} FindWithout(kids: seq<Entry>, j: nat, name: Name)
    requires Distinct(kids) && j < |kids|
    ensures var i := Find(kids, name); var k := Find(Without(kids, j), name);
      k == if i == j then |kids| - 1 else if i < j then i else i - 1
    decreases |kids|
  {
    if j == 0 {
      assert Without(kids, 0) == kids[1..];
      if kids[0].key == name { FindAbsent(kids); }
    } else {
      assert Without(kids, j)[1..] == Without(kids[1..], j - 1);
      assert Without(kids, j)[0] == kids[0];
      if kids[0].key != name { FindWithout(kids[1..], j - 1, name); }
    }
  }

  lemma {:induction false} RemoveSane(e: Entry, cs: Comps)
    requires Sane(e) && cs != [] && Look(e, cs).Some?
    ensures Sane(Remove(e, cs)) && Remove(e, cs).key == e.key
    decreases |cs|
  {
    var j := Find(e.kids, cs[0]);
    SaneKids(e, j);
    if |cs| == 1 {
      SaneWithout(e, j);
    } else {
      RemoveSane(e.kids[j], cs[1..]);
      SaneSet(e, j, Remove(e.kids[j], cs[1..]));
    }
  }

  lemma {:induction false} RemoveShows(e: Entry, cs: Comps, q: Comps)
    requires Sane(e) && cs != [] && Look(e, cs).Some?
    ensures Look(Remove(e, cs), q) == Removed(e, cs, q)
    decreases |cs|
  {
    if |cs| == 1 {
      RemoveShowsHere(e, cs, q);
    } else {
      RemoveShowsBelow(e, cs, q);
    }
  }

  lemma {:induction false} RemoveShowsHere(e: Entry, cs: Comps, q: Comps)
    requires Sane(e) && |cs| == 1 && Look(e, cs).Some?
    ensures Look(Remove(e, cs), q) == Removed(e, cs, q)
  {
    hide Drop, Keys, Find, Without;
    var j := Find(e.kids, cs[0]);
    FoundKey(e.kids, cs[0]);
    SaneWithout(e, j);
    assert cs[..0] == [];
    if q != [] {
      var i := Find(e.kids, q[0]);
      FoundKey(e.kids, q[0]);
      FindWithout(e.kids, j, q[0]);
      hide Sane;
      OneName(cs, q);
      if i != j && i < |e.kids| { WithoutAt(e.kids, j, i); }
    }
  }

  lemma {:induction false} WithoutAt(kids: seq<Entry>, j: nat, i: nat)
    requires j < |kids| && i < |kids| && i != j
    ensures Without(kids, j)[if i < j then i else i - 1] == kids[i]
  {
  }

  lemma {:induction false} OneName(cs: Comps, q: Comps)
    requires |cs| == 1 && q != []
    ensures (cs <= q <==> q[0] == cs[0]) && q != cs[..0]
  {
  }

  lemma {:induction false} RemoveShowsBelow(e: Entry, cs: Comps, q: Comps)
    requires Sane(e) && |cs| > 1 && Look(e, cs).Some?
    ensures Look(Remove(e, cs), q) == Removed(e, cs, q)
    decreases |cs|, 0
  {
    hide Drop, Keys, Find;
    var j := Find(e.kids, cs[0]);
    SaneKids(e, j);
    RemoveSane(e.kids[j], cs[1..]);
    var k := Remove(e.kids[j], cs[1..]);
    SaneSet(e, j, k);
    hide Sane, Remove;
    assert Remove(e, cs) == e.(kids := e.kids[j := k]) by { RemoveUnfold(e, cs); }
    FoundKey(e.kids, cs[0]);
    if q == [] {
      assert q != cs[..|cs| - 1];
    } else {
      FindSet(e.kids, j, k, q[0]);
      if q[0] == cs[0] {
        RemoveShows(e.kids[j], cs[1..], q[1..]);
        RemovedBelow(e, cs, q);
      } else {
        assert q != cs[..|cs| - 1] && !(cs <= q);
      }
    }
  }

  lemma {:induction false} RemoveUnfold(e: Entry, cs: Comps)
    requires |cs| > 1 && Look(e, cs).Some?
    ensures var j := Find(e.kids, cs[0]);
      j < |e.kids| && Remove(e, cs) == e.(kids := e.kids[j := Remove(e.kids[j], cs[1..])])
  {
  }

  lemma {:induction false} RemovedBelow(e: Entry, cs: Comps, q: Comps)
    requires |cs| > 1 && q != [] && q[0] == cs[0] && Find(e.kids, cs[0]) < |e.kids|
    ensures Removed(e, cs, q) == Removed(e.kids[Find(e.kids, cs[0])], cs[1..], q[1..])
  {
    hide Drop, Find;
    PrefixStep(cs, q);
    CutStep(q, cs, |cs| - 1);
  }

  /** A removal takes away the entry and everything below it, and nothing else. */
  lemma {:induction false} RemoveRefines(e: Entry, cs: Comps)
    requires Sane(e) && cs != [] && Look(e, cs).Some?
    ensures Sane(Remove(e, cs)) && Remove(e, cs).key == e.key
    ensures forall q :: Look(Remove(e, cs), q) == Removed(e, cs, q)
  {
    hide *;
    RemoveSane(e, cs);
    forall q ensures Look(Remove(e, cs), q) == Removed(e, cs, q) { RemoveShows(e, cs, q); }
  }

  /** Removing what a write has just made below an existing entry restores the tree. */
  lemma {:induction false} RemoveUndoesCreate(e: Entry, cs: Comps, data: Option<string>, d: nat, ps: seq<Perm>)
    requires Sane(e) && AreNames(cs) && Depth(e, cs) < |cs| && WriteTree(e, cs, data, d, ps).Ok?
    ensures var f := WriteTree(e, cs, data, d, ps).value; var n := Depth(e, cs) + 1;
      Look(f, cs[..n]).Some? && Remove(f, cs[..n]) == e
    decreases |cs|
  {
    hide May, Sane, Find;
    var n := Depth(e, cs) + 1;
    var j := Find(e.kids, cs[0]);
    assert cs[0] in cs && forall c :: c in cs[1..] ==> c in cs;
    if j < |e.kids| {
      SaneKids(e, j);
      RemoveUndoesCreate(e.kids[j], cs[1..], data, d, ps);
      WriteSane(e.kids[j], cs[1..], data, d, ps);
      var k := WriteTree(e.kids[j], cs[1..], data, d, ps).value;
      hide WriteTree;
      assert e.kids[j].key == cs[0] by { FoundKey(e.kids, cs[0]); }
      assert cs[..n][0] == cs[0] && cs[..n][1..] == cs[1..][..n - 1];
      RemoveBelow(e, j, k, cs[..n]);
    } else {
      FreshSane(e, cs[0], ps);
      WriteSane(Fresh(e, cs[0], ps), cs[1..], data, d, ps);
      RemoveAdded(e, WriteTree(Fresh(e, cs[0], ps), cs[1..], data, d, ps).value);
      assert cs[..1] == [cs[0]];
    }
  }

  lemma {:induction false} FoundKey(kids: seq<Entry>, name: Name)
    ensures Find(kids, name) < |kids| ==> kids[Find(kids, name)].key == name
  {
  }

  lemma {:induction false} RemoveAdded(e: Entry, k: Entry)
    requires Find(e.kids, k.key) == |e.kids|
    ensures var f := e.(kids := e.kids + [k]); Look(f, [k.key]).Some? && Remove(f, [k.key]) == e
  {
    FindAdd(e.kids, k, k.key);
    assert Without(e.kids + [k], |e.kids|) == e.kids;
  }

  lemma {:induction false} RemoveBelow(e: Entry, j: nat, k: Entry, cs: Comps)
    requires |cs| > 1 && Find(e.kids, cs[0]) == j < |e.kids| && k.key == cs[0]
    requires Look(k, cs[1..]).Some? && Remove(k, cs[1..]) == e.kids[j]
    ensures var f := e.(kids := e.kids[j := k]); Look(f, cs).Some? && Remove(f, cs) == e
  {
    FindSet(e.kids, j, k, cs[0]);
    assert e.kids[j := k][j := e.kids[j]] == e.kids;
  }
}
