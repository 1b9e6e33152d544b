/**
 What is left of the store when a domain goes away: its own entries disappear with everything
 below them, and the others forget it.
 */
module XsTeardown {
  import opened XsPath
  import opened Options
  import opened XsStore

  /** The permission list without a domain. */
  function Forget(ps: seq<Perm>, d: nat): (r: seq<Perm>) {
    if ps == [] then [] else (if ps[0].domid == d then [] else [ps[0]]) + Forget(ps[1..], d)
  }

  predicate HeadIs(ps: seq<Perm>, d: nat) {
    ps != [] && ps[0].domid == d
  }

  predicate OwnedBy(e: Entry, d: nat) {
    HeadIs(e.perms, d)
  }

  /** remove_ref_entries_recursive on a list of siblings. */
  function Purge(kids: seq<Entry>, d: nat): (r: seq<Entry>)
    decreases kids
  {
    if kids == [] then []
    else (if OwnedBy(kids[0], d) then [] else [PurgeEntry(kids[0], d)]) + Purge(kids[1..], d)
  }

  function PurgeEntry(e: Entry, d: nat): (r: Entry)
    decreases e
  {
    e.(perms := Forget(e.perms, d), kids := Purge(e.kids, d))
  }

  /** remove_ref_entries: the root itself is not looked at. */
  function PurgeRoot(e: Entry, d: nat): Entry {
    e.(kids := Purge(e.kids, d))
  }

  /** Some entry on the path below e belongs to the domain. */
  predicate OnOwned(e: Entry, q: Comps, d: nat)
    decreases |q|
  {
    q != [] &&
    var j := Find(e.kids, q[0]);
    j < |e.kids| && (OwnedBy(e.kids[j], d) || OnOwned(e.kids[j], q[1..], d))
  }

  /** The children the domain does not own, in order. */
  function Staying(kids: seq<Entry>, d: nat): (r: seq<Name>) {
    if kids == [] then [] else (if OwnedBy(kids[0], d) then [] else [kids[0].key]) + Staying(kids[1..], d)
  }

  predicate Mentions(ps: seq<Perm>, d: nat) {
    exists p :: p in ps && p.domid == d
  }

  /** The entry at a path. */
  function Reach(e: Entry, q: Comps): (r: Option<Entry>)
    ensures r.Some? <==> Look(e, q).Some?
    ensures r.Some? ==> Look(e, q).value == Info(r.value.value, r.value.perms, Keys(r.value.kids))
    decreases |q|
  {
    if q == [] then Some(e)
    else
      var j := Find(e.kids, q[0]);
      if j < |e.kids| then Reach(e.kids[j], q[1..]) else None
  }

  /** On the path means: at one of its nonempty prefixes. */
  lemma {:induction false} OnOwnedExact(e: Entry, q: Comps, d: nat)
    ensures OnOwned(e, q, d) <==>
       exists n :: 0 < n <= |q| && Look(e, q[..n]).Some? && HeadIs(Look(e, q[..n]).value.perms, d)
    decreases |q|
  {
    if q != [] {
      var j := Find(e.kids, q[0]);
      forall n | 0 < n <= |q| ensures Look(e, q[..n]) == if j < |e.kids| then Look(e.kids[j], q[1..][..n - 1])
        else None {
        assert q[..n][0] == q[0] && q[..n][1..] == q[1..][..n - 1];
      }
      if j < |e.kids| {
        OnOwnedExact(e.kids[j], q[1..], d);
        assert q[1..][..0] == [];
        if OwnedBy(e.kids[j], d) {
          assert HeadIs(Look(e, q[..1]).value.perms, d);
        } else if OnOwned(e.kids[j], q[1..], d) {
          var m :| 0 < m <= |q| - 1 && Look(e.kids[j], q[1..][..m]).Some?
            && HeadIs(Look(e.kids[j], q[1..][..m]).value.perms, d);
          assert Look(e, q[..m + 1]) == Look(e.kids[j], q[1..][..m]);
        }
      }
    }
  }

  /** Nothing but the domain's own elements leaves a permission list. */
  lemma {:induction false} ForgetExact(ps: seq<Perm>, d: nat)
    ensures !Mentions(Forget(ps, d), d)
    ensures forall p :: p in Forget(ps, d) <==> p in ps && p.domid != d
    ensures ps != [] && ps[0].domid != d ==> Forget(ps, d) != [] && Forget(ps, d)[0] == ps[0]
    decreases |ps|
  {
    if ps != [] { ForgetExact(ps[1..], d); }
  }

  /** Other domains keep the access they had. */
  lemma {:induction false} ForgetGrants(ps: seq<Perm>, d: nat, who: nat, default: Rights)
    requires who != d
    ensures Granted(Forget(ps, d), who, default) == Granted(ps, who, default)
    decreases |ps|
  {
    if ps != [] {
      ForgetGrants(ps[1..], d, who, default);
      var rest := Forget(ps[1..], d);
      if ps[0].domid != d { assert ([ps[0]] + rest)[1..] == rest; } else { assert [] + rest == rest; }
    }
  }

  lemma {:induction false} PurgeFind(kids: seq<Entry>, d: nat, name: Name)
    requires Distinct(kids)
    ensures var j := Find(kids, name); var k := Find(Purge(kids, d), name);
      && (k < |Purge(kids, d)| <==> j < |kids| && !OwnedBy(kids[j], d))
      && (k < |Purge(kids, d)| ==> Purge(kids, d)[k] == PurgeEntry(kids[j], d))
    decreases |kids|
  {
    hide OwnedBy, PurgeEntry, Find, Distinct;
    if kids != [] {
      DistinctTail(kids);
      PurgeFind(kids[1..], d, name);
      var rest := Purge(kids[1..], d);
      FindCons(kids[0], kids[1..], name);
      assert kids == [kids[0]] + kids[1..];
      if OwnedBy(kids[0], d) {
        assert Purge(kids, d) == rest;
        if kids[0].key == name { FindAbsent(kids); }
      } else {
        var p := PurgeEntry(kids[0], d);
        PurgeKey(kids[0], d);
        assert Purge(kids, d) == [p] + rest;
        FindCons(p, rest, name);
      }
    }
  }

  lemma {:induction false} PurgeKey(e: Entry, d: nat)
    ensures PurgeEntry(e, d).key == e.key
  {
  }

  lemma {:induction false} PurgeKeys(kids: seq<Entry>, d: nat)
    ensures Keys(Purge(kids, d)) == Staying(kids, d)
    ensures forall k :: k in Purge(kids, d) ==> exists x :: x in kids && !OwnedBy(x, d) && k == PurgeEntry(x, d)
    decreases |kids|
  {
    if kids != [] {
      var rest := Purge(kids[1..], d);
      PurgeKeys(kids[1..], d);
      if OwnedBy(kids[0], d) {
        assert Purge(kids, d) == rest;
      } else {
        assert ([PurgeEntry(kids[0], d)] + rest)[1..] == rest;
      }
    }
  }

  lemma {:induction false} PurgeDistinct(kids: seq<Entry>, d: nat)
    requires Distinct(kids)
    ensures Distinct(Purge(kids, d))
    decreases |kids|
  {
    if kids != [] {
      var rest := Purge(kids[1..], d);
      PurgeDistinct(kids[1..], d);
      PurgeKeys(kids[1..], d);
      forall k | k in rest ensures k.key != kids[0].key {
        var x :| x in kids[1..] && !OwnedBy(x, d) && k == PurgeEntry(x, d);
        var i :| 0 <= i < |kids[1..]| && kids[1..][i] == x;
        assert kids[1 + i].key != kids[0].key;
      }
    }
  }

  /** Siblings stay distinct and lists inhabited. */
  lemma {:induction false} PurgeSane(e: Entry, d: nat)
    requires Sane(e)
    ensures Sane(PurgeRoot(e, d)) && (!OwnedBy(e, d) ==> Sane(PurgeEntry(e, d)))
    decreases e
  {
    PurgeKeys(e.kids, d);
    PurgeDistinct(e.kids, d);
    forall k | k in Purge(e.kids, d) ensures IsName(k.key) && Sane(k) {
      var x :| x in e.kids && !OwnedBy(x, d) && k == PurgeEntry(x, d);
      PurgeSane(x, d);
    }
    ForgetExact(e.perms, d);
  }

  /** What a path shows after the purge of its surroundings. */
  lemma {:induction false} PurgeShows(e: Entry, f: Entry, q: Comps, d: nat)
    requires Sane(e) && f.kids == Purge(e.kids, d) && q != []
    ensures Look(f, q).Some? <==> Look(e, q).Some? && !OnOwned(e, q, d)
    ensures Look(f, q).Some? ==>
      Look(f, q).value
        == Info(Look(e, q).value.value, Forget(Look(e, q).value.perms, d), Staying(Reach(e, q).value.kids, d))
    decreases |q|
  {
    PurgeFind(e.kids, d, q[0]);
    var j := Find(e.kids, q[0]);
    if j < |e.kids| && !OwnedBy(e.kids[j], d) {
      SaneKids(e, j);
      var x := PurgeEntry(e.kids[j], d);
      hide Sane, Find, Purge;
      if |q| == 1 {
        PurgeKeys(e.kids[j].kids, d);
      } else {
        PurgeShows(e.kids[j], x, q[1..], d);
      }
    }
  }

  /**
   After remove_ref_entries(d) no entry below the root mentions d; the survivors are exactly the
   entries with no d-owned entry on their path, in order, with their values and the rest of their
   permissions.
   */
  lemma {:induction false} TeardownExact(e: Entry, d: nat, q: Comps)
    requires Sane(e) && q != []
    ensures var f := PurgeRoot(e, d);
      && Sane(f) && f.value == e.value && f.perms == e.perms && Keys(f.kids) == Staying(e.kids, d)
      && (Look(f, q).Some? <==> Look(e, q).Some? && !OnOwned(e, q, d))
      && (Look(f, q).Some? ==>
            var i, was := Look(f, q).value, Look(e, q).value;
            && i.value == was.value && i.perms == Forget(was.perms, d) && i.perms != [] && !Mentions(i.perms, d)
            && i.names == Staying(Reach(e, q).value.kids, d))
  {
    hide Purge, OnOwned, Reach, Staying;
    PurgeSane(e, d);
    PurgeKeys(e.kids, d);
    PurgeShows(e, PurgeRoot(e, d), q, d);
    if Look(PurgeRoot(e, d), q).Some? {
      LookSane(PurgeRoot(e, d), q);
      ForgetExact(Look(e, q).value.perms, d);
    }
  }

  /** A surviving domain sees the same rights on every surviving entry. */
  lemma {:induction false} TeardownRights(e: Entry, d: nat, q: Comps, who: nat, want: Rights)
    requires Sane(e) && q != [] && who != d && Look(PurgeRoot(e, d), q).Some?
    ensures Look(e, q).Some? && Look(e, q).value.perms != [] && Look(PurgeRoot(e, d), q).value.perms != []
    ensures May(Look(PurgeRoot(e, d), q).value.perms, want, who) == May(Look(e, q).value.perms, want, who)
  {
    hide Purge, OnOwned, Reach, Staying, Forget, Granted;
    TeardownExact(e, d, q);
    LookSane(e, q);
    var was := Look(e, q).value.perms;
    OnOwnedExact(e, q, d);
    assert q[..|q|] == q;
    assert !HeadIs(was, d);
    ForgetExact(was, d);
    ForgetGrants(was, d, who, was[0].rights);
  }
}
