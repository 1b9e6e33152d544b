/**
 Which watches hear of a change: the loop that queues watch events, and exactly whom it serves.
 */
module XsNotify {
  import opened Seqs
  import opened XsPath
  import opened Options
  import opened XsStore
  import opened XsTeardown
  import opened XsServer
  import opened XsWatches

  /** A queued event: the position of the watch in the registry, and the path it is told. */
  datatype Notice = Notice(watch: nat, path: string)

  /** The path an event would carry. */
  function EventPath(key: string, path: string, removing: bool): (r: Option<string>) {
    if Contains(key, path) then Some(path) else if removing && Contains(path, key) then Some(key) else None
  }

  /** key_to_entry_check_perm for reading. */
  predicate Readable(e: Entry, path: string, d: nat) {
    Leads(path) && Reach(e, Tokens(path)).Some? &&
    var ps := Reach(e, Tokens(path)).value.perms;
    ps != [] && May(ps, READ, d)
  }

  /** What one watch gets: an event or nothing. */
  function NoticeFor(e: Entry, w: Watch, i: nat, path: string, removing: bool): (r: seq<Notice>) {
    var p := EventPath(w.key, path, removing);
    if p.Some? && Readable(e, p.value, w.dom) then [Notice(i, p.value)] else []
  }

  /** The events of queue_watch_notifications_xsel_locked from the i-th watch on. */
  function Notices(e: Entry, ws: seq<Watch>, path: string, removing: bool, i: nat): (r: seq<Notice>)
    decreases |ws| - i
  {
    if i >= |ws| then [] else NoticeFor(e, ws[i], i, path, removing) + Notices(e, ws, path, removing, i + 1)
  }

  method CanRead(store: Store, path: string, d: nat) returns (r: bool)
    requires store.Valid()
    ensures r == Readable(store.root, path, d)
  {
    hide Sane, Tokens, May;
    var at := store.KeyToEntry(path);
    PlaceReaches(store.root, Tokens(path));
    if at.None? { return false; }
    SaneAt(store.root, at.value);
    SaneOwner(At(store.root, at.value));
    return May(At(store.root, at.value).perms, READ, d);
  }

  /** The loop over the registry, with both locks held. */
  method QueueNotifications(store: Store, ws: seq<Watch>, path: string, removing: bool) returns (r: seq<Notice>)
    requires store.Valid()
    ensures r == Notices(store.root, ws, path, removing, 0)
  {
    hide Sane, Contains, Readable, Notices, NoticeFor, EventPath;
    ghost var e := store.root;
    r := [];
    var i := 0;
    NoticesStep(e, ws, path, removing, |ws|);
    while i < |ws|
      invariant i <= |ws| && Notices(e, ws, path, removing, 0) == r + Notices(e, ws, path, removing, i)
    {
      var more := NoticeOf(store, ws[i], i, path, removing);
      NoticesStep(e, ws, path, removing, i);
      Assoc(r, more, Notices(e, ws, path, removing, i + 1));
      r := r + more;
      i := i + 1;
    }
  }

  /** One turn of the loop. */
  method NoticeOf(store: Store, w: Watch, i: nat, path: string, removing: bool) returns (r: seq<Notice>)
    requires store.Valid()
    ensures r == NoticeFor(store.root, w, i, path, removing)
  {
    hide Sane, Contains, Readable;
    var p := EventPath(w.key, path, removing);
    if p.None? { return []; }
    var ok := CanRead(store, p.value, w.dom);
    return if ok then [Notice(i, p.value)] else [];
  }

  lemma {:induction false} NoticesStep(e: Entry, ws: seq<Watch>, path: string, removing: bool, i: nat)
    requires i <= |ws|
    ensures Notices(e, ws, path, removing, i)
         == if i == |ws| then [] else NoticeFor(e, ws[i], i, path, removing) + Notices(e, ws, path, removing, i + 1)
  {
  }

  /** On accepted paths the watch is above the changed path, or on removal below it. */
  lemma {:induction false} EventPathExact(key: string, path: string, removing: bool)
    requires Accepted(key) && Accepted(path) && key[0] == '/' && path[0] == '/'
    ensures EventPath(key, path, removing)
         == if Tokens(key) <= Tokens(path) then Some(path)
            else if removing && Tokens(path) <= Tokens(key) then Some(key) else None
  {
    hide Contains, Tokens, Accepted;
    ContainsExact(key, path);
    ContainsExact(path, key);
  }

  /** The watch is concerned and its domain may read the entry at the event's path. */
  predicate Concerned(e: Entry, w: Watch, path: string, removing: bool) {
    if Tokens(w.key) <= Tokens(path) then Readable(e, path, w.dom)
    else removing && Tokens(path) <= Tokens(w.key) && Readable(e, w.key, w.dom)
  }

  predicate Sorted(r: seq<Notice>, i: nat, n: nat) {
    && (forall k :: 0 <= k < |r| ==> i <= r[k].watch < n)
    && (forall k, l :: 0 <= k < l < |r| ==> r[k].watch < r[l].watch)
  }

  lemma {:induction false} SortedMore(a: seq<Notice>, b: seq<Notice>, i: nat, n: nat)
    requires |a| <= 1 && (a != [] ==> a[0].watch == i) && i < n && Sorted(b, i + 1, n)
    ensures Sorted(a + b, i, n)
  {
  }

  /** The one event a watch is due. */
  predicate Due(e: Entry, ws: seq<Watch>, path: string, removing: bool, n: Notice) {
    && n.watch < |ws| && Concerned(e, ws[n.watch], path, removing)
    && n.path == if Tokens(ws[n.watch].key) <= Tokens(path) then path else ws[n.watch].key
  }

  lemma {:induction false} NoticeExact(e: Entry, ws: seq<Watch>, i: nat, path: string, removing: bool, n: Notice)
    requires i < |ws| && Accepted(path) && path[0] == '/' && Accepted(ws[i].key) && ws[i].key[0] == '/'
    ensures n in NoticeFor(e, ws[i], i, path, removing) <==> n.watch == i && Due(e, ws, path, removing, n)
  {
    hide Contains, Tokens, Accepted, Readable, EventPath;
    EventPathExact(ws[i].key, path, removing);
  }

  lemma {:induction false} NoticesExact(e: Entry, ws: seq<Watch>, path: string, removing: bool, i: nat)
    requires i <= |ws| && Accepted(path) && path[0] == '/' && forall w :: w in ws ==> Accepted(w.key) && w.key[0] == '/'
    ensures Sorted(Notices(e, ws, path, removing, i), i, |ws|)
    ensures forall n :: n in Notices(e, ws, path, removing, i) <==> i <= n.watch && Due(e, ws, path, removing, n)
    decreases |ws| - i
  {
    hide Accepted, Due, Notices;
    NoticesStep(e, ws, path, removing, i);
    if i < |ws| {
      NoticesExact(e, ws, path, removing, i + 1);
      assert ws[i] in ws;
      var a, b := NoticeFor(e, ws[i], i, path, removing), Notices(e, ws, path, removing, i + 1);
      forall n: Notice ensures n in a + b <==> i <= n.watch && Due(e, ws, path, removing, n) {
        NoticeExact(e, ws, i, path, removing, n);
      }
      assert |a| <= 1 && (a != [] ==> a[0].watch == i);
      hide NoticeFor;
      SortedMore(a, b, i, |ws|);
    } else {
      forall n: Notice ensures Due(e, ws, path, removing, n) ==> n.watch < |ws| { DueIndex(e, ws, path, removing, n); }
    }
  }

  lemma {:induction false} DueIndex(e: Entry, ws: seq<Watch>, path: string, removing: bool, n: Notice)
    ensures Due(e, ws, path, removing, n) ==> n.watch < |ws|
  {
  }

  /**
   A notification queues exactly one event, in registry order, for each watch above the path (or, on
   removal, below it) whose domain may read the entry at the event's path, and none for others.
   */
  lemma {:induction false} NotifyExact(e: Entry, ws: seq<Watch>, path: string, removing: bool)
    requires Accepted(path) && path[0] == '/' && forall w :: w in ws ==> Accepted(w.key) && w.key[0] == '/'
    ensures var r := Notices(e, ws, path, removing, 0);
      && (forall k, l :: 0 <= k < l < |r| ==> r[k].watch < r[l].watch)
      && (forall n :: n in r <==> Due(e, ws, path, removing, n))
  {
    hide Notices, Tokens, Accepted, Due;
    NoticesExact(e, ws, path, removing, 0);
  }

  // ---------- Changes and their events ----------

  /** _handle_write with nothing in between: the events follow a write that succeeded, and see the new tree. */
  method WriteNotifying(store: Store, ws: seq<Watch>, path: string, data: Option<string>, d: nat)
    returns (r: Outcome<()>, events: seq<Notice>)
    requires store.Valid() && AreNames(Tokens(path))
    modifies store
    ensures store.Valid() && (r.Ok? <==> Write(old(store.root), Tokens(path), data, d, []).Ok?)
    ensures r.Ok? ==> store.root == Write(old(store.root), Tokens(path), data, d, []).value
    ensures r.Ok? ==> events == Notices(store.root, ws, path, false, 0)
    ensures r.Err? ==> r.error == EACCES && store.root == old(store.root) && events == []
  {
    hide Sane, Tokens, Write, Notices;
    events := [];
    r := store.DoWrite(path, data, d, []);
    if r.Ok? { events := QueueNotifications(store, ws, path, false); }
  }

  /** The entry a key leads to, if the caller may write it. */
  predicate Removable(e: Entry, key: string, caller: nat) {
    Leads(key) && Reach(e, Tokens(key)).Some? &&
    var ps := Reach(e, Tokens(key)).value.perms;
    ps != [] && May(ps, WRITE, caller)
  }

  /**
   xss_do_rm_deadline: the events precede the removal, so they see the entries that go. The root is
   no element of a list and not allocated, so unlinking and freeing it is undefined.
   */
  method RemoveNotifying(store: Store, ws: seq<Watch>, key: string, caller: nat)
    returns (r: Outcome<()>, events: seq<Notice>)
    requires store.Valid()
    modifies store
    ensures store.Valid()
    ensures r.Ok? <==> Removable(old(store.root), key, caller) && key != "/"
    ensures r == Err(Undefined) <==> Removable(old(store.root), key, caller) && key == "/"
    ensures r.Ok? ==> Tokens(key) != [] && store.root == Remove(old(store.root), Tokens(key))
    ensures r.Ok? ==> events == Notices(old(store.root), ws, key, true, 0)
    ensures r.Err? && r.error != Undefined ==> r.error == EINVAL && store.root == old(store.root) && events == []
  {
    hide Sane, Find, May, Remove, Tokens, Notices;
    var p := store.KeyToEntry(key);
    PlaceReaches(store.root, Tokens(key));
    if p.None? { return Err(EINVAL), []; }
    SaneAt(store.root, p.value);
    SaneOwner(At(store.root, p.value));
    if !May(At(store.root, p.value).perms, WRITE, caller) { return Err(EINVAL), []; }
    events := QueueNotifications(store, ws, key, true);
    if key == "/" { return Err(Undefined), events; }
    RemoveSane(store.root, Tokens(key));
    store.root := Cut(store.root, p.value);
    return Ok(()), events;
  }

  /**
   A successful write is heard by exactly the watches at or above its path whose domain may read the
   entry written.
   */
  lemma {:induction false} WriteHeard(e: Entry, path: string, data: string, d: nat, w: Watch)
    requires Sane(e) && Accepted(path) && path[0] == '/' && path != "/" && Write(e, Tokens(path), Some(data), d, []).Ok?
    ensures var f := Write(e, Tokens(path), Some(data), d, []).value; var i := Look(f, Tokens(path));
      && i.Some? && i.value.value == Some(data) && i.value.perms != []
      && (Concerned(f, w, path, false) <==> Tokens(w.key) <= Tokens(path) && May(i.value.perms, READ, w.dom))
  {
    hide May, Sane, Write, Written, Permitted;
    PathOfTokens(path);
    var cs := Tokens(path);
    assert cs != [] && |path| <= ABS_PATH_MAX by { PathSize(path); }
    hide Tokens, Accepted;
    WriteRefines(e, cs, Some(data), d, []);
    var f := Write(e, cs, Some(data), d, []).value;
    assert Look(f, cs) == Written(e, cs, Some(data), [], cs);
    WrittenHere(e, cs, data);
    LookSane(f, cs);
    assert Reach(f, cs).Some?;
  }

  lemma {:induction false} PathSize(path: string)
    requires Accepted(path) && path[0] == '/' && path != "/"
    ensures Tokens(path) != [] && |path| <= ABS_PATH_MAX
  {
    CleanSlash(path);
  }

  lemma {:induction false} WrittenHere(e: Entry, cs: Comps, data: string)
    requires Sane(e) && cs != []
    ensures var i := Written(e, cs, Some(data), [], cs); i.Some? && i.value.value == Some(data)
  {
    hide Sane, Look;
    assert cs[..|cs|] == cs;
  }

  // ---------- Between a write and its events ----------

  /** A change another thread may make once the write has released the tree. */
  datatype Change = Put(cs: Comps, data: Option<string>, d: nat, ps: seq<Perm>) | Drops(cs: Comps)

  /** The tree after a change; one that is refused leaves it alone. */
  function Changed(e: Entry, c: Change): (r: Entry)
    requires Sane(e)
  {
    match c
    case Put(cs, data, d, ps) => var w := Write(e, cs, data, d, ps); if w.Ok? then w.value else e
    case Drops(cs) => if cs != [] && Look(e, cs).Some? then Remove(e, cs) else e
  }

  predicate ChangesNames(c: Change) { c.Put? ==> AreNames(c.cs) }

  lemma {:induction false} ChangedSane(e: Entry, c: Change)
    requires Sane(e) && ChangesNames(c)
    ensures Sane(Changed(e, c))
  {
    hide Sane, Write, Remove, Look, Written, Permitted;
    match c
    case Put(cs, data, d, ps) => WriteRefines(e, cs, data, d, ps);
    case Drops(cs) => if cs != [] && Look(e, cs).Some? { RemoveRefines(e, cs); }
  }

  function ChangedAll(e: Entry, cs: seq<Change>): (r: Entry)
    requires Sane(e) && forall c :: c in cs ==> ChangesNames(c)
    decreases |cs|
  {
    if cs == [] then e
    else
      ChangedSane(e, cs[0]);
      ChangedAll(Changed(e, cs[0]), cs[1..])
  }

  /** The change removes the entry at a path, or one above it. */
  predicate Takes(c: Change, q: Comps) { c.Drops? && c.cs <= q }

  /** A change that does not remove an entry keeps who may do what with it. */
  lemma {:induction false} ChangeKeeps(e: Entry, c: Change, q: Comps)
    requires Sane(e) && ChangesNames(c) && Look(e, q).Some? && !Takes(c, q)
    ensures var i := Look(Changed(e, c), q); i.Some? && i.value.perms == Look(e, q).value.perms
  {
    hide Sane, Write, Remove, Permitted;
    match c
    case Put(cs, data, d, ps) =>
      WriteRefines(e, cs, data, d, ps);
      if Write(e, cs, data, d, ps).Ok? && cs != [] { WrittenKeeps(e, cs, data, ps, q); }
    case Drops(cs) => if cs != [] && Look(e, cs).Some? { RemoveRefines(e, cs); }
  }

  lemma {:induction false} WrittenKeeps(e: Entry, cs: Comps, data: Option<string>, ps: seq<Perm>, q: Comps)
    requires Sane(e) && Look(e, q).Some?
    ensures var i := Written(e, cs, data, ps, q); i.Some? && i.value.perms == Look(e, q).value.perms
  {
    hide Sane, Look;
    var n := Depth(e, cs);
    DepthExact(e, cs, n);
    if q <= cs {
      assert q == cs[..|q|];
      DepthExact(e, cs, |q|);
    }
    assert cs[..|cs|] == cs;
  }

  lemma {:induction false} ChangesKeep(e: Entry, cs: seq<Change>, q: Comps)
    requires Sane(e) && (forall c :: c in cs ==> ChangesNames(c) && !Takes(c, q)) && Look(e, q).Some?
    ensures var i := Look(ChangedAll(e, cs), q); i.Some? && i.value.perms == Look(e, q).value.perms
    decreases |cs|
  {
    hide Sane, Look, Changed, Takes, ChangesNames;
    if cs != [] {
      ChangeKeeps(e, cs[0], q);
      ChangedSane(e, cs[0]);
      ChangesKeep(Changed(e, cs[0]), cs[1..], q);
    }
  }

  /** On any later tree, a watch hears of the write exactly if the entry is still there and may be read there. */
  lemma {:induction false} LaterHeard(g: Entry, path: string, w: Watch)
    requires Sane(g) && Accepted(path) && path[0] == '/'
    ensures var i := Look(g, Tokens(path));
      && (i.Some? ==> i.value.perms != [])
      && (Concerned(g, w, path, false) <==> Tokens(w.key) <= Tokens(path) && i.Some? && May(i.value.perms, READ, w.dom))
  {
    hide May, Sane, Tokens, Look;
    AbsoluteLeads(path);
    if Look(g, Tokens(path)).Some? { LookSane(g, Tokens(path)); }
  }

  lemma {:induction false} AbsoluteLeads(path: string)
    requires Accepted(path) && path[0] == '/'
    ensures Leads(path) && (Tokens(path) == [] <==> path == "/")
  {
    if path == "/" { SlashTokens(); } else { PathSize(path); }
  }

  /**
   Whatever other threads do between a write and its notification, short of removing the entry, the
   same watches hear of it.
   */
  lemma {:induction false} WriteHeardLater(e: Entry, path: string, data: string, d: nat, w: Watch, cs: seq<Change>)
    requires Sane(e) && Accepted(path) && path[0] == '/' && path != "/" && Write(e, Tokens(path), Some(data), d, []).Ok?
    requires forall c :: c in cs ==> ChangesNames(c) && !Takes(c, Tokens(path))
    ensures var f := Write(e, Tokens(path), Some(data), d, []).value;
      Sane(f) && (Concerned(ChangedAll(f, cs), w, path, false) <==> Concerned(f, w, path, false))
  {
    hide May, Sane, Write, Written, Permitted, Tokens, Accepted, Look, Concerned, Takes, ChangesNames;
    PathOfTokens(path);
    WriteHeard(e, path, data, d, w);
    WriteRefines(e, Tokens(path), Some(data), d, []);
    var f := Write(e, Tokens(path), Some(data), d, []).value;
    ChangesKeep(f, cs, Tokens(path));
    ChangesSane(f, cs);
    LaterHeard(f, path, w);
    LaterHeard(ChangedAll(f, cs), path, w);
  }

  lemma {:induction false} ChangesSane(e: Entry, cs: seq<Change>)
    requires Sane(e) && forall c :: c in cs ==> ChangesNames(c)
    ensures Sane(ChangedAll(e, cs))
    decreases |cs|
  {
    hide Sane, Changed, ChangesNames;
    if cs != [] {
      ChangedSane(e, cs[0]);
      ChangesSane(Changed(e, cs[0]), cs[1..]);
    }
  }

  // ---------- Removal ----------

  /**
   A removal under an accepted absolute key: a watch at or above it hears if its domain may read the
   entry removed, a watch below it hears of its own entry, and so every watch on an entry that goes.
   */
  lemma {:induction false} RemoveHeard(e: Entry, key: string, w: Watch)
    requires Sane(e) && Accepted(key) && key[0] == '/' && key != "/" && Look(e, Tokens(key)).Some?
    requires Accepted(w.key) && w.key[0] == '/'
    ensures Tokens(key) != []
    ensures var at := if Tokens(w.key) <= Tokens(key) then Tokens(key) else Tokens(w.key); var i := Look(e, at);
      && (i.Some? ==> i.value.perms != [])
      && (Concerned(e, w, key, true) <==>
          i.Some? && May(i.value.perms, READ, w.dom) && Look(Remove(e, Tokens(key)), at).None?)
  {
    hide May, Sane, Tokens, Look, Accepted, Remove;
    AbsoluteLeads(key);
    AbsoluteLeads(w.key);
    RemoveRefines(e, Tokens(key));
    var at := if Tokens(w.key) <= Tokens(key) then Tokens(key) else Tokens(w.key);
    if Look(e, at).Some? { LookSane(e, at); }
    Goes(e, Tokens(key), at);
  }

  /** An entry is gone after a removal exactly if it was at or below the key. */
  lemma {:induction false} Goes(e: Entry, cs: Comps, q: Comps)
    requires Sane(e) && cs != []
    ensures Look(e, q).Some? ==> (Removed(e, cs, q).None? <==> cs <= q)
  {
    hide Sane, Look;
  }

  /** handle_rm does not validate its key: under a relative one, only a watch on the root can hear of the removal. */
  lemma {:induction false} RelativeUnheard(key: string, watched: string)
    requires key != "" && key[0] != '/' && watched != "" && watched[0] == '/'
    ensures EventPath(watched, key, true) == if watched == "/" then Some(key) else None
  {
    if watched != "/" && |watched| < |key| { assert key[..|watched|][0] == key[0]; }
    if |key| < |watched| { assert watched[..|key|][0] == watched[0]; }
  }

  /** Under one with a separator at its end, no watch below hears. */
  lemma {:induction false} TrailingUnheard(key: string, watched: string)
    requires |key| > 1 && key[|key| - 1] == '/' && Accepted(watched)
    ensures !Contains(key, watched)
  {
    if |key| < |watched| { assert watched[..|key|][|key| - 1] == watched[|key| - 1]; }
  }

  lemma {:induction false} TokensWord(n: XsPath.Name, rest: string)
    requires n != "" && (forall c :: c in n ==> c != '/') && (rest == "" || rest[0] == '/')
    ensures Tokens(n + rest) == [n] + Tokens(rest) && Tokens("/" + (n + rest)) == [n] + Tokens(rest)
  {
    RunOf(n, rest);
    var s := n + rest;
    assert s[..|n|] == n && s[|n|..] == rest && s[0] == n[0] && n[0] in n;
    assert ("/" + s)[1..] == s;
  }

  /** So `a/b` removes /a/b unheard by a watch on /a, and `/a/b/` takes /a/b/c unheard by a watch on it. */
  lemma {:induction false} RemovedUnheard()
    ensures Tokens("a/b") == ["a", "b"] && EventPath("/a", "a/b", true) == None
    ensures Tokens("/a/b/") == ["a", "b"] && EventPath("/a/b/c", "/a/b/", true) == None
  {
    hide Tokens;
    SlashTokens();
    TokensWord("b", "");
    TokensWord("b", "/");
    TokensWord("a", "/b");
    TokensWord("a", "/b/");
    assert "b" + "" == "b" && "/" + "b" == "/b" && "a" + "/b" == "a/b";
    assert "b" + "/" == "b/" && "/" + "b/" == "/b/" && "a" + "/b/" == "a/b/" && "/" + "a/b/" == "/a/b/";
    NoTokens();
    assert ["b"] + [] == ["b"] && ["a"] + ["b"] == ["a", "b"];
  }

  lemma {:induction false} NoTokens()
    ensures Tokens("") == []
  {
  }
}
