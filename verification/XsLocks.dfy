/**
 The order of the server's five locks (xenstore-srv/src/xenstore_srv.c): local dispatch, the tree,
 the registry of watches, the list of pending events and the stacks of its threads. Each thread runs
 one critical section after another, callbacks of local watches run further sections under the
 dispatch lock, callbacks of a traversal run them under the tree lock, and the locks are recursive.
 */
module XsLocks {
  const DISPATCH := 0
  const XSEL := 1
  const WEL := 2
  const PFL := 3
  const STACK := 4

  datatype Op = Lock(l: nat) | Unlock(l: nat)

  /** What a thread does between two moments at which it holds no lock. */
  datatype Section =
    | Tree(again: bool)                                  // the tree lock; a reply may invalidate the client under it
    | Traverse(callbacks: seq<Section>)                  // xss_list_traverse
    | Notify(queued: nat, callbacks: seq<Section>)       // notify_watchers, xss_do_rm: so many events queued
    | GuestWatch(added: bool, told: bool)                // handle_watch
    | LocalWatch(callbacks: seq<Section>)                // xs_watch_timeout
    | Registry                                           // handle_unwatch, xs_unwatch_timeout
    | Drain                                              // process_pending_watch_events
    | Cleanup                                            // cleanup_domain_watches
    | Starting                                           // start_domain_stored
    | Stopping                                           // stop_domain_stored

  function Pair(l: nat): seq<Op> { [Lock(l), Unlock(l)] }

  /** One pair for each event queued, then the rest. */
  function Pairs(l: nat, n: nat, rest: seq<Op>): seq<Op> { if n == 0 then rest else Pair(l) + Pairs(l, n - 1, rest) }

  /** The lock operations of a section, followed by the rest. */
  function Ops(c: Section, rest: seq<Op>): (r: seq<Op>)
    decreases c
  {
    match c
    case Tree(again) =>
      var end := [Unlock(XSEL)] + rest;
      [Lock(XSEL)] + if again then Pair(STACK) + (Pair(XSEL) + end) else end
    case Traverse(callbacks) => [Lock(XSEL)] + OpsAll(callbacks, [Unlock(XSEL)] + rest)
    case Notify(queued, callbacks) =>
      var calls := OpsAll(callbacks, [Unlock(DISPATCH)] + rest);
      [Lock(DISPATCH)] + ([Lock(XSEL)] + ([Lock(WEL)] + Pairs(PFL, queued, [Unlock(WEL)] + ([Unlock(XSEL)] + calls))))
    case GuestWatch(added, told) =>
      var end := [Unlock(XSEL)] + rest;
      var tell := [Lock(XSEL)] + if told then Pair(PFL) + end else end;
      Pair(WEL) + if added then Pair(WEL) + tell else tell
    case LocalWatch(callbacks) =>
      var calls := OpsAll(callbacks, [Unlock(DISPATCH)] + rest);
      Pair(XSEL) + (Pair(WEL) + ([Lock(DISPATCH)] + (Pair(WEL) + calls)))
    case Registry => Pair(WEL) + rest
    case Drain => [Lock(WEL)] + (Pair(PFL) + ([Unlock(WEL)] + rest))
    case Cleanup => Pair(WEL) + (Pair(PFL) + rest)
    case Starting => Pair(STACK) + rest
    case Stopping => Pair(STACK) + (Pair(XSEL) + rest)
  }

  function OpsAll(cs: seq<Section>, rest: seq<Op>): (r: seq<Op>)
    decreases cs
  {
    if cs == [] then rest else Ops(cs[0], OpsAll(cs[1..], rest))
  }

  // ---------- Threads ----------

  datatype Thread = Thread(held: multiset<nat>, todo: seq<Op>)

  datatype Step = Enter(t: nat, c: Section) | Act(t: nat)

  /** A lock is free for a thread if no other holds it. */
  predicate Free(s: seq<Thread>, t: nat, l: nat) {
    forall u :: 0 <= u < |s| && u != t ==> l !in s[u].held
  }

  predicate Can(s: seq<Thread>, st: Step) {
    st.t < |s| &&
    match st
    case Enter(t, _) => s[t].todo == []
    case Act(t) => s[t].todo != [] && (s[t].todo[0].Lock? ==> Free(s, t, s[t].todo[0].l))
  }

  function After(h: multiset<nat>, op: Op): multiset<nat> {
    match op
    case Lock(l) => h + multiset{l}
    case Unlock(l) => h - multiset{l}
  }

  function Next(s: seq<Thread>, st: Step): (r: seq<Thread>)
    requires Can(s, st)
    ensures |r| == |s|
  {
    match st
    case Enter(t, c) => s[t := s[t].(todo := Ops(c, []))]
    case Act(t) => s[t := Thread(After(s[t].held, s[t].todo[0]), s[t].todo[1..])]
  }

  predicate Runs(s: seq<Thread>, steps: seq<Step>, r: seq<Thread>)
    decreases |steps|
  {
    if steps == [] then r == s else Can(s, steps[0]) && Runs(Next(s, steps[0]), steps[1..], r)
  }

  function Init(n: nat): seq<Thread> { seq(n, i => Thread(multiset{}, [])) }

  // ---------- The order ----------

  /** A lock taken is already held, or comes behind all that are. */
  predicate Fits(l: nat, h: multiset<nat>) { l <= STACK && (l in h || forall k :: k in h ==> k < l) }

  predicate Ordered(h: multiset<nat>, todo: seq<Op>)
    decreases |todo|
  {
    if todo == [] then h == multiset{}
    else
      && (match todo[0] case Lock(l) => Fits(l, h) case Unlock(l) => l in h)
      && Ordered(After(h, todo[0]), todo[1..])
  }

  lemma {:induction false} TakesLock(h: multiset<nat>, l: nat, rest: seq<Op>)
    requires Fits(l, h) && Ordered(h + multiset{l}, rest)
    ensures Ordered(h, [Lock(l)] + rest)
  {
    assert ([Lock(l)] + rest)[1..] == rest;
  }

  lemma {:induction false} GivesLock(h: multiset<nat>, l: nat, rest: seq<Op>)
    requires Ordered(h, rest)
    ensures Ordered(h + multiset{l}, [Unlock(l)] + rest)
  {
    assert ([Unlock(l)] + rest)[1..] == rest;
    assert h + multiset{l} - multiset{l} == h;
  }

  lemma {:induction false} PairOrdered(h: multiset<nat>, l: nat, rest: seq<Op>)
    requires Fits(l, h) && Ordered(h, rest)
    ensures Ordered(h, Pair(l) + rest)
  {
    hide Ordered;
    GivesLock(h, l, rest);
    TakesLock(h, l, [Unlock(l)] + rest);
    assert Pair(l) + rest == [Lock(l)] + ([Unlock(l)] + rest);
  }

  lemma {:induction false} PairsOrdered(h: multiset<nat>, l: nat, n: nat, rest: seq<Op>)
    requires Fits(l, h) && Ordered(h, rest)
    ensures Ordered(h, Pairs(l, n, rest))
    decreases n
  {
    hide Ordered;
    if n > 0 {
      PairsOrdered(h, l, n - 1, rest);
      PairOrdered(h, l, Pairs(l, n - 1, rest));
    }
  }

  /** Between sections a thread holds at most the dispatch and the tree lock, from the callbacks it is in. */
  predicate Outside(h: multiset<nat>) { forall k :: k in h ==> k == DISPATCH || k == XSEL }

  /** With the dispatch lock not held: a section that does not take it while it holds the tree lock. */
  predicate Safe(c: Section, inTree: bool)
    decreases c
  {
    match c
    case Notify(_, _) => !inTree
    case LocalWatch(_) => !inTree
    case Traverse(callbacks) => AllSafe(callbacks, true)
    case _ => true
  }

  predicate AllSafe(cs: seq<Section>, inTree: bool)
    decreases cs
  {
    cs == [] || (Safe(cs[0], inTree) && AllSafe(cs[1..], inTree))
  }

  /** The section may run with these locks held. */
  predicate May(c: Section, h: multiset<nat>) { Outside(h) && (DISPATCH in h || Safe(c, XSEL in h)) }

  lemma {:induction false} NotifyOrdered(h: multiset<nat>, queued: nat, callbacks: seq<Section>, rest: seq<Op>)
    requires Outside(h) && Fits(DISPATCH, h)
    requires Ordered(h + multiset{DISPATCH}, OpsAll(callbacks, [Unlock(DISPATCH)] + rest))
    ensures Ordered(h, Ops(Notify(queued, callbacks), rest))
  {
    hide Ordered, OpsAll, Pairs;
    var calls := OpsAll(callbacks, [Unlock(DISPATCH)] + rest);
    var d := h + multiset{DISPATCH};
    var x := d + multiset{XSEL};
    var w := x + multiset{WEL};
    GivesLock(d, XSEL, calls);
    GivesLock(x, WEL, [Unlock(XSEL)] + calls);
    var end := [Unlock(WEL)] + ([Unlock(XSEL)] + calls);
    PairsOrdered(w, PFL, queued, end);
    TakesLock(x, WEL, Pairs(PFL, queued, end));
    TakesLock(d, XSEL, [Lock(WEL)] + Pairs(PFL, queued, end));
    TakesLock(h, DISPATCH, [Lock(XSEL)] + ([Lock(WEL)] + Pairs(PFL, queued, end)));
  }

  lemma {:induction false} LocalWatchOrdered(h: multiset<nat>, callbacks: seq<Section>, rest: seq<Op>)
    requires Outside(h) && Fits(DISPATCH, h)
    requires Ordered(h + multiset{DISPATCH}, OpsAll(callbacks, [Unlock(DISPATCH)] + rest))
    ensures Ordered(h, Ops(LocalWatch(callbacks), rest))
  {
    hide Ordered, OpsAll;
    var calls := OpsAll(callbacks, [Unlock(DISPATCH)] + rest);
    PairOrdered(h + multiset{DISPATCH}, WEL, calls);
    var call := [Lock(DISPATCH)] + (Pair(WEL) + calls);
    TakesLock(h, DISPATCH, Pair(WEL) + calls);
    PairOrdered(h, WEL, call);
    PairOrdered(h, XSEL, Pair(WEL) + call);
  }

  lemma {:induction false} GuestWatchOrdered(h: multiset<nat>, added: bool, told: bool, rest: seq<Op>)
    requires Outside(h) && Ordered(h, rest)
    ensures Ordered(h, Ops(GuestWatch(added, told), rest))
  {
    hide Ordered;
    var end := [Unlock(XSEL)] + rest;
    GivesLock(h, XSEL, rest);
    var x := h + multiset{XSEL};
    PairOrdered(x, PFL, end);
    TakesLock(h, XSEL, if told then Pair(PFL) + end else end);
    var tell := [Lock(XSEL)] + if told then Pair(PFL) + end else end;
    PairOrdered(h, WEL, tell);
    PairOrdered(h, WEL, if added then Pair(WEL) + tell else tell);
  }

  /** Every section that may run keeps the order, also as a callback. */
  lemma {:induction false} OpsOrdered(c: Section, h: multiset<nat>, rest: seq<Op>)
    requires May(c, h) && Ordered(h, rest)
    ensures Ordered(h, Ops(c, rest))
    decreases c, 1
  {
    hide Ordered, OpsAll, AllSafe;
    match c
    case Tree(again) => TreeOrdered(h, again, rest);
    case Traverse(callbacks) =>
      GivesLock(h, XSEL, rest);
      OpsAllOrdered(callbacks, h + multiset{XSEL}, [Unlock(XSEL)] + rest);
      TakesLock(h, XSEL, OpsAll(callbacks, [Unlock(XSEL)] + rest));
    case Notify(queued, callbacks) =>
      GivesLock(h, DISPATCH, rest);
      OpsAllOrdered(callbacks, h + multiset{DISPATCH}, [Unlock(DISPATCH)] + rest);
      NotifyOrdered(h, queued, callbacks, rest);
    case GuestWatch(added, told) => GuestWatchOrdered(h, added, told, rest);
    case LocalWatch(callbacks) =>
      GivesLock(h, DISPATCH, rest);
      OpsAllOrdered(callbacks, h + multiset{DISPATCH}, [Unlock(DISPATCH)] + rest);
      LocalWatchOrdered(h, callbacks, rest);
    case Registry => PairOrdered(h, WEL, rest);
    case Drain =>
      GivesLock(h, WEL, rest);
      PairOrdered(h + multiset{WEL}, PFL, [Unlock(WEL)] + rest);
      TakesLock(h, WEL, Pair(PFL) + ([Unlock(WEL)] + rest));
    case Cleanup =>
      PairOrdered(h, PFL, rest);
      PairOrdered(h, WEL, Pair(PFL) + rest);
    case Starting => PairOrdered(h, STACK, rest);
    case Stopping =>
      PairOrdered(h, XSEL, rest);
      PairOrdered(h, STACK, Pair(XSEL) + rest);
  }

  lemma {:induction false} TreeOrdered(h: multiset<nat>, again: bool, rest: seq<Op>)
    requires Outside(h) && Ordered(h, rest)
    ensures Ordered(h, Ops(Tree(again), rest))
  {
    hide Ordered;
    GivesLock(h, XSEL, rest);
    var end, x := [Unlock(XSEL)] + rest, h + multiset{XSEL};
    PairOrdered(x, XSEL, end);
    PairOrdered(x, STACK, Pair(XSEL) + end);
    TakesLock(h, XSEL, if again then Pair(STACK) + (Pair(XSEL) + end) else end);
  }

  lemma {:induction false} OpsAllOrdered(cs: seq<Section>, h: multiset<nat>, rest: seq<Op>)
    requires Outside(h) && (DISPATCH in h || AllSafe(cs, XSEL in h)) && Ordered(h, rest)
    ensures Ordered(h, OpsAll(cs, rest))
    decreases cs, 0
  {
    hide Ordered, Ops, Safe;
    if cs != [] {
      OpsAllOrdered(cs[1..], h, rest);
      OpsOrdered(cs[0], h, OpsAll(cs[1..], rest));
    }
  }

  // ---------- What every step keeps ----------

  ghost predicate Inv(s: seq<Thread>) {
    && (forall t :: 0 <= t < |s| ==> Ordered(s[t].held, s[t].todo))
    && (forall t, u, l :: 0 <= t < |s| && 0 <= u < |s| && t != u && l in s[t].held ==> l !in s[u].held)
  }

  lemma {:induction false} EnterKeeps(s: seq<Thread>, t: nat, c: Section)
    requires Inv(s) && Can(s, Enter(t, c)) && Safe(c, false)
    ensures Inv(Next(s, Enter(t, c)))
  {
    hide Ops;
    assert Ordered(s[t].held, s[t].todo);
    OpsOrdered(c, s[t].held, []);
    hide Ordered;
    assert Next(s, Enter(t, c))[t].held == s[t].held;
  }

  lemma {:induction false} ActKeeps(s: seq<Thread>, t: nat)
    requires Inv(s) && Can(s, Act(t))
    ensures Inv(Next(s, Act(t)))
  {
    var h := After(s[t].held, s[t].todo[0]);
    assert Ordered(s[t].held, s[t].todo);
    assert Ordered(h, s[t].todo[1..]);
    hide Ordered;
    forall u, l | 0 <= u < |s| && u != t && l in h ensures l !in s[u].held {
      if l !in s[t].held { assert s[t].todo[0] == Lock(l); }
    }
  }

  lemma {:induction false} NextKeeps(s: seq<Thread>, st: Step)
    requires Inv(s) && Can(s, st) && (st.Enter? ==> Safe(st.c, false))
    ensures Inv(Next(s, st))
  {
    hide *;
    match st
    case Enter(t, c) => EnterKeeps(s, t, c);
    case Act(t) => ActKeeps(s, t);
  }

  /** Only safe sections are entered. */
  predicate SafeSteps(steps: seq<Step>) { forall st :: st in steps && st.Enter? ==> Safe(st.c, false) }

  lemma {:induction false} RunKeeps(s: seq<Thread>, steps: seq<Step>, r: seq<Thread>)
    requires Inv(s) && Runs(s, steps, r) && SafeSteps(steps)
    ensures Inv(r)
    decreases |steps|
  {
    hide Can, Next, Inv, Safe;
    if steps != [] {
      assert steps[0] in steps;
      NextKeeps(s, steps[0]);
      RunKeeps(Next(s, steps[0]), steps[1..], r);
    }
  }

  // ---------- No deadlock ----------

  /** A thread waits for a lock that another holds. */
  predicate Waits(s: seq<Thread>, t: nat, u: nat) {
    t < |s| && u < |s| && t != u && s[t].todo != [] && s[t].todo[0].Lock? && s[t].todo[0].l in s[u].held
  }

  /** Each of these threads waits for another of them, so none will ever go on. */
  ghost predicate Deadlocked(s: seq<Thread>, ts: set<nat>) {
    ts != {} && forall t :: t in ts ==> exists u :: u in ts && Waits(s, t, u)
  }

  lemma {:induction false} Climbs(s: seq<Thread>, t: nat, u: nat, v: nat)
    requires Inv(s) && Waits(s, t, u) && Waits(s, u, v)
    ensures s[t].todo[0].l < s[u].todo[0].l <= STACK
  {
    assert Ordered(s[u].held, s[u].todo);
  }

  lemma {:induction false} NoCycle(s: seq<Thread>, ts: set<nat>, t: nat, u: nat)
    requires Inv(s) && Deadlocked(s, ts) && t in ts && u in ts && Waits(s, t, u)
    ensures false
    decreases STACK - s[t].todo[0].l
  {
    hide Inv, Waits, Ordered, Fits;
    var v :| v in ts && Waits(s, u, v);
    Climbs(s, t, u, v);
    NoCycle(s, ts, u, v);
  }

  /** In every run of any number of threads through safe sections and callbacks, no set of threads is deadlocked. */
  lemma {:induction false} NeverDeadlocked(n: nat, steps: seq<Step>, s: seq<Thread>, ts: set<nat>)
    requires Runs(Init(n), steps, s) && SafeSteps(steps)
    ensures !Deadlocked(s, ts)
  {
    hide Runs, Waits, SafeSteps;
    assert Inv(Init(n));
    hide Inv;
    RunKeeps(Init(n), steps, s);
    if Deadlocked(s, ts) {
      var t :| t in ts;
      var u :| u in ts && Waits(s, t, u);
      NoCycle(s, ts, t, u);
    }
  }

  // ---------- The unsafe sections ----------

  /** Somewhere the dispatch lock is wanted while the tree lock is held and it is not. */
  predicate Crosses(h: multiset<nat>, todo: seq<Op>)
    decreases |todo|
  {
    todo != [] &&
    ((todo[0] == Lock(DISPATCH) && XSEL in h && DISPATCH !in h) || Crosses(After(h, todo[0]), todo[1..]))
  }

  lemma {:induction false} CrossesLock(h: multiset<nat>, l: nat, rest: seq<Op>)
    requires Crosses(h + multiset{l}, rest)
    ensures Crosses(h, [Lock(l)] + rest)
  {
    assert ([Lock(l)] + rest)[1..] == rest;
  }

  lemma {:induction false} CrossesUnlock(h: multiset<nat>, l: nat, rest: seq<Op>)
    requires Crosses(h, rest)
    ensures Crosses(h + multiset{l}, [Unlock(l)] + rest)
  {
    assert ([Unlock(l)] + rest)[1..] == rest;
    assert h + multiset{l} - multiset{l} == h;
  }

  lemma {:induction false} CrossesPair(h: multiset<nat>, l: nat, rest: seq<Op>)
    requires Crosses(h, rest)
    ensures Crosses(h, Pair(l) + rest)
  {
    hide Crosses;
    CrossesUnlock(h, l, rest);
    CrossesLock(h, l, [Unlock(l)] + rest);
    assert Pair(l) + rest == [Lock(l)] + ([Unlock(l)] + rest);
  }

  lemma {:induction false} CrossesPairs(h: multiset<nat>, l: nat, n: nat, rest: seq<Op>)
    requires Crosses(h, rest)
    ensures Crosses(h, Pairs(l, n, rest))
    decreases n
  {
    hide Crosses;
    if n > 0 {
      CrossesPairs(h, l, n - 1, rest);
      CrossesPair(h, l, Pairs(l, n - 1, rest));
    }
  }

  lemma {:induction false} CrossesNotify(h: multiset<nat>, queued: nat, callbacks: seq<Section>, rest: seq<Op>)
    requires Crosses(h + multiset{DISPATCH}, OpsAll(callbacks, [Unlock(DISPATCH)] + rest))
    ensures Crosses(h, Ops(Notify(queued, callbacks), rest))
  {
    hide Crosses, OpsAll, Pairs;
    var calls, d := OpsAll(callbacks, [Unlock(DISPATCH)] + rest), h + multiset{DISPATCH};
    var x := d + multiset{XSEL};
    CrossesUnlock(d, XSEL, calls);
    CrossesUnlock(x, WEL, [Unlock(XSEL)] + calls);
    var end := [Unlock(WEL)] + ([Unlock(XSEL)] + calls);
    CrossesPairs(x + multiset{WEL}, PFL, queued, end);
    CrossesLock(x, WEL, Pairs(PFL, queued, end));
    CrossesLock(d, XSEL, [Lock(WEL)] + Pairs(PFL, queued, end));
    CrossesLock(h, DISPATCH, [Lock(XSEL)] + ([Lock(WEL)] + Pairs(PFL, queued, end)));
  }

  lemma {:induction false} CrossesLocalWatch(h: multiset<nat>, callbacks: seq<Section>, rest: seq<Op>)
    requires var calls := OpsAll(callbacks, [Unlock(DISPATCH)] + rest);
      Crosses(h, [Lock(DISPATCH)] + (Pair(WEL) + calls))
    ensures Crosses(h, Ops(LocalWatch(callbacks), rest))
  {
    hide Crosses, OpsAll;
    var call := [Lock(DISPATCH)] + (Pair(WEL) + OpsAll(callbacks, [Unlock(DISPATCH)] + rest));
    CrossesPair(h, WEL, call);
    CrossesPair(h, XSEL, Pair(WEL) + call);
  }

  lemma {:induction false} CrossesTree(h: multiset<nat>, again: bool, rest: seq<Op>)
    requires Crosses(h, rest)
    ensures Crosses(h, Ops(Tree(again), rest))
  {
    hide Crosses;
    CrossesUnlock(h, XSEL, rest);
    var end, x := [Unlock(XSEL)] + rest, h + multiset{XSEL};
    CrossesPair(x, XSEL, end);
    CrossesPair(x, STACK, Pair(XSEL) + end);
    CrossesLock(h, XSEL, if again then Pair(STACK) + (Pair(XSEL) + end) else end);
  }

  lemma {:induction false} CrossesGuestWatch(h: multiset<nat>, added: bool, told: bool, rest: seq<Op>)
    requires Crosses(h, rest)
    ensures Crosses(h, Ops(GuestWatch(added, told), rest))
  {
    hide Crosses;
    var end := [Unlock(XSEL)] + rest;
    CrossesUnlock(h, XSEL, rest);
    CrossesPair(h + multiset{XSEL}, PFL, end);
    CrossesLock(h, XSEL, if told then Pair(PFL) + end else end);
    var tell := [Lock(XSEL)] + if told then Pair(PFL) + end else end;
    CrossesPair(h, WEL, tell);
    CrossesPair(h, WEL, if added then Pair(WEL) + tell else tell);
  }

  /** A section gives back what it takes, so what crosses behind it still does. */
  lemma {:induction false} CrossesBehind(c: Section, h: multiset<nat>, rest: seq<Op>)
    requires Crosses(h, rest)
    ensures Crosses(h, Ops(c, rest))
    decreases c, 1
  {
    hide Crosses, OpsAll;
    match c
    case Tree(again) => CrossesTree(h, again, rest);
    case Traverse(callbacks) =>
      CrossesUnlock(h, XSEL, rest);
      AllBehind(callbacks, h + multiset{XSEL}, [Unlock(XSEL)] + rest);
      CrossesLock(h, XSEL, OpsAll(callbacks, [Unlock(XSEL)] + rest));
    case Notify(queued, callbacks) =>
      CrossesUnlock(h, DISPATCH, rest);
      AllBehind(callbacks, h + multiset{DISPATCH}, [Unlock(DISPATCH)] + rest);
      CrossesNotify(h, queued, callbacks, rest);
    case GuestWatch(added, told) => CrossesGuestWatch(h, added, told, rest);
    case LocalWatch(callbacks) =>
      var calls := OpsAll(callbacks, [Unlock(DISPATCH)] + rest);
      CrossesUnlock(h, DISPATCH, rest);
      AllBehind(callbacks, h + multiset{DISPATCH}, [Unlock(DISPATCH)] + rest);
      CrossesPair(h + multiset{DISPATCH}, WEL, calls);
      CrossesLock(h, DISPATCH, Pair(WEL) + calls);
      CrossesLocalWatch(h, callbacks, rest);
    case Registry => CrossesPair(h, WEL, rest);
    case Drain =>
      CrossesUnlock(h, WEL, rest);
      CrossesPair(h + multiset{WEL}, PFL, [Unlock(WEL)] + rest);
      CrossesLock(h, WEL, Pair(PFL) + ([Unlock(WEL)] + rest));
    case Cleanup =>
      CrossesPair(h, PFL, rest);
      CrossesPair(h, WEL, Pair(PFL) + rest);
    case Starting => CrossesPair(h, STACK, rest);
    case Stopping =>
      CrossesPair(h, XSEL, rest);
      CrossesPair(h, STACK, Pair(XSEL) + rest);
  }

  lemma {:induction false} AllBehind(cs: seq<Section>, h: multiset<nat>, rest: seq<Op>)
    requires Crosses(h, rest)
    ensures Crosses(h, OpsAll(cs, rest))
    decreases cs, 0
  {
    hide Crosses, Ops;
    if cs != [] {
      AllBehind(cs[1..], h, rest);
      CrossesBehind(cs[0], h, OpsAll(cs[1..], rest));
    }
  }

  lemma {:induction false} WantsDispatch(h: multiset<nat>, rest: seq<Op>)
    requires XSEL in h && DISPATCH !in h
    ensures Crosses(h, [Lock(DISPATCH)] + rest)
  {
  }

  /** A section that is not safe crosses the order. */
  lemma {:induction false} UnsafeCrosses(c: Section, h: multiset<nat>, rest: seq<Op>)
    requires DISPATCH !in h && !Safe(c, XSEL in h)
    ensures Crosses(h, Ops(c, rest))
    decreases c, 1
  {
    hide Crosses, OpsAll, AllSafe;
    match c
    case Notify(queued, callbacks) =>
      var calls := OpsAll(callbacks, [Unlock(DISPATCH)] + rest);
      WantsDispatch(h, [Lock(XSEL)] + ([Lock(WEL)] + Pairs(PFL, queued, [Unlock(WEL)] + ([Unlock(XSEL)] + calls))));
    case LocalWatch(callbacks) =>
      WantsDispatch(h, Pair(WEL) + OpsAll(callbacks, [Unlock(DISPATCH)] + rest));
      CrossesLocalWatch(h, callbacks, rest);
    case Traverse(callbacks) =>
      UnsafeAllCross(callbacks, h + multiset{XSEL}, [Unlock(XSEL)] + rest);
      CrossesLock(h, XSEL, OpsAll(callbacks, [Unlock(XSEL)] + rest));
  }

  lemma {:induction false} UnsafeAllCross(cs: seq<Section>, h: multiset<nat>, rest: seq<Op>)
    requires DISPATCH !in h && !AllSafe(cs, XSEL in h)
    ensures Crosses(h, OpsAll(cs, rest))
    decreases cs, 0
  {
    hide Crosses, Ops, Safe;
    if !Safe(cs[0], XSEL in h) {
      UnsafeCrosses(cs[0], h, OpsAll(cs[1..], rest));
    } else {
      UnsafeAllCross(cs[1..], h, rest);
      CrossesBehind(cs[0], h, OpsAll(cs[1..], rest));
    }
  }

  // ---------- Two threads that deadlock ----------

  /** A guest's write notifies. */
  const NOTIFY := Notify(0, [])

  /** The first thread alone gets to where it wants the dispatch lock. */
  lemma {:induction false} RunsAlone(h: multiset<nat>, todo: seq<Op>)
    returns (steps: seq<Step>, g: multiset<nat>, rest: seq<Op>)
    requires Crosses(h, todo)
    ensures XSEL in g && DISPATCH !in g && forall st :: st in steps ==> st == Act(0)
    ensures Runs(Pairing(h, todo), steps, Pairing(g, [Lock(DISPATCH)] + rest))
    decreases |todo|
  {
    if todo[0] == Lock(DISPATCH) && XSEL in h && DISPATCH !in h {
      steps, g, rest := [], h, todo[1..];
      assert todo == [Lock(DISPATCH)] + rest;
    } else {
      var more;
      more, g, rest := RunsAlone(After(h, todo[0]), todo[1..]);
      steps := [Act(0)] + more;
      assert steps[1..] == more;
      assert Next(Pairing(h, todo), Act(0)) == Pairing(After(h, todo[0]), todo[1..]);
    }
  }

  /** One thread at work, the other with nothing to do. */
  function Pairing(h: multiset<nat>, todo: seq<Op>): seq<Thread> { [Thread(h, todo), Thread(multiset{}, [])] }

  lemma {:induction false} RunsOn(s: seq<Thread>, a: seq<Step>, m: seq<Thread>, b: seq<Step>, r: seq<Thread>)
    requires Runs(s, a, m) && Runs(m, b, r)
    ensures Runs(s, a + b, r)
    decreases |a|
  {
    hide Can, Next;
    if a == [] {
      assert a + b == b;
    } else {
      assert (a + b)[1..] == a[1..] + b;
      RunsOn(Next(s, a[0]), a[1..], m, b, r);
    }
  }

  /** The second thread takes the dispatch lock, and both wait for ever. */
  lemma {:induction false} Meet(g: multiset<nat>, rest: seq<Op>) returns (s: seq<Thread>)
    requires XSEL in g && DISPATCH !in g
    ensures Runs(Pairing(g, [Lock(DISPATCH)] + rest), [Enter(1, NOTIFY), Act(1)], s) && Deadlocked(s, {0, 1})
  {
    var a, ops := Pairing(g, [Lock(DISPATCH)] + rest), Ops(NOTIFY, []);
    var b := [a[0], Thread(multiset{}, ops)];
    s := [a[0], Thread(multiset{} + multiset{DISPATCH}, ops[1..])];
    assert Next(a, Enter(1, NOTIFY)) == b && Next(b, Act(1)) == s;
    var st := [Enter(1, NOTIFY), Act(1)];
    assert st[1..] == [Act(1)] && [Act(1)][1..] == [];
    assert Runs(s, [], s);
    assert Runs(b, [Act(1)], s);
    assert ops[1..][0] == Lock(XSEL);
    assert Waits(s, 0, 1) && Waits(s, 1, 0);
  }

  /** A run of two threads, one through `c` and one through a notification. */
  ghost predicate Meeting(c: Section, steps: seq<Step>, s: seq<Thread>) {
    Runs(Init(2), steps, s) && forall st :: st in steps && st.Enter? ==> st == Enter(0, c) || st == Enter(1, NOTIFY)
  }

  /** A section can deadlock with a notification exactly if it is not safe. */
  lemma {:induction false} DeadlocksExactly(c: Section)
    ensures (exists steps, s, ts :: Meeting(c, steps, s) && Deadlocked(s, ts)) <==> !Safe(c, false)
  {
    hide Deadlocked, Runs, Ops;
    if !Safe(c, false) {
      var steps, s := Collide(c);
      assert Meeting(c, steps, s) && Deadlocked(s, {0, 1});
    } else {
      forall steps, s, ts | Meeting(c, steps, s) ensures !Deadlocked(s, ts) { NeverDeadlocked(2, steps, s, ts); }
    }
  }

  lemma {:induction false} Collide(c: Section) returns (steps: seq<Step>, s: seq<Thread>)
    requires !Safe(c, false)
    ensures Meeting(c, steps, s) && Deadlocked(s, {0, 1})
  {
    hide Deadlocked, Ops, Safe, Crosses;
    UnsafeCrosses(c, multiset{}, []);
    var ops := Ops(c, []);
    var alone, g, rest := RunsAlone(multiset{}, ops);
    s := Meet(g, rest);
    var a, b := [Enter(0, c)], [Enter(1, NOTIFY), Act(1)];
    assert Init(2) == Pairing(multiset{}, []);
    assert Next(Init(2), Enter(0, c)) == Pairing(multiset{}, ops);
    assert a[1..] == [] && Runs(Pairing(multiset{}, ops), [], Pairing(multiset{}, ops));
    assert Runs(Init(2), a, Pairing(multiset{}, ops));
    hide Runs;
    RunsOn(Pairing(multiset{}, ops), alone, Pairing(g, [Lock(DISPATCH)] + rest), b, s);
    RunsOn(Init(2), a, Pairing(multiset{}, ops), alone + b, s);
    steps := a + (alone + b);
  }

  /** The input: a traversal whose callback calls xss_write. */
  lemma {:induction false} TraverseDeadlocks()
    ensures !Safe(Traverse([Tree(false), NOTIFY]), false)
    ensures exists steps, s, ts :: Meeting(Traverse([Tree(false), NOTIFY]), steps, s) && Deadlocked(s, ts)
  {
    var cs := [Tree(false), NOTIFY];
    assert cs[1..] == [NOTIFY];
    assert !AllSafe([NOTIFY], true);
    assert !AllSafe(cs, true);
    hide Deadlocked, Meeting;
    DeadlocksExactly(Traverse(cs));
  }
}
