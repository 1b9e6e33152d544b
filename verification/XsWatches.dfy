/**
 The life of a guest watch under every interleaving. The registry of watches is guarded by one
 lock, the list of pending events by another, and a watch is kept alive by a reference count.
 Thread t serves domain t; any thread may notify. Each step is one piece of work a thread does
 between two points where another thread can intervene.
 */
module XsWatches {
  import opened Seqs
  import opened Options
  import opened XsPath
  import opened XsStore

  type Id = nat
  datatype Watch = Watch(dom: nat, key: string, token: string)
  datatype Obj = Obj(watch: Watch, relative: bool, refs: nat)
  datatype Event = Event(id: Id, path: string)

  /** An event taken out for a registered watch, with the watch as it was then. */
  datatype Fired = Fired(event: Event, watch: Watch, relative: bool)

  datatype Pc =
    | Idle
    | Watched(id: Id)                                            // handle_watch, registry lock released
    | Scan(i: nat)                                               // notifying, holding the registry lock
    | Queueing(id: Id, path: string, scan: Option<nat>)          // reference taken, event not yet in the list
    | WantPending                                                // holding the registry lock, waiting for the other
    | Draining(i: nat)                                           // holding both locks
    | Sweeping(i: nat)                                           // first critical section of the cleanup
    | Between
    | Discarding(i: nat)                                         // second critical section of the cleanup
    | Cleaned

  datatype State = State(heap: map<Id, Obj>, registry: seq<Id>, pending: seq<Event>, queued: seq<Event>,
                         fired: seq<Fired>, next: Id,
                         wel: Option<nat>, pfl: Option<nat>, pcs: seq<Pc>)

  function Init(threads: nat): (s: State) {
    State(map[], [], [], [], [], 0, None, None, seq(threads, i => Idle))
  }

  datatype Step =
    | Register(t: nat, watch: Watch, relative: bool)
    | Rewatch(t: nat, id: Id, relative: bool)
    | Announce(t: nat, path: string)
    | Skip(t: nat)
    | Append(t: nat)
    | GiveUp(t: nat)
    | BeginScan(t: nat)
    | EndScan(t: nat)
    | Unwatch(t: nat, id: Id)
    | BeginDrain(t: nat)
    | LockPending(t: nat)
    | Drain(t: nat)
    | EndDrain(t: nat)
    | BeginCleanup(t: nat)
    | Sweep(t: nat)
    | EndSweep(t: nat)
    | BeginDiscard(t: nat)
    | Discard(t: nat)
    | EndDiscard(t: nat)
    | Return(t: nat)

  function Dom(s: State, id: Id): nat {
    if id in s.heap then s.heap[id].watch.dom else 0
  }

  function Ref(h: map<Id, Obj>, id: Id): (r: map<Id, Obj>) {
    if id in h then h[id := h[id].(refs := h[id].refs + 1)] else h
  }

  /** watch_entry_put: the entry is freed when its count reaches zero. */
  function Unref(h: map<Id, Obj>, id: Id): (r: map<Id, Obj>) {
    if id !in h then h else if h[id].refs <= 1 then h - {id} else h[id := h[id].(refs := h[id].refs - 1)]
  }

  predicate Enabled(s: State, st: Step) {
    st.t < |s.pcs| &&
    var pc := s.pcs[st.t];
    match st
    case Register(t, w, _) => pc.Idle? && s.wel.None? && w.dom == t
    case Rewatch(t, id, _) => pc.Idle? && s.wel.None? && id in s.registry && Dom(s, id) == t
    case Announce(t, path) => pc.Watched? || (pc.Scan? && pc.i < |s.registry|)
    case Skip(t) => pc.Watched? || (pc.Scan? && pc.i < |s.registry|)
    case Append(t) => pc.Queueing? && s.pfl.None?
    case GiveUp(t) => pc.Queueing?
    case BeginScan(t) => pc.Idle? && s.wel.None?
    case EndScan(t) => pc.Scan?
    case Unwatch(t, id) => pc.Idle? && s.wel.None? && id in s.registry && Dom(s, id) == t
    case BeginDrain(t) => pc.Idle? && s.wel.None?
    case LockPending(t) => pc.WantPending? && s.pfl.None?
    case Drain(t) => pc.Draining? && pc.i < |s.pending|
    case EndDrain(t) => pc.Draining?
    case BeginCleanup(t) => pc.Idle? && s.wel.None?
    case Sweep(t) => pc.Sweeping? && pc.i < |s.registry|
    case EndSweep(t) => pc.Sweeping? && pc.i == |s.registry|
    case BeginDiscard(t) => pc.Between? && s.pfl.None?
    case Discard(t) => pc.Discarding? && pc.i < |s.pending|
    case EndDiscard(t) => pc.Discarding? && pc.i == |s.pending|
    case Return(t) => pc.Cleaned?
  }

  /** Where a thread goes on after queueing. */
  function Resume(scan: Option<nat>): Pc {
    if scan.Some? then Scan(scan.value) else Idle
  }

  function Move(s: State, t: nat, pc: Pc): (r: State)
    requires t < |s.pcs|
  {
    s.(pcs := s.pcs[t := pc])
  }

  /** The same watch asked for again, perhaps with the other form of its path. */
  function Mark(h: map<Id, Obj>, id: Id, relative: bool): (r: map<Id, Obj>) {
    if id in h then h[id := h[id].(relative := relative)] else h
  }

  /** fire_watcher: nothing is sent for a watch no longer registered. */
  function Fire(s: State, ev: Event): (r: seq<Fired>) {
    if ev.id in s.registry && ev.id in s.heap then s.fired + [Fired(ev, s.heap[ev.id].watch, s.heap[ev.id].relative)]
    else s.fired
  }

  /** remove_watch_entry. */
  function Unlink(s: State, id: Id): (r: State) {
    s.(registry := Drop(s.registry, id), heap := Unref(s.heap, id))
  }

  /** A pending event leaves the list and gives its reference back. */
  function Forget(s: State, i: nat): (r: State)
    requires i < |s.pending|
  {
    s.(pending := Without(s.pending, i), heap := Unref(s.heap, s.pending[i].id))
  }

  function Next(s: State, st: Step): (r: State)
    requires Enabled(s, st)
  {
    var t := st.t;
    var pc := s.pcs[t];
    match st
    case Register(_, w, relative) =>
      Move(s.(heap := s.heap[s.next := Obj(w, relative, 1)], registry := s.registry + [s.next], next := s.next + 1), t,
        Watched(s.next))
    case Rewatch(_, id, relative) => Move(s.(heap := Mark(s.heap, id, relative)), t, Watched(id))
    case Announce(_, path) =>
      var id := if pc.Scan? then s.registry[pc.i] else pc.id;
      Move(s.(heap := Ref(s.heap, id)), t, Queueing(id, path, if pc.Scan? then Some(pc.i + 1) else None))
    case Skip(_) => Move(s, t, if pc.Scan? then Scan(pc.i + 1) else Idle)
    case Append(_) =>
      var ev := Event(pc.id, pc.path);
      Move(s.(pending := s.pending + [ev], queued := s.queued + [ev]), t, Resume(pc.scan))
    case GiveUp(_) => Move(s.(heap := Unref(s.heap, pc.id)), t, Resume(pc.scan))
    case BeginScan(_) => Move(s.(wel := Some(t)), t, Scan(0))
    case EndScan(_) => Move(s.(wel := None), t, Idle)
    case Unwatch(_, id) => Unlink(s, id)
    case BeginDrain(_) => Move(s.(wel := Some(t)), t, WantPending)
    case LockPending(_) => Move(s.(pfl := Some(t)), t, Draining(0))
    case Drain(_) =>
      var ev := s.pending[pc.i];
      if Dom(s, ev.id) != t then Move(s, t, Draining(pc.i + 1))
      else Forget(s.(fired := Fire(s, ev)), pc.i)
    case EndDrain(_) => Move(s.(wel := None, pfl := None), t, Idle)
    case BeginCleanup(_) => Move(s.(wel := Some(t)), t, Sweeping(0))
    case Sweep(_) => if Dom(s, s.registry[pc.i]) != t then Move(s, t, Sweeping(pc.i + 1))
      else Unlink(s, s.registry[pc.i])
    case EndSweep(_) => Move(s.(wel := None), t, Between)
    case BeginDiscard(_) => Move(s.(pfl := Some(t)), t, Discarding(0))
    case Discard(_) => if Dom(s, s.pending[pc.i].id) != t then Move(s, t, Discarding(pc.i + 1)) else Forget(s, pc.i)
    case EndDiscard(_) => Move(s.(pfl := None), t, Cleaned)
    case Return(_) => Move(s, t, Idle)
  }

  /** The watches whose memory a step reads or writes. */
  function Touches(s: State, st: Step): (r: set<Id>)
    requires Enabled(s, st)
  {
    var pc := s.pcs[st.t];
    match st
    case Register(_, _, _) => (set id | id in s.registry)
    case Rewatch(_, _, _) => (set id | id in s.registry)
    case Announce(_, _) => if pc.Scan? then {s.registry[pc.i]} else {pc.id}
    case Skip(_) => if pc.Scan? then {s.registry[pc.i]} else {}
    case GiveUp(_) => {pc.id}
    case Unwatch(_, _) => (set id | id in s.registry)
    case Drain(_) => {s.pending[pc.i].id}
    case Sweep(_) => {s.registry[pc.i]}
    case Discard(_) => {s.pending[pc.i].id}
    case _ => {}
  }

  // ---------- Counting references ----------

  function InList(ps: seq<Event>, id: Id): (n: nat) {
    if ps == [] then 0 else (if ps[0].id == id then 1 else 0) + InList(ps[1..], id)
  }

  function Held(pc: Pc, id: Id): (n: nat) {
    if pc.Queueing? && pc.id == id then 1 else 0
  }

  function InFlight(pcs: seq<Pc>, id: Id): (n: nat) {
    if pcs == [] then 0 else Held(pcs[0], id) + InFlight(pcs[1..], id)
  }

  function Registered(s: State, id: Id): (n: nat) {
    if id in s.registry then 1 else 0
  }

  /** Everything that names a watch: its registration, its pending events, and events on their way into the list. */
  function Uses(s: State, id: Id): (n: nat) {
    Registered(s, id) + InList(s.pending, id) + InFlight(s.pcs, id)
  }

  function Count(h: map<Id, Obj>, id: Id): (n: nat) {
    if id in h then h[id].refs else 0
  }

  ghost predicate Counted(s: State) {
    forall id :: Count(s.heap, id) == Uses(s, id) && (id in s.heap ==> s.heap[id].refs > 0)
  }

  // ---------- The invariant ----------

  predicate HoldsWel(pc: Pc) {
    pc.Scan? || pc.WantPending? || pc.Draining? || pc.Sweeping? || (pc.Queueing? && pc.scan.Some?)
  }

  predicate HoldsPfl(pc: Pc) {
    pc.Draining? || pc.Discarding?
  }

  predicate Locked(s: State) {
    && (s.wel.Some? ==> s.wel.value < |s.pcs|) && (s.pfl.Some? ==> s.pfl.value < |s.pcs|)
    && (forall t :: 0 <= t < |s.pcs| ==> (HoldsWel(s.pcs[t]) <==> s.wel == Some(t)))
    && (forall t :: 0 <= t < |s.pcs| ==> (HoldsPfl(s.pcs[t]) <==> s.pfl == Some(t)))
  }

  predicate Shape(s: State) {
    && (forall i, j :: 0 <= i < j < |s.registry| ==> s.registry[i] != s.registry[j])
    && (forall id :: id in s.heap ==> id < s.next)
  }

  predicate NoneRegistered(s: State, d: nat) {
    forall i :: 0 <= i < |s.registry| ==> Dom(s, s.registry[i]) != d
  }

  predicate NonePending(s: State, d: nat, n: nat)
    requires n <= |s.pending|
  {
    forall i :: 0 <= i < n ==> Dom(s, s.pending[i].id) != d
  }

  predicate PcOk(s: State, t: nat, pc: Pc) {
    match pc
    case Idle => true
    case Watched(id) => id in s.registry && Dom(s, id) == t
    case Scan(i) => i <= |s.registry|
    case Queueing(id, _, scan) => id in s.registry
      && (if scan.Some? then scan.value <= |s.registry| else Dom(s, id) == t)
    case WantPending => true
    case Draining(i) => i <= |s.pending| && NonePending(s, t, i)
    case Sweeping(i) => i <= |s.registry| && forall k :: 0 <= k < i ==> Dom(s, s.registry[k]) != t
    case Between => NoneRegistered(s, t)
    case Discarding(i) => NoneRegistered(s, t) && i <= |s.pending| && NonePending(s, t, i)
    case Cleaned => NoneRegistered(s, t) && NonePending(s, t, |s.pending|)
  }

  predicate PcsOk(s: State) {
    forall t :: 0 <= t < |s.pcs| ==> PcOk(s, t, s.pcs[t])
  }

  ghost predicate Inv(s: State) {
    Shape(s) && Counted(s) && Locked(s) && PcsOk(s)
  }

  // ---------- Counting lemmas ----------

  lemma {:induction false} InListAppend(ps: seq<Event>, e: Event, id: Id)
    ensures InList(ps + [e], id) == InList(ps, id) + if e.id == id then 1 else 0
    decreases |ps|
  {
    if ps == [] {
      assert ps + [e] == [e] && [e][1..] == [];
    } else {
      assert (ps + [e])[1..] == ps[1..] + [e];
      InListAppend(ps[1..], e, id);
    }
  }

  lemma {:induction false} InListWithout(ps: seq<Event>, i: nat, id: Id)
    requires i < |ps|
    ensures InList(Without(ps, i), id) == InList(ps, id) - if ps[i].id == id then 1 else 0
    decreases |ps|
  {
    if i == 0 {
      assert Without(ps, 0) == ps[1..];
    } else {
      assert Without(ps, i)[0] == ps[0] && Without(ps, i)[1..] == Without(ps[1..], i - 1);
      InListWithout(ps[1..], i - 1, id);
    }
  }

  lemma {:induction false} InListSome(ps: seq<Event>, i: nat)
    requires i < |ps|
    ensures InList(ps, ps[i].id) > 0
    decreases |ps|
  {
    if i > 0 { InListSome(ps[1..], i - 1); }
  }

  lemma {:induction false} InListNone(ps: seq<Event>, id: Id)
    requires forall i :: 0 <= i < |ps| ==> ps[i].id != id
    ensures InList(ps, id) == 0
    decreases |ps|
  {
    if ps != [] { InListNone(ps[1..], id); }
  }

  lemma {:induction false} InFlightMove(pcs: seq<Pc>, t: nat, pc: Pc, id: Id)
    requires t < |pcs|
    ensures InFlight(pcs[t := pc], id) == InFlight(pcs, id) - Held(pcs[t], id) + Held(pc, id)
    decreases |pcs|
  {
    if t == 0 {
      assert pcs[0 := pc][1..] == pcs[1..];
    } else {
      assert pcs[t := pc][1..] == pcs[1..][t - 1 := pc];
      InFlightMove(pcs[1..], t - 1, pc, id);
    }
  }

  lemma {:induction false} InFlightSome(pcs: seq<Pc>, t: nat)
    requires t < |pcs| && pcs[t].Queueing?
    ensures InFlight(pcs, pcs[t].id) > 0
    decreases |pcs|
  {
    if t > 0 { InFlightSome(pcs[1..], t - 1); }
  }

  lemma {:induction false} InFlightNone(pcs: seq<Pc>, id: Id)
    requires forall t :: 0 <= t < |pcs| ==> Held(pcs[t], id) == 0
    ensures InFlight(pcs, id) == 0
    decreases |pcs|
  {
    if pcs != [] { InFlightNone(pcs[1..], id); }
  }

  lemma {:induction false} DropExact(r: seq<Id>, id: Id)
    requires forall i, j :: 0 <= i < j < |r| ==> r[i] != r[j]
    ensures forall x :: x in Drop(r, id) <==> x in r && x != id
    ensures forall i, j :: 0 <= i < j < |Drop(r, id)| ==> Drop(r, id)[i] != Drop(r, id)[j]
    decreases |r|
  {
    if r != [] {
      if r[0] == id {
        assert forall x :: x in r <==> x == r[0] || x in r[1..];
        assert r[0] !in r[1..];
      } else {
        DropExact(r[1..], id);
        assert forall x :: x in r <==> x == r[0] || x in r[1..];
        assert r[0] !in r[1..];
      }
    }
  }

  /** Dropping the i-th element moves nothing in front of it. */
  lemma {:induction false} DropAt(r: seq<Id>, i: nat)
    requires i < |r| && forall a, b :: 0 <= a < b < |r| ==> r[a] != r[b]
    ensures Drop(r, r[i]) == Without(r, i)
    decreases |r|
  {
    if i == 0 {
      assert Without(r, 0) == r[1..];
    } else {
      assert Without(r, i)[0] == r[0] && Without(r, i)[1..] == Without(r[1..], i - 1);
      DropAt(r[1..], i - 1);
    }
  }

  // ---------- Every step keeps the invariant ----------

  lemma {:induction false} UsedAlive(s: State)
    requires Counted(s)
    ensures forall id :: id in s.registry ==> id in s.heap
    ensures forall i :: 0 <= i < |s.pending| ==> s.pending[i].id in s.heap
    ensures forall t :: 0 <= t < |s.pcs| && s.pcs[t].Queueing? ==> s.pcs[t].id in s.heap
  {
    hide InList, InFlight;
    forall id | id in s.registry ensures id in s.heap { assert Uses(s, id) > 0; }
    forall i | 0 <= i < |s.pending| ensures s.pending[i].id in s.heap {
      InListSome(s.pending, i);
      assert Uses(s, s.pending[i].id) > 0;
    }
    forall t | 0 <= t < |s.pcs| && s.pcs[t].Queueing? ensures s.pcs[t].id in s.heap {
      InFlightSome(s.pcs, t);
      assert Uses(s, s.pcs[t].id) > 0;
    }
  }

  /** Taking and leaving the two locks. */
  predicate LockMove(s: State, r: State, t: nat, pc: Pc)
    requires t < |s.pcs|
  {
    var was := s.pcs[t];
    && (if HoldsWel(pc) then r.wel == Some(t) && (HoldsWel(was) || s.wel.None?)
        else r.wel == if HoldsWel(was) then None else s.wel)
    && (if HoldsPfl(pc) then r.pfl == Some(t) && (HoldsPfl(was) || s.pfl.None?)
        else r.pfl == if HoldsPfl(was) then None else s.pfl)
  }

  lemma {:induction false} Combine(s: State, r: State, t: nat, pc: Pc)
    requires Locked(s) && t < |s.pcs| && r.pcs == s.pcs[t := pc] && LockMove(s, r, t, pc)
    requires Shape(r) && Counted(r) && PcOk(r, t, pc)
    requires forall u :: 0 <= u < |s.pcs| && u != t ==> PcOk(r, u, s.pcs[u])
    ensures Inv(r)
  {
    hide Shape, Counted, PcOk;
    forall u | 0 <= u < |r.pcs|
      ensures (HoldsWel(r.pcs[u]) <==> r.wel == Some(u)) && (HoldsPfl(r.pcs[u]) <==> r.pfl == Some(u))
        && PcOk(r, u, r.pcs[u])
    {
      assert HoldsWel(s.pcs[u]) <==> s.wel == Some(u);
      assert HoldsPfl(s.pcs[u]) <==> s.pfl == Some(u);
      assert r.pcs[u] == if u == t then pc else s.pcs[u];
    }
  }

  /** Only one thread's control point and the locks change. */
  lemma {:induction false} KeepMove(s: State, r: State, t: nat, pc: Pc)
    requires Inv(s) && t < |s.pcs| && r == s.(pcs := s.pcs[t := pc], wel := r.wel, pfl := r.pfl)
      && LockMove(s, r, t, pc)
    requires !s.pcs[t].Queueing? && !pc.Queueing? && PcOk(s, t, pc)
    ensures Inv(r)
  {
    hide InList, InFlight;
    forall id ensures Count(r.heap, id) == Uses(r, id) && (id in r.heap ==> r.heap[id].refs > 0) {
      InFlightMove(s.pcs, t, pc, id);
      assert Count(s.heap, id) == Uses(s, id);
    }
    hide Counted, LockMove;
    forall u | 0 <= u < |s.pcs| ensures PcOk(r, u, s.pcs[u]) { assert PcOk(s, u, s.pcs[u]); }
    assert PcOk(r, t, pc);
    hide PcOk, Shape;
    Combine(s, r, t, pc);
  }

  /** No surviving watch changes hands. */
  ghost predicate SameWatches(h: map<Id, Obj>, g: map<Id, Obj>) {
    forall id :: id in g ==> id in h && g[id].watch == h[id].watch
  }

  ghost predicate Positive(h: map<Id, Obj>) {
    forall id :: id in h ==> h[id].refs > 0
  }

  lemma {:induction false} RefCount(h: map<Id, Obj>, id: Id)
    requires id in h && Positive(h)
    ensures SameWatches(h, Ref(h, id)) && Positive(Ref(h, id))
    ensures forall x :: Count(Ref(h, id), x) == Count(h, x) + if x == id then 1 else 0
  {
  }

  lemma {:induction false} UnrefCount(h: map<Id, Obj>, id: Id)
    requires id in h && Positive(h)
    ensures SameWatches(h, Unref(h, id)) && Positive(Unref(h, id))
    ensures forall x :: Count(Unref(h, id), x) == Count(h, x) - if x == id then 1 else 0
  {
  }

  /** A thread's control point stays sound when the lists it has passed only lose watches it does not rely on. */
  lemma {:induction false} PcKept(s: State, r: State, u: nat, pc: Pc)
    requires Counted(s) && Counted(r) && SameWatches(s.heap, r.heap) && PcOk(s, u, pc)
    requires r.registry == s.registry || (!HoldsWel(pc) && forall id :: id in r.registry ==> id in s.registry)
    requires forall id :: id in s.registry && Dom(s, id) == u ==> id in r.registry
    requires r.pending == s.pending || (!HoldsPfl(pc) && NoNewPending(s, r, u))
    ensures PcOk(r, u, pc)
  {
    UsedAlive(s);
    UsedAlive(r);
    hide Counted;
  }

  /** What the list gains does not belong to a domain without watches. */
  predicate NoNewPending(s: State, r: State, u: nat) {
    NoneRegistered(s, u) && NonePending(s, u, |s.pending|) ==> NonePending(r, u, |r.pending|)
  }

  lemma {:induction false} Alive(s: State)
    requires Counted(s)
    ensures Positive(s.heap)
  {
    forall id | id in s.heap ensures s.heap[id].refs > 0 { assert Count(s.heap, id) == Uses(s, id); }
  }

  /** sys_ref_get on the way to the list. */
  lemma {:induction false} KeepAnnounce(s: State, t: nat, path: string)
    requires Inv(s) && Enabled(s, Announce(t, path))
    ensures Inv(Next(s, Announce(t, path)))
  {
    hide InList, InFlight;
    var r := Next(s, Announce(t, path));
    var pc := r.pcs[t];
    assert PcOk(s, t, s.pcs[t]);
    UsedAlive(s);
    Alive(s);
    RefCount(s.heap, pc.id);
    hide Ref;
    forall x ensures Count(r.heap, x) == Uses(r, x) && (x in r.heap ==> r.heap[x].refs > 0) {
      InFlightMove(s.pcs, t, pc, x);
      assert Count(s.heap, x) == Uses(s, x);
    }
    assert Counted(r);
    hide Counted, Locked;
    forall u | 0 <= u < |s.pcs| ensures PcOk(r, u, s.pcs[u]) {
      assert PcOk(s, u, s.pcs[u]);
      PcKept(s, r, u, s.pcs[u]);
    }
    UsedAlive(r);
    Combine(s, r, t, pc);
  }

  lemma {:induction false} KeepAppend(s: State, t: nat)
    requires Inv(s) && Enabled(s, Append(t))
    ensures Inv(Next(s, Append(t)))
  {
    hide InList, InFlight;
    var r := Next(s, Append(t));
    var pc := r.pcs[t];
    var e := Event(s.pcs[t].id, s.pcs[t].path);
    assert PcOk(s, t, s.pcs[t]);
    UsedAlive(s);
    forall x ensures Count(r.heap, x) == Uses(r, x) && (x in r.heap ==> r.heap[x].refs > 0) {
      InFlightMove(s.pcs, t, pc, x);
      InListAppend(s.pending, e, x);
      assert Count(s.heap, x) == Uses(s, x);
    }
    assert Counted(r);
    hide Counted;
    forall u | 0 <= u < |s.pcs| && u != t ensures PcOk(r, u, s.pcs[u]) {
      assert PcOk(s, u, s.pcs[u]);
      assert !HoldsPfl(s.pcs[u]);
      PcKept(s, r, u, s.pcs[u]);
    }
    Combine(s, r, t, pc);
  }

  lemma {:induction false} KeepGiveUp(s: State, t: nat)
    requires Inv(s) && Enabled(s, GiveUp(t))
    ensures Inv(Next(s, GiveUp(t)))
  {
    hide InList, InFlight;
    var r := Next(s, GiveUp(t));
    var pc := r.pcs[t];
    var id := s.pcs[t].id;
    assert PcOk(s, t, s.pcs[t]);
    UsedAlive(s);
    Alive(s);
    UnrefCount(s.heap, id);
    hide Unref;
    forall x ensures Count(r.heap, x) == Uses(r, x) && (x in r.heap ==> r.heap[x].refs > 0) {
      InFlightMove(s.pcs, t, pc, x);
      assert Count(s.heap, x) == Uses(s, x);
    }
    assert Counted(r);
    hide Counted, Locked;
    forall u | 0 <= u < |s.pcs| && u != t ensures PcOk(r, u, s.pcs[u]) {
      assert PcOk(s, u, s.pcs[u]);
      PcKept(s, r, u, s.pcs[u]);
    }
    Combine(s, r, t, pc);
  }

  lemma {:induction false} KeepRegister(s: State, t: nat, w: Watch, relative: bool)
    requires Inv(s) && Enabled(s, Register(t, w, relative))
    ensures Inv(Next(s, Register(t, w, relative)))
  {
    hide InList, InFlight;
    var r := Next(s, Register(t, w, relative));
    var pc := Watched(s.next);
    UsedAlive(s);
    assert Count(s.heap, s.next) == 0 == Uses(s, s.next);
    forall x ensures Count(r.heap, x) == Uses(r, x) && (x in r.heap ==> r.heap[x].refs > 0) {
      InFlightMove(s.pcs, t, pc, x);
      assert Count(s.heap, x) == Uses(s, x);
    }
    assert Counted(r);
    hide Counted;
    forall u | 0 <= u < |s.pcs| && u != t ensures PcOk(r, u, s.pcs[u]) {
      assert PcOk(s, u, s.pcs[u]);
      assert !HoldsWel(s.pcs[u]);
    }
    Combine(s, r, t, pc);
  }

  lemma {:induction false} KeepRewatch(s: State, t: nat, id: Id, relative: bool)
    requires Inv(s) && Enabled(s, Rewatch(t, id, relative))
    ensures Inv(Next(s, Rewatch(t, id, relative)))
  {
    hide InList, InFlight;
    var r := Next(s, Rewatch(t, id, relative));
    var pc := Watched(id);
    UsedAlive(s);
    forall x ensures Count(r.heap, x) == Uses(r, x) && (x in r.heap ==> r.heap[x].refs > 0) {
      InFlightMove(s.pcs, t, pc, x);
      assert Count(s.heap, x) == Uses(s, x);
    }
    assert Counted(r);
    hide Counted;
    forall u | 0 <= u < |s.pcs| && u != t ensures PcOk(r, u, s.pcs[u]) {
      assert PcOk(s, u, s.pcs[u]);
      PcKept(s, r, u, s.pcs[u]);
    }
    Combine(s, r, t, pc);
  }

  /** remove_watch_entry by the thread of the watch's domain, under the registry lock. */
  lemma {:induction false} KeepUnlink(s: State, t: nat, id: Id)
    requires Inv(s) && t < |s.pcs| && id in s.registry && Dom(s, id) == t && (s.wel == None || s.wel == Some(t))
    requires s.pcs[t].Idle? || (s.pcs[t].Sweeping? && s.pcs[t].i < |s.registry| && id == s.registry[s.pcs[t].i])
    ensures Inv(Unlink(s, id))
  {
    hide InList, InFlight;
    var r := Unlink(s, id);
    UsedAlive(s);
    Alive(s);
    UnrefCount(s.heap, id);
    DropExact(s.registry, id);
    hide Unref;
    forall x ensures Count(r.heap, x) == Uses(r, x) && (x in r.heap ==> r.heap[x].refs > 0) {
      assert Count(s.heap, x) == Uses(s, x);
    }
    assert Counted(r);
    UsedAlive(r);
    hide Counted;
    forall u | 0 <= u < |s.pcs| && u != t ensures PcOk(r, u, s.pcs[u]) {
      assert PcOk(s, u, s.pcs[u]);
      assert !HoldsWel(s.pcs[u]);
      PcKept(s, r, u, s.pcs[u]);
    }
    assert PcOk(s, t, s.pcs[t]);
    if s.pcs[t].Sweeping? { DropAt(s.registry, s.pcs[t].i); }
    assert r.pcs == s.pcs[t := s.pcs[t]];
    Combine(s, r, t, s.pcs[t]);
  }

  /** A pending event of the thread's own domain leaves the list. */
  lemma {:induction false} KeepForget(s: State, t: nat, i: nat, fired: seq<Fired>)
    requires Inv(s) && t < |s.pcs| && i < |s.pending| && s.pfl == Some(t)
    requires s.pcs[t] == Draining(i) || s.pcs[t] == Discarding(i)
    ensures Inv(Forget(s.(fired := fired), i))
  {
    hide InList, InFlight;
    var r := Forget(s.(fired := fired), i);
    UsedAlive(s);
    Alive(s);
    UnrefCount(s.heap, s.pending[i].id);
    hide Unref;
    forall x ensures Count(r.heap, x) == Uses(r, x) && (x in r.heap ==> r.heap[x].refs > 0) {
      InListWithout(s.pending, i, x);
      assert Count(s.heap, x) == Uses(s, x);
    }
    assert Counted(r);
    UsedAlive(r);
    hide Counted;
    forall u | 0 <= u < |s.pcs| && u != t ensures PcOk(r, u, s.pcs[u]) {
      assert PcOk(s, u, s.pcs[u]);
      assert !HoldsPfl(s.pcs[u]);
      PcKept(s, r, u, s.pcs[u]);
    }
    assert PcOk(s, t, s.pcs[t]);
    assert r.pcs == s.pcs[t := s.pcs[t]];
    Combine(s, r, t, s.pcs[t]);
  }

  lemma {:induction false} InitHolds(n: nat)
    ensures Inv(Init(n))
  {
    var s := Init(n);
    forall id ensures Count(s.heap, id) == Uses(s, id) { InFlightNone(s.pcs, id); }
  }

  /** Steps that only move a control point or a lock. */
  lemma {:induction false} NextMoves(s: State, st: Step)
    requires Inv(s) && Enabled(s, st)
    requires st.Skip? || st.BeginScan? || st.EndScan? || st.BeginDrain? || st.LockPending?
      || st.EndDrain?
          || st.BeginCleanup? || st.EndSweep? || st.BeginDiscard? || st.EndDiscard? || st.Return?
          || (st.Drain? && Dom(s, s.pending[s.pcs[st.t].i].id) != st.t)
          || (st.Sweep? && Dom(s, s.registry[s.pcs[st.t].i]) != st.t)
          || (st.Discard? && Dom(s, s.pending[s.pcs[st.t].i].id) != st.t)
    ensures Inv(Next(s, st))
  {
    hide Counted, Shape;
    var r := Next(s, st);
    assert PcOk(s, st.t, s.pcs[st.t]);
    assert HoldsWel(s.pcs[st.t]) <==> s.wel == Some(st.t);
    assert HoldsPfl(s.pcs[st.t]) <==> s.pfl == Some(st.t);
    assert PcOk(s, st.t, r.pcs[st.t]);
    KeepMove(s, r, st.t, r.pcs[st.t]);
  }

  /** Every step of every thread keeps the invariant. */
  lemma {:induction false} NextKeeps(s: State, st: Step)
    requires Inv(s) && Enabled(s, st)
    ensures Inv(Next(s, st))
  {
    hide Inv;
    match st
    case Register(t, w, relative) => KeepRegister(s, t, w, relative);
    case Rewatch(t, id, relative) => KeepRewatch(s, t, id, relative);
    case Announce(t, path) => KeepAnnounce(s, t, path);
    case Append(t) => KeepAppend(s, t);
    case GiveUp(t) => KeepGiveUp(s, t);
    case Unwatch(t, id) => KeepUnlink(s, t, id);
    case Drain(t) => NextDrains(s, t);
    case Sweep(t) => NextSweeps(s, t);
    case Discard(t) => NextDiscards(s, t);
    case _ => NextMoves(s, st);
  }

  lemma {:induction false} LockOf(s: State, t: nat)
    requires Inv(s) && t < |s.pcs|
    ensures (HoldsWel(s.pcs[t]) <==> s.wel == Some(t)) && (HoldsPfl(s.pcs[t]) <==> s.pfl == Some(t))
      && PcOk(s, t, s.pcs[t])
  {
  }

  lemma {:induction false} NextDrains(s: State, t: nat)
    requires Inv(s) && Enabled(s, Drain(t))
    ensures Inv(Next(s, Drain(t)))
  {
    hide Inv;
    LockOf(s, t);
    var i := s.pcs[t].i;
    var ev := s.pending[i];
    if Dom(s, ev.id) != t {
      NextMoves(s, Drain(t));
    } else {
      KeepForget(s, t, i, Fire(s, ev));
    }
  }

  lemma {:induction false} NextSweeps(s: State, t: nat)
    requires Inv(s) && Enabled(s, Sweep(t))
    ensures Inv(Next(s, Sweep(t)))
  {
    hide Inv;
    LockOf(s, t);
    if Dom(s, s.registry[s.pcs[t].i]) != t {
      NextMoves(s, Sweep(t));
    } else {
      KeepUnlink(s, t, s.registry[s.pcs[t].i]);
    }
  }

  lemma {:induction false} NextDiscards(s: State, t: nat)
    requires Inv(s) && Enabled(s, Discard(t))
    ensures Inv(Next(s, Discard(t)))
  {
    hide Inv;
    LockOf(s, t);
    if Dom(s, s.pending[s.pcs[t].i].id) != t {
      NextMoves(s, Discard(t));
    } else {
      assert s.(fired := s.fired) == s;
      KeepForget(s, t, s.pcs[t].i, s.fired);
    }
  }

  // ---------- What every run guarantees ----------

  /** A run: each step is possible where it is taken. */
  predicate Runs(s: State, steps: seq<Step>, r: State)
    decreases |steps|
  {
    if steps == [] then r == s else Enabled(s, steps[0]) && Runs(Next(s, steps[0]), steps[1..], r)
  }

  lemma {:induction false} RunKeeps(s: State, steps: seq<Step>, r: State)
    requires Inv(s) && Runs(s, steps, r)
    ensures Inv(r)
    decreases |steps|
  {
    hide Inv, Enabled, Next;
    if steps != [] {
      NextKeeps(s, steps[0]);
      RunKeeps(Next(s, steps[0]), steps[1..], r);
    }
  }

  /**
   In every reachable state a watch is allocated exactly while something names it, and its count is
   its registration plus its pending events plus the events on their way into the list.
   */
  lemma {:induction false} CountExact(n: nat, steps: seq<Step>, s: State, id: Id)
    requires Runs(Init(n), steps, s)
    ensures id in s.heap <==> id in s.registry || InList(s.pending, id) > 0 || InFlight(s.pcs, id) > 0
    ensures id in s.heap ==> s.heap[id].refs == Registered(s, id) + InList(s.pending, id) + InFlight(s.pcs, id)
  {
    hide Runs, Init, InList, InFlight;
    InitHolds(n);
    RunKeeps(Init(n), steps, s);
    assert Count(s.heap, id) == Uses(s, id);
  }

  /** No step of any run touches a watch that has been freed. */
  lemma {:induction false} NoUseAfterFree(n: nat, steps: seq<Step>, s: State, st: Step)
    requires Runs(Init(n), steps, s) && Enabled(s, st)
    ensures Touches(s, st) <= s.heap.Keys
  {
    hide Runs, Init, Counted, Shape;
    InitHolds(n);
    RunKeeps(Init(n), steps, s);
    UsedAlive(s);
    LockOf(s, st.t);
  }

  /** Nothing refers to the domain: no watch of its own is even allocated. */
  predicate Gone(s: State, d: nat) {
    forall id :: id in s.heap ==> s.heap[id].watch.dom != d
  }

  lemma {:induction false} CleanedGone(s: State, d: nat)
    requires Inv(s) && d < |s.pcs| && s.pcs[d].Cleaned?
    ensures Gone(s, d)
  {
    hide InList, InFlight;
    LockOf(s, d);
    forall id | id in s.heap ensures s.heap[id].watch.dom != d {
      assert Count(s.heap, id) == Uses(s, id);
      if s.heap[id].watch.dom == d {
        assert Dom(s, id) == d;
        assert id !in s.registry;
        InListNone(s.pending, id);
        forall t | 0 <= t < |s.pcs| ensures Held(s.pcs[t], id) == 0 { LockOf(s, t); }
        InFlightNone(s.pcs, id);
      }
    }
  }

  /** When cleanup_domain_watches(d) returns, whatever the others did meanwhile, nothing refers to d. */
  lemma {:induction false} CleanupComplete(n: nat, steps: seq<Step>, s: State, d: nat)
    requires Runs(Init(n), steps, s) && d < |s.pcs| && s.pcs[d].Cleaned?
    ensures Gone(s, d)
  {
    hide *;
    InitHolds(n);
    RunKeeps(Init(n), steps, s);
    CleanedGone(s, d);
  }

  /** And nothing will, until the domain registers a watch again. */
  lemma {:induction false} GoneStays(s: State, steps: seq<Step>, r: State, d: nat)
    requires Gone(s, d) && Runs(s, steps, r) && forall st :: st in steps ==> !(st.Register? && st.t == d)
    ensures Gone(r, d)
    decreases |steps|
  {
    if steps != [] {
      assert steps[0] in steps && forall st :: st in steps[1..] ==> st in steps;
      GoneStep(s, steps[0], d);
      GoneStays(Next(s, steps[0]), steps[1..], r, d);
    }
  }

  lemma {:induction false} GoneStep(s: State, st: Step, d: nat)
    requires Gone(s, d) && Enabled(s, st) && !(st.Register? && st.t == d)
    ensures Gone(Next(s, st), d)
  {
  }

  /** The events of one watch, in order. */
  function EventsOf(es: seq<Event>, id: Id): (r: seq<Event>) {
    if es == [] then [] else (if es[0].id == id then [es[0]] else []) + EventsOf(es[1..], id)
  }

  lemma {:induction false} EventsAppend(es: seq<Event>, e: Event, id: Id)
    ensures EventsOf(es + [e], id) == EventsOf(es, id) + if e.id == id then [e] else []
    decreases |es|
  {
    if es == [] {
      assert es + [e] == [e] && [e][1..] == [];
    } else {
      assert (es + [e])[1..] == es[1..] + [e] && (es + [e])[0] == es[0];
      EventsAppend(es[1..], e, id);
      Assoc(if es[0].id == id then [es[0]] else [], EventsOf(es[1..], id), if e.id == id then [e] else []);
    }
  }

  /** The events taken out, whether sent or not. */
  function Done(fs: seq<Fired>): (es: seq<Event>) {
    if fs == [] then [] else [fs[0].event] + Done(fs[1..])
  }

  lemma {:induction false} DoneAppend(fs: seq<Fired>, f: Fired)
    ensures Done(fs + [f]) == Done(fs) + [f.event]
    decreases |fs|
  {
    if fs == [] {
      assert fs + [f] == [f] && [f][1..] == [];
    } else {
      assert (fs + [f])[1..] == fs[1..] + [f] && (fs + [f])[0] == fs[0];
      DoneAppend(fs[1..], f);
    }
  }

  lemma {:induction false} FireKeeps(s: State, ev: Event, id: Id)
    requires id !in s.registry
    ensures EventsOf(Done(Fire(s, ev)), id) == EventsOf(Done(s.fired), id)
  {
    hide EventsOf, Done;
    if ev.id in s.registry && ev.id in s.heap {
      DoneAppend(s.fired, Fired(ev, s.heap[ev.id].watch, s.heap[ev.id].relative));
      EventsAppend(Done(s.fired), ev, id);
    }
  }

  lemma {:induction false} SilentStep(s: State, st: Step, id: Id)
    requires Inv(s) && Enabled(s, st) && id < s.next && id !in s.registry
    ensures var r := Next(s, st);
      id < r.next && id !in r.registry && EventsOf(Done(r.fired), id) == EventsOf(Done(s.fired), id)
  {
    hide EventsOf;
    var r := Next(s, st);
    match st
    case Unwatch(_, x) => DropExact(s.registry, x);
    case Sweep(t) => DropExact(s.registry, s.registry[s.pcs[t].i]);
    case Drain(t) => FireKeeps(s, s.pending[s.pcs[t].i], id);
    case _ =>
  }

  /** A watch that is no longer registered never sends another event, in any continuation. */
  lemma {:induction false} UnregisteredSilent(s: State, steps: seq<Step>, r: State, id: Id)
    requires Inv(s) && Runs(s, steps, r) && id < s.next && id !in s.registry
    ensures id !in r.registry && EventsOf(Done(r.fired), id) == EventsOf(Done(s.fired), id)
    decreases |steps|
  {
    hide Inv, Enabled, Next, EventsOf;
    if steps != [] {
      NextKeeps(s, steps[0]);
      SilentStep(s, steps[0], id);
      UnregisteredSilent(Next(s, steps[0]), steps[1..], r, id);
    }
  }

  /** The step a thread takes when both locks are free or its own. */
  function Onward(s: State, t: nat): (st: Step)
    requires t < |s.pcs|
  {
    match s.pcs[t]
    case Idle => BeginScan(t)
    case Watched(_) => Skip(t)
    case Scan(_) => EndScan(t)
    case Queueing(_, _, _) => Append(t)
    case WantPending => LockPending(t)
    case Draining(_) => EndDrain(t)
    case Sweeping(i) => if i < |s.registry| then Sweep(t) else EndSweep(t)
    case Between => BeginDiscard(t)
    case Discarding(i) => if i < |s.pending| then Discard(t) else EndDiscard(t)
    case Cleaned => Return(t)
  }

  /** No deadlock: a thread, or the owner of the lock it waits for, can always go on. */
  lemma {:induction false} NoDeadlock(n: nat, steps: seq<Step>, s: State, t: nat)
    requires Runs(Init(n), steps, s) && t < |s.pcs|
    ensures exists u :: 0 <= u < |s.pcs| && Enabled(s, Onward(s, u)) && (u == t || s.wel == Some(u) || s.pfl == Some(u))
  {
    hide Runs, Init, Counted, Shape;
    InitHolds(n);
    RunKeeps(Init(n), steps, s);
    var u := if s.pfl.Some? then s.pfl.value else if s.wel.Some? then s.wel.value else t;
    LockOf(s, u);
    LockOf(s, t);
    assert Enabled(s, Onward(s, u));
  }

  // ---------- Delivery ----------

  /**
   Every event ever queued for a watch that is still registered was taken out, in order, or is still
   pending; and what was taken out for a watch was taken out for that very watch.
   */
  ghost predicate Delivers(s: State) {
    && (forall id :: id in s.registry ==>
          EventsOf(s.queued, id) == EventsOf(Done(s.fired), id) + EventsOf(s.pending, id))
    && (forall e :: e in s.queued || e in Done(s.fired) || e in s.pending ==> e.id < s.next)
    && (forall f :: f in s.fired ==> f.event in Done(s.fired) && SameWatch(s, f))
  }

  predicate SameWatch(s: State, f: Fired) { f.event.id in s.heap ==> s.heap[f.event.id].watch == f.watch }

  lemma {:induction false} NoEvents(es: seq<Event>, id: Id)
    requires forall e :: e in es ==> e.id != id
    ensures EventsOf(es, id) == []
    decreases |es|
  {
    if es != [] {
      assert es[0] in es && forall e :: e in es[1..] ==> e in es;
      NoEvents(es[1..], id);
    }
  }

  /** Taking out the first event of a watch. */
  lemma {:induction false} EventsWithout(es: seq<Event>, i: nat, id: Id)
    requires i < |es|
    ensures es[i].id != id ==> EventsOf(Without(es, i), id) == EventsOf(es, id)
    ensures es[i].id == id && (forall k :: 0 <= k < i ==> es[k].id != id) ==>
      EventsOf(es, id) == [es[i]] + EventsOf(Without(es, i), id)
    decreases |es|
  {
    if i == 0 {
      assert Without(es, 0) == es[1..];
    } else {
      assert Without(es, i)[0] == es[0] && Without(es, i)[1..] == Without(es[1..], i - 1);
      EventsWithout(es[1..], i - 1, id);
    }
  }

  /** What taking an event out adds. */
  lemma {:induction false} FireDone(s: State, ev: Event)
    requires ev.id in s.registry ==> ev.id in s.heap
    ensures Done(Fire(s, ev)) == Done(s.fired) + if ev.id in s.registry then [ev] else []
  {
    hide Done;
    if ev.id in s.registry { DoneAppend(s.fired, Fired(ev, s.heap[ev.id].watch, s.heap[ev.id].relative)); }
  }

  /** Events, ids and watches stay in order when event `i` of the list is taken out. */
  lemma {:induction false} FireFaithful(s: State, i: nat)
    requires Delivers(s) && i < |s.pending| && (s.pending[i].id in s.registry ==> s.pending[i].id in s.heap)
    ensures var r := Forget(s.(fired := Fire(s, s.pending[i])), i);
      && (forall e :: e in r.queued || e in Done(r.fired) || e in r.pending ==> e.id < r.next)
      && (forall f :: f in r.fired ==> f.event in Done(r.fired) && SameWatch(r, f))
  {
    hide Done, EventsOf;
    var ev := s.pending[i];
    FireDone(s, ev);
    var r := Forget(s.(fired := Fire(s, ev)), i);
    assert ev in s.pending && forall e :: e in r.pending ==> e in s.pending;
    forall f | f in r.fired ensures f.event in Done(r.fired) && SameWatch(r, f) {
      if f in s.fired { assert SameWatch(s, f); }
    }
  }

  /** The event a drain takes out is the oldest pending one of its watch. */
  lemma {:induction false} DrainDelivers(s: State, t: nat)
    requires Inv(s) && Delivers(s) && Enabled(s, Drain(t))
    ensures Delivers(Next(s, Drain(t)))
  {
    hide EventsOf, Counted, Shape, Locked, Done, Fire;
    LockOf(s, t);
    UsedAlive(s);
    var i := s.pcs[t].i;
    var ev := s.pending[i];
    var r := Next(s, Drain(t));
    if Dom(s, ev.id) == t {
      forall k | 0 <= k < i ensures s.pending[k].id != ev.id { assert Dom(s, s.pending[k].id) != t; }
      FireDone(s, ev);
      FireFaithful(s, i);
      forall id | id in r.registry
        ensures EventsOf(r.queued, id) == EventsOf(Done(r.fired), id) + EventsOf(r.pending, id)
      {
        EventsWithout(s.pending, i, id);
        EventsAppend(Done(s.fired), ev, id);
        Assoc(EventsOf(Done(s.fired), id), [ev], EventsOf(r.pending, id));
        assert Done(s.fired) + [] == Done(s.fired);
        assert EventsOf(Done(s.fired), id) + [] == EventsOf(Done(s.fired), id);
      }
    }
  }

  lemma {:induction false} AppendDelivers(s: State, t: nat)
    requires Inv(s) && Delivers(s) && Enabled(s, Append(t))
    ensures Delivers(Next(s, Append(t)))
  {
    hide EventsOf, Counted, Locked;
    LockOf(s, t);
    UsedAlive(s);
    var ev := Event(s.pcs[t].id, s.pcs[t].path);
    var r := Next(s, Append(t));
    forall id | id in r.registry
      ensures EventsOf(r.queued, id) == EventsOf(Done(r.fired), id) + EventsOf(r.pending, id)
    {
      EventsAppend(s.pending, ev, id);
      EventsAppend(s.queued, ev, id);
      Assoc(EventsOf(Done(s.fired), id), EventsOf(s.pending, id), if ev.id == id then [ev] else []);
    }
  }

  lemma {:induction false} RegisterDelivers(s: State, t: nat, w: Watch, relative: bool)
    requires Delivers(s) && Enabled(s, Register(t, w, relative))
    ensures Delivers(Next(s, Register(t, w, relative)))
  {
    hide EventsOf;
    NoEvents(s.queued, s.next);
    NoEvents(Done(s.fired), s.next);
    NoEvents(s.pending, s.next);
    assert EventsOf(Done(s.fired), s.next) + EventsOf(s.pending, s.next) == [];
  }

  lemma {:induction false} DiscardDelivers(s: State, t: nat)
    requires Inv(s) && Delivers(s) && Enabled(s, Discard(t))
    ensures Delivers(Next(s, Discard(t)))
  {
    hide EventsOf, Counted, Shape, Locked;
    LockOf(s, t);
    var i := s.pcs[t].i;
    var ev := s.pending[i];
    var r := Next(s, Discard(t));
    if Dom(s, ev.id) == t {
      forall id | id in r.registry
        ensures EventsOf(r.queued, id) == EventsOf(Done(r.fired), id) + EventsOf(r.pending, id)
      {
        var k :| 0 <= k < |s.registry| && s.registry[k] == id;
        assert Dom(s, s.registry[k]) != t;
        EventsWithout(s.pending, i, id);
      }
      assert forall e :: e in r.pending ==> e in s.pending;
    }
  }

  lemma {:induction false} UnlinkDelivers(s: State, id: Id)
    requires Inv(s) && Delivers(s)
    ensures Delivers(Unlink(s, id))
  {
    hide EventsOf, Counted, Locked;
    DropExact(s.registry, id);
  }

  lemma {:induction false} StepDelivers(s: State, st: Step)
    requires Inv(s) && Delivers(s) && Enabled(s, st)
    ensures Delivers(Next(s, st))
  {
    hide Inv, EventsOf;
    match st
    case Register(t, w, relative) => RegisterDelivers(s, t, w, relative);
    case Append(t) => AppendDelivers(s, t);
    case Drain(t) => DrainDelivers(s, t);
    case Discard(t) => DiscardDelivers(s, t);
    case Unwatch(t, id) => UnlinkDelivers(s, id);
    case Sweep(t) => UnlinkDelivers(s, s.registry[s.pcs[t].i]);
    case _ =>
  }

  lemma {:induction false} RunDelivers(s: State, steps: seq<Step>, r: State)
    requires Inv(s) && Delivers(s) && Runs(s, steps, r)
    ensures Delivers(r)
    decreases |steps|
  {
    hide Inv, Enabled, Next, Delivers;
    if steps != [] {
      NextKeeps(s, steps[0]);
      StepDelivers(s, steps[0]);
      RunDelivers(Next(s, steps[0]), steps[1..], r);
    }
  }

  // ---------- What the guest is sent ----------

  /** The largest payload a message may have (XENSTORE_PAYLOAD_MAX). */
  const PAYLOAD_MAX := 4096

  /**
   The text of an event: its path and the token, each with a NUL. For a watch set with a relative path
   the domain's own directory is cut off; the event paths of such a watch all lie in it.
   */
  function Text(f: Fired): (s: string) {
    var path, home := f.event.path, |Join(Home(f.watch.dom))| + 1;
    (if f.relative && home <= |path| then path[home..] else path) + ['\0'] + f.watch.token + ['\0']
  }

  /** What send_reply_sz queues: the event, or an error without a request. */
  datatype Answer = WatchEvent(text: string) | TooBig

  function Answered(f: Fired): (a: Answer) {
    if |Text(f)| > PAYLOAD_MAX then TooBig else WatchEvent(Text(f))
  }

  /** The events the guest is sent. */
  function Sent(fs: seq<Fired>): (es: seq<Event>) {
    if fs == [] then [] else (if Answered(fs[0]).TooBig? then [] else [fs[0].event]) + Sent(fs[1..])
  }

  ghost predicate AllFit(fs: seq<Fired>, id: Id) {
    forall f :: f in fs && f.event.id == id ==> |Text(f)| <= PAYLOAD_MAX
  }

  /** No event of a watch is missing among those sent exactly if each of its texts is within the limit. */
  lemma {:induction false} SentExact(fs: seq<Fired>, id: Id)
    ensures |EventsOf(Sent(fs), id)| <= |EventsOf(Done(fs), id)|
    ensures EventsOf(Sent(fs), id) == EventsOf(Done(fs), id) <==> AllFit(fs, id)
    decreases |fs|
  {
    hide Text, EventsOf, AllFit;
    AllFitStep(fs, id);
    if fs != [] {
      SentExact(fs[1..], id);
      var sent, done := Sent(fs[1..]), Done(fs[1..]);
      EventsCons(fs[0].event, sent, id);
      EventsCons(fs[0].event, done, id);
      assert [] + sent == sent && [] + EventsOf(sent, id) == EventsOf(sent, id);
      assert [] + EventsOf(done, id) == EventsOf(done, id);
      var e := fs[0].event;
      assert ([e] + EventsOf(sent, id))[1..] == EventsOf(sent, id);
      assert ([e] + EventsOf(done, id))[1..] == EventsOf(done, id);
    }
  }

  lemma {:induction false} EventsCons(e: Event, es: seq<Event>, id: Id)
    ensures EventsOf([e] + es, id) == (if e.id == id then [e] else []) + EventsOf(es, id)
  {
    assert ([e] + es)[1..] == es;
  }

  lemma {:induction false} AllFitStep(fs: seq<Fired>, id: Id)
    ensures AllFit(fs, id) <==>
      fs == [] || ((fs[0].event.id == id ==> |Text(fs[0])| <= PAYLOAD_MAX) && AllFit(fs[1..], id))
  {
    hide Text;
    if fs != [] { assert forall f :: f in fs <==> f == fs[0] || f in fs[1..]; }
  }

  /**
   In every reachable state the events ever queued for a registered watch are those taken out, in
   order, followed by those pending. Each one taken out is sent, or dropped for an error exactly if its
   text exceeds the payload limit; so none is lost if and only if all texts are within it.
   */
  lemma {:induction false} DeliveryExact(n: nat, steps: seq<Step>, s: State, id: Id)
    requires Runs(Init(n), steps, s) && id in s.registry
    ensures EventsOf(s.queued, id) == EventsOf(Done(s.fired), id) + EventsOf(s.pending, id)
    ensures id in s.heap && forall f :: f in s.fired && f.event.id == id ==> f.watch == s.heap[id].watch
    ensures EventsOf(s.queued, id) == EventsOf(Sent(s.fired), id) + EventsOf(s.pending, id) <==> AllFit(s.fired, id)
  {
    hide Runs, EventsOf, Done, Sent, AllFit;
    InitHolds(n);
    InitDelivers(n);
    RunKeeps(Init(n), steps, s);
    RunDelivers(Init(n), steps, s);
    UsedAlive(s);
    forall f | f in s.fired && f.event.id == id ensures f.watch == s.heap[id].watch { assert SameWatch(s, f); }
    SentExact(s.fired, id);
    SameFront(EventsOf(Done(s.fired), id), EventsOf(Sent(s.fired), id), EventsOf(s.pending, id));
  }

  lemma {:induction false} InitDelivers(n: nat)
    ensures Delivers(Init(n))
  {
  }

  lemma {:induction false} SameFront<T>(a: seq<T>, b: seq<T>, z: seq<T>)
    ensures a + z == b + z <==> a == b
  {
    if a + z == b + z { assert |a| == |b| && a == (a + z)[..|a|] && b == (b + z)[..|b|]; }
  }

  // ---------- A watch that hears nothing ----------

  /** A watch on the root whose token leaves no room: the request fits one message, but no event below the root does. */
  lemma {:induction false} LongTokenDeaf(w: Watch, f: Fired)
    requires w.key == "/" && |w.token| == 4093 && f.watch == w && !f.relative && |f.event.path| >= 2
    ensures |w.key + ['\0'] + w.token + ['\0']| <= PAYLOAD_MAX && Answered(f) == TooBig
  {
  }

  /** The steps of one thread that sets the watch, hears of a change at `path` and takes its event out. */
  function LostSteps(w: Watch, path: string): seq<Step> {
    [Register(0, w, false), Skip(0), BeginScan(0), Announce(0, path), Append(0), EndScan(0), BeginDrain(0),
     LockPending(0), Drain(0)]
  }

  lemma {:induction false} RunsJoin(s: State, a: seq<Step>, m: State, b: seq<Step>, r: State)
    requires Runs(s, a, m) && Runs(m, b, r)
    ensures Runs(s, a + b, r)
    decreases |a|
  {
    hide Enabled, Next;
    if a == [] {
      assert a + b == b;
    } else {
      assert (a + b)[1..] == a[1..] + b;
      RunsJoin(Next(s, a[0]), a[1..], m, b, r);
    }
  }

  lemma {:induction false} RunsThree(s: State, x: Step, s1: State, y: Step, s2: State, z: Step, s3: State)
    requires Enabled(s, x) && Next(s, x) == s1 && Enabled(s1, y) && Next(s1, y) == s2
    requires Enabled(s2, z) && Next(s2, z) == s3
    ensures Runs(s, [x, y, z], s3)
  {
    hide Enabled, Next;
    assert [x, y, z][1..] == [y, z] && [y, z][1..] == [z] && [z][1..] == [];
    assert Runs(s3, [], s3);
    assert Runs(s2, [z], s3);
    assert Runs(s1, [y, z], s3);
  }

  /** Scanning the registry, with the watch in it. */
  function Scanning(w: Watch): State {
    State(map[0 := Obj(w, false, 1)], [0], [], [], [], 1, Some(0), None, [Scan(0)])
  }

  /** The event is in the list. */
  function Listed(w: Watch, path: string): State {
    var ev := Event(0, path);
    State(map[0 := Obj(w, false, 2)], [0], [ev], [ev], [], 1, None, None, [Idle])
  }

  lemma {:induction false} LostStart(w: Watch)
    requires w.dom == 0
    ensures Runs(Init(1), [Register(0, w, false), Skip(0), BeginScan(0)], Scanning(w))
  {
    hide Runs;
    assert Init(1).pcs == [Idle];
    var s1 := State(map[0 := Obj(w, false, 1)], [0], [], [], [], 1, None, None, [Watched(0)]);
    RunsThree(Init(1), Register(0, w, false), s1, Skip(0), s1.(pcs := [Idle]), BeginScan(0), Scanning(w));
  }

  lemma {:induction false} LostQueued(w: Watch, path: string)
    ensures Runs(Scanning(w), [Announce(0, path), Append(0), EndScan(0)], Listed(w, path))
  {
    hide Runs;
    var s1 := Scanning(w).(pcs := [Queueing(0, path, Some(1))], heap := map[0 := Obj(w, false, 2)]);
    var ev := Event(0, path);
    RunsThree(Scanning(w), Announce(0, path), s1, Append(0), s1.(pcs := [Scan(1)], pending := [ev], queued := [ev]),
      EndScan(0), Listed(w, path));
  }

  lemma {:induction false} LostTaken(w: Watch, path: string) returns (s: State)
    requires w.dom == 0
    ensures Runs(Listed(w, path), [BeginDrain(0), LockPending(0), Drain(0)], s)
    ensures s.registry == [0] && s.queued == [Event(0, path)] && s.pending == []
    ensures s.fired == [Fired(Event(0, path), w, false)]
  {
    hide Runs;
    var s1 := Listed(w, path).(pcs := [WantPending], wel := Some(0));
    var s2 := s1.(pcs := [Draining(0)], pfl := Some(0));
    s := s2.(pending := [], heap := map[0 := Obj(w, false, 1)], fired := [Fired(Event(0, path), w, false)]);
    RunsThree(Listed(w, path), BeginDrain(0), s1, LockPending(0), s2, Drain(0), s);
  }

  /** And a run in which its event is queued, the watch is registered all along, and nothing is sent. */
  lemma {:induction false} LostEvent(w: Watch, path: string) returns (s: State)
    requires w.dom == 0 && w.key == "/" && |w.token| == 4093 && |path| >= 2
    ensures Runs(Init(1), LostSteps(w, path), s) && s.registry == [0] && s.queued == [Event(0, path)]
    ensures s.pending == [] && Sent(s.fired) == [] && |s.fired| == 1 && Answered(s.fired[0]) == TooBig
  {
    hide Runs, Text, Init, Scanning, Listed, Answered;
    LostStart(w);
    LostQueued(w, path);
    s := LostTaken(w, path);
    var a, b := [Register(0, w, false), Skip(0), BeginScan(0)], [Announce(0, path), Append(0), EndScan(0)];
    var c := [BeginDrain(0), LockPending(0), Drain(0)];
    RunsJoin(Scanning(w), b, Listed(w, path), c, s);
    RunsJoin(Init(1), a, Scanning(w), b + c, s);
    assert LostSteps(w, path) == a + (b + c);
    LongTokenDeaf(w, s.fired[0]);
    assert s.fired[1..] == [];
  }
}
