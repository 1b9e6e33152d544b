/**
 The request direction of a XenStore connection, step by step: the client copies and publishes, the
 server's handle_input copies, releases and takes the bytes of each of its ring reads, and either
 side may act between any two steps of the other.
 */
module XsSession {
  import opened Bytes
  import opened Rings
  import opened RingLine
  import opened XsTransport

  /** The ring with both ends, and what the server made of the bytes; `more` while a call has a read to come. */
  datatype Session = Session(line: Line, st: Input, more: bool, done: seq<Msg>)

  /** A call of handle_input starts only when there is something to read (can_read); its second read always follows. */
  predicate Allowed(x: Session, a: Step) {
    && Can(x.line, a)
    && match a
       case BeginWrite(_, split) => !split
       case BeginRead(size, split) => !split && size == Want(x.st)
         && (x.more || Fill(x.line.chan.prod, x.line.chan.cons) > 0)
       case _ => true
  }

  function Absorb(x: Session, l: Line, bytes: seq<byte>): (y: Session) {
    var f := Feed(x.st, bytes);
    Session(l, f.st, f.more, x.done + f.out)
  }

  function Next(x: Session, a: Step): (y: Session)
    requires RingSize(|x.line.chan.buf|) && Allowed(x, a)
    ensures |y.line.chan.buf| == |x.line.chan.buf|
  {
    var l := Do(x.line, a);
    match a
    case BeginRead(_, _) => if l.reader.Waiting? then Absorb(x, l, []) else x.(line := l)
    case EndRead => Absorb(x, l, x.line.chan.taken)
    case _ => x.(line := l)
  }

  /** The client offers the next bytes of the stream of `ms`, as many as it likes. */
  ghost predicate Follows(x: Session, a: Step, ms: seq<Msg>)
    requires AllSized(ms)
  {
    a.BeginWrite? ==> x.line.chan.sent + a.data <= EncodeAll(ms)
  }

  ghost predicate Plays(x: Session, acts: seq<Step>, ms: seq<Msg>, y: Session)
    requires RingSize(|x.line.chan.buf|) && AllSized(ms)
    decreases |acts|
  {
    if acts == [] then y == x
    else Allowed(x, acts[0]) && Follows(x, acts[0], ms) && Plays(Next(x, acts[0]), acts[1..], ms, y)
  }

  /** Nothing sent yet, from any common index. */
  function Start(buf: seq<byte>, start: u32): Session {
    Session(Fresh(buf, start), Idle, false, [])
  }

  // ---------- What every step keeps ----------

  /** The bytes a write under way has still to copy. */
  function Pending(w: Writer): seq<byte> {
    match w
    case First(_, a, b) => a + b
    case Second(b) => b
    case _ => []
  }

  /** A read under way takes no more than was asked for. */
  predicate Fits(r: Reader, taken: nat, want: nat) {
    match r
    case Waiting => true
    case FirstPart(_, n, m) => taken + n + m <= want
    case SecondPart(m) => taken + m <= want
    case Releasing => taken <= want
  }

  ghost predicate InStep(x: Session, ms: seq<Msg>) {
    var c := x.line.chan;
    && AllSized(ms) && Good(x.line) && |c.buf| == RING_SIZE
    && c.sent + (c.wrote + Pending(x.line.writer)) <= EncodeAll(ms)
    && Framed(ms, x.done, x.st, c.got, x.more) && Fits(x.line.reader, |c.taken|, Want(x.st))
  }

  lemma {:induction false} Flows(c: Chan, w: Writer, all: seq<byte>)
    requires Sane(c) && c.sent + (c.wrote + Pending(w)) <= all
    ensures c.sent <= all && c.got <= all && c.got + c.taken <= all
  {
    hide Slots, Pending, Fill;
    var z := c.sent + (c.wrote + Pending(w));
    assert c.sent == z[..|c.sent|] == all[..|c.sent|];
    assert c.got + c.taken == c.sent[..|c.got| + |c.taken|];
  }

  lemma {:induction false} Planned(c: Chan, data: seq<byte>)
    requires RingSize(|c.buf|)
    ensures Pending(PlanWrite(c, data, false)) <= data
  {
    hide Fill;
    var w := PlanWrite(c, data, false);
    if w.First? { assert w.a + w.b == data[..|w.a| + |w.b|]; }
  }

  lemma {:induction false} WriteInStep(x: Session, a: Step, ms: seq<Msg>)
    requires InStep(x, ms) && Allowed(x, a) && Follows(x, a, ms)
    requires a.BeginWrite? || a.WriteFirst? || a.WriteSecond? || a.EndWrite?
    ensures InStep(Next(x, a), ms)
  {
    hide EncodeAll, Framed, Want, Slots, Fill, Poke, Wrap, Sane, PlanWrite;
    DoGood(x.line, a);
    var c, w := x.line.chan, x.line.writer;
    match a
    case BeginWrite(data, _) =>
      Planned(c, data);
      var v := Pending(PlanWrite(c, data, false));
      assert c.sent + ([] + v) == (c.sent + data)[..|c.sent| + |v|];
    case WriteFirst => assert c.wrote + (w.a + w.b) == (c.wrote + w.a) + w.b;
    case WriteSecond => assert c.wrote + w.b == (c.wrote + w.b) + [];
    case EndWrite => assert c.sent + (c.wrote + []) == (c.sent + c.wrote) + ([] + []);
  }

  lemma {:induction false} ReadInStep(x: Session, a: Step, ms: seq<Msg>)
    requires InStep(x, ms) && Allowed(x, a) && !a.EndRead?
    requires a.BeginRead? || a.ReadFirst? || a.ReadSecond?
    ensures InStep(Next(x, a), ms)
  {
    hide EncodeAll, Framed, Feed, Slots, Fill, Wrap, Sane, Pending, Want;
    DoGood(x.line, a);
    var c := x.line.chan;
    if a.BeginRead? {
      Flows(c, x.line.writer, EncodeAll(ms));
      FeedFrames(ms, x.done, x.st, c.got, x.more, []);
      assert c.got + [] == c.got;
    }
  }

  lemma {:induction false} EndInStep(x: Session, ms: seq<Msg>)
    requires InStep(x, ms) && Allowed(x, EndRead)
    ensures InStep(Next(x, EndRead), ms)
  {
    hide EncodeAll, Framed, Feed, Slots, Fill, Wrap, Sane, Pending, Want;
    DoGood(x.line, EndRead);
    var c := x.line.chan;
    Flows(c, x.line.writer, EncodeAll(ms));
    FeedFrames(ms, x.done, x.st, c.got, x.more, c.taken);
  }

  /** Every step of either side keeps the server in the stream. */
  lemma {:induction false} NextInStep(x: Session, a: Step, ms: seq<Msg>)
    requires InStep(x, ms) && Allowed(x, a) && Follows(x, a, ms)
    ensures InStep(Next(x, a), ms)
  {
    hide InStep, Allowed, Next;
    match a
    case BeginWrite(_, _) => WriteInStep(x, a, ms);
    case WriteFirst => WriteInStep(x, a, ms);
    case WriteSecond => WriteInStep(x, a, ms);
    case EndWrite => WriteInStep(x, a, ms);
    case BeginRead(_, _) => ReadInStep(x, a, ms);
    case ReadFirst => ReadInStep(x, a, ms);
    case ReadSecond => ReadInStep(x, a, ms);
    case EndRead => EndInStep(x, ms);
  }

  lemma {:induction false} GotGrows(x: Session, a: Step)
    requires RingSize(|x.line.chan.buf|) && Allowed(x, a)
    ensures |x.line.chan.got| <= |Next(x, a).line.chan.got|
  {
    hide Feed, Fill, Poke, Wrap, PlanRead, PlanWrite;
  }

  lemma {:induction false} PlayInStep(x: Session, acts: seq<Step>, ms: seq<Msg>, y: Session)
    requires InStep(x, ms) && Plays(x, acts, ms, y)
    ensures InStep(y, ms) && |x.line.chan.got| <= |y.line.chan.got|
    decreases |acts|
  {
    hide Good, Allowed, Follows, Framed, Fits, EncodeAll, Next;
    if acts != [] {
      NextInStep(x, acts[0], ms);
      GotGrows(x, acts[0]);
      PlayInStep(Next(x, acts[0]), acts[1..], ms, y);
    }
  }

  lemma {:induction false} StartsInStep(buf: seq<byte>, start: u32, ms: seq<Msg>)
    requires |buf| == RING_SIZE && AllSized(ms)
    ensures InStep(Start(buf, start), ms)
  {
    EmptySane(buf, start);
    assert ms[..0] == [];
  }

  // ---------- Whole runs ----------

  /**
   Every interleaving, copy by copy, of a client that sends the stream of `ms` in pieces of any size
   and a server that reads it: what is handled is a prefix of what was sent, in order and without a
   message of unknown type; between two calls it is every message wholly read up to the first such
   one; and behind that one no byte is ever read.
   */
  lemma {:induction false} RequestsExact(buf: seq<byte>, start: u32, acts: seq<Step>, ms: seq<Msg>, y: Session)
    requires |buf| == RING_SIZE && AllSized(ms) && Plays(Start(buf, start), acts, ms, y)
    ensures var c := y.line.chan;
      && y.done <= ms[..FirstUnknown(ms)] && c.got <= c.sent <= EncodeAll(ms) && |c.sent| - |c.got| <= RING_SIZE
      && |c.got| <= |EncodeAll(ms[..Reach(ms)])|
      && (!y.more ==> forall k :: 0 <= k <= FirstUnknown(ms) ==> (k <= |y.done| <==> |EncodeAll(ms[..k])| <= |c.got|))
  {
    hide Plays, EncodeAll, Framed, Fits, Slots, Fill, Wrap, FirstUnknown, Reach;
    StartsInStep(buf, start, ms);
    PlayInStep(Start(buf, start), acts, ms, y);
    Flows(y.line.chan, y.line.writer, EncodeAll(ms));
    Whole(y, ms);
  }

  lemma {:induction false} Whole(y: Session, ms: seq<Msg>)
    requires InStep(y, ms) && y.line.chan.got <= EncodeAll(ms)
    ensures y.done <= ms[..FirstUnknown(ms)] && |y.line.chan.got| <= |EncodeAll(ms[..Reach(ms)])|
    ensures !y.more ==>
      forall k :: 0 <= k <= FirstUnknown(ms) ==> (k <= |y.done| <==> |EncodeAll(ms[..k])| <= |y.line.chan.got|)
  {
    hide Good, EncodeAll, Fits, FirstUnknown, Reach;
    FramedExact(ms, y.done, y.st, y.line.chan.got, y.more);
  }

  /** A message of unknown type is never let go: once it is read, nothing is read or handled any more. */
  lemma {:induction false} UnknownTypeSticks(x: Session, acts: seq<Step>, ms: seq<Msg>, y: Session)
    requires InStep(x, ms) && Plays(x, acts, ms, y)
    requires FirstUnknown(ms) < |ms| && |x.line.chan.got| == |EncodeAll(ms[..Reach(ms)])|
    ensures y.done == x.done == ms[..FirstUnknown(ms)] && |y.line.chan.got| == |x.line.chan.got|
  {
    hide Plays, EncodeAll, Fits, Slots, Fill, FirstUnknown, Reach;
    PlayInStep(x, acts, ms, y);
    Flows(x.line.chan, x.line.writer, EncodeAll(ms));
    Flows(y.line.chan, y.line.writer, EncodeAll(ms));
    FramedExact(ms, x.done, x.st, x.line.chan.got, x.more);
    FramedExact(ms, y.done, y.st, y.line.chan.got, y.more);
  }

  // ---------- How far a run can get ----------

  /** A state some run of the stream leads to. */
  ghost predicate Reached(buf: seq<byte>, start: u32, ms: seq<Msg>, x: Session)
    requires |buf| == RING_SIZE && AllSized(ms)
  {
    exists acts :: Plays(Start(buf, start), acts, ms, x)
  }

  lemma {:induction false} PlayOn(x: Session, acts: seq<Step>, ms: seq<Msg>, y: Session, a: Step)
    requires RingSize(|x.line.chan.buf|) && AllSized(ms) && Plays(x, acts, ms, y)
    requires |y.line.chan.buf| == |x.line.chan.buf| && Allowed(y, a) && Follows(y, a, ms)
    ensures Plays(x, acts + [a], ms, Next(y, a))
    decreases |acts|
  {
    hide Allowed, Follows, Next;
    if acts == [] {
      assert ([] + [a])[1..] == [];
    } else {
      PlayOn(Next(x, acts[0]), acts[1..], ms, y, a);
      assert (acts + [a])[1..] == acts[1..] + [a];
    }
  }

  lemma {:induction false} ReachedInStep(buf: seq<byte>, start: u32, ms: seq<Msg>, x: Session)
    requires |buf| == RING_SIZE && AllSized(ms) && Reached(buf, start, ms, x)
    ensures InStep(x, ms)
  {
    hide Plays, InStep;
    StartsInStep(buf, start, ms);
    var acts :| Plays(Start(buf, start), acts, ms, x);
    PlayInStep(Start(buf, start), acts, ms, x);
  }

  lemma {:induction false} ReachNext(buf: seq<byte>, start: u32, ms: seq<Msg>, x: Session, a: Step)
    requires |buf| == RING_SIZE && AllSized(ms) && Reached(buf, start, ms, x) && InStep(x, ms)
    requires Allowed(x, a) && Follows(x, a, ms)
    ensures Reached(buf, start, ms, Next(x, a)) && InStep(Next(x, a), ms)
  {
    hide Plays, Allowed, Follows, Next, Good, Framed, Fits;
    NextInStep(x, a, ms);
    var acts :| Plays(Start(buf, start), acts, ms, x);
    PlayOn(Start(buf, start), acts, ms, x, a);
  }

  /** Both ends at rest between two calls, with so many bytes in the ring. */
  predicate Quiet(x: Session, held: nat) {
    x.line.writer.Resting? && x.line.reader.Waiting? && !x.more && Fill(x.line.chan.prod, x.line.chan.cons) == held
  }

  /** The client can send one more byte. */
  lemma {:induction false} SendByte(buf: seq<byte>, start: u32, ms: seq<Msg>, x: Session) returns (y: Session)
    requires |buf| == RING_SIZE && AllSized(ms) && Reached(buf, start, ms, x) && InStep(x, ms)
    requires Quiet(x, 0) && |x.line.chan.got| < |EncodeAll(ms)|
    ensures Reached(buf, start, ms, y) && InStep(y, ms) && Quiet(y, 1)
    ensures y.st == x.st && y.line.chan.got == x.line.chan.got
  {
    hide Reached, Framed, Fits, EncodeAll, Want, Slots, Poke, Wrap, Fill;
    var c := x.line.chan;
    var data := [EncodeAll(ms)[|c.sent|]];
    var a := BeginWrite(data, false);
    assert c.sent + data == EncodeAll(ms)[..|c.sent| + 1] by { Flows(c, x.line.writer, EncodeAll(ms)); }
    ReachNext(buf, start, ms, x, a);
    var x1 := Next(x, a);
    ReachNext(buf, start, ms, x1, WriteFirst);
    var x2 := Next(x1, WriteFirst);
    ReachNext(buf, start, ms, x2, WriteSecond);
    var x3 := Next(x2, WriteSecond);
    ReachNext(buf, start, ms, x3, EndWrite);
    y := Next(x3, EndWrite);
  }

  /** The server can read it. */
  lemma {:induction false} TakeByte(buf: seq<byte>, start: u32, ms: seq<Msg>, x: Session) returns (y: Session)
    requires |buf| == RING_SIZE && AllSized(ms) && Reached(buf, start, ms, x) && InStep(x, ms)
    requires Quiet(x, 1) && Want(x.st) > 0
    ensures Reached(buf, start, ms, y) && InStep(y, ms) && Quiet(y.(more := false), 0)
    ensures |y.line.chan.got| == |x.line.chan.got| + 1
  {
    hide Reached, Framed, Fits, EncodeAll, Want, Slots, Wrap, Fill, Feed, Pending;
    var a := BeginRead(Want(x.st), false);
    ReachNext(buf, start, ms, x, a);
    var x1 := Next(x, a);
    ReachNext(buf, start, ms, x1, ReadFirst);
    var x2 := Next(x1, ReadFirst);
    ReachNext(buf, start, ms, x2, ReadSecond);
    var x3 := Next(x2, ReadSecond);
    ReachNext(buf, start, ms, x3, EndRead);
    y := Next(x3, EndRead);
  }

  /** The second read of the call may find the ring empty. */
  lemma {:induction false} Settle(buf: seq<byte>, start: u32, ms: seq<Msg>, x: Session) returns (y: Session)
    requires |buf| == RING_SIZE && AllSized(ms) && Reached(buf, start, ms, x) && InStep(x, ms)
    requires Quiet(x.(more := false), 0)
    ensures Reached(buf, start, ms, y) && InStep(y, ms) && Quiet(y, 0) && y.line.chan.got == x.line.chan.got
  {
    hide Reached, Fits, EncodeAll, Want, Slots, Wrap, Fill, Pending, LeWord, Good, Decode;
    y := x;
    if x.more {
      var a := BeginRead(Want(x.st), false);
      ReachNext(buf, start, ms, x, a);
      y := Next(x, a);
    }
  }

  lemma {:induction false} PlayNone(x: Session, ms: seq<Msg>)
    requires RingSize(|x.line.chan.buf|) && AllSized(ms)
    ensures Plays(x, [], ms, x)
  {
  }

  /** Some run reads any number of bytes up to the end of the first message of unknown type. */
  lemma {:induction false} ReadsSoMany(buf: seq<byte>, start: u32, ms: seq<Msg>, n: nat) returns (y: Session)
    requires |buf| == RING_SIZE && AllSized(ms) && n <= |EncodeAll(ms[..Reach(ms)])|
    ensures Reached(buf, start, ms, y) && InStep(y, ms) && Quiet(y, 0) && |y.line.chan.got| == n
    decreases n
  {
    hide Plays, InStep, EncodeAll, Reach, FirstUnknown;
    if n == 0 {
      y := Start(buf, start);
      StartsInStep(buf, start, ms);
      PlayNone(y, ms);
    } else {
      var x := ReadsSoMany(buf, start, ms, n - 1);
      Hungry(x, ms);
      var x1 := SendByte(buf, start, ms, x);
      var x2 := TakeByte(buf, start, ms, x1);
      y := Settle(buf, start, ms, x2);
    }
  }

  lemma {:induction false} Hungry(x: Session, ms: seq<Msg>)
    requires InStep(x, ms) && !x.more && |x.line.chan.got| < |EncodeAll(ms[..Reach(ms)])|
    ensures Want(x.st) > 0 && |x.line.chan.got| < |EncodeAll(ms)|
  {
    hide EncodeAll, Fits, Slots, Fill, Want, Reach, FirstUnknown;
    Flows(x.line.chan, x.line.writer, EncodeAll(ms));
    FramedExact(ms, x.done, x.st, x.line.chan.got, x.more);
    EncodeGrows(ms, Reach(ms), |ms|);
    assert ms[..|ms|] == ms;
  }

  lemma {:induction false} DoneKnown(y: Session, ms: seq<Msg>)
    requires InStep(y, ms)
    ensures AllKnown(y.done)
  {
    hide Good, EncodeAll, Fits;
  }

  /** Between two calls, with the bytes of `k` messages read, these are handled. */
  lemma {:induction false} Counts(y: Session, ms: seq<Msg>, k: nat)
    requires InStep(y, ms) && !y.more && k <= FirstUnknown(ms) && |y.line.chan.got| == |EncodeAll(ms[..k])|
    ensures y.done == ms[..k]
  {
    hide EncodeAll, Fits, Slots, Fill, FirstUnknown, Reach;
    Flows(y.line.chan, y.line.writer, EncodeAll(ms));
    FramedExact(ms, y.done, y.st, y.line.chan.got, y.more);
    EncodeGrows(ms, k, |y.done|);
  }

  /** A run reaches the state where a message of unknown type is stuck. */
  lemma {:induction false} UnknownTypeReached(buf: seq<byte>, start: u32, ms: seq<Msg>)
    requires |buf| == RING_SIZE && AllSized(ms) && FirstUnknown(ms) < |ms|
    ensures exists x :: Reached(buf, start, ms, x) && InStep(x, ms) && |x.line.chan.got| == |EncodeAll(ms[..Reach(ms)])|
  {
    hide Reached, InStep, EncodeAll, FirstUnknown, Reach;
    var x := ReadsSoMany(buf, start, ms, |EncodeAll(ms[..Reach(ms)])|);
  }

  /** The server can handle the first `k` messages, and no others, exactly when each of them is of a known type. */
  lemma {:induction false} HandledExactly(buf: seq<byte>, start: u32, ms: seq<Msg>, k: nat)
    requires |buf| == RING_SIZE && AllSized(ms) && k <= |ms|
    ensures (exists y :: Reached(buf, start, ms, y) && y.done == ms[..k]) <==> AllKnown(ms[..k])
  {
    hide Reached, InStep, EncodeAll, FirstUnknown;
    FirstUnknownExact(ms);
    var f := FirstUnknown(ms);
    if AllKnown(ms[..k]) {
      KnownPrefix(ms, k);
      EncodeGrows(ms, k, Reach(ms));
      var y := ReadsSoMany(buf, start, ms, |EncodeAll(ms[..k])|);
      Counts(y, ms, k);
    }
    if y :| Reached(buf, start, ms, y) && y.done == ms[..k] {
      ReachedInStep(buf, start, ms, y);
      DoneKnown(y, ms);
    }
  }
}
