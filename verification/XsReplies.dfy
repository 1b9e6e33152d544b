/**
 The reply direction of a XenStore connection, step by step: the server queues buffers and its
 handle_output copies and publishes from the head of the queue, the client reads as it likes.
 */
module XsReplies {
  import opened Bytes
  import opened Rings
  import opened RingLine
  import opened XsTransport
  import opened XsLink
  import opened XsSession

  /** The ring with both ends, the queue, and all that was ever put into it. */
  datatype Outbox = Outbox(line: Line, q: seq<Buffered>, queued: seq<byte>)

  datatype Act = Queue(bytes: seq<byte>) | OnRing(a: Step)

  /** A call of handle_output starts only when the queue and the ring allow (can_write), with the rest of the head. */
  predicate Open(s: Outbox, act: Act) {
    match act
    case Queue(_) => true
    case OnRing(a) =>
      && Can(s.line, a)
      && match a
         case BeginWrite(data, split) =>
           !split && s.q != [] && data == Rest(s.q) && Fill(s.line.chan.prod, s.line.chan.cons) < RING_SIZE
         case BeginRead(_, split) => !split
         case _ => true
  }

  function Go(s: Outbox, act: Act): (r: Outbox)
    requires RingSize(|s.line.chan.buf|) && Open(s, act)
    ensures |r.line.chan.buf| == |s.line.chan.buf|
  {
    match act
    case Queue(bytes) => s.(q := s.q + [Buffered(bytes, 0)], queued := s.queued + bytes)
    case OnRing(a) =>
      s.(line := Do(s.line, a), q := if a.EndWrite? then Advance(s.q, |s.line.chan.wrote|) else s.q)
  }

  predicate Goes(s: Outbox, acts: seq<Act>, r: Outbox)
    requires RingSize(|s.line.chan.buf|)
    decreases |acts|
  {
    if acts == [] then r == s else Open(s, acts[0]) && Goes(Go(s, acts[0]), acts[1..], r)
  }

  /** Nothing queued yet, from any common index. */
  function Quiescent(buf: seq<byte>, start: u32): Outbox { Outbox(Fresh(buf, start), [], []) }

  /** No byte is lost or repeated between the queue and the ring, also while a write is under way. */
  ghost predicate Steady(s: Outbox) {
    var c := s.line.chan;
    && Good(s.line) && |c.buf| == RING_SIZE && c.sent + Left(s.q) == s.queued
    && (!s.line.writer.Resting? ==> s.q != [] && c.wrote + Pending(s.line.writer) <= Rest(s.q))
  }

  lemma {:induction false} QueueSteady(s: Outbox, bytes: seq<byte>)
    requires Steady(s)
    ensures Steady(Go(s, Queue(bytes)))
  {
    hide Good, Left, Rest, Pending;
    LeftSnoc(s.q, bytes);
    var c := s.line.chan;
    assert c.sent + (Left(s.q) + bytes) == (c.sent + Left(s.q)) + bytes;
  }

  lemma {:induction false} PublishSteady(s: Outbox)
    requires Steady(s) && Open(s, OnRing(EndWrite))
    ensures Steady(Go(s, OnRing(EndWrite)))
  {
    hide Left, Rest, Slots, Fill, Wrap, Sane, Advance;
    DoGood(s.line, EndWrite);
    var c := s.line.chan;
    assert c.wrote + [] == c.wrote;
    AdvanceLeft(s.q, |c.wrote|);
    assert Rest(s.q)[..|c.wrote|] == c.wrote;
    assert (c.sent + c.wrote) + Left(Advance(s.q, |c.wrote|)) == c.sent + (c.wrote + Left(Advance(s.q, |c.wrote|)));
  }

  lemma {:induction false} RingSteady(s: Outbox, a: Step)
    requires Steady(s) && Open(s, OnRing(a)) && !a.EndWrite?
    ensures Steady(Go(s, OnRing(a)))
  {
    hide Left, Rest, Slots, Fill, Wrap, Sane, Poke, PlanWrite, PlanRead;
    DoGood(s.line, a);
    var c, w := s.line.chan, s.line.writer;
    match a
    case BeginWrite(data, _) =>
      Planned(c, data);
      var v := Pending(PlanWrite(c, data, false));
      assert [] + v == v;
    case WriteFirst => assert c.wrote + (w.a + w.b) == (c.wrote + w.a) + w.b;
    case WriteSecond => assert c.wrote + w.b == (c.wrote + w.b) + [];
    case _ =>
  }

  lemma {:induction false} GoesSteady(s: Outbox, acts: seq<Act>, r: Outbox)
    requires Steady(s) && Goes(s, acts, r)
    ensures Steady(r)
    decreases |acts|
  {
    hide Good, Left, Rest, Open, Go;
    if acts != [] {
      match acts[0] {
        case Queue(bytes) => QueueSteady(s, bytes);
        case OnRing(a) => if a.EndWrite? { PublishSteady(s); } else { RingSteady(s, a); }
      }
      GoesSteady(Go(s, acts[0]), acts[1..], r);
    }
  }

  /**
   Every interleaving, copy by copy, from an empty queue and ring: the client reads a prefix of the
   concatenated buffers, what it has not read is in the ring and then in the queue, and with both
   empty it has read everything.
   */
  lemma {:induction false} RepliesExact(buf: seq<byte>, start: u32, acts: seq<Act>, r: Outbox)
    requires |buf| == RING_SIZE && Goes(Quiescent(buf, start), acts, r)
    ensures var c := r.line.chan;
      && |c.buf| == RING_SIZE && c.got <= c.sent <= r.queued && Fill(c.prod, c.cons) <= RING_SIZE
      && r.queued == c.got + Slots(c.buf, c.cons, Fill(c.prod, c.cons)) + Left(r.q)
      && (r.q == [] && c.prod == c.cons ==> c.got == r.queued)
  {
    hide Goes, Slots, Left;
    EmptySane(buf, start);
    NothingLeft();
    GoesSteady(Quiescent(buf, start), acts, r);
    Accounted(r);
  }

  lemma {:induction false} Accounted(r: Outbox)
    requires Steady(r)
    ensures var c := r.line.chan;
      && |c.buf| == RING_SIZE && c.got <= c.sent <= r.queued && Fill(c.prod, c.cons) <= RING_SIZE
      && r.queued == c.got + Slots(c.buf, c.cons, Fill(c.prod, c.cons)) + Left(r.q)
      && (r.q == [] && c.prod == c.cons ==> c.got == r.queued)
  {
    hide Slots, Left, WriterOk, ReaderOk;
    var c := r.line.chan;
    SlotsSplit(c.buf, c.cons, Held(c), Fill(c.prod, c.cons));
    assert (c.sent[|c.got|..] + c.wrote)[..Fill(c.prod, c.cons)] == c.sent[|c.got|..];
    assert c.sent == c.got + c.sent[|c.got|..];
    assert c.sent == r.queued[..|c.sent|];
    NothingLeft();
  }

  lemma {:induction false} NothingLeft()
    ensures Left([]) == []
  {
  }
}
