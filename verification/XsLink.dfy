/**
 The server's end of a XenStore connection (xenstore-srv/src/xenstore_srv.c): the queue of replies
 that handle_output drains, and the rings and the connection as objects.
 */
module XsLink {
  import opened Bytes
  import opened Seqs
  import opened Rings
  import opened XsTransport

  // ---------- The queue of replies ----------

  /** A queued output buffer of which `used` bytes are in the ring already. */
  datatype Buffered = Buffered(bytes: seq<byte>, used: nat) {
    function Rest(): seq<byte> { if used <= |bytes| then bytes[used..] else [] }
  }

  /** All bytes that wait, in order. */
  function Left(q: seq<Buffered>): (s: seq<byte>)
    decreases |q|
  {
    if q == [] then [] else q[0].Rest() + Left(q[1..])
  }

  /** What handle_output still has to write of the buffer at the head. */
  function Rest(q: seq<Buffered>): (s: seq<byte>) { if q == [] then [] else q[0].Rest() }

  /** The queue once the ring took `n` bytes of the head: it goes on, or is dropped when it is out. */
  function Advance(q: seq<Buffered>, n: nat): (r: seq<Buffered>) {
    if q == [] then []
    else if q[0].used + n < |q[0].bytes| then [q[0].(used := q[0].used + n)] + q[1..]
    else q[1..]
  }

  /** handle_output with nothing in between. */
  function HandleOutput(q: seq<Buffered>, r: Ring): (o: (seq<Buffered>, Ring))
    requires r.Ok()
  {
    if q == [] then (q, r) else (Advance(q, Writable(r, |Rest(q)|)), RingWrite(r, Rest(q)))
  }

  /** What leaves the queue enters the ring, in order. */
  lemma {:induction false} HandleOutputBytes(q: seq<Buffered>, r: Ring)
    requires r.Ok()
    ensures var o := HandleOutput(q, r); o.1.Ok() && o.1.Contents() + Left(o.0) == r.Contents() + Left(q)
  {
    hide RingWrite, Slots, Writable, Fill, Left, Advance, Rest;
    if q != [] {
      var n := Writable(r, |Rest(q)|);
      RingWriteCorrect(r, Rest(q));
      AdvanceLeft(q, n);
      Assoc(r.Contents(), Rest(q)[..n], Left(Advance(q, n)));
    }
  }

  /** The bytes the ring took are the next ones of the queue. */
  lemma {:induction false} AdvanceLeft(q: seq<Buffered>, n: nat)
    requires n <= |Rest(q)|
    ensures Left(q) == Rest(q)[..n] + Left(Advance(q, n))
  {
    if q != [] {
      var data, z, r := Rest(q), Left(q[1..]), Advance(q, n);
      assert data == data[..n] + data[n..];
      Assoc(data[..n], data[n..], z);
      if q[0].used + n < |q[0].bytes| {
        assert r[1..] == q[1..] && r[0].Rest() == data[n..];
      } else {
        assert data[n..] + z == z;
      }
    }
  }

  lemma {:induction false} LeftSnoc(q: seq<Buffered>, bytes: seq<byte>)
    ensures Left(q + [Buffered(bytes, 0)]) == Left(q) + bytes
    ensures q != [] ==> Rest(q + [Buffered(bytes, 0)]) == Rest(q)
    decreases |q|
  {
    if q == [] {
      assert (q + [Buffered(bytes, 0)])[1..] == [] && bytes[0..] == bytes;
    } else {
      assert (q + [Buffered(bytes, 0)])[1..] == q[1..] + [Buffered(bytes, 0)];
      LeftSnoc(q[1..], bytes);
    }
  }

  // ---------- The objects ----------

  /** One half of the shared page: a ring and its two indices. */
  class SharedRing {
    const buf: array<byte>
    var prod: u32
    var cons: u32

    constructor (start: u32)
      ensures buf.Length == RING_SIZE && prod == cons == start && fresh(buf)
    {
      buf := new byte[RING_SIZE](i => 0);
      prod, cons := start, start;
    }

    function View(): (r: Ring)
      reads this, buf
    {
      Ring(buf[..], prod, cons)
    }

    /** xenstore_ring_write: the number of bytes written, or nothing on corrupt indices. */
    method Write(data: seq<byte>) returns (ok: bool, n: nat)
      requires buf.Length == RING_SIZE
      modifies this`prod, buf
      ensures ok == old(View()).Ok()
      ensures ok ==> n == Writable(old(View()), |data|) && View() == RingWrite(old(View()), data) && View().Ok()
      ensures ok ==> View().Contents() == old(View().Contents()) + data[..n]
      ensures !ok ==> n == 0 && View() == old(View())
    {
      hide Slots, Poke;
      ghost var was := View();
      var fill := Fill(prod, cons);
      if fill > RING_SIZE { return false, 0; }
      RingWriteCorrect(was, data);
      var at := prod % RING_SIZE;
      var avail := Min(RING_SIZE - at, RING_SIZE - fill);
      n := Min(|data|, avail);
      CopyIn(at, data[..n]);
      prod := Wrap(prod + n);
      ok := true;
    }

    method CopyIn(at: nat, v: seq<byte>)
      requires at + |v| <= buf.Length
      modifies buf
      ensures buf[..] == Poke(old(buf[..]), at, v)
    {
      forall i | 0 <= i < |v| { buf[at + i] := v[i]; }
    }

    /** xenstore_ring_read. */
    method Read(len: nat) returns (ok: bool, data: seq<byte>)
      requires buf.Length == RING_SIZE
      modifies this`cons
      ensures ok == old(View()).Ok()
      ensures ok ==>
        (data, View()) == RingRead(old(View()), len) && View().Ok()
        && old(View().Contents()) == data + View().Contents()
      ensures !ok ==> View() == old(View())
    {
      ghost var was := View();
      var fill := Fill(prod, cons);
      if fill > RING_SIZE { return false, []; }
      RingReadCorrect(was, len);
      hide Slots;
      var at := cons % RING_SIZE;
      var n := Min(len, Min(RING_SIZE - at, fill));
      data := buf[at..at + n];
      cons := Wrap(cons + n);
      ok := true;
    }
  }

  /** The server's state for one client. */
  class Connection {
    const req: SharedRing
    const rsp: SharedRing
    var input: Input
    var outList: seq<Buffered>

    ghost predicate Valid()
      reads this
    {
      req != rsp && req.buf != rsp.buf && req.buf.Length == RING_SIZE && rsp.buf.Length == RING_SIZE && input.Wf()
    }

    constructor (req: SharedRing, rsp: SharedRing)
      requires req != rsp && req.buf != rsp.buf && req.buf.Length == RING_SIZE && rsp.buf.Length == RING_SIZE
      ensures this.req == req && this.rsp == rsp && Valid() && input == Idle && outList == []
    {
      this.req, this.rsp, input, outList := req, rsp, Idle, [];
    }

    /** The part of invalidate_client that concerns the buffers (free_buffered_data). */
    method Invalidate()
      requires Valid()
      modifies this`input, this`outList
      ensures Valid() && input == Idle && outList == []
    {
      input, outList := Idle, [];
    }

    /** What handle_input does behind a ring read: the header names the size, a whole message is handed on. */
    method Absorb(bytes: seq<byte>) returns (out: seq<Msg>, more: bool)
      requires Valid() && |bytes| <= Want(input)
      modifies this`input
      ensures Valid() && Fed(input, out, more) == Feed(old(input), bytes)
    {
      hide Decode, LeWord;
      FeedWf(input, bytes);
      out, more := [], false;
      if input.Idle? { input := Partial([], HEADER); }
      var short := |input.got| < HEADER;
      input := Partial(input.got + bytes, input.total);
      if short {
        if |input.got| != HEADER { return; }
        var len := LeWord(input.got, 12);
        if len > PAYLOAD_MAX {
          input := Idle;
        } else {
          input, more := Partial(input.got, HEADER + len), true;
        }
      } else if |input.got| == input.total && Known(LeWord(input.got, 0)) {
        out := [Decode(input.got)];
        input := Idle;
      }
    }

    /** handle_input: at most one whole message is handed on; corrupt indices invalidate the client. */
    method Receive() returns (ok: bool, out: seq<Msg>, ghost taken: seq<byte>)
      requires Valid()
      modifies this`input, this`outList, req`cons
      ensures Valid() && ok == old(req.View()).Ok()
      ensures ok ==> Handled(input, req.View(), taken, out) == HandleInput(old(input), old(req.View()))
      ensures ok ==>
        req.View().Ok() && old(req.View().Contents()) == taken + req.View().Contents() && outList == old(outList)
      ensures !ok ==> input == Idle && outList == [] && out == [] && req.View() == old(req.View())
    {
      hide RingRead, Slots, Feed, Want, Fill;
      ghost var st, ring := input, req.View();
      var a, more;
      out, taken := [], [];
      ok, a := req.Read(Want(input));
      if !ok { Invalidate(); return; }
      HandleInputBytes(st, ring);
      taken := a;
      out, more := Absorb(a);
      if more {
        var b;
        ok, b := req.Read(Want(input));
        taken := taken + b;
        out, more := Absorb(b);
      }
    }

    /** send_reply_sz for a payload within the limit: a new buffer at the end of the list. */
    method Reply(m: Msg)
      requires Valid() && |m.payload| <= PAYLOAD_MAX
      modifies this`outList
      ensures Valid() && Left(outList) == old(Left(outList)) + Encode(m)
    {
      LeftSnoc(outList, Encode(m));
      outList := outList + [Buffered(Encode(m), 0)];
    }

    /**
     handle_output: the head of the list goes on, and is dropped when it is out; corrupt indices
     invalidate the client.
     */
    method Send() returns (ok: bool)
      requires Valid()
      modifies this`input, this`outList, rsp`prod, rsp.buf
      ensures Valid() && ok == (old(outList) == [] || old(rsp.View()).Ok())
      ensures ok && old(rsp.View()).Ok() ==>
        && (outList, rsp.View()) == HandleOutput(old(outList), old(rsp.View())) && input == old(input)
        && rsp.View().Ok() && rsp.View().Contents() + Left(outList) == old(rsp.View().Contents() + Left(outList))
      ensures !ok ==> input == Idle && outList == [] && rsp.View() == old(rsp.View())
    {
      hide RingWrite, Slots, Writable, Fill;
      if outList == [] { return true; }
      ghost var ring, q := rsp.View(), outList;
      var head := outList[0];
      var n;
      ok, n := rsp.Write(head.Rest());
      if !ok { Invalidate(); return; }
      HandleOutputBytes(q, ring);
      if head.used + n < |head.bytes| {
        outList := [head.(used := head.used + n)] + outList[1..];
      } else {
        outList := outList[1..];
      }
    }
  }
}
