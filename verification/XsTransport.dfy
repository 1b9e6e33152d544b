/**
 XenStore messages over the shared rings: xenstore_ring_write and xenstore_ring_read
 (xenstore-common), handle_input, handle_output and send_reply_sz (xenstore-srv).
 */
module XsTransport {
  import opened Bytes
  import opened Seqs
  import opened Rings
  import opened RingLine

  const RING_SIZE := 1024
  const HEADER := 16
  const PAYLOAD_MAX := 4096

  datatype Ring = Ring(buf: seq<byte>, prod: u32, cons: u32) {
    predicate Ok() { |buf| == RING_SIZE && Fill(prod, cons) <= RING_SIZE }

    function Contents(): seq<byte>
      requires |buf| == RING_SIZE
    {
      Slots(buf, cons, Fill(prod, cons))
    }
  }

  /** get_output_offset, then the length xenstore_ring_write copies. */
  function Writable(r: Ring, len: nat): (n: nat)
    requires r.Ok()
    ensures n <= len
  {
    Min(len, Min(RING_SIZE - r.prod % RING_SIZE, RING_SIZE - Fill(r.prod, r.cons)))
  }

  function Readable(r: Ring, len: nat): (n: nat)
    requires r.Ok()
    ensures n <= len
  {
    Min(len, Min(RING_SIZE - r.cons % RING_SIZE, Fill(r.prod, r.cons)))
  }

  /** xenstore_ring_write with indices that pass xenstore_check_indexes. */
  function RingWrite(r: Ring, data: seq<byte>): (w: Ring)
    requires r.Ok()
    ensures |w.buf| == RING_SIZE
  {
    var n := Writable(r, |data|);
    Ring(Poke(r.buf, r.prod % RING_SIZE, data[..n]), Wrap(r.prod + n), r.cons)
  }

  function RingRead(r: Ring, len: nat): (w: (seq<byte>, Ring))
    requires r.Ok()
    ensures |w.1.buf| == RING_SIZE && |w.0| == Readable(r, len) <= len
  {
    var n, at := Readable(r, len), r.cons % RING_SIZE;
    (r.buf[at..at + n], r.(cons := Wrap(r.cons + n)))
  }

  /** A write appends the bytes it accepts, and accepts some if there is room for any. */
  lemma {:induction false} RingWriteCorrect(r: Ring, data: seq<byte>)
    requires r.Ok()
    ensures var w := RingWrite(r, data); w.Ok() && w.Contents() == r.Contents() + data[..Writable(r, |data|)]
    ensures Writable(r, |data|) == 0 <==> data == [] || |r.Contents()| == RING_SIZE
  {
    hide Slots, Poke;
    var n, f := Writable(r, |data|), Fill(r.prod, r.cons);
    SameSlot(RING_SIZE, r.cons + f);
    StoreAppends(r.buf, r.cons, f, data[..n]);
    FillAdd(r.prod, r.cons, n);
  }

  /** A read takes the oldest bytes, and takes some if there are any. */
  lemma {:induction false} RingReadCorrect(r: Ring, len: nat)
    requires r.Ok()
    ensures var w := RingRead(r, len); w.1.Ok() && r.Contents() == w.0 + w.1.Contents()
    ensures Readable(r, len) == 0 <==> len == 0 || r.Contents() == []
  {
    hide Fill, Slots, Wrap;
    var n, f := Readable(r, len), Fill(r.prod, r.cons);
    FillSub(r.prod, r.cons, n);
    TakeSlots(r.buf, r.cons, f, n);
  }

  /** The oldest bytes are one slice of the buffer, and the rest are the slots behind them. */
  lemma {:induction false} TakeSlots(buf: seq<byte>, cons: u32, f: nat, n: nat)
    requires |buf| == RING_SIZE && n <= f && cons % RING_SIZE + n <= RING_SIZE
    ensures Slots(buf, cons, f) == buf[cons % RING_SIZE..cons % RING_SIZE + n] + Slots(buf, Wrap(cons + n), f - n)
  {
    hide Slots, Wrap;
    Contiguous(buf, cons, n);
    SlotsSplit(buf, cons, f, n);
    SlotsWrap(buf, cons + n, f - n);
    var s := Slots(buf, cons, f);
    assert s == s[..n] + s[n..];
  }

  /** A write is four steps of the two-party ring, so other steps may fall between its parts. */
  lemma {:induction false} RingWriteSteps(l: Line, data: seq<byte>)
    requires Good(l) && l.writer.Resting? && |l.chan.buf| == RING_SIZE && Fill(l.chan.prod, l.chan.cons) < RING_SIZE
    ensures var c := Wrote(l.chan, data, false); var r := Ring(l.chan.buf, l.chan.prod, l.chan.cons);
      && Good(l.(chan := c)) && r.Ok() && Ring(c.buf, c.prod, c.cons) == RingWrite(r, data)
      && c.sent == l.chan.sent + data[..Writable(r, |data|)]
  {
    hide Good, Slots, Fill, Wrap;
    WriteSteps(l, data, false);
    var c := l.chan;
    var n := Writable(Ring(c.buf, c.prod, c.cons), |data|);
    assert Chunk(RING_SIZE, c.prod, n) == n && data[n..n] == [];
    var b := Poke(c.buf, Mask(c.prod, RING_SIZE), data[..n]);
    assert Poke(b, 0, []) == b;
  }

  lemma {:induction false} RingReadSteps(l: Line, len: nat)
    requires Good(l) && l.reader.Waiting? && |l.chan.buf| == RING_SIZE
      && 0 < Fill(l.chan.prod, l.chan.cons) <= RING_SIZE
    ensures var c := Took(l.chan, len, false); var r := Ring(l.chan.buf, l.chan.prod, l.chan.cons);
      && Good(l.(chan := c)) && r.Ok() && Ring(c.buf, c.prod, c.cons) == RingRead(r, len).1
      && c.got == l.chan.got + RingRead(r, len).0
  {
    hide Good, Slots, Fill, Wrap;
    ReadSteps(l, len, false);
    var c := l.chan;
    var n := Readable(Ring(c.buf, c.prod, c.cons), len);
    assert Chunk(RING_SIZE, c.cons, n) == n && c.buf[..0] == [];
    var at := Mask(c.cons, RING_SIZE);
    assert c.buf[at..at + n] + [] == c.buf[at..at + n];
  }

  // ---------- Messages ----------

  datatype Msg = Msg(kind: u32, req: u32, tx: u32, payload: seq<byte>)

  function Encode(m: Msg): (s: seq<byte>)
    requires |m.payload| <= PAYLOAD_MAX
    ensures |s| == HEADER + |m.payload|
  {
    Le32(m.kind) + Le32(m.req) + Le32(m.tx) + Le32(|m.payload|) + m.payload
  }

  function Decode(s: seq<byte>): (m: Msg)
    requires |s| >= HEADER
  {
    Msg(LeWord(s, 0), LeWord(s, 4), LeWord(s, 8), s[HEADER..])
  }

  /** The types that have a handler. */
  predicate Known(kind: u32) { kind <= 7 || 10 <= kind <= 14 || kind == 21 }

  /** Payloads within the limit, of whatever type. */
  ghost predicate AllSized(ms: seq<Msg>) { forall i :: 0 <= i < |ms| ==> |ms[i].payload| <= PAYLOAD_MAX }

  lemma {:induction false} HeaderWords(m: Msg, s: seq<byte>)
    requires |m.payload| <= PAYLOAD_MAX && HEADER <= |s| <= |Encode(m)| && s == Encode(m)[..|s|]
    ensures LeWord(s, 0) == m.kind && LeWord(s, 4) == m.req && LeWord(s, 8) == m.tx && LeWord(s, 12) == |m.payload|
    ensures |s| == |Encode(m)| ==> Decode(s) == m
  {
    hide Le32, LeWord;
    var e := Encode(m);
    assert s[0..4] == e[0..4] == Le32(m.kind) && s[4..8] == e[4..8] == Le32(m.req);
    assert s[8..12] == e[8..12] == Le32(m.tx) && s[12..16] == e[12..16] == Le32(|m.payload|);
    LeWordOfLe32(s, 0, m.kind);
    LeWordOfLe32(s, 4, m.req);
    LeWordOfLe32(s, 8, m.tx);
    LeWordOfLe32(s, 12, |m.payload|);
    assert e[16..] == m.payload;
  }

  // ---------- handle_input ----------

  /** The message being reassembled: bytes so far, and how many there will be. */
  datatype Input = Idle | Partial(got: seq<byte>, total: nat) {
    function Got(): seq<byte> { if Idle? then [] else got }

    predicate Wf() {
      Partial? ==>
        if |got| < HEADER then total == HEADER
        else |got| <= total && total == HEADER + LeWord(got, 12) && LeWord(got, 12) <= PAYLOAD_MAX
    }
  }

  /** How many bytes the next ring read of handle_input asks for. */
  function Want(st: Input): (n: nat) {
    var have := |st.Got()|;
    if have < HEADER then HEADER - have else if have < st.total then st.total - have else 0
  }

  /** The state a ring read leads to, what was handled, and whether the same call reads once more. */
  datatype Fed = Fed(st: Input, out: seq<Msg>, more: bool)

  /** What handle_input and process_message do with the bytes of one ring read; an unknown type keeps the buffer. */
  function Feed(st: Input, bytes: seq<byte>): (f: Fed) {
    var g := st.Got() + bytes;
    if |st.Got()| < HEADER then
      if |g| != HEADER then Fed(Partial(g, HEADER), [], false)
      else if LeWord(g, 12) > PAYLOAD_MAX then Fed(Idle, [], false)
      else Fed(Partial(g, HEADER + LeWord(g, 12)), [], true)
    else if |g| == st.total && Known(LeWord(g, 0)) then Fed(Idle, [Decode(g)], false)
    else Fed(Partial(g, st.total), [], false)
  }

  /** One call of handle_input with nothing in between: one ring read, or two. */
  datatype Handled = Handled(st: Input, ring: Ring, taken: seq<byte>, out: seq<Msg>)

  function HandleInput(st: Input, r: Ring): (o: Handled)
    requires r.Ok()
    ensures |o.ring.buf| == RING_SIZE
  {
    RingReadCorrect(r, Want(st));
    var a := RingRead(r, Want(st));
    var f := Feed(st, a.0);
    if !f.more then Handled(f.st, a.1, a.0, f.out)
    else
      var b := RingRead(a.1, Want(f.st));
      var g := Feed(f.st, b.0);
      Handled(g.st, b.1, a.0 + b.0, g.out)
  }

  /** The bytes taken leave the ring. */
  lemma {:induction false} HandleInputBytes(st: Input, r: Ring)
    requires r.Ok()
    ensures var o := HandleInput(st, r); o.ring.Ok() && r.Contents() == o.taken + o.ring.Contents()
  {
    hide RingRead, Feed, Want;
    RingReadCorrect(r, Want(st));
    var a := RingRead(r, Want(st));
    var f := Feed(st, a.0);
    if f.more {
      RingReadCorrect(a.1, Want(f.st));
      var b := RingRead(a.1, Want(f.st));
      Assoc(a.0, b.0, b.1.Contents());
    }
  }

  /** Bytes fed in as many as were asked for keep the buffer in shape. */
  lemma {:induction false} FeedWf(st: Input, bytes: seq<byte>)
    requires st.Wf() && |bytes| <= Want(st)
    ensures Feed(st, bytes).st.Wf()
  {
    hide Decode, LeWord;
    if |st.Got()| >= HEADER { LengthKept(st.got, bytes); }
  }

  lemma {:induction false} LengthKept(got: seq<byte>, bytes: seq<byte>)
    requires |got| >= HEADER
    ensures LeWord(got + bytes, 12) == LeWord(got, 12)
  {
  }

  // ---------- Framing ----------

  function EncodeAll(ms: seq<Msg>): (s: seq<byte>)
    requires AllSized(ms)
    decreases |ms|
  {
    if ms == [] then [] else Encode(ms[0]) + EncodeAll(ms[1..])
  }

  lemma {:induction false} EncodeAllSplit(ms: seq<Msg>, k: nat)
    requires AllSized(ms) && k <= |ms|
    ensures EncodeAll(ms) == EncodeAll(ms[..k]) + EncodeAll(ms[k..])
    decreases k
  {
    hide Encode;
    if k == 0 {
      assert ms[0..] == ms && ms[..0] == [];
    } else {
      EncodeAllSplit(ms[1..], k - 1);
      assert ms[..k][1..] == ms[1..][..k - 1] && ms[1..][k - 1..] == ms[k..];
    }
  }

  /** One message more. */
  lemma {:induction false} EncodeNext(ms: seq<Msg>, k: nat)
    requires AllSized(ms) && k < |ms|
    ensures EncodeAll(ms[..k + 1]) == EncodeAll(ms[..k]) + Encode(ms[k])
  {
    hide Encode;
    var a := ms[..k + 1];
    EncodeAllSplit(a, k);
    assert a[..k] == ms[..k] && a[k..] == [ms[k]] && [ms[k]][1..] == [];
    assert EncodeAll([ms[k]]) == Encode(ms[k]) + [];
  }

  lemma {:induction false} EncodeGrows(ms: seq<Msg>, j: nat, k: nat)
    requires AllSized(ms) && j <= k <= |ms|
    ensures |EncodeAll(ms[..j])| + HEADER * (k - j) <= |EncodeAll(ms[..k])|
    decreases k - j
  {
    hide Encode, EncodeAll;
    if j < k {
      EncodeNext(ms, k - 1);
      EncodeGrows(ms, j, k - 1);
    }
  }

  ghost predicate AllKnown(ms: seq<Msg>) { forall i :: 0 <= i < |ms| ==> Known(ms[i].kind) }

  /**
   Messages handled and bytes of the next one: where a reader of the stream of `ms` stands. Only a
   message of unknown type, or one whose body read is still to come, is whole and not handled.
   */
  ghost predicate Framed(ms: seq<Msg>, done: seq<Msg>, st: Input, consumed: seq<byte>, more: bool) {
    && AllSized(ms) && done <= ms && AllKnown(done) && st.Wf() && consumed == EncodeAll(ms[..|done|]) + st.Got()
    && (more ==> |st.Got()| == HEADER)
    && (!more && |st.Got()| >= HEADER && |st.got| == st.total ==> !Known(LeWord(st.got, 0)))
  }

  /** The next bytes of the stream belong to the next message. */
  lemma {:induction false} PrefixCut(a: seq<byte>, g: seq<byte>, z: seq<byte>)
    requires a + g <= a + z
    ensures g <= z
  {
    assert (a + g)[|a|..] == g && (a + z)[|a|..] == z;
  }

  lemma {:induction false} EncodeAllHead(ms: seq<Msg>)
    requires ms != [] && AllSized(ms)
    ensures AllSized(ms[1..]) && EncodeAll(ms) == Encode(ms[0]) + EncodeAll(ms[1..])
  {
    hide Encode;
  }

  lemma {:induction false} NextMessage(ms: seq<Msg>, k: nat, g: seq<byte>, consumed: seq<byte>)
    requires AllSized(ms) && k <= |ms| && g != [] && consumed == EncodeAll(ms[..k]) + g && consumed <= EncodeAll(ms)
    ensures k < |ms| && (|g| <= |Encode(ms[k])| ==> g == Encode(ms[k])[..|g|])
    ensures |g| >= HEADER ==> g[..HEADER] == Encode(ms[k])[..HEADER]
  {
    EncodeAllSplit(ms, k);
    hide Encode;
    var a, z := EncodeAll(ms[..k]), EncodeAll(ms[k..]);
    PrefixCut(a, g, z);
    if k < |ms| {
      hide EncodeAll;
      var e := Encode(ms[k]);
      assert z == e + EncodeAll(ms[k..][1..]) by { EncodeAllHead(ms[k..]); }
      assert g == z[..|g|];
      assert |g| >= HEADER ==> g[..HEADER] == z[..HEADER] == e[..HEADER];
    }
  }

  lemma {:induction false} MessageSize(m: Msg, g: seq<byte>)
    requires |m.payload| <= PAYLOAD_MAX && HEADER <= |g| && g[..HEADER] == Encode(m)[..HEADER]
    ensures HEADER + LeWord(g, 12) == |Encode(m)| && LeWord(g, 0) == m.kind
  {
    hide Le32;
    var h := g[..HEADER];
    assert LeWord(h, 12) == LeWord(g, 12) && LeWord(h, 0) == LeWord(g, 0);
    hide LeWord;
    HeaderWords(m, h);
  }

  /** Each ring read moves along the framing, handling the next message when it is whole and of a known type. */
  lemma {:induction false} FeedFrames(ms: seq<Msg>, done: seq<Msg>, st: Input, consumed: seq<byte>, more: bool,
                                      bytes: seq<byte>)
    requires Framed(ms, done, st, consumed, more) && |bytes| <= Want(st) && consumed + bytes <= EncodeAll(ms)
    ensures var f := Feed(st, bytes); Framed(ms, done + f.out, f.st, consumed + bytes, f.more)
  {
    hide LeWord, Decode, Encode, EncodeAll;
    FeedWf(st, bytes);
    var g, k := st.Got() + bytes, |done|;
    Assoc(EncodeAll(ms[..k]), st.Got(), bytes);
    assert done + [] == done;
    if |g| >= HEADER {
      NextMessage(ms, k, g, consumed + bytes);
      MessageSize(ms[k], g);
      if |st.Got()| >= HEADER { FeedBody(ms, done, st, consumed, bytes); }
    }
  }

  lemma {:induction false} FeedBody(ms: seq<Msg>, done: seq<Msg>, st: Input, consumed: seq<byte>, bytes: seq<byte>)
    requires AllSized(ms) && done <= ms && |done| < |ms| && AllKnown(done) && st.Wf() && |st.Got()| >= HEADER
      && |bytes| <= Want(st)
    requires var g := st.got + bytes;
      && consumed + bytes == EncodeAll(ms[..|done|]) + g && LeWord(g, 0) == ms[|done|].kind
      && (|g| <= |Encode(ms[|done|])| ==> g == Encode(ms[|done|])[..|g|])
           && HEADER + LeWord(g, 12) == |Encode(ms[|done|])|
    ensures var f := Feed(st, bytes); Framed(ms, done + f.out, f.st, consumed + bytes, f.more)
  {
    hide LeWord, Decode, Encode, EncodeAll;
    var g, k := st.got + bytes, |done|;
    LengthKept(st.got, bytes);
    FeedWf(st, bytes);
    assert done + [] == done;
    if |g| == st.total && Known(LeWord(g, 0)) {
      HeaderWords(ms[k], g);
      EncodeNext(ms, k);
      assert done + [ms[k]] == ms[..k + 1];
      assert EncodeAll(ms[..k + 1]) + [] == EncodeAll(ms[..k + 1]);
    }
  }

  // ---------- How far the reader can get ----------

  /** The position of the first message without a handler, or the end. */
  function FirstUnknown(ms: seq<Msg>): (n: nat)
    ensures n <= |ms|
    decreases |ms|
  {
    if ms == [] || !Known(ms[0].kind) then 0 else 1 + FirstUnknown(ms[1..])
  }

  lemma {:induction false} FirstUnknownExact(ms: seq<Msg>)
    ensures AllKnown(ms[..FirstUnknown(ms)]) && (FirstUnknown(ms) < |ms| ==> !Known(ms[FirstUnknown(ms)].kind))
    decreases |ms|
  {
    if ms != [] && Known(ms[0].kind) {
      var rest, n := ms[1..], FirstUnknown(ms[1..]);
      FirstUnknownExact(rest);
      assert forall i :: 0 < i < 1 + n ==> ms[i] == rest[..n][i - 1];
    }
  }

  lemma {:induction false} KnownPrefix(ms: seq<Msg>, k: nat)
    requires k <= |ms| && AllKnown(ms[..k])
    ensures k <= FirstUnknown(ms)
    decreases k
  {
    if k > 0 {
      assert ms[..k][0] == ms[0] && ms[..k][1..] == ms[1..][..k - 1];
      KnownPrefix(ms[1..], k - 1);
    }
  }

  /** The messages up to and including the first without a handler. */
  function Reach(ms: seq<Msg>): (n: nat)
    ensures n <= |ms|
  {
    Min(FirstUnknown(ms) + 1, |ms|)
  }

  /** The bytes held are no more than those of the next message. */
  lemma {:induction false} FramedPart(ms: seq<Msg>, done: seq<Msg>, st: Input, consumed: seq<byte>, more: bool)
    requires Framed(ms, done, st, consumed, more) && consumed <= EncodeAll(ms)
    ensures |done| == |ms| ==> st.Got() == []
    ensures |done| < |ms| ==> |st.Got()| <= |Encode(ms[|done|])|
    ensures |done| < |ms| && |st.Got()| == |Encode(ms[|done|])| && !more ==> !Known(ms[|done|].kind)
    ensures |done| < |ms| && Want(st) == 0 ==> |st.Got()| == |Encode(ms[|done|])|
  {
    hide LeWord, Encode, EncodeAll;
    var g, k := st.Got(), |done|;
    if g != [] { NextMessage(ms, k, g, consumed); }
    if |g| >= HEADER { MessageSize(ms[k], g); }
  }

  /**
   Between two calls the messages handled are exactly those of known type that are wholly read, up
   to the first of unknown type; behind that one no byte is read.
   */
  lemma {:induction false} FramedExact(ms: seq<Msg>, done: seq<Msg>, st: Input, consumed: seq<byte>, more: bool)
    requires Framed(ms, done, st, consumed, more) && consumed <= EncodeAll(ms)
    ensures |done| <= FirstUnknown(ms) && |consumed| <= |EncodeAll(ms[..Reach(ms)])|
    ensures !more ==> forall k :: 0 <= k <= FirstUnknown(ms) ==> (k <= |done| <==> |EncodeAll(ms[..k])| <= |consumed|)
    ensures |consumed| < |EncodeAll(ms[..Reach(ms)])| && !more ==> Want(st) > 0
    ensures FirstUnknown(ms) < |ms| && |consumed| == |EncodeAll(ms[..Reach(ms)])| ==> |done| == FirstUnknown(ms)
  {
    hide LeWord, Encode, EncodeAll, FirstUnknown, Want;
    FramedPart(ms, done, st, consumed, more);
    FirstUnknownExact(ms);
    var d, f := |done|, FirstUnknown(ms);
    if d < |ms| {
      EncodeNext(ms, d);
      EncodeGrows(ms, d + 1, Reach(ms));
    }
    forall k | 0 <= k <= f && !more ensures k <= d <==> |EncodeAll(ms[..k])| <= |consumed| {
      if k <= d {
        EncodeGrows(ms, k, d);
      } else {
        assert ms[..f][d] == ms[d];
        EncodeGrows(ms, d + 1, k);
      }
    }
    if d < f < |ms| { EncodeGrows(ms, d + 1, f + 1); }
  }
}
