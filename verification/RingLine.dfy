/**
 Two parties on one byte ring, step by step: what xenstore_ring_write and xenstore_ring_read, or
 vch_write and vch_read, do between two points where the other side can intervene. A vchan call
 copies in two parts where the buffer wraps; a XenStore call stops at the buffer's end.
 */
module RingLine {
  import opened Bytes
  import opened Rings

  /** index & (size - 1), for a power of two. */
  function Mask(index: nat, size: nat): (r: nat)
    requires RingSize(size)
    ensures r < size
  {
    index % size
  }

  // ---------- Two parties, one direction ----------

  /** Where a write stands: the two pieces still to copy, or only the second, or the index to publish. */
  datatype Writer = Resting | First(at: nat, a: seq<byte>, b: seq<byte>) | Second(b: seq<byte>) | Publishing

  datatype Reader = Waiting | FirstPart(at: nat, n: nat, m: nat) | SecondPart(m: nat) | Releasing

  datatype Line = Line(chan: Chan, writer: Writer, reader: Reader)

  datatype Step =
    | BeginWrite(data: seq<byte>, split: bool)
    | WriteFirst
    | WriteSecond
    | EndWrite
    | BeginRead(size: nat, split: bool)
    | ReadFirst
    | ReadSecond
    | EndRead

  predicate Can(l: Line, st: Step) {
    match st
    case BeginWrite(_, _) => l.writer.Resting?
    case WriteFirst => l.writer.First? && l.writer.at + |l.writer.a| <= |l.chan.buf|
    case WriteSecond => l.writer.Second? && |l.writer.b| <= |l.chan.buf|
    case EndWrite => l.writer.Publishing?
    case BeginRead(_, _) => l.reader.Waiting?
    case ReadFirst => l.reader.FirstPart? && l.reader.at + l.reader.n <= |l.chan.buf|
    case ReadSecond => l.reader.SecondPart? && l.reader.m <= |l.chan.buf|
    case EndRead => l.reader.Releasing?
  }

  /** The room, or the data, an end sees; its own index masked; and the piece up to the buffer's end. */
  function PlanWrite(c: Chan, data: seq<byte>, split: bool): (w: Writer)
    requires RingSize(|c.buf|)
  {
    var avail := (|c.buf| - Fill(c.prod, c.cons)) % U32;
    if avail == 0 then Resting
    else
      var at := Mask(c.prod, |c.buf|);
      var size := if split then Min(|data|, avail) else Min(|data|, Min(|c.buf| - at, avail));
      var chunk := Min(|c.buf| - at, size);
      First(at, data[..chunk], data[chunk..size])
  }

  function PlanRead(c: Chan, size: nat, split: bool): (r: Reader)
    requires RingSize(|c.buf|)
  {
    var avail := Fill(c.prod, c.cons);
    if avail == 0 then Waiting
    else
      var at := Mask(c.cons, |c.buf|);
      var n := if split then Min(size, avail) else Min(size, Min(|c.buf| - at, avail));
      var chunk := Min(|c.buf| - at, n);
      FirstPart(at, chunk, n - chunk)
  }

  function Do(l: Line, st: Step): (r: Line)
    requires RingSize(|l.chan.buf|) && Can(l, st)
    ensures |r.chan.buf| == |l.chan.buf|
  {
    var c := l.chan;
    match st
    case BeginWrite(data, split) => l.(writer := PlanWrite(c, data, split))
    case WriteFirst => Line(c.(buf := Poke(c.buf, l.writer.at, l.writer.a), wrote := c.wrote + l.writer.a),
      Second(l.writer.b), l.reader)
    case WriteSecond => Line(c.(buf := Poke(c.buf, 0, l.writer.b), wrote := c.wrote + l.writer.b), Publishing, l.reader)
    case EndWrite => Line(c.(prod := Wrap(c.prod + |c.wrote|), wrote := [], sent := c.sent + c.wrote), Resting,
      l.reader)
    case BeginRead(size, split) => l.(reader := PlanRead(c, size, split))
    case ReadFirst => Line(c.(taken := c.taken + c.buf[l.reader.at..l.reader.at + l.reader.n]), l.writer,
      SecondPart(l.reader.m))
    case ReadSecond => Line(c.(taken := c.taken + c.buf[..l.reader.m]), l.writer, Releasing)
    case EndRead => Line(c.(cons := Wrap(c.cons + |c.taken|), taken := [], got := c.got + c.taken), l.writer, Waiting)
  }

  /** The plan of a write stays good however the reader moves its index meanwhile. */
  predicate WriterOk(c: Chan, w: Writer)
    requires RingSize(|c.buf|)
  {
    match w
    case Resting => c.wrote == []
    case First(at, a, b) =>
      c.wrote == [] && at == (c.cons + Held(c)) % |c.buf| && at + |a| <= |c.buf| && Held(c) + |a| + |b| <= |c.buf|
      && (b != [] ==> at + |a| == |c.buf|)
    case Second(b) => Held(c) + |b| <= |c.buf| && (b != [] ==> (c.cons + Held(c)) % |c.buf| == 0)
    case Publishing => true
  }

  predicate ReaderOk(c: Chan, r: Reader)
    requires RingSize(|c.buf|)
  {
    match r
    case Waiting => c.taken == []
    case FirstPart(at, n, m) =>
      c.taken == [] && at == c.cons % |c.buf| && at + n <= |c.buf| && n + m <= Fill(c.prod, c.cons)
        && (m > 0 ==> at + n == |c.buf|)
    case SecondPart(m) => |c.taken| + m <= Fill(c.prod, c.cons) && (m > 0 ==> (c.cons + |c.taken|) % |c.buf| == 0)
    case Releasing => true
  }

  ghost predicate Good(l: Line) {
    Sane(l.chan) && WriterOk(l.chan, l.writer) && ReaderOk(l.chan, l.reader)
  }

  lemma {:induction false} PlanWriteOk(c: Chan, data: seq<byte>, split: bool)
    requires Sane(c) && c.wrote == []
    ensures WriterOk(c, PlanWrite(c, data, split))
  {
    hide Slots;
    SameSlot(|c.buf|, c.cons + Fill(c.prod, c.cons));
  }

  lemma {:induction false} PlanReadOk(c: Chan, size: nat, split: bool)
    requires Sane(c) && c.taken == []
    ensures ReaderOk(c, PlanRead(c, size, split))
  {
    hide Slots;
  }

  /** A first piece that reaches the buffer's end leaves the next slot at its start. */
  lemma {:induction false} NextSlot(n: nat, x: nat, k: nat)
    requires RingSize(n) && x % n + k == n
    ensures (x + k) % n == 0
  {
  }

  lemma {:induction false} WriteFirstGood(l: Line)
    requires Good(l) && Can(l, WriteFirst)
    ensures Good(Do(l, WriteFirst))
  {
    hide Slots, Poke, Fill;
    var c := l.chan;
    assert Enabled(c, Copy(l.writer.a));
    NextSane(c, Copy(l.writer.a));
    var d := Do(l, WriteFirst).chan;
    assert d == Next(c, Copy(l.writer.a));
    assert Held(d) == Held(c) + |l.writer.a|;
    if l.writer.b != [] { NextSlot(|c.buf|, c.cons + Held(c), |l.writer.a|); }
  }

  lemma {:induction false} WriteSecondGood(l: Line)
    requires Good(l) && Can(l, WriteSecond)
    ensures Good(Do(l, WriteSecond))
  {
    hide Slots, Fill;
    var c := l.chan;
    if l.writer.b == [] {
      assert Poke(c.buf, 0, []) == c.buf;
      assert c.wrote + [] == c.wrote;
    } else {
      hide Poke;
      NextSane(c, Copy(l.writer.b));
      assert Do(l, WriteSecond).chan == Next(c, Copy(l.writer.b));
    }
  }

  lemma {:induction false} EndWriteGood(l: Line)
    requires Good(l) && Can(l, EndWrite)
    ensures Good(Do(l, EndWrite))
  {
    hide Slots, Fill;
    var c := l.chan;
    PublishSane(c);
    FillAdd(c.prod, c.cons, |c.wrote|);
  }

  lemma {:induction false} ReadFirstGood(l: Line)
    requires Good(l) && Can(l, ReadFirst)
    ensures Good(Do(l, ReadFirst))
  {
    hide Fill;
    var c := l.chan;
    Contiguous(c.buf, c.cons, l.reader.n);
    hide Slots;
    NextSane(c, Take(l.reader.n));
    assert c.cons + |c.taken| == c.cons;
    assert Do(l, ReadFirst).chan == Next(c, Take(l.reader.n));
    if l.reader.m > 0 { NextSlot(|c.buf|, c.cons, l.reader.n); }
  }

  lemma {:induction false} ReadSecondGood(l: Line)
    requires Good(l) && Can(l, ReadSecond)
    ensures Good(Do(l, ReadSecond))
  {
    hide Fill, Slots;
    var c := l.chan;
    if l.reader.m == 0 {
      assert c.taken + c.buf[..0] == c.taken;
      assert Do(l, ReadSecond).chan == c;
    } else {
      Contiguous(c.buf, c.cons + |c.taken|, l.reader.m);
      assert c.buf[0..l.reader.m] == c.buf[..l.reader.m];
      assert Do(l, ReadSecond).chan == Next(c, Take(l.reader.m));
      TakeSane(c, l.reader.m);
    }
  }

  lemma {:induction false} EndReadGood(l: Line)
    requires Good(l) && Can(l, EndRead)
    ensures Good(Do(l, EndRead))
  {
    hide Slots, Fill;
    var c := l.chan;
    ReleaseSane(c);
    FillSub(c.prod, c.cons, |c.taken|);
    var d := Do(l, EndRead).chan;
    assert Held(d) == Held(c) - |c.taken|;
    SameSlot(|c.buf|, c.cons + |c.taken|);
    ModShift(|c.buf|, d.cons, c.cons + |c.taken|, Held(d));
    assert c.cons + |c.taken| + Held(d) == c.cons + Held(c);
  }

  /** Every step of either side, on whatever it last saw of the other's index, keeps the line good. */
  lemma {:induction false} DoGood(l: Line, st: Step)
    requires Good(l) && Can(l, st)
    ensures Good(Do(l, st))
  {
    hide Sane, Slots, Fill, Poke;
    assert Good(l);
    match st
    case BeginWrite(data, split) => PlanWriteOk(l.chan, data, split);
    case WriteFirst => WriteFirstGood(l);
    case WriteSecond => WriteSecondGood(l);
    case EndWrite => EndWriteGood(l);
    case BeginRead(size, split) => PlanReadOk(l.chan, size, split);
    case ReadFirst => ReadFirstGood(l);
    case ReadSecond => ReadSecondGood(l);
    case EndRead => EndReadGood(l);
  }

  predicate Runs(l: Line, steps: seq<Step>, r: Line)
    requires RingSize(|l.chan.buf|)
    decreases |steps|
  {
    if steps == [] then r == l else Can(l, steps[0]) && Runs(Do(l, steps[0]), steps[1..], r)
  }

  lemma {:induction false} RunGood(l: Line, steps: seq<Step>, r: Line)
    requires Good(l) && Runs(l, steps, r)
    ensures Good(r)
    decreases |steps|
  {
    hide Slots, Fill, Can, Do, WriterOk, ReaderOk;
    if steps != [] {
      DoGood(l, steps[0]);
      RunGood(Do(l, steps[0]), steps[1..], r);
    }
  }

  /** Two ends at rest, from any common index. */
  function Fresh(buf: seq<byte>, start: u32): Line {
    Line(Chan(buf, start, start, [], [], [], []), Resting, Waiting)
  }

  /**
   Every interleaving of writes on one side and reads on the other, in single copies, across the
   buffer's end and the wrap of the indices: what was read is a prefix of what was written, and the
   ring never holds more than its size.
   */
  lemma {:induction false} StreamExact(buf: seq<byte>, start: u32, steps: seq<Step>, l: Line)
    requires RingSize(|buf|) && Runs(Fresh(buf, start), steps, l)
    ensures var c := l.chan;
      && c.got <= c.sent && |c.sent| == |c.got| + Fill(c.prod, c.cons)
      && Fill(c.prod, c.cons) + |c.wrote| <= |c.buf| == |buf|
      && c.sent[|c.got|..] == Slots(c.buf, c.cons, Fill(c.prod, c.cons))
  {
    EmptySane(buf, start);
    assert Good(Fresh(buf, start));
    RunGood(Fresh(buf, start), steps, l);
    RunSize(Fresh(buf, start), steps, l);
    hide Runs;
    var c := l.chan;
    SlotsSplit(c.buf, c.cons, Held(c), Fill(c.prod, c.cons));
    hide Slots, Fill;
    assert (c.sent[|c.got|..] + c.wrote)[..Fill(c.prod, c.cons)] == c.sent[|c.got|..];
  }

  lemma {:induction false} RunSize(l: Line, steps: seq<Step>, r: Line)
    requires RingSize(|l.chan.buf|) && Runs(l, steps, r)
    ensures |r.chan.buf| == |l.chan.buf|
    decreases |steps|
  {
    hide Fill, Can, Do;
    if steps != [] { RunSize(Do(l, steps[0]), steps[1..], r); }
  }

  // ---------- Whole calls ----------

  /** A ring at rest, seen as a channel whose unread bytes are all that was ever sent. */
  function Still(buf: seq<byte>, prod: u32, cons: u32): (c: Chan)
    requires RingSize(|buf|)
  {
    Chan(buf, prod, cons, [], [], Slots(buf, cons, Fill(prod, cons)), [])
  }

  lemma {:induction false} StillSane(buf: seq<byte>, prod: u32, cons: u32)
    requires RingSize(|buf|) && Fill(prod, cons) <= |buf|
    ensures Sane(Still(buf, prod, cons))
  {
    hide Slots, Fill;
    var s := Slots(buf, cons, Fill(prod, cons));
    assert s[0..] + [] == s && s[0..0] == [];
  }

  /** How much a write accepts, and how much of it goes in front of the buffer's end. */
  function Accepts(size: nat, prod: u32, cons: u32, len: nat, split: bool): (n: nat)
    requires RingSize(size) && Fill(prod, cons) <= size
    ensures n <= len
  {
    if split then Min(len, size - Fill(prod, cons)) else Min(len, Min(size - Mask(prod, size), size - Fill(prod, cons)))
  }

  function Gives(size: nat, prod: u32, cons: u32, len: nat, split: bool): (n: nat)
    requires RingSize(size)
    ensures n <= len && n <= Fill(prod, cons)
  {
    if split then Min(len, Fill(prod, cons)) else Min(len, Min(size - Mask(cons, size), Fill(prod, cons)))
  }

  function Chunk(size: nat, index: u32, n: nat): (k: nat)
    requires RingSize(size)
    ensures k <= n && Mask(index, size) + k <= size
  {
    Min(size - Mask(index, size), n)
  }

  /** What a whole write leaves. */
  function Wrote(c: Chan, data: seq<byte>, split: bool): (r: Chan)
    requires RingSize(|c.buf|) && Fill(c.prod, c.cons) <= |c.buf|
  {
    var n := Accepts(|c.buf|, c.prod, c.cons, |data|, split);
    var k := Chunk(|c.buf|, c.prod, n);
    c.(buf := Poke(Poke(c.buf, Mask(c.prod, |c.buf|), data[..k]), 0, data[k..n]), prod := Wrap(c.prod + n),
      sent := c.sent + data[..n])
  }

  function Took(c: Chan, size: nat, split: bool): (r: Chan)
    requires RingSize(|c.buf|) && Fill(c.prod, c.cons) <= |c.buf|
  {
    var n := Gives(|c.buf|, c.prod, c.cons, size, split);
    var k := Chunk(|c.buf|, c.cons, n);
    c.(cons := Wrap(c.cons + n), got := c.got
      + (c.buf[Mask(c.cons, |c.buf|)..Mask(c.cons, |c.buf|) + k] + c.buf[..n - k]))
  }

  lemma {:induction false} PlanWriteIs(c: Chan, data: seq<byte>, split: bool)
    requires RingSize(|c.buf|) && Fill(c.prod, c.cons) < |c.buf|
    ensures var n := Accepts(|c.buf|, c.prod, c.cons, |data|, split); var k := Chunk(|c.buf|, c.prod, n);
      PlanWrite(c, data, split) == First(Mask(c.prod, |c.buf|), data[..k], data[k..n])
  {
    hide Fill, Mask;
  }

  /** The steps of one write, one after the other. */
  lemma {:induction false} WriteSteps(l: Line, data: seq<byte>, split: bool)
    requires Good(l) && l.writer.Resting? && RingSize(|l.chan.buf|) && Fill(l.chan.prod, l.chan.cons) < |l.chan.buf|
    ensures Good(l.(chan := Wrote(l.chan, data, split)))
  {
    hide Good, Slots, Poke, Fill, Mask, Wrap, PlanWrite;
    GoodFacts(l);
    var c := l.chan;
    PlanWriteIs(c, data, split);
    var n := Accepts(|c.buf|, c.prod, c.cons, |data|, split);
    var k := Chunk(|c.buf|, c.prod, n);
    DoGood(l, BeginWrite(data, split));
    var l1 := Do(l, BeginWrite(data, split));
    assert l1 == l.(writer := First(Mask(c.prod, |c.buf|), data[..k], data[k..n]));
    hide Accepts, Chunk;
    DoGood(l1, WriteFirst);
    var l2 := Do(l1, WriteFirst);
    DoGood(l2, WriteSecond);
    var l3 := Do(l2, WriteSecond);
    DoGood(l3, EndWrite);
    assert [] + data[..k] + data[k..n] == data[..n];
    assert Do(l3, EndWrite) == l.(chan := Wrote(c, data, split));
  }

  lemma {:induction false} GoodFacts(l: Line)
    requires Good(l)
    ensures RingSize(|l.chan.buf|) && Fill(l.chan.prod, l.chan.cons) <= |l.chan.buf|
    ensures (l.writer.Resting? ==> l.chan.wrote == []) && (l.reader.Waiting? ==> l.chan.taken == [])
  {
  }

  lemma {:induction false} PlanReadIs(c: Chan, size: nat, split: bool)
    requires RingSize(|c.buf|) && 0 < Fill(c.prod, c.cons)
    ensures var n := Gives(|c.buf|, c.prod, c.cons, size, split); var k := Chunk(|c.buf|, c.cons, n);
      PlanRead(c, size, split) == FirstPart(Mask(c.cons, |c.buf|), k, n - k)
  {
    hide Fill, Mask;
  }

  /** The copies of a read, and the release. */
  lemma {:induction false} ReadRest(l: Line, at: nat, n: nat, m: nat)
    requires Good(l) && l.reader == FirstPart(at, n, m) && l.chan.taken == [] && at + n <= |l.chan.buf|
      && m <= |l.chan.buf|
    ensures var c := l.chan;
      Good(Line(c.(cons := Wrap(c.cons + (n + m)), got := c.got + (c.buf[at..at + n] + c.buf[..m])), l.writer, Waiting))
  {
    hide Good, Slots, Poke, Fill, Mask, Wrap, PlanRead, PlanWrite;
    GoodFacts(l);
    var c := l.chan;
    DoGood(l, ReadFirst);
    var l2 := Do(l, ReadFirst);
    GoodFacts(l2);
    assert [] + c.buf[at..at + n] == c.buf[at..at + n];
    assert l2 == Line(c.(taken := c.buf[at..at + n]), l.writer, SecondPart(m));
    DoGood(l2, ReadSecond);
    var l3 := Do(l2, ReadSecond);
    GoodFacts(l3);
    assert l3 == Line(c.(taken := c.buf[at..at + n] + c.buf[..m]), l.writer, Releasing);
    DoGood(l3, EndRead);
    assert |l3.chan.taken| == n + m;
  }

  lemma {:induction false} ReadSteps(l: Line, size: nat, split: bool)
    requires Good(l) && l.reader.Waiting? && RingSize(|l.chan.buf|)
      && 0 < Fill(l.chan.prod, l.chan.cons) <= |l.chan.buf|
    ensures Good(l.(chan := Took(l.chan, size, split)))
  {
    hide Good, Slots, Poke, Fill, Mask, Wrap, PlanRead, PlanWrite;
    GoodFacts(l);
    var c := l.chan;
    PlanReadIs(c, size, split);
    var n := Gives(|c.buf|, c.prod, c.cons, size, split);
    var k := Chunk(|c.buf|, c.cons, n);
    var at := Mask(c.cons, |c.buf|);
    DoGood(l, BeginRead(size, split));
    var l1 := Do(l, BeginRead(size, split));
    assert l1 == l.(reader := FirstPart(at, k, n - k));
    ReadRest(l1, at, k, n - k);
    assert Line(c.(cons := Wrap(c.cons + (k + (n - k))), got := c.got + (c.buf[at..at + k] + c.buf[..n - k])), l.writer,
      Waiting)
        == l.(chan := Took(c, size, split));
  }

  /** A whole write appends the bytes it accepts. */
  lemma {:induction false} WriteCall(buf: seq<byte>, prod: u32, cons: u32, data: seq<byte>)
    requires RingSize(|buf|) && Fill(prod, cons) < |buf|
    ensures var n := Accepts(|buf|, prod, cons, |data|, true); var k := Chunk(|buf|, prod, n); var p := Wrap(prod + n);
      && n - k <= |buf| && Fill(p, cons) == Fill(prod, cons) + n <= |buf|
      && Slots(Poke(Poke(buf, Mask(prod, |buf|), data[..k]), 0, data[k..n]), cons, Fill(p, cons))
           == Slots(buf, cons, Fill(prod, cons)) + data[..n]
  {
    hide Slots, Poke, Fill, Mask, Wrap;
    StillSane(buf, prod, cons);
    var l := Line(Still(buf, prod, cons), Resting, Waiting);
    WriteSteps(l, data, true);
    var c := Wrote(l.chan, data, true);
    assert Sane(c);
    assert c.sent[0..] + [] == c.sent;
    FillAdd(prod, cons, Accepts(|buf|, prod, cons, |data|, true));
  }

  /** A whole read takes the oldest bytes. */
  lemma {:induction false} ReadCall(buf: seq<byte>, prod: u32, cons: u32, size: nat)
    requires RingSize(|buf|) && 0 < Fill(prod, cons) <= |buf|
    ensures var n := Min(size, Fill(prod, cons)); var k := Chunk(|buf|, cons, n); var at := Mask(cons, |buf|);
      var c := Wrap(cons + n);
      && n - k <= |buf| && Fill(prod, c) == Fill(prod, cons) - n
      && Slots(buf, cons, Fill(prod, cons)) == (buf[at..at + k] + buf[0..n - k]) + Slots(buf, c, Fill(prod, c))
  {
    hide Slots, Poke, Fill, Mask, Wrap;
    StillSane(buf, prod, cons);
    var l := Line(Still(buf, prod, cons), Resting, Waiting);
    ReadSteps(l, size, true);
    var c := Took(l.chan, size, true);
    assert Sane(c);
    assert c.sent == c.got + c.sent[|c.got|..];
    assert c.sent[|c.got|..] + [] == c.sent[|c.got|..];
    FillSub(prod, cons, Min(size, Fill(prod, cons)));
    var n := Min(size, Fill(prod, cons));
    var k := Chunk(|buf|, cons, n);
    assert c.got == buf[Mask(cons, |buf|)..Mask(cons, |buf|) + k] + buf[0..n - k];
  }
}
