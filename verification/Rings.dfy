/**
 Byte rings with free-running 32-bit indices, shared by the XenStore transport
 (xenstore-common/src/xenstore_common.c) and the vchan data path (vch/src/vch.c).
 */
module Rings {
  import opened Bytes

  const U32 := 0x1_0000_0000

  function Min(a: nat, b: nat): nat { if a < b then a else b }

  predicate RingSize(n: nat) { n == 1024 || n == 2048 }

  /** prod - cons in 32 bits. */
  function Fill(prod: u32, cons: u32): (r: nat)
    ensures r < U32 && Wrap(cons + r) == prod
  {
    (prod - cons) % U32
  }

  /** The `n` bytes from index `from` on. */
  function Slots(buf: seq<byte>, from: nat, n: nat): (r: seq<byte>)
    requires RingSize(|buf|)
    ensures |r| == n
  {
    seq(n, i requires 0 <= i < n => buf[(from + i) % |buf|])
  }

  /** Slots that do not run past the end are a slice of the buffer. */
  lemma {:induction false} Contiguous(buf: seq<byte>, from: nat, n: nat)
    requires RingSize(|buf|) && from % |buf| + n <= |buf|
    ensures Slots(buf, from, n) == buf[from % |buf|..from % |buf| + n]
  {
    forall i | 0 <= i < n ensures Slots(buf, from, n)[i] == buf[from % |buf|..from % |buf| + n][i] {
      SlotPlus(|buf|, from, i);
    }
  }

  /** An index and its 32-bit wrap name the same slot. */
  lemma {:induction false} SameSlot(n: nat, x: nat)
    requires RingSize(n)
    ensures Wrap(x) % n == x % n
  {
    var k := x / U32;
    assert x == Wrap(x) + k * U32;
    if n == 1024 { Whole1024(Wrap(x), k * 0x40_0000); } else { Whole2048(Wrap(x), k * 0x20_0000); }
  }

  lemma {:induction false} Whole1024(a: nat, m: nat)
    ensures (a + m * 1024) % 1024 == a % 1024
  {
  }

  lemma {:induction false} Whole2048(a: nat, m: nat)
    ensures (a + m * 2048) % 2048 == a % 2048
  {
  }

  /** Slots less than a ring apart are different. */
  lemma {:induction false} SlotsDiffer(n: nat, a: nat, b: nat)
    requires RingSize(n) && a < b < a + n
    ensures a % n != b % n
  {
  }

  lemma {:induction false} SlotPlus(n: nat, a: nat, j: nat)
    requires RingSize(n) && a % n + j < n
    ensures (a + j) % n == a % n + j
  {
  }

  /** Storing `v` at index `from + n`, without running past the buffer's end, appends it to the slots. */
  lemma {:induction false} StoreAppends(buf: seq<byte>, from: nat, n: nat, v: seq<byte>)
    requires RingSize(|buf|) && n + |v| <= |buf| && (from + n) % |buf| + |v| <= |buf|
    ensures Slots(Poke(buf, (from + n) % |buf|, v), from, n + |v|) == Slots(buf, from, n) + v
  {
    var size, at := |buf|, (from + n) % |buf|;
    var c := Poke(buf, at, v);
    forall i | 0 <= i < n + |v| ensures c[(from + i) % size] == (Slots(buf, from, n) + v)[i] {
      if i < n {
        KeptSlot(size, from, n, |v|, i);
        assert c[(from + i) % size] == buf[(from + i) % size];
      } else {
        SlotPlus(size, from + n, i - n);
        assert from + n + (i - n) == from + i;
        assert c[at + (i - n)] == v[i - n];
      }
    }
  }

  lemma {:induction false} KeptSlot(size: nat, from: nat, n: nat, k: nat, i: nat)
    requires RingSize(size) && i < n && n + k <= size && (from + n) % size + k <= size
    ensures (from + i) % size < (from + n) % size || (from + n) % size + k <= (from + i) % size
  {
    var s, at := (from + i) % size, (from + n) % size;
    if at <= s < at + k {
      SlotPlus(size, from + n, s - at);
      SlotsDiffer(size, from + i, from + n + (s - at));
    }
  }

  /** A store that stays clear of the slots in use leaves them alone. */
  lemma {:induction false} SlotsSplit(buf: seq<byte>, from: nat, n: nat, k: nat)
    requires RingSize(|buf|) && k <= n
    ensures Slots(buf, from, n)[..k] == Slots(buf, from, k) && Slots(buf, from, n)[k..] == Slots(buf, from + k, n - k)
  {
    forall i | 0 <= i < n - k ensures Slots(buf, from, n)[k..][i] == Slots(buf, from + k, n - k)[i] {
      assert from + (k + i) == from + k + i;
    }
  }

  lemma {:induction false} SlotsWrap(buf: seq<byte>, from: nat, n: nat)
    requires RingSize(|buf|)
    ensures Slots(buf, Wrap(from), n) == Slots(buf, from, n)
  {
    forall i | 0 <= i < n ensures Slots(buf, Wrap(from), n)[i] == Slots(buf, from, n)[i] {
      SameSlot(|buf|, from);
      ModShift(|buf|, Wrap(from), from, i);
    }
  }

  lemma {:induction false} ModShift(n: nat, a: nat, b: nat, i: nat)
    requires RingSize(n) && a % n == b % n
    ensures (a + i) % n == (b + i) % n
  {
  }

  // ---------- Two parties ----------

  /**
   One direction of a channel. A party first copies bytes and publishes its index later; `wrote`
   and `taken` are the bytes copied but not yet published, `sent` and `got` the two streams so far.
   */
  datatype Chan = Chan(buf: seq<byte>, prod: u32, cons: u32, wrote: seq<byte>, taken: seq<byte>, sent: seq<byte>,
                       got: seq<byte>)

  datatype Action =
    | Copy(data: seq<byte>)
    | Publish
    | Take(n: nat)
    | Release

  ghost predicate Sane(c: Chan) {
    && RingSize(|c.buf|)
    && |c.got| + Fill(c.prod, c.cons) == |c.sent| && c.got <= c.sent
    && Fill(c.prod, c.cons) + |c.wrote| <= |c.buf|
    && |c.taken| <= Fill(c.prod, c.cons) && c.taken == c.sent[|c.got|..|c.got| + |c.taken|]
    && Slots(c.buf, c.cons, Fill(c.prod, c.cons) + |c.wrote|) == c.sent[|c.got|..] + c.wrote
  }

  /** Bytes already copied by the producer, counted from the consumer's index. */
  function Held(c: Chan): nat { Fill(c.prod, c.cons) + |c.wrote| }

  /**
   The steps of either side. A copy goes to the slot behind the last one filled, does not run past
   the buffer's end in one piece, and takes no more room, or data, than the index it read allows.
   */
  predicate Enabled(c: Chan, a: Action)
    requires RingSize(|c.buf|)
  {
    match a
    case Copy(data) => Held(c) + |data| <= |c.buf| && (c.cons + Held(c)) % |c.buf| + |data| <= |c.buf|
    case Publish => true
    case Take(n) => |c.taken| + n <= Fill(c.prod, c.cons)
    case Release => true
  }

  function Next(c: Chan, a: Action): (r: Chan)
    requires RingSize(|c.buf|) && Enabled(c, a)
    ensures |r.buf| == |c.buf|
  {
    match a
    case Copy(data) => c.(buf := Poke(c.buf, (c.cons + Held(c)) % |c.buf|, data), wrote := c.wrote + data)
    case Publish => c.(prod := Wrap(c.prod + |c.wrote|), wrote := [], sent := c.sent + c.wrote)
    case Take(n) => c.(taken := c.taken + Slots(c.buf, c.cons + |c.taken|, n))
    case Release => c.(cons := Wrap(c.cons + |c.taken|), taken := [], got := c.got + c.taken)
  }

  lemma {:induction false} CopySane(c: Chan, data: seq<byte>)
    requires Sane(c) && Enabled(c, Copy(data))
    ensures Sane(Next(c, Copy(data)))
  {
    hide Slots, Poke;
    StoreAppends(c.buf, c.cons, Held(c), data);
    assert c.sent[|c.got|..] + c.wrote + data == c.sent[|c.got|..] + (c.wrote + data);
  }

  lemma {:induction false} FillAdd(prod: u32, cons: u32, n: nat)
    requires Fill(prod, cons) + n < U32
    ensures Fill(Wrap(prod + n), cons) == Fill(prod, cons) + n
  {
  }

  lemma {:induction false} FillSub(prod: u32, cons: u32, n: nat)
    requires n <= Fill(prod, cons)
    ensures Fill(prod, Wrap(cons + n)) == Fill(prod, cons) - n
  {
  }

  lemma {:induction false} PublishSane(c: Chan)
    requires Sane(c)
    ensures Sane(Next(c, Publish))
  {
    hide Slots, Fill;
    FillAdd(c.prod, c.cons, |c.wrote|);
    var d := Next(c, Publish);
    assert d.sent[|d.got|..] + [] == c.sent[|c.got|..] + c.wrote;
    assert d.sent[|d.got|..|d.got| + |d.taken|] == c.sent[|c.got|..|c.got| + |c.taken|];
  }

  lemma {:induction false} TakeSane(c: Chan, n: nat)
    requires Sane(c) && Enabled(c, Take(n))
    ensures Sane(Next(c, Take(n)))
  {
    hide Slots, Fill;
    var m, k, s := Held(c), |c.taken|, c.sent[|c.got|..] + c.wrote;
    SlotsSplit(c.buf, c.cons, m, k);
    SlotsSplit(c.buf, c.cons + k, m - k, n);
    assert s[k..][..n] == c.sent[|c.got| + k..|c.got| + k + n];
    assert c.sent[|c.got|..|c.got| + k] + c.sent[|c.got| + k..|c.got| + k + n] == c.sent[|c.got|..|c.got| + (k + n)];
  }

  lemma {:induction false} ReleaseSane(c: Chan)
    requires Sane(c)
    ensures Sane(Next(c, Release))
  {
    hide Slots, Fill;
    var d, k := Next(c, Release), |c.taken|;
    FillSub(c.prod, c.cons, k);
    SlotsSplit(c.buf, c.cons, Held(c), k);
    SlotsWrap(c.buf, c.cons + k, Held(c) - k);
    assert (c.sent[|c.got|..] + c.wrote)[k..] == c.sent[|c.got| + k..] + c.wrote;
    assert d.got == c.sent[..|c.got| + k];
  }

  /** Every step of either side keeps the channel sane. */
  lemma {:induction false} NextSane(c: Chan, a: Action)
    requires Sane(c) && Enabled(c, a)
    ensures Sane(Next(c, a))
  {
    hide Sane, Slots, Fill;
    match a
    case Copy(data) => CopySane(c, data);
    case Publish => PublishSane(c);
    case Take(n) => TakeSane(c, n);
    case Release => ReleaseSane(c);
  }

  /** An empty channel is sane. */
  lemma {:induction false} EmptySane(buf: seq<byte>, start: u32)
    requires RingSize(|buf|)
    ensures Sane(Chan(buf, start, start, [], [], [], []))
  {
  }
}
