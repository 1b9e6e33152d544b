/**
 The vchan data path: two byte rings in one shared page, each written by one side and read by the
 other, with copies in two parts where the buffer wraps.
 */
module Vchan {
  import opened Bytes
  import opened Options
  import opened Rings
  import opened RingLine

  const PAGE_SIZE: nat := 4096

  // ---------- Layout ----------

  /** 1 << order, for the two orders in use. */
  function Size(order: nat): (n: nat)
    requires order == 10 || order == 11
    ensures RingSize(n)
  {
    if order == 10 then 1024 else 2048
  }

  /** The two index pairs of the page. */
  datatype Side = Left | Right

  /** One end: the orders of its buffers, which also place them in the page, and its index pairs. */
  datatype End = End(readOrder: nat, writeOrder: nat, rx: Side, tx: Side) {
    predicate Ok() { (readOrder == 10 && writeOrder == 11) || (readOrder == 11 && writeOrder == 10) }

    function ReadAt(): nat requires Ok() { Size(readOrder) }

    function WriteAt(): nat requires Ok() { Size(writeOrder) }
  }

  /** vch_open: the orders the server picks for the sizes asked for. */
  function Open(minRead: nat, minWrite: nat): (r: Option<End>)
    ensures r.Some? ==> r.value.Ok()
  {
    if minRead <= 1024 && minWrite <= 2048 then Some(End(10, 11, Left, Right))
    else if minRead <= 2048 && minWrite <= 1024 then Some(End(11, 10, Left, Right))
    else None
  }

  /** vch_connect, from the orders the server left in the page. */
  function Connect(left: nat, right: nat): (r: End) {
    End(right, left, Right, Left)
  }

  /** Large enough, inside the page behind its header, apart, and crossed over. */
  lemma {:induction false} Layout(minRead: nat, minWrite: nat)
    ensures Open(minRead, minWrite).Some? <==>
      (minRead <= 1024 && minWrite <= 2048) || (minRead <= 2048 && minWrite <= 1024)
    ensures Open(minRead, minWrite).Some? ==>
      var s := Open(minRead, minWrite).value; var c := Connect(s.readOrder, s.writeOrder);
      && c.Ok() && Size(s.readOrder) >= minRead && Size(s.writeOrder) >= minWrite
      && c.ReadAt() == s.WriteAt() && c.WriteAt() == s.ReadAt() && c.rx == s.tx && c.tx == s.rx
      && s.rx != s.tx && Size(c.readOrder) == Size(s.writeOrder) && Size(c.writeOrder) == Size(s.readOrder)
      && 1024 <= s.ReadAt() && s.ReadAt() + Size(s.readOrder) <= PAGE_SIZE
      && 1024 <= s.WriteAt() && s.WriteAt() + Size(s.writeOrder) <= PAGE_SIZE
      && (s.ReadAt() + Size(s.readOrder) <= s.WriteAt() || s.WriteAt() + Size(s.writeOrder) <= s.ReadAt())
  {
  }

  // ---------- The shared page ----------

  lemma {:induction false} StoreWindow(d: seq<byte>, base: nat, size: nat, at: nat, v: seq<byte>, other: nat)
    requires base + size <= |d| && at + |v| <= size && 2 * other <= |d| && (2 * other <= base || base + size <= other)
    ensures Poke(d, base + at, v)[base..base + size] == Poke(d[base..base + size], at, v)
    ensures Poke(d, base + at, v)[other..2 * other] == d[other..2 * other]
  {
  }

  lemma {:induction false} NoWrap(x: u32)
    ensures Wrap(x + 0) == x
  {
  }

  class Page {
    const mem: array<byte>
    var leftCons: u32
    var leftProd: u32
    var rightCons: u32
    var rightProd: u32

    /** memset and vch_open: both rings empty. */
    constructor ()
      ensures fresh(mem) && mem.Length == PAGE_SIZE && Prod(Left) == Cons(Left) == Prod(Right) == Cons(Right) == 0
    {
      mem := new byte[PAGE_SIZE](_ => 0);
      leftCons, leftProd, rightCons, rightProd := 0, 0, 0, 0;
    }

    function Prod(s: Side): u32
      reads this
    {
      if s.Left? then leftProd else rightProd
    }

    function Cons(s: Side): u32
      reads this
    {
      if s.Left? then leftCons else rightCons
    }

    /** The ring of an order, which is also its offset. */
    ghost function Ring(order: nat): (b: seq<byte>)
      requires mem.Length == PAGE_SIZE && (order == 10 || order == 11)
      reads mem
      ensures |b| == Size(order)
    {
      mem[Size(order)..2 * Size(order)]
    }

    /** The bytes on their way through a ring. */
    ghost function Contents(order: nat, s: Side): (b: seq<byte>)
      requires mem.Length == PAGE_SIZE && (order == 10 || order == 11)
      reads this, mem
    {
      Slots(Ring(order), Cons(s), Fill(Prod(s), Cons(s)))
    }

    /** memcpy into a ring; the other ring does not notice. */
    method Store(order: nat, at: nat, v: seq<byte>)
      requires mem.Length == PAGE_SIZE && (order == 10 || order == 11) && at + |v| <= Size(order)
      modifies mem
      ensures Ring(order) == Poke(old(Ring(order)), at, v) && Ring(21 - order) == old(Ring(21 - order))
    {
      var base := Size(order);
      ghost var was := mem[..];
      forall i | 0 <= i < |v| { mem[base + at + i] := v[i]; }
      assert mem[..] == Poke(was, base + at, v);
      StoreWindow(was, base, base, at, v, Size(21 - order));
      assert Ring(order) == mem[..][base..2 * base]
        && Ring(21 - order) == mem[..][Size(21 - order)..2 * Size(21 - order)];
    }

    /** memcpy out of a ring. */
    method Fetch(order: nat, at: nat, n: nat) returns (v: seq<byte>)
      requires mem.Length == PAGE_SIZE && (order == 10 || order == 11) && at + n <= Size(order)
      ensures v == Ring(order)[at..at + n]
    {
      v := mem[Size(order) + at..Size(order) + at + n];
    }

    /** vch_write on a live channel, without waiting for room. */
    method Write(e: End, data: seq<byte>) returns (n: nat)
      requires mem.Length == PAGE_SIZE && e.Ok() && Fill(Prod(e.tx), Cons(e.tx)) <= Size(e.writeOrder)
      modifies mem, this`leftProd, this`rightProd
      ensures n == Min(|data|, Size(e.writeOrder) - old(Fill(Prod(e.tx), Cons(e.tx))))
      ensures Contents(e.writeOrder, e.tx) == old(Contents(e.writeOrder, e.tx)) + data[..n]
      ensures Prod(e.tx) == Wrap(old(Prod(e.tx)) + n) && Fill(Prod(e.tx), Cons(e.tx)) <= Size(e.writeOrder)
      ensures e.rx != e.tx ==>
        Prod(e.rx) == old(Prod(e.rx)) && Contents(e.readOrder, e.rx) == old(Contents(e.readOrder, e.rx))
    {
      hide Slots, Ring, Fill, Mask, Wrap;
      n := Put(e.writeOrder, e.tx, data);
      var p := Wrap(Prod(e.tx) + n);
      if e.tx.Left? { leftProd := p; } else { rightProd := p; }
    }

    /** The copies of a write, in two parts where the buffer wraps. */
    method Put(order: nat, side: Side, data: seq<byte>) returns (n: nat)
      requires mem.Length == PAGE_SIZE && (order == 10 || order == 11) && Fill(Prod(side), Cons(side)) <= Size(order)
      modifies mem
      ensures n == Min(|data|, Size(order) - Fill(Prod(side), Cons(side)))
      ensures var p := Wrap(Prod(side) + n);
        && Fill(p, Cons(side)) <= Size(order)
        && Slots(Ring(order), Cons(side), Fill(p, Cons(side))) == old(Contents(order, side)) + data[..n]
      ensures Ring(21 - order) == old(Ring(21 - order))
    {
      hide Slots, Poke, Ring, Fill, Mask, Wrap;
      var size, prod, cons := Size(order), Prod(side), Cons(side);
      var avail := size - Fill(prod, cons);
      if avail == 0 {
        assert Contents(order, side) + data[..0] == Contents(order, side);
        NoWrap(prod);
        return 0;
      }
      n := Min(|data|, avail);
      var chunk := Min(size - Mask(prod, size), n);
      WriteCall(Ring(order), prod, cons, data);
      assert chunk == Chunk(size, prod, n);
      Store(order, Mask(prod, size), data[..chunk]);
      Store(order, 0, data[chunk..n]);
    }

    /** vch_read on a live channel, without waiting for data. */
    method Read(e: End, size: nat) returns (data: seq<byte>)
      requires mem.Length == PAGE_SIZE && e.Ok() && Fill(Prod(e.rx), Cons(e.rx)) <= Size(e.readOrder)
      modifies this`leftCons, this`rightCons
      ensures |data| == Min(size, old(Fill(Prod(e.rx), Cons(e.rx))))
      ensures old(Contents(e.readOrder, e.rx)) == data + Contents(e.readOrder, e.rx)
      ensures Cons(e.rx) == Wrap(old(Cons(e.rx)) + |data|) && Fill(Prod(e.rx), Cons(e.rx)) <= Size(e.readOrder)
      ensures e.rx != e.tx ==>
        Cons(e.tx) == old(Cons(e.tx)) && Contents(e.writeOrder, e.tx) == old(Contents(e.writeOrder, e.tx))
    {
      hide Slots, Ring, Fill, Mask, Wrap;
      data := Take(e.readOrder, e.rx, size);
      var c := Wrap(Cons(e.rx) + |data|);
      if e.rx.Left? { leftCons := c; } else { rightCons := c; }
    }

    /** The copies of a read: the oldest bytes, in two parts where the buffer wraps. */
    method Take(order: nat, side: Side, size: nat) returns (data: seq<byte>)
      requires mem.Length == PAGE_SIZE && (order == 10 || order == 11) && Fill(Prod(side), Cons(side)) <= Size(order)
      ensures |data| == Min(size, Fill(Prod(side), Cons(side)))
      ensures var c := Wrap(Cons(side) + |data|);
        && Fill(Prod(side), c) <= Size(order)
        && Contents(order, side) == data + Slots(Ring(order), c, Fill(Prod(side), c))
    {
      hide Slots, Ring, Fill, Mask, Wrap;
      var rsize, prod, cons := Size(order), Prod(side), Cons(side);
      var avail := Fill(prod, cons);
      if avail == 0 {
        assert [] + Contents(order, side) == Contents(order, side);
        NoWrap(cons);
        return [];
      }
      var at, n := Mask(cons, rsize), Min(size, avail);
      var chunk := Min(rsize - at, n);
      ReadCall(Ring(order), prod, cons, size);
      var first := Fetch(order, at, chunk);
      var second := Fetch(order, 0, n - chunk);
      data := first + second;
    }
  }
}
