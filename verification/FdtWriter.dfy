/**
 The sequential writer at work in memory: the buffer is a window of one byte array, which
 fdt_resize may move to another, possibly overlapping, window.
 */
module FdtWriter {
  import opened Bytes
  import opened Seqs
  import opened FdtTokens
  import opened FdtBlob
  import opened FdtSw

  /** What is left of a window when another range is overwritten. */
  lemma {:induction false} MoveMisses(d: seq<byte>, dst: nat, src: nat, n: nat, a: nat, b: nat)
    requires dst + n <= |d| && src + n <= |d| && a <= b <= |d| && (b <= dst || dst + n <= a)
    ensures Memmove(d, dst, src, n)[a..b] == d[a..b] && Memmove(d, dst, src, n)[dst..dst + n] == d[src..src + n]
  {
  }

  lemma {:induction false} ResizedFails(w: Writer, bufsize: nat, z: seq<byte>)
    requires w.Apart() && bufsize < INT32_MAX && |z| == bufsize && w.offStruct + w.sizeStruct + w.sizeStrings > bufsize
    ensures Resized(w, bufsize, z).r == Err(NoSpace) && Resized(w, bufsize, z).w == w
  {
  }

  /** What a successful fdt_resize leaves, once the new window is in place. */
  lemma {:induction false} ResizedView(w: Writer, bufsize: nat, z: seq<byte>)
    requires w.Apart() && bufsize < INT32_MAX && |z| == bufsize && w.offStruct + w.sizeStruct + w.sizeStrings <= bufsize
    requires z == w.data[..w.offStruct + w.sizeStruct] + z[w.offStruct + w.sizeStruct..bufsize - w.sizeStrings]
      + w.data[|w.data| - w.sizeStrings..]
    ensures var f := Resized(w, bufsize, z); f.r.Ok? && f.w == w.(data := z) && f.w.Apart()
  {
  }

  lemma {:induction false} PokeIs(d: seq<byte>, e: seq<byte>, at: nat, v: seq<byte>)
    requires at + |v| <= |d| == |e|
    requires forall i :: 0 <= i < |v| ==> e[at + i] == v[i]
    requires forall i :: 0 <= i < at || at + |v| <= i < |d| ==> e[i] == d[i]
    ensures e == Poke(d, at, v)
  {
    assert e[at..at + |v|] == v;
    assert e[..at] == d[..at] && e[at + |v|..] == d[at + |v|..];
    assert e == e[..at] + e[at..at + |v|] + e[at + |v|..];
  }

  class SwWriter {
    var mem: array<byte>
    var base: nat
    var total: nat
    var dedup: bool
    var phase: Phase
    var offStruct: nat
    var sizeStruct: nat
    var sizeStrings: nat

    ghost predicate Valid()
      reads this, mem
    {
      base + total <= mem.Length && View().Apart()
    }

    ghost function View(): (w: Writer)
      requires base + total <= mem.Length
      reads this, mem
      ensures |w.data| == total
    {
      Writer(Seg(0, total), dedup, phase, offStruct, sizeStruct, sizeStrings)
    }

    /** All of memory. */
    ghost function All(): (s: seq<byte>)
      reads this`mem, mem
      ensures |s| == mem.Length
    {
      mem[..]
    }

    /** The bytes between two offsets of the buffer. */
    ghost function Seg(a: nat, b: nat): (s: seq<byte>)
      requires a <= b && base + b <= mem.Length
      reads this`base, this`mem, mem
      ensures |s| == b - a
    {
      All()[base + a..base + b]
    }

    method Read(a: nat, b: nat) returns (s: seq<byte>)
      requires a <= b && base + b <= mem.Length
      ensures s == Seg(a, b)
    {
      s := mem[base + a..base + b];
    }

    /** fdt_create_with_flags on a window that is large enough. */
    constructor (mem: array<byte>, base: nat, size: nat, dedup: bool)
      requires base + size <= mem.Length && HEADER_SIZE <= size < INT32_MAX
      modifies mem
      ensures this.mem == mem && Valid() && View() == Create(size, dedup).value
    {
      this.mem, this.base, this.total, this.dedup := mem, base, size, dedup;
      phase, offStruct, sizeStruct, sizeStrings := MemRsv, HEADER_SIZE, 0, 0;
      new;
      forall i | 0 <= i < size { mem[base + i] := 0; }
      assert All()[base..base + size] == Zeros(size);
    }

    method Store(at: nat, v: seq<byte>)
      requires base + total <= mem.Length && at + |v| <= total
      modifies mem
      ensures All() == Poke(old(All()), base + at, v)
      ensures Seg(0, total) == Poke(old(Seg(0, total)), at, v)
    {
      hide All, Poke;
      CopyIn(base + at, v);
      PokeWindow(old(All()), base, total, at, v);
    }

    /** memcpy to any place in memory. */
    method CopyIn(at: nat, v: seq<byte>)
      requires at + |v| <= mem.Length
      modifies mem
      ensures All() == Poke(old(All()), at, v)
    {
      hide Poke;
      forall i | 0 <= i < |v| { mem[at + i] := v[i]; }
      PokeIs(old(All()), All(), at, v);
    }

    /** memmove between any two ranges of memory. */
    method Move(dst: nat, src: nat, n: nat)
      requires dst + n <= mem.Length && src + n <= mem.Length
      modifies mem
      ensures All() == Memmove(old(All()), dst, src, n)
    {
      ghost var was := All();
      forall i | 0 <= i < n { mem[dst + i] := mem[src + i]; }
      assert mem[dst..dst + n] == was[src..src + n];
      assert mem[..dst] == was[..dst] && mem[dst + n..] == was[dst + n..];
      assert All() == mem[..dst] + mem[dst..dst + n] + mem[dst + n..];
    }

    /** fdt_add_reservemap_entry. */
    method Reserve(entry: seq<byte>) returns (r: Result<()>)
      requires Valid() && |entry| == 16
      modifies this`offStruct, mem
      ensures Valid() && Done(r, View()) == AddReserve(old(View()), entry)
    {
      hide Poke, All;
      if phase != MemRsv { return Err(BadState); }
      if offStruct + 16 > total { return Err(NoSpace); }
      Store(offStruct, entry);
      offStruct := offStruct + 16;
      return Ok(());
    }

    /** fdt_finish_reservemap. */
    method EndReserve() returns (r: Result<()>)
      requires Valid()
      modifies this`offStruct, this`phase, mem
      ensures Valid() && Done(r, View()) == FinishReserve(old(View()))
    {
      hide AddReserve, All;
      r := Reserve(Zeros(16));
      if r.Err? { return; }
      phase := Structure;
      return Ok(());
    }

    /** fdt_grab_space_ and the stores that follow it. */
    method GrabSpace(len: nat, v: seq<byte>) returns (r: Result<()>)
      requires Valid() && phase == Structure && |v| <= len && len % 4 == 0
      modifies this`sizeStruct, mem
      ensures Valid() && Done(r, View()) == Grab(old(View()), len, v)
    {
      hide Poke, All;
      if sizeStruct + len > total - offStruct - sizeStrings { return Err(NoSpace); }
      Store(offStruct + sizeStruct, v);
      sizeStruct := sizeStruct + len;
      return Ok(());
    }

    /** fdt_begin_node. */
    method Begin(name: seq<byte>) returns (r: Result<()>)
      requires Valid()
      modifies this`sizeStruct, mem
      ensures Valid() && Done(r, View()) == OpenNode(old(View()), name)
    {
      hide Grab, Be32, All;
      if phase != Structure { return Err(BadState); }
      r := GrabSpace(4 + Align4(|name| + 1), Be32(FDT_BEGIN_NODE) + name + [0]);
    }

    /** fdt_end_node. */
    method End() returns (r: Result<()>)
      requires Valid()
      modifies this`sizeStruct, mem
      ensures Valid() && Done(r, View()) == CloseNode(old(View()))
    {
      hide Grab, Be32, All;
      if phase != Structure { return Err(BadState); }
      r := GrabSpace(4, Be32(FDT_END_NODE));
    }

    /** fdt_find_string_ over the table at the end of the buffer. */
    method Find(name: seq<byte>) returns (r: Result<nat>)
      requires Valid()
      ensures r == FindString(View().Strings(), name, 0)
    {
      hide All, Seg;
      var buf := Read(0, total);
      var tab := buf[total - sizeStrings..];
      var p := 0;
      while p + |name| + 1 <= |tab|
        invariant FindString(tab, name, 0) == FindString(tab, name, p)
      {
        if tab[p..p + |name| + 1] == name + [0] { return Ok(p); }
        p := p + 1;
      }
      return Err(NotFound);
    }

    /** fdt_find_add_string_: the name's distance from the end of the buffer. */
    method Name(name: seq<byte>) returns (r: Result<nat>)
      requires Valid() && phase == Structure && |name| < INT32_MAX
      modifies this`sizeStrings, mem
      ensures Valid() && (r, View()) == NameOf(old(View()), name)
    {
      hide FindString, All, AddString;
      if dedup {
        var p := Find(name);
        if p.Ok? { return Ok(sizeStrings - p.value); }
      }
      var a := AddName(name);
      return if a.Ok? then Ok(sizeStrings) else Err(a.error);
    }

    /** fdt_add_string_. */
    method AddName(name: seq<byte>) returns (r: Result<()>)
      requires Valid() && phase == Structure && |name| < INT32_MAX
      modifies this`sizeStrings, mem
      ensures Valid() && Done(r, View()) == AddString(old(View()), name)
    {
      hide Poke, All;
      var offset := sizeStrings + |name| + 1;
      if Wrap(total - offset) < offStruct + sizeStruct { return Err(NoSpace); }
      if offset > total { return Err(Wild); }
      Store(total - offset, name + [0]);
      sizeStrings := offset;
      return Ok(());
    }

    /** fdt_property. */
    method Property(name: seq<byte>, val: seq<byte>) returns (r: Result<()>)
      requires Valid() && |name| < INT32_MAX && |val| < INT32_MAX
      modifies this`sizeStrings, this`sizeStruct, mem
      ensures Valid() && Done(r, View()) == AddProp(old(View()), name, val)
    {
      hide NameOf, Grab, PropHeader, All, Seg;
      if phase != Structure { return Err(BadState); }
      var was := sizeStrings;
      var n := Name(name);
      if n.Err? { return Err(n.error); }
      r := GrabSpace(12 + Align4(|val|), PropHeader(|val|, 0x1_0000_0000 - n.value) + val);
      if r.Err? { sizeStrings := was; }
    }

    /** fdt_resize: the head and the tail survive however the two windows overlap. */
    method Resize(buf: nat, bufsize: nat) returns (r: Result<()>)
      requires Valid() && buf + bufsize <= mem.Length && bufsize < INT32_MAX
      modifies this`base, this`total, mem
      ensures Valid()
      ensures var f := Resized(old(View()), bufsize, All()[buf..buf + bufsize]);
        (r.Ok? <==> f.r.Ok?) && (r.Err? ==> r == f.r) && View() == f.w
      ensures r.Ok? ==> base == buf && total == bufsize
    {
      hide All, Resized;
      var headsize, tailsize := offStruct + sizeStruct, sizeStrings;
      if headsize + tailsize > bufsize {
        ResizedFails(View(), bufsize, All()[buf..buf + bufsize]);
        return Err(NoSpace);
      }
      Shift(buf, bufsize);
      base, total := buf, bufsize;
      return Ok(());
    }

    /** The move of a writer that fits its new window. */
    method Shift(buf: nat, bufsize: nat)
      requires Valid() && buf + bufsize <= mem.Length && bufsize < INT32_MAX
        && offStruct + sizeStruct + sizeStrings <= bufsize
      modifies mem
      ensures var z := All()[buf..buf + bufsize]; var f := Resized(old(View()), bufsize, z);
        f.r.Ok? && f.w == old(View()).(data := z) && f.w.Apart()
    {
      hide All, Resized;
      ghost var w := View();
      Place(buf, bufsize, offStruct + sizeStruct, sizeStrings);
      ResizedView(w, bufsize, All()[buf..buf + bufsize]);
    }

    /** The new window starts with the old head and ends with the old tail. */
    method Place(buf: nat, bufsize: nat, headsize: nat, tailsize: nat)
      requires base + total <= mem.Length && buf + bufsize <= mem.Length && headsize + tailsize <= total
        && headsize + tailsize <= bufsize
      modifies mem
      ensures All()[buf..buf + bufsize]
           == old(Seg(0, total))[..headsize] + All()[buf..buf + bufsize][headsize..bufsize - tailsize]
             + old(Seg(0, total))[total - tailsize..]
    {
      hide Image, All;
      ghost var was := All();
      Copy(buf, bufsize, headsize, tailsize);
      CopyKeeps(was, All(), base, total, buf, bufsize, headsize, tailsize);
    }

    /** The two copies, ordered so that neither clobbers what the other still needs. */
    method Copy(buf: nat, bufsize: nat, headsize: nat, tailsize: nat)
      requires base + total <= mem.Length && buf + bufsize <= mem.Length && headsize + tailsize <= total
        && headsize + tailsize <= bufsize
      modifies mem
      ensures All() == Image(old(All()), base, total, buf, bufsize, headsize, tailsize)
    {
      hide Memmove, All;
      var oldtail, newtail := base + total - tailsize, buf + bufsize - tailsize;
      if buf <= base {
        Move(buf, base, headsize);
        Move(newtail, oldtail, tailsize);
      } else {
        Move(newtail, oldtail, tailsize);
        Move(buf, base, headsize);
      }
    }

    /** The walk of fdt_finish, rewriting each name offset in place. */
    method TurnNames(top: nat) returns (r: Result<()>)
      requires base + total <= mem.Length && offStruct + sizeStruct == top && top + sizeStrings <= total
      modifies mem
      ensures var f := FixNames(old(Seg(offStruct, top)), 0, sizeStrings);
        (r.Ok? <==> f.Ok?) && (r.Err? ==> r.error == f.error) && (r.Ok? ==> Seg(offStruct, top) == f.value)
      ensures Seg(0, offStruct) == old(Seg(0, offStruct))
        && Seg(top, top + sizeStrings) == old(Seg(top, top + sizeStrings))
    {
      hide NextTag, Be32, Poke, Seg, All;
      var s := Read(offStruct, top);
      var offset := 0;
      while true
        invariant 0 <= offset && |s| == sizeStruct && s == Seg(offStruct, top)
        invariant Seg(0, offStruct) == old(Seg(0, offStruct))
          && Seg(top, top + sizeStrings) == old(Seg(top, top + sizeStrings))
        invariant FixNames(old(Seg(offStruct, top)), 0, sizeStrings) == FixNames(s, offset, sizeStrings)
        decreases if offset < sizeStruct then sizeStruct - offset else 0
      {
        var t := NextTag(s, offset);
        if t.Bad? { return Err(t.error); }
        if t.token.End? { return Ok(()); }
        if t.token.Prop? {
          PropRoom(s, offset);
          StoreName(offset, Wrap(t.token.nameoff + sizeStrings), top);
          s := Read(offStruct, top);
        }
        offset := t.next;
      }
    }

    /** fdt_finish: terminator, string table moved up, name offsets turned round, header set. */
    method Finish() returns (r: Result<Blob>)
      requires Valid()
      modifies this, mem
      ensures r == FdtSw.Finish(old(View()))
      ensures mem == old(mem) && base == old(base)
      ensures r.Ok? ==>
        phase == Complete && total == |r.value.data| && base + total <= mem.Length && Seg(0, total) == r.value.data
    {
      hide Be32, Grab, FixNames, Seg, All;
      if phase != Structure { return Err(BadState); }
      var done := GrabSpace(4, Be32(FDT_END));
      if done.Err? { return Err(NoSpace); }
      var top := offStruct + sizeStruct;
      Gather(top);
      var walked := TurnNames(top);
      if walked.Err? { return Err(walked.error); }
      JoinSegments(offStruct, top, top + sizeStrings);
      total := top + sizeStrings;
      phase := Complete;
      var data := Read(0, total);
      r := Ok(Blob(data, HEADER_SIZE, offStruct, sizeStruct, top, sizeStrings));
    }

    lemma {:induction false} JoinSegments(a: nat, b: nat, c: nat)
      requires a <= b <= c && base + c <= mem.Length
      ensures Seg(0, c) == Seg(0, a) + Seg(a, b) + Seg(b, c)
    {
    }

    /** Move the string table up against the structure block. */
    method Gather(top: nat)
      requires Valid() && top == offStruct + sizeStruct
      modifies mem
      ensures Seg(offStruct, top) == old(View()).Struct() && Seg(0, offStruct) == old(View()).data[..offStruct]
      ensures Seg(top, top + sizeStrings) == old(View()).Strings()
    {
      hide Memmove, All;
      GatherKeeps(All(), base, total, offStruct, top, sizeStrings);
      Move(base + top, base + total - sizeStrings, sizeStrings);
    }

    method StoreName(offset: nat, nameoff: u32, top: nat)
      requires offset + 12 <= top - offStruct && base + total <= mem.Length && top + sizeStrings <= total
        && offStruct <= top
      modifies mem
      ensures Seg(offStruct, top) == Poke(old(Seg(offStruct, top)), offset + 8, Be32(nameoff))
      ensures Seg(0, offStruct) == old(Seg(0, offStruct))
        && Seg(top, top + sizeStrings) == old(Seg(top, top + sizeStrings))
    {
      hide Be32, Poke, All;
      PokeInside(All(), base, offStruct, top, sizeStrings, offset + 8, Be32(nameoff));
      Store(offStruct + offset + 8, Be32(nameoff));
    }
  }

  lemma {:induction false} PokeMisses(d: seq<byte>, at: nat, v: seq<byte>, a: nat, b: nat)
    requires at + |v| <= |d| && a <= b <= |d| && (b <= at || at + |v| <= a)
    ensures Poke(d, at, v)[a..b] == d[a..b]
  {
  }

  lemma {:induction false} PokeInside(d: seq<byte>, base: nat, off: nat, top: nat, tail: nat, at: nat, v: seq<byte>)
    requires off <= top && base + top + tail <= |d| && at + |v| <= top - off
    ensures var e := Poke(d, base + (off + at), v);
      && e[base + off..base + top] == Poke(d[base + off..base + top], at, v)
      && e[base..base + off] == d[base..base + off]
      && e[base + top..base + (top + tail)] == d[base + top..base + (top + tail)]
  {
    hide Poke;
    PokeWindow(d, base + off, top - off, at, v);
    PokeMisses(d, base + off + at, v, base, base + off);
    PokeMisses(d, base + off + at, v, base + top, base + top + tail);
  }

  lemma {:induction false} PropRoom(s: seq<byte>, o: nat)
    requires NextTag(s, o).Tok? && NextTag(s, o).token.Prop?
    ensures o + 12 <= |s|
  {
  }

  /** The two copies of fdt_resize, in the order it chooses. */
  ghost function Image(was: seq<byte>, a: nat, n: nat, b: nat, m: nat, head: nat, tail: nat): (now: seq<byte>)
    requires a + n <= |was| && b + m <= |was| && head + tail <= n && head + tail <= m
  {
    if b <= a then Memmove(Memmove(was, b, a, head), b + m - tail, a + n - tail, tail)
    else Memmove(Memmove(was, b + m - tail, a + n - tail, tail), b, a, head)
  }

  lemma {:induction false} ImageKeeps(was: seq<byte>, a: nat, n: nat, b: nat, m: nat, head: nat, tail: nat)
    requires a + n <= |was| && b + m <= |was| && head + tail <= n && head + tail <= m
    ensures var now := Image(was, a, n, b, m, head, tail);
      |now| == |was| && now[b..b + head] == was[a..a + head] && now[b + m - tail..b + m] == was[a + n - tail..a + n]
  {
    hide Memmove;
    var o, w := a + n - tail, b + m - tail;
    if b <= a {
      MoveMisses(was, b, a, head, o, o + tail);
      MoveMisses(Memmove(was, b, a, head), w, o, tail, b, b + head);
    } else {
      MoveMisses(was, w, o, tail, a, a + head);
      MoveMisses(Memmove(was, w, o, tail), b, a, head, w, w + tail);
    }
  }

  lemma {:induction false} CopyKeeps(was: seq<byte>, now: seq<byte>, a: nat, n: nat, b: nat, m: nat, head: nat,
                                     tail: nat)
    requires a + n <= |was| && b + m <= |was| && head + tail <= n && head + tail <= m
      && now == Image(was, a, n, b, m, head, tail)
    ensures b + m <= |now| && now[b..b + m] == was[a..a + n][..head] + now[b..b + m][head..m - tail]
      + was[a..a + n][n - tail..]
  {
    hide Image;
    ImageKeeps(was, a, n, b, m, head, tail);
    WindowMoved(was, now, a, n, b, m, head, tail);
  }

  lemma {:induction false} GatherKeeps(was: seq<byte>, base: nat, total: nat, off: nat, top: nat, tail: nat)
    requires base + total <= |was| && off <= top && top + tail <= total
    ensures var now := Memmove(was, base + top, base + total - tail, tail);
      var data := was[base..base + total];
      && now[base..base + off] == data[..off] && now[base + off..base + top] == data[off..top]
      && now[base + top..base + top + tail] == data[total - tail..]
  {
    hide Memmove;
    SliceSlice(was, base, base + total, 0, off);
    SliceSlice(was, base, base + total, off, top);
    SliceSlice(was, base, base + total, total - tail, total);
    MoveMisses(was, base + top, base + total - tail, tail, base, base + off);
    MoveMisses(was, base + top, base + total - tail, tail, base + off, base + top);
  }

  lemma {:induction false} WindowMoved(was: seq<byte>, now: seq<byte>, a: nat, n: nat, b: nat, m: nat, head: nat,
                                       tail: nat)
    requires a + n <= |was| && b + m <= |now| && head + tail <= n && head + tail <= m
    requires now[b..b + head] == was[a..a + head] && now[b + m - tail..b + m] == was[a + n - tail..a + n]
    ensures now[b..b + m] == was[a..a + n][..head] + now[b..b + m][head..m - tail] + was[a..a + n][n - tail..]
  {
    SliceSlice(was, a, a + n, 0, head);
    SliceSlice(was, a, a + n, n - tail, n);
    SliceSlice(now, b, b + m, head, m - tail);
    assert now[b..b + m] == now[b..b + head] + now[b + head..b + m - tail] + now[b + m - tail..b + m];
  }
}
