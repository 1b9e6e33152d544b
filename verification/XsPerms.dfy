/**
 Permission lists on the wire: one letter, a decimal domain id and a NUL for each element.
 */
module XsPerms {
  import opened Decimal
  import opened Options
  import opened XsStore

  const DOMID_MASK: nat := 0x7FFF
  const NUL: char := 0 as char

  datatype WireError = EINVAL | EPROTO | ENOSPC
  datatype Parsed<T> = Ok(value: T) | Err(error: WireError)

  /** xenstore_perm_to_wire. */
  function ToWire(r: Rights): (c: char) {
    if r.read then (if r.write then 'b' else 'r') else if r.write then 'w' else 'n'
  }

  /** xenstore_perm_from_wire. */
  function FromWire(c: char): (r: Parsed<Rights>)
    ensures r.Err? ==> r.error == EINVAL
  {
    if c == 'w' then Ok(WRITE)
    else if c == 'r' then Ok(READ)
    else if c == 'b' then Ok(Rights(true, true))
    else if c == 'n' then Ok(NONE)
    else Err(EINVAL)
  }

  /** The letters are a bijection. */
  lemma {:induction false} LettersExact(r: Rights, c: char)
    ensures FromWire(c) == Ok(r) <==> c == ToWire(r)
    ensures c == ToWire(r) ==> (r.read <==> c in "rb") && (r.write <==> c in "wb")
  {
  }

  /** serialize_perms. */
  function Serialize(ps: seq<Perm>): (s: string) {
    if ps == [] then [] else [ToWire(ps[0].rights)] + Dec(ps[0].domid) + [NUL] + Serialize(ps[1..])
  }

  /** The loop of serialize_perms. */
  method SerializePerms(ps: seq<Perm>) returns (s: string)
    ensures s == Serialize(ps)
  {
    hide Dec;
    s := "";
    var i := 0;
    assert ps[0..] == ps;
    while i < |ps|
      invariant i <= |ps| && Serialize(ps) == s + Serialize(ps[i..])
    {
      assert ps[i..][1..] == ps[i + 1..];
      var one := [ToWire(ps[i].rights)] + Dec(ps[i].domid) + [NUL];
      assert s + (one + Serialize(ps[i + 1..])) == s + one + Serialize(ps[i + 1..]);
      s := s + one;
      i := i + 1;
    }
    assert ps[i..] == [];
  }

  /** strnlen. */
  function Strnlen(s: string): (n: nat)
    ensures n <= |s| && (forall i :: 0 <= i < n ==> s[i] != NUL) && (n < |s| ==> s[n] == NUL)
  {
    if s == [] || s[0] == NUL then 0 else 1 + Strnlen(s[1..])
  }

  /** One element without its NUL: a letter and a domain id with nothing after it. */
  function Element(s: string): (r: Parsed<Perm>)
    requires |s| >= 2
    ensures r.Ok? ==> r.value.domid <= DOMID_MASK
  {
    var letter := FromWire(s[0]);
    if letter.Err? then Err(letter.error)
    else
      var d := Strtoul(s[1..]);
      if d.end == 0 || d.end != |s| - 1 || d.range || d.value > DOMID_MASK then Err(EPROTO)
      else Ok(Perm(d.value, letter.value))
  }

  /** xenstore_perm_parse_wire with room for so many more elements, or only counting. */
  function Parse(s: string, room: Option<nat>): (r: Parsed<seq<Perm>>)
    decreases |s|
  {
    if s == [] then Ok([])
    else
      var n := Strnlen(s);
      if n == |s| || n < 2 then Err(EPROTO)
      else if room == Some(0) then Err(ENOSPC)
      else
        var p := Element(s[..n]);
        if p.Err? then Err(p.error)
        else
          var rest := Parse(s[n + 1..], if room.Some? then Some(room.value - 1) else None);
          if rest.Err? then rest else Ok([p.value] + rest.value)
  }

  /** Every parsed id has fifteen bits, and every element took at least three bytes. */
  lemma {:induction false} ParseBounds(s: string, room: Option<nat>)
    ensures var r := Parse(s, room); r.Ok? ==>
      (forall p :: p in r.value ==> p.domid <= DOMID_MASK) && 3 * |r.value| <= |s| && (s != [] ==> r.value != [])
    decreases |s|
  {
    hide Element, Strnlen;
    if s != [] && Parse(s, room).Ok? {
      var n := Strnlen(s);
      ParseBounds(s[n + 1..], if room.Some? then Some(room.value - 1) else None);
    }
  }

  /** The counting pass and the filling pass agree: room decides only whether the list fits. */
  lemma {:induction false} PassesAgree(s: string, room: nat)
    ensures var c := Parse(s, None); var f := Parse(s, Some(room));
      && (c.Ok? ==> f == if |c.value| <= room then c else Err(ENOSPC))
      && (c.Err? ==> f.Err? && f.error in {c.error, ENOSPC})
    decreases |s|
  {
    hide Element, Strnlen;
    if s != [] {
      var n := Strnlen(s);
      if n < |s| && n >= 2 && room > 0 { PassesAgree(s[n + 1..], room - 1); }
    }
  }

  lemma {:induction false} StrnlenOf(h: string, t: string)
    requires forall c :: c in h ==> c != NUL
    ensures Strnlen(h + [NUL] + t) == |h|
    decreases |h|
  {
    var s := h + [NUL] + t;
    if h != [] {
      assert h[0] in h && forall c :: c in h[1..] ==> c in h;
      assert s[1..] == h[1..] + [NUL] + t;
      StrnlenOf(h[1..], t);
    }
  }

  lemma {:induction false} ElementOf(p: Perm)
    requires p.domid <= DOMID_MASK
    ensures Element([ToWire(p.rights)] + Dec(p.domid)) == Ok(p)
  {
    var s := [ToWire(p.rights)] + Dec(p.domid);
    assert s[1..] == Dec(p.domid);
    StrtoulOfDec(p.domid);
    LettersExact(p.rights, s[0]);
  }

  lemma {:induction false} ElementText(p: Perm)
    ensures forall c :: c in [ToWire(p.rights)] + Dec(p.domid) ==> c != NUL
  {
  }

  lemma {:induction false} ParseCons(h: string, t: string, p: Perm)
    requires |h| >= 2 && (forall c :: c in h ==> c != NUL) && Element(h) == Ok(p)
    ensures Parse(h + [NUL] + t, None) == if Parse(t, None).Ok? then Ok([p] + Parse(t, None).value) else Parse(t, None)
  {
    hide Element;
    var s := h + [NUL] + t;
    StrnlenOf(h, t);
    assert s[..|h|] == h && s[|h| + 1..] == t;
  }

  /** Parsing a serialised list gives the list back, in order. */
  lemma {:induction false} RoundTrip(ps: seq<Perm>)
    requires forall p :: p in ps ==> p.domid <= DOMID_MASK
    ensures Parse(Serialize(ps), None) == Ok(ps)
    decreases |ps|
  {
    if ps != [] {
      assert ps[0] in ps && forall p :: p in ps[1..] ==> p in ps;
      var h, t := [ToWire(ps[0].rights)] + Dec(ps[0].domid), Serialize(ps[1..]);
      var s := Serialize(ps);
      assert s == h + [NUL] + t;
      ElementOf(ps[0]);
      RoundTrip(ps[1..]);
      ElementText(ps[0]);
      hide Serialize;
      ParseCons(h, t, ps[0]);
      assert [ps[0]] + ps[1..] == ps;
    }
  }

  /** What a list parsed from any text means survives being written out again. */
  lemma {:induction false} Normalises(s: string)
    requires Parse(s, None).Ok?
    ensures Parse(Serialize(Parse(s, None).value), None) == Parse(s, None)
  {
    ParseBounds(s, None);
    RoundTrip(Parse(s, None).value);
  }

  /** The parser's loop, filling an array or only counting. */
  method ParseWire(raw: string, perms: array?<Perm>) returns (r: Parsed<nat>)
    modifies perms
    ensures var f := Parse(raw, if perms == null then None else Some(perms.Length));
      && (r.Ok? <==> f.Ok?) && (r.Err? ==> r.error == f.error)
      && (r.Ok? ==> r.value == |f.value| && (perms != null ==> r.value <= perms.Length && perms[..r.value] == f.value))
  {
    hide Element, Strnlen, Parse, Resumes;
    ghost var room: Option<nat> := if perms == null then None else Some(perms.Length);
    ghost var got: seq<Perm> := [];
    var copied, off := 0, 0;
    ResumesStart(raw, room);
    while off < |raw|
      invariant off <= |raw| && |got| == copied && (perms != null ==> copied <= perms.Length && perms[..copied] == got)
      invariant Resumes(raw, room, off, got)
      decreases |raw| - off
    {
      ResumesStep(raw, room, off, got);
      var n := Strnlen(raw[off..]);
      if n == |raw| - off || n < 2 { return Err(EPROTO); }
      if perms != null && copied >= perms.Length { return Err(ENOSPC); }
      var p := Element(raw[off..off + n]);
      if p.Err? { return Err(p.error); }
      if perms != null { perms[copied] := p.value; }
      got := got + [p.value];
      copied, off := copied + 1, off + n + 1;
    }
    ResumesEnd(raw, room, got);
    return Ok(copied);
  }

  /** The rest of the text gives the rest of the list. */
  ghost predicate Resumes(raw: string, room: Option<nat>, off: nat, got: seq<Perm>)
    requires off <= |raw|
  {
    && (room.Some? ==> |got| <= room.value)
    && var rest := Parse(raw[off..], if room.Some? then Some(room.value - |got|) else None);
       Parse(raw, room) == if rest.Ok? then Ok(got + rest.value) else rest
  }

  lemma {:induction false} ResumesStart(raw: string, room: Option<nat>)
    ensures Resumes(raw, room, 0, [])
  {
    hide Element, Strnlen;
    assert raw[0..] == raw;
    var rest := Parse(raw, room);
    if rest.Ok? { assert [] + rest.value == rest.value; }
  }

  lemma {:induction false} ResumesEnd(raw: string, room: Option<nat>, got: seq<Perm>)
    requires Resumes(raw, room, |raw|, got)
    ensures Parse(raw, room) == Ok(got)
  {
    assert raw[|raw|..] == [];
    assert got + [] == got;
  }

  lemma {:induction false} ResumesStep(raw: string, room: Option<nat>, off: nat, got: seq<Perm>)
    requires off < |raw| && Resumes(raw, room, off, got)
    ensures var n := Strnlen(raw[off..]);
      if n == |raw| - off || n < 2 then Parse(raw, room) == Err(EPROTO)
      else if room == Some(|got|) then Parse(raw, room) == Err(ENOSPC)
      else
        var p := Element(raw[off..off + n]);
        if p.Err? then Parse(raw, room) == Err(p.error) else Resumes(raw, room, off + n + 1, got + [p.value])
  {
    hide Element;
    var n := Strnlen(raw[off..]);
    if n < |raw| - off && n >= 2 {
      assert raw[off..][..n] == raw[off..off + n] && raw[off..][n + 1..] == raw[off + n + 1..];
      var p := Element(raw[off..off + n]);
      hide Strnlen;
      if room != Some(|got|) && p.Ok? {
        var rest := Parse(raw[off + n + 1..], if room.Some? then Some(room.value - |got| - 1) else None);
        if rest.Ok? { assert got + ([p.value] + rest.value) == got + [p.value] + rest.value; }
      }
    }
  }

  /** deserialize_perms: one pass to count, one to fill; an empty or malformed list is refused. */
  method Deserialize(s: string) returns (r: Option<seq<Perm>>)
    ensures r == if Parse(s, None).Ok? && s != [] then Some(Parse(s, None).value) else None
  {
    hide Parse;
    var n := ParseWire(s, null);
    ParseBounds(s, None);
    if n.Err? || n.value == 0 {
      EmptyParse();
      return None;
    }
    var a := new Perm[n.value](_ => Perm(0, NONE));
    var m := ParseWire(s, a);
    PassesAgree(s, n.value);
    EmptyParse();
    assert a[..m.value] == a[..];
    return Some(a[..]);
  }

  lemma {:induction false} EmptyParse()
    ensures Parse("", None) == Ok([])
  {
  }
}
