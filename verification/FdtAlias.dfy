/**
 Paths that begin with an alias (libfdt/fdt_ro.c): fdt_path_offset looks the first component up
 among the properties of /aliases and calls itself on the value found there. When a value names an
 alias again the calls may never end; exactly when is settled here.
 */
module FdtAlias {
  import opened Bytes
  import opened Options
  import opened FdtTokens
  import opened FdtRead
  import opened FdtPath
  import opened FdtLookup

  const ALIASES: seq<byte> := [SLASH, 0x61, 0x6c, 0x69, 0x61, 0x73, 0x65, 0x73]

  predicate Relative(path: seq<byte>) { path == [] || path[0] != SLASH }

  /** fdt_get_alias_namelen: the property of /aliases with that name. */
  function Alias(s: seq<byte>, strs: seq<byte>, name: Name): (r: Result<nat>)
    ensures r.Ok? ==> r.value + 12 <= |s|
    ensures r.Err? ==> r.error == BadPath
  {
    var a := PathStep(s, 0, ALIASES);
    if a.Err? then Err(BadPath)
    else
      var x := FindProp(s, strs, a.value, name);
      if x.Err? then Err(BadPath) else x
  }

  /** The value as a C string; without a NUL up to the end of the block the read leaves it. */
  function TextAt(s: seq<byte>, x: nat): (r: Result<seq<byte>>)
    requires x + 12 <= |s|
  {
    var z := Nul(s, x + 12);
    if z == |s| then Err(Wild) else Ok(s[x + 12..z])
  }

  /** An end tag holds a NUL, so in front of one every value is a string. */
  lemma {:induction false} TextTerminated(s: seq<byte>, x: nat, e: nat)
    requires x + 12 <= e && NextTag(s, e).Tok? && NextTag(s, e).token.End?
    ensures x + 12 <= |s| && TextAt(s, x).Ok?
  {
    assert Word(s, e) == FDT_END;
    assert s[e] == 0;
  }

  function First(path: seq<byte>): Name { path[..Upto(path)] }

  /** Alias properties already read on the way, none outside the block. */
  predicate Seen(s: seq<byte>, seen: set<nat>) { forall x :: x in seen ==> x < |s| }

  lemma {:induction false} SeenSize(n: nat, seen: set<nat>)
    requires forall x :: x in seen ==> x < n
    ensures |seen| <= n
    decreases n
  {
    if n == 0 {
      assert seen == {};
    } else {
      SeenSize(n - 1, seen - {n - 1});
      assert seen <= (seen - {n - 1}) + {n - 1};
    }
  }

  /** fdt_path_offset. A property read a second time is read for ever. */
  function Follow(s: seq<byte>, strs: seq<byte>, path: seq<byte>, seen: set<nat>): (r: Result<nat>)
    requires Seen(s, seen)
    decreases |s| - |seen|
  {
    if !Relative(path) then PathStep(s, 0, path)
    else
      var x := Alias(s, strs, First(path));
      if x.Err? then Err(x.error)
      else if x.value in seen then Err(Endless)
      else
        var text := TextAt(s, x.value);
        if text.Err? then Err(text.error)
        else
          SeenSize(|s|, seen + {x.value});
          var r := Follow(s, strs, text.value, seen + {x.value});
          if r.Err? then r else PathStep(s, r.value, path[Upto(path)..])
  }

  // ---------- The chain of aliases ----------

  /** The path the next call is made with. */
  function Hop(s: seq<byte>, strs: seq<byte>, path: seq<byte>): (r: Option<seq<byte>>) {
    if !Relative(path) then None
    else
      var x := Alias(s, strs, First(path));
      if x.Err? || TextAt(s, x.value).Err? then None else Some(TextAt(s, x.value).value)
  }

  /** The path of the n-th call inside the first. */
  function Nth(s: seq<byte>, strs: seq<byte>, path: seq<byte>, n: nat): (r: Option<seq<byte>>)
    decreases n
  {
    if n == 0 then Some(path)
    else
      var h := Hop(s, strs, path);
      if h.None? then None else Nth(s, strs, h.value, n - 1)
  }

  lemma {:induction false} NthSplit(s: seq<byte>, strs: seq<byte>, path: seq<byte>, a: nat, b: nat)
    ensures Nth(s, strs, path, a + b).Some? ==> Nth(s, strs, path, a).Some?
    ensures Nth(s, strs, path, a).Some? ==> Nth(s, strs, path, a + b) == Nth(s, strs, Nth(s, strs, path, a).value, b)
    decreases a
  {
    hide Hop;
    var h := Hop(s, strs, path);
    if a > 0 && h.Some? { NthSplit(s, strs, h.value, a - 1, b); }
  }

  /** Once a chain comes back to where it was, it never ends. */
  lemma {:induction false} Cycle(s: seq<byte>, strs: seq<byte>, path: seq<byte>, k: nat, n: nat)
    requires Nth(s, strs, path, k + 1) == Some(path)
    ensures Nth(s, strs, path, n).Some?
    decreases n
  {
    hide Nth;
    if n <= k {
      NthSplit(s, strs, path, n, k + 1 - n);
    } else {
      NthSplit(s, strs, path, k + 1, n - (k + 1));
      Cycle(s, strs, path, k, n - (k + 1));
    }
  }

  ghost predicate Forever(s: seq<byte>, strs: seq<byte>, path: seq<byte>) {
    forall n: nat :: Nth(s, strs, path, n).Some?
  }

  lemma {:induction false} ForeverStep(s: seq<byte>, strs: seq<byte>, path: seq<byte>)
    ensures Forever(s, strs, path) <==> Hop(s, strs, path).Some? && Forever(s, strs, Hop(s, strs, path).value)
  {
    hide Hop;
    var h := Hop(s, strs, path);
    if Forever(s, strs, path) {
      assert Nth(s, strs, path, 1).Some?;
      forall n: nat ensures Nth(s, strs, h.value, n).Some? { assert Nth(s, strs, path, n + 1).Some?; }
    }
    if h.Some? && Forever(s, strs, h.value) {
      forall n: nat ensures Nth(s, strs, path, n).Some? { if n > 0 { assert Nth(s, strs, h.value, n - 1).Some?; } }
    }
  }

  /** The path in hand was reached from the text of every property seen. */
  ghost predicate Behind(s: seq<byte>, strs: seq<byte>, path: seq<byte>, seen: set<nat>)
  {
    forall x :: x in seen ==> x + 12 <= |s| && TextAt(s, x).Ok? && exists k: nat ::
      Nth(s, strs, TextAt(s, x).value, k) == Some(path)
  }

  lemma {:induction false} BehindStep(s: seq<byte>, strs: seq<byte>, path: seq<byte>, x: nat, seen: set<nat>)
    requires Behind(s, strs, path, seen) && Relative(path) && Alias(s, strs, First(path)) == Ok(x) && TextAt(s, x).Ok?
    ensures Behind(s, strs, TextAt(s, x).value, seen + {x})
  {
    hide Alias, TextAt, Relative, First;
    var next := TextAt(s, x).value;
    HopIs(s, strs, path, x);
    forall y | y in seen + {x}
      ensures y + 12 <= |s| && TextAt(s, y).Ok? && exists k: nat :: Nth(s, strs, TextAt(s, y).value, k) == Some(next)
    {
      if y in seen {
        var k: nat :| Nth(s, strs, TextAt(s, y).value, k) == Some(path);
        NthSplit(s, strs, TextAt(s, y).value, k, 1);
        NthOne(s, strs, path);
        assert Nth(s, strs, TextAt(s, y).value, k + 1) == Some(next);
      } else {
        assert Nth(s, strs, next, 0) == Some(next);
      }
    }
  }

  lemma {:induction false} HopIs(s: seq<byte>, strs: seq<byte>, path: seq<byte>, x: nat)
    requires Relative(path) && Alias(s, strs, First(path)) == Ok(x) && TextAt(s, x).Ok?
    ensures Hop(s, strs, path) == Some(TextAt(s, x).value)
  {
    hide Alias, TextAt, Relative, First;
  }

  lemma {:induction false} NthOne(s: seq<byte>, strs: seq<byte>, path: seq<byte>)
    ensures Nth(s, strs, path, 1) == Hop(s, strs, path)
  {
    hide Hop;
    var h := Hop(s, strs, path);
    if h.Some? { assert Nth(s, strs, h.value, 0) == Some(h.value); }
  }

  // ---------- Ordinary failures ----------

  lemma {:induction false} NodeFromEnds(s: seq<byte>, o: nat, depth: nat, want: seq<byte> -> bool)
    ensures NodeFrom(s, o, depth, want) != Err(Endless)
    decreases if o < |s| then |s| - o else 0
  {
    TagEnds(s, o);
    hide NextTag;
    match NextTag(s, o)
    case Bad(_) =>
    case Tok(t, n) =>
      match t
      case End =>
      case BeginNode(name) => NodeFromEnds(s, n, depth + 1, want);
      case EndNode => if depth > 0 { NodeFromEnds(s, n, depth - 1, want); }
      case Prop(_, _) => NodeFromEnds(s, n, depth, want);
      case Nop => NodeFromEnds(s, n, depth, want);
  }

  lemma {:induction false} TagEnds(s: seq<byte>, o: nat)
    ensures NextTag(s, o) != Bad(Endless)
  {
    hide Word, Align4;
  }

  lemma {:induction false} StepEnds(s: seq<byte>, node: nat, path: seq<byte>)
    ensures PathStep(s, node, path) != Err(Endless)
    decreases |path|
  {
    hide NextTag, NodeFrom, NameEq;
    if path != [] {
      if path[0] == SLASH {
        StepEnds(s, node, path[1..]);
      } else {
        var n := Upto(path);
        var m := CheckNode(s, node);
        if m.Ok? { NodeFromEnds(s, m.value, 0, Named(path[..n])); }
        var k := FindChild(s, node, path[..n]);
        SlashLater(path);
        if k.Ok? { StepEnds(s, k.value, path[n..]); }
      }
    }
  }

  // ---------- The exact condition ----------

  lemma {:induction false} FollowEndless(s: seq<byte>, strs: seq<byte>, path: seq<byte>, seen: set<nat>)
    requires Seen(s, seen) && Behind(s, strs, path, seen)
    ensures Follow(s, strs, path, seen) == Err(Endless) <==> Forever(s, strs, path)
    decreases |s| - |seen|
  {
    hide Alias, TextAt, Relative, First, PathStep, Behind, Forever, Nth, Upto;
    ForeverStep(s, strs, path);
    if !Relative(path) {
      StepEnds(s, 0, path);
    } else {
      var x := Alias(s, strs, First(path));
      if x.Ok? && x.value in seen {
        Returns(s, strs, path, seen, x.value);
      } else if x.Ok? && TextAt(s, x.value).Ok? {
        SeenSize(|s|, seen + {x.value});
        BehindStep(s, strs, path, x.value, seen);
        var text := TextAt(s, x.value).value;
        FollowEndless(s, strs, text, seen + {x.value});
        var r := Follow(s, strs, text, seen + {x.value});
        if r.Ok? { StepEnds(s, r.value, path[Upto(path)..]); }
      } else if x.Ok? {
        TextEnds(s, x.value);
      }
    }
  }

  lemma {:induction false} TextEnds(s: seq<byte>, x: nat)
    requires x + 12 <= |s|
    ensures TextAt(s, x) != Err(Endless)
  {
  }

  lemma {:induction false} Returns(s: seq<byte>, strs: seq<byte>, path: seq<byte>, seen: set<nat>, x: nat)
    requires Behind(s, strs, path, seen) && x in seen && x + 12 <= |s| && Relative(path)
      && Alias(s, strs, First(path)) == Ok(x)
    ensures Forever(s, strs, path)
  {
    hide Alias, TextAt, Relative, First, Nth;
    var text := TextAt(s, x).value;
    HopIs(s, strs, path, x);
    var k: nat :| Nth(s, strs, text, k) == Some(path);
    NthSplit(s, strs, text, k, 1);
    NthOne(s, strs, path);
    forall n: nat ensures Nth(s, strs, text, n).Some? { Cycle(s, strs, text, k, n); }
    ForeverStep(s, strs, path);
  }

  /** fdt_path_offset never returns exactly if every path in its chain of aliases begins with an alias again. */
  lemma {:induction false} EndlessExactly(s: seq<byte>, strs: seq<byte>, path: seq<byte>)
    ensures Follow(s, strs, path, {}) == Err(Endless) <==> Forever(s, strs, path)
  {
    hide Follow, Forever, Nth;
    FollowEndless(s, strs, path, {});
  }

  /** An alias of itself is the smallest such chain; an absolute path never is one. */
  lemma {:induction false} SelfAlias(s: seq<byte>, strs: seq<byte>, path: seq<byte>)
    ensures Hop(s, strs, path) == Some(path) ==> Follow(s, strs, path, {}) == Err(Endless)
    ensures !Relative(path) ==> Follow(s, strs, path, {}) == PathOffset(s, path) != Err(Endless)
  {
    hide Nth, Alias, TextAt, First, PathStep;
    EndlessExactly(s, strs, path);
    if Hop(s, strs, path) == Some(path) {
      NthOne(s, strs, path);
      forall n: nat ensures Nth(s, strs, path, n).Some? { Cycle(s, strs, path, 0, n); }
    }
    StepEnds(s, 0, path);
  }

  /** fdt_path_offset with its calls to itself. */
  method LookUpPath(s: seq<byte>, strs: seq<byte>, path: seq<byte>, seen: set<nat>) returns (r: Result<nat>)
    requires Seen(s, seen)
    ensures r == Follow(s, strs, path, seen)
    decreases |s| - |seen|
  {
    hide FindProp, PathStep;
    var p, offset := 0, 0;
    if Relative(path) {
      p := FindSlash(path, 0);
      assert path[0..] == path;
      var a := Descend(s, 0, ALIASES, 0);
      assert ALIASES[0..] == ALIASES;
      if a.Err? { return Err(BadPath); }
      var x := FindProp(s, strs, a.value, path[..p]);
      if x.Err? { return Err(BadPath); }
      if x.value in seen { return Err(Endless); }
      var text := TextAt(s, x.value);
      if text.Err? { return Err(text.error); }
      SeenSize(|s|, seen + {x.value});
      r := LookUpPath(s, strs, text.value, seen + {x.value});
      if r.Err? { return; }
      offset := r.value;
    }
    r := Descend(s, offset, path, p);
    assert path[0..] == path;
  }
}
