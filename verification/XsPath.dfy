/**
 XenStore paths: which strings are accepted, how they split into components, and when one path
 contains another.
 */
module XsPath {
  import opened Decimal

  const ABS_PATH_MAX: nat := 3072
  const REL_PATH_MAX: nat := 2048

  /** The error codes; `Undefined` where the code leaves defined behaviour. */
  datatype Errno = EINVAL | E2BIG | EACCES | ENOENT | Undefined
  datatype Outcome<T> = Ok(value: T) | Err(error: Errno)

  type Name = seq<char>
  type Comps = seq<Name>

  predicate PathChar(c: char) {
    'A' <= c <= 'Z' || 'a' <= c <= 'z' || '0' <= c <= '9' || c == '-' || c == '_' || c == '@' || c == '/'
  }

  /** A component: not empty, legal characters, no separator. */
  predicate IsName(n: Name) {
    n != [] && forall c :: c in n ==> PathChar(c) && c != '/'
  }

  predicate AreNames(cs: Comps) {
    forall c :: c in cs ==> IsName(c)
  }

  function Join(cs: Comps): (r: string) {
    if cs == [] then "" else "/" + cs[0] + Join(cs[1..])
  }

  /** The one absolute spelling of a component list. */
  function PathOf(cs: Comps): (r: string) {
    if cs == [] then "/" else Join(cs)
  }

  /** Length of the text in front of the first separator. */
  function Run(s: string): (n: nat)
    ensures n <= |s| && (forall i :: 0 <= i < n ==> s[i] != '/') && (n < |s| ==> s[n] == '/')
  {
    if s == [] || s[0] == '/' then 0 else 1 + Run(s[1..])
  }

  /** The words strtok_r finds between separators. */
  function Tokens(s: string): (cs: Comps)
    decreases |s|
  {
    if s == [] then []
    else if s[0] == '/' then Tokens(s[1..])
    else [s[..Run(s)]] + Tokens(s[Run(s)..])
  }

  /** No illegal character, no empty component, no trailing separator. */
  predicate Clean(s: string) {
    && s != [] && (forall c :: c in s ==> PathChar(c))
    && (forall i :: 0 < i < |s| ==> !(s[i - 1] == '/' && s[i] == '/'))
    && s[|s| - 1] != '/'
  }

  function LimitOf(s: string): nat {
    if s != [] && s[0] == '/' then ABS_PATH_MAX else REL_PATH_MAX
  }

  predicate Accepted(s: string) {
    s == "/" || (Clean(s) && |s| + 1 <= LimitOf(s))
  }

  /** xenstore_path_validate. */
  method Validate(path: string) returns (r: Outcome<()>)
    ensures r.Ok? <==> Accepted(path)
    ensures r == Err(E2BIG) <==> Clean(path) && |path| + 1 > LimitOf(path)
    ensures r.Err? ==> r.error in {EINVAL, E2BIG}
  {
    if path == "" { return Err(EINVAL); }
    if path == "/" { return Ok(()); }
    var prev := 0 as char;
    var i := 0;
    while i < |path|
      invariant i <= |path| && prev == (if i == 0 then 0 as char else path[i - 1])
      invariant forall c :: c in path[..i] ==> PathChar(c)
      invariant forall k :: 0 < k < i ==> !(path[k - 1] == '/' && path[k] == '/')
    {
      if !PathChar(path[i]) {
        assert path[i] in path;
        return Err(EINVAL);
      }
      if path[i] == '/' && prev == '/' { return Err(EINVAL); }
      prev := path[i];
      assert path[..i + 1] == path[..i] + [path[i]];
      i := i + 1;
    }
    assert path[..i] == path;
    if prev == '/' { return Err(EINVAL); }
    if |path| + 1 > LimitOf(path) { return Err(E2BIG); }
    return Ok(());
  }

  // ---------- Components and spellings ----------

  lemma {:induction false} RunOf(n: Name, rest: string)
    requires (forall c :: c in n ==> c != '/') && (rest == "" || rest[0] == '/')
    ensures Run(n + rest) == |n|
    decreases |n|
  {
    if n != [] {
      assert n[0] in n && forall c :: c in n[1..] ==> c in n;
      assert (n + rest)[1..] == n[1..] + rest;
      RunOf(n[1..], rest);
    }
  }

  lemma {:induction false} JoinHead(cs: Comps)
    ensures cs == [] <==> Join(cs) == ""
    ensures cs != [] ==> Join(cs)[0] == '/'
  {
  }

  lemma {:induction false} TokensOfJoin(cs: Comps)
    requires AreNames(cs)
    ensures Tokens(Join(cs)) == cs
    decreases |cs|
  {
    if cs != [] {
      var rest := Join(cs[1..]);
      JoinHead(cs[1..]);
      assert cs[0] in cs;
      RunOf(cs[0], rest);
      assert ("/" + cs[0] + rest)[1..] == cs[0] + rest;
      var s := cs[0] + rest;
      assert s[..|cs[0]|] == cs[0] && s[|cs[0]|..] == rest;
      assert s[0] == cs[0][0] && cs[0][0] in cs[0];
      assert forall c :: c in cs[1..] ==> c in cs;
      TokensOfJoin(cs[1..]);
    }
  }

  /** Splitting inverts spelling. */
  lemma {:induction false} TokensOfPath(cs: Comps)
    requires AreNames(cs)
    ensures Tokens(PathOf(cs)) == cs
  {
    if cs == [] {
      assert "/"[1..] == "";
    } else {
      TokensOfJoin(cs);
    }
  }

  lemma {:induction false} CleanTail(s: string, n: nat)
    requires Clean(s) && n < |s|
    ensures Clean(s[n..])
  {
    forall c | c in s[n..] ensures PathChar(c) { assert c in s; }
    var z := s[n..];
    forall i | 0 < i < |z| ensures !(z[i - 1] == '/' && z[i] == '/') {
      assert z[i] == s[n + i] && z[i - 1] == s[n + i - 1];
    }
  }

  lemma {:induction false} CleanWords(s: string)
    requires Clean(s) && s[0] != '/'
    ensures AreNames(Tokens(s)) && "/" + s == Join(Tokens(s))
    decreases |s|
  {
    var n := Run(s);
    var rest := s[n..];
    assert s == s[..n] + rest;
    assert IsName(s[..n]) by {
      forall c | c in s[..n] ensures PathChar(c) && c != '/' { assert c in s; }
    }
    if n < |s| {
      CleanTail(s, n);
      CleanSlash(rest);
    }
    assert Tokens(s)[1..] == Tokens(rest);
  }

  lemma {:induction false} CleanSlash(s: string)
    requires Clean(s) && s[0] == '/'
    ensures AreNames(Tokens(s)) && s == Join(Tokens(s)) && Tokens(s) != []
    decreases |s|
  {
    assert s == "/" + s[1..];
    assert |s| > 1;
    assert s[1] == s[1..][0] && s[0] == '/';
    CleanTail(s, 1);
    CleanWords(s[1..]);
  }

  /** Every accepted absolute path is the spelling of its components. */
  lemma {:induction false} PathOfTokens(s: string)
    requires Accepted(s) && s[0] == '/'
    ensures AreNames(Tokens(s)) && PathOf(Tokens(s)) == s
  {
    if s == "/" {
      assert "/"[1..] == "";
    } else {
      CleanSlash(s);
    }
  }

  // ---------- Containment ----------

  /** xenstore_path_contains. */
  function Contains(parent: string, child: string): bool {
    if parent == child then true
    else if parent == "/" then child != ""
    else |parent| < |child| && child[..|parent|] == parent && child[|parent|] == '/'
  }

  lemma {:induction false} JoinAppend(cs: Comps, ds: Comps)
    ensures Join(cs + ds) == Join(cs) + Join(ds)
    decreases |cs|
  {
    if cs == [] {
      assert cs + ds == ds;
    } else {
      assert (cs + ds)[1..] == cs[1..] + ds;
      JoinAppend(cs[1..], ds);
    }
  }

  lemma {:induction false} SameWord(m: Name, x: string, n: Name, y: string)
    requires IsName(m) && IsName(n) && m + x == n + y
    requires (x == "" || x[0] == '/') && (y == "" || y[0] == '/')
    ensures m == n && x == y
  {
    RunOf(m, x);
    RunOf(n, y);
    assert m == (m + x)[..|m|] && n == (n + y)[..|n|];
    assert x == (m + x)[|m|..] && y == (n + y)[|n|..];
  }

  /** Spellings in front of a component boundary agree component by component. */
  lemma {:induction false} JoinPrefix(cs: Comps, ds: Comps, rest: string)
    requires AreNames(cs) && AreNames(ds) && Join(ds) == Join(cs) + rest && (rest == "" || rest[0] == '/')
    ensures cs <= ds
    decreases |cs|
  {
    if cs != [] {
      JoinHead(cs);
      JoinHead(ds);
      assert cs[0] in cs && ds[0] in ds;
      JoinHead(cs[1..]);
      JoinHead(ds[1..]);
      assert Join(ds)[1..] == ds[0] + Join(ds[1..]) && Join(ds)[1..] == cs[0] + (Join(cs[1..]) + rest);
      SameWord(cs[0], Join(cs[1..]) + rest, ds[0], Join(ds[1..]));
      assert (forall c :: c in cs[1..] ==> c in cs) && (forall d :: d in ds[1..] ==> d in ds);
      JoinPrefix(cs[1..], ds[1..], rest);
      assert cs == [cs[0]] + cs[1..] && ds == [ds[0]] + ds[1..];
    }
  }

  /** Containment of spellings is the prefix order on components. */
  lemma {:induction false} ContainsComps(cs: Comps, ds: Comps)
    requires AreNames(cs) && AreNames(ds)
    ensures Contains(PathOf(cs), PathOf(ds)) <==> cs <= ds
  {
    var p, q := PathOf(cs), PathOf(ds);
    JoinHead(cs);
    JoinHead(ds);
    if cs != [] {
      assert |p| >= 2 by { assert cs[0] in cs; }
      if Contains(p, q) {
        if ds != [] {
          assert q == p + q[|p|..];
          JoinPrefix(cs, ds, q[|p|..]);
        }
      }
      if cs <= ds {
        assert ds == cs + ds[|cs|..];
        JoinAppend(cs, ds[|cs|..]);
        JoinHead(ds[|cs|..]);
      }
    }
  }

  /** xenstore_path_contains holds exactly when the parent's components are a prefix of the child's. */
  lemma {:induction false} ContainsExact(p: string, q: string)
    requires Accepted(p) && Accepted(q) && p[0] == '/' && q[0] == '/'
    ensures Contains(p, q) <==> Tokens(p) <= Tokens(q)
  {
    PathOfTokens(p);
    PathOfTokens(q);
    ContainsComps(Tokens(p), Tokens(q));
  }

  // ---------- Paths of a domain ----------

  lemma {:induction false} JoinClean(cs: Comps)
    requires AreNames(cs) && cs != []
    ensures Clean(Join(cs)) && |Join(cs)| > 1
    decreases |cs|
  {
    assert cs[0] in cs && forall c :: c in cs[1..] ==> c in cs;
    var h, t := "/" + cs[0], Join(cs[1..]);
    NameClean(cs[0]);
    if cs[1..] != [] {
      JoinClean(cs[1..]);
      CleanAppend(h, t);
    } else {
      assert h + t == h;
    }
  }

  lemma {:induction false} NameClean(n: Name)
    requires IsName(n)
    ensures Clean("/" + n)
  {
    var s := "/" + n;
    forall c | c in s ensures PathChar(c) { if c != '/' { assert c in n; } }
    forall i | 0 < i < |s| ensures s[i] != '/' { assert s[i] == n[i - 1] && n[i - 1] in n; }
  }

  lemma {:induction false} CleanAppend(h: string, t: string)
    requires Clean(h) && Clean(t)
    ensures Clean(h + t)
  {
    var s := h + t;
    forall c | c in s ensures PathChar(c) { assert c in h || c in t; }
    forall i | 0 < i < |s| ensures !(s[i - 1] == '/' && s[i] == '/') {
      if i < |h| {
        assert s[i] == h[i] && s[i - 1] == h[i - 1];
      } else if i > |h| {
        assert s[i] == t[i - |h|] && s[i - 1] == t[i - |h| - 1];
      } else {
        assert s[i - 1] == h[|h| - 1];
      }
    }
  }

  /** Where relative paths of a domain start. */
  function Home(domid: nat): (cs: Comps) {
    ["local", "domain", Dec(domid)]
  }

  lemma {:induction false} HomeNames(domid: nat)
    ensures AreNames(Home(domid)) && Join(Home(domid)) == "/local/domain/" + Dec(domid)
  {
    hide Dec;
    var cs := Home(domid);
    var d := Dec(domid);
    assert cs[1..] == ["domain", d] && cs[1..][1..] == [d] && [d][1..] == [];
    assert Join([d]) == "/" + d + "";
    assert "/local" + ("/domain" + ("/" + d)) == "/local/domain/" + d;
    forall c | c in cs ensures IsName(c) { assert c == "local" || c == "domain" || c == d; }
  }

  /** construct_path: an accepted path made absolute. */
  method ConstructPath(payload: string, domid: nat) returns (r: Outcome<string>)
    ensures r.Ok? ==> Accepted(payload) && Accepted(r.value) && r.value[0] == '/'
    ensures r.Ok? ==> Tokens(r.value) == (if payload[0] == '/' then [] else Home(domid)) + Tokens(payload)
    ensures !Accepted(payload) ==> r.Err? && (r.error == E2BIG <==> Clean(payload))
    ensures Accepted(payload) ==>
      (r.Err? <==> payload[0] != '/' && |Join(Home(domid))| + 1 + |payload| + 1 > ABS_PATH_MAX)
        && (r.Err? ==> r.error == E2BIG)
  {
    hide Clean, Tokens, Join, Dec;
    var v := Validate(payload);
    if v.Err? { return Err(v.error); }
    AcceptedHead(payload);
    if payload[0] == '/' {
      assert [] + Tokens(payload) == Tokens(payload);
      return Ok(payload);
    }
    HomeNames(domid);
    var p := "/local/domain/" + Dec(domid) + "/" + payload;
    if |p| + 1 > ABS_PATH_MAX { return Err(E2BIG); }
    HomePath(payload, domid, p);
    return Ok(p);
  }

  lemma {:induction false} AcceptedHead(s: string)
    requires Accepted(s)
    ensures s != "" && (s[0] != '/' ==> Clean(s))
  {
  }

  lemma {:induction false} HomePath(payload: string, domid: nat, p: string)
    requires Clean(payload) && payload[0] != '/' && p == "/local/domain/" + Dec(domid) + "/" + payload
    ensures Clean(p) && p[0] == '/' && Tokens(p) == Home(domid) + Tokens(payload)
  {
    hide Clean, Tokens, Join, Dec, Home;
    var cs := Home(domid) + Tokens(payload);
    CleanWords(payload);
    HomeNames(domid);
    JoinAppend(Home(domid), Tokens(payload));
    assert p == Join(Home(domid)) + ("/" + payload);
    assert Home(domid) != [] by { HomeSize(domid); }
    JoinClean(cs);
    TokensOfJoin(cs);
  }

  lemma {:induction false} HomeSize(domid: nat)
    ensures |Home(domid)| == 3
  {
  }
}
