/**
 Which keys of a removal are heard by every watch they concern (xenstore-srv/src/xenstore_srv.c):
 handle_rm passes its key on as it is, so the entry is found by components while watches are matched
 by text.
 */
module XsHearing {
  import opened XsPath
  import opened Options
  import opened XsServer
  import opened XsNotify

  lemma {:induction false} RunJoin(a: string, b: string)
    requires b == "" || b[0] == '/'
    ensures Run(a + b) == Run(a)
    decreases |a|
  {
    if a == [] {
      assert a + b == b;
    } else if a[0] != '/' {
      assert (a + b)[1..] == a[1..] + b;
      RunJoin(a[1..], b);
    }
  }

  /** Splitting goes piece by piece where a separator begins the second piece. */
  lemma {:induction false} TokensJoin(a: string, b: string)
    requires b == "" || b[0] == '/'
    ensures Tokens(a + b) == Tokens(a) + Tokens(b)
    decreases |a|
  {
    var s := a + b;
    if a == [] {
      assert s == b;
    } else if a[0] == '/' {
      assert s[1..] == a[1..] + b;
      TokensJoin(a[1..], b);
    } else {
      RunJoin(a, b);
      var n := Run(a);
      assert s[..n] == a[..n] && s[n..] == a[n..] + b;
      TokensJoin(a[n..], b);
    }
  }

  /** Text without components is nothing but separators. */
  lemma {:induction false} NoTokensSlash(s: string)
    requires Tokens(s) == [] && s != ""
    ensures s[|s| - 1] == '/'
    decreases |s|
  {
    if |s| > 1 { NoTokensSlash(s[1..]); }
  }

  /** A clean path that goes on behind a key has more components. */
  lemma {:induction false} NotAbove(key: string, w: string)
    requires Clean(w) && w[0] == '/' && key != w && key != "/" && Tokens(key) == Tokens(w)
    ensures !Contains(key, w)
  {
    hide Tokens, Clean;
    if |key| < |w| && w[..|key|] == key && w[|key|] == '/' {
      var rest := w[|key|..];
      assert w == key + rest;
      TokensJoin(key, rest);
      CleanTail(w, |key|);
      CleanSlash(rest);
    }
  }

  /** A key that goes on behind a path of the same components ends in a separator. */
  lemma {:induction false} NotBelow(key: string, w: string)
    requires Tokens(key) == Tokens(w) && key != w && w != "/" && w != "" && Contains(w, key)
    ensures |key| > 1 && key[|key| - 1] == '/'
  {
    hide Tokens;
    var rest := key[|w|..];
    assert key == w + rest;
    TokensJoin(w, rest);
    assert |Tokens(w)| == |Tokens(w)| + |Tokens(rest)|;
    NoTokensSlash(rest);
  }

  /** A key does not go on behind a path with more components. */
  lemma {:induction false} NotLonger(key: string, w: string)
    requires |Tokens(w)| > |Tokens(key)| && w != "/"
    ensures !Contains(w, key)
  {
    hide Tokens;
    if Contains(w, key) {
      var rest := key[|w|..];
      assert key == w + rest;
      TokensJoin(w, rest);
    }
  }

  /** Every watch at, above or below the entry gets an event when it is removed under this key. */
  ghost predicate HeardByAll(key: string) {
    forall w :: Accepted(w) && w[0] == '/' && (Tokens(w) <= Tokens(key) || Tokens(key) <= Tokens(w)) ==>
      EventPath(w, key, true).Some?
  }

  /** The path of a child with a name of one letter. */
  function ChildPath(cs: Comps): string { PathOf(cs + ["a"]) }

  lemma {:induction false} PathAccepted(cs: Comps)
    requires AreNames(cs) && cs != [] && |Join(cs)| + 3 <= ABS_PATH_MAX
    ensures var w := PathOf(cs); Accepted(w) && Clean(w) && w[0] == '/' && |w| > 1 && Tokens(w) == cs
    ensures var w := ChildPath(cs); Accepted(w) && Clean(w) && w[0] == '/' && |w| > 1 && Tokens(w) == cs + ["a"]
  {
    hide Tokens, Clean;
    var ds := cs + ["a"];
    assert AreNames(ds) by { forall c | c in ds ensures IsName(c) { if c !in cs { assert c == "a"; } } }
    JoinHead(cs);
    JoinHead(ds);
    JoinClean(cs);
    JoinClean(ds);
    JoinAppend(cs, ["a"]);
    assert Join(["a"]) == "/a" by { JoinLetter(); }
    TokensOfPath(cs);
    TokensOfPath(ds);
  }

  lemma {:induction false} JoinLetter()
    ensures Join(["a"]) == "/a"
  {
    assert ["a"][1..] == [];
    assert "/" + "a" + "" == "/a";
  }

  /** A key that is not the spelling of its components leaves some watch out. */
  lemma {:induction false} Unspelled(key: string)
    requires var cs := Tokens(key); AreNames(cs) && cs != [] && |Join(cs)| + 3 <= ABS_PATH_MAX && key != PathOf(cs)
    ensures !HeardByAll(key)
  {
    hide Tokens, Clean, Contains, Accepted;
    var cs := Tokens(key);
    var w, z := PathOf(cs), ChildPath(cs);
    PathAccepted(cs);
    SlashTokens();
    NotAbove(key, w);
    if Contains(w, key) {
      NotBelow(key, w);
      TrailingUnheard(key, z);
      NotLonger(key, z);
      assert EventPath(z, key, true) == None;
    } else {
      assert EventPath(w, key, true) == None;
    }
  }

  /**
   For an entry whose path leaves room for a child: every watch it concerns gets an event of its
   removal if and only if the key is the one spelling of its components.
   */
  lemma {:induction false} RemovalHeardExactly(key: string)
    requires var cs := Tokens(key); AreNames(cs) && cs != [] && |Join(cs)| + 3 <= ABS_PATH_MAX
    ensures HeardByAll(key) <==> key == PathOf(Tokens(key))
  {
    hide Tokens, Contains;
    var cs := Tokens(key);
    if key == PathOf(cs) {
      forall w | Accepted(w) && w[0] == '/' && (Tokens(w) <= cs || cs <= Tokens(w))
        ensures EventPath(w, key, true).Some?
      {
        PathOfTokens(w);
        ContainsComps(Tokens(w), cs);
        ContainsComps(cs, Tokens(w));
      }
    } else {
      Unspelled(key);
    }
  }

  /** The key `/a//b` is absolute and ends in no separator, and yet the watch on /a/b itself hears nothing. */
  lemma {:induction false} DoubledUnheard()
    ensures Tokens("/a//b") == ["a", "b"] && Leads("/a//b") && EventPath("/a/b", "/a//b", true) == None
  {
    hide Tokens;
    TokensWord("b", "");
    NoTokens();
    assert "b" + "" == "b" && "/" + "b" == "/b" && ["b"] + [] == ["b"];
    TokensJoin("/", "/b");
    SlashTokens();
    assert "/" + "/b" == "//b" && [] + ["b"] == ["b"];
    TokensWord("a", "//b");
    assert "a" + "//b" == "a//b" && "/" + "a//b" == "/a//b" && ["a"] + ["b"] == ["a", "b"];
  }

  /** The event path of a watch lies at or below its key, so that of a relative watch in its domain's directory. */
  lemma {:induction false} EventBelowKey(key: string, path: string, removing: bool)
    requires key != "/" && EventPath(key, path, removing).Some?
    ensures key <= EventPath(key, path, removing).value
  {
  }
}
