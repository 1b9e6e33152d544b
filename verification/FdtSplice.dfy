/**
 What replacing a range of whole tokens does to the tokens, the symbols and the tree.
 Every edit of the blob is one such replacement.
 */
module FdtSplice {
  import opened Bytes
  import opened FdtTokens
  import opened FdtTree
  import opened FdtNode

  function Splice(s: seq<byte>, x: nat, n: nat, g: seq<byte>): (r: seq<byte>)
    requires x <= n <= |s|
    ensures |r| == x + |g| + |s| - n
  {
    s[..x] + g + s[n..]
  }

  lemma {:induction false} SpliceAgrees(s: seq<byte>, x: nat, n: nat, g: seq<byte>)
    requires x <= n <= |s|
    ensures var t := Splice(s, x, n, g);
      Agree(s, 0, x, t, 0) && Agree(g, 0, |g|, t, x) && Agree(s, n, |s|, t, x + |g| - n)
  {
    var t := Splice(s, x, n, g);
    assert forall i {:trigger s[i]} :: 0 <= i < x ==> t[i] == s[i];
    assert forall i {:trigger g[i]} :: 0 <= i < |g| ==> t[i + x] == g[i];
    forall i | n <= i < |s| ensures t[i + (x + |g| - n)] == s[i] {
      assert s[n..][i - n] == s[i];
    }
  }

  lemma {:induction false} ReplaceTokens(s: seq<byte>, x: nat, n: nat, g: seq<byte>, pre: seq<Token>, mid: seq<Token>)
    requires x <= n <= |s| && Walk(s, 0, pre, x) && Scan(s, n).Ok? && n % 4 == 0
    requires |g| % 4 == 0 && Walk(g, 0, mid, |g|)
    ensures var t := Splice(s, x, n, g);
      && Walk(t, 0, pre, x) && Walk(t, x, mid, x + |g|) && Scan(t, x + |g|) == Scan(s, n)
      && Scan(t, 0) == Ok(pre + mid + Scan(s, n).value)
  {
    hide *;
    var t := Splice(s, x, n, g);
    SpliceAgrees(s, x, n, g);
    WalkBounds(s, 0, pre, x);
    WalkLocal(s, 0, pre, x, t, 0);
    WalkLocal(g, 0, mid, |g|, t, x);
    ScanLocal(s, n, t, x + |g| - n);
    WalkAppend(t, 0, pre, x, mid, x + |g|);
    WalkScan(t, 0, pre + mid, x + |g|);
  }

  /** How far a token reaches is decided by the token alone. */
  lemma {:induction false} SameNext(s: seq<byte>, t: seq<byte>, a: nat)
    requires NextTag(s, a).Tok? && NextTag(t, a).Tok? && NextTag(s, a).token == NextTag(t, a).token
    ensures NextTag(s, a).next == NextTag(t, a).next
  {
    var tok := NextTag(s, a).token;
    assert tok.Prop? ==> Word(s, a + 4) == |tok.value| == Word(t, a + 4);
    assert tok.BeginNode? ==> Nul(s, a + 4) == a + 4 + |tok.name| == Nul(t, a + 4);
  }

  /** Symbols whose tokens are walked alike sit at the same offsets. */
  lemma {:induction false} SameOffsets(s: seq<byte>, t: seq<byte>, strs: seq<byte>, a: nat, pre: seq<Token>, x: nat,
                                       k: nat)
    requires Walk(s, a, pre, x) && Walk(t, a, pre, x) && k < |Syms(strs, pre)|
    ensures SymOffset(s, a, k) == SymOffset(t, a, k)
    decreases |pre|
  {
    hide NextTag, SymsOf;
    var r := NextTag(s, a);
    SameNext(s, t, a);
    if r.token.Nop? {
      SameOffsets(s, t, strs, r.next, pre[1..], x, k);
    } else if k > 0 {
      SameOffsets(s, t, strs, r.next, pre[1..], x, k - 1);
    }
  }

  /**
   Symbols `i..j` of a decoded block give way to those of `mid`, new names being appended to
   the strings. Earlier symbols keep their offsets.
   */
  lemma {:induction false} ReplaceSyms(s: seq<byte>, strs: seq<byte>, t: Tree, more: seq<byte>, i: nat, j: nat, x: nat,
                                       n: nat, g: seq<byte>, pre: seq<Token>, mid: seq<Token>, u: Tree)
    requires Decodes(s, strs, t) && x <= n <= |s| && n % 4 == 0 && i <= j <= |Flat(t)|
    requires Walk(s, 0, pre, x) && Syms(strs, pre) == Flat(t)[..i]
    requires Scan(s, n).Ok? && Syms(strs, Scan(s, n).value) == Flat(t)[j..]
    requires |g| % 4 == 0 && Walk(g, 0, mid, |g|)
    requires Flat(u) == Flat(t)[..i] + Syms(strs + more, mid) + Flat(t)[j..]
    ensures Decodes(Splice(s, x, n, g), strs + more, u)
    ensures forall k :: 0 <= k < i ==> SymOffset(Splice(s, x, n, g), 0, k) == SymOffset(s, 0, k)
    ensures mid != [] && !mid[0].Nop? ==> SymOffset(Splice(s, x, n, g), 0, i) == x
  {
    hide NextTag, SymOffset, Flat, Splice, Walk, Scan, Syms;
    var r := Splice(s, x, n, g);
    var post := Scan(s, n).value;
    ReplaceTokens(s, x, n, g, pre, mid);
    FlatNoBogus(t);
    SymsExtend(strs, more, pre);
    SymsExtend(strs, more, post);
    SymsAppend(strs + more, pre, mid);
    SymsAppend(strs + more, pre + mid, post);
    forall k | 0 <= k < i ensures SymOffset(r, 0, k) == SymOffset(s, 0, k) {
      SameOffsets(s, r, strs, 0, pre, x, k);
    }
    if mid != [] && !mid[0].Nop? {
      WalkFirst(r, x, mid, x + |g|);
      SymOffsetIs(r, strs, 0, pre, x);
    }
  }

  lemma {:induction false} WalkFirst(s: seq<byte>, a: nat, ts: seq<Token>, b: nat)
    requires Walk(s, a, ts, b) && ts != []
    ensures NextTag(s, a).Tok? && NextTag(s, a).token == ts[0]
  {
    hide NextTag;
  }

  // ---------- Encodings that are single tokens ----------

  lemma {:induction false} PropToken(g: seq<byte>, off: u32, val: seq<byte>)
    requires |val| < 0x8000_0000 && |g| == 12 + Align4(|val|)
    requires Word(g, 0) == FDT_PROP && Word(g, 4) == |val| && Word(g, 8) == off && g[12..12 + |val|] == val
    ensures Walk(g, 0, [Prop(off, val)], |g|)
  {
    hide Be32, Word;
    Align4Shift(|val|, 12);
    assert NextTag(g, 0) == Tok(Prop(off, val), |g|);
    WalkOne(g, 0);
  }

  lemma {:induction false} WordToken(g: seq<byte>, tag: u32)
    requires g == Be32(tag) && tag in {FDT_END_NODE, FDT_NOP}
    ensures Walk(g, 0, [if tag == FDT_NOP then Nop else EndNode], 4)
  {
    hide Be32, Word;
    WordOfBe32(g, 0, tag);
    WalkOne(g, 0);
  }

  lemma {:induction false} BeginToken(g: seq<byte>, name: seq<byte>)
    requires IsCString(name) && |g| == 4 + Align4(|name| + 1)
    requires g[0..4] == Be32(FDT_BEGIN_NODE) && g[4..4 + |name|] == name && g[4 + |name|] == 0
    ensures Walk(g, 0, [BeginNode(name)], |g|)
  {
    hide Be32, Word;
    WordOfBe32(g, 0, FDT_BEGIN_NODE);
    forall k | 4 <= k < 4 + |name| ensures g[k] != 0 {
      assert g[k] == g[4..4 + |name|][k - 4];
    }
    assert Nul(g, 4) == 4 + |name|;
    Align4Shift(|name| + 1, 4);
    WalkOne(g, 0);
  }
}
