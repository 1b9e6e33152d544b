/**
 How much room a merge needs (libfdt/fdt_overlay.c): the base buffer is large enough if it can take
 every node, property and name of the overlay anew.
 */
module FdtRoom {
  import opened Bytes
  import opened FdtTree
  import opened FdtRead
  import opened FdtNode
  import opened FdtBlob
  import opened FdtEdit
  import opened FdtEditNode
  import opened FdtOverlay

  /** Header, padded value and name. */
  function PropsWeight(ps: seq<Property>): nat
    decreases |ps|
  {
    if ps == [] then 0 else |ps[0].name| + 1 + 12 + Align4(|ps[0].value|) + PropsWeight(ps[1..])
  }

  /** What the content of an overlay node takes if nothing of it is in the base. */
  function Weight(o: Tree): nat
    decreases o
  {
    PropsWeight(o.props) + KidsWeight(o.kids)
  }

  function KidsWeight(ks: seq<Tree>): nat
    decreases ks
  {
    if ks == [] then 0 else |NodeBytes(ks[0].name)| + Weight(ks[0]) + KidsWeight(ks[1..])
  }

  lemma {:induction false} SetLight(u: Use, n: Tree, name: seq<byte>, val: seq<byte>)
    ensures SetUse(u, n, name, val).size <= u.size + |name| + 1 + 12 + Align4(|val|)
  {
  }

  lemma {:induction false} PropsFit(u: Use, n: Tree, ps: seq<Property>, cap: nat)
    requires u.size + PropsWeight(ps) <= cap
    ensures var r := PropsUse(u, n, ps, cap); r.Some? && r.value.size <= u.size + PropsWeight(ps)
    decreases |ps|
  {
    hide SetUse, WithProp, Align4;
    if ps != [] {
      SetLight(u, n, ps[0].name, ps[0].value);
      PropsFit(SetUse(u, n, ps[0].name, ps[0].value), WithProp(n, ps[0].name, ps[0].value), ps[1..], cap);
    }
  }

  /** Room for the whole content of the overlay is enough for its merge. */
  lemma {:induction false} MergeFits(u: Use, n: Tree, o: Tree, cap: nat)
    requires u.size + Weight(o) <= cap
    ensures var r := MergeUse(u, n, o, cap); r.Some? && r.value.size <= u.size + Weight(o)
    decreases o, 1
  {
    hide PropsUse, KidsUse, MergeProps, PropsWeight, KidsWeight;
    PropsFit(u, n, o.props, cap);
    KidsFit(PropsUse(u, n, o.props, cap).value, MergeProps(n, o.props), o.kids, cap);
  }

  lemma {:induction false} KidsFit(u: Use, n: Tree, ks: seq<Tree>, cap: nat)
    requires u.size + KidsWeight(ks) <= cap
    ensures var r := KidsUse(u, n, ks, cap); r.Some? && r.value.size <= u.size + KidsWeight(ks)
    decreases ks, 0
  {
    hide MergeUse, Merge, NameEq, Weight, NodeBytes, MergeKids;
    if ks != [] {
      var j := FirstKid(n.kids, Named(ks[0].name));
      var m := if j < |n.kids| then n else WithKid(n, ks[0].name);
      var i := if j < |n.kids| then j else 0;
      var v := KidUse(u, n, ks[0].name);
      MergeFits(v, m.kids[i], ks[0], cap);
      KidsFit(MergeUse(v, m.kids[i], ks[0], cap).value, m.(kids := m.kids[i := Merge(m.kids[i], ks[0])]), ks[1..], cap);
    }
  }

  /** overlay_apply_node succeeds on every base with so much free space. */
  lemma {:induction false} ApplyFits(b: Blob, t: Tree, p: seq<nat>, s: seq<byte>, strs: seq<byte>, o: Tree, q: seq<nat>)
    requires Decoded(b, t) && IsPath(t, p) && |s| < INT32_MAX && Decodes(s, strs, o) && IsPath(o, q)
    requires b.DataSize() + Weight(Sub(o, q)) <= |b.data|
    ensures var r := ApplyNode(b, Offset(b, t, p), s, strs, NodeOffset(s, o, q));
      r.r.Ok? && Refines(b, t, p, r.blob, Merge(Sub(t, p), Sub(o, q)))
  {
    hide Decodes, IsPath, Sub, NodeOffset, Refines, ApplyNode, Merge, MergeUse, Weight;
    ApplyNodeCorrect(b, t, p, s, strs, o, q);
    MergeFits(UseOf(b), Sub(t, p), Sub(o, q), |b.data|);
  }
}
