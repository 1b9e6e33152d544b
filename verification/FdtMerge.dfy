/**
 What the merge of an overlay means to a reader of the merged tree.
 */
module FdtMerge {
  import opened Bytes
  import opened FdtTokens
  import opened FdtTree
  import opened FdtRead
  import opened FdtEdit
  import opened FdtEditNode
  import opened FdtOverlay

  /** The value a reader finds under `name`. */
  function Lookup(n: Tree, name: seq<byte>): (r: Result<seq<byte>>) {
    var k := FirstProp(n.props, name);
    if k < |n.props| then Ok(n.props[k].value) else Err(NotFound)
  }

  /** The last value given to `name`, or `else'`. */
  function LastValue(ps: seq<Property>, name: seq<byte>, else': Result<seq<byte>>): (r: Result<seq<byte>>)
    decreases |ps|
  {
    if ps == [] then else'
    else LastValue(ps[1..], name, if ps[0].name == name then Ok(ps[0].value) else else')
  }

  lemma {:induction false} FirstPropIs(ps: seq<Property>, name: seq<byte>, k: nat)
    requires k <= |ps| && (k < |ps| ==> ps[k].name == name) && forall i :: 0 <= i < k ==> ps[i].name != name
    ensures FirstProp(ps, name) == k
  {
    var j := FirstProp(ps, name);
    assert !(j < k) && !(k < j);
  }

  lemma {:induction false} SetLookup(n: Tree, name: seq<byte>, val: seq<byte>, other: seq<byte>)
    ensures Lookup(WithProp(n, name, val), other) == if other == name then Ok(val) else Lookup(n, other)
  {
    var k, j := FirstProp(n.props, name), FirstProp(n.props, other);
    var qs := WithProp(n, name, val).props;
    if k < |n.props| {
      FirstPropIs(qs, other, j);
    } else {
      assert qs[1..] == n.props;
    }
  }

  /** Overlay properties win, all others keep their value. */
  lemma {:induction false} MergePropsLookup(n: Tree, ps: seq<Property>, name: seq<byte>)
    ensures Lookup(MergeProps(n, ps), name) == LastValue(ps, name, Lookup(n, name))
    decreases |ps|
  {
    hide WithProp, Lookup;
    if ps != [] {
      MergePropsLookup(WithProp(n, ps[0].name, ps[0].value), ps[1..], name);
      SetLookup(n, ps[0].name, ps[0].value, name);
    }
  }

  // ---------- Children ----------

  /** The child of that exact name, if any. */
  function Kid(ks: seq<Tree>, name: seq<byte>): (r: Result<Tree>)
    ensures r.Ok? ==> r.value in ks && r.value.name == name
    ensures r.Err? ==> forall i :: 0 <= i < |ks| ==> ks[i].name != name
    decreases |ks|
  {
    if ks == [] then Err(NotFound) else if ks[0].name == name then Ok(ks[0]) else Kid(ks[1..], name)
  }

  /** No name among `names` selects a different one for want of its unit address. */
  ghost predicate Unambiguous(names: set<seq<byte>>) {
    forall a, b :: a in names && b in names && NameEq(a, b) ==> a == b
  }

  ghost function Names(ks: seq<Tree>): set<seq<byte>> { set k | k in ks :: k.name }

  ghost predicate Distinct(ks: seq<Tree>) {
    forall i, j :: 0 <= i < j < |ks| ==> ks[i].name != ks[j].name
  }

  lemma {:induction false} MergePropsFrame(n: Tree, ps: seq<Property>)
    ensures MergeProps(n, ps).name == n.name && MergeProps(n, ps).kids == n.kids
    decreases |ps|
  {
    if ps != [] { MergePropsFrame(WithProp(n, ps[0].name, ps[0].value), ps[1..]); }
  }

  lemma {:induction false} MergeKidsFrame(n: Tree, ks: seq<Tree>)
    ensures MergeKids(n, ks).name == n.name && MergeKids(n, ks).props == n.props
    decreases |ks|
  {
    if ks != [] {
      var j := FirstKid(n.kids, Named(ks[0].name));
      var m := if j < |n.kids| then n else WithKid(n, ks[0].name);
      var i := if j < |n.kids| then j else 0;
      MergeKidsFrame(m.(kids := m.kids[i := Merge(m.kids[i], ks[0])]), ks[1..]);
    }
  }

  /** The children after one overlay child `k` is merged. */
  function MergeOne(ls: seq<Tree>, k: Tree): (r: seq<Tree>) {
    var j := FirstKid(ls, Named(k.name));
    if j < |ls| then ls[j := Merge(ls[j], k)] else [Merge(Node(k.name, [], []), k)] + ls
  }

  lemma {:induction false} MergeKidsStep(n: Tree, ks: seq<Tree>)
    requires ks != []
    ensures MergeKids(n, ks) == MergeKids(n.(kids := MergeOne(n.kids, ks[0])), ks[1..])
  {
    hide Merge;
    var k := ks[0];
    assert ([Node(k.name, [], [])] + n.kids)[0 := Merge(Node(k.name, [], []), k)]
      == [Merge(Node(k.name, [], []), k)] + n.kids;
  }

  lemma {:induction false} MergeName(n: Tree, o: Tree)
    ensures Merge(n, o).name == n.name && Merge(n, o).props == MergeProps(n, o.props).props
  {
    hide MergeProps, MergeKids;
    MergePropsFrame(n, o.props);
    MergeKidsFrame(MergeProps(n, o.props), o.kids);
  }

  lemma {:induction false} KidIs(ks: seq<Tree>, name: seq<byte>, j: nat)
    requires j < |ks| && ks[j].name == name && forall i :: 0 <= i < j ==> ks[i].name != name
    ensures Kid(ks, name) == Ok(ks[j])
    decreases |ks|
  {
    if j > 0 {
      assert forall i :: 0 <= i < j - 1 ==> ks[1..][i].name != name;
      KidIs(ks[1..], name, j - 1);
    }
  }

  lemma {:induction false} KidUpdate(ks: seq<Tree>, j: nat, t: Tree, name: seq<byte>)
    requires j < |ks| && ks[j].name == t.name != name
    ensures Kid(ks[j := t], name) == Kid(ks, name)
    decreases |ks|
  {
    if j > 0 {
      assert ks[j := t][1..] == ks[1..][j - 1 := t];
      KidUpdate(ks[1..], j - 1, t, name);
    } else {
      assert ks[j := t][1..] == ks[1..];
    }
  }

  function OrEmpty(r: Result<Tree>, name: seq<byte>): Tree {
    if r.Ok? then r.value else Node(name, [], [])
  }

  lemma {:induction false} MergeOneLookup(ls: seq<Tree>, k: Tree, name: seq<byte>)
    requires Unambiguous(Names(ls) + {k.name})
    ensures Kid(MergeOne(ls, k), name) == if name == k.name then Ok(Merge(OrEmpty(Kid(ls, name), name), k))
      else Kid(ls, name)
    ensures Names(MergeOne(ls, k)) == Names(ls) + {k.name}
  {
    hide Merge;
    var j := FirstKid(ls, Named(k.name));
    var rs := MergeOne(ls, k);
    forall i | 0 <= i < |ls| && Named(k.name)(ls[i].name) ensures ls[i].name == k.name {
      assert ls[i].name in Names(ls);
    }
    assert NameEq(k.name, k.name);
    if j < |ls| {
      MergeName(ls[j], k);
      KidIs(ls, k.name, j);
      if name == k.name {
        KidIs(rs, name, j);
      } else {
        KidUpdate(ls, j, Merge(ls[j], k), name);
      }
      NamesUpdate(ls, j, Merge(ls[j], k));
      assert ls[j].name in Names(ls);
    } else {
      MergeName(Node(k.name, [], []), k);
      assert rs[1..] == ls && Kid(ls, k.name).Err?;
      NamesCons(rs[0], ls);
    }
  }

  lemma {:induction false} NamesUpdate(ls: seq<Tree>, j: nat, t: Tree)
    requires j < |ls| && t.name == ls[j].name
    ensures Names(ls[j := t]) == Names(ls)
  {
    forall a | a in Names(ls) ensures a in Names(ls[j := t]) {
      var i :| 0 <= i < |ls| && ls[i].name == a;
      assert ls[j := t][i] in ls[j := t] && ls[j := t][i].name == a;
    }
    forall a | a in Names(ls[j := t]) ensures a in Names(ls) {
      var i :| 0 <= i < |ls| && ls[j := t][i].name == a;
      assert ls[i] in ls && ls[i].name == a;
    }
  }

  lemma {:induction false} NamesCons(t: Tree, ls: seq<Tree>)
    ensures Names([t] + ls) == Names(ls) + {t.name}
  {
    var rs := [t] + ls;
    forall a | a in Names(ls) + {t.name} ensures a in Names(rs) {
      if a in Names(ls) {
        var i :| 0 <= i < |ls| && ls[i].name == a;
        assert rs[i + 1] in rs && rs[i + 1].name == a;
      } else {
        assert rs[0] in rs;
      }
    }
  }

  /** Children are united by name: shared ones are merged, the others are taken as they are. */
  lemma {:induction false} MergeKidsLookup(n: Tree, ks: seq<Tree>, name: seq<byte>)
    requires Distinct(ks) && Unambiguous(Names(n.kids) + Names(ks))
    ensures Kid(MergeKids(n, ks).kids, name)
         == if Kid(ks, name).Ok? then Ok(Merge(OrEmpty(Kid(n.kids, name), name), Kid(ks, name).value))
           else Kid(n.kids, name)
    decreases |ks|
  {
    hide Merge, MergeOne, MergeKids;
    if ks == [] {
      MergeKidsNil(n);
    } else {
      var m := n.(kids := MergeOne(n.kids, ks[0]));
      MergeKidsStep(n, ks);
      assert ks == [ks[0]] + ks[1..];
      NamesCons(ks[0], ks[1..]);
      assert Unambiguous(Names(n.kids) + {ks[0].name});
      MergeOneLookup(n.kids, ks[0], name);
      assert Names(m.kids) + Names(ks[1..]) == Names(n.kids) + Names(ks);
      assert Distinct(ks[1..]);
      MergeKidsLookup(m, ks[1..], name);
      if ks[0].name == name {
        forall i | 0 <= i < |ks[1..]| ensures ks[1..][i].name != name { assert ks[1..][i] == ks[i + 1]; }
      }
    }
  }

  lemma {:induction false} MergeKidsNil(n: Tree)
    ensures MergeKids(n, []) == n
  {
  }
}
