// Taking a branch down from the leaf upwards, and storing values.
module Erasings {
  import opened Bits
  import opened Rings
  import opened Slots
  import opened Shape

  ghost function WithoutNode(t: Tree, e: int, n: int, ks: seq<byte>): Tree
    requires e in t.path
  {
    Tree(t.path - {e}, t.at - {t.path[e]}, t.kids[n := ks] - {e})
  }

  // What pop_sibling writes: the pointer that led to position j now leads past it.
  ghost function SiblingPopped(nd: Nodes, inf: Infos, n: int, ks: seq<byte>, j: int): Infos
    requires |inf.sibling| == |inf.child| == |nd.base| && 0 <= n < |nd.base| && nd.base[n] >= 0
    requires 0 <= j < |ks| && (forall i :: 0 <= i < |ks| ==> Xor(nd.base[n], ks[i]) < |inf.sibling|)
  {
    var next := inf.sibling[Xor(nd.base[n], ks[j])];
    if j == 0 then Infos(inf.sibling, inf.child[n := next])
    else Infos(inf.sibling[Xor(nd.base[n], ks[j - 1]) := next], inf.child)
  }

  // e is a childless node about to leave, n its parent, j its place in n's chain.
  ghost predicate Leaves(nd: Nodes, inf: Infos, md: Mode, size: int, t: Tree, e: int, n: int, j: int)
  {
    && TreeOk(nd, inf, md, size, t)
    && (md == Still || md == Erasing(e))
    && e in t.path && e != 0 && e in t.kids && t.kids[e] == []
    && e < |nd.check| && nd.check[e] == n && n in t.path && n in t.kids
    && t.path[e].Snoc? && 0 <= j < |t.kids[n]| && t.kids[n][j] == t.path[e].lab
  }

  lemma LeaveFacts(nd: Nodes, inf: Infos, md: Mode, size: int, t: Tree, e: int, n: int, j: int, ks: seq<byte>)
    requires Leaves(nd, inf, md, size, t, e, n, j)
    ensures n != e && Chained(nd, inf, n, t.kids[n]) && KidsOk(t.kids[n], n)
    ensures Xor(nd.base[n], t.kids[n][j]) == e && (n == 0 ==> t.kids[n][j] != 0)
    ensures Inverse(WithoutNode(t, e, n, ks))
    ensures n != 0 ==> 256 <= nd.base[n] < size
    ensures forall i :: 0 <= i < |t.kids[n]| ==> Xor(nd.base[n], t.kids[n][i]) < |nd.base|
  {
    hide Xor, TreeOk, Inverse, AllKids, Chained, KidsOk;
    TreeFacts(nd, inf, md, size, t);
    NodeFacts(nd, inf, md, size, t, e);
    NodeFacts(nd, inf, md, size, t, n);
    XorZero(0);
    forall i | 0 <= i < |t.kids[n]| ensures Xor(nd.base[n], t.kids[n][i]) < |nd.base|
    {
      ChainSlot(nd, inf, md, size, t, n, i);
    }
    LeaveInverse(t, e, n, ks);
  }

  lemma LeaveInverse(t: Tree, e: int, n: int, ks: seq<byte>)
    requires Inverse(t) && e in t.path && n in t.path && n != e
    ensures Inverse(WithoutNode(t, e, n, ks))
  {
  }

  lemma LeaveLinks(nd: Nodes, inf: Infos, md: Mode, md': Mode, size: int, t: Tree, e: int, n: int, j: int,
      ks: seq<byte>, i: int)
    requires Leaves(nd, inf, md, size, t, e, n, j) && !md'.Moving?
    requires forall x :: x in ks <==> x in t.kids[n] && x != t.kids[n][j]
    requires i in t.path && i != e && i != 0
    ensures LinkedUp(nd, md', WithoutNode(t, e, n, ks), i)
  {
    hide Xor, Inverse, TreeOk;
    TreeFacts(nd, inf, md, size, t);
    LeaveFacts(nd, inf, md, size, t, e, n, j, ks);
    NodeFacts(nd, inf, md, size, t, i);
  }

  lemma LeaveKids(nd: Nodes, inf: Infos, md: Mode, md': Mode, size: int, t: Tree, e: int, n: int, j: int, ks: seq<byte>,
      k: int)
    requires Leaves(nd, inf, md, size, t, e, n, j) && !md'.Moving?
    requires forall x :: x in ks <==> x in t.kids[n] && x != t.kids[n][j]
    requires k in t.path && k != e
    ensures k in WithoutNode(t, e, n, ks).kids && AllKids(nd, md', WithoutNode(t, e, n, ks), k)
  {
    hide Xor, Inverse, TreeOk, LinkedUp, HasKid, Chained, KidsOk;
    TreeFacts(nd, inf, md, size, t);
    LeaveFacts(nd, inf, md, size, t, e, n, j, ks);
    NodeFacts(nd, inf, md, size, t, k);
    var t' := WithoutNode(t, e, n, ks);
    forall i | 0 <= i < |t'.kids[k]| && (k != 0 || t'.kids[k][i] != 0) ensures HasKid(nd, md', t', k, t'.kids[k][i])
    {
      var x := t'.kids[k][i];
      assert x in t.kids[k];
      assert HasKid(nd, md, t, k, t.kids[k][At(t.kids[k], x)]);
      LeaveKid(nd, inf, md, md', size, t, e, n, j, ks, k, x);
    }
  }

  lemma LeaveKid(nd: Nodes, inf: Infos, md: Mode, md': Mode, size: int, t: Tree, e: int, n: int, j: int, ks: seq<byte>,
      k: int, x: byte)
    requires Leaves(nd, inf, md, size, t, e, n, j) && !md'.Moving? && k in t.path && k != e
    requires HasKid(nd, md, t, k, x) && (k == n ==> x != t.path[e].lab)
    ensures HasKid(nd, md', WithoutNode(t, e, n, ks), k, x)
  {
    hide Xor, Inverse, TreeOk, LinkedUp;
  }

  // n keeps another child: its chain skips e.
  lemma PopChain(nd: Nodes, inf: Infos, md: Mode, size: int, t: Tree, e: int, n: int, j: int)
    requires Leaves(nd, inf, md, size, t, e, n, j) && |t.kids[n]| >= 2
    ensures nd.base[n] >= 0 && (forall i :: 0 <= i < |t.kids[n]| ==> Xor(nd.base[n], t.kids[n][i]) < |inf.sibling|)
    ensures Chained(nd, SiblingPopped(nd, inf, n, t.kids[n], j), n, Without(t.kids[n], j))
    ensures KidsOk(Without(t.kids[n], j), n)
  {
    hide Xor, Inverse, TreeOk, LinkedUp;
    TreeFacts(nd, inf, md, size, t);
    LeaveFacts(nd, inf, md, size, t, e, n, j, []);
    var ks := t.kids[n];
    var b := nd.base[n];
    forall i | 0 <= i < |ks| && i != j - 1 && j > 0 ensures Xor(b, ks[i]) != Xor(b, ks[j - 1])
    {
      SlotXor(b, ks[i]);
      SlotXor(b, ks[j - 1]);
    }
    WithoutMembers(ks, j);
  }

  lemma PopOtherChain(nd: Nodes, inf: Infos, md: Mode, size: int, t: Tree, e: int, n: int, j: int, inf': Infos, k: int)
    requires Leaves(nd, inf, md, size, t, e, n, j)
    requires forall i :: 0 <= i < |t.kids[n]| ==> Xor(nd.base[n], t.kids[n][i]) < |inf.sibling|
    requires nd.base[n] >= 0 && inf' == SiblingPopped(nd, inf, n, t.kids[n], j)
    requires k in t.path && k != e && k != n
    ensures k in t.kids && ChainOk(nd, inf', Still, k, t.kids[k])
  {
    hide Xor, Inverse, TreeOk, LinkedUp, AllKids;
    TreeFacts(nd, inf, md, size, t);
    LeaveFacts(nd, inf, md, size, t, e, n, j, []);
    NodeFacts(nd, inf, md, size, t, k);
    var ks := t.kids[k];
    if ks != [] {
      if j > 0 { ChainSlot(nd, inf, md, size, t, n, j - 1); }
      forall i | 0 <= i < |ks|
        ensures Xor(nd.base[k], ks[i]) < |inf'.sibling|
        ensures inf'.sibling[Xor(nd.base[k], ks[i])] == inf.sibling[Xor(nd.base[k], ks[i])]
      {
        ChainSlot(nd, inf, md, size, t, k, i);
      }
      ChainFrame(nd, inf, nd, inf', k, ks);
    }
  }

  lemma PopContent(nd: Nodes, inf: Infos, md: Mode, size: int, t: Tree, e: int, n: int, j: int, inf': Infos, k: int)
    requires Leaves(nd, inf, md, size, t, e, n, j) && |t.kids[n]| >= 2
    requires forall i :: 0 <= i < |t.kids[n]| ==> Xor(nd.base[n], t.kids[n][i]) < |inf.sibling|
    requires nd.base[n] >= 0 && inf' == SiblingPopped(nd, inf, n, t.kids[n], j)
    requires k in t.path && k != e
    ensures 0 <= k < |nd.base| == |inf'.child|
    ensures ContentOk(nd, inf', Still, size, t.path[k], k, if k == n then Without(t.kids[n], j) else t.kids[k])
    ensures k in t.kids && (k != n ==> KidsOk(t.kids[k], k))
  {
    hide Xor, Inverse, TreeOk, LinkedUp, AllKids, Chained;
    TreeFacts(nd, inf, md, size, t);
    LeaveFacts(nd, inf, md, size, t, e, n, j, []);
    NodeFacts(nd, inf, md, size, t, k);
  }

  lemma PopKid(nd: Nodes, inf: Infos, md: Mode, size: int, t: Tree, e: int, n: int, j: int)
    requires Leaves(nd, inf, md, size, t, e, n, j) && |t.kids[n]| >= 2
    ensures nd.base[n] >= 0 && (forall i :: 0 <= i < |t.kids[n]| ==> Xor(nd.base[n], t.kids[n][i]) < |inf.sibling|)
    ensures TreeOk(nd, SiblingPopped(nd, inf, n, t.kids[n], j), Still, size,
              WithoutNode(t, e, n, Without(t.kids[n], j)))
  {
    hide Xor, Inverse, LinkedUp, AllKids, Chained, KidsOk, ContentOk;
    TreeFacts(nd, inf, md, size, t);
    var ks := Without(t.kids[n], j);
    LeaveFacts(nd, inf, md, size, t, e, n, j, ks);
    PopChain(nd, inf, md, size, t, e, n, j);
    KidsDistinct(t.kids[n], n);
    WithoutMembers(t.kids[n], j);
    var inf' := SiblingPopped(nd, inf, n, t.kids[n], j);
    var t' := WithoutNode(t, e, n, ks);
    forall i | i in t'.path && i != 0 ensures LinkedUp(nd, Still, t', i)
    {
      LeaveLinks(nd, inf, md, Still, size, t, e, n, j, ks, i);
    }
    forall k | k in t'.path ensures Family(nd, inf', Still, size, t', k)
    {
      LeaveKids(nd, inf, md, Still, size, t, e, n, j, ks, k);
      PopContent(nd, inf, md, size, t, e, n, j, inf', k);
      if k != n { PopOtherChain(nd, inf, md, size, t, e, n, j, inf', k); }
    }
  }

  lemma KidsDistinct(ks: seq<byte>, n: int)
    requires KidsOk(ks, n)
    ensures Distinct(ks)
  {
  }

  // n loses its only child: n itself is next to go.
  lemma DropOnly(nd: Nodes, inf: Infos, md: Mode, size: int, t: Tree, e: int, n: int, j: int)
    requires Leaves(nd, inf, md, size, t, e, n, j) && |t.kids[n]| == 1
    ensures n != 0 && TreeOk(nd, inf, Erasing(n), size, WithoutNode(t, e, n, []))
  {
    hide Xor, Inverse, LinkedUp, AllKids, Chained;
    TreeFacts(nd, inf, md, size, t);
    LeaveFacts(nd, inf, md, size, t, e, n, j, []);
    var t' := WithoutNode(t, e, n, []);
    forall i | i in t'.path && i != 0 ensures LinkedUp(nd, Erasing(n), t', i)
    {
      LeaveLinks(nd, inf, md, Erasing(n), size, t, e, n, j, [], i);
    }
    forall k | k in t'.path ensures Family(nd, inf, Erasing(n), size, t', k)
    {
      NodeFacts(nd, inf, md, size, t, k);
      LeaveKids(nd, inf, md, Erasing(n), size, t, e, n, j, [], k);
    }
  }

  // ------------------------------------------------------------------- values

  lemma StoreValue(nd: Nodes, inf: Infos, size: int, t: Tree, i: int, v: int)
    requires TreeOk(nd, inf, Still, size, t) && i in t.path && IsTerm(t.path[i]) && i < |nd.base|
    ensures TreeOk(Nodes(nd.base[i := v], nd.check), inf, Still, size, t)
  {
    hide Xor, Inverse;
    var nd' := Nodes(nd.base[i := v], nd.check);
    NodeFacts(nd, inf, Still, size, t, i);
    forall k | k in t.path && k != 0 ensures LinkedUp(nd', Still, t, k)
    {
      assert LinkedUp(nd, Still, t, k);
    }
    forall k | k in t.path ensures Family(nd', inf, Still, size, t, k)
    {
      StoreFamily(nd, inf, size, t, i, v, k);
    }
  }

  lemma StoreFamily(nd: Nodes, inf: Infos, size: int, t: Tree, i: int, v: int, k: int)
    requires TreeOk(nd, inf, Still, size, t) && i in t.path && IsTerm(t.path[i]) && i < |nd.base| && k in t.path
    ensures Family(Nodes(nd.base[i := v], nd.check), inf, Still, size, t, k)
  {
    hide Xor, Inverse, TreeOk, LinkedUp, KidsOk;
    TreeFacts(nd, inf, Still, size, t);
    NodeFacts(nd, inf, Still, size, t, k);
    NodeFacts(nd, inf, Still, size, t, i);
    var nd' := Nodes(nd.base[i := v], nd.check);
    if k != i {
      forall j | 0 <= j < |t.kids[k]| && (k != 0 || t.kids[k][j] != 0) ensures HasKid(nd', Still, t, k, t.kids[k][j])
      {
        assert HasKid(nd, Still, t, k, t.kids[k][j]);
      }
      if t.kids[k] != [] { assert Chained(nd, inf, k, t.kids[k]); }
    }
  }
}
