// One step down the trie that has to create the child.
module Following {
  import opened Bits
  import opened Rings
  import opened Slots
  import opened FreeSlots
  import opened Alloc
  import opened Shape
  import opened Adding
  import opened Views

  // The node's array entries, its tree, and the request to put label l under n.
  ghost predicate Wants(nd: Nodes, inf: Infos, size: int, t: Tree, n: int, l: byte)
  {
    && TreeOk(nd, inf, Still, size, t) && Covers(nd, size, t, -1)
    && n in t.path && 0 <= n < |nd.base| && !IsTerm(t.path[n])
    && (n == 0 ==> l != 0) && Snoc(t.path[n], l) !in t.at
  }

  // What pop_empty_node leaves behind.
  ghost predicate Popped(nd: Nodes, inf: Infos, size: int, n: int, l: byte, nd': Nodes, inf': Infos, size': int, e: int)
  {
    && 0 <= n < size <= size' && size' % 256 == 0
    && |nd.base| == |nd.check| == |inf.sibling| == |inf.child| >= size
    && |nd'.base| == |nd'.check| == |inf'.sibling| == |inf'.child| >= size'
    && 0 < e < size' && n != e
    && (if nd.base[n] < 0
        then e >= 256 && nd'.base[n] == Xor(e, l) && Claimed(SetBase(nd, n, Xor(e, l)), inf, size, nd', inf', size', e)
        else e == Xor(nd.base[n], l) && size' == size && inf' == inf && Claimed(nd, inf, size, nd', inf', size', e))
    && nd'.base[e] == (if l != 0 then -1 else 0) && nd'.check[e] == n
  }

  ghost predicate Pushed(nd: Nodes, inf: Infos, n: int, l: byte, nd': Nodes, inf': Infos, e: int, inf'': Infos)
    requires |nd.base| == |inf.child| && |nd'.base| == |inf'.sibling| == |inf'.child|
    requires 0 <= n < |nd.base| && n < |nd'.base| && 0 <= e < |nd'.base|
  {
    if nd.base[n] >= 0 && inf'.child[n] == 0
    then Xor(nd.base[n], 0) < |inf'.sibling| &&
         inf'' == Infos(inf'.sibling[e := inf'.sibling[Xor(nd.base[n], 0)]][Xor(nd.base[n], 0) := l], inf'.child)
    else inf'' == Infos(inf'.sibling[e := inf'.child[n]], inf'.child[n := l])
  }

  lemma ClaimUnset(nd: Nodes, inf: Infos, size: int, t: Tree, n: int, l: byte, nd': Nodes, inf': Infos, size': int,
      e: int)
    requires Wants(nd, inf, size, t, n, l) && Popped(nd, inf, size, n, l, nd', inf', size', e)
    ensures Claimed(nd, inf, size, SetBase(nd', n, nd.base[n]), inf', size', e)
    ensures nd.base[n] >= 0 ==> nd'.base[n] == nd.base[n]
  {
    hide Xor, TreeOk;
    TreeFacts(nd, inf, Still, size, t);
    assert !IsFree(nd, size, n);
    var ndOld := SetBase(nd', n, nd.base[n]);
    if nd.base[n] < 0 {
      var nd0 := SetBase(nd, n, Xor(e, l));
      assert forall i :: IsFree(nd0, size, i) <==> IsFree(nd, size, i);
      assert forall i :: IsFree(ndOld, size', i) <==> IsFree(nd', size', i);
    } else {
      assert nd'.base[n] == nd.base[n];
      assert ndOld == nd';
    }
  }

  lemma KidsIffBase(nd: Nodes, inf: Infos, size: int, t: Tree, n: int)
    requires TreeOk(nd, inf, Still, size, t) && n in t.path && !IsTerm(t.path[n])
    ensures n in t.kids && 0 <= n < |nd.base| && (t.kids[n] == [] <==> nd.base[n] < 0)
    ensures nd.base[n] >= 0 ==> n == 0 || 256 <= nd.base[n] < size
    ensures t.kids[n] != [] ==> Chained(nd, inf, n, t.kids[n])
    ensures t.kids[n] == [] ==> inf.child[n] == 0
  {
    hide Xor, TreeOk, AllKids, Chained;
    TreeFacts(nd, inf, Still, size, t);
    NodeFacts(nd, inf, Still, size, t, n);
  }

  lemma WouldAdd(nd: Nodes, inf: Infos, size: int, t: Tree, n: int, l: byte, nd': Nodes, inf': Infos, size': int,
      e: int, inf'': Infos)
    requires Wants(nd, inf, size, t, n, l) && Popped(nd, inf, size, n, l, nd', inf', size', e)
    requires Pushed(nd, inf, n, l, nd', inf', e, inf'')
    ensures Adds(SetBase(nd', n, nd.base[n]), inf', nd', inf'', Still, size', t, n, l, e)
    ensures Covers(SetBase(nd', n, nd.base[n]), size', t, e)
    ensures forall i :: i in t.path ==> SetBase(nd', n, nd.base[n]).base[i] == nd.base[i]
  {
    hide Xor, TreeOk, Claimed, Chained;
    var ndOld := SetBase(nd', n, nd.base[n]);
    TreeFacts(nd, inf, Still, size, t);
    KidsIffBase(nd, inf, size, t, n);
    ClaimUnset(nd, inf, size, t, n, l, nd', inf', size', e);
    ClaimedTree(nd, inf, size, ndOld, inf', size', e, Still, t);
    TreeFacts(ndOld, inf', Still, size', t);
    KidsIffBase(ndOld, inf', size', t, n);
    SlotXor(e, l);
    if t.kids[n] != [] { ChainHead(ndOld, inf', n, t.kids[n]); }
    assert nd' == Nodes(ndOld.base[n := nd'.base[n]], ndOld.check);
    assert SiblingPushed(ndOld, inf', inf'', n, t.kids[n], l, e);
  }

  lemma ChainHead(nd: Nodes, inf: Infos, n: int, ks: seq<byte>)
    requires Chained(nd, inf, n, ks)
    ensures ks != [] && 0 <= n < |inf.child| && inf.child[n] == ks[0] && n < |nd.base|
    ensures nd.base[n] >= 0 && Xor(nd.base[n], ks[0]) < |inf.sibling|
  {
  }

  // push_sibling touches only slots in use.
  lemma PushClear(nd: Nodes, inf: Infos, inf': Infos, size: int)
    requires InfoClear(nd, inf, size) && |inf'.sibling| == |inf'.child| == |inf.child|
    requires forall i :: 0 <= i < |nd.check| && (i >= size || IsFree(nd, size, i)) ==>
               inf'.sibling[i] == inf.sibling[i] && inf'.child[i] == inf.child[i]
    ensures InfoClear(nd, inf', size)
  {
    forall i | 0 < i < |nd.check| && (i >= size || nd.check[i] < 0) ensures inf'.sibling[i] == 0 && inf'.child[i] == 0
    {
      assert i < size ==> IsFree(nd, size, i);
    }
  }

  lemma AddedTree(nd: Nodes, inf: Infos, size: int, t: Tree, n: int, l: byte, nd': Nodes, inf': Infos, size': int,
      e: int, inf'': Infos)
    requires Wants(nd, inf, size, t, n, l) && Popped(nd, inf, size, n, l, nd', inf', size', e)
    requires Pushed(nd, inf, n, l, nd', inf', e, inf'')
    ensures e !in t.path && n in t.kids
    ensures TreeOk(nd', inf'', Still, size', WithKid(t, n, l, e)) && Covers(nd', size', WithKid(t, n, l, e), -1)
  {
    hide Xor, TreeOk, Claimed, Adds, SiblingPushed, Inverse;
    var ndOld := SetBase(nd', n, nd.base[n]);
    WouldAdd(nd, inf, size, t, n, l, nd', inf', size', e, inf'');
    AddKid(ndOld, inf', nd', inf'', Still, size', t, n, l, e);
    AddFacts(ndOld, inf', nd', inf'', Still, size', t, n, l, e);
    AddsFacts(ndOld, inf', nd', inf'', Still, size', t, n, l, e);
    forall i | 0 <= i < size' ensures i in WithKid(t, n, l, e).path <==> !IsFree(nd', size', i)
    {
      assert IsFree(nd', size', i) <==> IsFree(ndOld, size', i);
    }
  }

  lemma AddedView(nd: Nodes, inf: Infos, size: int, t: Tree, n: int, l: byte, nd': Nodes, inf': Infos, size': int,
      e: int, inf'': Infos)
    requires Wants(nd, inf, size, t, n, l) && Popped(nd, inf, size, n, l, nd', inf', size', e)
    requires Pushed(nd, inf, n, l, nd', inf', e, inf'')
    ensures n in t.kids && OneMore(nd, t, nd', WithKid(t, n, l, e), t.path[n], l)
  {
    hide Xor, TreeOk, Claimed, OneMore, SameView, Adds, SiblingPushed, Covers;
    var ndOld := SetBase(nd', n, nd.base[n]);
    WouldAdd(nd, inf, size, t, n, l, nd', inf', size', e, inf'');
    AddFacts(ndOld, inf', nd', inf'', Still, size', t, n, l, e);
    AddsFacts(ndOld, inf', nd', inf'', Still, size', t, n, l, e);
    PlacedTree(nd, inf, Still, size, t);
    PlacedTree(ndOld, inf', Still, size', t);
    FrameView(nd, ndOld, t);
    KidView(ndOld, nd', t, n, l, e);
    ViewThenMore(nd, t, ndOld, t, nd', WithKid(t, n, l, e), t.path[n], l);
  }

  lemma AddedClear(nd: Nodes, inf: Infos, size: int, t: Tree, n: int, l: byte, nd': Nodes, inf': Infos, size': int,
      e: int, inf'': Infos)
    requires Wants(nd, inf, size, t, n, l) && Popped(nd, inf, size, n, l, nd', inf', size', e)
    requires Pushed(nd, inf, n, l, nd', inf', e, inf'')
    requires InfoClear(nd', inf', size')
    ensures InfoClear(nd', inf'', size')
  {
    hide Xor, TreeOk, Claimed, InfoClear, Adds, SiblingPushed;
    var ndOld := SetBase(nd', n, nd.base[n]);
    WouldAdd(nd, inf, size, t, n, l, nd', inf', size', e, inf'');
    AddsFacts(ndOld, inf', nd', inf'', Still, size', t, n, l, e);
    if nd.base[n] >= 0 && inf'.child[n] == 0 { ZeroSlotUsed(nd, inf, size, t, n, nd', size', inf', e, ndOld); }
    TreeFacts(ndOld, inf', Still, size', t);
    assert !IsFree(ndOld, size', n);
    PushClear(nd', inf', inf'', size');
  }

  lemma AddsFacts(nd: Nodes, inf: Infos, nd': Nodes, inf': Infos, md: Mode, size: int, t: Tree, n: int, l: byte, s: int)
    requires Adds(nd, inf, nd', inf', md, size, t, n, l, s)
    ensures TreeOk(nd, inf, md, size, t) && s !in t.path && n in t.path && Snoc(t.path[n], l) !in t.at
    ensures |nd'.base| == |nd.base|
    ensures t.kids[n] == [] ==> !IsTerm(t.path[n])
  {
  }

  // When label 0 heads n's chain its slot is in the tree (for the root: slot 0).
  lemma ZeroSlotUsed(nd: Nodes, inf: Infos, size: int, t: Tree, n: int, nd': Nodes, size': int, inf': Infos, e: int,
      ndOld: Nodes)
    requires TreeOk(ndOld, inf', Still, size', t) && Covers(ndOld, size', t, e)
    requires n in t.path && !IsTerm(t.path[n]) && 0 <= n < |nd.base| == |nd'.base| && nd.base[n] >= 0
    requires ndOld == SetBase(nd', n, nd.base[n]) && n < |inf'.child| && inf'.child[n] == 0
    ensures !IsFree(nd', size', Xor(nd.base[n], 0)) && Xor(nd.base[n], 0) < size'
  {
    hide Xor, TreeOk;
    TreeFacts(ndOld, inf', Still, size', t);
    KidsIffBase(ndOld, inf', size', t, n);
    ChainSlot(ndOld, inf', Still, size', t, n, 0);
  }

  lemma ChainNext(nd: Nodes, inf: Infos, n: int, ks: seq<byte>, j: int)
    requires Chained(nd, inf, n, ks) && KidsOk(ks, n) && 0 <= j < |ks|
    ensures nd.base[n] >= 0 && Xor(nd.base[n], ks[j]) < |inf.sibling|
    ensures inf.sibling[Xor(nd.base[n], ks[j])] == NextLabel(ks, j)
    ensures j + 1 < |ks| ==> ks[j + 1] != 0
  {
  }
}
