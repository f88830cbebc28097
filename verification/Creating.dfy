// The state that initialisation sets up: block 0 with the root alone in it.
module Creating {
  import opened Bits
  import opened Rings
  import opened Slots
  import opened FreeSlots
  import opened Alloc
  import opened Shape
  import opened Views
  import opened Keys

  ghost function Span(): (r: seq<int>)
    ensures |r| == 255 && forall j :: 0 <= j < 255 ==> r[j] == j + 1
  {
    seq(255, j => j + 1)
  }

  ghost function Bare(): Tree
  {
    Tree(map[0 := Root], map[Root := 0], map[0 := [0]])
  }

  ghost predicate FreshNodes(nd: Nodes)
  {
    && |nd.base| == |nd.check| == 256 && nd.base[0] == 0 && nd.check[0] == -1
    && (forall k :: 1 <= k < 256 ==> nd.base[k] == if k == 1 then -255 else -(k - 1))
    && (forall k :: 1 <= k < 256 ==> nd.check[k] == if k == 255 then -1 else -(k + 1))
  }

  lemma FreshRing(nd: Nodes, bl: Blocks)
    requires FreshNodes(nd) && SameLength(bl) && bl.num == [256] && bl.ehead == [1]
    ensures FreeOk(nd, bl, 256, [Span()])
  {
    var r := Span();
    forall j | 0 <= j < 255 ensures LinkedAt(r, Neg(nd.check), Neg(nd.base), j)
    {
      assert nd.base[j + 1] == if j + 1 == 1 then -255 else -j;
    }
    assert FreeRing(nd, r, 0);
    assert BlockRingOk(nd, bl.num, bl.ehead, r, 0);
    var rings: seq<seq<int>> := [r];
    forall i | IsFree(nd, 256, i) ensures i in rings[i / 256]
    {
      assert r[i - 1] == i;
    }
  }

  lemma FreshBlocks(bl: Blocks, h: Heads)
    requires SameLength(bl) && bl.num == [256] && bl.trial == [0] && bl.next == [0] && bl.prev == [0]
    requires h == Heads(0, 0, 0)
    ensures BlocksOk(bl, h, Lists([0], [], []), 1)
  {
    var ls := Lists([0], [], []);
    forall k: Kind ensures BlockRing(bl, h.Get(k), ls.Get(k), 1, k)
    {
      if k == Full { assert LinkedAt([0], bl.next, bl.prev, 0); }
    }
    assert BlockStatus(bl, ls, 1, 0);
  }

  lemma FreshTree(nd: Nodes, inf: Infos)
    requires FreshNodes(nd) && |inf.sibling| == |inf.child| == 256
    requires forall i :: 0 <= i < 256 ==> inf.sibling[i] == 0 && inf.child[i] == 0
    ensures TreeOk(nd, inf, Still, 256, Bare()) && Covers(nd, 256, Bare(), -1)
    ensures Bushy(Bare(), Root) && PathsOk(Bare())
  {
    hide Xor;
    var t := Bare();
    XorZero(0);
    assert KidsOk(t.kids[0], 0);
    assert AllKids(nd, Still, t, 0);
    assert Chained(nd, inf, 0, t.kids[0]);
    assert Family(nd, inf, Still, 256, t, 0);
    forall i | 0 <= i < 256 ensures i in t.path <==> !IsFree(nd, 256, i) && i != -1 { }
  }

  lemma FreshContents(nd: Nodes)
    requires FreshNodes(nd)
    ensures Placed(nd, Bare()) && ContentsOf(nd, Bare()) == map[]
  {
    assert KeySet(Bare()) == {};
  }
}
