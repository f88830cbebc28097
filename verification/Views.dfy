// What a client of the trie can see: which paths are present, the values of the
// terminal ones, and the order of each node's children. Slots do not appear here.
module Views {
  import opened Bits
  import opened Rings
  import opened Slots
  import opened FreeSlots
  import opened Alloc
  import opened Shape
  import opened Adding
  import opened Relocating
  import opened Erasings

  // Every tree slot is a slot in use and vice versa, except one slot in limbo.
  ghost predicate Covers(nd: Nodes, size: int, t: Tree, limbo: int)
  {
    forall i :: 0 <= i < size ==> (i in t.path <==> !IsFree(nd, size, i) && i != limbo)
  }

  ghost predicate Placed(nd: Nodes, t: Tree)
  {
    && Inverse(t) && forall i :: i in t.path ==> 0 <= i < |nd.base|
  }

  // Same paths, same values, same chains: only the slots differ.
  ghost predicate SameView(nd: Nodes, t: Tree, nd': Nodes, t': Tree)
  {
    && Placed(nd, t) && Placed(nd', t')
    && t'.at.Keys == t.at.Keys
    && (forall q :: q in t.at && IsTerm(q) ==> nd'.base[t'.at[q]] == nd.base[t.at[q]])
    && (forall q :: q in t.at ==> t'.kids[t'.at[q]] == t.kids[t.at[q]])
  }

  // One path more: label l under path p, with value 0 if it is terminal.
  ghost predicate OneMore(nd: Nodes, t: Tree, nd': Nodes, t': Tree, p: Path, l: byte)
  {
    && Placed(nd, t) && Placed(nd', t')
    && p in t.at && Snoc(p, l) !in t.at
    && t'.at.Keys == t.at.Keys + {Snoc(p, l)}
    && (forall q :: q in t.at && IsTerm(q) ==> nd'.base[t'.at[q]] == nd.base[t.at[q]])
    && (l == 0 ==> nd'.base[t'.at[Snoc(p, l)]] == 0)
    && (forall q :: q in t.at && q != p ==> t'.kids[t'.at[q]] == t.kids[t.at[q]])
    && t'.kids[t'.at[p]] == InsertKid(t.kids[t.at[p]], l)
    && t'.kids[t'.at[Snoc(p, l)]] == []
  }

  // No node but the one at ex is without children, terminals and the root aside.
  ghost predicate Bushy(t: Tree, ex: Path)
  {
    && t.kids.Keys == t.path.Keys
    && forall i :: i in t.path && t.kids[i] == [] ==> IsTerm(t.path[i]) || t.path[i] == Root || t.path[i] == ex
  }

  lemma ViewTrans(nd: Nodes, t: Tree, nd1: Nodes, t1: Tree, nd2: Nodes, t2: Tree)
    requires SameView(nd, t, nd1, t1) && SameView(nd1, t1, nd2, t2)
    ensures SameView(nd, t, nd2, t2)
  {
  }

  lemma ViewThenMore(nd: Nodes, t: Tree, nd1: Nodes, t1: Tree, nd2: Nodes, t2: Tree, p: Path, l: byte)
    requires SameView(nd, t, nd1, t1) && OneMore(nd1, t1, nd2, t2, p, l)
    ensures OneMore(nd, t, nd2, t2, p, l)
  {
  }

  lemma MoreThenView(nd: Nodes, t: Tree, nd1: Nodes, t1: Tree, nd2: Nodes, t2: Tree, p: Path, l: byte)
    requires OneMore(nd, t, nd1, t1, p, l) && SameView(nd1, t1, nd2, t2)
    ensures OneMore(nd, t, nd2, t2, p, l)
  {
  }

  // Moving a node from slot a to slot b changes nothing a client can see.
  lemma RelabelView(nd: Nodes, nd': Nodes, t: Tree, a: int, b: int)
    requires Placed(nd, t) && a in t.path && b !in t.path
    requires 0 <= b < |nd'.base| && |nd'.base| == |nd.base|
    requires Inverse(Relabel(t, a, b))
    requires nd'.base[b] == nd.base[a]
    requires forall i :: i in t.path && i != a ==> nd'.base[i] == nd.base[i]
    ensures SameView(nd, t, nd', Relabel(t, a, b))
  {
    var t' := Relabel(t, a, b);
    forall q | q in t.at
      ensures q in t'.at && t'.kids[t'.at[q]] == t.kids[t.at[q]]
      ensures nd'.base[t'.at[q]] == nd.base[t.at[q]]
    {
      if q != t.path[a] { assert t.at[q] != a && t.at[q] != b; }
    }
  }

  // Slots outside the tree, and bases inside it left alone, do not show.
  lemma FrameView(nd: Nodes, nd': Nodes, t: Tree)
    requires Placed(nd, t) && forall i :: i in t.path ==> i < |nd'.base|
    requires forall i :: i in t.path && IsTerm(t.path[i]) ==> nd'.base[i] == nd.base[i]
    ensures SameView(nd, t, nd', t)
  {
  }

  lemma KidView(nd: Nodes, nd': Nodes, t: Tree, n: int, l: byte, s: int)
    requires Placed(nd, t) && n in t.path && s !in t.path && 0 <= s < |nd'.base| && |nd'.base| == |nd.base|
    requires Snoc(t.path[n], l) !in t.at && Inverse(WithKid(t, n, l, s))
    requires forall i :: i in t.path && IsTerm(t.path[i]) ==> nd'.base[i] == nd.base[i]
    requires l == 0 ==> nd'.base[s] == 0
    ensures OneMore(nd, t, nd', WithKid(t, n, l, s), t.path[n], l)
  {
  }

  lemma MoverView(nd: Nodes, nd': Nodes, t: Tree, m: int, ks: seq<byte>, l: byte, s: int)
    requires Placed(nd, t) && m in t.path && s !in t.path && 0 <= s < |nd'.base| && |nd'.base| == |nd.base|
    requires Snoc(t.path[m], l) !in t.at && Inverse(WithMover(t, m, ks, l, s))
    requires ks == InsertKid(t.kids[m], l)
    requires forall i :: i in t.path && IsTerm(t.path[i]) ==> nd'.base[i] == nd.base[i]
    requires l == 0 ==> nd'.base[s] == 0
    ensures OneMore(nd, t, nd', WithMover(t, m, ks, l, s), t.path[m], l)
  {
  }

  lemma BushyMore(nd: Nodes, t: Tree, nd': Nodes, t': Tree, p: Path, l: byte)
    requires OneMore(nd, t, nd', t', p, l) && Bushy(t, p)
    ensures Bushy(t', Snoc(p, l))
  {
    forall i | i in t'.path && t'.kids[i] == [] ensures IsTerm(t'.path[i]) || t'.path[i] == Root
        || t'.path[i] == Snoc(p, l)
    {
      var q := t'.path[i];
      assert q in t'.at && t'.at[q] == i;
      if q != p && q != Snoc(p, l) {
        var j := t.at[q];
        assert j in t.path && t.path[j] == q && t.kids[j] == [];
        assert IsTerm(t.path[j]) || t.path[j] == Root;
      }
    }
  }

  // The root's children fill block 0 and nothing else does.
  lemma BlockZero(nd: Nodes, inf: Infos, md: Mode, size: int, t: Tree, i: int)
    requires TreeOk(nd, inf, md, size, t) && i in t.path && i != 0
    ensures i < |nd.check| && (i < 256 <==> nd.check[i] == 0)
  {
    hide Xor, TreeOk, Inverse, AllKids, ChainOk, KidsOk;
    TreeFacts(nd, inf, md, size, t);
    NodeFacts(nd, inf, md, size, t, i);
    NodeFacts(nd, inf, md, size, t, nd.check[i]);
    SlotXor(BaseFor(nd, md, nd.check[i], t.path[i].lab), t.path[i].lab);
  }

  // A lookup step is exact: slot base ^ l belongs to n iff the path is there.
  lemma StepExact(nd: Nodes, inf: Infos, size: int, t: Tree, n: int, l: byte)
    requires TreeOk(nd, inf, Still, size, t) && Covers(nd, size, t, -1)
    requires n in t.path && n < |nd.base| && (n == 0 || 256 <= nd.base[n] < size)
    ensures 0 <= n && 0 <= nd.base[n] && 0 <= Xor(nd.base[n], l) < size <= |nd.check|
    ensures nd.check[Xor(nd.base[n], l)] == n <==> Snoc(t.path[n], l) in t.at
    ensures Snoc(t.path[n], l) in t.at ==> t.at[Snoc(t.path[n], l)] == Xor(nd.base[n], l)
    ensures Snoc(t.path[n], l) in t.at <==> n in t.kids && l in t.kids[n] && (n != 0 || l != 0)
  {
    hide Xor, TreeOk, AllKids, ChainOk, KidsOk;
    TreeFacts(nd, inf, Still, size, t);
    SlotXor(nd.base[n], l);
    NodeFacts(nd, inf, Still, size, t, n);
    var s := Xor(nd.base[n], l);
    if Snoc(t.path[n], l) in t.at {
      var i := t.at[Snoc(t.path[n], l)];
      NodeFacts(nd, inf, Still, size, t, i);
      assert nd.check[i] == n;
      if n == 0 && l == 0 { XorZero(0); }
    }
    if n in t.kids && l in t.kids[n] && (n != 0 || l != 0) {
      KidPresent(nd, Still, t, n, l);
    }
    if nd.check[s] == n {
      ChildSlot(nd, inf, size, t, n, l);
    }
  }

  lemma KidPresent(nd: Nodes, md: Mode, t: Tree, n: int, l: byte)
    requires n in t.kids && AllKids(nd, md, t, n) && l in t.kids[n] && (n != 0 || l != 0)
    ensures HasKid(nd, md, t, n, l)
  {
    assert HasKid(nd, md, t, n, t.kids[n][At(t.kids[n], l)]);
  }

  lemma ChildSlot(nd: Nodes, inf: Infos, size: int, t: Tree, n: int, l: byte)
    requires TreeOk(nd, inf, Still, size, t) && Covers(nd, size, t, -1)
    requires n in t.path && 0 <= n < |nd.base| && nd.base[n] >= 0
    requires Xor(nd.base[n], l) < size && nd.check[Xor(nd.base[n], l)] == n
    ensures Xor(nd.base[n], l) in t.path && t.path[Xor(nd.base[n], l)] == Snoc(t.path[n], l)
  {
    hide Xor, TreeOk, AllKids, ChainOk, KidsOk, Inverse;
    TreeFacts(nd, inf, Still, size, t);
    var s := Xor(nd.base[n], l);
    assert s != 0 && !IsFree(nd, size, s);
    NodeFacts(nd, inf, Still, size, t, s);
    var l' := t.path[s].lab;
    assert s == Xor(nd.base[n], l');
    SlotXor(nd.base[n], l);
    SlotXor(nd.base[n], l');
  }

  lemma PlacedTree(nd: Nodes, inf: Infos, md: Mode, size: int, t: Tree)
    requires TreeOk(nd, inf, md, size, t)
    ensures Placed(nd, t)
  {
    hide Xor, LinkedUp, Family;
  }

  // Slot e has been claimed: the tree has not noticed, and e is in limbo.
  lemma ClaimedTree(nd: Nodes, inf: Infos, size: int, nd': Nodes, inf': Infos, size': int, e: int, md: Mode, t: Tree)
    requires TreeOk(nd, inf, md, size, t) && Covers(nd, size, t, -1)
    requires Claimed(nd, inf, size, nd', inf', size', e) && size' % 256 == 0
    ensures e !in t.path && 0 < e < size' && inf'.child[e] == 0
    ensures TreeOk(nd', inf', md, size', t) && Covers(nd', size', t, e)
    ensures forall i :: i in t.path ==> nd'.base[i] == nd.base[i] && nd'.check[i] == nd.check[i]
  {
    hide Xor, TreeOk, Inverse;
    TreeFacts(nd, inf, md, size, t);
    TreeFrame(nd, inf, nd', inf', md, size, size', t);
    forall i | 0 <= i < size' ensures i in t.path <==> !IsFree(nd', size', i) && i != e
    {
      if i >= size { assert i !in t.path; }
    }
  }

  // Slot e has been returned while in limbo.
  lemma GivenTree(nd: Nodes, inf: Infos, size: int, nd': Nodes, inf': Infos, e: int, md: Mode, t: Tree)
    requires TreeOk(nd, inf, md, size, t) && Covers(nd, size, t, e)
    requires Given(nd, nd', size, e) && SameInfoBut(inf, inf', e) && e !in t.path
    ensures TreeOk(nd', inf', md, size, t) && Covers(nd', size, t, -1)
    ensures forall i :: i in t.path ==> nd'.base[i] == nd.base[i] && nd'.check[i] == nd.check[i]
    ensures forall i :: i in t.path ==> inf'.sibling[i] == inf.sibling[i] && inf'.child[i] == inf.child[i]
  {
    hide Xor, TreeOk, Inverse;
    TreeFacts(nd, inf, md, size, t);
    forall i | i in t.path ensures nd'.base[i] == nd.base[i] && nd'.check[i] == nd.check[i]
    {
      assert !IsFree(nd, size, i);
    }
    TreeFrame(nd, inf, nd', inf', md, size, size, t);
  }

  lemma NoKidYet(nd: Nodes, inf: Infos, size: int, t: Tree, n: int, l: byte)
    requires TreeOk(nd, inf, Still, size, t) && n in t.path && n in t.kids && t.kids[n] == [] && (n == 0 ==> l != 0)
    ensures Snoc(t.path[n], l) !in t.at
  {
    hide Xor, TreeOk, AllKids, ChainOk, KidsOk;
    TreeFacts(nd, inf, Still, size, t);
    if Snoc(t.path[n], l) in t.at {
      var i := t.at[Snoc(t.path[n], l)];
      NodeFacts(nd, inf, Still, size, t, i);
    }
  }

  lemma SlotNotRoot(nd: Nodes, inf: Infos, size: int, t: Tree, n: int, l: byte)
    requires TreeOk(nd, inf, Still, size, t) && n in t.path && 0 <= n < |nd.base| && (n == 0 ==> l != 0)
    requires n == 0 || 256 <= nd.base[n] < size
    ensures nd.base[n] >= 0 && Xor(nd.base[n], l) != 0
  {
    hide Xor, Family, LinkedUp, Inverse;
    SlotXor(nd.base[n], l);
    if n == 0 { XorZero(l); }
  }

  // A node with a child is no exception to bushiness.
  lemma BushyStep(t: Tree, p: Path, l: byte, nd: Nodes, inf: Infos, size: int)
    requires TreeOk(nd, inf, Still, size, t) && Bushy(t, p) && p in t.at && Snoc(p, l) in t.at
    ensures Bushy(t, Snoc(p, l))
  {
    hide Xor, TreeOk, AllKids, ChainOk, KidsOk;
    TreeFacts(nd, inf, Still, size, t);
    var i := t.at[Snoc(p, l)];
    NodeFacts(nd, inf, Still, size, t, i);
    assert t.path[nd.check[i]] == p && t.kids[nd.check[i]] != [];
    forall j | j in t.path && t.kids[j] == [] ensures IsTerm(t.path[j]) || t.path[j] == Root || t.path[j] == Snoc(p, l)
    {
      assert t.at[t.path[j]] == j;
    }
  }

  lemma BushyTerm(t: Tree, p: Path)
    requires Bushy(t, Snoc(p, 0))
    ensures Bushy(t, Root)
  {
  }
}
