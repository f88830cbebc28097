// Moving a whole family of siblings to a new base, one child at a time, while
// the children's own children keep pointing at them.
module Relocating {
  import opened Bits
  import opened Rings
  import opened Slots
  import opened Shape

  ghost function Relabel(t: Tree, a: int, b: int): Tree
    requires a in t.path && a in t.kids
  {
    Tree((t.path - {a})[b := t.path[a]], t.at[t.path[a] := b], (t.kids - {a})[b := t.kids[a]])
  }

  // ---------------------------------------------------------------- start and end

  lemma MoveStart(nd: Nodes, inf: Infos, size: int, t: Tree, m: int, b: int)
    requires TreeOk(nd, inf, Still, size, t)
    requires m in t.path && m != 0 && m in t.kids && t.kids[m] != [] && 256 <= b < size && m < |nd.base|
    ensures TreeOk(Nodes(nd.base[m := b], nd.check), inf, Moving(m, nd.base[m], {}), size, t)
  {
    hide Xor, Inverse;
    var nd' := Nodes(nd.base[m := b], nd.check);
    var md' := Moving(m, nd.base[m], {});
    NodeFacts(nd, inf, Still, size, t, m);
    forall i | i in t.path && i != 0 ensures LinkedUp(nd', md', t, i)
    {
      assert LinkedUp(nd, Still, t, i);
    }
    forall n | n in t.path ensures Family(nd', inf, md', size, t, n)
    {
      StartFamily(nd, inf, size, t, m, b, n);
    }
  }

  lemma StartFamily(nd: Nodes, inf: Infos, size: int, t: Tree, m: int, b: int, n: int)
    requires TreeOk(nd, inf, Still, size, t) && n in t.path
    requires m in t.path && m != 0 && m in t.kids && t.kids[m] != [] && 256 <= b < size && m < |nd.base|
    ensures Family(Nodes(nd.base[m := b], nd.check), inf, Moving(m, nd.base[m], {}), size, t, n)
  {
    hide Xor, TreeOk, Inverse, LinkedUp;
    TreeFacts(nd, inf, Still, size, t);
    NodeFacts(nd, inf, Still, size, t, n);
    var nd' := Nodes(nd.base[m := b], nd.check);
    var md' := Moving(m, nd.base[m], {});
    forall j | 0 <= j < |t.kids[n]| && (n != 0 || t.kids[n][j] != 0) ensures HasKid(nd', md', t, n, t.kids[n][j])
    {
      assert HasKid(nd, Still, t, n, t.kids[n][j]);
    }
    if n != m && t.kids[n] != [] {
      assert Chained(nd, inf, n, t.kids[n]);
    }
  }

  lemma MoveEnd(nd: Nodes, inf: Infos, md: Mode, size: int, t: Tree)
    requires TreeOk(nd, inf, md, size, t) && md.Moving?
    requires md.m in t.kids && t.kids[md.m] != [] && Chained(nd, inf, md.m, t.kids[md.m])
    requires forall l :: l in t.kids[md.m] ==> l in md.done
    ensures TreeOk(nd, inf, Still, size, t)
  {
    hide Xor, Inverse, KidsOk, Chained;
    forall i | i in t.path && i != 0 ensures LinkedUp(nd, Still, t, i)
    {
      assert LinkedUp(nd, md, t, i);
    }
    forall n | n in t.path ensures Family(nd, inf, Still, size, t, n)
    {
      assert Family(nd, inf, md, size, t, n);
      forall j | 0 <= j < |t.kids[n]| && (n != 0 || t.kids[n][j] != 0) ensures HasKid(nd, Still, t, n, t.kids[n][j])
      {
        assert HasKid(nd, md, t, n, t.kids[n][j]);
      }
    }
  }

  // ------------------------------------------------------------------ one child

  // The child of m under c goes from slot a to slot b; a's own children follow.
  ghost predicate Moves(nd: Nodes, inf: Infos, nd': Nodes, inf': Infos, md: Mode, size: int, t: Tree, c: byte, a: int,
      b: int)
  {
    && TreeOk(nd, inf, md, size, t) && md.Moving? && c !in md.done
    && md.m in t.kids && c in t.kids[md.m]
    && a == Xor(md.ob, c) && md.m < |nd.base| && nd.base[md.m] >= 256 && b == Xor(nd.base[md.m], c)
    && a in t.path && a in t.kids && 0 <= a < |nd.base|
    && b !in t.path && 0 < b < size
    && nd.check[b] == md.m && inf.child[b] == 0
    && nd'.base == nd.base[b := nd.base[a]]
    && |nd'.check| == |nd.check|
    && (forall i :: i in t.path ==> nd'.check[i] == if nd.check[i] == a then b else nd.check[i])
    && nd'.check[b] == md.m
    && |inf'.sibling| == |inf'.child| == |inf.child|
    && (forall i :: i in t.path ==> inf'.sibling[i] == inf.sibling[i] && inf'.child[i] == inf.child[i])
    && inf'.child[b] == (if t.kids[a] != [] then inf.child[a] else 0)
  }

  ghost function Moved(md: Mode, c: byte): Mode
    requires md.Moving?
  {
    Moving(md.m, md.ob, md.done + {c})
  }

  lemma MoveFacts(nd: Nodes, inf: Infos, nd': Nodes, inf': Infos, md: Mode, size: int, t: Tree, c: byte, a: int, b: int)
    requires Moves(nd, inf, nd', inf', md, size, t, c, a, b)
    ensures a != 0 && nd.check[a] == md.m && t.path[a] == Snoc(t.path[md.m], c) && a != md.m && b != md.m
    ensures t.kids[md.m] != [] && !IsTerm(t.path[md.m])
    ensures Inverse(Relabel(t, a, b))
  {
    hide Xor, Chained;
    NodeFacts(nd, inf, md, size, t, md.m);
    var j := At(t.kids[md.m], c);
    assert HasKid(nd, md, t, md.m, t.kids[md.m][j]);
    RelabelInverse(t, a, b);
    assert t.path[a] != t.path[md.m];
  }

  lemma RelabelInverse(t: Tree, a: int, b: int)
    requires Inverse(t) && a in t.path && b !in t.path
    ensures Inverse(Relabel(t, a, b))
  {
  }

  lemma MoveLinks(nd: Nodes, inf: Infos, nd': Nodes, inf': Infos, md: Mode, size: int, t: Tree, c: byte, a: int, b: int,
      i: int)
    requires Moves(nd, inf, nd', inf', md, size, t, c, a, b) && i in Relabel(t, a, b).path && i != 0
    ensures LinkedUp(nd', Moved(md, c), Relabel(t, a, b), i)
  {
    hide Xor, Inverse, TreeOk, HasKid;
    TreeFacts(nd, inf, md, size, t);
    MoveFacts(nd, inf, nd', inf', md, size, t, c, a, b);
    NodeFacts(nd, inf, md, size, t, if i == b then a else i);
    assert LinkedUp(nd, md, t, if i == b then a else i);
  }

  lemma MoveKids(nd: Nodes, inf: Infos, nd': Nodes, inf': Infos, md: Mode, size: int, t: Tree, c: byte, a: int, b: int,
      n: int)
    requires Moves(nd, inf, nd', inf', md, size, t, c, a, b) && n in Relabel(t, a, b).path
    ensures AllKids(nd', Moved(md, c), Relabel(t, a, b), n)
  {
    hide Xor, Inverse, TreeOk, LinkedUp, HasKid, Chained, KidsOk;
    TreeFacts(nd, inf, md, size, t);
    MoveFacts(nd, inf, nd', inf', md, size, t, c, a, b);
    var o := if n == b then a else n;
    NodeFacts(nd, inf, md, size, t, o);
    var t' := Relabel(t, a, b);
    forall j | 0 <= j < |t'.kids[n]| && (n != 0 || t'.kids[n][j] != 0)
      ensures HasKid(nd', Moved(md, c), t', n, t'.kids[n][j])
    {
      assert HasKid(nd, md, t, o, t.kids[o][j]);
      if o == md.m && t.kids[o][j] == c {
        MoveKidItself(nd, inf, nd', inf', md, size, t, c, a, b);
      } else {
        MoveOtherKid(nd, inf, nd', inf', md, size, t, c, a, b, n, t.kids[o][j]);
      }
    }
  }

  lemma MoveKidItself(nd: Nodes, inf: Infos, nd': Nodes, inf': Infos, md: Mode, size: int, t: Tree, c: byte, a: int,
      b: int)
    requires Moves(nd, inf, nd', inf', md, size, t, c, a, b)
    ensures HasKid(nd', Moved(md, c), Relabel(t, a, b), md.m, c)
  {
    hide Xor, Inverse, TreeOk, LinkedUp;
    TreeFacts(nd, inf, md, size, t);
    MoveFacts(nd, inf, nd', inf', md, size, t, c, a, b);
  }

  lemma MoveOtherKid(nd: Nodes, inf: Infos, nd': Nodes, inf': Infos, md: Mode, size: int, t: Tree, c: byte, a: int,
      b: int, n: int, l: byte)
    requires Moves(nd, inf, nd', inf', md, size, t, c, a, b) && n in Relabel(t, a, b).path
    requires HasKid(nd, md, t, if n == b then a else n, l) && !(n == md.m && l == c)
    ensures HasKid(nd', Moved(md, c), Relabel(t, a, b), n, l)
  {
    hide Xor, Inverse, TreeOk, LinkedUp;
    TreeFacts(nd, inf, md, size, t);
    MoveFacts(nd, inf, nd', inf', md, size, t, c, a, b);
    var o := if n == b then a else n;
    var s := SlotFor(nd, md, o, l);
    assert s != a;
    assert SlotFor(nd', Moved(md, c), n, l) == s;
  }

  lemma MoveContent(nd: Nodes, inf: Infos, nd': Nodes, inf': Infos, md: Mode, size: int, t: Tree, c: byte, a: int,
      b: int, n: int)
    requires Moves(nd, inf, nd', inf', md, size, t, c, a, b) && n in Relabel(t, a, b).path
    ensures 0 <= n < |nd'.base| == |inf'.child|
    ensures ContentOk(nd', inf', Moved(md, c), size, Relabel(t, a, b).path[n], n, Relabel(t, a, b).kids[n])
    ensures KidsOk(Relabel(t, a, b).kids[n], n)
  {
    hide Xor, Inverse, TreeOk, LinkedUp, Chained, AllKids;
    TreeFacts(nd, inf, md, size, t);
    MoveFacts(nd, inf, nd', inf', md, size, t, c, a, b);
    NodeFacts(nd, inf, md, size, t, if n == b then a else n);
  }

  lemma MoveChain(nd: Nodes, inf: Infos, nd': Nodes, inf': Infos, md: Mode, size: int, t: Tree, c: byte, a: int, b: int,
      n: int)
    requires Moves(nd, inf, nd', inf', md, size, t, c, a, b) && n in Relabel(t, a, b).path
    ensures ChainOk(nd', inf', Moved(md, c), n, Relabel(t, a, b).kids[n])
  {
    hide Xor, Inverse, TreeOk, LinkedUp, AllKids;
    TreeFacts(nd, inf, md, size, t);
    MoveFacts(nd, inf, nd', inf', md, size, t, c, a, b);
    var o := if n == b then a else n;
    NodeFacts(nd, inf, md, size, t, o);
    var ks := t.kids[o];
    if ks != [] && o != md.m {
      assert Chained(nd, inf, o, ks);
      forall j | 0 <= j < |ks| ensures Xor(nd.base[o], ks[j]) in t.path
      {
        ChainSlot(nd, inf, md, size, t, o, j);
      }
    }
  }

  lemma MoveChild(nd: Nodes, inf: Infos, nd': Nodes, inf': Infos, md: Mode, size: int, t: Tree, c: byte, a: int, b: int)
    requires Moves(nd, inf, nd', inf', md, size, t, c, a, b)
    ensures TreeOk(nd', inf', Moved(md, c), size, Relabel(t, a, b))
  {
    hide Xor, LinkedUp, AllKids, KidsOk, ContentOk, ChainOk, Inverse;
    TreeFacts(nd, inf, md, size, t);
    MoveFacts(nd, inf, nd', inf', md, size, t, c, a, b);
    var t' := Relabel(t, a, b);
    var md' := Moved(md, c);
    forall i | i in t'.path && i != 0 ensures LinkedUp(nd', md', t', i)
    {
      MoveLinks(nd, inf, nd', inf', md, size, t, c, a, b, i);
    }
    forall n | n in t'.path ensures Family(nd', inf', md', size, t', n)
    {
      MoveKids(nd, inf, nd', inf', md, size, t, c, a, b, n);
      MoveContent(nd, inf, nd', inf', md, size, t, c, a, b, n);
      MoveChain(nd, inf, nd', inf', md, size, t, c, a, b, n);
    }
  }

  // ------------------------------------------------- the new child among the movers

  ghost function WithMover(t: Tree, m: int, ks: seq<byte>, l: byte, b: int): Tree
    requires m in t.path
  {
    Tree(t.path[b := Snoc(t.path[m], l)], t.at[Snoc(t.path[m], l) := b], t.kids[m := ks][b := []])
  }

  ghost predicate MoverAdds(nd: Nodes, inf: Infos, md: Mode, size: int, t: Tree, ks: seq<byte>, l: byte, b: int)
  {
    && TreeOk(nd, inf, md, size, t) && md.Moving? && l !in md.done
    && md.m in t.kids && md.m in t.path && !IsTerm(t.path[md.m]) && t.kids[md.m] != []
    && Snoc(t.path[md.m], l) !in t.at
    && KidsOk(ks, md.m) && (forall x :: x in ks <==> x in t.kids[md.m] || x == l)
    && md.m < |nd.base| && nd.base[md.m] >= 256 && b == Xor(nd.base[md.m], l)
    && b !in t.path && 0 < b < size
    && nd.check[b] == md.m && (l != 0 ==> nd.base[b] == -1) && inf.child[b] == 0
  }

  lemma MoverFacts(nd: Nodes, inf: Infos, md: Mode, size: int, t: Tree, ks: seq<byte>, l: byte, b: int)
    requires MoverAdds(nd, inf, md, size, t, ks, l, b)
    ensures Inverse(WithMover(t, md.m, ks, l, b)) && md.m != 0 && b != md.m
  {
    hide Xor, KidsOk, Family, LinkedUp;
  }

  lemma MoverFamily(nd: Nodes, inf: Infos, md: Mode, size: int, t: Tree, ks: seq<byte>, l: byte, b: int, n: int)
    requires MoverAdds(nd, inf, md, size, t, ks, l, b) && n in WithMover(t, md.m, ks, l, b).path
    ensures Family(nd, inf, Moved(md, l), size, WithMover(t, md.m, ks, l, b), n)
  {
    hide Xor, Inverse, LinkedUp, TreeOk, Chained, KidsOk;
    TreeFacts(nd, inf, md, size, t);
    MoverFacts(nd, inf, md, size, t, ks, l, b);
    var t' := WithMover(t, md.m, ks, l, b);
    if n == b {
      assert KidsOk([], b) by { KidsOkEmpty(b); }
    } else {
      NodeFacts(nd, inf, md, size, t, n);
      forall j | 0 <= j < |t'.kids[n]|
          && (n != 0 || t'.kids[n][j] != 0) ensures HasKid(nd, Moved(md, l), t', n, t'.kids[n][j])
      {
        var x := t'.kids[n][j];
        if n == md.m && x == l {
        } else {
          var i := At(t.kids[n], x);
          assert HasKid(nd, md, t, n, t.kids[n][i]);
        }
      }
      assert l in ks;
    }
  }

  lemma InPath(t: Tree, i: int)
    requires Inverse(t) && i in t.path
    ensures t.path[i] in t.at
  {
  }

  lemma KidsOkEmpty(n: int)
    requires n != 0
    ensures KidsOk([], n)
  {
  }

  lemma MoverChild(nd: Nodes, inf: Infos, md: Mode, size: int, t: Tree, ks: seq<byte>, l: byte, b: int)
    requires MoverAdds(nd, inf, md, size, t, ks, l, b)
    ensures TreeOk(nd, inf, Moved(md, l), size, WithMover(t, md.m, ks, l, b))
  {
    hide Xor, Family, KidsOk, Inverse;
    TreeFacts(nd, inf, md, size, t);
    MoverFacts(nd, inf, md, size, t, ks, l, b);
    var t' := WithMover(t, md.m, ks, l, b);
    forall i | i in t'.path && i != 0 ensures LinkedUp(nd, Moved(md, l), t', i)
    {
      if i != b {
        assert LinkedUp(nd, md, t, i);
        assert t.path[i] in t.at by { InPath(t, i); }
      }
    }
    forall n | n in t'.path ensures Family(nd, inf, Moved(md, l), size, t', n)
    {
      MoverFamily(nd, inf, md, size, t, ks, l, b, n);
    }
  }

  // The slots whose parent is a are exactly those of a's chain.
  lemma GrandchildSlots(nd: Nodes, inf: Infos, md: Mode, size: int, t: Tree, a: int, i: int)
    requires TreeOk(nd, inf, md, size, t) && a in t.path && a in t.kids && i in t.path
    requires 0 <= i < |nd.check| == |nd.base|
    requires md.Moving? && a != md.m && 0 <= a < |nd.base| && nd.base[a] >= 0 && t.kids[a] != [] && a != 0
    ensures nd.check[i] == a <==> exists k :: 0 <= k < |t.kids[a]| && i == Xor(nd.base[a], t.kids[a][k])
  {
    hide Xor, TreeOk, Inverse, AllKids, KidsOk, Chained;
    TreeFacts(nd, inf, md, size, t);
    NodeFacts(nd, inf, md, size, t, i);
    if nd.check[i] == a {
      assert i != 0;
      var k := At(t.kids[a], t.path[i].lab);
      assert i == Xor(nd.base[a], t.kids[a][k]);
    }
    if k :| 0 <= k < |t.kids[a]| && i == Xor(nd.base[a], t.kids[a][k]) {
      ChainSlot(nd, inf, md, size, t, a, k);
    }
  }
}
