// Giving a node one more child.
module Adding {
  import opened Bits
  import opened Rings
  import opened Slots
  import opened Shape

  // A new label goes to the front of the chain, but after label 0.
  function InsertKid(ks: seq<byte>, l: byte): seq<byte>
  {
    if ks != [] && ks[0] == 0 then [0, l] + ks[1..] else [l] + ks
  }

  ghost function WithKid(t: Tree, n: int, l: byte, s: int): Tree
    requires n in t.path && n in t.kids
  {
    Tree(t.path[s := Snoc(t.path[n], l)], t.at[Snoc(t.path[n], l) := s],
         t.kids[n := InsertKid(t.kids[n], l)][s := []])
  }

  // What push_sibling writes for child slot s of n under label l.
  ghost predicate SiblingPushed(nd: Nodes, inf: Infos, inf': Infos, n: int, ks: seq<byte>, l: byte, s: int)
    requires |inf.sibling| == |inf.child| == |nd.base| && 0 <= n < |nd.base| && 0 <= s < |nd.base|
  {
    && |inf'.sibling| == |inf'.child| == |inf.child|
    && if ks != [] && ks[0] == 0
       then nd.base[n] >= 0 && Xor(nd.base[n], 0) < |inf.sibling| &&
            inf' == Infos(inf.sibling[s := inf.sibling[Xor(nd.base[n], 0)]][Xor(nd.base[n], 0) := l], inf.child)
       else inf' == Infos(inf.sibling[s := inf.child[n]], inf.child[n := l])
  }

  lemma InsertMembers(ks: seq<byte>, n: int, l: byte)
    requires KidsOk(ks, n) || (ks == [] && n != 0)
    requires l !in ks && (n == 0 ==> l != 0)
    ensures KidsOk(InsertKid(ks, l), n) && InsertKid(ks, l) != []
    ensures forall x :: x in InsertKid(ks, l) <==> x in ks || x == l
  {
    var q := InsertKid(ks, l);
    forall x | x in ks || x == l ensures x in q
    {
      if x == l { assert if ks != [] && ks[0] == 0 then q[1] == l else q[0] == l; }
      else {
        var j := At(ks, x);
        assert q[if ks[0] == 0 && j == 0 then 0 else j + 1] == x;
      }
    }
  }

  // The situation: n can take a child under l at slot s, and does.
  ghost predicate Adds(nd: Nodes, inf: Infos, nd': Nodes, inf': Infos, md: Mode, size: int, t: Tree, n: int, l: byte,
      s: int)
  {
    && TreeOk(nd, inf, md, size, t)
    && n in t.path && !IsTerm(t.path[n]) && (n == 0 ==> l != 0)
    && !(md.Moving? && n == md.m) && !md.Erasing?
    && Snoc(t.path[n], l) !in t.at
    && 0 < s < size && s !in t.path
    && |nd'.base| == |nd.base| && nd'.check == nd.check && n < |nd.base|
    && nd' == Nodes(nd.base[n := nd'.base[n]], nd.check)
    && (if t.kids[n] == [] then 256 <= nd'.base[n] < size else nd'.base[n] == nd.base[n])
    && s == Xor(nd'.base[n], l) && nd.check[s] == n && (l != 0 ==> nd.base[s] == -1) && inf.child[s] == 0
    && SiblingPushed(nd', inf, inf', n, t.kids[n], l, s)
  }

  lemma AddFacts(nd: Nodes, inf: Infos, nd': Nodes, inf': Infos, md: Mode, size: int, t: Tree, n: int, l: byte, s: int)
    requires Adds(nd, inf, nd', inf', md, size, t, n, l, s)
    ensures n in t.kids && l !in t.kids[n] && KidsOk(t.kids[n], n) && n != s
    ensures forall i :: i in t.path ==> nd'.check[i] == nd.check[i] && (i != n ==> nd'.base[i] == nd.base[i])
    ensures Inverse(WithKid(t, n, l, s))
    ensures nd'.base[n] >= 0 && nd'.base[0] == 0
  {
    hide Xor, TreeOk, Inverse, AllKids, Chained, SiblingPushed;
    TreeFacts(nd, inf, md, size, t);
    NodeFacts(nd, inf, md, size, t, n);
    NodeFacts(nd, inf, md, size, t, 0);
    AddFresh(nd, md, t, n, l);
    AddInverse(t, n, l, s);
  }

  lemma AddFresh(nd: Nodes, md: Mode, t: Tree, n: int, l: byte)
    requires Inverse(t) && n in t.path && n in t.kids && AllKids(nd, md, t, n)
    requires Snoc(t.path[n], l) !in t.at && (n == 0 ==> l != 0)
    ensures l !in t.kids[n]
  {
    hide Xor;
    forall j | 0 <= j < |t.kids[n]| ensures t.kids[n][j] != l
    {
      if n != 0 || t.kids[n][j] != 0 { assert HasKid(nd, md, t, n, t.kids[n][j]); }
    }
  }

  lemma AddInverse(t: Tree, n: int, l: byte, s: int)
    requires Inverse(t) && n in t.path && s !in t.path && Snoc(t.path[n], l) !in t.at
    ensures Inverse(WithKid(t, n, l, s))
  {
  }

  lemma AddLinks(nd: Nodes, inf: Infos, nd': Nodes, inf': Infos, md: Mode, size: int, t: Tree, n: int, l: byte, s: int,
      i: int)
    requires Adds(nd, inf, nd', inf', md, size, t, n, l, s) && i in WithKid(t, n, l, s).path && i != 0
    ensures LinkedUp(nd', md, WithKid(t, n, l, s), i)
  {
    hide Xor, Inverse, Family, SiblingPushed;
    AddFacts(nd, inf, nd', inf', md, size, t, n, l, s);
    InsertMembers(t.kids[n], n, l);
    if i != s {
      assert LinkedUp(nd, md, t, i);
    }
  }

  lemma AddKids(nd: Nodes, inf: Infos, nd': Nodes, inf': Infos, md: Mode, size: int, t: Tree, n: int, l: byte, s: int,
      k: int)
    requires Adds(nd, inf, nd', inf', md, size, t, n, l, s) && k in WithKid(t, n, l, s).path
    ensures AllKids(nd', md, WithKid(t, n, l, s), k)
  {
    hide Xor, Inverse, Family, SiblingPushed, LinkedUp, KidsOk;
    AddFacts(nd, inf, nd', inf', md, size, t, n, l, s);
    InsertMembers(t.kids[n], n, l);
    var t' := WithKid(t, n, l, s);
    if k != s {
      KidsOf(nd, inf, md, size, t, k);
      forall j | 0 <= j < |t'.kids[k]| && (k != 0 || t'.kids[k][j] != 0) ensures HasKid(nd', md, t', k, t'.kids[k][j])
      {
        var x := t'.kids[k][j];
        if k == n && x == l {
        } else {
          var i := At(t.kids[k], x);
          assert HasKid(nd, md, t, k, t.kids[k][i]);
        }
      }
    }
  }

  lemma KidsOf(nd: Nodes, inf: Infos, md: Mode, size: int, t: Tree, k: int)
    requires TreeOk(nd, inf, md, size, t) && k in t.path
    ensures k in t.kids && AllKids(nd, md, t, k)
  {
  }

  lemma AddContent(nd: Nodes, inf: Infos, nd': Nodes, inf': Infos, md: Mode, size: int, t: Tree, n: int, l: byte,
      s: int, k: int)
    requires Adds(nd, inf, nd', inf', md, size, t, n, l, s) && k in WithKid(t, n, l, s).path
    ensures 0 <= k < |nd'.base| == |inf'.child|
    ensures ContentOk(nd', inf', md, size, WithKid(t, n, l, s).path[k], k, WithKid(t, n, l, s).kids[k])
    ensures KidsOk(WithKid(t, n, l, s).kids[k], k)
  {
    hide Xor, Inverse, LinkedUp;
    AddFacts(nd, inf, nd', inf', md, size, t, n, l, s);
    InsertMembers(t.kids[n], n, l);
    if k != s { NodeFacts(nd, inf, md, size, t, k); }
  }

  // The chain of the growing node ...
  lemma AddOwnChain(nd: Nodes, inf: Infos, nd': Nodes, inf': Infos, md: Mode, size: int, t: Tree, n: int, l: byte,
      s: int)
    requires Adds(nd, inf, nd', inf', md, size, t, n, l, s)
    ensures Chained(nd', inf', n, InsertKid(t.kids[n], l))
  {
    hide Xor, Inverse, LinkedUp, AllKids, TreeOk;
    TreeFacts(nd, inf, md, size, t);
    AddFacts(nd, inf, nd', inf', md, size, t, n, l, s);
    NodeFacts(nd, inf, md, size, t, n);
    var ks := t.kids[n];
    if ks == [] {
    } else {
      assert Chained(nd, inf, n, ks);
      var b := nd.base[n];
      forall j | 0 <= j < |ks| ensures Xor(b, ks[j]) in t.path && Xor(b, ks[j]) != s
          && (j > 0 ==> Xor(b, ks[j]) != Xor(b, ks[0]))
      {
        ChainSlot(nd, inf, md, size, t, n, j);
        SlotXor(b, ks[j]);
        SlotXor(b, ks[0]);
      }
    }
  }

  // ... and the chains of the others.
  lemma AddOtherChain(nd: Nodes, inf: Infos, nd': Nodes, inf': Infos, md: Mode, size: int, t: Tree, n: int, l: byte,
      s: int, k: int)
    requires Adds(nd, inf, nd', inf', md, size, t, n, l, s) && k in t.path && k != n
    ensures k in t.kids && ChainOk(nd', inf', md, k, t.kids[k])
  {
    hide Xor, Inverse, LinkedUp, AllKids, TreeOk;
    TreeFacts(nd, inf, md, size, t);
    AddFacts(nd, inf, nd', inf', md, size, t, n, l, s);
    NodeFacts(nd, inf, md, size, t, k);
    NodeFacts(nd, inf, md, size, t, n);
    var ks := t.kids[k];
    if ks != [] && !(md.Moving? && k == md.m) {
      if t.kids[n] != [] { ChainSlot(nd, inf, md, size, t, n, 0); }
      forall j | 0 <= j < |ks|
        ensures Xor(nd.base[k], ks[j]) < |inf'.sibling|
        ensures inf'.sibling[Xor(nd.base[k], ks[j])] == inf.sibling[Xor(nd.base[k], ks[j])]
      {
        ChainSlot(nd, inf, md, size, t, k, j);
      }
      ChainFrame(nd, inf, nd', inf', k, ks);
    }
  }

  lemma AddKid(nd: Nodes, inf: Infos, nd': Nodes, inf': Infos, md: Mode, size: int, t: Tree, n: int, l: byte, s: int)
    requires Adds(nd, inf, nd', inf', md, size, t, n, l, s)
    ensures TreeOk(nd', inf', md, size, WithKid(t, n, l, s))
  {
    hide Xor, LinkedUp, AllKids, KidsOk, ContentOk, Chained, Inverse;
    TreeFacts(nd, inf, md, size, t);
    AddFacts(nd, inf, nd', inf', md, size, t, n, l, s);
    var t' := WithKid(t, n, l, s);
    forall i | i in t'.path && i != 0 ensures LinkedUp(nd', md, t', i)
    {
      AddLinks(nd, inf, nd', inf', md, size, t, n, l, s, i);
    }
    forall k | k in t'.path ensures Family(nd', inf', md, size, t', k)
    {
      AddKids(nd, inf, nd', inf', md, size, t, n, l, s, k);
      AddContent(nd, inf, nd', inf', md, size, t, n, l, s, k);
      if k == n { AddOwnChain(nd, inf, nd', inf', md, size, t, n, l, s); }
      else if k != s { AddOtherChain(nd, inf, nd', inf', md, size, t, n, l, s, k); }
    }
  }

  lemma ExtendSlice<T>(mid: seq<T>, ks: seq<T>, i: int, j: int)
    requires 0 <= i <= j < |ks|
    ensures (mid + ks[i..j]) + [ks[j]] == mid + ks[i..j + 1]
  {
  }
}
