// The relocation loop of resolve: the children of node m travel from base ob to
// base nb in the order of list. d of them have arrived, the slots of the first f
// are claimed and chained, one slot may be in limbo.
module Resolving {
  import opened Bits
  import opened Rings
  import opened Slots
  import opened FreeSlots
  import opened Alloc
  import opened Shape
  import opened Adding
  import opened Relocating
  import opened Views

  ghost function Below(list: seq<byte>, k: int): set<byte>
    requires 0 <= k <= |list|
  {
    set j | 0 <= j < k :: list[j]
  }

  lemma BelowStep(list: seq<byte>, k: int)
    requires 0 <= k < |list| && Distinct(list)
    ensures Below(list, k + 1) == Below(list, k) + {list[k]} && list[k] !in Below(list, k)
  {
    forall x | x in Below(list, k + 1) ensures x in Below(list, k) + {list[k]}
    {
      var j :| 0 <= j < k + 1 && list[j] == x;
      assert j < k ==> x in Below(list, k);
    }
  }

  lemma BelowAll(list: seq<byte>)
    ensures forall x :: x in list ==> x in Below(list, |list|)
  {
    forall x | x in list ensures x in Below(list, |list|)
    {
      assert list[At(list, x)] == x;
    }
  }

  // The slots still to be claimed are free, those claimed are chained in list order.
  ghost predicate Runway(nd: Nodes, inf: Infos, size: int, nb: int, list: seq<byte>, f: int)
  {
    && 0 <= f <= |list| && nb >= 256
    && (forall j :: f <= j < |list| ==> IsFree(nd, size, Xor(nb, list[j])))
    && (forall j :: 0 <= j < f ==>
         Xor(nb, list[j]) < |inf.sibling| && inf.sibling[Xor(nb, list[j])] == NextLabel(list, j))
  }

  ghost predicate Movement(nd: Nodes, inf: Infos, size: int, t: Tree, m: int, ob: int, nb: int,
                           list: seq<byte>, d: int, f: int, limbo: int)
  {
    && 0 <= d <= f <= |list| && list != []
    && TreeOk(nd, inf, Moving(m, ob, Below(list, d)), size, t)
    && Covers(nd, size, t, limbo)
    && m in t.path && 0 <= m < |nd.base| == |inf.child| && nd.base[m] == nb && nb < size
    && m in t.kids && t.kids[m] != []
    && inf.child[m] == list[0] && KidsOk(list, m)
    && Runway(nd, inf, size, nb, list, f)
  }

  lemma MovementFacts(nd: Nodes, inf: Infos, size: int, t: Tree, m: int, ob: int, nb: int,
                      list: seq<byte>, d: int, f: int, limbo: int)
    requires Movement(nd, inf, size, t, m, ob, nb, list, d, f, limbo)
    ensures |nd.base| == |nd.check| == |inf.sibling| == |inf.child| >= size > 0 && size % 256 == 0
    ensures Inverse(t) && Placed(nd, t) && 256 <= ob < size && 256 <= nb < size && m != 0 && !IsTerm(t.path[m])
    ensures Distinct(list) && 0 in t.path && t.path[0] == Root
    ensures forall i :: i in t.path ==> 0 <= i < size
  {
    hide Xor, AllKids, ChainOk, LinkedUp;
    NodeFacts(nd, inf, Moving(m, ob, Below(list, d)), size, t, m);
  }

  // A slot on the runway belongs to one label only.
  lemma RunwayDistinct(nb: int, list: seq<byte>, i: int, j: int)
    requires nb >= 0 && Distinct(list) && 0 <= i < |list| && 0 <= j < |list| && i != j
    ensures Xor(nb, list[i]) != Xor(nb, list[j])
  {
    hide Xor;
    SlotXor(nb, list[i]);
    SlotXor(nb, list[j]);
  }

  // --------------------------------------------------------------- claiming a slot

  lemma PopStep(nd: Nodes, inf: Infos, nd': Nodes, inf': Infos, size: int, t: Tree, m: int, ob: int, nb: int,
      list: seq<byte>, k: int)
    requires Movement(nd, inf, size, t, m, ob, nb, list, k, k, -1) && k < |list|
    requires Claimed(nd, inf, size, nd', inf, size, Xor(nb, list[k]))
    requires Xor(nb, list[k]) < |inf.sibling|
    requires inf' == Infos(inf.sibling[Xor(nb, list[k]) := NextLabel(list, k)], inf.child)
    ensures Xor(nb, list[k]) !in t.path && inf'.child[Xor(nb, list[k])] == 0
    ensures Movement(nd', inf', size, t, m, ob, nb, list, k, k + 1, Xor(nb, list[k]))
    ensures forall i :: i in t.path ==> nd'.base[i] == nd.base[i] && nd'.check[i] == nd.check[i]
    ensures SameView(nd, t, nd', t)
  {
    hide Xor, TreeOk, Inverse, KidsOk, Claimed;
    MovementFacts(nd, inf, size, t, m, ob, nb, list, k, k, -1);
    var md := Moving(m, ob, Below(list, k));
    var s := Xor(nb, list[k]);
    ClaimedTree(nd, inf, size, nd', inf, size, s, md, t);
    TreeFacts(nd', inf, md, size, t);
    TreeFrame(nd', inf, nd', inf', md, size, size, t);
    FrameView(nd, nd', t);
    ClaimRunway(nd, inf, nd', inf', size, nb, list, k);
  }

  lemma ClaimRunway(nd: Nodes, inf: Infos, nd': Nodes, inf': Infos, size: int, nb: int, list: seq<byte>, k: int)
    requires Runway(nd, inf, size, nb, list, k) && 0 <= k < |list| && Distinct(list)
    requires Claimed(nd, inf, size, nd', inf, size, Xor(nb, list[k])) && Xor(nb, list[k]) < |inf.sibling|
    requires inf' == Infos(inf.sibling[Xor(nb, list[k]) := NextLabel(list, k)], inf.child)
    ensures Runway(nd', inf', size, nb, list, k + 1)
  {
    hide Xor;
    forall j | k + 1 <= j < |list| ensures IsFree(nd', size, Xor(nb, list[j]))
    {
      RunwayDistinct(nb, list, j, k);
    }
    forall j | 0 <= j < k ensures inf'.sibling[Xor(nb, list[j])] == NextLabel(list, j)
    {
      RunwayDistinct(nb, list, j, k);
    }
  }

  // --------------------------------------------------------------- carrying a child

  // What the copy and the redirection of the grandchildren write.
  ghost predicate Carried(nd: Nodes, inf: Infos, nd': Nodes, inf': Infos, t: Tree, a: int, b: int, lab: byte)
  {
    && 0 <= a < |nd.base| == |nd.check| == |inf.child| == |inf.sibling| && 0 <= b < |nd.base|
    && nd'.base == nd.base[b := nd.base[a]]
    && |nd'.check| == |nd.check|
    && if nd.base[a] > 0 && lab != 0
       then inf' == Infos(inf.sibling, inf.child[b := inf.child[a]]) &&
            (forall i :: i in t.path && 0 <= i < |nd.check| ==>
                nd'.check[i] == if nd.check[i] == a then b else nd.check[i]) &&
            (forall i :: 0 <= i < |nd.check| && i !in t.path ==> nd'.check[i] == nd.check[i])
       else inf' == inf && nd'.check == nd.check
  }

  // A moving child has children of its own iff its base is positive and it is no terminal.
  lemma CarryTest(nd: Nodes, inf: Infos, size: int, t: Tree, m: int, ob: int, nb: int, list: seq<byte>, k: int, f: int,
      limbo: int)
    requires Movement(nd, inf, size, t, m, ob, nb, list, k, f, limbo) && k < |list| && list[k] in t.kids[m]
    ensures Xor(ob, list[k]) in t.path && Xor(ob, list[k]) in t.kids && Xor(ob, list[k]) < |nd.base|
    ensures t.path[Xor(ob, list[k])] == Snoc(t.path[m], list[k]) && nd.check[Xor(ob, list[k])] == m
    ensures Xor(ob, list[k]) != m && Xor(ob, list[k]) != 0
    ensures var a := Xor(ob, list[k]);
            (nd.base[a] > 0 && list[k] != 0 <==> t.kids[a] != []) && (t.kids[a] != [] ==> inf.child[a] == t.kids[a][0])
  {
    hide Xor, TreeOk, KidsOk, LinkedUp;
    MovementFacts(nd, inf, size, t, m, ob, nb, list, k, f, limbo);
    var md := Moving(m, ob, Below(list, k));
    BelowStep(list, k);
    NodeFacts(nd, inf, md, size, t, m);
    KidPresent(nd, md, t, m, list[k]);
    var a := Xor(ob, list[k]);
    NodeFacts(nd, inf, md, size, t, a);
    assert t.path[a] != t.path[m];
  }

  lemma CarryMoves(nd: Nodes, inf: Infos, nd': Nodes, inf': Infos, size: int, t: Tree, m: int, ob: int, nb: int,
      list: seq<byte>, k: int)
    requires 0 <= k < |list| && nb >= 256 && Movement(nd, inf, size, t, m, ob, nb, list, k, k + 1, Xor(nb, list[k]))
    requires list[k] in t.kids[m]
    requires Xor(nb, list[k]) !in t.path && Xor(nb, list[k]) < |nd.check| && nd.check[Xor(nb, list[k])] == m
    requires inf.child[Xor(nb, list[k])] == 0
    requires Carried(nd, inf, nd', inf', t, Xor(ob, list[k]), Xor(nb, list[k]), list[k])
    ensures Moves(nd, inf, nd', inf', Moving(m, ob, Below(list, k)), size, t, list[k], Xor(ob, list[k]),
              Xor(nb, list[k]))
  {
    hide Xor, TreeOk, KidsOk, Inverse;
    MovementFacts(nd, inf, size, t, m, ob, nb, list, k, k + 1, Xor(nb, list[k]));
    CarryTest(nd, inf, size, t, m, ob, nb, list, k, k + 1, Xor(nb, list[k]));
    BelowStep(list, k);
    var a, b := Xor(ob, list[k]), Xor(nb, list[k]);
    SlotXor(nb, list[k]);
    var md := Moving(m, ob, Below(list, k));
    NodeFacts(nd, inf, md, size, t, a);
    forall i | i in t.path ensures nd'.check[i] == if nd.check[i] == a then b else nd.check[i]
    {
      if t.kids[a] == [] { NoGrandchildren(nd, inf, md, size, t, a, i); }
    }
  }

  lemma NoGrandchildren(nd: Nodes, inf: Infos, md: Mode, size: int, t: Tree, a: int, i: int)
    requires TreeOk(nd, inf, md, size, t) && a in t.path && a in t.kids && t.kids[a] == [] && i in t.path
    ensures 0 <= i < |nd.check| && nd.check[i] != a
  {
    hide Xor, TreeOk, Inverse, AllKids, KidsOk, Chained;
    TreeFacts(nd, inf, md, size, t);
    NodeFacts(nd, inf, md, size, t, i);
  }

  lemma CarryStep(nd: Nodes, inf: Infos, nd': Nodes, inf': Infos, size: int, t: Tree, m: int, ob: int, nb: int,
      list: seq<byte>, k: int)
    requires 0 <= k < |list| && nb >= 256 && Movement(nd, inf, size, t, m, ob, nb, list, k, k + 1, Xor(nb, list[k]))
    requires list[k] in t.kids[m]
    requires Xor(nb, list[k]) !in t.path && Xor(nb, list[k]) < |nd.check| && nd.check[Xor(nb, list[k])] == m
    requires inf.child[Xor(nb, list[k])] == 0
    requires Carried(nd, inf, nd', inf', t, Xor(ob, list[k]), Xor(nb, list[k]), list[k])
    ensures Xor(ob, list[k]) in t.path && Xor(ob, list[k]) in t.kids && Xor(ob, list[k]) != m
    ensures var t' := Relabel(t, Xor(ob, list[k]), Xor(nb, list[k]));
            && Movement(nd', inf', size, t', m, ob, nb, list, k + 1, k + 1, Xor(ob, list[k]))
            && SameView(nd, t, nd', t') && t'.kids[m] == t.kids[m] && t'.path[m] == t.path[m]
  {
    hide Xor, TreeOk, KidsOk, Inverse, Moves, SameView;
    MovementFacts(nd, inf, size, t, m, ob, nb, list, k, k + 1, Xor(nb, list[k]));
    CarryTest(nd, inf, size, t, m, ob, nb, list, k, k + 1, Xor(nb, list[k]));
    CarryMoves(nd, inf, nd', inf', size, t, m, ob, nb, list, k);
    BelowStep(list, k);
    SlotXor(nb, list[k]);
    var a, b := Xor(ob, list[k]), Xor(nb, list[k]);
    var md := Moving(m, ob, Below(list, k));
    MoveFacts(nd, inf, nd', inf', md, size, t, list[k], a, b);
    MoveChild(nd, inf, nd', inf', md, size, t, list[k], a, b);
    RelabelView(nd, nd', t, a, b);
    CarryCovers(nd, inf, nd', inf', size, t, a, b, list[k], m);
    CarryRunway(nd, inf, nd', inf', size, t, a, b, nb, list, k, m);
  }

  lemma CarryCovers(nd: Nodes, inf: Infos, nd': Nodes, inf': Infos, size: int, t: Tree, a: int, b: int, lab: byte,
      m: int)
    requires Covers(nd, size, t, b) && Carried(nd, inf, nd', inf', t, a, b, lab) && b !in t.path && a in t.path
    requires a in t.kids && a != 0
    requires a < size && b < size && nd.check[b] == m >= 0
    ensures forall i :: IsFree(nd', size, i) <==> IsFree(nd, size, i)
    ensures Covers(nd', size, Relabel(t, a, b), a)
  {
    forall i ensures IsFree(nd', size, i) <==> IsFree(nd, size, i)
    {
      if 0 < i < size && i < |nd.check| && i in t.path { assert !IsFree(nd, size, i); }
    }
  }

  lemma CarryRunway(nd: Nodes, inf: Infos, nd': Nodes, inf': Infos, size: int, t: Tree, a: int, b: int, nb: int,
      list: seq<byte>, k: int, m: int)
    requires Runway(nd, inf, size, nb, list, k + 1) && 0 <= k < |list|
    requires Carried(nd, inf, nd', inf', t, a, b, list[k])
    requires forall i :: IsFree(nd', size, i) <==> IsFree(nd, size, i)
    ensures Runway(nd', inf', size, nb, list, k + 1)
  {
    hide Xor;
  }

  // ------------------------------------------- what becomes of the slot left behind

  lemma GiveStep(nd: Nodes, inf: Infos, nd': Nodes, inf': Infos, size: int, t: Tree, m: int, ob: int, nb: int,
      list: seq<byte>, k: int, a: int)
    requires Movement(nd, inf, size, t, m, ob, nb, list, k, k, a) && a !in t.path
    requires |nd.base| == |nd.check| && Given(nd, nd', size, a) && SameInfoBut(inf, inf', a)
    requires nb >= 256 && forall x :: x in list[..k] ==> x in t.kids[m]
    ensures Movement(nd', inf', size, t, m, ob, nb, list, k, k, -1)
    ensures SameView(nd, t, nd', t)
  {
    hide Xor, TreeOk, Inverse, KidsOk, Given;
    MovementFacts(nd, inf, size, t, m, ob, nb, list, k, k, a);
    var md := Moving(m, ob, Below(list, k));
    GivenTree(nd, inf, size, nd', inf', a, md, t);
    TreeFacts(nd', inf', md, size, t);
    FrameView(nd, nd', t);
    forall j | 0 <= j < k ensures Xor(nb, list[j]) in t.path
    {
      ArrivedSlot(nd, inf, size, t, m, ob, nb, list, k, k, a, j);
    }
    GiveRunway(nd, inf, nd', inf', size, t, nb, list, k, a);
  }

  lemma GiveRunway(nd: Nodes, inf: Infos, nd': Nodes, inf': Infos, size: int, t: Tree, nb: int, list: seq<byte>, k: int,
      a: int)
    requires Runway(nd, inf, size, nb, list, k) && nb >= 256 && a !in t.path
    requires (forall j :: 0 <= j < k ==> Xor(nb, list[j]) in t.path)
    requires |nd.base| == |nd.check| && Given(nd, nd', size, a) && SameInfoBut(inf, inf', a)
    ensures Runway(nd', inf', size, nb, list, k)
  {
    hide Xor;
  }

  // An arrived label's slot is in the tree, under m.
  lemma ArrivedSlot(nd: Nodes, inf: Infos, size: int, t: Tree, m: int, ob: int, nb: int, list: seq<byte>, d: int,
      f: int, limbo: int, j: int)
    requires Movement(nd, inf, size, t, m, ob, nb, list, d, f, limbo) && 0 <= j < d && nb >= 256
    requires forall x :: x in list[..d] ==> x in t.kids[m]
    ensures Xor(nb, list[j]) in t.path && Xor(nb, list[j]) < |nd.check| && nd.check[Xor(nb, list[j])] == m
  {
    hide Xor, TreeOk, Inverse, KidsOk;
    MovementFacts(nd, inf, size, t, m, ob, nb, list, d, f, limbo);
    var md := Moving(m, ob, Below(list, d));
    NodeFacts(nd, inf, md, size, t, m);
    assert list[..d][j] == list[j];
    KidPresent(nd, md, t, m, list[j]);
    assert list[j] in Below(list, d);
  }

  // The slot in limbo becomes the new child of n under l (n is not the mover).
  ghost predicate Reuses(nd: Nodes, inf: Infos, nd': Nodes, inf': Infos, t: Tree, n: int, l: byte, a: int)
  {
    && |nd.base| == |nd.check| == |inf.sibling| == |inf.child|
    && n in t.path && n in t.kids && t.kids[n] != [] && 0 <= n < |nd.base| && 0 <= a < |nd.base| && n != a
    && nd' == Nodes(nd.base[a := if l != 0 then -1 else 0], nd.check[a := n])
    && SiblingPushed(nd', Infos(inf.sibling, inf.child[a := 0]), inf', n, t.kids[n], l, a)
  }

  lemma ReuseAdds(nd: Nodes, inf: Infos, nd': Nodes, inf': Infos, md: Mode, size: int, t: Tree, n: int, l: byte, a: int)
    requires TreeOk(nd, inf, md, size, t) && Covers(nd, size, t, a) && a !in t.path && 0 < a < size
    requires !IsFree(nd, size, a)
    requires Reuses(nd, inf, nd', inf', t, n, l, a)
    requires md.Moving? && n != md.m && (n == 0 ==> l != 0) && nd.base[n] >= 0 && a == Xor(nd.base[n], l)
    requires Snoc(t.path[n], l) !in t.at
    ensures Adds(nd', Infos(inf.sibling, inf.child[a := 0]), nd', inf', md, size, t, n, l, a)
    ensures forall i :: IsFree(nd', size, i) <==> IsFree(nd, size, i)
  {
    hide Xor, TreeOk, Inverse, SiblingPushed;
    TreeFacts(nd, inf, md, size, t);
    NodeFacts(nd, inf, md, size, t, n);
    TreeFrame(nd, inf, nd', Infos(inf.sibling, inf.child[a := 0]), md, size, size, t);
  }

  lemma ReuseStep(nd: Nodes, inf: Infos, nd': Nodes, inf': Infos, size: int, t: Tree, m: int, ob: int, nb: int,
                  list: seq<byte>, k: int, n: int, l: byte, a: int)
    requires Movement(nd, inf, size, t, m, ob, nb, list, k, k, a) && a !in t.path && 0 < a < size
    requires !IsFree(nd, size, a)
    requires nb >= 256 && forall x :: x in list[..k] ==> x in t.kids[m]
    requires Reuses(nd, inf, nd', inf', t, n, l, a)
    requires n != m && (n == 0 ==> l != 0) && nd.base[n] >= 0 && a == Xor(nd.base[n], l) && Snoc(t.path[n], l) !in t.at
    ensures Movement(nd', inf', size, WithKid(t, n, l, a), m, ob, nb, list, k, k, -1)
    ensures OneMore(nd, t, nd', WithKid(t, n, l, a), t.path[n], l)
    ensures WithKid(t, n, l, a).kids[m] == t.kids[m]
  {
    hide Xor, TreeOk, Inverse, KidsOk, Adds, SameView, OneMore, SiblingPushed;
    MovementFacts(nd, inf, size, t, m, ob, nb, list, k, k, a);
    var md := Moving(m, ob, Below(list, k));
    var infMid := Infos(inf.sibling, inf.child[a := 0]);
    ReuseAdds(nd, inf, nd', inf', md, size, t, n, l, a);
    AddKid(nd', infMid, nd', inf', md, size, t, n, l, a);
    AddFacts(nd', infMid, nd', inf', md, size, t, n, l, a);
    ReuseView(nd, nd', t, n, l, a);
    var t' := WithKid(t, n, l, a);
    assert Covers(nd', size, t', -1);
    ReuseRunway(nd, inf, nd', inf', size, t, m, ob, nb, list, k, n, l, a);
    TreeFacts(nd', inf', md, size, t');
  }

  lemma ReuseView(nd: Nodes, nd': Nodes, t: Tree, n: int, l: byte, a: int)
    requires Placed(nd, t) && a !in t.path && n in t.path && 0 <= a < |nd.base| == |nd.check|
    requires nd' == Nodes(nd.base[a := if l != 0 then -1 else 0], nd.check[a := n])
    requires Snoc(t.path[n], l) !in t.at && Inverse(WithKid(t, n, l, a))
    ensures OneMore(nd, t, nd', WithKid(t, n, l, a), t.path[n], l)
  {
    hide OneMore;
    KidView(nd, nd', t, n, l, a);
  }

  lemma ReuseRunway(nd: Nodes, inf: Infos, nd': Nodes, inf': Infos, size: int, t: Tree, m: int, ob: int, nb: int,
                    list: seq<byte>, k: int, n: int, l: byte, a: int)
    requires Movement(nd, inf, size, t, m, ob, nb, list, k, k, a) && a !in t.path
    requires nb >= 256 && forall x :: x in list[..k] ==> x in t.kids[m]
    requires Reuses(nd, inf, nd', inf', t, n, l, a) && n != m && nd.base[n] >= 0 && a == Xor(nd.base[n], l)
    requires forall i :: IsFree(nd', size, i) <==> IsFree(nd, size, i)
    ensures Runway(nd', inf', size, nb, list, k) && |inf'.child| == |inf.child| == |nd'.base|
    ensures inf'.child[m] == list[0]
  {
    hide Xor, TreeOk, Inverse, KidsOk;
    MovementFacts(nd, inf, size, t, m, ob, nb, list, k, k, a);
    var md := Moving(m, ob, Below(list, k));
    TreeFacts(nd, inf, md, size, t);
    ChainSlot(nd, inf, md, size, t, n, 0);
    forall j | 0 <= j < k ensures Xor(nb, list[j]) != a
        && (t.kids[n][0] == 0 ==> Xor(nb, list[j]) != Xor(nd.base[n], 0))
    {
      ArrivedSlot(nd, inf, size, t, m, ob, nb, list, k, k, a, j);
    }
    assert a != m;
  }

  // The mover's new child takes the place prepared for it.
  lemma MoverStep(nd: Nodes, inf: Infos, size: int, t: Tree, m: int, ob: int, nb: int, list: seq<byte>, k: int)
    requires 0 <= k < |list| && nb >= 256 && Movement(nd, inf, size, t, m, ob, nb, list, k, k + 1, Xor(nb, list[k]))
    requires Xor(nb, list[k]) !in t.path && Xor(nb, list[k]) < |nd.check| && nd.check[Xor(nb, list[k])] == m
    requires (list[k] != 0 ==> nd.base[Xor(nb, list[k])] == -1) && (list[k] == 0 ==> nd.base[Xor(nb, list[k])] == 0)
    requires inf.child[Xor(nb, list[k])] == 0
    requires list == InsertKid(t.kids[m], list[k]) && Snoc(t.path[m], list[k]) !in t.at && list[k] !in t.kids[m]
    ensures var t' := WithMover(t, m, list, list[k], Xor(nb, list[k]));
            && Movement(nd, inf, size, t', m, ob, nb, list, k + 1, k + 1, -1)
            && OneMore(nd, t, nd, t', t.path[m], list[k]) && t'.kids[m] == list
  {
    hide Xor, TreeOk, Inverse, OneMore;
    var b := Xor(nb, list[k]);
    MovementFacts(nd, inf, size, t, m, ob, nb, list, k, k + 1, b);
    var md := Moving(m, ob, Below(list, k));
    BelowStep(list, k);
    SlotXor(nb, list[k]);
    NodeFacts(nd, inf, md, size, t, m);
    InsertMembers(t.kids[m], m, list[k]);
    MoverChild(nd, inf, md, size, t, list, list[k], b);
    MoverFacts(nd, inf, md, size, t, list, list[k], b);
    MoverView(nd, nd, t, m, list, list[k], b);
    var t' := WithMover(t, m, list, list[k], b);
    assert Covers(nd, size, t', -1);
  }

  // --------------------------------------------------------------- start and finish

  lemma Departure(nd: Nodes, inf: Infos, nd': Nodes, inf': Infos, size: int, t: Tree, m: int, nb: int, list: seq<byte>)
    requires TreeOk(nd, inf, Still, size, t) && Covers(nd, size, t, -1)
    requires m in t.path && m in t.kids && m != 0 && t.kids[m] != [] && 256 <= nb < size
    requires list != [] && KidsOk(list, m) && 0 <= m < |nd.base| == |inf.child|
    requires nd' == SetBase(nd, m, nb) && inf' == Infos(inf.sibling, inf.child[m := list[0]])
    requires forall j :: 0 <= j < |list| ==> IsFree(nd, size, Xor(nb, list[j]))
    ensures Movement(nd', inf', size, t, m, nd.base[m], nb, list, 0, 0, -1) && SameView(nd, t, nd', t)
    ensures 256 <= nd.base[m] < size
  {
    hide Xor, TreeOk, Inverse, KidsOk, AllKids, LinkedUp;
    TreeFacts(nd, inf, Still, size, t);
    NodeFacts(nd, inf, Still, size, t, m);
    MoveStart(nd, inf, size, t, m, nb);
    var md := Moving(m, nd.base[m], {});
    assert Below(list, 0) == {};
    TreeFacts(nd', inf, md, size, t);
    MoverInfo(nd', inf, list[0], md, size, t);
    PlacedTree(nd, inf, Still, size, t);
    FrameView(nd, nd', t);
    assert forall i :: IsFree(nd', size, i) <==> IsFree(nd, size, i);
  }

  // The mover's child byte plays no part while it moves.
  lemma MoverInfo(nd: Nodes, inf: Infos, v: byte, md: Mode, size: int, t: Tree)
    requires TreeOk(nd, inf, md, size, t) && md.Moving? && md.m in t.kids && t.kids[md.m] != []
    requires 0 <= md.m < |inf.child|
    ensures TreeOk(nd, Infos(inf.sibling, inf.child[md.m := v]), md, size, t)
  {
    hide Xor, TreeOk, Inverse, LinkedUp, Family;
    TreeFacts(nd, inf, md, size, t);
    var inf' := Infos(inf.sibling, inf.child[md.m := v]);
    forall n | n in t.path ensures Family(nd, inf', md, size, t, n)
    {
      NodeFacts(nd, inf, md, size, t, n);
      MoverFamilyInfo(nd, inf, v, md, size, t, n);
    }
    TreeFromParts(nd, inf, inf', md, size, t);
  }

  lemma MoverFamilyInfo(nd: Nodes, inf: Infos, v: byte, md: Mode, size: int, t: Tree, n: int)
    requires Family(nd, inf, md, size, t, n) && md.Moving? && md.m in t.kids && t.kids[md.m] != []
    requires 0 <= md.m < |inf.child| == |inf.sibling|
    ensures Family(nd, Infos(inf.sibling, inf.child[md.m := v]), md, size, t, n)
  {
    hide Xor, AllKids, KidsOk;
  }

  lemma TreeFromParts(nd: Nodes, inf: Infos, inf': Infos, md: Mode, size: int, t: Tree)
    requires TreeOk(nd, inf, md, size, t) && |inf'.child| == |inf'.sibling| == |inf.child|
    requires forall n :: n in t.path ==> Family(nd, inf', md, size, t, n)
    ensures TreeOk(nd, inf', md, size, t)
  {
    hide Xor, Family, LinkedUp, Inverse;
  }

  lemma Arrival(nd: Nodes, inf: Infos, size: int, t: Tree, m: int, ob: int, nb: int, list: seq<byte>)
    requires Movement(nd, inf, size, t, m, ob, nb, list, |list|, |list|, -1) && t.kids[m] == list
    ensures TreeOk(nd, inf, Still, size, t) && Covers(nd, size, t, -1)
  {
    hide Xor, TreeOk, Inverse, KidsOk;
    MovementFacts(nd, inf, size, t, m, ob, nb, list, |list|, |list|, -1);
    BelowAll(list);
    assert Chained(nd, inf, m, list);
    MoveEnd(nd, inf, Moving(m, ob, Below(list, |list|)), size, t);
  }

  // While the new slot is being filled the tree does not notice.
  lemma CarryFrame(nd: Nodes, inf: Infos, nd': Nodes, inf': Infos, size: int, t: Tree, m: int, ob: int, nb: int,
      list: seq<byte>, k: int)
    requires 0 <= k < |list| && nb >= 256 && Movement(nd, inf, size, t, m, ob, nb, list, k, k + 1, Xor(nb, list[k]))
    requires Xor(nb, list[k]) !in t.path
    requires Xor(nb, list[k]) < |nd.base| == |inf.child| == |nd'.base| == |inf'.child| == |inf.sibling| == |nd'.check|
    requires nd' == Nodes(nd.base[Xor(nb, list[k]) := nd'.base[Xor(nb, list[k])]], nd.check)
    requires inf' == Infos(inf.sibling, inf.child[Xor(nb, list[k]) := inf'.child[Xor(nb, list[k])]])
    ensures TreeOk(nd', inf', Moving(m, ob, Below(list, k)), size, t)
  {
    hide Xor, TreeOk, KidsOk;
    MovementFacts(nd, inf, size, t, m, ob, nb, list, k, k + 1, Xor(nb, list[k]));
    TreeFrame(nd, inf, nd', inf', Moving(m, ob, Below(list, k)), size, size, t);
  }

  // Carrying writes only to slots in use.
  lemma CarryAlloc(nd: Nodes, inf: Infos, nd': Nodes, inf': Infos, size: int, t: Tree, a: int, b: int, lab: byte,
      m: int)
    requires Covers(nd, size, t, b) && Carried(nd, inf, nd', inf', t, a, b, lab) && b !in t.path && a in t.path
    requires a < size && b < size && nd.check[b] == m >= 0
    requires forall i :: i in t.path ==> 0 <= i < size
    ensures forall i :: 0 <= i < |nd.check| && (i >= size || IsFree(nd, size, i)) ==>
              nd'.base[i] == nd.base[i] && nd'.check[i] == nd.check[i] && inf'.sibling[i] == inf.sibling[i]
                  && inf'.child[i] == inf.child[i]
  {
  }

  // Reusing writes only to slots in use.
  lemma ReuseAlloc(nd: Nodes, inf: Infos, nd': Nodes, inf': Infos, md: Mode, size: int, t: Tree, n: int, l: byte,
      a: int)
    requires TreeOk(nd, inf, md, size, t) && Covers(nd, size, t, a) && 0 < a < size && !IsFree(nd, size, a)
    requires Reuses(nd, inf, nd', inf', t, n, l, a) && md.Moving? && n != md.m && nd.base[n] >= 0
    ensures forall i :: IsFree(nd', size, i) <==> IsFree(nd, size, i)
    ensures forall i :: 0 <= i < |nd.check| && (i >= size || IsFree(nd, size, i)) ==>
              nd'.base[i] == nd.base[i] && nd'.check[i] == nd.check[i] && inf'.sibling[i] == inf.sibling[i]
                  && inf'.child[i] == inf.child[i]
  {
    hide Xor, TreeOk, Inverse;
    TreeFacts(nd, inf, md, size, t);
    ChainSlot(nd, inf, md, size, t, n, 0);
  }

  // ------------------------------------------------------------- the loop as a whole

  ghost predicate ViewSo(more: bool, nd: Nodes, t: Tree, nd': Nodes, t': Tree, p: Path, l: byte)
  {
    if more then OneMore(nd, t, nd', t', p, l) else SameView(nd, t, nd', t')
  }

  lemma ViewSoTrans(more: bool, nd: Nodes, t: Tree, nd1: Nodes, t1: Tree, nd2: Nodes, t2: Tree, p: Path, l: byte)
    requires ViewSo(more, nd, t, nd1, t1, p, l) && SameView(nd1, t1, nd2, t2)
    ensures ViewSo(more, nd, t, nd2, t2, p, l)
  {
    hide SameView, OneMore;
    if more { MoreThenView(nd, t, nd1, t1, nd2, t2, p, l); } else { ViewTrans(nd, t, nd1, t1, nd2, t2); }
  }

  lemma ViewSoAdds(nd: Nodes, t: Tree, nd1: Nodes, t1: Tree, nd2: Nodes, t2: Tree, p: Path, l: byte)
    requires ViewSo(false, nd, t, nd1, t1, p, l) && OneMore(nd1, t1, nd2, t2, p, l)
    ensures ViewSo(true, nd, t, nd2, t2, p, l)
  {
    hide SameView, OneMore;
    ViewThenMore(nd, t, nd1, t1, nd2, t2, p, l);
  }

  // Resolve wants child l under the node at path pn, whose slot is n. With flag the
  // mover m is n itself; otherwise m is another node, one of whose children sits at
  // slot want = bn ^ l and is reached from m by label c.
  datatype Quest = Quest(flag: bool, pn: Path, l: byte, bn: int, want: int, c: byte,
                         m: int, ob: int, nb: int, list: seq<byte>)

  ghost predicate Arrived(q: Quest, k: int)
    requires 0 <= k <= |q.list|
  {
    if q.flag then q.l in q.list[..k] else q.c in q.list[..k]
  }

  ghost predicate QuestOk(q: Quest, nd: Nodes, t: Tree, n: int, more: bool)
  {
    && 0 <= n < |nd.base| && 0 <= q.m && q.nb >= 256 && q.ob >= 256 && q.bn >= 0 && q.want == Xor(q.bn, q.l)
    && q.pn in t.at && t.at[q.pn] == n && q.m in t.kids && n in t.kids && !IsTerm(q.pn) && (q.pn == Root ==> q.l != 0)
    && (!q.flag ==> nd.base[n] == q.bn)
    && (!more ==> Snoc(q.pn, q.l) !in t.at)
    && (q.flag ==> q.m == n && q.ob == q.bn)
    && (q.flag ==> if more then t.kids[n] == q.list else q.list == InsertKid(t.kids[n], q.l) && q.l !in t.kids[n])
    && (!q.flag ==> q.m != n && t.kids[q.m] == q.list && q.c in q.list && q.want == Xor(q.ob, q.c))
    && (!q.flag ==> more || t.kids[n] != [])
  }

  ghost predicate OnTheWay(q: Quest, nd0: Nodes, t0: Tree, nd: Nodes, inf: Infos, size: int, t: Tree, n: int, k: int)
  {
    && 0 <= k <= |q.list|
    && Movement(nd, inf, size, t, q.m, q.ob, q.nb, q.list, k, k, -1)
    && QuestOk(q, nd, t, n, Arrived(q, k))
    && ViewSo(Arrived(q, k), nd0, t0, nd, t, q.pn, q.l)
  }

  lemma ArrivedStep(q: Quest, k: int)
    requires 0 <= k < |q.list|
    ensures q.list[..k + 1] == q.list[..k] + [q.list[k]]
    ensures Arrived(q, k + 1) <==> Arrived(q, k) || q.list[k] == if q.flag then q.l else q.c
    ensures Distinct(q.list) ==> q.list[k] !in q.list[..k]
  {
  }

  // The moving child is the one at the wanted slot iff its label says so.
  lemma WantedLabel(b: int, x: byte, y: byte)
    requires b >= 0
    ensures Xor(b, x) == Xor(b, y) <==> x == y
  {
    hide Xor;
    SlotXor(b, x);
    SlotXor(b, y);
  }

  // Except for the label still to come, every listed label is a child of the mover.
  lemma ListedKids(q: Quest, nd: Nodes, t: Tree, n: int, more: bool, x: byte)
    requires QuestOk(q, nd, t, n, more) && x in q.list
    requires !(q.flag && !more && x == q.l)
    ensures x in t.kids[q.m]
  {
    if q.flag && !more {
      var ks := t.kids[n];
      var j := At(q.list, x);
      if ks != [] && ks[0] == 0 { assert j == 0 ==> x == ks[0]; assert j > 1 ==> x == ks[j - 1]; }
      else { assert j > 0 ==> x == ks[j - 1]; }
    }
  }

  lemma KeepQuest(q: Quest, nd: Nodes, t: Tree, nd': Nodes, t': Tree, n: int, n': int, more: bool)
    requires QuestOk(q, nd, t, n, more) && SameView(nd, t, nd', t')
    requires q.pn in t'.at && t'.at[q.pn] == n' && 0 <= n' < |nd'.base| && nd'.base[n'] == nd.base[n]
    requires q.m in t.path && q.m in t'.path && t'.path[q.m] == t.path[q.m]
    ensures QuestOk(q, nd', t', n', more)
  {
    hide Xor, InsertKid;
    assert t.path[q.m] in t.at && t.at[t.path[q.m]] == q.m;
    assert t'.at[t'.path[q.m]] == q.m;
    assert t'.kids[q.m] == t.kids[q.m];
    assert t'.kids[n'] == t.kids[n];
    if n == q.m { assert q.pn == t.path[q.m]; }
    if n' == q.m { assert q.pn == t'.path[q.m]; }
  }

  // The new child has taken its place, at the mover ...
  lemma DoneNew(q: Quest, nd0: Nodes, t0: Tree, nd: Nodes, inf: Infos, size: int, t: Tree, n: int, k: int)
    requires q.flag && 0 <= k < |q.list| && q.list[k] == q.l && q.l !in q.list[..k]
    requires QuestOk(q, nd, t, n, false) && ViewSo(false, nd0, t0, nd, t, q.pn, q.l)
    requires Movement(nd, inf, size, t, q.m, q.ob, q.nb, q.list, k, k + 1, Xor(q.nb, q.l))
    requires Xor(q.nb, q.l) !in t.path && Xor(q.nb, q.l) < |nd.check| && nd.check[Xor(q.nb, q.l)] == q.m
    requires (q.l != 0 ==> nd.base[Xor(q.nb, q.l)] == -1) && (q.l == 0 ==> nd.base[Xor(q.nb, q.l)] == 0)
    requires inf.child[Xor(q.nb, q.l)] == 0
    ensures q.m in t.path
    ensures OnTheWay(q, nd0, t0, nd, inf, size, WithMover(t, q.m, q.list, q.l, Xor(q.nb, q.l)), n, k + 1)
  {
    hide Xor, TreeOk, OneMore, SameView, InsertKid;
    MovementFacts(nd, inf, size, t, q.m, q.ob, q.nb, q.list, k, k + 1, Xor(q.nb, q.l));
    assert t.path[n] == q.pn;
    MoverStep(nd, inf, size, t, q.m, q.ob, q.nb, q.list, k);
    var t' := WithMover(t, q.m, q.list, q.l, Xor(q.nb, q.l));
    ViewSoAdds(nd0, t0, nd, t, nd, t', q.pn, q.l);
    ArrivedStep(q, k);
  }

  // ... or at the slot a moved child left behind.
  lemma DoneReuse(q: Quest, nd0: Nodes, t0: Tree, nd: Nodes, t: Tree, nd': Nodes, inf': Infos, size: int, n: int,
      k: int)
    requires !q.flag && 0 <= k < |q.list| && q.list[k] == q.c && q.c !in q.list[..k]
    requires QuestOk(q, nd, t, n, false) && ViewSo(false, nd0, t0, nd, t, q.pn, q.l)
    requires n in t.path && t.path[n] == q.pn && q.want !in t.path
    requires OneMore(nd, t, nd', WithKid(t, n, q.l, q.want), q.pn, q.l)
    requires Movement(nd', inf', size, WithKid(t, n, q.l, q.want), q.m, q.ob, q.nb, q.list, k + 1, k + 1, -1)
    requires WithKid(t, n, q.l, q.want).kids[q.m] == t.kids[q.m] && n < |nd'.base| && nd'.base[n] == nd.base[n]
    ensures OnTheWay(q, nd0, t0, nd', inf', size, WithKid(t, n, q.l, q.want), n, k + 1)
  {
    hide Xor, TreeOk, OneMore, SameView, InsertKid;
    var t' := WithKid(t, n, q.l, q.want);
    MovementFacts(nd', inf', size, t', q.m, q.ob, q.nb, q.list, k + 1, k + 1, -1);
    ViewSoAdds(nd0, t0, nd, t, nd', t', q.pn, q.l);
    ArrivedStep(q, k);
    assert q.pn in t'.at && t'.at[q.pn] == n;
    assert n in t'.kids && q.m in t'.kids;
  }

  lemma QuestFacts(q: Quest, nd: Nodes, t: Tree, n: int, more: bool)
    requires QuestOk(q, nd, t, n, more)
    ensures 0 <= n < |nd.base| && q.nb >= 256 && q.ob >= 256 && q.bn >= 0 && q.want == Xor(q.bn, q.l)
    ensures q.pn in t.at && t.at[q.pn] == n && q.m in t.kids && n in t.kids && !IsTerm(q.pn)
    ensures (q.pn == Root ==> q.l != 0)
    ensures !more ==> Snoc(q.pn, q.l) !in t.at
    ensures q.flag ==> q.m == n && q.ob == q.bn
    ensures !q.flag ==> q.m != n && q.want == Xor(q.ob, q.c) && nd.base[n] == q.bn && (!more ==> t.kids[n] != [])
  {
  }

  lemma NotYet(q: Quest, k: int)
    requires 0 <= k < |q.list| && Distinct(q.list) && q.list[k] == (if q.flag then q.l else q.c)
    ensures !Arrived(q, k) && q.list[k] !in q.list[..k]
  {
  }

  // Carrying a child may carry the very node the new child is meant for.
  lemma FollowQuest(q: Quest, nd: Nodes, t: Tree, nd': Nodes, t': Tree, n: int, n': int, more: bool, a: int, b: int)
    requires QuestOk(q, nd, t, n, more) && SameView(nd, t, nd', t') && Inverse(t)
    requires a in t.path && a in t.kids && t' == Relabel(t, a, b) && b !in t.path && a != q.m && q.m in t.path
    requires 0 <= a < |nd.base| && 0 <= b < |nd.base| && nd'.base == nd.base[b := nd.base[a]]
    requires n' == if !q.flag && a == n then b else n
    ensures QuestOk(q, nd', t', n', more)
  {
    hide Xor, InsertKid, SameView;
    SamePaths(nd, t, nd', t', q.pn);
    assert n in t.path && t.path[n] == q.pn;
    KeepQuest(q, nd, t, nd', t', n, n', more);
  }

  lemma SamePaths(nd: Nodes, t: Tree, nd': Nodes, t': Tree, p: Path)
    requires SameView(nd, t, nd', t')
    ensures p in t.at <==> p in t'.at
    ensures Inverse(t) && Inverse(t')
  {
  }

  lemma GivenSame(nd: Nodes, inf: Infos, size: int, nd': Nodes, inf': Infos, e: int, md: Mode, t: Tree,
                  list: seq<byte>, m: int, ob: int, nb: int, k: int)
    requires Movement(nd, inf, size, t, m, ob, nb, list, k, k, e) && md == Moving(m, ob, Below(list, k))
    requires |nd.base| == |nd.check| && Given(nd, nd', size, e) && SameInfoBut(inf, inf', e) && e !in t.path
    ensures forall i :: i in t.path ==> 0 <= i < |nd'.base| == |nd.base| && nd'.base[i] == nd.base[i]
  {
    hide Xor, TreeOk, Given, KidsOk;
    MovementFacts(nd, inf, size, t, m, ob, nb, list, k, k, e);
    GivenTree(nd, inf, size, nd', inf', e, md, t);
    TreeFacts(nd', inf', md, size, t);
    TreeFacts(nd, inf, md, size, t);
    GivenLengths(nd, nd', size, e);
  }

  lemma GivenLengths(nd: Nodes, nd': Nodes, size: int, e: int)
    requires |nd.base| == |nd.check| && Given(nd, nd', size, e)
    ensures |nd'.base| == |nd'.check| == |nd.check|
  {
  }

  // --------------------------------------------------------- before and after the loop

  // The wanted slot is taken by a child of another node, and neither node is the root.
  lemma Conflict(nd: Nodes, inf: Infos, size: int, t: Tree, n: int, l: byte)
    requires TreeOk(nd, inf, Still, size, t) && Covers(nd, size, t, -1)
    requires n in t.path && n in t.kids && t.kids[n] != [] && 0 <= n < |nd.base| && nd.base[n] >= 0
    requires (n == 0 ==> l != 0)
    requires 0 < Xor(nd.base[n], l) < |nd.check| && nd.check[Xor(nd.base[n], l)] >= 0
    requires nd.check[Xor(nd.base[n], l)] != n
    ensures !IsTerm(t.path[n]) && KidsOk(t.kids[n], n) && Chained(nd, inf, n, t.kids[n]) && 256 <= nd.base[n] < size
    ensures n != 0
    ensures Snoc(t.path[n], l) !in t.at && l !in t.kids[n]
    ensures var w := Xor(nd.base[n], l); var p := nd.check[w];
            && w in t.path && p in t.path && p in t.kids && p != 0 && p != n && p < |nd.base|
            && 256 <= nd.base[p] < size
            && t.kids[p] != [] && KidsOk(t.kids[p], p) && Chained(nd, inf, p, t.kids[p])
            && t.path[w].Snoc? && t.path[w].lab in t.kids[p] && w == Xor(nd.base[p], t.path[w].lab)
  {
    hide Xor, TreeOk, Inverse, AllKids, KidsOk, Chained;
    TreeFacts(nd, inf, Still, size, t);
    NodeFacts(nd, inf, Still, size, t, n);
    var w := Xor(nd.base[n], l);
    SlotXor(nd.base[n], l);
    StepExact(nd, inf, size, t, n, l);
    assert !IsFree(nd, size, w);
    NodeFacts(nd, inf, Still, size, t, w);
    var p := nd.check[w];
    NodeFacts(nd, inf, Still, size, t, p);
    SlotXor(nd.base[p], t.path[w].lab);
    BlockZero(nd, inf, Still, size, t, w);
    if p == 0 { OnlyRootLow(nd, inf, size, t, n); }
  }

  lemma OnlyRootLow(nd: Nodes, inf: Infos, size: int, t: Tree, n: int)
    requires TreeOk(nd, inf, Still, size, t) && n in t.path && n in t.kids && t.kids[n] != [] && 0 <= n < |nd.base|
    requires n != 0
    ensures 256 <= nd.base[n]
  {
    hide Xor, TreeOk, Inverse, AllKids, KidsOk, Chained;
    TreeFacts(nd, inf, Still, size, t);
    NodeFacts(nd, inf, Still, size, t, n);
  }

  // Adding pages does not touch the tree.
  lemma GrownTree(nd: Nodes, inf: Infos, size: int, nd': Nodes, inf': Infos, size': int, t: Tree)
    requires TreeOk(nd, inf, Still, size, t) && Covers(nd, size, t, -1)
    requires Grown(nd, inf, size, nd', inf', size') && size' % 256 == 0 && size' <= |nd'.check|
    ensures TreeOk(nd', inf', Still, size', t) && Covers(nd', size', t, -1) && SameView(nd, t, nd', t)
    ensures forall i :: i in t.path ==> 0 <= i < size && i < |nd'.base| && i < |nd.base| && nd'.base[i] == nd.base[i]
    ensures forall i :: i in t.path ==> i < |inf'.child| && i < |inf.child| && inf'.child[i] == inf.child[i]
  {
    hide Xor, TreeOk;
    TreeFacts(nd, inf, Still, size, t);
    TreeFrame(nd, inf, nd', inf', Still, size, size', t);
    PlacedTree(nd, inf, Still, size, t);
    FrameView(nd, nd', t);
  }

  lemma Depart(q: Quest, nd0: Nodes, t0: Tree, nd: Nodes, inf: Infos, nd': Nodes, inf': Infos, size: int, t: Tree,
      n: int)
    requires TreeOk(nd, inf, Still, size, t) && Covers(nd, size, t, -1) && SameView(nd0, t0, nd, t)
    requires q.m in t.path && q.m in t.kids && q.m != 0 && t.kids[q.m] != [] && 256 <= q.nb < size
    requires q.list != [] && KidsOk(q.list, q.m) && 0 <= q.m < |nd.base| == |inf.child| && q.ob == nd.base[q.m]
    requires nd' == SetBase(nd, q.m, q.nb) && inf' == Infos(inf.sibling, inf.child[q.m := q.list[0]])
    requires forall j :: 0 <= j < |q.list| ==> IsFree(nd, size, Xor(q.nb, q.list[j]))
    requires n in t.path && t.path[n] == q.pn && n in t.kids && 0 <= n < |nd.base| && nd.base[n] == q.bn && q.bn >= 0
    requires q.want == Xor(q.bn, q.l) && !IsTerm(q.pn) && n != 0 && t.kids[n] != [] && Snoc(q.pn, q.l) !in t.at
    requires if q.flag then q.m == n && q.list == InsertKid(t.kids[n], q.l) && q.l !in t.kids[n]
             else q.m != n && t.kids[q.m] == q.list && q.c in q.list && q.want == Xor(q.ob, q.c)
    ensures OnTheWay(q, nd0, t0, nd', inf', size, t, n, 0)
  {
    hide Xor, TreeOk, KidsOk, InsertKid, SameView, Movement;
    Departure(nd, inf, nd', inf', size, t, q.m, q.nb, q.list);
    TreeFacts(nd, inf, Still, size, t);
    ViewTrans(nd0, t0, nd, t, nd', t);
    RootAlone(t, n);
  }

  lemma RootAlone(t: Tree, n: int)
    requires Inverse(t) && 0 in t.path && t.path[0] == Root && n in t.path && n != 0
    ensures t.path[n] != Root && t.path[n] in t.at && t.at[t.path[n]] == n
  {
  }

  lemma Landed(q: Quest, nd0: Nodes, t0: Tree, nd: Nodes, inf: Infos, size: int, t: Tree, n: int)
    requires OnTheWay(q, nd0, t0, nd, inf, size, t, n, |q.list|)
    requires q.flag ==> q.l in q.list
    ensures TreeOk(nd, inf, Still, size, t) && Covers(nd, size, t, -1) && OneMore(nd0, t0, nd, t, q.pn, q.l)
    ensures n in t.path && t.path[n] == q.pn && Snoc(q.pn, q.l) in t.at
    ensures var to := if q.flag then Xor(q.nb, q.l) else q.want; to in t.path && t.path[to] == Snoc(q.pn, q.l)
  {
    hide Xor, TreeOk, Movement;
    assert q.list[..|q.list|] == q.list;
    assert Arrived(q, |q.list|);
    Arrival(nd, inf, size, t, q.m, q.ob, q.nb, q.list);
    MoverBase(nd, inf, size, t, q.m, q.ob, q.nb, q.list);
    TreeFacts(nd, inf, Still, size, t);
    KidsIffLow(nd, inf, size, t, n);
    StepExact(nd, inf, size, t, n, q.l);
  }

  lemma MoverBase(nd: Nodes, inf: Infos, size: int, t: Tree, m: int, ob: int, nb: int, list: seq<byte>)
    requires Movement(nd, inf, size, t, m, ob, nb, list, |list|, |list|, -1)
    ensures 0 <= m < |nd.base| && nd.base[m] == nb
  {
  }

  lemma KidsIffLow(nd: Nodes, inf: Infos, size: int, t: Tree, n: int)
    requires TreeOk(nd, inf, Still, size, t) && n in t.path
    ensures 0 <= n < |nd.base| && n in t.kids && (t.kids[n] != [] ==> n == 0 || 256 <= nd.base[n] < size)
  {
    hide Xor, Inverse, AllKids, KidsOk, Chained, LinkedUp;
    NodeFacts(nd, inf, Still, size, t, n);
  }

  lemma HeadZero(ks: seq<byte>, l: byte)
    requires ks != [] && l !in ks
    ensures l == 0 ==> ks[0] != 0
  {
  }

  lemma MoverUsed(nd: Nodes, size: int, t: Tree, m: int)
    requires Covers(nd, size, t, -1) && m in t.path && 0 <= m < size
    ensures !IsFree(nd, size, m)
  {
  }

  // The first label listed is the mover's first child, unless it is the new label.
  lemma FirstChild(flag: bool, kn: seq<byte>, kp: seq<byte>, l: byte, list: seq<byte>)
    requires kn != [] && kp != [] && l !in kn && list == if flag then InsertKid(kn, l) else kp
    ensures list != [] && (if flag then l in list && (list[0] == l || list[0] == kn[0]) else list[0] == kp[0])
  {
    if flag { assert list[0] == l || list[1] == l; }
  }
}
