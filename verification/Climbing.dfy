// Erasing a key climbs from its value slot towards the root, as long as the node
// above has no other child.
module Climbing {
  import opened Bits
  import opened Rings
  import opened Slots
  import opened FreeSlots
  import opened Alloc
  import opened Shape
  import opened Erasings
  import opened Views
  import opened Keys

  // q is p or lies below it.
  predicate Under(p: Path, q: Path)
  {
    q == p || (q.Snoc? && Under(p, q.up))
  }

  // The label that leads from the root to the keys starting with k's first byte.
  function FirstLabel(k: Key): byte
    requires k != []
  {
    if k[0] == 0 then PERCENT else k[0]
  }

  // Nothing but the way to key lies under its first label.
  ghost predicate Sole(t: Tree, key: Key)
    requires key != []
  {
    forall q :: q in t.at && Under(Snoc(Root, FirstLabel(key)), q) ==> Under(q, KeyPath(key))
  }

  lemma {:induction false} UnderTrans(p: Path, q: Path, r: Path)
    requires Under(p, q) && Under(q, r)
    ensures Under(p, r)
    decreases r
  {
    if r != q { UnderTrans(p, q, r.up); }
  }

  lemma {:induction false} UnderStep(p: Path, ks: Key)
    ensures Under(p, Extend(p, ks))
  {
    if ks != [] {
      UnderStep(p, ks[..|ks| - 1]);
      var q := Extend(p, ks[..|ks| - 1]);
      assert Under(q, Step(q, ks[|ks| - 1])) by { assert Under(q, Snoc(q, PERCENT)); }
      UnderTrans(p, q, Step(q, ks[|ks| - 1]));
    }
  }

  lemma FirstLabelUnder(k: Key)
    requires k != []
    ensures Under(Snoc(Root, FirstLabel(k)), KeyPath(k))
  {
    var k0 := k[..1];
    ExtendEncode(k0, k[1..]);
    assert k0 + k[1..] == k;
    UnderStep(Encode(k0), k[1..]);
    assert Encode(k0) == Step(Root, k[0]) by { assert k0[..0] == []; EncodeEmpty(); }
    assert Under(Snoc(Root, FirstLabel(k)), Encode(k0));
    UnderTrans(Snoc(Root, FirstLabel(k)), Encode(k0), Encode(k));
  }

  lemma {:induction false} UnderRootChild(l: byte, q: Path)
    requires Under(Snoc(Root, l), q)
    ensures q != Root && forall m :: Under(Snoc(Root, m), q) ==> m == l
    decreases q
  {
    if q != Snoc(Root, l) { UnderRootChild(l, q.up); }
  }

  function Depth(p: Path): nat { if p.Root? then 0 else 1 + Depth(p.up) }

  lemma {:induction false} UnderDepth(p: Path, q: Path)
    ensures Under(p, q) ==> Depth(p) <= Depth(q)
    decreases q
  {
    if q.Snoc? && q != p { UnderDepth(p, q.up); }
  }

  // Two children of one node lie on no common way down.
  lemma {:induction false} UnderApart(p: Path, x: byte, y: byte, r: Path)
    requires Under(Snoc(p, x), r) && Under(Snoc(p, y), r)
    ensures x == y
    decreases r
  {
    if r == Snoc(p, x) {
      if r != Snoc(p, y) { UnderDepth(Snoc(p, y), p); }
    } else if r == Snoc(p, y) {
      UnderDepth(Snoc(p, x), p);
    } else {
      UnderApart(p, x, y, r.up);
    }
  }

  // ------------------------------------------------------------------ one turn

  lemma LeaveContents(nd: Nodes, t: Tree, nd': Nodes, e: int, n: int, ks: seq<byte>, key: Key)
    requires Placed(nd, t) && e in t.path && Inverse(WithoutNode(t, e, n, ks)) && n in t.path && n != e
    requires forall i :: i in t.path && i != e ==> 0 <= i < |nd'.base| && nd'.base[i] == nd.base[i]
    requires IsTerm(t.path[e]) ==> t.path[e] == KeyPath(key)
    ensures Placed(nd', WithoutNode(t, e, n, ks))
    ensures ContentsOf(nd', WithoutNode(t, e, n, ks)) == if IsTerm(t.path[e]) then ContentsOf(nd, t) - {key}
              else ContentsOf(nd, t)
  {
    hide Encode, Read, KeySet, ContentsOf;
    var t' := WithoutNode(t, e, n, ks);
    var c, c' := ContentsOf(nd, t), ContentsOf(nd', t');
    forall k: Key
      ensures k in c' <==> k in c && !(IsTerm(t.path[e]) && k == key)
      ensures k in c' ==> c'[k] == c[k]
    {
      ContentsAt(nd, t, k);
      ContentsAt(nd', t', k);
      if IsTerm(t.path[e]) && Encode(k) == Encode(key) { EncodeInjective(k, key); }
    }
  }

  lemma LeaveBushy(t: Tree, e: int, n: int, ks: seq<byte>)
    requires Inverse(t) && e in t.path && n in t.path && n != e && Bushy(t, t.path[e])
    ensures ks != [] || t.path[n] == Root ==> Bushy(WithoutNode(t, e, n, ks), Root)
    ensures Bushy(WithoutNode(t, e, n, ks), t.path[n])
  {
    var t' := WithoutNode(t, e, n, ks);
    forall i | i in t'.path && t'.kids[i] == []
      ensures IsTerm(t'.path[i]) || t'.path[i] == Root || (i == n && ks == [])
    {
      assert t.at[t.path[i]] == i;
    }
  }

  lemma LeavePaths(t: Tree, e: int, n: int, ks: seq<byte>)
    requires PathsOk(t) && e in t.path && n in t.path
    ensures PathsOk(WithoutNode(t, e, n, ks))
  {
    hide Readable;
  }

  // What the climb has removed so far lies between e and the key's value slot.
  ghost predicate Cleared(t0: Tree, t: Tree, p: Path, key: Key)
  {
    && (forall q :: q in t.at ==> q in t0.at)
    && (forall q :: q in t0.at && q !in t.at ==> Under(p, q) && Under(q, KeyPath(key)))
    && Under(p, KeyPath(key))
  }

  lemma ClearedNext(t0: Tree, t: Tree, e: int, n: int, ks: seq<byte>, key: Key)
    requires e in t.path && n in t.path && t.path[e].Snoc? && t.path[e].up == t.path[n]
    requires Cleared(t0, t, t.path[e], key)
    ensures Cleared(t0, WithoutNode(t, e, n, ks), t.path[n], key)
  {
    var t' := WithoutNode(t, e, n, ks);
    UnderTrans(t.path[n], t.path[e], KeyPath(key));
    forall q | q in t0.at && q !in t'.at ensures Under(t.path[n], q) && Under(q, KeyPath(key))
    {
      if q != t.path[e] { UnderTrans(t.path[n], t.path[e], q); }
    }
  }

  // Nothing lies below a node without children.
  lemma {:induction false} NothingBelow(nd: Nodes, inf: Infos, md: Mode, size: int, t: Tree, e: int, q: Path)
    requires TreeOk(nd, inf, md, size, t) && e in t.path && e in t.kids && t.kids[e] == []
    requires q in t.at && Under(t.path[e], q)
    ensures q == t.path[e]
    decreases q
  {
    hide Xor, TreeOk, Family;
    TreeFacts(nd, inf, md, size, t);
    if q != t.path[e] {
      var i := t.at[q];
      NodeFacts(nd, inf, md, size, t, i);
      TreeUpClosed(nd, inf, md, size, t);
      NothingBelow(nd, inf, md, size, t, e, q.up);
    }
  }

  // The climb reached a child of the root exactly when the key had its first label to itself.
  lemma ClimbedAll(nd: Nodes, inf: Infos, md: Mode, size: int, t0: Tree, t: Tree, e: int, key: Key)
    requires key != [] && TreeOk(nd, inf, md, size, t) && e in t.path && e in t.kids && t.kids[e] == []
    requires t.path[e].Snoc? && t.path[e].up == Root && Cleared(t0, t, t.path[e], key)
    ensures Sole(t0, key)
  {
    FirstLabelUnder(key);
    UnderRootChild(t.path[e].lab, KeyPath(key));
    assert t.path[e].lab == FirstLabel(key);
    forall q | q in t0.at && Under(Snoc(Root, FirstLabel(key)), q) ensures Under(q, KeyPath(key))
    {
      if q in t.at { NothingBelow(nd, inf, md, size, t, e, q); }
    }
  }

  lemma ClimbedPart(t0: Tree, t: Tree, p: Path, l: byte, x: byte, key: Key)
    requires key != [] && Cleared(t0, t, Snoc(p, l), key) && p != Root && Snoc(p, x) in t.at && x != l
    ensures !Sole(t0, key)
  {
    FirstLabelUnder(key);
    var f := Snoc(Root, FirstLabel(key));
    UnderTrans(p, Snoc(p, l), KeyPath(key));
    Comparable(f, p, KeyPath(key));
    UnderDepth(p, f);
    RootDepth(p);
    assert Under(f, Snoc(p, x));
    if Under(Snoc(p, x), KeyPath(key)) { UnderApart(p, x, l, KeyPath(key)); }
  }

  lemma RootDepth(p: Path)
    ensures p == Root <==> Depth(p) == 0
  {
  }

  lemma {:induction false} Comparable(p: Path, q: Path, r: Path)
    requires Under(p, r) && Under(q, r)
    ensures Under(p, q) || Under(q, p)
    decreases r
  {
    if r != p && r != q { Comparable(p, q, r.up); }
  }

  // The state of the climb: e is about to go, everything else is in order.
  ghost predicate ClimbOk(nd: Nodes, inf: Infos, md: Mode, size: int, t0: Tree, t: Tree, e: int, key: Key)
  {
    && TreeOk(nd, inf, md, size, t) && Covers(nd, size, t, -1) && (md == Still || md == Erasing(e))
    && e in t.path && e != 0 && e in t.kids && t.kids[e] == []
    && Bushy(t, t.path[e]) && PathsOk(t) && Cleared(t0, t, t.path[e], key)
    && key != [] && (IsTerm(t.path[e]) ==> t.path[e] == KeyPath(key))
  }

  lemma ClimbFacts(nd: Nodes, inf: Infos, md: Mode, size: int, t0: Tree, t: Tree, e: int, key: Key)
    requires ClimbOk(nd, inf, md, size, t0, t, e, key)
    ensures |nd.base| == |nd.check| == |inf.sibling| == |inf.child| >= size > 0 && 0 < e < size && !IsFree(nd, size, e)
    ensures Inverse(t) && Placed(nd, t) && forall i :: i in t.path ==> 0 <= i < size
    ensures t.path[e].Snoc?
    ensures var n := nd.check[e];
            && n in t.path && n in t.kids && n != e && t.path[e].up == t.path[n] && t.path[e].lab in t.kids[n]
            && Leaves(nd, inf, md, size, t, e, n, At(t.kids[n], t.path[e].lab)) && key != []
            && Chained(nd, inf, n, t.kids[n]) && KidsOk(t.kids[n], n) && nd.base[n] >= 0 && !IsTerm(t.path[n])
            && Xor(nd.base[n], t.path[e].lab) == e && Xor(nd.base[n], e) == t.path[e].lab
            && (e < 256 <==> n == 0) && (n == 0 <==> t.path[n] == Root) && (n == 0 ==> |t.kids[n]| >= 2)
  {
    hide Xor, TreeOk, AllKids, Chained;
    TreeFacts(nd, inf, md, size, t);
    NodeFacts(nd, inf, md, size, t, e);
    var n := nd.check[e];
    NodeFacts(nd, inf, md, size, t, n);
    assert t.at[t.path[n]] == n && t.at[Root] == 0;
    LeaveFacts(nd, inf, md, size, t, e, n, At(t.kids[n], t.path[e].lab), []);
    BlockZero(nd, inf, md, size, t, e);
    SlotXor(nd.base[n], t.path[e].lab);
    TwoKids(t.kids[n], t.path[e].lab);
  }

  lemma TwoKids(ks: seq<byte>, l: byte)
    requires l in ks
    ensures ks[0] != l ==> |ks| >= 2
  {
  }

  // After the pop of e from n's chain, or after e left n childless.
  lemma ClimbKept(nd: Nodes, inf: Infos, md: Mode, size: int, t0: Tree, t: Tree, e: int, key: Key)
    requires ClimbOk(nd, inf, md, size, t0, t, e, key)
    requires nd.check[e] in t.kids && |t.kids[nd.check[e]]| >= 2
    ensures var n := nd.check[e]; var j := At(t.kids[n], t.path[e].lab);
            && n < |nd.base| && nd.base[n] >= 0
            && (forall i :: 0 <= i < |t.kids[n]| ==> Xor(nd.base[n], t.kids[n][i]) < |inf.sibling|)
            && TreeOk(nd, SiblingPopped(nd, inf, n, t.kids[n], j), Still, size,
                 WithoutNode(t, e, n, Without(t.kids[n], j)))
            && Covers(nd, size, WithoutNode(t, e, n, Without(t.kids[n], j)), e)
            && Bushy(WithoutNode(t, e, n, Without(t.kids[n], j)), Root)
            && PathsOk(WithoutNode(t, e, n, Without(t.kids[n], j)))
            && (n == 0 ==> Sole(t0, key)) && (n != 0 ==> !Sole(t0, key))
  {
    hide Xor, TreeOk, Chained, SiblingPopped, Bushy, PathsOk, Sole;
    ClimbFacts(nd, inf, md, size, t0, t, e, key);
    var n := nd.check[e];
    var ks := t.kids[n];
    var l := t.path[e].lab;
    var j := At(ks, l);
    PopKid(nd, inf, md, size, t, e, n, j);
    LeaveBushy(t, e, n, Without(ks, j));
    LeavePaths(t, e, n, Without(ks, j));
    if n == 0 {
      ClimbedAll(nd, inf, md, size, t0, t, e, key);
    } else {
      var x := if j == 0 then ks[1] else ks[0];
      assert x in ks && x != l;
      NodeFacts(nd, inf, md, size, t, n);
      KidPresent(nd, md, t, n, x);
      assert Snoc(t.path[n], x) in t.at;
      ClimbedPart(t0, t, t.path[n], l, x, key);
    }
  }

  lemma ClimbOn(nd: Nodes, inf: Infos, md: Mode, size: int, t0: Tree, t: Tree, e: int, key: Key)
    requires ClimbOk(nd, inf, md, size, t0, t, e, key)
    requires nd.check[e] in t.kids && |t.kids[nd.check[e]]| < 2
    ensures var n := nd.check[e]; var t' := WithoutNode(t, e, n, []);
            && n != 0 && n in t'.path && n in t'.kids && t'.kids[n] == []
            && TreeOk(nd, inf, Erasing(n), size, t') && Covers(nd, size, t', e)
            && Bushy(t', t'.path[n]) && PathsOk(t') && Cleared(t0, t', t'.path[n], key) && !IsTerm(t'.path[n])
            && t'.path[n] == t.path[e].up
  {
    hide Xor, TreeOk, Chained, Bushy, PathsOk, Cleared;
    ClimbFacts(nd, inf, md, size, t0, t, e, key);
    var n := nd.check[e];
    DropOnly(nd, inf, md, size, t, e, n, At(t.kids[n], t.path[e].lab));
    LeaveBushy(t, e, n, []);
    LeavePaths(t, e, n, []);
    ClearedNext(t0, t, e, n, [], key);
  }

  lemma SecondKid(nd: Nodes, inf: Infos, n: int, ks: seq<byte>)
    requires Chained(nd, inf, n, ks) && KidsOk(ks, n)
    ensures nd.base[n] >= 0 && Xor(nd.base[n], ks[0]) < |inf.sibling|
    ensures inf.sibling[Xor(nd.base[n], ks[0])] != 0 <==> |ks| >= 2
    ensures Distinct(ks)
  {
  }

  lemma ClimbBase(nd: Nodes, inf: Infos, md: Mode, size: int, t0: Tree, t: Tree, e: int, key: Key)
    requires ClimbOk(nd, inf, md, size, t0, t, e, key)
    ensures TreeOk(nd, inf, md, size, t) && Covers(nd, size, t, -1)
  {
  }

  // Popping from a chain writes only to slots in use.
  lemma PopAlloc(nd: Nodes, inf: Infos, md: Mode, size: int, t0: Tree, t: Tree, e: int, key: Key, inf': Infos)
    requires ClimbOk(nd, inf, md, size, t0, t, e, key)
    requires 0 <= e < |nd.check| && nd.check[e] in t.kids && t.path[e].Snoc? && t.path[e].lab in t.kids[nd.check[e]]
    requires var n := nd.check[e];
             && 0 <= n < |nd.base| == |inf.sibling| == |inf.child| && nd.base[n] >= 0
             && (forall i :: 0 <= i < |t.kids[n]| ==> Xor(nd.base[n], t.kids[n][i]) < |inf.sibling|)
             && inf' == SiblingPopped(nd, inf, n, t.kids[n], At(t.kids[n], t.path[e].lab))
    ensures |inf'.sibling| == |inf'.child| == |inf.child|
    ensures forall i :: 0 <= i < |nd.check| && (i >= size || IsFree(nd, size, i)) ==>
              inf'.sibling[i] == inf.sibling[i] && inf'.child[i] == inf.child[i]
  {
    hide Xor, TreeOk, Bushy, PathsOk, Cleared;
    TreeFacts(nd, inf, md, size, t);
    ClimbFacts(nd, inf, md, size, t0, t, e, key);
    var n := nd.check[e];
    var j := At(t.kids[n], t.path[e].lab);
    if j > 0 { ChainSlot(nd, inf, md, size, t, n, j - 1); }
  }

  lemma ClimbGone(nd: Nodes, inf: Infos, md: Mode, size: int, t0: Tree, t: Tree, e: int, key: Key, nd': Nodes,
      ks: seq<byte>)
    requires ClimbOk(nd, inf, md, size, t0, t, e, key) && 0 <= e < |nd.check| && nd.check[e] in t.path
    requires Inverse(WithoutNode(t, e, nd.check[e], ks))
    requires forall i :: i in t.path && i != e ==> 0 <= i < |nd'.base| && i < |nd.base| && nd'.base[i] == nd.base[i]
    ensures Placed(nd, t) && Placed(nd', WithoutNode(t, e, nd.check[e], ks))
    ensures ContentsOf(nd', WithoutNode(t, e, nd.check[e], ks)) == if IsTerm(t.path[e]) then ContentsOf(nd, t) - {key}
              else ContentsOf(nd, t)
  {
    hide Xor, TreeOk, Bushy, PathsOk, Cleared, ContentsOf;
    ClimbFacts(nd, inf, md, size, t0, t, e, key);
    LeaveContents(nd, t, nd', e, nd.check[e], ks, key);
  }

  lemma ClimbAgain(nd: Nodes, inf: Infos, size: int, t0: Tree, t: Tree, n: int, key: Key)
    requires TreeOk(nd, inf, Erasing(n), size, t) && Covers(nd, size, t, -1) && n in t.path && n in t.kids
    requires t.kids[n] == [] && n != 0
    requires Bushy(t, t.path[n]) && PathsOk(t) && Cleared(t0, t, t.path[n], key) && key != [] && !IsTerm(t.path[n])
    ensures ClimbOk(nd, inf, Erasing(n), size, t0, t, n, key)
  {
  }

  // --------------------------------------------------- the same in terms of the map

  // erase reports -1 and does nothing for absent keys and for the two reserved values.
  predicate Erasable(c: map<Key, int>, key: Key)
  {
    key in c && c[key] != -1 && c[key] != -2
  }

  function ErasedValue(c: map<Key, int>, key: Key): int
  {
    if Erasable(c, key) then c[key] else -1
  }

  function AfterErase(c: map<Key, int>, key: Key): map<Key, int>
  {
    if Erasable(c, key) then c - {key} else c
  }

  // Some key starts with label l.
  ghost predicate Starts(c: map<Key, int>, l: byte)
  {
    exists k :: k in c && k != [] && FirstLabel(k) == l
  }

  // Every possible first label is in use, and key is the only one with its own.
  ghost predicate Breaks(c: map<Key, int>, key: Key)
  {
    && key != []
    && (forall l: byte :: l != 0 ==> Starts(c, l))
    && (forall k :: k in c && k != [] && FirstLabel(k) == FirstLabel(key) ==> k == key)
  }

  // An erase that goes ahead and breaks the trie.
  ghost predicate Harms(c: map<Key, int>, key: Key)
  {
    Erasable(c, key) && Breaks(c, key)
  }

  ghost function MaxDepth(ps: set<Path>): (d: nat)
    ensures forall p :: p in ps ==> Depth(p) <= d
  {
    if ps == {} then 0 else
    var p :| p in ps;
    var d := MaxDepth(ps - {p});
    if Depth(p) > d then Depth(p) else d
  }

  // Below every node there is a key.
  lemma {:induction false} KeyBelow(nd: Nodes, inf: Infos, size: int, t: Tree, p: Path) returns (k: Key)
    requires TreeOk(nd, inf, Still, size, t) && Bushy(t, Root) && PathsOk(t) && p in t.at && p != Root
    ensures k != [] && KeyPath(k) in t.at && Under(p, KeyPath(k))
    decreases MaxDepth(t.at.Keys) - Depth(p)
  {
    hide TreeOk, Xor, Encode, Read, AllKids, KidsOk, ChainOk, LinkedUp;
    TreeFacts(nd, inf, Still, size, t);
    assert p in t.at.Keys;
    if IsTerm(p) {
      TerminalKey(p);
      k := Read(p.up).key;
    } else {
      var i := t.at[p];
      NodeFacts(nd, inf, Still, size, t, i);
      var l := t.kids[i][0];
      assert i != 0;
      KidPresent(nd, Still, t, i, l);
      assert Snoc(p, l) in t.at;
      k := KeyBelow(nd, inf, size, t, Snoc(p, l));
      assert Under(p, Snoc(p, l));
      UnderTrans(p, Snoc(p, l), KeyPath(k));
    }
  }

  lemma {:induction false} UnderPresent(t: Tree, p: Path, q: Path)
    requires UpClosed(t) && q in t.at && Under(p, q)
    ensures p in t.at
    decreases q
  {
    if q != p { UnderPresent(t, p, q.up); }
  }

  // A first label is in use by some key iff the root has that child.
  lemma FullLabels(nd: Nodes, inf: Infos, size: int, t: Tree)
    requires TreeOk(nd, inf, Still, size, t) && Bushy(t, Root) && PathsOk(t) && Placed(nd, t)
    ensures forall l: byte :: l != 0 ==> (Snoc(Root, l) in t.at <==> Starts(ContentsOf(nd, t), l))
  {
    hide TreeOk, Xor, Encode, Read, ContentsOf;
    TreeUpClosed(nd, inf, Still, size, t);
    forall l: byte | l != 0
      ensures Snoc(Root, l) in t.at <==> Starts(ContentsOf(nd, t), l)
    {
      if Snoc(Root, l) in t.at {
        var k := KeyBelow(nd, inf, size, t, Snoc(Root, l));
        ContentsAt(nd, t, k);
        FirstLabelUnder(k);
        UnderRootChild(l, KeyPath(k));
      }
      if k :| k in ContentsOf(nd, t) && k != [] && FirstLabel(k) == l {
        ContentsAt(nd, t, k);
        FirstLabelUnder(k);
        UnderPresent(t, Snoc(Root, l), KeyPath(k));
      }
    }
  }

  lemma SoleIff(nd: Nodes, inf: Infos, size: int, t: Tree, key: Key)
    requires TreeOk(nd, inf, Still, size, t) && Bushy(t, Root) && PathsOk(t) && Placed(nd, t) && key != []
    requires key in ContentsOf(nd, t)
    ensures Sole(t, key) <==> forall k :: k in ContentsOf(nd, t) && k != [] && FirstLabel(k) == FirstLabel(key) ==>
              k == key
  {
    hide TreeOk, Xor, Encode, Read, ContentsOf;
    var c := ContentsOf(nd, t);
    ContentsAt(nd, t, key);
    if Sole(t, key) {
      forall k | k in c && k != [] && FirstLabel(k) == FirstLabel(key) ensures k == key
      {
        ContentsAt(nd, t, k);
        FirstLabelUnder(k);
        TerminalUnder(k, key);
      }
    }
    if forall k :: k in c && k != [] && FirstLabel(k) == FirstLabel(key) ==> k == key {
      forall q | q in t.at && Under(Snoc(Root, FirstLabel(key)), q) ensures Under(q, KeyPath(key))
      {
        UnderRootChild(FirstLabel(key), q);
        var k := KeyBelow(nd, inf, size, t, q);
        ContentsAt(nd, t, k);
        FirstLabelUnder(k);
        UnderTrans(Snoc(Root, FirstLabel(key)), q, KeyPath(k));
        UnderRootChild(FirstLabel(key), KeyPath(k));
        assert FirstLabel(k) == FirstLabel(key);
      }
    }
  }

  // One value slot is never on the way to another.
  lemma TerminalUnder(k: Key, key: Key)
    requires Under(KeyPath(k), KeyPath(key))
    ensures k == key
  {
    hide Encode, Read;
    if KeyPath(k) != KeyPath(key) {
      ReadEncode(key);
      NoTermAbove(KeyPath(k), Encode(key));
    }
    EncodeInjective(k, key);
  }

  lemma {:induction false} NoTermAbove(p: Path, q: Path)
    requires !Read(q).Garbled? && IsTerm(p)
    ensures !Under(p, q)
    decreases q
  {
    if q.Snoc? { NoTermAbove(p, q.up); }
  }

  lemma RootSlot(nd: Nodes, inf: Infos, size: int, t: Tree, l: byte)
    requires TreeOk(nd, inf, Still, size, t) && Covers(nd, size, t, -1) && l != 0
    ensures Snoc(Root, l) in t.at <==> !IsFree(nd, size, l)
  {
    hide TreeOk, Xor;
    TreeFacts(nd, inf, Still, size, t);
    StepExact(nd, inf, size, t, 0, l);
    XorZero(l);
    if !IsFree(nd, size, l) { BlockZero(nd, inf, Still, size, t, l); }
  }

  // ------------------------------------------------------------------ counting keys

  // The keys whose value slot lies below i.
  ghost function KeysBelow(t: Tree, i: int): set<Key>
  {
    set k | k in KeySet(t) && KeyPath(k) in t.at && t.at[KeyPath(k)] < i
  }

  lemma KeysBelowNone(t: Tree)
    requires Inverse(t) && forall i :: i in t.path ==> 0 <= i
    ensures KeysBelow(t, 0) == {}
  {
  }

  lemma KeysBelowNext(t: Tree, i: int)
    requires Inverse(t) && PathsOk(t)
    ensures if i in t.path && IsTerm(t.path[i])
            then |KeysBelow(t, i + 1)| == |KeysBelow(t, i)| + 1
            else KeysBelow(t, i + 1) == KeysBelow(t, i)
  {
    hide Encode, Read, KeySet;
    if i in t.path && IsTerm(t.path[i]) {
      TerminalKey(t.path[i]);
      var k := Read(t.path[i].up).key;
      InKeySet(t, k);
      forall j | j in KeysBelow(t, i + 1) ensures j in KeysBelow(t, i) || j == k
      {
        if t.at[KeyPath(j)] == i { EncodeInjective(j, k); }
      }
      assert KeysBelow(t, i + 1) == KeysBelow(t, i) + {k};
    } else {
      forall j | j in KeysBelow(t, i + 1) ensures j in KeysBelow(t, i)
      {
        assert t.path[t.at[KeyPath(j)]] == KeyPath(j);
      }
    }
  }

  lemma KeysBelowAll(nd: Nodes, inf: Infos, size: int, t: Tree)
    requires TreeOk(nd, inf, Still, size, t) && Placed(nd, t)
    ensures |KeysBelow(t, size)| == |ContentsOf(nd, t)|
  {
    hide Encode, Read, TreeOk;
    TreeFacts(nd, inf, Still, size, t);
    var c := ContentsOf(nd, t);
    forall k ensures k in KeysBelow(t, size) <==> k in c.Keys
    {
      InKeySet(t, k);
      ContentsAt(nd, t, k);
    }
    assert KeysBelow(t, size) == c.Keys;
  }

  // The test of num_keys: a slot equal to its parent's base is a value slot.
  lemma KeySlot(nd: Nodes, inf: Infos, size: int, t: Tree, i: int)
    requires TreeOk(nd, inf, Still, size, t) && Covers(nd, size, t, -1) && 0 <= i < size
    ensures i < |nd.check| && nd.check[i] < |nd.base|
    ensures nd.check[i] >= 0 && nd.base[nd.check[i]] == i <==> i in t.path && IsTerm(t.path[i])
  {
    hide Xor, TreeOk;
    TreeFacts(nd, inf, Still, size, t);
    if i != 0 && i in t.path {
      NodeFacts(nd, inf, Still, size, t, i);
      SlotXor(nd.base[nd.check[i]], t.path[i].lab);
      XorZero(nd.base[nd.check[i]]);
      XorSelf(nd.base[nd.check[i]]);
    }
  }
}
