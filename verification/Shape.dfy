// The tree that the double array encodes: which slot stands for which label
// path, how each node's children are chained, and how the tree survives while a
// family of siblings is being moved or a branch is being taken down.
module Shape {
  import opened Bits
  import opened Rings
  import opened Slots

  // The labels on the way down from the root.
  datatype Path = Root | Snoc(up: Path, lab: byte)

  // A path is terminal when it ends with the label 0; its slot holds a value.
  predicate IsTerm(p: Path) { p.Snoc? && p.lab == 0 }

  // path and at are inverse: which slot holds which path. kids lists the labels
  // under a slot in chain order.
  datatype Tree = Tree(path: map<int, Path>, at: map<Path, int>, kids: map<int, seq<byte>>)

  // Still: between operations. Moving: the children of m are on their way from
  // base ob to m's new base, those in done have arrived. Erasing: x has lost its
  // last child and is about to go.
  datatype Mode = Still | Moving(m: int, ob: int, done: set<byte>) | Erasing(x: int)

  ghost function BaseFor(nd: Nodes, md: Mode, n: int, l: byte): int
    requires 0 <= n < |nd.base|
  {
    if md.Moving? && n == md.m && l !in md.done then md.ob else nd.base[n]
  }

  // The slot of the child of n under label l.
  ghost function SlotFor(nd: Nodes, md: Mode, n: int, l: byte): int
    requires 0 <= n < |nd.base|
  {
    var b := BaseFor(nd, md, n, l);
    if b < 0 then -1 else Xor(b, l)
  }

  ghost predicate LinkedUp(nd: Nodes, md: Mode, t: Tree, i: int)
  {
    && 0 <= i < |nd.check| == |nd.base| && i in t.path && t.path[i].Snoc?
    && var q := nd.check[i];
       && 0 <= q < |nd.base| && q in t.path && q in t.kids
       && t.path[q] == t.path[i].up
       && t.path[i].lab in t.kids[q]
       && i == SlotFor(nd, md, q, t.path[i].lab)
  }

  ghost predicate HasKid(nd: Nodes, md: Mode, t: Tree, n: int, l: byte)
  {
    && 0 <= n < |nd.base| == |nd.check| && n in t.path
    && var s := SlotFor(nd, md, n, l);
       && 0 < s < |nd.check| && s in t.path
       && nd.check[s] == n && t.path[s] == Snoc(t.path[n], l)
  }

  // Label 0, if present, comes first; the root's chain starts with label 0, which
  // stands for the root's own slot.
  ghost predicate KidsOk(ks: seq<byte>, n: int)
  {
    && Distinct(ks)
    && (forall j :: 0 < j < |ks| ==> ks[j] != 0)
    && (n == 0 ==> ks != [] && ks[0] == 0)
  }

  function NextLabel(ks: seq<byte>, j: int): byte
    requires 0 <= j < |ks|
  {
    if j + 1 < |ks| then ks[j + 1] else 0
  }

  // The child/sibling bytes spell out ks.
  ghost predicate Chained(nd: Nodes, inf: Infos, n: int, ks: seq<byte>)
  {
    && 0 <= n < |nd.base| == |inf.child| == |inf.sibling| && nd.base[n] >= 0
    && ks != [] && inf.child[n] == ks[0]
    && forall j :: 0 <= j < |ks| ==>
         Xor(nd.base[n], ks[j]) < |inf.sibling| && inf.sibling[Xor(nd.base[n], ks[j])] == NextLabel(ks, j)
  }

  ghost predicate AllKids(nd: Nodes, md: Mode, t: Tree, n: int)
    requires n in t.kids
  {
    forall j :: 0 <= j < |t.kids[n]| && (n != 0 || t.kids[n][j] != 0) ==> HasKid(nd, md, t, n, t.kids[n][j])
  }

  ghost predicate ChainOk(nd: Nodes, inf: Infos, md: Mode, n: int, ks: seq<byte>)
  {
    ks != [] && !(md.Moving? && n == md.m) ==> Chained(nd, inf, n, ks)
  }

  ghost predicate ContentOk(nd: Nodes, inf: Infos, md: Mode, size: int, p: Path, n: int, ks: seq<byte>)
    requires 0 <= n < |nd.base| == |inf.child|
  {
    if ks != [] then !IsTerm(p) && (n != 0 ==> 256 <= nd.base[n] < size)
    else (md.Erasing? && n == md.x) || (inf.child[n] == 0 && (IsTerm(p) || nd.base[n] == -1))
  }

  ghost predicate Family(nd: Nodes, inf: Infos, md: Mode, size: int, t: Tree, n: int)
  {
    && 0 <= n < |nd.base| == |inf.child| && n in t.path && n in t.kids
    && KidsOk(t.kids[n], n)
    && AllKids(nd, md, t, n)
    && ContentOk(nd, inf, md, size, t.path[n], n, t.kids[n])
    && ChainOk(nd, inf, md, n, t.kids[n])
  }

  ghost predicate Inverse(t: Tree)
  {
    && t.kids.Keys == t.path.Keys
    && (forall i :: i in t.path ==> t.path[i] in t.at && t.at[t.path[i]] == i)
    && (forall p :: p in t.at ==> t.at[p] in t.path && t.path[t.at[p]] == p)
  }

  ghost predicate ModeOk(md: Mode, size: int, t: Tree)
  {
    match md
    case Still => true
    case Moving(m, ob, done) => m in t.path && m != 0 && 256 <= ob < size
    case Erasing(x) => x in t.path && x != 0 && x in t.kids && t.kids[x] == []
  }

  ghost predicate TreeOk(nd: Nodes, inf: Infos, md: Mode, size: int, t: Tree)
  {
    && |nd.base| == |nd.check| == |inf.sibling| == |inf.child| >= size > 0 && size % 256 == 0
    && Inverse(t) && ModeOk(md, size, t)
    && 0 in t.path && t.path[0] == Root && nd.base[0] == 0 && nd.check[0] == -1
    && (forall i :: i in t.path ==> 0 <= i < size)
    && (forall i :: i in t.path && i != 0 ==> LinkedUp(nd, md, t, i))
    && (forall n :: n in t.path ==> Family(nd, inf, md, size, t, n))
  }

  // --------------------------------------------------------------------- frames

  // Only the slots of the tree matter to it.
  lemma TreeFrame(nd: Nodes, inf: Infos, nd': Nodes, inf': Infos, md: Mode, size: int, size': int, t: Tree)
    requires TreeOk(nd, inf, md, size, t)
    requires |nd'.base| == |nd'.check| == |inf'.sibling| == |inf'.child| >= size' >= size && size' % 256 == 0
    requires forall i :: i in t.path ==> nd'.base[i] == nd.base[i] && nd'.check[i] == nd.check[i]
    requires forall i :: i in t.path ==> inf'.sibling[i] == inf.sibling[i] && inf'.child[i] == inf.child[i]
    ensures TreeOk(nd', inf', md, size', t)
  {
    hide Xor;
    forall i | i in t.path && i != 0 ensures LinkedUp(nd', md, t, i)
    {
      assert LinkedUp(nd, md, t, i);
    }
    forall n | n in t.path ensures Family(nd', inf', md, size', t, n)
    {
      FamilyFrame(nd, inf, nd', inf', md, size, size', t, n);
    }
  }

  lemma FamilyFrame(nd: Nodes, inf: Infos, nd': Nodes, inf': Infos, md: Mode, size: int, size': int, t: Tree, n: int)
    requires TreeOk(nd, inf, md, size, t) && n in t.path
    requires |nd'.base| == |nd'.check| == |inf'.sibling| == |inf'.child| >= size' >= size
    requires forall i :: i in t.path ==> nd'.base[i] == nd.base[i] && nd'.check[i] == nd.check[i]
    requires forall i :: i in t.path ==> inf'.sibling[i] == inf.sibling[i] && inf'.child[i] == inf.child[i]
    ensures Family(nd', inf', md, size', t, n)
  {
    hide Xor, TreeOk, LinkedUp, HasKid, AllKids, KidsOk;
    TreeFacts(nd, inf, md, size, t);
    NodeFacts(nd, inf, md, size, t, n);
    KidsFrame(nd, nd', md, t, n);
    var ks := t.kids[n];
    if ks != [] && !(md.Moving? && n == md.m) {
      forall j | 0 <= j < |ks|
        ensures Xor(nd.base[n], ks[j]) in t.path
      {
        ChainSlot(nd, inf, md, size, t, n, j);
      }
      ChainFrame(nd, inf, nd', inf', n, ks);
    }
  }

  lemma KidsFrame(nd: Nodes, nd': Nodes, md: Mode, t: Tree, n: int)
    requires n in t.kids && n in t.path && AllKids(nd, md, t, n) && 0 <= n < |nd.base|
    requires forall i :: i in t.path ==> 0 <= i < |nd'.check| == |nd'.base|
    requires forall i :: i in t.path ==> 0 <= i < |nd.base| == |nd.check|
    requires forall i :: i in t.path ==> nd'.base[i] == nd.base[i] && nd'.check[i] == nd.check[i]
    ensures AllKids(nd', md, t, n)
  {
    hide Xor;
    forall j | 0 <= j < |t.kids[n]| && (n != 0 || t.kids[n][j] != 0) ensures HasKid(nd', md, t, n, t.kids[n][j])
    {
      assert HasKid(nd, md, t, n, t.kids[n][j]);
    }
  }

  lemma ChainFrame(nd: Nodes, inf: Infos, nd': Nodes, inf': Infos, n: int, ks: seq<byte>)
    requires Chained(nd, inf, n, ks)
    requires n < |nd'.base| == |inf'.child| == |inf'.sibling|
    requires nd'.base[n] == nd.base[n] && inf'.child[n] == inf.child[n]
    requires forall j :: 0 <= j < |ks| ==>
                Xor(nd.base[n], ks[j]) < |inf'.sibling|
                    && inf'.sibling[Xor(nd.base[n], ks[j])] == inf.sibling[Xor(nd.base[n], ks[j])]
    ensures Chained(nd', inf', n, ks)
  {
    hide Xor;
  }

  lemma TreeFacts(nd: Nodes, inf: Infos, md: Mode, size: int, t: Tree)
    requires TreeOk(nd, inf, md, size, t)
    ensures |nd.base| == |nd.check| == |inf.sibling| == |inf.child| >= size > 0 && size % 256 == 0
    ensures Inverse(t) && ModeOk(md, size, t)
    ensures 0 in t.path && t.path[0] == Root && nd.base[0] == 0 && nd.check[0] == -1
    ensures forall i :: i in t.path ==> 0 <= i < size
  {
  }

  lemma NodeFacts(nd: Nodes, inf: Infos, md: Mode, size: int, t: Tree, n: int)
    requires TreeOk(nd, inf, md, size, t) && n in t.path
    ensures Family(nd, inf, md, size, t, n)
    ensures n != 0 ==> LinkedUp(nd, md, t, n)
  {
  }

  // Every slot of a chain belongs to the tree.
  lemma ChainSlot(nd: Nodes, inf: Infos, md: Mode, size: int, t: Tree, n: int, j: int)
    requires TreeOk(nd, inf, md, size, t) && n in t.path && 0 <= j < |t.kids[n]|
    requires !(md.Moving? && n == md.m)
    ensures 0 <= n < |nd.base| && nd.base[n] >= 0
    ensures Xor(nd.base[n], t.kids[n][j]) in t.path
    ensures Xor(nd.base[n], t.kids[n][j]) == 0 <==> n == 0 && t.kids[n][j] == 0
    ensures (n == 0 && t.kids[n][j] == 0) || nd.check[Xor(nd.base[n], t.kids[n][j])] == n
  {
    hide Xor;
    assert Family(nd, inf, md, size, t, n);
    if n == 0 && t.kids[n][j] == 0 {
      XorZero(0);
    } else {
      assert HasKid(nd, md, t, n, t.kids[n][j]);
    }
  }
}
