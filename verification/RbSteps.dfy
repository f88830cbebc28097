// What the steps of insertion and removal do to the nodes of the tree.
module RbSteps {
  import opened RedBlack
  import opened RbNodes

  // One node more, at some place of the sequence.
  ghost predicate Added(s: seq<nat>, s': seq<nat>, x: nat)
  {
    exists i :: 0 <= i <= |s| && s' == s[..i] + [x] + s[i..]
  }

  lemma AddedAt(a: seq<nat>, b: seq<nat>, x: nat)
    ensures Added(a + b, a + [x] + b, x)
  {
    assert (a + b)[..|a|] == a && (a + b)[|a|..] == b;
  }

  // What the way back up knows after k nodes are left: t stands for s below them.
  ghost predicate Climbing(h: Links, fs: seq<Frame>, s: Tree, t: Tree)
  {
    && Way(h, fs) && Rep(h, t) && Distinct(Plug(fs, t)) && Good(Plug(fs, s))
  }

  lemma LastFrame(h: Links, fs: seq<Frame>, s: Tree, t: Tree)
    requires Climbing(h, fs, s, t) && fs != []
    ensures var f, rest := fs[|fs| - 1], fs[..|fs| - 1];
            && FrameAt(h, f) && Distinct(Fill(f, t)) && Good(Fill(f, s)) && Rep(h, t) && Way(h, rest)
            && WayIds(rest) !! Ids(Fill(f, t)) && Plug(rest, Fill(f, t)) == Plug(fs, t)
            && Plug(rest, Fill(f, s)) == Plug(fs, s)
            && Distinct(Plug(rest, Fill(f, t)))
  {
    var f, rest := fs[|fs| - 1], fs[..|fs| - 1];
    PlugDistinct(rest, Fill(f, t));
    PlugPart(rest, Fill(f, s));
  }

  // After a step that changed nodes of the subtree only.
  lemma ClimbOn(h: Links, h': Links, fs: seq<Frame>, s: Tree, t: Tree, u: Tree)
    requires Climbing(h, fs, s, t) && fs != []
    requires Rep(h', u) && Ids(u) == Ids(Fill(fs[|fs| - 1], t)) && Distinct(u) && OnlyAt(h, h', Ids(u))
    ensures Climbing(h', fs[..|fs| - 1], Fill(fs[|fs| - 1], s), u)
  {
    hide Rep, Distinct, Ids, OnlyAt, Way, WayIds, Plug, Fill;
    LastFrame(h, fs, s, t);
    var f, rest := fs[|fs| - 1], fs[..|fs| - 1];
    WayFrame(h, h', rest, Ids(u));
    PlugDistinct(rest, u);
    PlugDistinct(rest, Fill(f, t));
  }

  // The subtree is attached: the whole tree stands.
  lemma ClimbDone(h: Links, fs: seq<Frame>, s: Tree, t: Tree)
    requires Climbing(h, fs, s, t) && (fs != [] ==> LinkOf(h, fs[|fs| - 1]) == Root(t))
    ensures Rep(h, Plug(fs, t)) && Root(Plug(fs, t)) == if fs == [] then Root(t) else fs[0].at
  {
    WayRep(h, fs, t);
  }

  // The fields of a node that represents the root of a tree.
  lemma FieldsOf(h: Links, t: Tree)
    requires Rep(h, t) && t.Node?
    ensures 0 < t.at < |h.left| && t.at < |h.right| && t.at < |h.red|
    ensures h.left[t.at] == Root(t.left) && h.right[t.at] == Root(t.right) && h.red[t.at] == t.red
    ensures Rep(h, t.left) && Rep(h, t.right)
  { }

  lemma IdsOf(t: Tree)
    requires t.Node?
    ensures t.at in Ids(t) && Ids(t.left) <= Ids(t) && Ids(t.right) <= Ids(t)
    ensures t.left.Node? ==> t.left.at in Ids(t)
    ensures t.right.Node? ==> t.right.at in Ids(t)
  { }

  // Two changes within the same nodes.
  lemma Within(h: Links, h1: Links, h2: Links, a: set<nat>, b: set<nat>)
    requires OnlyAt(h, h1, b) && OnlyAt(h1, h2, a) && a <= b
    ensures OnlyAt(h, h2, b)
  {
    hide SameAt;
    OnlyTrans(h, h1, h2, b, a);
    assert a + b == b;
  }

  lemma FixFour(h: Links, t: Tree)
    requires Rep(h, t) && Distinct(t) && t.Node? && t.left.Node? && t.left.left.Node?
    ensures t.left.left.at < |h.red| && t.at < |h.left| && h.left[t.at] == t.left.at < |h.right| && t.at < |h.right|
    ensures var h' := RotateRight(SetRed(h, t.left.left.at, false), t.at);
            var l := t.left;
            var u := Node(Black(l.left), l.at, l.red, Node(l.right, t.at, t.red, t.right));
            Rep(h', u) && Distinct(u) && Ids(u) == Ids(t) && OnlyAt(h, h', Ids(t))
  {
    hide Rep, Distinct, OnlyAt, Ids;
    FieldsOf(h, t);
    FieldsOf(h, t.left);
    FieldsOf(h, t.left.left);
    var h1, l' := SetRed(h, t.left.left.at, false), t.left.(left := Black(t.left.left));
    DistinctParts(t);
    RepRedLeft(h, t.left, false);
    IdsOf(t.left);
    OnlyMore(h, h1, {t.left.left.at}, Ids(t.left));
    RepInLeft(h, h1, t, l');
    IdsOf(t);
    OnlyMore(h, h1, Ids(t.left), Ids(t));
    var t1 := t.(left := l');
    RepRotateRight(h1, t1);
    Within(h, h1, RotateRight(h1, t.at), {t.at, t.left.at}, Ids(t));
  }

  lemma DistinctParts(t: Tree)
    requires Distinct(t) && t.Node?
    ensures Distinct(t.left) && Distinct(t.right) && t.at !in Ids(t.left) && t.at !in Ids(t.right)
    ensures Ids(t.left) !! Ids(t.right)
  { }

  lemma SplitFour(h: Links, t: Tree)
    requires Rep(h, t) && Distinct(t) && t.Node? && t.left.Node? && t.right.Node?
    ensures t.left.at < |h.red| && t.right.at < |h.red| && t.at < |h.red|
    ensures var h' := SetRed(SetRed(SetRed(h, t.left.at, false), t.right.at, false), t.at, true);
            var u := Node(Black(t.left), t.at, true, Black(t.right));
            Rep(h', u) && Distinct(u) && Ids(u) == Ids(t) && OnlyAt(h, h', Ids(t))
  {
    hide Rep, Distinct, OnlyAt, Ids;
    IdsOf(t);
    RepRedLeft(h, t, false);
    var h1, t1 := SetRed(h, t.left.at, false), t.(left := Black(t.left));
    OnlyMore(h, h1, {t.left.at}, Ids(t));
    RepRedRight(h1, t1, false);
    var h2, t2 := SetRed(h1, t.right.at, false), t1.(right := Black(t.right));
    Within(h, h1, h2, {t.right.at}, Ids(t));
    RepRed(h2, t2, true);
    Within(h, h2, SetRed(h2, t.at, true), {t.at}, Ids(t));
    RedIds(t2, true);
  }

  lemma RedIds(t: Tree, c: bool)
    requires t.Node?
    ensures Ids(t.(red := c)) == Ids(t) && (Distinct(t) ==> Distinct(t.(red := c)))
  { }

  lemma LeanLeft(h: Links, t: Tree, c: bool)
    requires Rep(h, t) && Distinct(t) && t.Node? && t.right.Node?
    ensures t.at < |h.right| && t.at < |h.left| && h.right[t.at] == t.right.at < |h.left| && t.right.at < |h.red|
    ensures t.at < |h.red|
    ensures var h' := SetRed(SetRed(RotateLeft(h, t.at), t.right.at, c), t.at, true);
            var u := Node(Node(t.left, t.at, true, t.right.left), t.right.at, c, t.right.right);
            Rep(h', u) && Distinct(u) && Ids(u) == Ids(t) && OnlyAt(h, h', Ids(t))
  {
    hide Rep, Distinct, OnlyAt, Ids;
    FieldsOf(h, t);
    FieldsOf(h, t.right);
    IdsOf(t);
    RepRotateLeft(h, t);
    var h1 := RotateLeft(h, t.at);
    var t1 := Node(Node(t.left, t.at, t.red, t.right.left), t.right.at, t.right.red, t.right.right);
    OnlyMore(h, h1, {t.at, t.right.at}, Ids(t));
    RepRed(h1, t1, c);
    RedIds(t1, c);
    var h2, t2 := SetRed(h1, t.right.at, c), t1.(red := c);
    Within(h, h1, h2, {t.right.at}, Ids(t));
    RepRedLeft(h2, t2, true);
    Within(h, h2, SetRed(h2, t.at, true), {t.at}, Ids(t));
  }

  lemma KeepsNil(h: Links, h': Links, ids: set<nat>, n: nat)
    requires Sized(h, n) && NilOk(h) && OnlyAt(h, h', ids) && NIL !in ids
    ensures Sized(h', n) && NilOk(h')
  {
    assert SameAt(h, h', NIL);
  }

  // The path and the comparisons follow the frames.
  predicate Aligned(path: seq<nat>, cmps: seq<int>, fs: seq<Frame>, n: nat)
    requires n <= |fs| <= |cmps| && |fs| <= |path|
  {
    && (forall k :: 0 <= k < |fs| ==> cmps[k] != 0 && (cmps[k] < 0) == fs[k].goLeft)
    && (forall k :: 0 <= k < n ==> path[k] == fs[k].at)
  }

  lemma LeafIs(h: Links, t: Tree)
    requires Rep(h, t)
    ensures Root(t) == NIL <==> t.Leaf?
  { }

  lemma AtTop(h: Links, key: seq<int>, t: Tree, node: nat)
    ensures Way(h, []) && Plug([], t) == t && Sides(key, [], node)
  { }

  // A node that is in no tree can be set up.
  lemma NewNode(h: Links, t: Tree, node: nat, n: nat)
    requires Sized(h, n) && NilOk(h) && Rep(h, t) && 0 < node < n && node !in InOrder(t)
    ensures var h' := SetRed(SetRight(SetLeft(h, node, NIL), node, NIL), node, true);
            Sized(h', n) && NilOk(h') && Rep(h', t) && Rep(h', Node(Leaf, node, true, Leaf)) && OnlyAt(h, h', {node})
  {
    var h' := SetRed(SetRight(SetLeft(h, node, NIL), node, NIL), node, true);
    InOrderIds(t);
    RepFrame(h, h', t, {node});
  }

  // node's key lies between those of the nodes on the left and on the right of the way.
  ghost predicate Sides(key: seq<int>, fs: seq<Frame>, node: nat)
  {
    && (forall x :: x in Before(fs) ==> Less(key, x, node))
    && (forall x :: x in After(fs) ==> Less(key, node, x))
  }

  lemma Compared(key: seq<int>, tree: Tree, fs: seq<Frame>, t: Tree, node: nat)
    requires node < |key| && Plug(fs, t) == tree && t.Node?
    requires forall x :: x in InOrder(tree) ==> x < |key| && key[x] != key[node]
    ensures t.at < |key| && key[t.at] != key[node]
  {
    PlugInOrder(fs, t);
    var b, i, a := Before(fs), InOrder(t), After(fs);
    assert InOrder(tree) == b + i + a;
    assert i[|InOrder(t.left)|] == t.at;
    assert (b + i + a)[|b| + |InOrder(t.left)|] == t.at;
    assert t.at in InOrder(tree);
  }

  lemma SidesDown(key: seq<int>, tree: Tree, fs: seq<Frame>, t: Tree, node: nat, f: Frame)
    requires Plug(fs, t) == tree && t.Node? && Sorted(key, InOrder(tree)) && Sides(key, fs, node)
    requires node < |key| && t.at < |key| && key[t.at] != key[node]
    requires Before(fs + [f]) == Before(fs) + (if key[node] < key[t.at] then [] else InOrder(t.left) + [t.at])
    requires After(fs + [f]) == (if key[node] < key[t.at] then [t.at] + InOrder(t.right) else []) + After(fs)
    ensures Sides(key, fs + [f], node)
  {
    hide Sorted, InOrder, Before, After, Plug;
    PlugInOrder(fs, t);
    InOrderNode(t);
    SortedParts(key, Before(fs) + InOrder(t), After(fs));
    SortedParts(key, Before(fs), InOrder(t));
    var l, r := InOrder(t.left), InOrder(t.right);
    SortedParts(key, l + [t.at], r);
    SortedParts(key, l, [t.at]);
    if key[node] < key[t.at] {
      forall x | x in After(fs + [f]) ensures Less(key, node, x)
      {
        if x in r { assert t.at in l + [t.at]; }
      }
    } else {
      forall x | x in Before(fs + [f]) ensures Less(key, x, node)
      {
        if x in l { assert t.at in [t.at]; }
      }
    }
  }

  // The new node in its place, red and without children.
  lemma TakePlace(h: Links, key: seq<int>, tree: Tree, fs: seq<Frame>, node: nat)
    requires Way(h, fs) && Plug(fs, Leaf) == tree && Good(tree) && Sorted(key, InOrder(tree)) && node !in InOrder(tree)
    requires Rep(h, Node(Leaf, node, true, Leaf))
    ensures var t := Node(Leaf, node, true, Leaf);
            && Climbing(h, fs, Leaf, t) && Grown(Leaf, t) && InOrder(Plug(fs, t)) == Before(fs) + [node] + After(fs)
            && Ids(Plug(fs, t)) == Ids(tree) + {node}
  {
    hide Way, Rep, Sorted, Good, Plug, Before, After;
    var t := Node(Leaf, node, true, Leaf);
    SortedDistinct(key, tree);
    PlugDistinct(fs, Leaf);
    PlugIds(fs, Leaf);
    PlugIds(fs, t);
    InOrderIds(tree);
    PlugDistinct(fs, t);
    PlugInOrder(fs, t);
    assert InOrder(t) == [node];
    GrownNew(node);
  }

  lemma GrownNew(node: nat)
    ensures Grown(Leaf, Node(Leaf, node, true, Leaf))
  { }

  lemma InsertStepIds(f: Frame, t: Tree)
    requires Distinct(Fill(f, t))
    ensures var u := InsertStep(f, t).tree; Ids(u) == Ids(Fill(f, t)) && Distinct(u)
  {
    var u := InsertStep(f, t).tree;
    if IsRed(t) && f.goLeft && IsRed(t.left) {
      RedIds(t.left, false);
      assert Distinct(u.right) && Distinct(u.left);
    } else if IsRed(t) && !f.goLeft && IsRed(f.other) {
      RedIds(t, false);
      RedIds(f.other, false);
    } else if IsRed(t) && !f.goLeft {
      assert Distinct(u.left);
    }
  }

  lemma StepUp(f: Frame, rest: seq<Frame>, s: Tree, t: Tree)
    requires Good(Fill(f, s)) && Grown(s, t) && Distinct(Plug(rest, Fill(f, t))) && t.Node?
    ensures var u := InsertStep(f, t);
            && Grown(Fill(f, s), u.tree) && u.tree.Node? && Ids(u.tree) == Ids(Fill(f, t)) && Distinct(u.tree)
            && InOrder(Plug(rest, u.tree)) == InOrder(Plug(rest, Fill(f, t)))
            && Ids(Plug(rest, u.tree)) == Ids(Plug(rest, Fill(f, t)))
            && Ids(u.tree) <= Ids(Plug(rest, Fill(f, t)))
            && (u.done ==> Good(u.tree) && u.tree == Fill(f, t))
            && (u.done ==> BlackHeight(u.tree) == BlackHeight(Fill(f, s)) && IsRed(u.tree) == IsRed(Fill(f, s)))
  {
    hide Good, Grown, Distinct, InOrder, Ids, InsertStep, Plug;
    InsertStepGrown(f, s, t);
    InsertStepOrder(f, t);
    PlugDistinct(rest, Fill(f, t));
    InsertStepIds(f, t);
    var u := InsertStep(f, t).tree;
    PlugInOrder(rest, u);
    PlugInOrder(rest, Fill(f, t));
    PlugIds(rest, u);
    PlugIds(rest, Fill(f, t));
    StepNode(f, t);
    GrownHeight(Fill(f, s), u);
  }

  lemma GrownHeight(s: Tree, t: Tree)
    requires Grown(s, t)
    ensures BlackHeight(t) == BlackHeight(s)
  { }

  lemma StepNode(f: Frame, t: Tree)
    ensures InsertStep(f, t).tree.Node?
  { }

  // The link into the subtree's old root is still there.
  lemma StillLinked(h: Links, h': Links, fs: seq<Frame>, s: Tree, t: Tree)
    requires Climbing(h, fs, s, t) && fs != [] && OnlyAt(h, h', Ids(Fill(fs[|fs| - 1], t)))
    ensures |fs| > 1 ==> LinkOf(h', fs[|fs| - 2]) == fs[|fs| - 1].at
  {
    LastFrame(h, fs, s, t);
    if |fs| > 1 {
      var rest := fs[..|fs| - 1];
      assert rest[|rest| - 1] == fs[|fs| - 2];
      assert SameAt(h, h', fs[|fs| - 2].at);
    }
  }

  lemma Arrived(key: seq<int>, fs: seq<Frame>, node: nat, t0: Tree, t: Tree)
    requires Plug(fs, Leaf) == t0 && Sorted(key, InOrder(t0)) && Sides(key, fs, node)
    requires InOrder(t) == Before(fs) + [node] + After(fs)
    ensures Sorted(key, InOrder(t)) && Added(InOrder(t0), InOrder(t), node)
  {
    hide Sorted;
    PlugInOrder(fs, Leaf);
    assert Before(fs) + [] + After(fs) == Before(fs) + After(fs);
    AddedAt(Before(fs), After(fs), node);
    SortedParts(key, Before(fs), After(fs));
    OneSorted(key, node);
    SortedParts(key, Before(fs), [node]);
    SortedParts(key, Before(fs) + [node], After(fs));
  }

  lemma OneSorted(key: seq<int>, node: nat)
    ensures Sorted(key, [node])
  { }

  lemma Settled(key: seq<int>, fs: seq<Frame>, node: nat, t0: Tree, rest: seq<Frame>, s: Tree, t: Tree)
    requires Plug(fs, Leaf) == t0 && Sorted(key, InOrder(t0)) && Sides(key, fs, node) && Plug(rest, s) == t0
    requires Good(t0) && !IsRed(t0)
    requires InOrder(Plug(rest, t)) == Before(fs) + [node] + After(fs) && Good(t) && BlackHeight(t) == BlackHeight(s)
    requires (IsRed(t) ==> IsRed(s))
    ensures Sorted(key, InOrder(Plug(rest, t))) && Added(InOrder(t0), InOrder(Plug(rest, t)), node)
    ensures Good(Plug(rest, t)) && !IsRed(Plug(rest, t))
  {
    hide Sorted, Good, Added, Sides, InOrder;
    Arrived(key, fs, node, t0, Plug(rest, t));
    PlugGood(rest, s, t);
  }

  // The root is made black.
  lemma Topmost(h: Links, h0: Links, s: Tree, t: Tree, t0: Tree, n: nat, all: set<nat>)
    requires Climbing(h, [], s, t) && Grown(s, t) && Plug([], s) == t0 && t.Node? && !IsRed(t0) && Sized(h, n)
    requires NilOk(h)
    requires OnlyAt(h0, h, all) && Ids(Plug([], t)) == all
    ensures t.at < |h.red| && Plug([], t) == t
    ensures var h' := SetRed(h, t.at, false);
            && Sized(h', n) && NilOk(h') && Rep(h', Black(t)) && Good(Black(t)) && InOrder(Black(t)) == InOrder(t)
            && OnlyAt(h0, h', all)
  {
    RepRed(h, t, false);
    Recolored(t);
    RepValid(h, t);
    Within(h0, h, SetRed(h, t.at, false), {t.at}, all);
  }

  lemma OnlySelf(h: Links, ids: set<nat>)
    ensures OnlyAt(h, h, ids)
  { }
}
