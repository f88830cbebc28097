// Insertion into and removal from an intrusive left-leaning red-black tree.
module RbTree {
  import opened RedBlack
  import opened RbNodes
  import opened RbSteps
  import opened RbPrune

  class RbTree {
    const key: seq<int>
    var h: Links
    var root: nat
    ghost var tree: Tree

    ghost predicate Valid()
      reads this
    {
      && Sized(h, |key|) && NilOk(h) && Rep(h, tree) && root == Root(tree)
      && Good(tree) && !IsRed(tree) && Sorted(key, InOrder(tree))
    }

    // rb_new; the nodes are there already.
    constructor (key: seq<int>)
      requires |key| > 0
      ensures Valid() && tree == Leaf && this.key == key
    {
      this.key := key;
      h := Links(seq(|key|, _ => NIL), seq(|key|, _ => NIL), seq(|key|, _ => false));
      root := NIL;
      tree := Leaf;
    }

    // One turn of the unwinding loop of insert.
    method InsertUp(at: nat, goLeft: bool, child: nat, ghost f: Frame, ghost t: Tree) returns (cnode: nat, done: bool)
      requires Sized(h, |key|) && NilOk(h) && FrameAt(h, f) && Rep(h, t) && Distinct(Fill(f, t))
      requires at == f.at && goLeft == f.goLeft && child == Root(t) && t.Node?
      modifies this`h
      ensures Sized(h, |key|) && NilOk(h) && OnlyAt(old(h), h, Ids(Fill(f, t)))
      ensures var u := InsertStep(f, t);
              Rep(h, u.tree) && cnode == Root(u.tree) && done == u.done && Ids(u.tree) == Ids(Fill(f, t))
                  && Distinct(u.tree)
    {
      hide Rep, Distinct, Ids, OnlyAt;
      ghost var h0, ids, whole := h, Ids(Fill(f, t)), Fill(f, t);
      RepFill(h, f, t);
      ghost var h1 := Linked(h, f, Root(t));
      IdsOf(whole);
      OnlyMore(h0, h1, {f.at}, ids);
      RepValid(h1, whole);
      KeepsNil(h0, h1, ids, |key|);
      FieldsOf(h1, whole);
      FieldsOf(h1, t);
      RedIs(h1, t);
      RedIs(h1, t.left);
      RedIs(h1, whole.left);
      cnode, done := at, false;
      if goLeft {
        h := SetLeft(h, cnode, child);
        if h.red[child] {
          var leftleft := h.left[child];
          if h.red[leftleft] {
            FixFour(h, whole);
            h := SetRed(h, leftleft, false);
            var tnode := h.left[cnode];
            h := RotateRight(h, cnode);
            cnode := tnode;
          }
        } else {
          done := true;
        }
      } else {
        h := SetRight(h, cnode, child);
        if h.red[child] {
          var left := h.left[cnode];
          if h.red[left] {
            SplitFour(h, whole);
            h := SetRed(h, left, false);
            h := SetRed(h, child, false);
            h := SetRed(h, cnode, true);
          } else {
            var tred := h.red[cnode];
            var tnode := h.right[cnode];
            LeanLeft(h, whole, tred);
            h := RotateLeft(h, cnode);
            h := SetRed(h, tnode, tred);
            h := SetRed(h, cnode, true);
            cnode := tnode;
          }
        } else {
          done := true;
        }
      }
      OnlySelf(h1, ids);
      Within(h0, h1, h, ids, ids);
      KeepsNil(h0, h, ids, |key|);
    }

    // A node that is in no tree.
    ghost predicate Loose(node: nat)
      reads this
    {
      0 < node < |key| && forall x :: x in InOrder(tree) ==> x < |key| && key[x] != key[node]
    }

    // The way down: path holds the nodes, cmps where it went on.
    method WindInsert(node: nat) returns (path: seq<nat>, cmps: seq<int>, ghost fs: seq<Frame>)
      requires Sized(h, |key|) && NilOk(h) && Rep(h, tree) && root == Root(tree) && Sorted(key, InOrder(tree))
      requires Loose(node)
      ensures |path| == |cmps| + 1 == |fs| + 1 && Aligned(path, cmps, fs, |fs|)
      ensures Way(h, fs) && Plug(fs, Leaf) == tree && Sides(key, fs, node) && (fs != [] ==> fs[0].at == root)
    {
      hide Rep, Distinct, Ids, OnlyAt, Way, WayIds, Plug, InOrder, Sorted, Before, After, Sides;
      path, cmps, fs := [root], [], [];
      ghost var cur := tree;
      AtTop(h, key, tree, node);
      while path[|path| - 1] != NIL
        invariant |path| == |cmps| + 1 == |fs| + 1 && path[|cmps|] == Root(cur) && Aligned(path, cmps, fs, |fs|)
        invariant Way(h, fs) && Rep(h, cur) && (fs != [] ==> LinkOf(h, fs[|fs| - 1]) == Root(cur))
        invariant Plug(fs, cur) == tree
        invariant Sides(key, fs, node) && (if fs == [] then cur == tree else fs[0].at == root)
        decreases cur
      {
        var at := path[|path| - 1];
        LeafIs(h, cur);
        FieldsOf(h, cur);
        Compared(key, tree, fs, cur, node);
        var cmp := key[node] - key[at];
        ghost var f, cur' := WayDown(h, fs, cur, cmp < 0);
        SidesDown(key, tree, fs, cur, node, f);
        path := path + [if cmp < 0 then h.left[at] else h.right[at]];
        cmps := cmps + [cmp];
        fs, cur := fs + [f], cur';
      }
      LeafIs(h, cur);
    }

    method Insert(node: nat)
      requires Valid() && Loose(node)
      modifies this`h, this`root, this`tree
      ensures Valid() && Added(old(InOrder(tree)), InOrder(tree), node)
      ensures OnlyAt(old(h), h, old(Ids(tree)) + {node})
    {
      hide Rep, Distinct, Ids, OnlyAt, Way, WayIds, Plug, Good, InOrder, Climbing, Sorted, Before, After, Sides, Grown,
           InsertStep, Added, NilOk;
      ghost var h0, all, t0 := h, Ids(tree) + {node}, tree;
      NewNode(h, tree, node, |key|);
      h := SetLeft(h, node, NIL);
      h := SetRight(h, node, NIL);
      h := SetRed(h, node, true);
      OnlyMore(h0, h, {node}, all);
      var path: seq<nat>, cmps: seq<int>, fs: seq<Frame> := WindInsert(node);
      path := path[|cmps| := node];
      ghost var s, t := Leaf, Node(Leaf, node, true, Leaf);
      TakePlace(h, key, tree, fs, node);
      var pathp := |cmps| - 1;
      assert fs[..pathp + 1] == fs;
      while pathp >= 0
        invariant -1 <= pathp < |cmps| == |fs| && |path| == |fs| + 1 && path[pathp + 1] == Root(t) && t.Node?
        invariant Aligned(path, cmps, fs, pathp + 1) && root == old(root)
        invariant Sized(h, |key|) && NilOk(h) && OnlyAt(h0, h, all)
        invariant Climbing(h, fs[..pathp + 1], s, t) && Grown(s, t) && Plug(fs[..pathp + 1], s) == t0
        invariant InOrder(Plug(fs[..pathp + 1], t)) == Before(fs) + [node] + After(fs)
        invariant Ids(Plug(fs[..pathp + 1], t)) == all
        decreases pathp
      {
        ghost var here, f, hb := fs[..pathp + 1], fs[pathp], h;
        assert here[|here| - 1] == f && here[..|here| - 1] == fs[..pathp];
        LastFrame(h, here, s, t);
        StepUp(f, fs[..pathp], s, t);
        var cnode, done := InsertUp(path[pathp], cmps[pathp] < 0, path[pathp + 1], f, t);
        ghost var u := InsertStep(f, t).tree;
        ClimbOn(hb, h, here, s, t, u);
        Within(h0, hb, h, Ids(u), all);
        StillLinked(hb, h, here, s, t);
        s, t := Fill(f, s), u;
        if done {
          // Nothing above changes.
          ClimbDone(h, fs[..pathp], s, t);
          tree := Plug(fs[..pathp], t);
          Settled(key, fs, node, t0, fs[..pathp], s, t);
          return;
        }
        path := path[pathp := cnode];
        pathp := pathp - 1;
      }
      root := path[0];
      assert fs[..0] == [];
      Topmost(h, h0, s, t, t0, |key|, all);
      Arrived(key, fs, node, t0, t);
      h := SetRed(h, root, false);
      tree := Black(t);
    }

    // Below child, on the left of at, one black node is missing.
    method RaiseLeft(at: nat, child: nat, ghost f: Frame, ghost s: Tree, ghost t: Tree) returns (cnode: nat, done: bool)
      requires Sized(h, |key|) && NilOk(h) && FrameAt(h, f) && Rep(h, t) && Distinct(Fill(f, t))
      requires at == f.at && child == Root(t) && Good(Fill(f, s)) && Low(s, t) && f.goLeft
      modifies this`h
      ensures f.other.Node?
      ensures Sized(h, |key|) && NilOk(h) && OnlyAt(old(h), h, Ids(Fill(f, t)))
      ensures var u := RemoveStep(f, t);
              Rep(h, u.tree) && cnode == Root(u.tree) && done == u.done && Ids(u.tree) == Ids(Fill(f, t))
                  && Distinct(u.tree)
    {
      hide Rep, Distinct, Ids, OnlyAt, Good, Low, FrameAt, NilOk, Sized;
      SiblingThere(f, s, t);
      ghost var h0, ids, whole := h, Ids(Fill(f, t)), Fill(f, t);
      Attached(h, f, t, |key|);
      ghost var h1 := Linked(h, f, Root(t));
      cnode, done := at, true;
      SiblingNotRed(f, s);
      RedIs(h1, f.other.left);
      h := SetLeft(h, at, child);
      var right := h.right[at];
      var rightleft := h.left[right];
      RedIs(h1, f.other.left);
      if h.red[at] {
        if h.red[rightleft] {
          LeftRedTurn(h, whole);
          h := SetRed(h, at, false);
          var tnode := h.left[right];
          h := RotateRight(h, right);
          h := SetRight(h, at, tnode);
          cnode := h.right[at];
          h := RotateLeft(h, at);
        } else {
          PlainLeft(h, whole);
          cnode := h.right[at];
          h := RotateLeft(h, at);
        }
      } else if h.red[rightleft] {
        LeftBlackTurn(h, whole);
        h := SetRed(h, rightleft, false);
        var tnode := h.left[right];
        h := RotateRight(h, right);
        h := SetRight(h, at, tnode);
        cnode := h.right[at];
        h := RotateLeft(h, at);
      } else {
        TurnOver(h, whole);
        h := SetRed(h, at, true);
        cnode := h.right[at];
        h := RotateLeft(h, at);
        done := false;
      }
      Within(h0, h1, h, ids, ids);
      RepValid(h1, whole);
      KeepsNil(h1, h, ids, |key|);
    }

    // Below child, on the right of at, one black node is missing.
    method RaiseRight(at: nat, child: nat, ghost f: Frame, ghost s: Tree, ghost t: Tree)
        returns (cnode: nat, done: bool)
      requires Sized(h, |key|) && NilOk(h) && FrameAt(h, f) && Rep(h, t) && Distinct(Fill(f, t))
      requires at == f.at && child == Root(t) && Good(Fill(f, s)) && Low(s, t) && !f.goLeft
      modifies this`h
      ensures f.other.Node? && (!f.goLeft && f.other.red ==> f.other.right.Node?)
      ensures Sized(h, |key|) && NilOk(h) && OnlyAt(old(h), h, Ids(Fill(f, t)))
      ensures var u := RemoveStep(f, t);
              Rep(h, u.tree) && cnode == Root(u.tree) && done == u.done && Ids(u.tree) == Ids(Fill(f, t))
                  && Distinct(u.tree)
    {
      hide Rep, Distinct, Ids, OnlyAt, Good, Low, FrameAt, NilOk, Sized;
      SiblingThere(f, s, t);
      ghost var h0, ids, whole := h, Ids(Fill(f, t)), Fill(f, t);
      Attached(h, f, t, |key|);
      ghost var h1 := Linked(h, f, Root(t));
      cnode, done := at, true;
      h := SetRight(h, at, child);
      var left := h.left[at];
      if h.red[left] {
        FieldsOf(h1, f.other.right);
        RedIs(h1, f.other.right.left);
        var leftright := h.right[left];
        var leftrightleft := h.left[leftright];
        if h.red[leftrightleft] {
          RightRedTurn(h, whole);
          h := SetRed(h, leftrightleft, false);
          var unode := h.left[at];
          h := RotateRight(h, at);
          var tnode := h.left[at];
          h := RotateRight(h, at);
          h := SetRight(h, unode, tnode);
          cnode := h.right[unode];
          h := RotateLeft(h, unode);
        } else {
          RightRedPlain(h, whole);
          h := SetRed(h, leftright, true);
          cnode := h.left[at];
          h := RotateRight(h, at);
          h := SetRed(h, cnode, false);
        }
      } else {
        var leftleft := h.left[left];
        RedIs(h1, f.other.left);
        if h.red[at] {
          if h.red[leftleft] {
            RightBlackBoth(h, whole);
            h := SetRed(h, at, false);
            h := SetRed(h, left, true);
            h := SetRed(h, leftleft, false);
            cnode := h.left[at];
            h := RotateRight(h, at);
          } else {
            RightBlackSwap(h, whole, false);
            h := SetRed(h, left, true);
            h := SetRed(h, at, false);
          }
        } else if h.red[leftleft] {
          FixFour(h, whole);
          h := SetRed(h, leftleft, false);
          cnode := h.left[at];
          h := RotateRight(h, at);
        } else {
          RepRedLeft(h, whole, true);
          IdsOf(whole);
          OnlyMore(h, SetRed(h, left, true), {left}, ids);
          h := SetRed(h, left, true);
          done := false;
        }
      }
      Within(h0, h1, h, ids, ids);
      RepValid(h1, whole);
      KeepsNil(h1, h, ids, |key|);
    }

    // One turn of the unwinding loop of remove: what is below child is one black node too low.
    method RemoveUp(at: nat, goLeft: bool, child: nat, ghost f: Frame, ghost s: Tree, ghost t: Tree)
        returns (cnode: nat, done: bool)
      requires Sized(h, |key|) && NilOk(h) && FrameAt(h, f) && Rep(h, t) && Distinct(Fill(f, t))
      requires at == f.at && child == Root(t) && Good(Fill(f, s)) && Low(s, t) && goLeft == f.goLeft
      modifies this`h
      ensures f.other.Node? && (!f.goLeft && f.other.red ==> f.other.right.Node?)
      ensures Sized(h, |key|) && NilOk(h) && OnlyAt(old(h), h, Ids(Fill(f, t)))
      ensures var u := RemoveStep(f, t);
              Rep(h, u.tree) && cnode == Root(u.tree) && done == u.done && Ids(u.tree) == Ids(Fill(f, t))
                  && Distinct(u.tree)
    {
      if goLeft {
        cnode, done := RaiseLeft(at, child, f, s, t);
      } else {
        cnode, done := RaiseRight(at, child, f, s, t);
      }
    }

    // The way down to the node, and on to the smallest one above it.
    method WindRemove(node: nat) returns (path: seq<nat>, cmps: seq<int>, nodep: nat, ghost fs: seq<Frame>)
      requires Valid() && node in InOrder(tree)
      ensures |path| == |cmps| + 1 == |fs| + 1 && Aligned(path, cmps, fs, |fs|)
      ensures Way(h, fs) && Plug(fs, Leaf) == tree && nodep < |fs| && LeftAfter(fs, nodep) && fs[nodep].at == node
      ensures fs[0].at == root
    {
      hide Rep, Distinct, Ids, OnlyAt, Way, WayIds, Plug, InOrder, Sorted, Before, After, Good, NilOk;
      path, cmps, nodep, fs := [root], [], 0, [];
      ghost var cur := tree;
      AtTop(h, key, tree, node);
      InRange(h, tree, |key|);
      var found := false;
      while !found
        invariant |path| == |cmps| + 1 == |fs| + 1 && path[|cmps|] == Root(cur) && Aligned(path, cmps, fs, |fs|)
        invariant Way(h, fs) && Rep(h, cur) && (fs != [] ==> LinkOf(h, fs[|fs| - 1]) == Root(cur))
        invariant Plug(fs, cur) == tree
        invariant if fs == [] then cur == tree else fs[0].at == root
        invariant !found ==> node in InOrder(cur)
        invariant found ==> nodep == |fs| - 1 && LeftAfter(fs, nodep) && fs[nodep].at == node
        decreases if found then 0 else 1, cur
      {
        var at := path[|path| - 1];
        SomeNode(cur, node);
        FieldsOf(h, cur);
        Toward(key, tree, fs, cur, node);
        var cmp := key[node] - key[at];
        ghost var f, cur' := WayDown(h, fs, cur, cmp < 0);
        fs, cur := fs + [f], cur';
        path := path + [if cmp < 0 then h.left[at] else h.right[at]];
        cmps := cmps + [if cmp == 0 then 1 else cmp];
        if cmp == 0 {
          nodep := |cmps| - 1;
          found := true;
        }
      }
      while path[|path| - 1] != NIL
        invariant |path| == |cmps| + 1 == |fs| + 1 && path[|cmps|] == Root(cur) && Aligned(path, cmps, fs, |fs|)
        invariant nodep < |fs| && LeftAfter(fs, nodep) && fs[nodep].at == node && fs[0].at == root
        invariant Way(h, fs) && Rep(h, cur) && LinkOf(h, fs[|fs| - 1]) == Root(cur) && Plug(fs, cur) == tree
        decreases cur
      {
        var at := path[|path| - 1];
        LeafIs(h, cur);
        FieldsOf(h, cur);
        ghost var f, cur' := WayDown(h, fs, cur, true);
        path := path + [h.left[at]];
        cmps := cmps + [-1];
        fs, cur := fs + [f], cur';
      }
      LeafIs(h, cur);
    }

    // Makes child the subtree at the end of the way: its parent's child, or the root.
    method Hang(path: seq<nat>, cmps: seq<int>, pathp: nat, child: nat, ghost fs: seq<Frame>, ghost s: Tree,
        ghost t: Tree)
      requires Climbing(h, fs, s, t) && Sized(h, |key|) && NilOk(h) && child == Root(t)
      requires pathp == |fs| <= |cmps| && |fs| <= |path| && Aligned(path, cmps, fs, |fs|)
      requires (fs != [] ==> fs[0].at == root)
      modifies this`h, this`root
      ensures Sized(h, |key|) && NilOk(h) && OnlyAt(old(h), h, WayIds(fs)) && Rep(h, Plug(fs, t))
      ensures root == Root(Plug(fs, t))
    {
      hide Rep, Distinct, Ids, OnlyAt, Way, WayIds, Plug, Good, NilOk, Climbing;
      if pathp == 0 {
        root := child;
        OnlySelf(h, WayIds(fs));
        AtRoot(h, fs, s, t);
      } else {
        Hung(h, fs, s, t, |key|);
        if cmps[pathp - 1] < 0 {
          h := SetLeft(h, path[pathp - 1], child);
        } else {
          h := SetRight(h, path[pathp - 1], child);
        }
      }
    }

    // The unwinding loop: pathp is where a black leaf was.
    method Unwind(path0: seq<nat>, cmps: seq<int>, pathp0: nat, ghost fs: seq<Frame>, ghost s0: Tree,
        ghost all: set<nat>)
      requires Climbing(h, fs, s0, Leaf) && Low(s0, Leaf) && Sized(h, |key|) && NilOk(h)
      requires (fs != [] ==> fs[0].at == root)
      requires pathp0 == |fs| <= |cmps| && |fs| < |path0| && Aligned(path0, cmps, fs, |fs|) && path0[pathp0] == NIL
      requires !IsRed(Plug(fs, s0)) && Ids(Plug(fs, Leaf)) <= all
      modifies this`h, this`root
      ensures Sized(h, |key|) && NilOk(h) && OnlyAt(old(h), h, all)
      ensures exists u: Tree ::
                Rep(h, u) && root == Root(u) && Good(u) && !IsRed(u) && InOrder(u) == InOrder(Plug(fs, Leaf))
    {
      hide Rep, Distinct, Ids, OnlyAt, Way, WayIds, Plug, Good, InOrder, Climbing, Before, After, Low, RemoveStep,
           NilOk;
      var path := path0;
      ghost var h0, s, t, whole := h, s0, Leaf, Plug(fs, s0);
      var pathp: int := pathp0 - 1;
      assert fs[..pathp + 1] == fs;
      OnlySelf(h, all);
      while pathp >= 0
        invariant -1 <= pathp < |fs| && |path| == |path0| && path[pathp + 1] == Root(t)
        invariant Aligned(path, cmps, fs, pathp + 1) && root == old(root)
        invariant Sized(h, |key|) && NilOk(h) && OnlyAt(h0, h, all)
        invariant Climbing(h, fs[..pathp + 1], s, t) && Low(s, t) && Plug(fs[..pathp + 1], s) == whole
        invariant InOrder(Plug(fs[..pathp + 1], t)) == InOrder(Plug(fs, Leaf))
        invariant Ids(Plug(fs[..pathp + 1], t)) <= all
        decreases pathp
      {
        ghost var here, f, hb := fs[..pathp + 1], fs[pathp], h;
        assert here[|here| - 1] == f && here[..|here| - 1] == fs[..pathp];
        LastFrame(h, here, s, t);
        SiblingThere(f, s, t);
        StepRaised(f, fs[..pathp], s, t);
        var cnode, done := RemoveUp(path[pathp], cmps[pathp] < 0, path[pathp + 1], f, s, t);
        ghost var u := RemoveStep(f, t).tree;
        ClimbOn(hb, h, here, s, t, u);
        Within(h0, hb, h, Ids(u), all);
        s, t := Fill(f, s), u;
        assert Ids(Plug(fs[..pathp], t)) <= all;
        path := path[pathp := cnode];
        if done {
          ghost var hc := h;
          ClimbGood(h, fs[..pathp], s, t);
          Hang(path, cmps, pathp, cnode, fs[..pathp], s, t);
          WayWithin(fs[..pathp], t, all);
          Within(h0, hc, h, WayIds(fs[..pathp]), all);
          StillGood(fs[..pathp], s, t);
          return;
        }
        pathp := pathp - 1;
      }
      root := path[0];
      assert fs[..0] == [];
      Lowered(h, s, t);
    }

    // node, at nodep of the path, and its successor at the end of it change places and colours.
    method Exchange(path: seq<nat>, cmps: seq<int>, nodep: nat, pathp: nat, ghost fs: seq<Frame>)
      requires Valid() && Way(h, fs) && Plug(fs, Leaf) == tree && LeftAfter(fs, nodep) && fs[0].at == root
      requires nodep < pathp == |fs| - 1 && |fs| <= |cmps| && |fs| <= |path| && Aligned(path, cmps, fs, |fs|)
      modifies this`h, this`root
      ensures Sized(h, |key|) && NilOk(h) && OnlyAt(old(h), h, Ids(tree))
      ensures var node, rest := fs[nodep].at, Renamed(fs[..pathp], nodep, fs[pathp].at);
              && Way(h, rest) && node < |key| && h.red[node] == fs[pathp].red && rest[0].at == root
              && SameShape(tree, Plug(rest, Node(Leaf, node, fs[pathp].red, Leaf)))
              && Added(InOrder(Plug(rest, Leaf)), InOrder(tree), node) && Sorted(key, InOrder(Plug(rest, Leaf)))
              && Ids(Plug(rest, Leaf)) <= Ids(tree)
    {
      hide Rep, Distinct, Ids, OnlyAt, Way, WayIds, WayDistinct, Plug, Good, InOrder, Sorted, Added, NilOk, LeftAfter,
           SameShape, FrameAt;
      ghost var h0, x, node := h, fs[pathp].at, fs[nodep].at;
      AfterExchange(h, key, fs, nodep, tree);
      WayTake(h, fs, pathp);
      FieldsOnWay(h, fs, pathp);
      FieldsOnWay(h, fs, nodep);
      InKey(h, fs[pathp], |key|);
      InKey(h, fs[nodep], |key|);
      ExchangeWay(h, fs[..pathp], nodep, x, |key|);
      Shrunk(fs, nodep, pathp, tree, key);
      OnlyMore(h, Relinked(h, fs[..pathp], nodep, x), Touches(fs[..nodep + 1], x), Ids(tree));
      assert fs[..pathp][..nodep + 1] == fs[..nodep + 1];
      var succ, at := path[pathp], path[nodep];
      var tred := h.red[succ];
      h := SetRed(h, succ, h.red[at]);
      h := SetLeft(h, succ, h.left[at]);
      h := SetRight(h, succ, h.right[at]);
      h := SetRed(h, at, tred);
      if nodep == 0 {
        root := succ;
      } else if cmps[nodep - 1] < 0 {
        h := SetLeft(h, path[nodep - 1], succ);
      } else {
        h := SetRight(h, path[nodep - 1], succ);
      }
    }

    method Remove(node: nat)
      requires Valid() && node in InOrder(tree)
      modifies this`h, this`root, this`tree
      ensures Valid() && Added(InOrder(tree), old(InOrder(tree)), node)
      ensures OnlyAt(old(h), h, old(Ids(tree)))
    {
      hide Rep, Distinct, Ids, OnlyAt, Way, WayIds, Plug, Good, InOrder, Climbing, Sorted, Before, After, Added, Low,
           NilOk, LeftAfter, SameShape, FrameAt;
      ghost var h0, all, t0 := h, Ids(tree), tree;
      var path: seq<nat>, cmps: seq<int>, nodep: nat, fs: seq<Frame> := WindRemove(node);
      var pathp := |cmps| - 1;
      FieldsOnWay(h, fs, nodep);
      InKey(h, fs[nodep], |key|);
      ghost var rest, s := fs[..pathp], Node(Leaf, node, fs[pathp].red, Leaf);
      LeafFacts(h, key, node);
      OnlySelf(h, all);
      if pathp != nodep {
        assert path[pathp] != node by { NotTheNode(fs, nodep, t0, key); }
      }
      if path[pathp] != node {
        Exchange(path, cmps, nodep, pathp, fs);
        rest := Renamed(fs[..pathp], nodep, fs[pathp].at);
        path := path[nodep := path[pathp]][pathp := node];
      } else {
        EndGoesRight(fs, nodep);
        AtEnd(h, key, fs, t0);
        LinksOfEnd(h, fs[pathp], node);
        var left := h.left[node];
        if left != NIL {
          ghost var l := fs[pathp].other;
          SpliceGood(rest, fs[pathp]);
          SpliceWay(h, key, rest, fs[pathp], t0, |key|);
          h := SetRed(h, left, false);
          ghost var hl := h;
          Hang(path, cmps, pathp, left, rest, Fill(fs[pathp], Leaf), Black(l));
          WayWithin(rest, l, all);
          Spliced(h0, hl, h, rest, l, all);
          tree := Plug(rest, Black(l));
          return;
        } else if pathp == 0 {
          root := NIL;
          tree := Leaf;
          assert Plug(rest, Leaf) == Leaf by { PlugNone(rest); }
          return;
        }
      }
      LeafFacts(h, key, node);
      CutLeaf(h, key, rest, s, Leaf, t0);
      if h.red[path[pathp]] {
        // A red leaf is a left child; nothing else changes.
        ghost var hr := h;
        Hang(path, cmps, pathp, NIL, rest, s, Leaf);
        WayWithin(rest, Leaf, all);
        OnlyMore(hr, h, WayIds(rest), all);
        Within(h0, hr, h, all, all);
        StillGood(rest, s, Leaf);
        tree := Plug(rest, Leaf);
        return;
      }
      path := path[pathp := NIL];
      ghost var hb := h;
      Unwind(path, cmps, pathp, rest, s, all);
      ghost var u: Tree :| Rep(h, u) && root == Root(u) && Good(u) && !IsRed(u)
          && InOrder(u) == InOrder(Plug(rest, Leaf));
      tree := u;
      Within(h0, hb, h, all, all);
    }

    // What a search holds: the nodes before, below and after the current one.
    ghost predicate Searching(b: seq<nat>, cur: Tree, a: seq<nat>, k: int)
      reads this
    {
      InOrder(tree) == b + InOrder(cur) + a && Rep(h, cur) && Under(key, b, k) && Over(key, a, k)
    }

    lemma SearchStep(b: seq<nat>, cur: Tree, a: seq<nat>, k: int)
      requires Valid() && Searching(b, cur, a, k) && cur.Node?
      ensures cur.at < |key| && cur.at < |h.left| && cur.at < |h.right| && h.left[cur.at] == Root(cur.left)
      ensures h.right[cur.at] == Root(cur.right)
      ensures k < key[cur.at] ==> Searching(b, cur.left, [cur.at] + InOrder(cur.right) + a, k)
      ensures k > key[cur.at] ==> Searching(b + InOrder(cur.left) + [cur.at], cur.right, a, k)
      ensures k == key[cur.at] ==> Under(key, b + InOrder(cur.left), k) && Over(key, InOrder(cur.right) + a, k)
      ensures InOrder(tree) == (b + InOrder(cur.left)) + ([cur.at] + (InOrder(cur.right) + a))
      ensures (Root(cur.left) == NIL <==> cur.left.Leaf?) && (Root(cur.right) == NIL <==> cur.right.Leaf?)
    {
      hide Sorted, InOrder, Good, NilOk, Under, Over, Rep;
      FieldsOf(h, cur);
      InOrderNode(cur);
      InRange(h, cur, |key|);
      assert cur.at in InOrder(cur);
      SplitKeys(key, b, InOrder(cur.left), cur.at, InOrder(cur.right), a, k);
      assert InOrder(tree) == (b + InOrder(cur.left) + [cur.at]) + InOrder(cur.right) + a;
      LeafIs(h, cur.left);
      LeafIs(h, cur.right);
    }

    lemma SearchEnd(b: seq<nat>, a: seq<nat>, k: int)
      requires Searching(b, Leaf, a, k)
      ensures InOrder(tree) == b + a && Under(key, b, k) && Over(key, a, k)
    { }

    lemma SearchStart(k: int)
      requires Valid()
      ensures Searching([], tree, [], k) && (root == NIL <==> tree.Leaf?)
    {
      assert [] + InOrder(tree) + [] == InOrder(tree);
    }

    // rb search: the node with this key, if there is one.
    method Search(k: int) returns (ret: nat)
      requires Valid()
      ensures ret == NIL ==> forall x :: x in InOrder(tree) ==> x < |key| && key[x] != k
      ensures ret != NIL ==> ret in InOrder(tree) && ret < |key| && key[ret] == k
    {
      hide Sorted, InOrder, Good, NilOk, Rep;
      ghost var b: seq<nat>, cur, a: seq<nat> := [], tree, [];
      ret := root;
      SearchStart(k);
      LeafIs(h, cur);
      while ret != NIL
        invariant Searching(b, cur, a, k) && ret == Root(cur) && (ret == NIL <==> cur.Leaf?)
        decreases cur
      {
        SearchStep(b, cur, a, k);
        if k == key[ret] {
          return;
        } else if k < key[ret] {
          a, cur := [cur.at] + InOrder(cur.right) + a, cur.left;
          ret := h.left[ret];
        } else {
          b, cur := b + InOrder(cur.left) + [cur.at], cur.right;
          ret := h.right[ret];
        }
        LeafIs(h, cur);
      }
      LeafFacts(h, key, NIL);
    }

    // rb nsearch: the node with the least key that is not below k.
    method NSearch(k: int) returns (ret: nat)
      requires Valid()
      ensures Cut(key, InOrder(tree), ret, k)
    {
      hide Sorted, InOrder, Good, NilOk, Rep, Under, Over, Cut, Searching;
      ghost var b: seq<nat>, cur, a: seq<nat> := [], tree, [];
      var tnode := root;
      ret := NIL;
      SearchStart(k);
      while tnode != NIL
        invariant Searching(b, cur, a, k) && tnode == Root(cur) && (tnode == NIL <==> cur.Leaf?)
        invariant ret == if a == [] then NIL else a[0]
        decreases cur
      {
        SearchStep(b, cur, a, k);
        if k < key[tnode] {
          ret := tnode;
          a, cur := [cur.at] + InOrder(cur.right) + a, cur.left;
          tnode := h.left[tnode];
        } else if k > key[tnode] {
          b, cur := b + InOrder(cur.left) + [cur.at], cur.right;
          tnode := h.right[tnode];
        } else {
          ret := tnode;
          CutHere(key, InOrder(tree), b + InOrder(cur.left), ret, InOrder(cur.right) + a, k);
          return;
        }
      }
      SearchEnd(b, a, k);
      CutThere(key, InOrder(tree), b, a, ret, k);
    }

    // rb psearch: the node with the greatest key that is not above k.
    method PSearch(k: int) returns (ret: nat)
      requires Valid()
      ensures CutBack(key, InOrder(tree), ret, k)
    {
      hide Sorted, InOrder, Good, NilOk, Rep, Under, Over, CutBack, Searching;
      ghost var b: seq<nat>, cur, a: seq<nat> := [], tree, [];
      var tnode := root;
      ret := NIL;
      SearchStart(k);
      while tnode != NIL
        invariant Searching(b, cur, a, k) && tnode == Root(cur) && (tnode == NIL <==> cur.Leaf?)
        invariant ret == if b == [] then NIL else b[|b| - 1]
        decreases cur
      {
        SearchStep(b, cur, a, k);
        if k < key[tnode] {
          a, cur := [cur.at] + InOrder(cur.right) + a, cur.left;
          tnode := h.left[tnode];
        } else if k > key[tnode] {
          ret := tnode;
          b, cur := b + InOrder(cur.left) + [cur.at], cur.right;
          tnode := h.right[tnode];
        } else {
          ret := tnode;
          CutBackHere(key, InOrder(tree), b + InOrder(cur.left), ret, InOrder(cur.right) + a, k);
          return;
        }
      }
      SearchEnd(b, a, k);
      CutBackThere(key, InOrder(tree), b, a, ret, k);
    }

    // rb next: the node that follows in the order of the keys.
    method Next(node: nat) returns (ret: nat)
      requires Valid() && node in InOrder(tree)
      ensures Follows(InOrder(tree), node, ret)
    {
      hide Sorted, InOrder, Good, NilOk, Rep, Under, Over, Follows;
      InRange(h, tree, |key|);
      ghost var b0, t0, a0 := PlaceOf(h, tree, node);
      FieldsOf(h, t0);
      LeafIs(h, t0.right);
      InOrderNode(t0);
      LeafFacts(h, key, NIL);
      if h.right[node] != NIL {
        ret := FirstBelow(h.right[node], t0.right);
        FollowsHere(InOrder(tree), b0 + InOrder(t0.left), node, InOrder(t0.right) + a0, ret);
      } else {
        ghost var k := key[node];
        ghost var b: seq<nat>, cur, a: seq<nat> := [], tree, [];
        var tnode := root;
        ret := NIL;
        SearchStart(k);
        while true
          invariant Searching(b, cur, a, k) && tnode == Root(cur) && node in InOrder(cur)
          invariant ret == if a == [] then NIL else a[0]
          decreases cur
        {
          SomeNode(cur, node);
          SearchStep(b, cur, a, k);
          StaysOn(key, b, cur, a, node, k);
          if key[node] < key[tnode] {
            ret := tnode;
            a, cur := [cur.at] + InOrder(cur.right) + a, cur.left;
            tnode := h.left[tnode];
          } else if key[node] > key[tnode] {
            b, cur := b + InOrder(cur.left) + [cur.at], cur.right;
            tnode := h.right[tnode];
          } else {
            break;
          }
        }
        FieldsOf(h, cur);
        LeafIs(h, cur.right);
        FollowsHere(InOrder(tree), b + InOrder(cur.left), node, a, ret);
      }
    }

    // rbtn_first
    method FirstBelow(top: nat, ghost t: Tree) returns (ret: nat)
      requires Rep(h, t) && t.Node? && top == t.at && |h.left| > 0
      ensures InOrder(t) != [] && ret == InOrder(t)[0]
    {
      hide InOrder, Rep;
      ghost var cur, a: seq<nat> := t, [];
      ret := top;
      assert InOrder(cur) + a == InOrder(t);
      FieldsOf(h, cur);
      LeafIs(h, cur.left);
      while h.left[ret] != NIL
        invariant Rep(h, cur) && cur.Node? && ret == cur.at && InOrder(cur) + a == InOrder(t) && ret < |h.left|
        invariant h.left[ret] == Root(cur.left) && (h.left[ret] == NIL <==> cur.left.Leaf?)
        decreases cur
      {
        FieldsOf(h, cur);
        InOrderNode(cur);
        a, cur := [cur.at] + InOrder(cur.right) + a, cur.left;
        ret := h.left[ret];
        FieldsOf(h, cur);
        LeafIs(h, cur.left);
      }
      InOrderNode(cur);
      LeafFacts(h, [], NIL);
    }
  }
}
