// The nodes of a red-black tree in memory, and the trees they represent.
module RbNodes {
  import opened RedBlack

  // Address 0 is the tree's own nil node.
  const NIL := 0

  // The link fields of all nodes, by address.
  datatype Links = Links(left: seq<nat>, right: seq<nat>, red: seq<bool>)

  function SetLeft(h: Links, x: nat, y: nat): Links
    requires x < |h.left|
  {
    h.(left := h.left[x := y])
  }

  function SetRight(h: Links, x: nat, y: nat): Links
    requires x < |h.right|
  {
    h.(right := h.right[x := y])
  }

  function SetRed(h: Links, x: nat, c: bool): Links
    requires x < |h.red|
  {
    h.(red := h.red[x := c])
  }

  predicate Sized(h: Links, n: nat) { |h.left| == n && |h.right| == n && |h.red| == n && n > 0 }

  // The nil node is black and leads to itself.
  predicate NilOk(h: Links)
    requires |h.left| > 0 && |h.right| > 0 && |h.red| > 0
  {
    h.left[NIL] == NIL && h.right[NIL] == NIL && !h.red[NIL]
  }

  // rbtn_rotate_left; the new root of the subtree is the old right child.
  function RotateLeft(h: Links, x: nat): Links
    requires x < |h.left| && x < |h.right| && h.right[x] < |h.left|
  {
    var r := h.right[x];
    SetLeft(SetRight(h, x, h.left[r]), r, x)
  }

  // rbtn_rotate_right
  function RotateRight(h: Links, x: nat): Links
    requires x < |h.left| && x < |h.right| && h.left[x] < |h.right|
  {
    var r := h.left[x];
    SetRight(SetLeft(h, x, h.right[r]), r, x)
  }

  function Root(t: Tree): nat { if t.Leaf? then NIL else t.at }

  function Ids(t: Tree): set<nat>
  {
    if t.Leaf? then {} else Ids(t.left) + {t.at} + Ids(t.right)
  }

  predicate Distinct(t: Tree)
  {
    t.Node? ==>
      && t.at !in Ids(t.left) && t.at !in Ids(t.right) && Ids(t.left) !! Ids(t.right)
      && Distinct(t.left) && Distinct(t.right)
  }

  // The node at x has these fields.
  predicate Holds(h: Links, x: nat, l: nat, c: bool, r: nat)
  {
    0 < x < |h.left| && x < |h.right| && x < |h.red| && h.left[x] == l && h.red[x] == c && h.right[x] == r
  }

  predicate Rep(h: Links, t: Tree)
  {
    t.Node? ==> Holds(h, t.at, Root(t.left), t.red, Root(t.right)) && Rep(h, t.left) && Rep(h, t.right)
  }

  // Only these nodes may differ.
  ghost predicate OnlyAt(h: Links, h': Links, ids: set<nat>)
  {
    && |h'.left| == |h.left| && |h'.right| == |h.right| && |h'.red| == |h.red|
    && (forall x :: x !in ids ==> SameAt(h, h', x))
  }

  predicate SameAt(h: Links, h': Links, x: nat)
  {
    && (x < |h.left| && x < |h'.left| ==> h'.left[x] == h.left[x])
    && (x < |h.right| && x < |h'.right| ==> h'.right[x] == h.right[x])
    && (x < |h.red| && x < |h'.red| ==> h'.red[x] == h.red[x])
  }

  lemma OnlyTrans(h: Links, h1: Links, h2: Links, a: set<nat>, b: set<nat>)
    requires OnlyAt(h, h1, a) && OnlyAt(h1, h2, b)
    ensures OnlyAt(h, h2, a + b)
  {
    forall x | x !in a + b ensures SameAt(h, h2, x)
    {
      assert SameAt(h, h1, x) && SameAt(h1, h2, x);
    }
  }

  lemma {:induction false} RepFrame(h: Links, h': Links, t: Tree, ids: set<nat>)
    requires Rep(h, t) && OnlyAt(h, h', ids) && Ids(t) !! ids
    ensures Rep(h', t)
  {
    if t.Node? {
      assert t.at in Ids(t);
      assert SameAt(h, h', t.at);
      RepFrame(h, h', t.left, ids);
      RepFrame(h, h', t.right, ids);
    }
  }

  lemma {:induction false} RepValid(h: Links, t: Tree)
    requires Rep(h, t)
    ensures NIL !in Ids(t) && forall x :: x in Ids(t) ==> x < |h.left| && x < |h.right| && x < |h.red|
  {
    if t.Node? {
      RepValid(h, t.left);
      RepValid(h, t.right);
    }
  }

  // Recolouring the root.
  lemma RepRed(h: Links, t: Tree, c: bool)
    requires Rep(h, t) && t.Node? && Distinct(t)
    ensures t.at < |h.red| && Rep(SetRed(h, t.at, c), t.(red := c)) && OnlyAt(h, SetRed(h, t.at, c), {t.at})
  {
    var h' := SetRed(h, t.at, c);
    RepFrame(h, h', t.left, {t.at});
    RepFrame(h, h', t.right, {t.at});
  }

  // A new left subtree.
  lemma RepLeft(h: Links, t: Tree, l: Tree)
    requires t.Node? && 0 < t.at < |h.left| && Holds(h, t.at, h.left[t.at], t.red, Root(t.right))
    requires Rep(h, l) && Rep(h, t.right) && t.at !in Ids(l) && t.at !in Ids(t.right)
    ensures var h' := SetLeft(h, t.at, Root(l)); Rep(h', t.(left := l)) && OnlyAt(h, h', {t.at})
  {
    var h' := SetLeft(h, t.at, Root(l));
    RepFrame(h, h', l, {t.at});
    RepFrame(h, h', t.right, {t.at});
  }

  // A new right subtree.
  lemma RepRight(h: Links, t: Tree, r: Tree)
    requires t.Node? && t.at < |h.right| && Holds(h, t.at, Root(t.left), t.red, h.right[t.at])
    requires Rep(h, r) && Rep(h, t.left) && t.at !in Ids(r) && t.at !in Ids(t.left)
    ensures var h' := SetRight(h, t.at, Root(r)); Rep(h', t.(right := r)) && OnlyAt(h, h', {t.at})
  {
    var h' := SetRight(h, t.at, Root(r));
    RepFrame(h, h', r, {t.at});
    RepFrame(h, h', t.left, {t.at});
  }

  lemma RepRotateLeft(h: Links, t: Tree)
    requires Rep(h, t) && Distinct(t) && t.Node? && t.right.Node?
    ensures t.at < |h.left| && t.at < |h.right| && h.right[t.at] == t.right.at < |h.left|
    ensures var h' := RotateLeft(h, t.at);
            var t' := Node(Node(t.left, t.at, t.red, t.right.left), t.right.at, t.right.red, t.right.right);
            Rep(h', t') && OnlyAt(h, h', {t.at, t.right.at}) && Distinct(t') && Ids(t') == Ids(t)
  {
    var h', touched := RotateLeft(h, t.at), {t.at, t.right.at};
    assert OnlyAt(h, h', touched);
    RepFrame(h, h', t.left, touched);
    RepFrame(h, h', t.right.left, touched);
    RepFrame(h, h', t.right.right, touched);
  }

  lemma RepRotateRight(h: Links, t: Tree)
    requires Rep(h, t) && Distinct(t) && t.Node? && t.left.Node?
    ensures t.at < |h.left| && t.at < |h.right| && h.left[t.at] == t.left.at < |h.right|
    ensures var h' := RotateRight(h, t.at);
            var t' := Node(t.left.left, t.left.at, t.left.red, Node(t.left.right, t.at, t.red, t.right));
            Rep(h', t') && OnlyAt(h, h', {t.at, t.left.at}) && Distinct(t') && Ids(t') == Ids(t)
  {
    var h', touched := RotateRight(h, t.at), {t.at, t.left.at};
    assert OnlyAt(h, h', touched);
    RepFrame(h, h', t.left.left, touched);
    RepFrame(h, h', t.left.right, touched);
    RepFrame(h, h', t.right, touched);
  }

  // ------------------------------------------------------------------- the way down in memory

  // The nodes of the first frames, but for the link along the way out of the last one.
  ghost predicate Way(h: Links, fs: seq<Frame>)
    decreases |fs|
  {
    fs != [] ==>
      var f := fs[|fs| - 1];
      && 0 < f.at < |h.left| && f.at < |h.right| && f.at < |h.red| && h.red[f.at] == f.red
      && (if f.goLeft then h.right[f.at] else h.left[f.at]) == Root(f.other)
      && Rep(h, f.other)
      && Way(h, fs[..|fs| - 1])
      && (|fs| > 1 ==> LinkOf(h, fs[|fs| - 2]) == f.at)
  }

  // Where the way leads out of a frame's node.
  function LinkOf(h: Links, f: Frame): nat
  {
    if f.goLeft then (if f.at < |h.left| then h.left[f.at] else NIL) else if f.at < |h.right| then h.right[f.at]
        else NIL
  }

  function WayIds(fs: seq<Frame>): set<nat>
    decreases |fs|
  {
    if fs == [] then {} else WayIds(fs[..|fs| - 1]) + {fs[|fs| - 1].at} + Ids(fs[|fs| - 1].other)
  }

  ghost predicate WayDistinct(fs: seq<Frame>)
    decreases |fs|
  {
    fs != [] ==>
      var f := fs[|fs| - 1];
      && f.at !in Ids(f.other) && Distinct(f.other) && f.at !in WayIds(fs[..|fs| - 1])
      && Ids(f.other) !! WayIds(fs[..|fs| - 1]) && WayDistinct(fs[..|fs| - 1])
  }

  lemma {:induction false} WayFrame(h: Links, h': Links, fs: seq<Frame>, ids: set<nat>)
    requires Way(h, fs) && OnlyAt(h, h', ids) && WayIds(fs) !! ids
    ensures Way(h', fs)
    decreases |fs|
  {
    if fs != [] {
      var f := fs[|fs| - 1];
      WayFrame(h, h', fs[..|fs| - 1], ids);
      RepFrame(h, h', f.other, ids);
      assert SameAt(h, h', f.at);
      if |fs| > 1 {
        assert fs[..|fs| - 1][|fs| - 2] == fs[|fs| - 2];
        assert SameAt(h, h', fs[|fs| - 2].at);
      }
    }
  }

  // The whole tree: the way, and the subtree its last link leads to.
  lemma {:induction false} WayRep(h: Links, fs: seq<Frame>, t: Tree)
    requires Way(h, fs) && Rep(h, t) && (fs != [] ==> LinkOf(h, fs[|fs| - 1]) == Root(t))
    ensures Rep(h, Plug(fs, t)) && Root(Plug(fs, t)) == if fs == [] then Root(t) else fs[0].at
    decreases |fs|
  {
    if fs != [] {
      var rest := fs[..|fs| - 1];
      if |fs| > 1 { assert rest[|rest| - 1] == fs[|fs| - 2]; }
      WayRep(h, rest, Fill(fs[|fs| - 1], t));
    }
  }

  lemma {:induction false} PlugIds(fs: seq<Frame>, t: Tree)
    ensures Ids(Plug(fs, t)) == WayIds(fs) + Ids(t)
    decreases |fs|
  {
    if fs != [] { PlugIds(fs[..|fs| - 1], Fill(fs[|fs| - 1], t)); }
  }

  lemma {:induction false} PlugDistinct(fs: seq<Frame>, t: Tree)
    ensures Distinct(Plug(fs, t)) <==> WayDistinct(fs) && Distinct(t) && Ids(t) !! WayIds(fs)
    decreases |fs|
  {
    if fs != [] { PlugDistinct(fs[..|fs| - 1], Fill(fs[|fs| - 1], t)); }
  }

  // One step further down.
  lemma WayDown(h: Links, fs: seq<Frame>, t: Tree, goLeft: bool) returns (f: Frame, t': Tree)
    requires Way(h, fs) && Rep(h, t) && t.Node? && (fs != [] ==> LinkOf(h, fs[|fs| - 1]) == Root(t))
    ensures f == Frame(goLeft, t.at, t.red, if goLeft then t.right else t.left)
    ensures t' == if goLeft then t.left else t.right
    ensures Way(h, fs + [f]) && Rep(h, t') && LinkOf(h, f) == Root(t') && Plug(fs + [f], t') == Plug(fs, t)
    ensures Before(fs + [f]) == Before(fs) + (if goLeft then [] else InOrder(t.left) + [t.at])
    ensures After(fs + [f]) == (if goLeft then [t.at] + InOrder(t.right) else []) + After(fs)
  {
    f, t' := Frame(goLeft, t.at, t.red, if goLeft then t.right else t.left), if goLeft then t.left else t.right;
    assert (fs + [f])[..|fs|] == fs && (fs + [f])[|fs|] == f;
    assert fs != [] ==> (fs + [f])[|fs| - 1] == fs[|fs| - 1];
    assert Fill(f, t') == t;
  }

  lemma {:induction false} InOrderIds(t: Tree)
    ensures forall x :: x in Ids(t) <==> x in InOrder(t)
  {
    if t.Node? {
      InOrderIds(t.left);
      InOrderIds(t.right);
    }
  }

  // The comparison function, by a key in each node.
  predicate Less(key: seq<int>, x: nat, y: nat) { x < |key| && y < |key| && key[x] < key[y] }

  predicate Sorted(key: seq<int>, s: seq<nat>)
  {
    forall i, j :: 0 <= i < j < |s| ==> Less(key, s[i], s[j])
  }

  lemma SortedParts(key: seq<int>, a: seq<nat>, b: seq<nat>)
    ensures Sorted(key, a + b) <==> Sorted(key, a) && Sorted(key, b) && forall x, y :: x in a && y in b ==>
              Less(key, x, y)
  {
    if Sorted(key, a + b) {
      forall i, j | 0 <= i < j < |a| ensures Less(key, a[i], a[j]) { assert (a + b)[i] == a[i] && (a + b)[j] == a[j]; }
      forall i, j | 0 <= i < j < |b|
        ensures Less(key, b[i], b[j])
      {
        assert (a + b)[|a| + i] == b[i] && (a + b)[|a| + j] == b[j];
      }
      forall x, y | x in a && y in b ensures Less(key, x, y)
      {
        var i :| 0 <= i < |a| && a[i] == x;
        var j :| 0 <= j < |b| && b[j] == y;
        assert (a + b)[i] == x && (a + b)[|a| + j] == y;
      }
    }
  }

  lemma {:induction false} SortedDistinct(key: seq<int>, t: Tree)
    requires Sorted(key, InOrder(t))
    ensures Distinct(t)
  {
    if t.Node? {
      SortedParts(key, InOrder(t.left) + [t.at], InOrder(t.right));
      SortedParts(key, InOrder(t.left), [t.at]);
      SortedDistinct(key, t.left);
      SortedDistinct(key, t.right);
      InOrderIds(t.left);
      InOrderIds(t.right);
      assert t.at in InOrder(t.left) + [t.at];
      forall x | x in Ids(t.left) ensures x !in Ids(t.right) { assert x in InOrder(t.left) + [t.at]; }
    }
  }

  // Only one side of a tree changed.
  lemma RepInLeft(h: Links, h': Links, t: Tree, l: Tree)
    requires Rep(h, t) && t.Node? && Distinct(t) && OnlyAt(h, h', Ids(t.left)) && Rep(h', l) && Root(l) == Root(t.left)
    requires Ids(l) == Ids(t.left) && Distinct(l)
    ensures Rep(h', t.(left := l)) && Distinct(t.(left := l)) && Ids(t.(left := l)) == Ids(t)
  {
    RepFrame(h, h', t.right, Ids(t.left));
    assert SameAt(h, h', t.at);
  }

  lemma RepInRight(h: Links, h': Links, t: Tree, r: Tree)
    requires Rep(h, t) && t.Node? && Distinct(t) && OnlyAt(h, h', Ids(t.right)) && Rep(h', r)
    requires Root(r) == Root(t.right)
    requires Ids(r) == Ids(t.right) && Distinct(r)
    ensures Rep(h', t.(right := r)) && Distinct(t.(right := r)) && Ids(t.(right := r)) == Ids(t)
  {
    RepFrame(h, h', t.left, Ids(t.right));
    assert SameAt(h, h', t.at);
  }

  lemma OnlyMore(h: Links, h': Links, a: set<nat>, b: set<nat>)
    requires OnlyAt(h, h', a) && a <= b
    ensures OnlyAt(h, h', b)
  { }

  lemma RedIs(h: Links, t: Tree)
    requires Rep(h, t) && |h.left| > 0 && |h.right| > 0 && |h.red| > 0 && NilOk(h)
    ensures Root(t) < |h.red| && h.red[Root(t)] == IsRed(t)
  { }

  // What a frame says about its node, whatever its link along the way.
  predicate FrameAt(h: Links, f: Frame)
  {
    && 0 < f.at < |h.left| && f.at < |h.right| && f.at < |h.red| && h.red[f.at] == f.red
    && (if f.goLeft then h.right[f.at] else h.left[f.at]) == Root(f.other)
    && Rep(h, f.other)
  }

  function Linked(h: Links, f: Frame, y: nat): Links
    requires f.at < |h.left| && f.at < |h.right|
  {
    if f.goLeft then SetLeft(h, f.at, y) else SetRight(h, f.at, y)
  }

  // Setting the link along the way.
  lemma RepFill(h: Links, f: Frame, t: Tree)
    requires FrameAt(h, f) && Rep(h, t) && Distinct(Fill(f, t))
    ensures Rep(Linked(h, f, Root(t)), Fill(f, t)) && OnlyAt(h, Linked(h, f, Root(t)), {f.at})
  {
    if f.goLeft {
      RepLeft(h, Node(t, f.at, f.red, f.other), t);
    } else {
      RepRight(h, Node(f.other, f.at, f.red, t), t);
    }
  }

  // Recolouring one child of the root.
  lemma RepRedLeft(h: Links, t: Tree, c: bool)
    requires Rep(h, t) && t.Node? && t.left.Node? && Distinct(t)
    ensures t.left.at < |h.red|
    ensures var h', t' := SetRed(h, t.left.at, c), t.(left := t.left.(red := c));
            Rep(h', t') && Distinct(t') && Ids(t') == Ids(t) && OnlyAt(h, h', {t.left.at})
  {
    RepRed(h, t.left, c);
    OnlyMore(h, SetRed(h, t.left.at, c), {t.left.at}, Ids(t.left));
    RepInLeft(h, SetRed(h, t.left.at, c), t, t.left.(red := c));
  }

  lemma RepRedRight(h: Links, t: Tree, c: bool)
    requires Rep(h, t) && t.Node? && t.right.Node? && Distinct(t)
    ensures t.right.at < |h.red|
    ensures var h', t' := SetRed(h, t.right.at, c), t.(right := t.right.(red := c));
            Rep(h', t') && Distinct(t') && Ids(t') == Ids(t) && OnlyAt(h, h', {t.right.at})
  {
    RepRed(h, t.right, c);
    OnlyMore(h, SetRed(h, t.right.at, c), {t.right.at}, Ids(t.right));
    RepInRight(h, SetRed(h, t.right.at, c), t, t.right.(red := c));
  }
}
