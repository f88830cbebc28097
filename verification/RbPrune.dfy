// What removal does to the nodes: the rotations on the way up, and the exchange of a node
// with its successor.
module RbPrune {
  import opened RedBlack
  import opened RbNodes
  import opened RbSteps

  // The root's right subtree turns right, and then the root turns left.
  function TurnLeft(h: Links, x: nat): Links
    requires x < |h.left| && x < |h.right| && h.right[x] < |h.left| && h.right[x] < |h.right|
    requires h.left[h.right[x]] < |h.right| && h.left[h.right[x]] < |h.left|
  {
    var tnode := h.left[h.right[x]];
    var h2 := SetRight(RotateRight(h, h.right[x]), x, tnode);
    RotateLeft(h2, x)
  }

  lemma TurnedLeft(h: Links, t: Tree)
    requires Rep(h, t) && Distinct(t) && t.Node? && t.right.Node? && t.right.left.Node?
    ensures t.at < |h.left| && t.at < |h.right| && h.right[t.at] == t.right.at < |h.left| && t.right.at < |h.right|
    ensures h.left[t.right.at] == t.right.left.at < |h.right| && t.right.left.at < |h.left|
    ensures var r, h' := t.right, TurnLeft(h, t.at);
            var u := Node(Node(t.left, t.at, t.red, r.left.left), r.left.at, r.left.red,
                Node(r.left.right, r.at, r.red, r.right));
            Rep(h', u) && Distinct(u) && Ids(u) == Ids(t) && OnlyAt(h, h', Ids(t))
  {
    hide Rep, Distinct, OnlyAt, Ids;
    var r := t.right;
    FieldsOf(h, t);
    FieldsOf(h, r);
    FieldsOf(h, r.left);
    IdsOf(t);
    IdsOf(r);
    DistinctParts(t);
    RepRotateRight(h, r);
    var h1, r1 := RotateRight(h, r.at),
        Node(r.left.left, r.left.at, r.left.red, Node(r.left.right, r.at, r.red, r.right));
    OnlyMore(h, h1, {r.at, r.left.at}, Ids(r));
    NewRight(h, h1, t, r1);
    var h2, t2 := SetRight(h1, t.at, r1.at), t.(right := r1);
    FieldsOf(h2, t2);
    FieldsOf(h2, r1);
    RepRotateLeft(h2, t2);
    IdsOf(t2);
    Within(h, h2, RotateLeft(h2, t.at), {t.at, r1.at}, Ids(t));
  }

  // The right subtree was rebuilt, and is linked.
  lemma NewRight(h: Links, h': Links, t: Tree, r: Tree)
    requires Rep(h, t) && Distinct(t) && t.Node? && Rep(h', r) && Distinct(r) && Ids(r) == Ids(t.right)
    requires OnlyAt(h, h', Ids(t.right))
    ensures t.at < |h'.right|
    ensures var h2, t' := SetRight(h', t.at, Root(r)), t.(right := r);
            Rep(h2, t') && Distinct(t') && Ids(t') == Ids(t) && OnlyAt(h, h2, Ids(t))
  {
    FieldsOf(h, t);
    DistinctParts(t);
    RepFrame(h, h', t.left, Ids(t.right));
    assert SameAt(h, h', t.at);
    RepRight(h', t, r);
    IdsOf(t);
    OnlyMore(h, h', Ids(t.right), Ids(t));
    Within(h, h', SetRight(h', t.at, Root(r)), {t.at}, Ids(t));
  }

  // ------------------------------------------------- the deficient subtree is on the left

  // A red node over a black one with a red left child.
  lemma LeftRedTurn(h: Links, t: Tree)
    requires Rep(h, t) && Distinct(t) && t.Node? && t.right.Node? && t.right.left.Node?
    ensures t.at < |h.red|
    ensures var h1 := SetRed(h, t.at, false);
            && t.at < |h1.left| && t.at < |h1.right| && h1.right[t.at] == t.right.at < |h1.left|
            && t.right.at < |h1.right|
            && h1.left[t.right.at] == t.right.left.at < |h1.right| && t.right.left.at < |h1.left|
            && var h', r := TurnLeft(h1, t.at), t.right;
               var u := Node(Node(t.left, t.at, false, r.left.left), r.left.at, r.left.red,
                   Node(r.left.right, r.at, r.red, r.right));
               (Rep(h', u) && Distinct(u) && Ids(u) == Ids(t) && OnlyAt(h, h', Ids(t)))
  {
    hide Rep, Distinct, OnlyAt, Ids;
    FieldsOf(h, t);
    RepRed(h, t, false);
    RedIds(t, false);
    IdsOf(t);
    var h1, t1 := SetRed(h, t.at, false), t.(red := false);
    OnlyMore(h, h1, {t.at}, Ids(t));
    TurnedLeft(h1, t1);
    Within(h, h1, TurnLeft(h1, t.at), Ids(t), Ids(t));
  }

  lemma LeftBlackTurn(h: Links, t: Tree)
    requires Rep(h, t) && Distinct(t) && t.Node? && t.right.Node? && t.right.left.Node?
    ensures t.right.left.at < |h.red|
    ensures var h1 := SetRed(h, t.right.left.at, false);
            && t.at < |h1.left| && t.at < |h1.right| && h1.right[t.at] == t.right.at < |h1.left|
            && t.right.at < |h1.right|
            && h1.left[t.right.at] == t.right.left.at < |h1.right| && t.right.left.at < |h1.left|
            && var h', r := TurnLeft(h1, t.at), t.right;
               var u := Node(Node(t.left, t.at, t.red, r.left.left), r.left.at, false,
                   Node(r.left.right, r.at, r.red, r.right));
               (Rep(h', u) && Distinct(u) && Ids(u) == Ids(t) && OnlyAt(h, h', Ids(t)))
  {
    hide Rep, Distinct, OnlyAt, Ids;
    var r := t.right;
    FieldsOf(h, t);
    FieldsOf(h, r);
    FieldsOf(h, r.left);
    IdsOf(t);
    IdsOf(r);
    DistinctParts(t);
    RepRedLeft(h, r, false);
    var h1, r1 := SetRed(h, r.left.at, false), r.(left := r.left.(red := false));
    OnlyMore(h, h1, {r.left.at}, Ids(r));
    RepInRight(h, h1, t, r1);
    OnlyMore(h, h1, Ids(r), Ids(t));
    var t1 := t.(right := r1);
    TurnedLeft(h1, t1);
    Within(h, h1, TurnLeft(h1, t.at), Ids(t), Ids(t));
  }

  lemma TurnOver(h: Links, t: Tree)
    requires Rep(h, t) && Distinct(t) && t.Node? && t.right.Node?
    ensures t.at < |h.red| && t.at < |h.left| && t.at < |h.right| && h.right[t.at] == t.right.at < |h.left|
    ensures var h', r := RotateLeft(SetRed(h, t.at, true), t.at), t.right;
            var u := Node(Node(t.left, t.at, true, r.left), r.at, r.red, r.right);
            Rep(h', u) && Distinct(u) && Ids(u) == Ids(t) && OnlyAt(h, h', Ids(t))
  {
    hide Rep, Distinct, OnlyAt, Ids;
    FieldsOf(h, t);
    FieldsOf(h, t.right);
    RepRed(h, t, true);
    RedIds(t, true);
    IdsOf(t);
    var h1, t1 := SetRed(h, t.at, true), t.(red := true);
    OnlyMore(h, h1, {t.at}, Ids(t));
    RepRotateLeft(h1, t1);
    Within(h, h1, RotateLeft(h1, t.at), {t.at, t.right.at}, Ids(t));
  }

  lemma PlainLeft(h: Links, t: Tree)
    requires Rep(h, t) && Distinct(t) && t.Node? && t.right.Node?
    ensures t.at < |h.left| && t.at < |h.right| && h.right[t.at] == t.right.at < |h.left|
    ensures var h', r := RotateLeft(h, t.at), t.right;
            var u := Node(Node(t.left, t.at, t.red, r.left), r.at, r.red, r.right);
            Rep(h', u) && Distinct(u) && Ids(u) == Ids(t) && OnlyAt(h, h', Ids(t))
  {
    RepRotateLeft(h, t);
    IdsOf(t);
    OnlyMore(h, RotateLeft(h, t.at), {t.at, t.right.at}, Ids(t));
  }

  // ------------------------------------------------ the deficient subtree is on the right

  lemma PlainRight(h: Links, t: Tree)
    requires Rep(h, t) && Distinct(t) && t.Node? && t.left.Node?
    ensures t.at < |h.left| && t.at < |h.right| && h.left[t.at] == t.left.at < |h.right|
    ensures var h', l := RotateRight(h, t.at), t.left;
            var u := Node(l.left, l.at, l.red, Node(l.right, t.at, t.red, t.right));
            Rep(h', u) && Distinct(u) && Ids(u) == Ids(t) && OnlyAt(h, h', Ids(t))
  {
    RepRotateRight(h, t);
    IdsOf(t);
    OnlyMore(h, RotateRight(h, t.at), {t.at, t.left.at}, Ids(t));
  }

  // Twice right at the same node, and then left at the old left child.
  function TurnRight(h: Links, x: nat): Links
    requires x < |h.left| && x < |h.right| && h.left[x] < |h.right| && h.left[x] < |h.left|
    requires h.right[h.left[x]] < |h.right| && h.right[h.left[x]] < |h.left| && h.left[x] != x
    requires h.right[h.left[x]] != x
    requires h.left[x] != h.right[h.left[x]]
  {
    var unode := h.left[x];
    var tnode := h.right[unode];
    var h1 := RotateRight(h, x);
    var h2 := SetRight(RotateRight(h1, x), unode, tnode);
    RotateLeft(h2, unode)
  }

  lemma TurnedRight(h: Links, t: Tree)
    requires Rep(h, t) && Distinct(t) && t.Node? && t.left.Node? && t.left.right.Node?
    ensures t.at < |h.left| && t.at < |h.right| && h.left[t.at] == t.left.at < |h.right| && t.left.at < |h.left|
    ensures t.left.at != t.at
    ensures h.right[t.left.at] == t.left.right.at < |h.right| && t.left.right.at < |h.left| && t.left.right.at != t.at
    ensures t.left.at != t.left.right.at
    ensures var l, h' := t.left, TurnRight(h, t.at);
            var u := Node(Node(l.left, l.at, l.red, l.right.left), l.right.at, l.right.red,
                Node(l.right.right, t.at, t.red, t.right));
            Rep(h', u) && Distinct(u) && Ids(u) == Ids(t) && OnlyAt(h, h', Ids(t))
  {
    hide Rep, Distinct, OnlyAt, Ids;
    var l := t.left;
    FieldsOf(h, t);
    FieldsOf(h, l);
    FieldsOf(h, l.right);
    IdsOf(t);
    IdsOf(l);
    DistinctParts(t);
    DistinctParts(l);
    IdsOf(l.right);
    PlainRight(h, t);
    var h1, t1 := RotateRight(h, t.at), Node(l.left, l.at, l.red, Node(l.right, t.at, t.red, t.right));
    FieldsOf(h1, t1);
    FieldsOf(h1, t1.right);
    FieldsOf(h1, l.right);
    DistinctParts(t1);
    IdsOf(t1);
    PlainRight(h1, t1.right);
    var h2, r2 := RotateRight(h1, t.at),
        Node(l.right.left, l.right.at, l.right.red, Node(l.right.right, t.at, t.red, t.right));
    NewRight(h1, h2, t1, r2);
    var h3, t3 := SetRight(h2, l.at, l.right.at), t1.(right := r2);
    Within(h, h1, h3, Ids(t), Ids(t));
    FieldsOf(h3, t3);
    FieldsOf(h3, r2);
    PlainLeft(h3, t3);
    Within(h, h3, RotateLeft(h3, l.at), Ids(t), Ids(t));
  }

  lemma RightRedTurn(h: Links, t: Tree)
    requires Rep(h, t) && Distinct(t) && t.Node? && t.left.Node? && t.left.right.Node? && t.left.right.left.Node?
    ensures t.left.right.left.at < |h.red|
    ensures var h1, l := SetRed(h, t.left.right.left.at, false), t.left;
            && t.at < |h1.left| && t.at < |h1.right| && h1.left[t.at] == l.at < |h1.right| && l.at < |h1.left|
            && l.at != t.at
            && h1.right[l.at] == l.right.at < |h1.right| && l.right.at < |h1.left| && l.right.at != t.at
            && l.at != l.right.at
            && var h' := TurnRight(h1, t.at);
               var u := Node(Node(l.left, l.at, l.red, Black(l.right.left)), l.right.at, l.right.red,
                   Node(l.right.right, t.at, t.red, t.right));
               (Rep(h', u) && Distinct(u) && Ids(u) == Ids(t) && OnlyAt(h, h', Ids(t)))
  {
    hide Rep, Distinct, OnlyAt, Ids;
    var l := t.left;
    var lr := l.right;
    FieldsOf(h, t);
    FieldsOf(h, l);
    FieldsOf(h, lr);
    FieldsOf(h, lr.left);
    IdsOf(t);
    IdsOf(l);
    IdsOf(lr);
    DistinctParts(t);
    DistinctParts(l);
    RepRedLeft(h, lr, false);
    var h1, lr1 := SetRed(h, lr.left.at, false), lr.(left := Black(lr.left));
    OnlyMore(h, h1, {lr.left.at}, Ids(lr));
    RepInRight(h, h1, l, lr1);
    var l1 := l.(right := lr1);
    OnlyMore(h, h1, Ids(lr), Ids(l));
    RepInLeft(h, h1, t, l1);
    OnlyMore(h, h1, Ids(l), Ids(t));
    TurnedRight(h1, t.(left := l1));
    Within(h, h1, TurnRight(h1, t.at), Ids(t), Ids(t));
  }

  lemma RightRedPlain(h: Links, t: Tree)
    requires Rep(h, t) && Distinct(t) && t.Node? && t.left.Node? && t.left.right.Node?
    ensures t.left.right.at < |h.red| && t.left.at < |h.red| && t.at < |h.left| && t.at < |h.right|
    ensures h.left[t.at] == t.left.at < |h.right|
    ensures var h', l := SetRed(RotateRight(SetRed(h, t.left.right.at, true), t.at), t.left.at, false), t.left;
            var u := Node(l.left, l.at, false, Node(Red(l.right), t.at, t.red, t.right));
            Rep(h', u) && Distinct(u) && Ids(u) == Ids(t) && OnlyAt(h, h', Ids(t))
  {
    hide Rep, Distinct, OnlyAt, Ids;
    var l := t.left;
    FieldsOf(h, t);
    FieldsOf(h, l);
    FieldsOf(h, l.right);
    IdsOf(t);
    IdsOf(l);
    DistinctParts(t);
    RepRedRight(h, l, true);
    var h1, l1 := SetRed(h, l.right.at, true), l.(right := Red(l.right));
    OnlyMore(h, h1, {l.right.at}, Ids(l));
    RepInLeft(h, h1, t, l1);
    OnlyMore(h, h1, Ids(l), Ids(t));
    var t1 := t.(left := l1);
    PlainRight(h1, t1);
    var h2, u := RotateRight(h1, t.at), Node(l.left, l.at, l.red, Node(Red(l.right), t.at, t.red, t.right));
    Within(h, h1, h2, Ids(t), Ids(t));
    RepRed(h2, u, false);
    RedIds(u, false);
    Within(h, h2, SetRed(h2, l.at, false), {l.at}, Ids(t));
  }

  lemma RightBlackBoth(h: Links, t: Tree)
    requires Rep(h, t) && Distinct(t) && t.Node? && t.left.Node? && t.left.left.Node?
    ensures t.at < |h.red| && t.left.at < |h.red| && t.left.left.at < |h.red|
    ensures t.at < |h.left| && t.at < |h.right| && h.left[t.at] == t.left.at < |h.right|
    ensures var h', l :=
              RotateRight(SetRed(SetRed(SetRed(h, t.at, false), t.left.at, true), t.left.left.at, false), t.at), t.left;
            var u := Node(Black(l.left), l.at, true, Node(l.right, t.at, false, t.right));
            Rep(h', u) && Distinct(u) && Ids(u) == Ids(t) && OnlyAt(h, h', Ids(t))
  {
    hide Rep, Distinct, OnlyAt, Ids;
    var l := t.left;
    FieldsOf(h, t);
    FieldsOf(h, l);
    FieldsOf(h, l.left);
    IdsOf(t);
    RepRed(h, t, false);
    RedIds(t, false);
    var h1, t1 := SetRed(h, t.at, false), t.(red := false);
    OnlyMore(h, h1, {t.at}, Ids(t));
    RepRedLeft(h1, t1, true);
    var h2, t2 := SetRed(h1, l.at, true), t1.(left := l.(red := true));
    Within(h, h1, h2, {l.at}, Ids(t));
    FixFour(h2, t2);
    Within(h, h2, RotateRight(SetRed(h2, l.left.at, false), t.at), Ids(t), Ids(t));
  }

  lemma RightBlackSwap(h: Links, t: Tree, c: bool)
    requires Rep(h, t) && Distinct(t) && t.Node? && t.left.Node?
    ensures t.at < |h.red| && t.left.at < |h.red|
    ensures var h' := SetRed(SetRed(h, t.left.at, true), t.at, c);
            var u := Node(Red(t.left), t.at, c, t.right);
            Rep(h', u) && Distinct(u) && Ids(u) == Ids(t) && OnlyAt(h, h', Ids(t))
  {
    hide Rep, Distinct, OnlyAt, Ids;
    FieldsOf(h, t);
    FieldsOf(h, t.left);
    IdsOf(t);
    RepRedLeft(h, t, true);
    var h1, t1 := SetRed(h, t.left.at, true), t.(left := Red(t.left));
    OnlyMore(h, h1, {t.left.at}, Ids(t));
    RepRed(h1, t1, c);
    RedIds(t1, c);
    Within(h, h1, SetRed(h1, t.at, c), {t.at}, Ids(t));
  }

  // A right sibling is never red.
  lemma SiblingNotRed(f: Frame, s: Tree)
    requires Good(Fill(f, s))
    ensures f.goLeft ==> !IsRed(f.other)
  { }

  // The frame's node with the subtree linked, and what can be read there.
  lemma Attached(h: Links, f: Frame, t: Tree, n: nat)
    requires Sized(h, n) && NilOk(h) && FrameAt(h, f) && Rep(h, t) && Distinct(Fill(f, t)) && f.other.Node?
    ensures f.at < |h.left| && f.at < |h.right|
    ensures var h1, whole := Linked(h, f, Root(t)), Fill(f, t);
            && Rep(h1, whole) && OnlyAt(h, h1, Ids(whole)) && Sized(h1, n) && NilOk(h1)
            && |h1.left| == n && |h1.right| == n && |h1.red| == n && f.at < n && f.other.at < n
            && h1.left[f.at] == Root(whole.left) && h1.right[f.at] == Root(whole.right) && h1.red[f.at] == f.red
            && h1.left[f.other.at] == Root(f.other.left) < n && h1.right[f.other.at] == Root(f.other.right) < n
            && h1.red[f.other.at] == f.other.red && Rep(h1, f.other) && Rep(h1, f.other.left) && Rep(h1, f.other.right)
            && h1.red[Root(f.other.left)] == IsRed(f.other.left)
  {
    hide Rep, Distinct, Ids, OnlyAt;
    var h1, whole := Linked(h, f, Root(t)), Fill(f, t);
    RepFill(h, f, t);
    IdsOf(whole);
    OnlyMore(h, h1, {f.at}, Ids(whole));
    RepValid(h1, whole);
    KeepsNil(h, h1, Ids(whole), n);
    FieldsOf(h1, whole);
    FieldsOf(h1, f.other);
    RedIs(h1, f.other.left);
    RedIs(h1, f.other.right);
  }

  // --------------------------------------------------------------------- hanging a subtree

  lemma Hung(h: Links, fs: seq<Frame>, s: Tree, t: Tree, n: nat)
    requires Climbing(h, fs, s, t) && fs != [] && Sized(h, n) && NilOk(h)
    ensures fs[|fs| - 1].at < |h.left| && fs[|fs| - 1].at < |h.right|
    ensures var h', u := Linked(h, fs[|fs| - 1], Root(t)), Plug(fs, t);
            Rep(h', u) && Root(u) == fs[0].at && OnlyAt(h, h', WayIds(fs)) && Sized(h', n) && NilOk(h')
  {
    hide Rep, Distinct, Ids, OnlyAt, Way, Good;
    LastFrame(h, fs, s, t);
    var f, rest := fs[|fs| - 1], fs[..|fs| - 1];
    var h', u := Linked(h, f, Root(t)), Fill(f, t);
    RepFill(h, f, t);
    IdsOf(u);
    OnlyMore(h, h', {f.at}, Ids(u));
    assert !(|fs| > 1) || LinkOf(h', fs[|fs| - 2]) == f.at by { StillLinked(h, h', fs, s, t); }
    WayFrame(h, h', rest, Ids(u));
    if |fs| > 1 { assert rest[|rest| - 1] == fs[|fs| - 2] && rest[0] == fs[0]; }
    WayRep(h', rest, u);
    RepValid(h', Plug(rest, u));
    PlugIds(rest, u);
    assert f.at in WayIds(fs);
    OnlyMore(h, h', {f.at}, WayIds(fs));
    KeepsNil(h, h', {f.at}, n);
  }

  // --------------------------------------------------------------------- the way to remove

  lemma {:induction false} BlackLeaf(t: Tree)
    requires Good(t) && !IsRed(t) && BlackHeight(t) == 0
    ensures t == Leaf
  { }

  // The last frame on the way: a leaf, or a black node with a red leaf to its left.
  lemma LastLeaf(fs: seq<Frame>)
    requires fs != [] && Good(Plug(fs, Leaf))
    ensures var f, o := fs[|fs| - 1], fs[|fs| - 1].other;
            && Good(Fill(f, Leaf))
            && (f.goLeft ==> o == Leaf)
            && (!f.goLeft && o.Node? ==> !f.red && o == Node(Leaf, o.at, true, Leaf))
  {
    var f, o := fs[|fs| - 1], fs[|fs| - 1].other;
    PlugPart(fs[..|fs| - 1], Fill(f, Leaf));
    if f.goLeft {
      BlackLeaf(o);
    } else if o.Node? {
      if !o.red { BlackLeaf(o); }
      BlackLeaf(o.left);
      BlackLeaf(o.right);
    }
  }

  // From frame n on, the way always goes left.
  predicate LeftAfter(fs: seq<Frame>, n: nat)
  {
    n < |fs| && !fs[n].goLeft && forall k :: n < k < |fs| ==> fs[k].goLeft
  }

  function Renamed(fs: seq<Frame>, n: nat, x: nat): seq<Frame>
    requires n < |fs|
  {
    fs[n := fs[n].(at := x)]
  }

  lemma {:induction false} BeforeRenamed(fs: seq<Frame>, n: nat, x: nat)
    requires LeftAfter(fs, n)
    ensures Before(fs) == Before(fs[..n]) + InOrder(fs[n].other) + [fs[n].at]
    ensures Before(Renamed(fs, n, x)) == Before(fs[..n]) + InOrder(fs[n].other) + [x]
    ensures After(Renamed(fs, n, x)) == After(fs)
    decreases |fs|
  {
    var m := |fs| - 1;
    var fs' := Renamed(fs, n, x);
    if n < m {
      assert fs'[..m] == Renamed(fs[..m], n, x) && fs[..m][..n] == fs[..n] && fs'[m] == fs[m];
      BeforeRenamed(fs[..m], n, x);
    } else {
      assert fs'[..m] == fs[..m];
    }
  }

  predicate SameShape(t: Tree, u: Tree)
  {
    if t.Leaf? then u.Leaf?
    else u.Node? && t.red == u.red && SameShape(t.left, u.left) && SameShape(t.right, u.right)
  }

  lemma {:induction false} ShapeGood(t: Tree, u: Tree)
    requires SameShape(t, u)
    ensures Good(t) == Good(u) && BlackHeight(t) == BlackHeight(u) && IsRed(t) == IsRed(u)
  {
    if t.Node? {
      ShapeGood(t.left, u.left);
      ShapeGood(t.right, u.right);
    }
  }

  lemma {:induction false} ShapeSelf(t: Tree)
    ensures SameShape(t, t)
  {
    if t.Node? {
      ShapeSelf(t.left);
      ShapeSelf(t.right);
    }
  }

  lemma {:induction false} ShapePlug(fs: seq<Frame>, t: Tree, u: Tree)
    requires SameShape(t, u)
    ensures SameShape(Plug(fs, t), Plug(fs, u))
    decreases |fs|
  {
    if fs != [] {
      var f := fs[|fs| - 1];
      ShapeSelf(f.other);
      ShapePlug(fs[..|fs| - 1], Fill(f, t), Fill(f, u));
    }
  }

  lemma {:induction false} ShapeRenamed(fs: seq<Frame>, n: nat, x: nat, t: Tree, u: Tree)
    requires n < |fs| && SameShape(t, u)
    ensures SameShape(Plug(fs, t), Plug(Renamed(fs, n, x), u))
    decreases |fs|
  {
    var m := |fs| - 1;
    var fs' := Renamed(fs, n, x);
    ShapeSelf(fs[m].other);
    if n < m {
      assert fs'[..m] == Renamed(fs[..m], n, x) && fs'[m] == fs[m];
      ShapeRenamed(fs[..m], n, x, Fill(fs[m], t), Fill(fs'[m], u));
    } else {
      assert fs'[..m] == fs[..m];
      ShapePlug(fs[..m], Fill(fs[m], t), Fill(fs'[m], u));
    }
  }

  // ------------------------------------------------------ exchange with the successor

  // x takes the place of node, and node keeps x's colour.
  function Exchanged(h: Links, node: nat, x: nat): Links
    requires node < |h.left| && node < |h.right| && node < |h.red| && x < |h.left| && x < |h.right| && x < |h.red|
  {
    var tred := h.red[x];
    var h1 := SetRed(h, x, h.red[node]);
    var h2 := SetLeft(h1, x, h1.left[node]);
    SetRed(SetRight(h2, x, h2.right[node]), node, tred)
  }

  // The frame of the node that is exchanged, and those above it.
  lemma TopExchanged(h: Links, h': Links, fs: seq<Frame>, x: nat)
    requires fs != [] && Way(h, fs) && WayDistinct(fs) && !fs[|fs| - 1].goLeft && x !in WayIds(fs)
    requires 0 < x < |h'.left| && x < |h'.right| && x < |h'.red|
    requires var f := fs[|fs| - 1];
             h'.red[x] == f.red && h'.left[x] == Root(f.other) && OnlyAt(h, h', Touches(fs, x))
    requires |fs| > 1 ==> LinkOf(h', fs[|fs| - 2]) == x && SameBut(h, h', fs[|fs| - 2])
    ensures Way(h', Renamed(fs, |fs| - 1, x))
  {
    var m := |fs| - 1;
    var f, rest := fs[m], fs[..m];
    assert Renamed(fs, m, x)[..m] == rest;
    RepFrame(h, h', f.other, Touches(fs, x));
    if m > 0 {
      assert rest[|rest| - 1] == fs[m - 1];
      WayRelinked(h, h', rest, {f.at, x});
      assert Renamed(fs, m, x)[m - 1] == fs[m - 1];
    }
  }

  // What may change when x takes the place of the last frame's node.
  function Touches(fs: seq<Frame>, x: nat): set<nat>
    requires fs != []
  {
    {fs[|fs| - 1].at, x} + if |fs| > 1 then {fs[|fs| - 2].at} else {}
  }

  // Of a frame's node only the link along the way changed.
  predicate SameBut(h: Links, h': Links, f: Frame)
  {
    && f.at < |h.left| && f.at < |h.right| && f.at < |h.red|
    && |h'.left| == |h.left| && |h'.right| == |h.right| && |h'.red| == |h.red|
    && h'.red[f.at] == h.red[f.at]
    && (if f.goLeft then h'.right[f.at] == h.right[f.at] else h'.left[f.at] == h.left[f.at])
  }

  lemma WayRelinked(h: Links, h': Links, fs: seq<Frame>, ids: set<nat>)
    requires fs != [] && Way(h, fs) && WayDistinct(fs) && WayIds(fs) !! ids
    requires OnlyAt(h, h', ids + {fs[|fs| - 1].at}) && SameBut(h, h', fs[|fs| - 1])
    ensures Way(h', fs)
  {
    var m := |fs| - 1;
    var f, rest := fs[m], fs[..m];
    WayFrame(h, h', rest, ids + {f.at});
    RepFrame(h, h', f.other, ids + {f.at});
    if m > 0 {
      assert rest[|rest| - 1] == fs[m - 1];
      assert fs[m - 1].at in WayIds(rest);
      assert SameAt(h, h', fs[m - 1].at);
    }
  }

  lemma WayExtend(h: Links, fs: seq<Frame>)
    requires fs != [] && Way(h, fs[..|fs| - 1]) && FrameAt(h, fs[|fs| - 1])
    requires |fs| > 1 ==> LinkOf(h, fs[|fs| - 2]) == fs[|fs| - 1].at
    ensures Way(h, fs)
  { }

  lemma FrameMoved(h: Links, h': Links, f: Frame, ids: set<nat>)
    requires FrameAt(h, f) && OnlyAt(h, h', ids) && f.at !in ids && Ids(f.other) !! ids
    ensures FrameAt(h', f) && LinkOf(h', f) == LinkOf(h, f)
  {
    RepFrame(h, h', f.other, ids);
    assert SameAt(h, h', f.at);
  }

  lemma WayLast(h: Links, fs: seq<Frame>)
    requires fs != [] && Way(h, fs)
    ensures Way(h, fs[..|fs| - 1]) && FrameAt(h, fs[|fs| - 1])
    ensures (|fs| > 1 ==> LinkOf(h, fs[|fs| - 2]) == fs[|fs| - 1].at)
  { }

  // The frames below it stay as they are.
  lemma {:induction false} BelowExchanged(h: Links, h': Links, fs: seq<Frame>, n: nat, x: nat)
    requires n < |fs| && Way(h, fs) && WayDistinct(fs) && x !in WayIds(fs) && LeftAfter(fs, n)
    requires Way(h', Renamed(fs[..n + 1], n, x)) && OnlyAt(h, h', Touches(fs[..n + 1], x))
    requires x < |h'.right| && fs[n].at < |h.right| && h'.right[x] == h.right[fs[n].at]
    ensures Way(h', Renamed(fs, n, x))
    decreases |fs|
  {
    hide Way, OnlyAt, WayIds, FrameAt, Touches, Rep;
    var m := |fs| - 1;
    if n == m {
      assert fs[..n + 1] == fs;
    } else {
      var f, rest, fs' := fs[m], fs[..m], Renamed(fs, n, x);
      assert rest[..n + 1] == fs[..n + 1] && fs'[..m] == Renamed(rest, n, x) && fs'[m] == f && rest[n] == fs[n];
      WayLast(h, fs);
      TouchedAbove(fs, n, x);
      assert WayDistinct(rest) && x !in WayIds(rest) by { FewerIds(fs, x); }
      BelowExchanged(h, h', rest, n, x);
      FrameMoved(h, h', f, Touches(fs[..n + 1], x));
      if m - 1 > n {
        assert fs'[m - 1] == fs[m - 1] && rest[|rest| - 1] == fs[m - 1];
        TouchedAbove(rest, n, x);
        WayLast(h, rest);
        FrameMoved(h, h', fs[m - 1], Touches(fs[..n + 1], x));
      } else {
        assert fs'[m - 1] == fs[n].(at := x);
        SameSize(h, h', Touches(fs[..n + 1], x));
      }
      WayExtend(h', fs');
    }
  }

  lemma SameSize(h: Links, h': Links, ids: set<nat>)
    requires OnlyAt(h, h', ids)
    ensures |h'.left| == |h.left| && |h'.right| == |h.right|
  { }

  lemma FewerIds(fs: seq<Frame>, x: nat)
    requires fs != [] && WayDistinct(fs) && x !in WayIds(fs)
    ensures WayDistinct(fs[..|fs| - 1]) && x !in WayIds(fs[..|fs| - 1])
  { }

  lemma {:induction false} FrameIds(fs: seq<Frame>, k: nat)
    requires k < |fs|
    ensures fs[k].at in WayIds(fs)
    decreases |fs|
  {
    if k < |fs| - 1 { FrameIds(fs[..|fs| - 1], k); }
  }

  lemma TouchedAbove(fs: seq<Frame>, n: nat, x: nat)
    requires n + 1 < |fs| && WayDistinct(fs) && x !in WayIds(fs)
    ensures fs[|fs| - 1].at !in Touches(fs[..n + 1], x) && Ids(fs[|fs| - 1].other) !! Touches(fs[..n + 1], x)
  {
    var rest := fs[..|fs| - 1];
    FrameIds(rest, n);
    if n > 0 { FrameIds(rest, n - 1); }
  }

  // ------------------------------------------------------------------- searching the node

  lemma SomeNode(t: Tree, node: nat)
    requires node in InOrder(t)
    ensures t.Node?
  { }

  // The comparison leads to the side that holds the node.
  lemma Toward(key: seq<int>, tree: Tree, fs: seq<Frame>, t: Tree, node: nat)
    requires Plug(fs, t) == tree && t.Node? && Sorted(key, InOrder(tree)) && node in InOrder(t)
    requires forall x :: x in InOrder(tree) ==> x < |key|
    ensures node < |key| && t.at < |key|
    ensures key[node] < key[t.at] ==> node in InOrder(t.left)
    ensures key[node] > key[t.at] ==> node in InOrder(t.right)
    ensures key[node] == key[t.at] ==> node == t.at
  {
    hide Sorted, InOrder, Before, After, Plug;
    PlugInOrder(fs, t);
    InOrderNode(t);
    SortedParts(key, Before(fs) + InOrder(t), After(fs));
    SortedParts(key, Before(fs), InOrder(t));
    var l, r := InOrder(t.left), InOrder(t.right);
    SortedParts(key, l + [t.at], r);
    SortedParts(key, l, [t.at]);
    assert t.at in l + [t.at] && t.at in [t.at];
    assert t.at in InOrder(tree) && node in InOrder(tree);
  }

  lemma AtRoot(h: Links, fs: seq<Frame>, s: Tree, t: Tree)
    requires Climbing(h, fs, s, t) && fs == []
    ensures Rep(h, Plug(fs, t)) && Root(Plug(fs, t)) == Root(t)
  { }

  lemma StepRaised(f: Frame, rest: seq<Frame>, s: Tree, t: Tree)
    requires Good(Fill(f, s)) && Low(s, t) && f.other.Node? && (!f.goLeft && f.other.red ==> f.other.right.Node?)
    ensures Raised(f, s, RemoveStep(f, t))
    ensures InOrder(Plug(rest, RemoveStep(f, t).tree)) == InOrder(Plug(rest, Fill(f, t)))
    ensures Ids(RemoveStep(f, t).tree) == Ids(Fill(f, t)) ==>
              Ids(Plug(rest, RemoveStep(f, t).tree)) == Ids(Plug(rest, Fill(f, t)))
    ensures Ids(Fill(f, t)) <= Ids(Plug(rest, Fill(f, t)))
  {
    hide Good, Low, RemoveStep, InOrder, Ids, Plug;
    var u := RemoveStep(f, t).tree;
    if f.goLeft {
      RemoveLeftLow(f, s, t);
      RemoveLeftOrder(f, t);
    } else {
      RemoveRightLow(f, s, t);
      RemoveRightOrder(f, t);
    }
    PlugInOrder(rest, u);
    PlugInOrder(rest, Fill(f, t));
    PlugIds(rest, u);
    PlugIds(rest, Fill(f, t));
  }

  lemma WayWithin(fs: seq<Frame>, t: Tree, all: set<nat>)
    requires Ids(Plug(fs, t)) <= all
    ensures WayIds(fs) <= all
  {
    PlugIds(fs, t);
  }

  lemma StillGood(fs: seq<Frame>, s: Tree, t: Tree)
    requires Good(Plug(fs, s)) && !IsRed(Plug(fs, s)) && Good(t) && BlackHeight(t) == BlackHeight(s)
    requires (IsRed(t) ==> IsRed(s))
    ensures Good(Plug(fs, t)) && !IsRed(Plug(fs, t))
  {
    PlugGood(fs, s, t);
  }

  lemma Lowered(h: Links, s: Tree, t: Tree)
    requires Climbing(h, [], s, t) && Low(s, t)
    ensures Rep(h, t) && Good(t) && !IsRed(t) && Plug([], t) == t
  { }

  lemma ClimbGood(h: Links, fs: seq<Frame>, s: Tree, t: Tree)
    requires Climbing(h, fs, s, t)
    ensures Good(Plug(fs, s))
  { }

  lemma InRange(h: Links, t: Tree, n: nat)
    requires Rep(h, t) && Sized(h, n)
    ensures forall x :: x in InOrder(t) ==> 0 < x < n
  {
    RepValid(h, t);
    InOrderIds(t);
  }

  // --------------------------------------------------------------- the parts of a removal

  lemma {:induction false} WayTake(h: Links, fs: seq<Frame>, k: nat)
    requires k <= |fs| && Way(h, fs) && WayDistinct(fs)
    ensures Way(h, fs[..k]) && WayDistinct(fs[..k]) && WayIds(fs[..k]) <= WayIds(fs)
    decreases |fs|
  {
    if k < |fs| {
      assert fs[..|fs| - 1][..k] == fs[..k];
      WayTake(h, fs[..|fs| - 1], k);
    } else {
      assert fs[..k] == fs;
    }
  }

  // The links after the exchange, with x linked from above.
  function Relinked(h: Links, fs: seq<Frame>, n: nat, x: nat): Links
    requires n < |fs| && fs[n].at < |h.left| && fs[n].at < |h.right| && fs[n].at < |h.red| && x < |h.left|
    requires x < |h.right| && x < |h.red|
    requires n > 0 ==> fs[n - 1].at < |h.left| && fs[n - 1].at < |h.right|
  {
    var h1 := Exchanged(h, fs[n].at, x);
    if n == 0 then h1 else Linked(h1, fs[n - 1], x)
  }

  lemma RelinkedOnly(h: Links, fs: seq<Frame>, n: nat, x: nat, size: nat)
    requires n < |fs| && Sized(h, size) && 0 < fs[n].at < size && 0 < x < size && x != fs[n].at
    requires n > 0 ==> 0 < fs[n - 1].at < size && fs[n - 1].at != x && fs[n - 1].at != fs[n].at
    ensures var h', node := Relinked(h, fs, n, x), fs[n].at;
            && OnlyAt(h, h', Touches(fs[..n + 1], x)) && Sized(h', size) && (NilOk(h) ==> NilOk(h'))
            && h'.red[x] == h.red[node] && h'.left[x] == h.left[node] && h'.right[x] == h.right[node]
            && h'.red[node] == h.red[x]
            && (n > 0 ==> LinkOf(h', fs[n - 1]) == x && SameBut(h, h', fs[n - 1]))
  { }

  lemma ExchangeWay(h: Links, fs: seq<Frame>, n: nat, x: nat, size: nat)
    requires Way(h, fs) && WayDistinct(fs) && LeftAfter(fs, n) && x !in WayIds(fs) && 0 < x < size && Sized(h, size)
    ensures fs[n].at < size && (n > 0 ==> fs[n - 1].at < size)
    ensures var h' := Relinked(h, fs, n, x);
            && Way(h', Renamed(fs, n, x)) && OnlyAt(h, h', Touches(fs[..n + 1], x)) && Sized(h', size)
            && (NilOk(h) ==> NilOk(h'))
            && h'.red[fs[n].at] == h.red[x] && (n + 1 < |fs| || h'.right[x] == h.right[fs[n].at])
  {
    hide Way, OnlyAt, WayDistinct, SameBut, FrameAt, WayIds;
    var top := fs[..n + 1];
    WayTake(h, fs, n + 1);
    FieldsOnWay(h, fs, n);
    FrameIds(fs, n);
    if n > 0 {
      FieldsOnWay(h, fs, n - 1);
      FrameIds(fs, n - 1);
      ApartOnWay(fs, n);
    }
    RelinkedOnly(h, fs, n, x, size);
    var h' := Relinked(h, fs, n, x);
    OtherLink(h, top);
    TopExchanged(h, h', top, x);
    assert Renamed(top, n, x) == Renamed(fs[..n + 1], n, x);
    BelowExchanged(h, h', fs, n, x);
  }

  lemma OtherLink(h: Links, fs: seq<Frame>)
    requires fs != [] && Way(h, fs)
    ensures FrameAt(h, fs[|fs| - 1])
  { }

  lemma {:induction false} FieldsOnWay(h: Links, fs: seq<Frame>, k: nat)
    requires Way(h, fs) && k < |fs|
    ensures FrameAt(h, fs[k])
    decreases |fs|
  {
    if k < |fs| - 1 { FieldsOnWay(h, fs[..|fs| - 1], k); }
  }

  lemma {:induction false} ApartOnWay(fs: seq<Frame>, k: nat)
    requires WayDistinct(fs) && 0 < k < |fs|
    ensures fs[k - 1].at != fs[k].at
    decreases |fs|
  {
    if k < |fs| - 1 { ApartOnWay(fs[..|fs| - 1], k); } else { FrameIds(fs[..|fs| - 1], k - 1); }
  }

  // The sequence without the node, from the sequence with it.
  lemma TakenOut(key: seq<int>, old': seq<nat>, a: seq<nat>, node: nat, b: seq<nat>)
    requires Sorted(key, old') && old' == a + [node] + b
    ensures Added(a + b, old', node) && Sorted(key, a + b)
  {
    hide Sorted;
    AddedAt(a, b, node);
    SortedParts(key, a + [node], b);
    SortedParts(key, a, [node]);
    SortedParts(key, a, b);
    assert forall x :: x in a ==> x in a + [node];
  }

  // What stays when a black or red leaf is cut off the end of the way.
  lemma CutLeaf(h: Links, key: seq<int>, rest: seq<Frame>, s: Tree, t: Tree, whole: Tree)
    requires Way(h, rest) && Rep(h, t) && Good(whole) && !IsRed(whole) && SameShape(whole, Plug(rest, s))
    requires Sorted(key, InOrder(Plug(rest, t)))
    ensures Climbing(h, rest, s, t) && Good(Plug(rest, s)) && !IsRed(Plug(rest, s)) && Distinct(Plug(rest, t))
  {
    hide Sorted, Way, Rep;
    ShapeGood(whole, Plug(rest, s));
    SortedDistinct(key, Plug(rest, t));
  }

  // A removal that found the node at the end of the way.
  lemma AtEnd(h: Links, key: seq<int>, fs: seq<Frame>, tree: Tree)
    requires fs != [] && Way(h, fs) && Plug(fs, Leaf) == tree && Sorted(key, InOrder(tree)) && Good(tree)
    requires !IsRed(tree)
    requires !fs[|fs| - 1].goLeft
    ensures var f, rest := fs[|fs| - 1], fs[..|fs| - 1];
            && Plug(rest, Fill(f, Leaf)) == tree && Way(h, rest) && FrameAt(h, f) && Good(Fill(f, Leaf))
            && (f.other.Node? ==> !f.red && f.other == Node(Leaf, f.other.at, true, Leaf))
            && Added(InOrder(Plug(rest, f.other)), InOrder(tree), f.at) && Sorted(key, InOrder(Plug(rest, f.other)))
            && SameShape(tree, Plug(rest, Fill(f, Leaf))) && Ids(Plug(rest, f.other)) <= Ids(tree)
            && (rest != [] ==> rest[0] == fs[0])
  {
    hide Sorted, Good, SameShape, Added;
    var f, rest := fs[|fs| - 1], fs[..|fs| - 1];
    LastLeaf(fs);
    ShapeSelf(tree);
    PlugInOrder(rest, Fill(f, Leaf));
    PlugInOrder(rest, f.other);
    PlugIds(rest, f.other);
    PlugIds(rest, Fill(f, Leaf));
    var a, b := Before(rest) + InOrder(f.other), After(rest);
    assert InOrder(Fill(f, Leaf)) == InOrder(f.other) + [f.at];
    assert InOrder(tree) == a + [f.at] + b;
    TakenOut(key, InOrder(tree), a, f.at, b);
  }

  // A removal that exchanges the node with its successor at the end of the way.
  lemma AfterExchange(h: Links, key: seq<int>, fs: seq<Frame>, n: nat, tree: Tree)
    requires Plug(fs, Leaf) == tree && Sorted(key, InOrder(tree)) && Good(tree) && n + 1 < |fs| && LeftAfter(fs, n)
    ensures var m := |fs| - 1;
            var x, rest, node, c := fs[m].at, Renamed(fs[..m], n, fs[m].at), fs[n].at, fs[m].red;
            && SameShape(tree, Plug(rest, Node(Leaf, node, c, Leaf)))
            && Added(InOrder(Plug(rest, Leaf)), InOrder(tree), node) && Sorted(key, InOrder(Plug(rest, Leaf)))
            && WayDistinct(fs) && x !in WayIds(fs[..m]) && WayDistinct(fs[..m]) && LeftAfter(fs[..m], n)
  {
    hide Sorted, Good, SameShape, Added, InOrder, Before, After, WayDistinct, WayIds, Distinct;
    var m := |fs| - 1;
    var f, above := fs[m], fs[..m];
    var x, node := f.at, fs[n].at;
    var rest := Renamed(above, n, x);
    LastLeaf(fs);
    var s, s' := Fill(f, Leaf), Node(Leaf, node, f.red, Leaf);
    assert Plug(above, s) == tree;
    OneNode(x, node, f.red);
    ShapeRenamed(above, n, x, s, s');
    PlugInOrder(above, s);
    PlugInOrder(rest, Leaf);
    BeforeRenamed(above, n, x);
    assert above[..n] == fs[..n] && above[n] == fs[n];
    var a, b := Before(above[..n]) + InOrder(above[n].other), [x] + After(above);
    assert InOrder(tree) == a + [node] + b;
    assert InOrder(Plug(rest, Leaf)) == a + b;
    TakenOut(key, InOrder(tree), a, node, b);
    SortedDistinct(key, tree);
    PlugDistinct(fs, Leaf);
    ApartFromAbove(fs);
  }

  lemma OneNode(x: nat, y: nat, c: bool)
    ensures SameShape(Node(Leaf, x, c, Leaf), Node(Leaf, y, c, Leaf)) && InOrder(Node(Leaf, x, c, Leaf)) == [x]
    ensures InOrder(Leaf) == []
  { }

  lemma ApartFromAbove(fs: seq<Frame>)
    requires fs != [] && WayDistinct(fs)
    ensures fs[|fs| - 1].at !in WayIds(fs[..|fs| - 1]) && WayDistinct(fs[..|fs| - 1])
  { }

  lemma InKey(h: Links, f: Frame, n: nat)
    requires FrameAt(h, f) && Sized(h, n)
    ensures 0 < f.at < n && h.red[f.at] == f.red
  { }

  lemma Shrunk(fs: seq<Frame>, n: nat, m: nat, tree: Tree, key: seq<int>)
    requires n < m == |fs| - 1 && Plug(fs, Leaf) == tree
    requires Added(InOrder(Plug(Renamed(fs[..m], n, fs[m].at), Leaf)), InOrder(tree), fs[n].at)
    ensures Touches(fs[..n + 1], fs[m].at) <= Ids(tree)
    ensures Ids(Plug(Renamed(fs[..m], n, fs[m].at), Leaf)) <= Ids(tree)
  {
    hide Added, WayIds, Ids, InOrder, Plug;
    PlugIds(fs, Leaf);
    FrameIds(fs, m);
    FrameIds(fs, n);
    if n > 0 { FrameIds(fs, n - 1); }
    assert fs[..n + 1][|fs[..n + 1]| - 1] == fs[n];
    InOrderIds(tree);
    var u := Plug(Renamed(fs[..m], n, fs[m].at), Leaf);
    InOrderIds(u);
    AddedMembers(InOrder(u), InOrder(tree), fs[n].at);
  }

  lemma AddedMembers(s: seq<nat>, s': seq<nat>, x: nat)
    requires Added(s, s', x)
    ensures forall y :: y in s ==> y in s'
  {
    var i :| 0 <= i <= |s| && s' == s[..i] + [x] + s[i..];
    assert s == s[..i] + s[i..];
  }

  lemma LeafFacts(h: Links, key: seq<int>, node: nat)
    ensures Rep(h, Leaf) && Good(Leaf) && InOrder(Leaf) == [] && Sorted(key, []) && BlackHeight(Leaf) == 0
    ensures BlackHeight(Node(Leaf, node, true, Leaf)) == 0 && Low(Node(Leaf, node, false, Leaf), Leaf)
  { }

  lemma PlugNone(fs: seq<Frame>)
    requires fs == []
    ensures Plug(fs, Leaf) == Leaf
  { }

  lemma Spliced(h0: Links, h1: Links, h2: Links, rest: seq<Frame>, l: Tree, all: set<nat>)
    requires l.Node? && OnlyAt(h0, h1, {l.at}) && OnlyAt(h1, h2, WayIds(rest)) && Ids(Plug(rest, l)) <= all
    ensures OnlyAt(h0, h2, all)
  {
    PlugIds(rest, l);
    assert l.at in Ids(l);
    OnlyMore(h0, h1, {l.at}, all);
    Within(h0, h1, h2, WayIds(rest), all);
  }

  lemma NotTheNode(fs: seq<Frame>, n: nat, tree: Tree, key: seq<int>)
    requires n < |fs| - 1 && Plug(fs, Leaf) == tree && Sorted(key, InOrder(tree))
    ensures fs[|fs| - 1].at != fs[n].at
  {
    SortedDistinct(key, tree);
    PlugDistinct(fs, Leaf);
    FrameIds(fs[..|fs| - 1], n);
  }

  lemma EndGoesRight(fs: seq<Frame>, n: nat)
    requires LeftAfter(fs, n) && n == |fs| - 1
    ensures !fs[|fs| - 1].goLeft
  { }

  lemma LinksOfEnd(h: Links, f: Frame, node: nat)
    requires FrameAt(h, f) && !f.goLeft && f.at == node
    ensures node < |h.left| && h.left[node] == Root(f.other) && Rep(h, f.other)
    ensures (h.left[node] == NIL <==> f.other.Leaf?)
  { }

  lemma SpliceGood(rest: seq<Frame>, f: Frame)
    requires !f.goLeft && !f.red && f.other.Node? && f.other == Node(Leaf, f.other.at, true, Leaf)
    requires Good(Plug(rest, Fill(f, Leaf))) && !IsRed(Plug(rest, Fill(f, Leaf)))
    ensures Good(Plug(rest, Black(f.other))) && !IsRed(Plug(rest, Black(f.other)))
    ensures InOrder(Plug(rest, Black(f.other))) == InOrder(Plug(rest, f.other))
  {
    PlugGood(rest, Fill(f, Leaf), Black(f.other));
    PlugInOrder(rest, Black(f.other));
    PlugInOrder(rest, f.other);
  }

  // The red left child is made black, to take the place of its parent.
  lemma SpliceWay(h: Links, key: seq<int>, rest: seq<Frame>, f: Frame, whole: Tree, n: nat)
    requires Way(h, rest) && FrameAt(h, f) && !f.goLeft && f.other.Node?
    requires f.other == Node(Leaf, f.other.at, true, Leaf) && Sized(h, n) && NilOk(h)
    requires whole == Plug(rest, Fill(f, Leaf)) && Good(whole) && Sorted(key, InOrder(Plug(rest, f.other)))
    ensures f.other.at < |h.red|
    ensures var h' := SetRed(h, f.other.at, false);
            && Climbing(h', rest, Fill(f, Leaf), Black(f.other)) && Sized(h', n) && NilOk(h')
            && OnlyAt(h, h', {f.other.at})
  {
    hide Way, Sorted, Good, Plug;
    var l := f.other;
    SortedDistinct(key, Plug(rest, l));
    PlugDistinct(rest, l);
    PlugDistinct(rest, Black(l));
    RepRed(h, l, false);
    WayFrame(h, SetRed(h, l.at, false), rest, {l.at});
  }

  // ------------------------------------------------------------------------------ searches

  predicate Under(key: seq<int>, s: seq<nat>, k: int) { forall x :: x in s ==> x < |key| && key[x] < k }

  predicate Over(key: seq<int>, s: seq<nat>, k: int) { forall x :: x in s ==> x < |key| && key[x] > k }

  // A node in the middle of a sorted sequence, and a key compared with its key.
  lemma SplitKeys(key: seq<int>, b: seq<nat>, l: seq<nat>, at: nat, r: seq<nat>, a: seq<nat>, k: int)
    requires Sorted(key, b + (l + [at] + r) + a) && at < |key| && Under(key, b, k) && Over(key, a, k)
    ensures k < key[at] ==> Over(key, [at] + r + a, k)
    ensures k > key[at] ==> Under(key, b + l + [at], k)
    ensures k == key[at] ==> Under(key, b + l, k) && Over(key, r + a, k)
  {
    hide Sorted;
    SortedParts(key, b + (l + [at] + r), a);
    SortedParts(key, b, l + [at] + r);
    SortedParts(key, l + [at], r);
    SortedParts(key, l, [at]);
    assert at in l + [at] && at in [at];
    assert forall x :: x in r ==> Less(key, at, x);
    assert forall x :: x in l ==> Less(key, x, at);
  }

  // ret is the first element of s whose key is not below k, or nil.
  ghost predicate Cut(key: seq<int>, s: seq<nat>, ret: nat, k: int)
  {
    exists i :: 0 <= i <= |s| && Under(key, s[..i], k) && NotUnder(key, s[i..], k) && ret == if i < |s| then s[i]
        else NIL
  }

  predicate NotUnder(key: seq<int>, s: seq<nat>, k: int) { forall x :: x in s ==> x < |key| && key[x] >= k }

  predicate NotOver(key: seq<int>, s: seq<nat>, k: int) { forall x :: x in s ==> x < |key| && key[x] <= k }

  lemma CutHere(key: seq<int>, s: seq<nat>, b: seq<nat>, at: nat, a: seq<nat>, k: int)
    requires s == b + ([at] + a) && at < |key| && key[at] == k && Under(key, b, k) && Over(key, a, k)
    ensures Cut(key, s, at, k)
  {
    assert s[..|b|] == b && s[|b|..] == [at] + a;
  }

  lemma CutThere(key: seq<int>, s: seq<nat>, b: seq<nat>, a: seq<nat>, ret: nat, k: int)
    requires s == b + a && Under(key, b, k) && Over(key, a, k) && ret == if a == [] then NIL else a[0]
    ensures Cut(key, s, ret, k)
  {
    assert s[..|b|] == b && s[|b|..] == a;
  }

  // ret is the last element of s whose key is not above k, or nil.
  ghost predicate CutBack(key: seq<int>, s: seq<nat>, ret: nat, k: int)
  {
    exists i :: 0 <= i <= |s| && NotOver(key, s[..i], k) && Over(key, s[i..], k) && ret == if i > 0 then s[i - 1]
        else NIL
  }

  lemma CutBackHere(key: seq<int>, s: seq<nat>, b: seq<nat>, at: nat, a: seq<nat>, k: int)
    requires s == b + ([at] + a) && at < |key| && key[at] == k && Under(key, b, k) && Over(key, a, k)
    ensures CutBack(key, s, at, k)
  {
    var i := |b| + 1;
    assert s[..i] == b + [at] && s[i..] == a && s[i - 1] == at;
  }

  lemma CutBackThere(key: seq<int>, s: seq<nat>, b: seq<nat>, a: seq<nat>, ret: nat, k: int)
    requires s == b + a && Under(key, b, k) && Over(key, a, k) && ret == if b == [] then NIL else b[|b| - 1]
    ensures CutBack(key, s, ret, k)
  {
    assert s[..|b|] == b && s[|b|..] == a;
  }

  // The node that is looked for stays below the way.
  lemma StaysOn(key: seq<int>, b: seq<nat>, t: Tree, a: seq<nat>, node: nat, k: int)
    requires t.Node? && node in InOrder(t) && Sorted(key, b + InOrder(t) + a) && node < |key| && key[node] == k
    requires t.at < |key|
    ensures k < key[t.at] ==> node in InOrder(t.left)
    ensures k > key[t.at] ==> node in InOrder(t.right)
    ensures k == key[t.at] ==> node == t.at
  {
    hide Sorted, InOrder;
    InOrderNode(t);
    var l, r := InOrder(t.left), InOrder(t.right);
    SortedParts(key, b + InOrder(t), a);
    SortedParts(key, b, InOrder(t));
    SortedParts(key, l + [t.at], r);
    SortedParts(key, l, [t.at]);
    assert t.at in l + [t.at] && t.at in [t.at];
  }

  // ret comes right after node in s, or is nil if node is the last.
  ghost predicate Follows(s: seq<nat>, node: nat, ret: nat)
  {
    exists i :: 0 <= i < |s| && s[i] == node && ret == if i + 1 < |s| then s[i + 1] else NIL
  }

  lemma FollowsHere(s: seq<nat>, b: seq<nat>, node: nat, a: seq<nat>, ret: nat)
    requires s == b + ([node] + a) && ret == if a == [] then NIL else a[0]
    ensures Follows(s, node, ret)
  {
    var i := |b|;
    assert s[i] == node && (a != [] ==> s[i + 1] == a[0]);
    assert ret == if i + 1 < |s| then s[i + 1] else NIL;
  }

  lemma {:induction false} PlaceOf(h: Links, t: Tree, node: nat) returns (b: seq<nat>, u: Tree, a: seq<nat>)
    requires Rep(h, t) && node in InOrder(t)
    ensures InOrder(t) == b + InOrder(u) + a && Rep(h, u) && u.Node? && u.at == node
  {
    if t.at == node {
      b, u, a := [], t, [];
    } else if node in InOrder(t.left) {
      b, u, a := PlaceOf(h, t.left, node);
      a := a + [t.at] + InOrder(t.right);
    } else {
      b, u, a := PlaceOf(h, t.right, node);
      b := InOrder(t.left) + [t.at] + b;
    }
  }
}
