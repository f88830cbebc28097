// Left-leaning red-black trees as values: what one step of the way up makes of a subtree
// after an insertion or a removal, and why it is balanced again.
module RedBlack {
  import opened Basics

  datatype Tree = Leaf | Node(left: Tree, at: nat, red: bool, right: Tree)

  predicate IsRed(t: Tree) { t.Node? && t.red }

  function BlackHeight(t: Tree): nat
  {
    if t.Leaf? then 0 else BlackHeight(t.left) + if t.red then 0 else 1
  }

  // No red right child, no two reds in a row, equal black heights.
  predicate Good(t: Tree)
  {
    t.Node? ==>
      && !IsRed(t.right) && (t.red ==> !IsRed(t.left))
      && Good(t.left) && Good(t.right) && BlackHeight(t.left) == BlackHeight(t.right)
  }

  // As good as can be with a red node over a red left child.
  predicate Near(t: Tree)
  {
    && t.Node? && t.red && !IsRed(t.right)
    && Good(t.left) && Good(t.right) && BlackHeight(t.left) == BlackHeight(t.right)
  }

  function InOrder(t: Tree): seq<nat>
  {
    if t.Leaf? then [] else InOrder(t.left) + [t.at] + InOrder(t.right)
  }

  function Black(t: Tree): Tree { if t.Leaf? then t else t.(red := false) }

  function Red(t: Tree): Tree { if t.Leaf? then t else t.(red := true) }

  function Height(t: Tree): nat
  {
    if t.Leaf? then 0 else 1 + if Height(t.left) > Height(t.right) then Height(t.left) else Height(t.right)
  }

  // Height is at most twice the logarithm of the size.
  lemma {:induction false} HeightBound(t: Tree)
    requires Good(t)
    ensures Height(t) <= 2 * BlackHeight(t) + (if IsRed(t) then 1 else 0)
    ensures |InOrder(t)| + 1 >= Power(BlackHeight(t))
  {
    if t.Node? {
      HeightBound(t.left);
      HeightBound(t.right);
    }
  }

  // ------------------------------------------------------------------------------- paths

  // One node on the way down: where the way went on, and the subtree on the other side.
  datatype Frame = Frame(goLeft: bool, at: nat, red: bool, other: Tree)

  function Fill(f: Frame, t: Tree): Tree
  {
    if f.goLeft then Node(t, f.at, f.red, f.other) else Node(f.other, f.at, f.red, t)
  }

  // The whole tree, from the first k nodes of the way down and what is below them.
  function Plug(fs: seq<Frame>, t: Tree): Tree
    decreases |fs|
  {
    if fs == [] then t else Plug(fs[..|fs| - 1], Fill(fs[|fs| - 1], t))
  }

  function Before(fs: seq<Frame>): seq<nat>
  {
    if fs == [] then []
    else
      var f := fs[|fs| - 1];
      Before(fs[..|fs| - 1]) + if f.goLeft then [] else InOrder(f.other) + [f.at]
  }

  function After(fs: seq<Frame>): seq<nat>
  {
    if fs == [] then []
    else
      var f := fs[|fs| - 1];
      (if f.goLeft then [f.at] + InOrder(f.other) else []) + After(fs[..|fs| - 1])
  }

  lemma {:induction false} PlugInOrder(fs: seq<Frame>, t: Tree)
    ensures InOrder(Plug(fs, t)) == Before(fs) + InOrder(t) + After(fs)
    decreases |fs|
  {
    if fs != [] {
      var f := fs[|fs| - 1];
      PlugInOrder(fs[..|fs| - 1], Fill(f, t));
    }
  }

  // A subtree of a good tree is good.
  lemma {:induction false} PlugPart(fs: seq<Frame>, t: Tree)
    requires Good(Plug(fs, t))
    ensures Good(t)
    decreases |fs|
  {
    if fs != [] { PlugPart(fs[..|fs| - 1], Fill(fs[|fs| - 1], t)); }
  }

  // A subtree can be exchanged for one of the same black height that is no redder.
  lemma {:induction false} PlugGood(fs: seq<Frame>, t: Tree, t': Tree)
    requires Good(Plug(fs, t)) && Good(t') && BlackHeight(t') == BlackHeight(t) && (IsRed(t') ==> IsRed(t))
    ensures Good(Plug(fs, t')) && (IsRed(Plug(fs, t')) ==> IsRed(Plug(fs, t)))
    decreases |fs|
  {
    if fs != [] {
      var f := fs[|fs| - 1];
      PlugPart(fs[..|fs| - 1], Fill(f, t));
      PlugGood(fs[..|fs| - 1], Fill(f, t), Fill(f, t'));
    }
  }

  lemma {:induction false} WayHeight(fs: seq<Frame>, t: Tree)
    ensures Height(Plug(fs, t)) >= |fs| + Height(t)
    decreases |fs|
  {
    if fs != [] { WayHeight(fs[..|fs| - 1], Fill(fs[|fs| - 1], t)); }
  }

  lemma {:induction false} PowerGrows(m: nat, n: nat)
    requires m <= n
    ensures Power(m) <= Power(n)
  {
    if m < n { PowerGrows(m, n - 1); }
  }

  // The path array of 16 entries per pointer byte is long enough for any number of nodes that
  // fits a 64-bit address space.
  lemma PathFits(fs: seq<Frame>, t: Tree)
    requires Good(Plug(fs, t)) && |InOrder(Plug(fs, t))| + 1 < Power(63)
    ensures |fs| + 1 < 8 * 16
  {
    var u := Plug(fs, t);
    HeightBound(u);
    WayHeight(fs, t);
    if BlackHeight(u) >= 63 { PowerGrows(63, BlackHeight(u)); }
  }

  // ---------------------------------------------------------------------------- insertion

  datatype Up = Up(tree: Tree, done: bool)

  // One step up after an insertion.
  function InsertStep(f: Frame, t: Tree): Up
  {
    if !IsRed(t) then Up(Fill(f, t), true)
    else if f.goLeft then
      if IsRed(t.left) then Up(Node(Black(t.left), t.at, t.red, Node(t.right, f.at, f.red, f.other)), false)
      else Up(Fill(f, t), false)
    else
      if IsRed(f.other) then Up(Node(Black(f.other), f.at, true, Black(t)), false)
      else Up(Node(Node(f.other, f.at, true, t.left), t.at, f.red, t.right), false)
  }

  // What stands for a subtree s after an insertion into it.
  predicate Grown(s: Tree, t: Tree)
  {
    BlackHeight(t) == BlackHeight(s) && (Good(t) || (IsRed(s) && Near(t)))
  }

  lemma InsertStepGrown(f: Frame, s: Tree, t: Tree)
    requires Good(Fill(f, s)) && Grown(s, t)
    ensures var u := InsertStep(f, t);
            Grown(Fill(f, s), u.tree) && (u.done ==> Good(u.tree) && u.tree == Fill(f, t))
  {
  }

  lemma InOrderTwo(a: Tree, x: nat, c: bool, b: Tree, y: nat, d: bool, e: Tree)
    ensures InOrder(Node(Node(a, x, c, b), y, d, e)) == InOrder(a) + [x] + InOrder(b) + [y] + InOrder(e)
    ensures InOrder(Node(a, x, c, Node(b, y, d, e))) == InOrder(a) + [x] + InOrder(b) + [y] + InOrder(e)
  {
    var l, r := Node(a, x, c, b), Node(b, y, d, e);
    assert InOrder(Node(l, y, d, e)) == InOrder(l) + [y] + InOrder(e);
    assert InOrder(Node(a, x, c, r)) == InOrder(a) + [x] + InOrder(r);
  }

  lemma Recolored(t: Tree)
    ensures InOrder(Black(t)) == InOrder(t) == InOrder(Red(t))
  { }

  lemma InsertStepOrder(f: Frame, t: Tree)
    ensures InOrder(InsertStep(f, t).tree) == InOrder(Fill(f, t))
  {
    if IsRed(t) && f.goLeft && IsRed(t.left) {
      Recolored(t.left);
      InOrderTwo(Black(t.left), t.at, t.red, t.right, f.at, f.red, f.other);
    } else if IsRed(t) && !f.goLeft && !IsRed(f.other) {
      InOrderTwo(f.other, f.at, true, t.left, t.at, f.red, t.right);
      InOrderTwo(f.other, f.at, f.red, t.left, t.at, t.red, t.right);
    }
  }

  // ------------------------------------------------------------------------------ removal

  // One step up after a removal that left t one black node too low.
  function RemoveStep(f: Frame, t: Tree): Up
    requires f.goLeft ==> f.other.Node?
    requires !f.goLeft ==> f.other.Node? && (f.other.red ==> f.other.right.Node?)
  {
    if f.goLeft then
      var r := f.other;
      if IsRed(r.left) then
        Up(Node(Node(t, f.at, false, r.left.left), r.left.at, f.red, Node(r.left.right, r.at, r.red, r.right)), true)
      else if f.red then Up(Node(Node(t, f.at, true, r.left), r.at, r.red, r.right), true)
      else Up(Node(Node(t, f.at, true, r.left), r.at, r.red, r.right), false)
    else
      var l := f.other;
      if l.red then
        var lr := l.right;
        if IsRed(lr.left) then
          Up(Node(Node(l.left, l.at, l.red, Black(lr.left)), lr.at, lr.red, Node(lr.right, f.at, f.red, t)), true)
        else
          Up(Node(l.left, l.at, false, Node(Red(lr), f.at, f.red, t)), true)
      else if f.red then
        if IsRed(l.left) then Up(Node(Black(l.left), l.at, true, Node(l.right, f.at, false, t)), true)
        else Up(Node(Red(l), f.at, false, t), true)
      else
        if IsRed(l.left) then Up(Node(Black(l.left), l.at, l.red, Node(l.right, f.at, f.red, t)), true)
        else Up(Node(Red(l), f.at, f.red, t), false)
  }

  // What stands for a black subtree s while one black node is missing in it.
  predicate Low(s: Tree, t: Tree)
  {
    Good(t) && !IsRed(t) && !IsRed(s) && BlackHeight(t) + 1 == BlackHeight(s)
  }

  lemma SiblingThere(f: Frame, s: Tree, t: Tree)
    requires Good(Fill(f, s)) && Low(s, t)
    ensures f.other.Node? && (!f.goLeft && f.other.red ==> f.other.right.Node?)
  {
  }

  lemma RemoveLeftLow(f: Frame, s: Tree, t: Tree)
    requires Good(Fill(f, s)) && Low(s, t) && f.goLeft && f.other.Node?
    ensures Raised(f, s, RemoveStep(f, t))
  {
    var r := f.other;
    assert Good(r);
    if IsRed(r.left) {
      assert Good(r.left);
      assert Good(r.left.left) && Good(r.left.right);
    }
  }

  lemma RemoveRightLow(f: Frame, s: Tree, t: Tree)
    requires Good(Fill(f, s)) && Low(s, t) && !f.goLeft && f.other.Node? && (f.other.red ==> f.other.right.Node?)
    ensures Raised(f, s, RemoveStep(f, t))
  {
    var l := f.other;
    assert Good(l);
    if l.red {
      var lr := l.right;
      assert Good(lr);
      assert Good(lr.left) && Good(lr.right);
      if IsRed(lr.left) { assert Good(lr.left.left) && Good(lr.left.right); }
    } else if IsRed(l.left) {
      assert Good(l.left);
      assert Good(l.left.left) && Good(l.left.right);
    }
  }

  predicate Raised(f: Frame, s: Tree, u: Up)
  {
    if u.done then Good(u.tree) && BlackHeight(u.tree) == BlackHeight(Fill(f, s)) && (IsRed(u.tree) ==> f.red)
    else Low(Fill(f, s), u.tree)
  }

  lemma RemoveLeftOrder(f: Frame, t: Tree)
    requires f.goLeft && f.other.Node?
    ensures InOrder(RemoveStep(f, t).tree) == InOrder(Fill(f, t))
  {
    hide InOrder;
    var u, o := RemoveStep(f, t).tree, f.other;
    if IsRed(o.left) {
      InOrderTwo(o.left.left, o.left.at, o.left.red, o.left.right, o.at, o.red, o.right);
      InOrderTwo(t, f.at, false, o.left.left, o.left.at, f.red, u.right);
      InOrderNode(u);
      InOrderNode(o.left);
      InOrderNode(o);
      InOrderNode(u.right);
      InOrderNode(Fill(f, t));
    } else {
      InOrderTwo(t, f.at, f.red, o.left, o.at, o.red, o.right);
      InOrderTwo(t, f.at, true, o.left, o.at, o.red, o.right);
    }
  }

  lemma InOrderNode(t: Tree)
    requires t.Node?
    ensures InOrder(t) == InOrder(t.left) + [t.at] + InOrder(t.right)
  { }

  lemma RemoveRightOrder(f: Frame, t: Tree)
    requires !f.goLeft && f.other.Node? && (f.other.red ==> f.other.right.Node?)
    ensures InOrder(RemoveStep(f, t).tree) == InOrder(Fill(f, t))
  {
    hide InOrder;
    var u, o := RemoveStep(f, t).tree, f.other;
    InOrderNode(Fill(f, t));
    InOrderNode(o);
    if o.red {
      var lr := o.right;
      Recolored(lr);
      InOrderTwo(o.left, o.at, o.red, lr, f.at, f.red, t);
      if IsRed(lr.left) {
        Recolored(lr.left);
        InOrderNode(lr);
        InOrderTwo(o.left, o.at, o.red, Black(lr.left), lr.at, lr.red, u.right);
        InOrderNode(u.right);
      } else {
        InOrderTwo(o.left, o.at, false, Red(lr), f.at, f.red, t);
      }
    } else {
      Recolored(o);
      Recolored(o.left);
      InOrderNode(u);
      if IsRed(o.left) {
        InOrderTwo(o.left, o.at, o.red, o.right, f.at, f.red, t);
        InOrderNode(u.right);
      }
    }
  }
}
