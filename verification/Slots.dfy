// The slot allocator under the trie: free slots of a 256-slot block form a ring
// threaded through the node array with negated links, and blocks sit on one of
// three rings according to how many free slots they have.
module Slots {
  import opened Bits
  import opened Rings

  // The three growable arrays, one sequence per struct field.
  datatype Nodes = Nodes(base: seq<int>, check: seq<int>)
  datatype Infos = Infos(sibling: seq<byte>, child: seq<byte>)
  datatype Blocks = Blocks(prev: seq<int>, next: seq<int>, num: seq<int>,
                           reject: seq<int>, trial: seq<int>, ehead: seq<int>)

  datatype Kind = Full | Closed | Open

  datatype Heads = Heads(full: int, closed: int, open: int) {
    function Get(k: Kind): int {
      match k case Full => full case Closed => closed case Open => open
    }
    function Set(k: Kind, v: int): (h: Heads)
      ensures h.Get(k) == v && forall j :: j != k ==> h.Get(j) == Get(j)
    {
      match k
      case Full => this.(full := v)
      case Closed => this.(closed := v)
      case Open => this.(open := v)
    }
  }

  // The block rings as sequences, head first.
  datatype Lists = Lists(full: seq<int>, closed: seq<int>, open: seq<int>) {
    function Get(k: Kind): seq<int> {
      match k case Full => full case Closed => closed case Open => open
    }
    function Set(k: Kind, r: seq<int>): (l: Lists)
      ensures l.Get(k) == r && forall j :: j != k ==> l.Get(j) == Get(j)
    {
      match k
      case Full => this.(full := r)
      case Closed => this.(closed := r)
      case Open => this.(open := r)
    }
  }

  ghost predicate SameLength(bl: Blocks)
  {
    |bl.prev| == |bl.next| == |bl.num| == |bl.reject| == |bl.trial| == |bl.ehead|
  }

  // ---------------------------------------------------------------- block rings

  // One block ring and its head. Block 0 is the permanent tail of the Full ring,
  // which is why head 0 there means "only block 0" and elsewhere "empty".
  ghost predicate BlockRing(bl: Blocks, h: int, r: seq<int>, nb: int, k: Kind)
  {
    && Ring(r, bl.next, bl.prev)
    && Within(r, nb)
    && if k == Full then r != [] && r[|r| - 1] == 0 && h == r[0]
       else 0 !in r && h == (if r == [] then 0 else r[0])
  }

  ghost predicate BlockRings(bl: Blocks, h: Heads, ls: Lists, nb: int)
  {
    && SameLength(bl) && 1 <= nb <= |bl.num|
    && (forall k: Kind :: BlockRing(bl, h.Get(k), ls.Get(k), nb, k))
    && Disjoint(ls)
  }

  ghost predicate Disjoint(ls: Lists)
  {
    forall j: Kind, k: Kind, b :: j != k && b in ls.Get(j) ==> b !in ls.Get(k)
  }

  ghost predicate Linkable(bl: Blocks, b: int)
  {
    && SameLength(bl) && 0 <= b < |bl.num|
    && 0 <= bl.prev[b] < |bl.num| && 0 <= bl.next[b] < |bl.num|
  }

  ghost function Unlinked(bl: Blocks, b: int): Blocks
    requires Linkable(bl, b)
  {
    bl.(next := bl.next[bl.prev[b] := bl.next[b]], prev := bl.prev[bl.next[b] := bl.prev[b]])
  }

  ghost function Linked(bl: Blocks, hd: int, b: int): Blocks
    requires Linkable(bl, hd) && 0 <= b < |bl.num|
  {
    bl.(next := bl.next[b := hd][bl.prev[hd] := b], prev := bl.prev[b := bl.prev[hd]][hd := b])
  }

  lemma MemberLinkable(bl: Blocks, h: int, r: seq<int>, nb: int, k: Kind, b: int)
    requires SameLength(bl) && nb <= |bl.num| && BlockRing(bl, h, r, nb, k) && b in r
    ensures Linkable(bl, b) && bl.prev[b] in r && bl.next[b] in r
    ensures bl.next[b] == b <==> |r| == 1
    ensures bl.prev[b] == b <==> |r| == 1
  {
    var i := At(r, b);
    assert LinkedAt(r, bl.next, bl.prev, i);
  }

  // Rings that hold none of the touched blocks stay as they are.
  lemma OtherBlockRing(bl: Blocks, bl': Blocks, h: int, r: seq<int>, nb: int, k: Kind)
    requires SameLength(bl) && SameLength(bl') && |bl'.num| == |bl.num|
    requires BlockRing(bl, h, r, nb, k)
    requires forall j :: 0 <= j < |r| ==> bl'.next[r[j]] == bl.next[r[j]] && bl'.prev[r[j]] == bl.prev[r[j]]
    ensures BlockRing(bl', h, r, nb, k)
  {
    RingFrame(r, bl.next, bl.prev, bl'.next, bl'.prev);
  }

  lemma UnlinkOwn(bl: Blocks, h: int, r: seq<int>, nb: int, k: Kind, b: int)
    requires SameLength(bl) && nb <= |bl.num| && BlockRing(bl, h, r, nb, k) && b in r && b != 0 && |r| >= 2
    ensures Linkable(bl, b)
    ensures BlockRing(Unlinked(bl, b), if b == h then bl.next[b] else h, Without(r, At(r, b)), nb, k)
  {
    MemberLinkable(bl, h, r, nb, k, b);
    var i := At(r, b);
    assert LinkedAt(r, bl.next, bl.prev, i);
    RingRemove(r, bl.next, bl.prev, i);
  }

  lemma UnlinkBlock(bl: Blocks, h: Heads, ls: Lists, nb: int, k: Kind, b: int)
    requires BlockRings(bl, h, ls, nb) && b in ls.Get(k) && b != 0 && |ls.Get(k)| >= 2
    ensures Linkable(bl, b)
    ensures BlockRings(Unlinked(bl, b), if b == h.Get(k) then h.Set(k, bl.next[b]) else h,
                       ls.Set(k, Without(ls.Get(k), At(ls.Get(k), b))), nb)
  {
    var r := ls.Get(k);
    assert BlockRing(bl, h.Get(k), r, nb, k);
    MemberLinkable(bl, h.Get(k), r, nb, k, b);
    UnlinkOwn(bl, h.Get(k), r, nb, k, b);
    WithoutMembers(r, At(r, b));
    var bl' := Unlinked(bl, b);
    assert Disjoint(ls.Set(k, Without(r, At(r, b))));
    forall j: Kind | j != k ensures BlockRing(bl', h.Get(j), ls.Get(j), nb, j)
    {
      assert BlockRing(bl, h.Get(j), ls.Get(j), nb, j);
      OtherBlockRing(bl, bl', h.Get(j), ls.Get(j), nb, j);
    }
  }

  // The last member of a ring leaves by zeroing the head alone.
  lemma UnlinkLast(bl: Blocks, h: Heads, ls: Lists, nb: int, k: Kind, b: int)
    requires BlockRings(bl, h, ls, nb) && b in ls.Get(k) && b != 0 && |ls.Get(k)| == 1
    ensures k != Full && ls.Get(k) == [b] && BlockRings(bl, h.Set(k, 0), ls.Set(k, []), nb)
  {
    assert BlockRing(bl, h.Get(k), ls.Get(k), nb, k);
    forall j: Kind | j != k ensures BlockRing(bl, h.Get(j), ls.Get(j), nb, j) { }
  }

  lemma LinkFirst(bl: Blocks, h: Heads, ls: Lists, nb: int, k: Kind, b: int)
    requires BlockRings(bl, h, ls, nb) && 0 < b < nb && ls.Get(k) == []
    requires forall j: Kind :: b !in ls.Get(j)
    ensures BlockRings(bl.(next := bl.next[b := b], prev := bl.prev[b := b]), h.Set(k, b), ls.Set(k, [b]), nb)
  {
    assert BlockRing(bl, h.Get(k), ls.Get(k), nb, k);
    var bl' := bl.(next := bl.next[b := b], prev := bl.prev[b := b]);
    assert LinkedAt([b], bl'.next, bl'.prev, 0);
    forall j: Kind | j != k ensures BlockRing(bl', h.Get(j), ls.Get(j), nb, j)
    {
      assert BlockRing(bl, h.Get(j), ls.Get(j), nb, j);
      OtherBlockRing(bl, bl', h.Get(j), ls.Get(j), nb, j);
    }
  }

  lemma LinkOwn(bl: Blocks, h: int, r: seq<int>, nb: int, k: Kind, b: int)
    requires SameLength(bl) && nb <= |bl.num| && BlockRing(bl, h, r, nb, k) && r != [] && 0 < b < nb && b !in r
    ensures Linkable(bl, h) && h in r && bl.prev[h] in r
    ensures BlockRing(Linked(bl, h, b), b, [b] + r, nb, k)
  {
    RingPushFront(r, bl.next, bl.prev, b);
    assert h == r[0];
    MemberLinkable(bl, h, r, nb, k, h);
  }

  lemma LinkBlock(bl: Blocks, h: Heads, ls: Lists, nb: int, k: Kind, b: int)
    requires BlockRings(bl, h, ls, nb) && 0 < b < nb && ls.Get(k) != []
    requires forall j: Kind :: b !in ls.Get(j)
    ensures Linkable(bl, h.Get(k)) && h.Get(k) != b && bl.prev[h.Get(k)] != b
    ensures BlockRings(Linked(bl, h.Get(k), b), h.Set(k, b), ls.Set(k, [b] + ls.Get(k)), nb)
  {
    var hd := h.Get(k);
    assert BlockRing(bl, hd, ls.Get(k), nb, k);
    LinkOwn(bl, hd, ls.Get(k), nb, k, b);
    var bl' := Linked(bl, hd, b);
    forall j: Kind | j != k ensures BlockRing(bl', h.Get(j), ls.Get(j), nb, j)
    {
      assert BlockRing(bl, h.Get(j), ls.Get(j), nb, j);
      OtherBlockRing(bl, bl', h.Get(j), ls.Get(j), nb, j);
    }
  }

  // Which ring a block belongs on: the block state machine.
  function KindOf(num: int, trial: int): Kind
  {
    if num == 0 then Full else if num == 1 || trial == 1 then Closed else Open
  }

  ghost predicate BlockStatus(bl: Blocks, ls: Lists, nb: int, b: int)
    requires SameLength(bl) && 0 <= b < nb <= |bl.num|
  {
    && 0 <= bl.num[b] <= 256 && 0 <= bl.trial[b] <= 1
    && if b == 0 then bl.num[0] >= 1 && bl.trial[0] == 0
       else b in ls.Get(KindOf(bl.num[b], bl.trial[b]))
  }

  ghost predicate BlocksOk(bl: Blocks, h: Heads, ls: Lists, nb: int)
  {
    && BlockRings(bl, h, ls, nb)
    && (forall b :: 0 <= b < nb ==> BlockStatus(bl, ls, nb, b))
    && (forall b :: nb <= b < |bl.num| ==> bl.num[b] == 256 && bl.trial[b] == 0)
  }
}
