// The allocator state as one value-level invariant, and the facts about block
// status that its methods share.
module Alloc {
  import opened Bits
  import opened Rings
  import opened Slots
  import opened FreeSlots

  const MAX_TRIAL := 1

  // Free slots, and slots not yet in any block, carry no child and no sibling.
  ghost predicate InfoClear(nd: Nodes, inf: Infos, size: int)
  {
    && |inf.sibling| == |inf.child| == |nd.check|
    && forall i :: 0 < i < |nd.check| && (i >= size || nd.check[i] < 0) ==> inf.sibling[i] == 0 && inf.child[i] == 0
  }

  ghost predicate AllocOk(nd: Nodes, inf: Infos, bl: Blocks, h: Heads, cap: int, size: int,
                          reject: seq<int>, rings: seq<seq<int>>, ls: Lists)
  {
    && FreeOk(nd, bl, size, rings)
    && BlocksOk(bl, h, ls, |rings|)
    && InfoClear(nd, inf, size)
    && |nd.check| == cap == 256 * |bl.num|
    && |reject| == 257
    && 0 < bl.ehead[0] < 256
  }

  // The free slots below size are those from before plus the pages added since.
  ghost predicate Grown(nd: Nodes, inf: Infos, size: int, nd': Nodes, inf': Infos, size': int)
  {
    && Kept(nd, inf, nd', inf', size) && size <= size'
    && forall i :: IsFree(nd', size', i) <==> IsFree(nd, size, i) || size <= i < size'
  }

  // What claiming slot e does to everything but e: slots in use keep their
  // contents, and the free slots lose e and gain any page added meanwhile.
  ghost predicate Claimed(nd: Nodes, inf: Infos, size: int, nd': Nodes, inf': Infos, size': int, e: int)
  {
    && |nd.base| == |nd.check| == |inf.sibling| == |inf.child| >= size
    && |nd'.base| == |nd'.check| == |inf'.sibling| == |inf'.child| >= size' >= size
    && 0 < e < size' && !IsFree(nd', size', e) && (e >= size || IsFree(nd, size, e))
    && (forall i :: 0 <= i < size && !IsFree(nd, size, i) ==> nd'.base[i] == nd.base[i] && nd'.check[i] == nd.check[i])
    && (forall i :: 0 <= i < size ==> inf'.sibling[i] == inf.sibling[i] && inf'.child[i] == inf.child[i])
    && (forall i :: IsFree(nd', size', i) <==> (IsFree(nd, size, i) || size <= i < size') && i != e)
    && inf'.sibling[e] == 0 && inf'.child[e] == 0
  }

  // A block is on the ring its free count and trial call for, and on no other.
  lemma OnlyRing(bl: Blocks, h: Heads, ls: Lists, nb: int, b: int, k: Kind)
    requires BlocksOk(bl, h, ls, nb) && 0 < b < nb
    ensures b in ls.Get(k) <==> k == KindOf(bl.num[b], bl.trial[b])
  {
    assert BlockStatus(bl, ls, nb, b);
  }

  lemma ListedBlock(bl: Blocks, h: Heads, ls: Lists, nb: int, b: int, k: Kind)
    requires BlocksOk(bl, h, ls, nb) && b in ls.Get(k) && k != Full
    ensures 0 < b < nb && KindOf(bl.num[b], bl.trial[b]) == k && bl.num[b] > 0
  {
    assert BlockRing(bl, h.Get(k), ls.Get(k), nb, k);
    OnlyRing(bl, h, ls, nb, b, k);
    assert BlockStatus(bl, ls, nb, b);
  }

  // The free rings read only counts and ring heads of the blocks.
  lemma FreeLinksFrame(nd: Nodes, bl: Blocks, bl': Blocks, size: int, rings: seq<seq<int>>)
    requires FreeOk(nd, bl, size, rings)
    requires SameLength(bl') && bl'.num == bl.num && bl'.ehead == bl.ehead
    ensures FreeOk(nd, bl', size, rings)
  {
  }

  lemma HeadListed(bl: Blocks, h: Heads, ls: Lists, nb: int, k: Kind)
    requires BlockRings(bl, h, ls, nb)
    ensures h.Get(k) != 0 ==> ls.Get(k) != [] && h.Get(k) == ls.Get(k)[0]
    ensures k != Full && h.Get(k) == 0 ==> ls.Get(k) == []
  {
    assert BlockRing(bl, h.Get(k), ls.Get(k), nb, k);
    if ls.Get(k) != [] { assert ls.Get(k)[0] in ls.Get(k); }
  }

  // transfer_block's test for "the target ring has no members yet".
  lemma EmptyTest(bl: Blocks, h: Heads, ls: Lists, nb: int, k: Kind, num: int)
    requires BlockRings(bl, h, ls, nb) && (k == Full <==> num == 0)
    ensures (h.Get(k) == 0 && num != 0) <==> ls.Get(k) == []
  {
    assert BlockRing(bl, h.Get(k), ls.Get(k), nb, k);
    if ls.Get(k) != [] { assert ls.Get(k)[0] in ls.Get(k); }
  }

  ghost predicate OnlyMoves(ls: Lists, ls': Lists, b: int)
  {
    forall c, k: Kind :: c != b ==> (c in ls'.Get(k) <==> c in ls.Get(k))
  }

  lemma TransferMoves(bl: Blocks, h: Heads, ls: Lists, nb: int, kin: Kind, kout: Kind, b: int)
    requires BlockRings(bl, h, ls, nb) && b in ls.Get(kin) && kin != kout
    ensures forall j: Kind :: b !in ls.Set(kin, Without(ls.Get(kin), At(ls.Get(kin), b))).Get(j)
    ensures var ls1 := ls.Set(kin, Without(ls.Get(kin), At(ls.Get(kin), b)));
            OnlyMoves(ls, ls1.Set(kout, [b] + ls1.Get(kout)), b)
  {
    assert BlockRing(bl, h.Get(kin), ls.Get(kin), nb, kin);
    WithoutMembers(ls.Get(kin), At(ls.Get(kin), b));
  }

  // The ring head of a block with free slots is a free slot.
  lemma EheadFree(nd: Nodes, bl: Blocks, size: int, rings: seq<seq<int>>, b: int)
    requires FreeOk(nd, bl, size, rings) && 0 <= b < |rings| && FreeCount(bl.num, b) > 0
    ensures IsFree(nd, size, bl.ehead[b]) && bl.ehead[b] / 256 == b && bl.ehead[b] in rings[b]
  {
    assert BlockRingOk(nd, bl.num, bl.ehead, rings[b], b);
    RingMembersFree(nd, bl, size, rings, b, rings[b][0]);
  }

  // Re-establishing block status after block b changed its count or trial and,
  // if its kind changed, moved from one ring to another.
  lemma BlockMoved(bl: Blocks, h: Heads, ls: Lists, bl': Blocks, h': Heads, ls': Lists, nb: int, b: int)
    requires BlocksOk(bl, h, ls, nb) && BlockRings(bl', h', ls', nb) && 0 <= b < nb && |bl'.num| == |bl.num|
    requires forall c :: 0 <= c < |bl.num| && c != b ==> bl'.num[c] == bl.num[c] && bl'.trial[c] == bl.trial[c]
    requires OnlyMoves(ls, ls', b)
    requires 0 <= bl'.num[b] <= 256 && 0 <= bl'.trial[b] <= 1
    requires if b == 0 then bl'.num[0] >= 1 && bl'.trial[0] == 0 else b in ls'.Get(KindOf(bl'.num[b], bl'.trial[b]))
    ensures BlocksOk(bl', h', ls', nb)
  {
    forall c | 0 <= c < nb ensures BlockStatus(bl', ls', nb, c)
    {
      assert BlockStatus(bl, ls, nb, c);
    }
  }

  // The block rings read only links and heads.
  lemma RingsFrame(bl: Blocks, bl': Blocks, h: Heads, ls: Lists, nb: int)
    requires BlockRings(bl, h, ls, nb) && SameLength(bl') && bl'.next == bl.next && bl'.prev == bl.prev
    ensures BlockRings(bl', h, ls, nb)
  {
    forall k: Kind ensures BlockRing(bl', h.Get(k), ls.Get(k), nb, k)
    {
      assert BlockRing(bl, h.Get(k), ls.Get(k), nb, k);
    }
  }

  lemma RingBound(r: seq<int>, b: int, gaps: set<int>)
    requires Distinct(r) && (forall i :: i in r ==> i / 256 == b && i !in gaps)
    requires forall i :: i in gaps ==> i / 256 == b
    ensures |r| + |gaps| <= 256
  {
    var s := set i | i in r;
    DistinctSize(r);
    assert s + gaps <= Interval(256 * b, 256);
    SubsetSize(s + gaps, Interval(256 * b, 256));
    assert s !! gaps;
  }

  // A block that is about to get slot e back has fewer than 256 free slots.
  lemma RoomForMore(nd: Nodes, bl: Blocks, size: int, rings: seq<seq<int>>, e: int)
    requires FreeOk(nd, bl, size, rings) && 0 < e < size && !IsFree(nd, size, e)
    ensures bl.num[e / 256] < 256
  {
    var b := e / 256;
    var r := rings[b];
    assert BlockRingOk(nd, bl.num, bl.ehead, r, b);
    forall i | i in r ensures i / 256 == b && i != e && i > 0
    {
      RingMembersFree(nd, bl, size, rings, b, i);
    }
    RingBound(r, b, if b == 0 then {e, 0} else {e});
  }

  ghost function Interval(lo: int, n: nat): (s: set<int>)
    ensures forall i :: i in s <==> lo <= i < lo + n
    ensures |s| == n
  {
    if n == 0 then {} else Interval(lo, n - 1) + {lo + n - 1}
  }

  lemma {:induction false} DistinctSize<T>(r: seq<T>)
    requires Distinct(r)
    ensures |set i | i in r| == |r|
  {
    if r == [] {
    } else {
      DistinctSize(r[1..]);
      assert (set i | i in r) == (set i | i in r[1..]) + {r[0]};
    }
  }

  lemma SubsetSize<T>(a: set<T>, b: set<T>)
    requires a <= b
    ensures |a| <= |b|
  {
    assert b == a + (b - a);
  }

  // The bounds every method starts from.
  lemma AllocBounds(nd: Nodes, inf: Infos, bl: Blocks, h: Heads, cap: int, size: int,
                    reject: seq<int>, rings: seq<seq<int>>, ls: Lists)
    requires AllocOk(nd, inf, bl, h, cap, size, reject, rings, ls)
    ensures |nd.base| == |nd.check| == |inf.sibling| == |inf.child| == cap == 256 * |bl.num|
    ensures SameLength(bl) && 0 < 256 * |rings| == size <= cap
    ensures |reject| == 257 && 0 < bl.ehead[0] < 256
    ensures forall b :: |rings| <= b < |bl.num| ==> bl.num[b] == 256 && bl.trial[b] == 0
    ensures forall b :: 0 <= b < |rings| ==> 0 <= bl.num[b] <= 256 && 0 <= bl.trial[b] <= 1
  {
    forall b | 0 <= b < |rings| ensures 0 <= bl.num[b] <= 256 && 0 <= bl.trial[b] <= 1
    {
      assert BlockStatus(bl, ls, |rings|, b);
    }
  }

  // Every label fits when the first of them is placed at slot e.
  ghost predicate Fits(nd: Nodes, size: int, e: int, labels: seq<byte>)
    requires e >= 0 && labels != []
  {
    forall j :: 0 <= j < |labels| ==> IsFree(nd, size, Xor(Xor(e, labels[0]), labels[j]))
  }

  // ------------------------------------------------------------- growing

  // Slots below size are as before: same contents, same freedom.
  ghost predicate Kept(nd: Nodes, inf: Infos, nd': Nodes, inf': Infos, size: int)
  {
    && |nd.base| == |nd.check| == |inf.sibling| == |inf.child| >= size
    && |nd'.base| == |nd'.check| == |inf'.sibling| == |inf'.child| >= size
    && (forall i :: 0 <= i < size ==> nd'.base[i] == nd.base[i] && nd'.check[i] == nd.check[i])
    && (forall i :: 0 <= i < size ==> inf'.sibling[i] == inf.sibling[i] && inf'.child[i] == inf.child[i])
  }

  ghost predicate SameBlocks(bl: Blocks, bl': Blocks, nb: int)
  {
    && SameLength(bl) && SameLength(bl') && 0 <= nb <= |bl.num| <= |bl'.num|
    && forall b :: 0 <= b < nb ==>
         && bl'.num[b] == bl.num[b] && bl'.trial[b] == bl.trial[b] && bl'.ehead[b] == bl.ehead[b]
         && bl'.next[b] == bl.next[b] && bl'.prev[b] == bl.prev[b]
  }

  lemma GrowBlocks(bl: Blocks, bl': Blocks, h: Heads, ls: Lists, nb: int)
    requires BlocksOk(bl, h, ls, nb) && SameBlocks(bl, bl', nb)
    requires forall b :: nb <= b < |bl'.num| ==> bl'.num[b] == 256 && bl'.trial[b] == 0
    ensures BlocksOk(bl', h, ls, nb)
  {
    forall k: Kind ensures BlockRing(bl', h.Get(k), ls.Get(k), nb, k)
    {
      assert BlockRing(bl, h.Get(k), ls.Get(k), nb, k);
      RingFrame(ls.Get(k), bl.next, bl.prev, bl'.next, bl'.prev);
    }
    forall b | 0 <= b < nb ensures BlockStatus(bl', ls, nb, b)
    {
      assert BlockStatus(bl, ls, nb, b);
    }
  }

  lemma GrowSlots(nd: Nodes, nd': Nodes, bl: Blocks, bl': Blocks, size: int, rings: seq<seq<int>>)
    requires FreeOk(nd, bl, size, rings) && SameBlocks(bl, bl', |rings|)
    requires |nd'.base| == |nd'.check| >= |nd.check|
    requires forall i :: 0 <= i < size ==> nd'.base[i] == nd.base[i] && nd'.check[i] == nd.check[i]
    ensures FreeOk(nd', bl', size, rings)
  {
    forall b | 0 <= b < |rings| ensures BlockRingOk(nd', bl'.num, bl'.ehead, rings[b], b)
    {
      assert BlockRingOk(nd, bl.num, bl.ehead, rings[b], b);
      forall j | 0 <= j < |rings[b]| ensures rings[b][j] < size
      {
        RingMembersFree(nd, bl, size, rings, b, rings[b][j]);
      }
      FreeRingFrame(nd, nd', rings[b], b);
    }
  }

  // The block rings do not mind more blocks existing.
  lemma WidenRings(bl: Blocks, bl': Blocks, h: Heads, ls: Lists, nb: int)
    requires BlocksOk(bl, h, ls, nb) && nb < |bl.num|
    requires SameLength(bl') && bl'.next == bl.next && bl'.prev == bl.prev
    ensures BlockRings(bl', h, ls, nb + 1)
    ensures forall k: Kind :: nb !in ls.Get(k)
  {
    forall k: Kind ensures BlockRing(bl', h.Get(k), ls.Get(k), nb + 1, k) && nb !in ls.Get(k)
    {
      assert BlockRing(bl, h.Get(k), ls.Get(k), nb, k);
    }
  }

  // The new block is Open with all 256 slots free.
  lemma AddStatus(bl: Blocks, h: Heads, ls: Lists, bl': Blocks, h': Heads, ls': Lists, nb: int)
    requires BlocksOk(bl, h, ls, nb) && nb < |bl.num| == |bl'.num|
    requires BlockRings(bl', h', ls', nb + 1)
    requires bl'.num == bl.num && bl'.trial == bl.trial
    requires ls' == ls.Set(Open, [nb] + ls.Get(Open))
    ensures BlocksOk(bl', h', ls', nb + 1)
  {
    assert ls'.open[0] == nb;
    var m := nb + 1;
    forall b | 0 <= b < nb ensures BlockStatus(bl', ls', m, b)
    {
      assert BlockStatus(bl, ls, nb, b);
    }
  }

  lemma GrownSelf(nd: Nodes, inf: Infos, size: int)
    requires |nd.base| == |nd.check| == |inf.sibling| == |inf.child| >= size
    ensures Grown(nd, inf, size, nd, inf, size)
  {
  }

  // A fresh page has room for any set of labels at its first slot.
  lemma FreshPage(nd: Nodes, inf: Infos, size: int, nd': Nodes, inf': Infos, size': int, labels: seq<byte>)
    requires labels != [] && size > 0 && size % 256 == 0 && size' == size + 256
    requires Grown(nd, inf, size, nd', inf', size')
    ensures IsFree(nd', size', size) && Fits(nd', size', size, labels)
  {
    hide Xor, Kept;
    forall j | 0 <= j < |labels| ensures IsFree(nd', size', Xor(Xor(size, labels[0]), labels[j]))
    {
      SlotXor(size, labels[0]);
      SlotXor(Xor(size, labels[0]), labels[j]);
    }
  }

  // The head of a ring leaves: the ring goes on with its second member.
  lemma DropHead(bl: Blocks, h: Heads, ls: Lists, nb: int, k: Kind, b: int)
    requires BlockRings(bl, h, ls, nb) && ls.Get(k) != [] && b == ls.Get(k)[0]
    ensures Without(ls.Get(k), At(ls.Get(k), b)) == ls.Get(k)[1..]
    ensures SameLength(bl) && 0 <= b < |bl.num|
    ensures |ls.Get(k)| > 1 ==> bl.next[b] == ls.Get(k)[1]
    ensures bl.prev[b] == ls.Get(k)[|ls.Get(k)| - 1]
    ensures b == ls.Get(k)[|ls.Get(k)| - 1] <==> |ls.Get(k)| == 1
  {
    var r := ls.Get(k);
    assert BlockRing(bl, h.Get(k), r, nb, k);
    assert LinkedAt(r, bl.next, bl.prev, 0);
  }

  lemma BlocksLinked(bl: Blocks, h: Heads, ls: Lists, nb: int)
    requires BlocksOk(bl, h, ls, nb)
    ensures BlockRings(bl, h, ls, nb)
  {
  }

  // An Open block has at least two free slots and has not been tried.
  lemma OpenBlock(bl: Blocks, h: Heads, ls: Lists, nb: int, b: int)
    requires BlocksOk(bl, h, ls, nb) && b in ls.Get(Open)
    ensures 0 < b < nb && 2 <= bl.num[b] <= 256 && bl.trial[b] == 0
  {
    ListedBlock(bl, h, ls, nb, b, Open);
    assert BlockStatus(bl, ls, nb, b);
  }

  // Moving a free ring's head does not concern the block rings.
  lemma GrowBlocksSame(bl: Blocks, bl': Blocks, h: Heads, ls: Lists, nb: int)
    requires BlocksOk(bl, h, ls, nb) && SameLength(bl')
    requires bl' == bl.(ehead := bl'.ehead, reject := bl'.reject)
    ensures BlocksOk(bl', h, ls, nb)
  {
    RingsFrame(bl, bl', h, ls, nb);
    forall b | 0 <= b < nb ensures BlockStatus(bl', ls, nb, b)
    {
      assert BlockStatus(bl, ls, nb, b);
    }
  }

  // ------------------------------------------------------- claiming and returning

  lemma ClaimedFrom(nd: Nodes, nd': Nodes, inf: Infos, size: int, e: int, v: int, from: int)
    requires |nd.base| == |nd.check| >= size && Taken(nd, nd', size, e, v, from) && from >= 0
    requires InfoClear(nd, inf, size)
    ensures Claimed(nd, inf, size, nd', inf, size, e)
    ensures InfoClear(nd', inf, size)
  {
    forall i | 0 < i < |nd'.check| && (i >= size || nd'.check[i] < 0)
      ensures inf.sibling[i] == 0 && inf.child[i] == 0
    {
      if i < size { assert IsFree(nd', size, i); assert IsFree(nd, size, i); }
      else { assert !IsFree(nd, size, i) && i != e; }
    }
  }

  // Slots threaded after a page was added are claimed from the state before it.
  lemma ClaimedAfterGrowth(nd0: Nodes, inf0: Infos, size0: int, nd1: Nodes, inf1: Infos, size1: int,
                           nd2: Nodes, inf2: Infos, e: int)
    requires Grown(nd0, inf0, size0, nd1, inf1, size1) && size0 >= 0
    requires Claimed(nd1, inf1, size1, nd2, inf2, size1, e)
    ensures Claimed(nd0, inf0, size0, nd2, inf2, size1, e)
  {
    forall i | 0 <= i < size0 && !IsFree(nd0, size0, i) ensures nd2.base[i] == nd0.base[i]
        && nd2.check[i] == nd0.check[i]
    {
      assert !IsFree(nd1, size1, i);
    }
    assert IsFree(nd1, size1, e) || e >= size1;
  }

  ghost function SetBase(nd: Nodes, i: int, v: int): Nodes
    requires 0 <= i < |nd.base|
  {
    Nodes(nd.base[i := v], nd.check)
  }

  // Writing the base of a slot in use commutes with everything the allocator does.
  lemma ClaimedThenBase(nd: Nodes, inf: Infos, size: int, nd': Nodes, inf': Infos, size': int, e: int, from: int,
      v: int)
    requires Claimed(nd, inf, size, nd', inf', size', e)
    requires 0 <= from < size && !IsFree(nd, size, from) && from != e
    ensures Claimed(SetBase(nd, from, v), inf, size, SetBase(nd', from, v), inf', size', e)
  {
    var n, n' := SetBase(nd, from, v), SetBase(nd', from, v);
    assert forall i :: IsFree(n, size, i) <==> IsFree(nd, size, i);
    assert forall i :: IsFree(n', size', i) <==> IsFree(nd', size', i);
  }

  ghost predicate SameInfoBut(inf: Infos, inf': Infos, e: int)
  {
    && |inf'.sibling| == |inf.sibling| && |inf'.child| == |inf.child|
    && 0 <= e < |inf.sibling| == |inf.child|
    && inf' == Infos(inf.sibling[e := 0], inf.child[e := 0])
  }

  lemma GivenClear(nd: Nodes, nd': Nodes, inf: Infos, inf': Infos, size: int, e: int)
    requires |nd.base| == |nd.check| >= size && Given(nd, nd', size, e)
    requires InfoClear(nd, inf, size) && SameInfoBut(inf, inf', e)
    ensures InfoClear(nd', inf', size)
  {
    forall i | 0 < i < |nd'.check| && (i >= size || nd'.check[i] < 0)
      ensures inf'.sibling[i] == 0 && inf'.child[i] == 0
    {
      if i < size && i != e { assert IsFree(nd', size, i); assert IsFree(nd, size, i); }
      else if i >= size { assert !IsFree(nd, size, i) && i != e; }
    }
  }

  lemma TakenNode(nd: Nodes, nd': Nodes, size: int, e: int, v: int, from: int)
    requires |nd.base| == |nd.check| && Taken(nd, nd', size, e, v, from)
    ensures |nd'.base| == |nd'.check| == |nd.check| && 0 <= e < |nd.base|
    ensures nd'.base[e] == v && nd'.check[e] == from
  {
  }

  lemma GrownFree(nd: Nodes, inf: Infos, size: int, nd': Nodes, inf': Infos, size': int, i: int)
    requires Grown(nd, inf, size, nd', inf', size') && 0 <= i < size
    ensures IsFree(nd', size', i) <==> IsFree(nd, size, i)
  {
  }

  lemma ClaimedUsed(nd: Nodes, inf: Infos, size: int, nd': Nodes, inf': Infos, size': int, e: int, i: int)
    requires Claimed(nd, inf, size, nd', inf', size', e) && 0 <= i < size && !IsFree(nd, size, i)
    ensures !IsFree(nd', size', i) && i != e
  {
  }

  lemma CountBound(bl: Blocks, h: Heads, ls: Lists, nb: int, b: int)
    requires BlocksOk(bl, h, ls, nb) && 0 <= b < nb
    ensures SameLength(bl) && nb <= |bl.num| && 0 <= bl.num[b] <= 256
  {
    assert BlockStatus(bl, ls, nb, b);
  }

  // Writes confined to slots in use keep the allocator consistent.
  lemma AllocUsed(nd: Nodes, inf: Infos, nd': Nodes, inf': Infos, bl: Blocks, h: Heads, cap: int, size: int,
                  reject: seq<int>, rings: seq<seq<int>>, ls: Lists)
    requires AllocOk(nd, inf, bl, h, cap, size, reject, rings, ls)
    requires |nd'.base| == |nd'.check| == |nd.check| && |inf'.sibling| == |inf'.child| == |inf.child|
    requires forall i :: IsFree(nd', size, i) <==> IsFree(nd, size, i)
    requires forall i :: 0 <= i < |nd.check| && (i >= size || IsFree(nd, size, i)) ==>
               nd'.base[i] == nd.base[i] && nd'.check[i] == nd.check[i] && inf'.sibling[i] == inf.sibling[i]
                   && inf'.child[i] == inf.child[i]
    ensures AllocOk(nd', inf', bl, h, cap, size, reject, rings, ls)
  {
    hide FreeOk, BlocksOk;
    AllocBounds(nd, inf, bl, h, cap, size, reject, rings, ls);
    FreeFrame(nd, nd', bl, size, rings);
    forall i | 0 < i < |nd'.check| && (i >= size || nd'.check[i] < 0) ensures inf'.sibling[i] == 0 && inf'.child[i] == 0
    {
      assert i < size ==> IsFree(nd', size, i);
    }
  }

  lemma ClaimedUsed2(nd: Nodes, inf: Infos, size: int, nd': Nodes, inf': Infos, size': int, e: int)
    requires Claimed(nd, inf, size, nd', inf', size', e)
    ensures 0 < e < size' && !IsFree(nd', size', e)
  {
  }
}
