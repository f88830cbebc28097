// The dynamic double-array trie.
module Tries {
  import opened Bits
  import opened Rings
  import opened Slots
  import opened FreeSlots
  import opened Alloc
  import opened Shape
  import opened Adding
  import opened Relocating
  import opened Erasings
  import opened Views
  import opened Following
  import opened Resolving
  import opened Keys
  import opened Climbing
  import opened Creating
  import opened Listing

  const NO_PATH := -1
  const NO_VALUE := -2

  function Fill<T>(n: nat, v: T): (s: seq<T>)
    ensures |s| == n && forall i :: 0 <= i < n ==> s[i] == v
  {
    seq(n, _ => v)
  }

  class Trie {
    var node: Nodes
    var ninfo: Infos
    var block: Blocks
    var head: Heads
    var capacity: int
    var size: int
    var reject: seq<int>

    ghost var rings: seq<seq<int>>
    ghost var lists: Lists
    ghost var tree: Tree

    ghost predicate AllocValid()
      reads this
    {
      AllocOk(node, ninfo, block, head, capacity, size, reject, rings, lists)
    }

    method PopBlock(bi: int, k: Kind, last: bool)
      requires BlockRings(block, head, lists, |rings|)
      requires bi != 0 && bi in lists.Get(k) && last == (|lists.Get(k)| == 1)
      modifies this`block, this`head, this`lists
      ensures BlockRings(block, head, lists, |rings|)
      ensures lists == old(lists.Set(k, Without(lists.Get(k), At(lists.Get(k), bi))))
      ensures block == old(block).(prev := block.prev, next := block.next)
    {
      if last {
        UnlinkLast(block, head, lists, |rings|, k, bi);
        head := head.Set(k, 0);
      } else {
        UnlinkBlock(block, head, lists, |rings|, k, bi);
        MemberLinkable(block, head.Get(k), lists.Get(k), |rings|, k, bi);
        block := block.(next := block.next[block.prev[bi] := block.next[bi]]);
        block := block.(prev := block.prev[block.next[bi] := block.prev[bi]]);
        if bi == head.Get(k) {
          head := head.Set(k, block.next[bi]);
        }
      }
      lists := lists.Set(k, Without(lists.Get(k), At(lists.Get(k), bi)));
    }

    method PushBlock(bi: int, k: Kind, empty: bool)
      requires BlockRings(block, head, lists, |rings|)
      requires 0 < bi < |rings| && (forall j: Kind :: bi !in lists.Get(j)) && empty == (lists.Get(k) == [])
      modifies this`block, this`head, this`lists
      ensures BlockRings(block, head, lists, |rings|)
      ensures lists == old(lists.Set(k, [bi] + lists.Get(k)))
      ensures block == old(block).(prev := block.prev, next := block.next)
    {
      if empty {
        LinkFirst(block, head, lists, |rings|, k, bi);
        block := block.(prev := block.prev[bi := bi], next := block.next[bi := bi]);
        head := head.Set(k, bi);
      } else {
        LinkBlock(block, head, lists, |rings|, k, bi);
        var hd := head.Get(k);
        var tail := block.prev[hd];
        block := block.(prev := block.prev[bi := tail], next := block.next[bi := hd]);
        block := block.(next := block.next[tail := bi]);
        head := head.Set(k, bi);
        block := block.(prev := block.prev[hd := bi]);
      }
      lists := lists.Set(k, [bi] + lists.Get(k));
    }

    method TransferBlock(bi: int, kin: Kind, kout: Kind)
      requires BlockRings(block, head, lists, |rings|)
      requires 0 < bi < |rings| && bi in lists.Get(kin) && kin != kout
      requires kout == Full <==> block.num[bi] == 0
      modifies this`block, this`head, this`lists
      ensures BlockRings(block, head, lists, |rings|)
      ensures lists.Get(kin) == Without(old(lists).Get(kin), At(old(lists).Get(kin), bi))
      ensures OnlyMoves(old(lists), lists, bi)
      ensures bi in lists.Get(kout) && SameLength(block)
      ensures block == old(block).(prev := block.prev, next := block.next)
    {
      assert BlockRing(block, head.Get(kin), lists.Get(kin), |rings|, kin);
      MemberLinkable(block, head.Get(kin), lists.Get(kin), |rings|, kin, bi);
      TransferMoves(block, head, lists, |rings|, kin, kout, bi);
      PopBlock(bi, kin, bi == block.next[bi]);
      EmptyTest(block, head, lists, |rings|, kout, block.num[bi]);
      PushBlock(bi, kout, head.Get(kout) == 0 && block.num[bi] != 0);
    }

    // The three realloc calls: capacity doubles, new entries are blank.
    method Reallocate()
      requires AllocValid() && size == capacity
      modifies this`node, this`ninfo, this`block, this`capacity
      ensures AllocValid() && capacity == 2 * old(capacity)
      ensures Kept(old(node), old(ninfo), node, ninfo, size)
      ensures SameBlocks(old(block), block, |rings|)
    {
      ghost var nd, bl := node, block;
      var oldCap := capacity;
      capacity := 2 * capacity;
      var n := capacity - oldCap;
      node := Nodes(node.base + Fill(n, 0), node.check + Fill(n, 0));
      ninfo := Infos(ninfo.sibling + Fill(n, 0), ninfo.child + Fill(n, 0));
      var m := capacity / 256 - oldCap / 256;
      block := Blocks(block.prev + Fill(m, 0), block.next + Fill(m, 0), block.num + Fill(m, 256),
                      block.reject + Fill(m, 257), block.trial + Fill(m, 0), block.ehead + Fill(m, 0));
      GrowBlocks(bl, block, head, lists, |rings|);
      GrowSlots(nd, node, bl, block, size, rings);
    }

    // Threading the 256 slots of the next page into a free ring.
    method ThreadPage()
      requires 0 <= size && size % 256 == 0 && size + 256 <= |node.base| == |node.check|
      modifies this`node
      ensures |node.base| == |node.check| == |old(node).check|
      ensures forall i :: 0 <= i < |node.check| && !(size <= i < size + 256) ==>
                node.base[i] == old(node).base[i] && node.check[i] == old(node).check[i]
      ensures PageThreaded(node, size / 256)
    {
      node := Nodes(node.base[size := -(size + 255)], node.check[size := -(size + 1)]);
      var i := size + 1;
      while i < size + 255
        invariant size + 1 <= i <= size + 255
        invariant |node.base| == |node.check| == |old(node).check|
        invariant forall k :: 0 <= k < |node.check| && !(size <= k < size + 256) ==>
                    node.base[k] == old(node).base[k] && node.check[k] == old(node).check[k]
        invariant forall k :: size <= k < i ==> node.check[k] == -(k + 1)
        invariant forall k :: size < k < i ==> node.base[k] == -(k - 1)
        invariant node.base[size] == -(size + 255)
      {
        node := Nodes(node.base[i := -(i - 1)], node.check[i := -(i + 1)]);
        i := i + 1;
      }
      node := Nodes(node.base[size + 255 := -(size + 254)], node.check[size + 255 := -size]);
    }

    // The next page becomes a block: all its slots free, the block itself Open.
    method OpenPage()
      requires AllocValid() && size < capacity
      modifies this`node, this`block, this`head, this`size, this`rings, this`lists
      ensures AllocValid() && size == old(size) + 256 && |rings| == old(|rings|) + 1
      ensures Kept(old(node), ninfo, node, ninfo, old(size))
      ensures forall i :: IsFree(node, size, i) <==> IsFree(old(node), old(size), i) || old(size) <= i < size
      ensures block.num == old(block).num && block.trial == old(block).trial
    {
      hide FreeOk, BlocksOk, BlockRings, PageThreaded;
      AllocBounds(node, ninfo, block, head, capacity, size, reject, rings, lists);
      ghost var nd, bl, h, ls, nb := node, block, head, lists, |rings|;
      block := block.(ehead := block.ehead[size / 256 := size]);
      ThreadPage();
      AddPage(nd, node, bl, block, size, rings);
      rings := rings + [Page(nb)];
      WidenRings(bl, block, h, ls, nb);
      HeadListed(block, head, lists, |rings|, Open);
      ghost var bl1 := block;
      PushBlock(size / 256, Open, head.open == 0);
      FreeLinksFrame(node, bl1, block, size + 256, rings);
      size := size + 256;
      AddStatus(bl, h, ls, block, head, lists, nb);
      assert size == old(size) + 256;
      forall i ensures IsFree(node, size, i) <==> IsFree(nd, old(size), i) || old(size) <= i < size
      {
        assert IsFree(node, old(size) + 256, i) <==> IsFree(nd, old(size), i) || old(size) <= i < old(size) + 256;
      }
    }

    method AddBlock() returns (bi: int)
      requires AllocValid()
      modifies this`node, this`ninfo, this`block, this`head, this`capacity, this`size, this`rings, this`lists
      ensures AllocValid() && size == old(size) + 256 && bi == old(size) / 256
      ensures Grown(old(node), old(ninfo), old(size), node, ninfo, size)
    {
      if size == capacity {
        Reallocate();
      }
      assert forall i :: IsFree(node, size, i) <==> IsFree(old(node), old(size), i);
      OpenPage();
      return size / 256 - 1;
    }

    method FindPlace() returns (e: int)
      requires AllocValid()
      modifies this`node, this`ninfo, this`block, this`head, this`capacity, this`size, this`rings, this`lists
      ensures AllocValid() && old(size) <= size && Grown(old(node), old(ninfo), old(size), node, ninfo, size)
      ensures IsFree(node, size, e) && e >= 256
    {
      HeadListed(block, head, lists, |rings|, Closed);
      HeadListed(block, head, lists, |rings|, Open);
      if head.closed != 0 {
        ListedBlock(block, head, lists, |rings|, head.closed, Closed);
        EheadFree(node, block, size, rings, head.closed);
        e := block.ehead[head.closed];
      } else if head.open != 0 {
        ListedBlock(block, head, lists, |rings|, head.open, Open);
        EheadFree(node, block, size, rings, head.open);
        e := block.ehead[head.open];
      } else {
        var bi := AddBlock();
        e := bi * 256;
      }
    }

    // Do all of the labels fit when the first of them is placed at slot e?
    method FitsAt(e: int, labels: seq<byte>) returns (ok: bool)
      requires AllocValid() && |labels| >= 2
      requires IsFree(node, size, e) && e >= 256
      ensures ok <==> Fits(node, size, e, labels)
    {
      hide Xor;
      var base := Xor(e, labels[0]);
      SlotXor(e, labels[0]);
      var p := 0;
      assert IsFree(node, size, Xor(base, labels[0]));
      while true
        invariant 0 <= p < |labels| - 1
        invariant forall q :: 0 <= q <= p ==> IsFree(node, size, Xor(base, labels[q]))
        decreases |labels| - p
      {
        p := p + 1;
        SlotXor(base, labels[p]);
        assert Xor(base, labels[p]) / 256 == e / 256;
        if node.check[Xor(base, labels[p])] >= 0 {
          assert !IsFree(node, size, Xor(base, labels[p]));
          return false;
        }
        if p == |labels| - 1 {
          return true;
        }
      }
    }

    // The scan of one block's free ring for a slot where the labels fit.
    method FindInBlock(bi: int, labels: seq<byte>) returns (found: bool, e: int)
      requires AllocValid() && |labels| >= 2 && 0 < bi < |rings| && block.num[bi] > 0
      ensures found ==> e in rings[bi] && IsFree(node, size, e) && e >= 256
      ensures found ==> Fits(node, size, e, labels)
      ensures !found ==> forall j :: 0 <= j < |rings[bi]| ==>
                rings[bi][j] >= 0 && !Fits(node, size, rings[bi][j], labels)
    {
      hide Xor, Fits;
      ghost var r, k := rings[bi], 0;
      assert BlockRingOk(node, block.num, block.ehead, r, bi);
      e := block.ehead[bi];
      while true
        invariant 0 <= k < |r| && e == r[k]
        invariant forall j :: 0 <= j < k ==> r[j] >= 0 && !Fits(node, size, r[j], labels)
        decreases |r| - k
      {
        RingMembersFree(node, block, size, rings, bi, e);
        found := FitsAt(e, labels);
        if found {
          return;
        }
        assert LinkedAt(r, Neg(node.check), Neg(node.base), k);
        e := -node.check[e];
        if e == block.ehead[bi] {
          assert k == |r| - 1;
          return;
        }
        k := k + 1;
      }
    }

    // An Open block in which the labels did not fit goes to the Closed ring.
    method RejectBlock(bi: int, nc: int)
      requires AllocValid() && lists.open != [] && bi == lists.open[0]
      modifies this`block, this`head, this`reject, this`lists
      ensures AllocValid() && lists.open == old(lists.open[1..])
    {
      hide FreeOk, BlocksOk, BlockRings, InfoClear;
      ghost var bl, h, ls := block, head, lists;
      AllocBounds(node, ninfo, block, head, capacity, size, reject, rings, lists);
      OpenBlock(bl, h, ls, |rings|, bi);
      BlocksLinked(bl, h, ls, |rings|);
      DropHead(bl, h, ls, |rings|, Open, bi);
      block := block.(reject := block.reject[bi := nc]);
      if block.reject[bi] < reject[block.num[bi]] {
        reject := reject[block.num[bi] := block.reject[bi]];
      }
      block := block.(trial := block.trial[bi := block.trial[bi] + 1]);
      RingsFrame(bl, block, h, ls, |rings|);
      if block.trial[bi] == MAX_TRIAL {
        TransferBlock(bi, Open, Closed);
      }
      FreeLinksFrame(node, bl, block, size, rings);
      BlockMoved(bl, h, ls, block, head, lists, |rings|, bi);
    }

    // A block whose ring has a fitting slot gets that slot as its ring head.
    method TryBlock(bi: int, labels: seq<byte>) returns (found: bool, e: int)
      requires AllocValid() && |labels| >= 2 && 0 < bi < |rings| && block.num[bi] > 0
      modifies this`block, this`rings
      ensures AllocValid()
      ensures found ==> IsFree(node, size, e) && e >= 256 && Fits(node, size, e, labels)
      ensures !found ==> block == old(block) && rings == old(rings)
    {
      hide FreeOk, BlocksOk, InfoClear, Fits;
      AllocBounds(node, ninfo, block, head, capacity, size, reject, rings, lists);
      found, e := FindInBlock(bi, labels);
      if found {
        ghost var bl := block;
        block := block.(ehead := block.ehead[bi := e]);
        Rehead(node, bl, block, size, rings, bi, e);
        GrowBlocksSame(bl, block, head, lists, |rings|);
        rings := rings[bi := RotateTo(rings[bi], At(rings[bi], e))];
      }
    }

    // The head of the Open ring, its successor and the ring's tail.
    lemma OpenHead()
      requires AllocValid()
      ensures head.open == 0 <==> lists.open == []
      ensures lists.open != [] ==>
                && head.open == lists.open[0] && 0 < head.open < |rings| <= |block.num|
                && SameLength(block) && 2 <= block.num[head.open] <= 256
                && block.prev[head.open] == lists.open[|lists.open| - 1]
                && (|lists.open| > 1 ==> block.next[head.open] == lists.open[1])
                && (head.open == lists.open[|lists.open| - 1] <==> |lists.open| == 1)
    {
      BlocksLinked(block, head, lists, |rings|);
      HeadListed(block, head, lists, |rings|, Open);
      if lists.open != [] {
        assert BlockRing(block, head.open, lists.open, |rings|, Open);
        DropHead(block, head, lists, |rings|, Open, lists.open[0]);
        OpenBlock(block, head, lists, |rings|, lists.open[0]);
      }
    }

    method FindPlaceInterval(labels: seq<byte>) returns (e: int)
      requires AllocValid() && |labels| >= 2
      modifies this`node, this`ninfo, this`block, this`head, this`capacity, this`size, this`reject, this`rings,
          this`lists
      ensures AllocValid() && old(size) <= size && Grown(old(node), old(ninfo), old(size), node, ninfo, size)
      ensures IsFree(node, size, e) && e >= 256 && Fits(node, size, e, labels)
    {
      hide AllocOk, Fits, Grown;
      AllocBounds(node, ninfo, block, head, capacity, size, reject, rings, lists);
      GrownSelf(node, ninfo, size);
      OpenHead();
      var bi := head.open;
      if bi != 0 {
        var bz := block.prev[bi];
        var nc := |labels|;
        while true
          invariant AllocValid() && node == old(node) && ninfo == old(ninfo) && size == old(size)
          invariant lists.open != [] && bi == head.open && bz == lists.open[|lists.open| - 1]
          decreases |lists.open|
        {
          OpenHead();
          if block.num[bi] >= nc && nc <= block.reject[bi] {
            var found;
            found, e := TryBlock(bi, labels);
            if found { return; }
          }
          var bi_ := block.next[bi];
          RejectBlock(bi, nc);
          OpenHead();
          if bi == bz { break; }
          bi := bi_;
        }
      }
      var b := AddBlock();
      e := b * 256;
      FreshPage(old(node), old(ninfo), old(size), node, ninfo, size, labels);
    }

    // Where slot e stands: its block, its ring neighbours, and its block's ring.
    lemma FreeSlotFacts(e: int)
      requires AllocValid() && IsFree(node, size, e)
      ensures 0 <= e / 256 < |rings| && 0 < -node.check[e] < size && 0 < -node.base[e] < size
      ensures (-node.check[e]) / 256 == e / 256
      ensures e / 256 != 0 ==>
                1 <= block.num[e / 256] && e / 256 in lists.Get(KindOf(block.num[e / 256], block.trial[e / 256]))
      ensures e / 256 == 0 ==> 2 <= block.num[0] && block.trial[0] == 0
    {
      RingMembersFree(node, block, size, rings, e / 256, e);
      assert BlockRingOk(node, block.num, block.ehead, rings[e / 256], e / 256);
      assert BlockStatus(block, lists, |rings|, e / 256);
    }

    // One slot fewer in e's block: the block changes ring if its kind changes, and
    // e leaves the free ring unless it was the last slot of its block.
    method Unlink(e: int)
      requires AllocValid() && IsFree(node, size, e)
      modifies this`node, this`block, this`head, this`lists
      ensures 0 <= e / 256 < |rings| <= |block.num| && BlocksOk(block, head, lists, |rings|)
      ensures |node.base| == |node.check| == |old(node).base| == |old(node).check| && e < |node.base|
      ensures 0 <= -old(node).base[e] < |node.base| && 0 <= -old(node).check[e] < |node.base|
      ensures SameLength(block) && block.num == old(block.num)[e / 256 := old(block.num)[e / 256] - 1]
      ensures 0 < block.ehead[0] < 256
      ensures if block.num[e / 256] == 0 && e / 256 != 0
              then node == old(node) && block.ehead == old(block).ehead
              else node == Unthread(old(node), e) &&
                   block.ehead == if e == old(block).ehead[e / 256]
                                  then old(block).ehead[e / 256 := -old(node).check[e]] else old(block).ehead
    {
      hide FreeOk, BlocksOk, BlockRings, InfoClear;
      AllocBounds(node, ninfo, block, head, capacity, size, reject, rings, lists);
      FreeSlotFacts(e);
      BlocksLinked(block, head, lists, |rings|);
      ghost var bl, h, ls := block, head, lists;
      var bi := e / 256;
      block := block.(num := block.num[bi := block.num[bi] - 1]);
      RingsFrame(bl, block, h, ls, |rings|);
      if block.num[bi] == 0 && bi != 0 {
        TransferBlock(bi, Closed, Full);
      } else {
        node := node.(check := node.check[-node.base[e] := node.check[e]]);
        node := node.(base := node.base[-node.check[e] := node.base[e]]);
        if e == block.ehead[bi] {
          block := block.(ehead := block.ehead[bi := -node.check[e]]);
          RingsFrame(bl, block, h, ls, |rings|);
        }
        if bi != 0 && block.num[bi] == 1 && block.trial[bi] != MAX_TRIAL {
          TransferBlock(bi, Open, Closed);
        }
      }
      BlockMoved(bl, h, ls, block, head, lists, |rings|, bi);
    }

    method TakeNode(e: int, lab: byte, from: int)
      requires AllocValid() && IsFree(node, size, e) && 0 <= from
      modifies this`node, this`block, this`head, this`rings, this`lists
      ensures AllocValid() && Claimed(old(node), ninfo, size, node, ninfo, size, e)
      ensures node.base[e] == (if lab != 0 then -1 else 0) && node.check[e] == from
    {
      hide FreeOk, BlocksOk, InfoClear, Claimed, Taken;
      AllocBounds(node, ninfo, block, head, capacity, size, reject, rings, lists);
      ghost var nd, bl := node, block;
      Unlink(e);
      ghost var v := if lab != 0 then -1 else 0;
      if lab != 0 {
        node := node.(base := node.base[e := -1]);
      } else {
        node := node.(base := node.base[e := 0]);
      }
      node := node.(check := node.check[e := from]);
      TakeSlot(nd, node, bl, block, size, rings, e, v, from);
      ClaimedFrom(nd, node, ninfo, size, e, v, from);
      TakenNode(nd, node, size, e, v, from);
      rings := rings[e / 256 := Without(rings[e / 256], At(rings[e / 256], e))];
    }

    method PopEmptyNode(base: int, lab: byte, from: int) returns (e: int)
      requires AllocValid() && 0 <= from < size && !IsFree(node, size, from)
      requires base >= 0 ==> IsFree(node, size, Xor(base, lab))
      modifies this`node, this`ninfo, this`block, this`head, this`capacity, this`size, this`rings, this`lists
      ensures AllocValid() && 0 <= e < size <= |node.base| && old(size) <= size && from < |old(node).base|
      ensures base >= 0 ==> e == Xor(base, lab) && size == old(size) && ninfo == old(ninfo)
      ensures base >= 0 ==> Claimed(old(node), old(ninfo), size, node, ninfo, size, e)
      ensures base < 0 ==> e >= 256 && node.base[from] == Xor(e, lab) && from != e
      ensures base < 0 ==> Claimed(SetBase(old(node), from, Xor(e, lab)), old(ninfo), old(size), node, ninfo, size, e)
      ensures node.base[e] == (if lab != 0 then -1 else 0) && node.check[e] == from
    {
      hide FreeOk, BlocksOk, InfoClear, Claimed, Grown, Xor;
      AllocBounds(node, ninfo, block, head, capacity, size, reject, rings, lists);
      if base < 0 {
        e := FindPlace();
        SlotXor(e, lab);
        GrownFree(old(node), old(ninfo), old(size), node, ninfo, size, from);
        ghost var nd1, inf1 := node, ninfo;
        AllocBounds(node, ninfo, block, head, capacity, size, reject, rings, lists);
        TakeNode(e, lab, from);
        AllocBounds(node, ninfo, block, head, capacity, size, reject, rings, lists);
        ClaimedAfterGrowth(old(node), old(ninfo), old(size), nd1, inf1, size, node, ninfo, e);
        ClaimedThenBase(old(node), old(ninfo), old(size), node, ninfo, size, e, from, Xor(e, lab));
        ClaimedUsed(old(node), old(ninfo), old(size), node, ninfo, size, e, from);
        WriteBase(from, Xor(e, lab));
      } else {
        e := Xor(base, lab);
        TakeNode(e, lab, from);
      }
      AllocBounds(node, ninfo, block, head, capacity, size, reject, rings, lists);
    }

    // Storing into the base of a slot in use keeps the allocator consistent.
    method WriteBase(i: int, v: int)
      requires AllocValid() && 0 <= i < size && !IsFree(node, size, i)
      modifies this`node
      ensures AllocValid() && i < |old(node).base| && node == SetBase(old(node), i, v)
    {
      ghost var nd := node;
      node := node.(base := node.base[i := v]);
      FreeFrame(nd, node, block, size, rings);
    }

    // Slot e lies in block 0 and block 0 has no free slot to thread it to.
    ghost predicate Starved(e: int)
      requires AllocValid()
      reads this
    {
      e / 256 == 0 && block.num[0] == 1
    }

    // One slot more in e's block: e enters the free ring after the ring's head,
    // and the block changes ring if its kind changes.
    method Relink(e: int)
      requires AllocValid() && 0 < e < size && !IsFree(node, size, e)
      requires Starved(e) ==> node.check[block.ehead[0]] == 0
      modifies this`node, this`block, this`head, this`lists
      ensures BlocksOk(block, head, lists, |rings|) && e / 256 < |rings| <= |block.num| == |old(block).num|
      ensures SameLength(block) && 0 < block.ehead[0] < 256
      ensures |node.base| == |node.check| == |old(node).check| && SameLength(old(block))
      ensures e < |old(node).base| == |old(node).check|
      ensures GiveWrites(old(node), node, old(block), block, e)
    {
      hide FreeOk, BlocksOk, BlockRings, InfoClear;
      AllocBounds(node, ninfo, block, head, capacity, size, reject, rings, lists);
      RoomForMore(node, block, size, rings, e);
      RingHeadFacts(e);
      BlocksLinked(block, head, lists, |rings|);
      ghost var bl, h, ls := block, head, lists;
      var bi := e / 256;
      block := block.(num := block.num[bi := block.num[bi] + 1]);
      if block.num[bi] == 1 {
        block := block.(ehead := block.ehead[bi := e]);
        node := Nodes(node.base[e := -e], node.check[e := -e]);
        RingsFrame(bl, block, h, ls, |rings|);
        if bi != 0 {
          TransferBlock(bi, Full, Closed);
        }
      } else {
        var prev := block.ehead[bi];
        var next := -node.check[prev];
        node := Nodes(node.base[e := -prev], node.check[e := -next]);
        node := node.(base := node.base[next := -e]);
        node := node.(check := node.check[prev := -e]);
        RingsFrame(bl, block, h, ls, |rings|);
        if block.num[bi] == 2 || block.trial[bi] == MAX_TRIAL {
          if bi != 0 {
            TransferBlock(bi, Closed, Open);
          }
        }
        ghost var bl1 := block;
        block := block.(trial := block.trial[bi := 0]);
        RingsFrame(bl1, block, head, lists, |rings|);
      }
      BlockMoved(bl, h, ls, block, head, lists, |rings|, bi);
    }

    // The block of a slot in use: its count, its ring, and its free ring's head.
    lemma RingHeadFacts(e: int)
      requires AllocValid() && 0 < e < size && !IsFree(node, size, e)
      ensures 0 <= e / 256 < |rings|
      ensures e / 256 != 0 ==> e / 256 in lists.Get(KindOf(block.num[e / 256], block.trial[e / 256]))
      ensures e / 256 == 0 ==> block.num[0] >= 1 && block.trial[0] == 0
      ensures (if e / 256 == 0 then block.num[0] >= 2 else block.num[e / 256] >= 1) ==>
                var q := block.ehead[e / 256];
                0 < q < size && q != e && q / 256 == e / 256 && 0 < -node.check[q] < size && -node.check[q] != e
      ensures |rings[e / 256]| == FreeCount(block.num, e / 256)
    {
      assert BlockStatus(block, lists, |rings|, e / 256);
      assert BlockRingOk(node, block.num, block.ehead, rings[e / 256], e / 256);
      if FreeCount(block.num, e / 256) > 0 {
        EheadFree(node, block, size, rings, e / 256);
        RingMembersFree(node, block, size, rings, e / 256, block.ehead[e / 256]);
        RingMembersFree(node, block, size, rings, e / 256, -node.check[block.ehead[e / 256]]);
      }
    }

    // Returning a slot. In a starved block 0 there is no ring to join: the links are
    // written through the stale ring head, and one of them overwrites the root's base.
    method PushEmptyNode(e: int)
      requires AllocValid() && 0 < e < size && !IsFree(node, size, e)
      requires Starved(e) ==> node.check[block.ehead[0]] == 0
      modifies this`node, this`ninfo, this`block, this`head, this`reject, this`rings, this`lists
      ensures |old(node).base| == |old(node).check| && |node.base| > 0
      ensures !old(Starved(e)) ==> AllocValid() && Given(old(node), node, size, e) && SameInfoBut(old(ninfo), ninfo, e)
      ensures e >= 256 ==>
                SameLength(old(block)) && SameLength(block) && |block.num| == |old(block.num)| > 0
                && block.num[0] == old(block.num)[0]
      ensures old(Starved(e)) ==> node.base[0] == -e
    {
      hide FreeOk, BlocksOk, InfoClear, Given;
      AllocBounds(node, ninfo, block, head, capacity, size, reject, rings, lists);
      RingHeadFacts(e);
      ghost var nd, bl, starved := node, block, Starved(e);
      Relink(e);
      if !starved {
        GiveSlot(nd, node, bl, block, size, rings, e);
      }
      CountBound(block, head, lists, |rings|, e / 256);
      var bi := e / 256;
      ghost var bl1 := block;
      if block.reject[bi] < reject[block.num[bi]] {
        block := block.(reject := block.reject[bi := reject[block.num[bi]]]);
      }
      ninfo := Infos(ninfo.sibling[e := 0], ninfo.child[e := 0]);
      if !starved {
        rings := rings[e / 256 := GivenRing(rings[e / 256], e)];
        FreeLinksFrame(node, bl1, block, size, rings);
        GrowBlocksSame(bl1, block, head, lists, |rings|);
        GivenClear(nd, node, old(ninfo), ninfo, size, e);
      }
    }

    // ------------------------------------------------------------------ the tree

    ghost predicate TreeValid()
      reads this
    {
      && AllocValid()
      && TreeOk(node, ninfo, Still, size, tree)
      && Covers(node, size, tree, -1)
    }

    method PushSibling(from: int, base: int, lab: byte, flag: bool)
      requires 0 <= from < |ninfo.child| == |ninfo.sibling|
      requires base >= 0 && Xor(base, lab) < |ninfo.sibling|
      requires flag && ninfo.child[from] == 0 ==> Xor(base, 0) < |ninfo.sibling|
      modifies this`ninfo
      ensures Xor(base, lab) < |old(ninfo).sibling| && from < |old(ninfo).child|
      ensures if flag && old(ninfo).child[from] == 0
              then Xor(base, 0) < |old(ninfo).sibling| &&
                   ninfo == Infos(old(ninfo).sibling[Xor(base, lab) := old(ninfo).sibling[Xor(base, 0)]][Xor(base, 0) :=
                       lab], old(ninfo).child)
              else ninfo == Infos(old(ninfo).sibling[Xor(base, lab) := old(ninfo).child[from]],
                  old(ninfo).child[from := lab])
    {
      hide Xor;
      var c := ninfo.child[from];
      if flag && c == 0 {
        var at := Xor(base, c);
        ninfo := ninfo.(sibling := ninfo.sibling[Xor(base, lab) := ninfo.sibling[at]]);
        ninfo := ninfo.(sibling := ninfo.sibling[at := lab]);
      } else {
        ninfo := ninfo.(sibling := ninfo.sibling[Xor(base, lab) := c]);
        ninfo := ninfo.(child := ninfo.child[from := lab]);
      }
    }

    // follow's first case: the slot for the new child is free, or the node has no
    // children yet and any place will do.
    method AddChild(from: int, base: int, lab: byte) returns (to: int)
      requires TreeValid() && from in tree.path && 0 <= from < |node.base| && base == node.base[from]
      requires !IsTerm(tree.path[from]) && (from == 0 ==> lab != 0) && Snoc(tree.path[from], lab) !in tree.at
      requires base >= 0 ==> IsFree(node, size, Xor(base, lab))
      requires base < 0 <==> tree.kids[from] == []
      modifies this
      ensures TreeValid() && OneMore(old(node), old(tree), node, tree, old(tree).path[from], lab)
      ensures to in tree.path && tree.path[to] == Snoc(old(tree).path[from], lab)
      ensures from in tree.path && tree.path[from] == old(tree).path[from]
    {
      hide FreeOk, BlocksOk, InfoClear, Xor, TreeOk, Claimed, Inverse, OneMore;
      ghost var nd, inf, sz, t := node, ninfo, size, tree;
      TreeFacts(nd, inf, Still, sz, t);
      KidsIffBase(nd, inf, sz, t, from);
      AllocBounds(node, ninfo, block, head, capacity, size, reject, rings, lists);
      assert !IsFree(node, size, from);
      to := PopEmptyNode(base, lab, from);
      AllocBounds(node, ninfo, block, head, capacity, size, reject, rings, lists);
      ghost var nd1, inf1 := node, ninfo;
      SlotXor(to, lab);
      SlotXor(if base < 0 then to else base, lab);
      ClaimUnset(nd, inf, sz, t, from, lab, nd1, inf1, size, to);
      ghost var ndOld := SetBase(nd1, from, nd.base[from]);
      ClaimedTree(nd, inf, sz, ndOld, inf1, size, to, Still, t);
      KidsIffBase(ndOld, inf1, size, t, from);
      if t.kids[from] != [] { ChainHead(ndOld, inf1, from, t.kids[from]); }
      PushSibling(from, Xor(to, lab), lab, base >= 0);
      AddedTree(nd, inf, sz, t, from, lab, nd1, inf1, size, to, ninfo);
      AddedView(nd, inf, sz, t, from, lab, nd1, inf1, size, to, ninfo);
      AddedClear(nd, inf, sz, t, from, lab, nd1, inf1, size, to, ninfo);
      tree := WithKid(t, from, lab, to);
    }

    // ------------------------------------------------------------------ relocation

    // Walks two chains in step. The answer is the p side's current label when one
    // of them ends: non-zero iff the n side is the shorter one.
    method Consult(base_n: int, base_p: int, child_n: byte, child_p: byte,
                   ghost n: int, ghost kn: seq<byte>, ghost p: int, ghost kp: seq<byte>) returns (c_p: byte)
      requires Chained(node, ninfo, n, kn) && base_n == node.base[n] && child_n == kn[0] && KidsOk(kn, n)
      requires Chained(node, ninfo, p, kp) && base_p == node.base[p] && child_p == kp[0] && KidsOk(kp, p)
      ensures c_p != 0 <==> |kn| < |kp|
    {
      hide Xor;
      var c_n := child_n;
      c_p := child_p;
      ghost var j := 0;
      while true
        invariant 0 <= j < |kn| && j < |kp| && c_n == kn[j] && c_p == kp[j]
        decreases |kn| - j
      {
        c_n := ninfo.sibling[Xor(base_n, c_n)];
        c_p := ninfo.sibling[Xor(base_p, c_p)];
        if c_n == 0 || c_p == 0 { break; }
        j := j + 1;
      }
    }

    // Lists a chain, with the new label (if any) put first but after label 0.
    method SetChild(base: int, child: byte, lab: int, ghost n: int, ghost ks: seq<byte>) returns (list: seq<byte>)
      requires Chained(node, ninfo, n, ks) && base == node.base[n] && child == ks[0] && KidsOk(ks, n)
      requires -1 <= lab < 256 && (lab == 0 ==> ks[0] != 0)
      ensures list == if lab == -1 then ks else InsertKid(ks, lab)
    {
      hide Xor;
      list := [];
      var c := child;
      ghost var j := 0;
      if c == 0 {
        list := [c];
        c := ninfo.sibling[Xor(base, c)];
        j := 1;
      }
      ghost var j0 := j;
      if lab != -1 {
        list := list + [lab];
      }
      ghost var mid := list;
      while c != 0
        invariant j0 <= j <= |ks| && c == (if j < |ks| then ks[j] else 0)
        invariant list == mid + ks[j0..j]
        decreases |ks| - j
      {
        ExtendSlice(mid, ks, j0, j);
        list := list + [c];
        c := ninfo.sibling[Xor(base, c)];
        j := j + 1;
      }
      assert ks[j0..j] == ks[j0..];
    }

    // Redirects the children of the node moved from slot a to slot to.
    method Recheck(nb: int, to: int, first: byte, ghost a: int, ghost md: Mode)
      requires TreeOk(node, ninfo, md, size, tree) && a in tree.path && a in tree.kids && tree.kids[a] != []
      requires a < |node.base| && nb == node.base[a] && first == tree.kids[a][0] && md.Moving? && a != md.m
      requires to !in tree.path && a != 0
      modifies this`node
      ensures |old(node).check| == |node.check| == |node.base| && node.base == old(node).base
      ensures forall i :: i in tree.path && i < |node.check| ==>
                node.check[i] == if old(node).check[i] == a then to else old(node).check[i]
      ensures forall i :: 0 <= i < |node.check| && i !in tree.path ==> node.check[i] == old(node).check[i]
    {
      hide Xor, TreeOk, Inverse;
      TreeFacts(node, ninfo, md, size, tree);
      NodeFacts(node, ninfo, md, size, tree, a);
      ghost var ks, nd := tree.kids[a], node;
      var c := first;
      ghost var j := 0;
      while true
        invariant 0 <= j < |ks| && c == ks[j]
        invariant |nd.check| == |node.check| == |node.base| && node.base == nd.base
        invariant forall i :: 0 <= i < |nd.check| ==>
                    node.check[i] == if exists k :: 0 <= k < j && i == Xor(nb, ks[k]) then to else nd.check[i]
        decreases |ks| - j
      {
        ChainSlot(nd, ninfo, md, size, tree, a, j);
        node := node.(check := node.check[Xor(nb, c) := to]);
        c := ninfo.sibling[Xor(nb, c)];
        j := j + 1;
        if c == 0 { break; }
      }
      forall i | i in tree.path ensures node.check[i] == if nd.check[i] == a then to else nd.check[i]
      {
        GrandchildSlots(nd, ninfo, md, size, tree, a, i);
      }
      forall i | 0 <= i < |node.check| && i !in tree.path ensures node.check[i] == nd.check[i]
      {
        forall k | 0 <= k < |ks| ensures i != Xor(nb, ks[k]) { ChainSlot(nd, ninfo, md, size, tree, a, k); }
      }
    }

    // Claims the k-th slot of the runway and chains it to the next.
    method ClaimNext(list: seq<byte>, k: int, nb: int, m: int, ghost ob: int) returns (to: int)
      requires AllocValid() && 0 <= k < |list| && nb >= 256
      requires Movement(node, ninfo, size, tree, m, ob, nb, list, k, k, -1)
      modifies this`node, this`ninfo, this`block, this`head, this`capacity, this`size, this`rings, this`lists
      ensures AllocValid() && size == old(size) && to == Xor(nb, list[k]) && to !in tree.path && 0 < to < size
      ensures Movement(node, ninfo, size, tree, m, ob, nb, list, k, k + 1, to)
      ensures SameView(old(node), tree, node, tree) && |node.base| == |node.check| == |ninfo.child| >= size
      ensures node.check[to] == m && node.base[to] == (if list[k] != 0 then -1 else 0) && ninfo.child[to] == 0
      ensures forall i :: i in tree.path && 0 <= i < |node.base| && i < |old(node).base| ==>
                node.base[i] == old(node).base[i]
    {
      hide FreeOk, BlocksOk, Xor, TreeOk, Claimed, SameView, InfoClear, KidsOk;
      ghost var nd, inf, md := node, ninfo, Moving(m, ob, Below(list, k));
      AllocBounds(node, ninfo, block, head, capacity, size, reject, rings, lists);
      MovementFacts(node, ninfo, size, tree, m, ob, nb, list, k, k, -1);
      assert !IsFree(node, size, m);
      SlotXor(nb, list[k]);
      to := PopEmptyNode(nb, list[k], m);
      AllocBounds(node, ninfo, block, head, capacity, size, reject, rings, lists);
      ghost var inf1 := ninfo;
      ClaimedUsed2(nd, inf, size, node, inf1, size, to);
      ninfo := ninfo.(sibling := ninfo.sibling[to := if k == |list| - 1 then 0 else list[k + 1]]);
      PopStep(nd, inf, node, ninfo, size, tree, m, ob, nb, list, k);
      MovementFacts(node, ninfo, size, tree, m, ob, nb, list, k, k + 1, to);
      AllocUsed(node, inf1, node, ninfo, block, head, capacity, size, reject, rings, lists);
    }

    // The child moves into its new slot and its own children follow.
    method CarryChild(list: seq<byte>, k: int, to: int, to_: int, ghost m: int, ghost ob: int, ghost nb: int)
      requires AllocValid() && 0 <= k < |list| && nb >= 256 && to == Xor(nb, list[k])
      requires Movement(node, ninfo, size, tree, m, ob, nb, list, k, k + 1, to) && list[k] in tree.kids[m]
      requires to !in tree.path && 0 < to < size && to < |node.check| && node.check[to] == m
      requires to < |ninfo.child| && ninfo.child[to] == 0 && ob >= 0 && to_ == Xor(ob, list[k])
      modifies this`node, this`ninfo, this`tree
      ensures AllocValid() && to_ in old(tree).path && to_ in old(tree).kids && to_ != m
      ensures tree == Relabel(old(tree), to_, to)
      ensures Movement(node, ninfo, size, tree, m, ob, nb, list, k + 1, k + 1, to_)
      ensures SameView(old(node), old(tree), node, tree) && m in old(tree).kids && tree.kids[m] == old(tree).kids[m]
      ensures m in old(tree).path
      ensures 0 <= to_ < |old(node).base| && to < |old(node).base|
      ensures node.base == old(node).base[to := old(node).base[to_]]
      ensures 0 < to_ < size && !IsFree(node, size, to_) && tree.path[m] == old(tree).path[m]
    {
      hide FreeOk, BlocksOk, Xor, TreeOk, SameView, InfoClear, KidsOk;
      ghost var nd, inf, t := node, ninfo, tree;
      AllocBounds(node, ninfo, block, head, capacity, size, reject, rings, lists);
      MovementFacts(node, ninfo, size, tree, m, ob, nb, list, k, k + 1, to);
      CarryTest(node, ninfo, size, tree, m, ob, nb, list, k, k + 1, to);
      node := node.(base := node.base[to := node.base[to_]]);
      if node.base[to] > 0 && list[k] != 0 {
        var c := ninfo.child[to_];
        ninfo := ninfo.(child := ninfo.child[to := c]);
        CarryFrame(nd, inf, node, ninfo, size, t, m, ob, nb, list, k);
        Recheck(node.base[to], to, c, to_, Moving(m, ob, Below(list, k)));
      }
      CarryStep(nd, inf, node, ninfo, size, t, m, ob, nb, list, k);
      tree := Relabel(t, to_, to);
      CarryCovers(nd, inf, node, ninfo, size, t, to_, to, list[k], m);
      CarryAlloc(nd, inf, node, ninfo, size, t, to_, to, list[k], m);
      AllocUsed(nd, inf, node, ninfo, block, head, capacity, size, reject, rings, lists);
    }

    // The slot a moved child leaves behind is the one the new child asked for.
    method ReuseSlot(from_n: int, to_: int, lab: byte, base_n: int,
                     ghost list: seq<byte>, ghost k: int, ghost m: int, ghost ob: int, ghost nb: int)
      requires AllocValid() && nb >= 256
      requires Movement(node, ninfo, size, tree, m, ob, nb, list, k, k, to_)
      requires forall x :: x in list[..k] ==> x in tree.kids[m]
      requires to_ !in tree.path && 0 < to_ < size && !IsFree(node, size, to_)
      requires from_n in tree.path && from_n in tree.kids && tree.kids[from_n] != [] && from_n != m
      requires 0 <= from_n < |node.base|
      requires base_n == node.base[from_n] && base_n >= 0 && to_ == Xor(base_n, lab) && (from_n == 0 ==> lab != 0)
      requires Snoc(tree.path[from_n], lab) !in tree.at
      modifies this`node, this`ninfo, this`tree
      ensures AllocValid() && from_n in old(tree).path && from_n in old(tree).kids
      ensures tree == WithKid(old(tree), from_n, lab, to_)
      ensures Movement(node, ninfo, size, tree, m, ob, nb, list, k, k, -1)
      ensures OneMore(old(node), old(tree), node, tree, old(tree).path[from_n], lab)
      ensures m in old(tree).kids && tree.kids[m] == old(tree).kids[m]
      ensures from_n < |node.base| && from_n < |old(node).base| && node.base[from_n] == old(node).base[from_n]
    {
      hide FreeOk, BlocksOk, Xor, TreeOk, OneMore, InfoClear, KidsOk;
      ghost var nd, inf, t := node, ninfo, tree;
      ghost var md := Moving(m, ob, Below(list, k));
      AllocBounds(node, ninfo, block, head, capacity, size, reject, rings, lists);
      MovementFacts(node, ninfo, size, tree, m, ob, nb, list, k, k, to_);
      NodeFacts(node, ninfo, md, size, tree, from_n);
      ChainHead(node, ninfo, from_n, tree.kids[from_n]);
      ChainSlot(node, ninfo, md, size, tree, from_n, 0);
      PushSibling(from_n, base_n, lab, true);
      ninfo := ninfo.(child := ninfo.child[to_ := 0]);
      if lab != 0 {
        node := node.(base := node.base[to_ := -1]);
      } else {
        node := node.(base := node.base[to_ := 0]);
      }
      node := node.(check := node.check[to_ := from_n]);
      assert Reuses(nd, inf, node, ninfo, t, from_n, lab, to_);
      ReuseAlloc(nd, inf, node, ninfo, md, size, t, from_n, lab, to_);
      ReuseStep(nd, inf, node, ninfo, size, t, m, ob, nb, list, k, from_n, lab, to_);
      tree := WithKid(t, from_n, lab, to_);
      AllocUsed(nd, inf, node, ninfo, block, head, capacity, size, reject, rings, lists);
    }

    // One turn of the relocation loop: the child under list[k] moves to its new
    // slot, or the new child is put there if list[k] is its label.
    method MoveOne(flag: bool, list: seq<byte>, k: int, from: int, base_: int, base: int, from_n: int, to_pn: int,
        lab: byte,
                   ghost q: Quest, ghost nd0: Nodes, ghost t0: Tree) returns (from_n': int)
      requires AllocValid() && 0 <= k < |list|
      requires q == Quest(flag, q.pn, lab, q.bn, to_pn, q.c, from, base_, base, list)
      requires OnTheWay(q, nd0, t0, node, ninfo, size, tree, from_n, k)
      modifies this
      ensures AllocValid() && OnTheWay(q, nd0, t0, node, ninfo, size, tree, from_n', k + 1)
    {
      hide FreeOk, BlocksOk, Xor, TreeOk, SameView, OneMore, InfoClear, KidsOk, Movement, QuestOk, ViewSo, Covers,
           InsertKid, Given;
      ghost var more := Arrived(q, k);
      QuestFacts(q, node, tree, from_n, more);
      ghost var nd, t := node, tree;
      from_n' := from_n;
      MovementFacts(node, ninfo, size, tree, from, base_, base, list, k, k, -1);
      ArrivedStep(q, k);
      WantedLabel(base_, list[k], if flag then lab else q.c);
      var to := ClaimNext(list, k, base, from, base_);
      MovementFacts(node, ninfo, size, tree, from, base_, base, list, k, k + 1, to);
      KeepQuest(q, nd, t, node, tree, from_n, from_n, more);
      ViewSoTrans(more, nd0, t0, nd, t, node, tree, q.pn, lab);
      var to_ := Xor(base_, list[k]);
      if flag && to_ == to_pn {
        NotYet(q, k);
        DoneNew(q, nd0, t0, node, ninfo, size, tree, from_n, k);
        tree := WithMover(tree, from, list, lab, to);
        return;
      }
      ListedKids(q, node, tree, from_n, more, list[k]);
      ghost var nd1, t1 := node, tree;
      CarryChild(list, k, to, to_, from, base_, base);
      MovementFacts(node, ninfo, size, tree, from, base_, base, list, k + 1, k + 1, to_);
      if !flag && to_ == from_n {
        from_n' := to;
      }
      FollowQuest(q, nd1, t1, node, tree, from_n, from_n', more, to_, to);
      ViewSoTrans(more, nd0, t0, nd1, t1, node, tree, q.pn, lab);
      forall x | x in list[..k + 1] ensures x in tree.kids[from]
      {
        ListedKids(q, node, tree, from_n', more, x);
      }
      QuestFacts(q, node, tree, from_n', more);
      if !flag && to_ == to_pn {
        NotYet(q, k);
        ghost var nd2, t2 := node, tree;
        SlotXor(q.bn, lab);
        ReuseSlot(from_n', to_, lab, Xor(to_pn, lab), list, k + 1, from, base_, base);
        DoneReuse(q, nd0, t0, nd2, t2, node, ninfo, size, from_n', k);
      } else {
        ghost var nd2, inf2 := node, ninfo;
        SlotXor(base_, list[k]);
        AllocBounds(node, ninfo, block, head, capacity, size, reject, rings, lists);
        PushEmptyNode(to_);
        GiveStep(nd2, inf2, node, ninfo, size, tree, from, base_, base, list, k + 1, to_);
        GivenSame(nd2, inf2, size, node, ninfo, to_, Moving(from, base_, Below(list, k + 1)), tree, list, from, base_,
            base, k + 1);
        MovementFacts(node, ninfo, size, tree, from, base_, base, list, k + 1, k + 1, -1);
        KeepQuest(q, nd2, tree, node, tree, from_n', from_n', more);
        ViewSoTrans(more, nd0, t0, nd2, tree, node, tree, q.pn, lab);
      }
    }

    // Which family moves, and its labels in chain order with the new one included.
    method ChooseFamily(from_n: int, base_n: int, from_p: int, base_p: int, lab: byte)
        returns (flag: bool, list: seq<byte>)
      requires from_n in tree.kids && Chained(node, ninfo, from_n, tree.kids[from_n])
      requires KidsOk(tree.kids[from_n], from_n)
      requires from_p in tree.kids && Chained(node, ninfo, from_p, tree.kids[from_p])
      requires KidsOk(tree.kids[from_p], from_p)
      requires base_n == node.base[from_n] && base_p == node.base[from_p] && lab !in tree.kids[from_n]
      ensures flag <==> |tree.kids[from_n]| < |tree.kids[from_p]|
      ensures list == if flag then InsertKid(tree.kids[from_n], lab) else tree.kids[from_p]
    {
      hide Xor, KidsOk, InsertKid, Chained;
      ghost var kn, kp := tree.kids[from_n], tree.kids[from_p];
      ChainHead(node, ninfo, from_n, kn);
      ChainHead(node, ninfo, from_p, kp);
      var c_p := Consult(base_n, base_p, ninfo.child[from_n], ninfo.child[from_p], from_n, kn, from_p, kp);
      flag := c_p != 0;
      if flag {
        HeadZero(kn, lab);
        list := SetChild(base_n, ninfo.child[from_n], lab, from_n, kn);
      } else {
        list := SetChild(base_p, ninfo.child[from_p], -1, from_p, kp);
      }
    }

    // A base under which every label has a free slot.
    method FindRunway(list: seq<byte>) returns (base: int)
      requires AllocValid() && list != []
      modifies this`node, this`ninfo, this`block, this`head, this`capacity, this`size, this`reject, this`rings,
          this`lists
      ensures AllocValid() && old(size) <= size && Grown(old(node), old(ninfo), old(size), node, ninfo, size)
      ensures 256 <= base < size && forall j :: 0 <= j < |list| ==> IsFree(node, size, Xor(base, list[j]))
    {
      hide AllocOk, Xor, Grown;
      var e;
      if |list| == 1 {
        e := FindPlace();
      } else {
        e := FindPlaceInterval(list);
      }
      SlotXor(e, list[0]);
      AllocBounds(node, ninfo, block, head, capacity, size, reject, rings, lists);
      base := Xor(e, list[0]);
    }

    // A runway for the labels, and the mover pointed at it.
    method Embark(flag: bool, list: seq<byte>, from: int, lab: byte, ghost n: int, ghost q: Quest) returns (base: int)
      requires TreeValid()
      requires from in tree.path && from in tree.kids && from != 0 && tree.kids[from] != [] && 0 <= from < |node.base|
      requires n in tree.path && n in tree.kids && tree.kids[n] != [] && n != 0 && 0 <= n < |node.base|
      requires list != [] && KidsOk(list, from)
      requires (flag && list[0] == lab) || (from < |ninfo.child| && ninfo.child[from] == list[0])
      requires q.bn == node.base[n] && q.bn >= 0
      requires q == Quest(flag, tree.path[n], lab, node.base[n], Xor(q.bn, lab), q.c, from, node.base[from], q.nb, list)
      requires !IsTerm(q.pn) && Snoc(q.pn, q.l) !in tree.at
      requires if flag then from == n && list == InsertKid(tree.kids[n], lab) && lab !in tree.kids[n]
               else from != n && tree.kids[from] == list && q.c in list && q.ob >= 0 && q.want == Xor(q.ob, q.c)
      modifies this`node, this`ninfo, this`block, this`head, this`capacity, this`size, this`reject, this`rings,
          this`lists
      ensures AllocValid() && OnTheWay(q.(nb := base), old(node), tree, node, ninfo, size, tree, n, 0) && base >= 256
    {
      hide AllocOk, Xor, TreeOk, SameView, KidsOk, InsertKid, Grown, OnTheWay, Inverse;
      ghost var nd0, inf0 := node, ninfo;
      TreeFacts(node, ninfo, Still, size, tree);
      base := FindRunway(list);
      AllocBounds(node, ninfo, block, head, capacity, size, reject, rings, lists);
      GrownTree(nd0, inf0, old(size), node, ninfo, size, tree);
      ghost var nd1, inf1 := node, ninfo;
      MoverUsed(nd1, size, tree, from);
      if flag && list[0] == lab {
        ninfo := ninfo.(child := ninfo.child[from := lab]);
      }
      node := node.(base := node.base[from := base]);
      assert ninfo == Infos(inf1.sibling, inf1.child[from := list[0]]);
      AllocUsed(nd1, inf1, node, ninfo, block, head, capacity, size, reject, rings, lists);
      Depart(q.(nb := base), nd0, tree, nd1, inf1, node, ninfo, size, tree, n);
    }

    method Resolve(from_n: int, base_n: int, lab: byte) returns (to: int, from_n': int)
      requires TreeValid()
      requires from_n in tree.path && from_n in tree.kids && tree.kids[from_n] != []
      requires 0 <= from_n < |node.base| && base_n == node.base[from_n] && base_n >= 0 && (from_n == 0 ==> lab != 0)
      requires 0 < Xor(base_n, lab) < |node.check| && node.check[Xor(base_n, lab)] >= 0
      requires node.check[Xor(base_n, lab)] != from_n
      modifies this
      ensures TreeValid() && OneMore(old(node), old(tree), node, tree, old(tree).path[from_n], lab)
      ensures to in tree.path && tree.path[to] == Snoc(old(tree).path[from_n], lab)
      ensures from_n' in tree.path && tree.path[from_n'] == old(tree).path[from_n]
    {
      hide AllocOk, Xor, TreeOk, SameView, OneMore, KidsOk, Movement, InsertKid, OnTheWay, Inverse, Chained;
      ghost var nd0, t0 := node, tree;
      Conflict(node, ninfo, size, tree, from_n, lab);
      ghost var kn := tree.kids[from_n];
      ChainHead(node, ninfo, from_n, kn);
      InsertMembers(kn, from_n, lab);
      var to_pn := Xor(base_n, lab);
      var from_p := node.check[to_pn];
      var base_p := node.base[from_p];
      ghost var kp, c := tree.kids[from_p], tree.path[to_pn].lab;
      ChainHead(node, ninfo, from_p, kp);
      var flag, list := ChooseFamily(from_n, base_n, from_p, base_p, lab);
      FirstChild(flag, kn, kp, lab, list);
      var from := if flag then from_n else from_p;
      var base_ := if flag then base_n else base_p;
      ghost var q := Quest(flag, tree.path[from_n], lab, base_n, to_pn, c, from, base_, 0, list);
      var base := Embark(flag, list, from, lab, from_n, q);
      q := q.(nb := base);
      from_n' := from_n;
      for k := 0 to |list|
        invariant AllocValid() && OnTheWay(q, nd0, t0, node, ninfo, size, tree, from_n', k)
      {
        from_n' := MoveOne(flag, list, k, from, base_, base, from_n', to_pn, lab, q, nd0, t0);
      }
      Landed(q, nd0, t0, node, ninfo, size, tree, from_n');
      to := if flag then Xor(base, lab) else to_pn;
    }

    // ------------------------------------------------------------- following a label

    // The child of from under lab, created if need be; from itself may move.
    method Follow(from: int, lab: byte) returns (to: int, from': int)
      requires TreeValid() && from in tree.path && !IsTerm(tree.path[from]) && (from == 0 ==> lab != 0)
      modifies this
      ensures TreeValid() && from' in tree.path && tree.path[from'] == old(tree).path[from]
      ensures to in tree.path && tree.path[to] == Snoc(old(tree).path[from], lab)
      ensures if Snoc(old(tree).path[from], lab) in old(tree).at
              then node == old(node) && tree == old(tree)
              else OneMore(old(node), old(tree), node, tree, old(tree).path[from], lab)
    {
      hide AllocOk, Xor, TreeOk, OneMore, Chained, Covers;
      TreeFacts(node, ninfo, Still, size, tree);
      KidsIffBase(node, ninfo, size, tree, from);
      from' := from;
      to := 0;
      var base := node.base[from];
      if base >= 0 { StepExact(node, ninfo, size, tree, from, lab); SlotNotRoot(node, ninfo, size, tree, from, lab); }
      else { NoKidYet(node, ninfo, size, tree, from, lab); }
      if base < 0 || node.check[Xor(base, lab)] < 0 {
        to := AddChild(from, base, lab);
      } else if node.check[Xor(base, lab)] != from {
        to, from' := Resolve(from, base, lab);
      } else {
        to := Xor(base, lab);
      }
    }

    // -------------------------------------------------------------------- the map

    ghost predicate Valid()
      reads this
    {
      TreeValid() && Bushy(tree, Root) && PathsOk(tree)
    }

    // In the middle of an update: only the node at p may be without children.
    ghost predicate Growing(p: Path, from: int)
      reads this
    {
      TreeValid() && Bushy(tree, p) && PathsOk(tree) && from in tree.path && tree.path[from] == p
    }

    lemma Arranged()
      requires TreeValid()
      ensures Placed(node, tree)
    {
      PlacedTree(node, ninfo, Still, size, tree);
    }

    ghost function Contents(): map<Key, int>
      reads this
      requires TreeValid()
    {
      Arranged();
      ContentsOf(node, tree)
    }

    // One label of an escaped key.
    method FollowLabel(from: int, lab: byte, ghost p: Path) returns (to: int)
      requires Growing(p, from) && lab != 0 && Readable(Snoc(p, lab)) && !IsTerm(p)
      modifies this
      ensures Growing(Snoc(p, lab), to)
      ensures Contents() == old(Contents())
    {
      hide AllocOk, TreeOk, OneMore, Covers, Bushy, Readable, PathsOk;
      ghost var nd, t := node, tree;
      Arranged();
      ghost var before := Contents();
      SamePath(tree, from);
      var from';
      to, from' := Follow(from, lab);
      Arranged();
      SamePath(tree, to);
      if Snoc(p, lab) in t.at {
        BushyStep(tree, p, lab, node, ninfo, size);
      } else {
        MoreContents(nd, t, node, tree, p, lab);
        MorePathsOk(nd, t, node, tree, p, lab);
        BushyMore(nd, t, node, tree, p, lab);
      }
    }

    lemma SamePath(t: Tree, i: int)
      requires TreeOk(node, ninfo, Still, size, t) && i in t.path
      ensures t.path[i] in t.at && t.at[t.path[i]] == i
    {
      TreeFacts(node, ninfo, Still, size, t);
    }

    method UpdateEntry(from: int, word: byte, sp: bool, ghost p: Path) returns (to: int)
      requires Growing(p, from) && !IsTerm(p) && (if sp then word != 0 && Readable(Snoc(p, word)) else Read(p).Plain?)
      modifies this
      ensures Growing(if sp then Snoc(p, word) else Step(p, word), to)
      ensures Contents() == old(Contents())
      decreases !sp
    {
      hide TreeValid, Bushy, PathsOk, Readable, Read;
      if !sp {
        StepReadable(p, word);
        if word == 0 {
          to := FollowLabel(from, PERCENT, p);
          to := UpdateEntry(to, ZERO, true, Snoc(p, PERCENT));
        } else if word == PERCENT {
          to := FollowLabel(from, PERCENT, p);
          to := UpdateEntry(to, PERCENT, true, Snoc(p, PERCENT));
        } else {
          to := FollowLabel(from, word, p);
        }
      } else {
        to := FollowLabel(from, word, p);
      }
    }

    // The value slot of a key.
    method FollowEnd(from: int, ghost p: Path) returns (to: int)
      requires Growing(p, from) && Read(p).Plain? && p != Root && !IsTerm(p)
      modifies this
      ensures TreeValid() && Bushy(tree, Root) && PathsOk(tree) && to in tree.path && tree.path[to] == Snoc(p, 0)
      ensures Contents() == if Read(p).key in old(Contents()) then old(Contents())
                else old(Contents())[Read(p).key := 0]
    {
      hide AllocOk, TreeOk, OneMore, Covers, Bushy, PathsOk, Read;
      ghost var nd, t := node, tree;
      Arranged();
      SamePath(tree, from);
      RootPath();
      EncodeRead(p);
      ContentsAt(node, tree, Read(p).key);
      var from';
      to, from' := Follow(from, 0);
      Arranged();
      SamePath(tree, to);
      if Snoc(p, 0) in t.at {
        BushyStep(tree, p, 0, node, ninfo, size);
      } else {
        MoreContents(nd, t, node, tree, p, 0);
        MorePathsOk(nd, t, node, tree, p, 0);
        BushyMore(nd, t, node, tree, p, 0);
      }
      BushyTerm(tree, p);
    }

    lemma RootPath()
      requires TreeValid()
      ensures 0 in tree.path && tree.path[0] == Root
    {
      TreeFacts(node, ninfo, Still, size, tree);
    }

    method Update(key: Key, value: int) returns (r: int)
      requires Valid()
      modifies this
      ensures Valid()
      ensures key == [] ==> r == -1 && Contents() == old(Contents())
      ensures key != [] ==> Contents() == old(Contents())[key := value]
      ensures key != [] ==> r == if key in old(Contents()) then old(Contents())[key] else 0
    {
      hide TreeValid, Bushy, PathsOk, Read, Encode, ContentsOf, Contents;
      if key == [] {
        return -1;
      }
      ghost var was := Contents();
      RootPath();
      var from := 0;
      var pos := 0;
      assert Encode(key[..0]) == Root by { EncodeEmpty(); assert key[..0] == []; }
      while pos < |key|
        invariant 0 <= pos <= |key|
        invariant Growing(Encode(key[..pos]), from) && Contents() == was
      {
        EncodeNext(key, pos);
        ReadEncode(key[..pos]);
        EncodeNotTerm(key[..pos]);
        from := UpdateEntry(from, key[pos], false, Encode(key[..pos]));
        pos := pos + 1;
      }
      assert key[..|key|] == key;
      ReadEncode(key);
      EncodeNotTerm(key);
      var to := FollowEnd(from, Encode(key));
      r := SwapValue(to, value, key);
    }

    // The old value out, the new one in.
    method SwapValue(to: int, value: int, ghost key: Key) returns (r: int)
      requires Valid() && to in tree.path && tree.path[to] == KeyPath(key)
      modifies this`node
      ensures Valid() && Contents() == old(Contents())[key := value]
      ensures key in old(Contents()) && r == old(Contents())[key]
    {
      hide TreeValid, Bushy, PathsOk, Encode, ContentsOf;
      Arranged();
      StoreContents(node, tree, to, value, key);
      r := node.base[to];
      Store(to, value);
    }

    method Store(i: int, v: int)
      requires TreeValid() && i in tree.path && IsTerm(tree.path[i])
      modifies this`node
      ensures TreeValid() && 0 <= i < |old(node).base| && node == SetBase(old(node), i, v)
    {
      hide AllocOk, TreeOk;
      ghost var nd := node;
      TreeFacts(node, ninfo, Still, size, tree);
      AllocBounds(node, ninfo, block, head, capacity, size, reject, rings, lists);
      StoreValue(node, ninfo, size, tree, i, v);
      node := node.(base := node.base[i := v]);
      AllocUsed(nd, ninfo, node, ninfo, block, head, capacity, size, reject, rings, lists);
    }

    // ------------------------------------------------------------------- searching

    // One label down, if the child is there.
    method Hop(from: int, lab: byte, ghost p: Path) returns (to: int, ok: bool)
      requires Valid() && from in tree.path && tree.path[from] == p && !IsTerm(p) && (from == 0 ==> lab != 0)
      ensures ok <==> Snoc(p, lab) in tree.at
      ensures ok ==> to in tree.path && tree.path[to] == Snoc(p, lab) && to == tree.at[Snoc(p, lab)] && 0 < to
    {
      hide AllocOk, Xor, TreeOk, Covers, PathsOk;
      TreeFacts(node, ninfo, Still, size, tree);
      BushyBase(from);
      StepExact(node, ninfo, size, tree, from, lab);
      SlotNotRoot(node, ninfo, size, tree, from, lab);
      to := node.base[from];
      to := Xor(to, lab);
      ok := node.check[to] == from;
    }

    lemma BushyBase(from: int)
      requires Valid() && from in tree.path && !IsTerm(tree.path[from])
      ensures 0 <= from < |node.base| && (from == 0 || 256 <= node.base[from] < size) && node.base[from] >= 0
      ensures from in tree.kids && tree.kids[from] != [] && Chained(node, ninfo, from, tree.kids[from])
      ensures KidsOk(tree.kids[from], from)
    {
      hide AllocOk, Xor, TreeOk, Covers, PathsOk, Chained;
      TreeFacts(node, ninfo, Still, size, tree);
      NodeFacts(node, ninfo, Still, size, tree, from);
      KidsIffBase(node, ninfo, size, tree, from);
      if tree.path[from] == Root { assert tree.at[Root] == 0; }
    }

    // The value kept under a node, if any.
    method ValueAt(from: int, ghost p: Path) returns (r: int, ok: bool)
      requires Valid() && from in tree.path && tree.path[from] == p && !IsTerm(p)
      ensures ok <==> Snoc(p, 0) in tree.at
      ensures ok ==>
                tree.at[Snoc(p, 0)] in tree.path && 0 <= tree.at[Snoc(p, 0)] < |node.base|
                && r == node.base[tree.at[Snoc(p, 0)]]
    {
      hide AllocOk, Xor, TreeOk, Covers, PathsOk;
      TreeFacts(node, ninfo, Still, size, tree);
      BushyBase(from);
      XorZero(node.base[from]);
      if from == 0 {
        NoEmptyKey(tree);
      } else {
        StepExact(node, ninfo, size, tree, from, 0);
      }
      var n := Xor(node.base[from], 0);
      ok := node.check[n] == from;
      r := node.base[n];
    }

    // One byte of a key: one label, or two when the byte is escaped.
    method HopByte(from: int, b: byte, ghost p: Path) returns (to: int, ok: bool)
      requires Valid() && from in tree.path && tree.path[from] == p && Read(p).Plain?
      ensures ok <==> Step(p, b) in tree.at
      ensures ok ==> to in tree.path && tree.path[to] == Step(p, b) && Read(Step(p, b)).Plain?
    {
      hide TreeValid, Bushy, PathsOk, Readable;
      AtUpClosed();
      StepReadable(p, b);
      PlainNotTerm(p);
      RootOnly(from);
      var word, again := b, SPACE;
      if b == 0 {
        word, again := PERCENT, ZERO;
      } else if b == PERCENT {
        word, again := PERCENT, PERCENT;
      }
      to, ok := Hop(from, word, p);
      if ok && again != SPACE {
        to, ok := Hop(to, again, Snoc(p, word));
      }
    }

    lemma RootOnly(from: int)
      requires TreeValid() && from in tree.path
      ensures from == 0 <==> tree.path[from] == Root
    {
      TreeFacts(node, ninfo, Still, size, tree);
    }

    lemma AtUpClosed()
      requires TreeValid()
      ensures UpClosed(tree)
    {
      TreeUpClosed(node, ninfo, Still, size, tree);
    }

    // find: walks the escaped bytes of key from a node, and looks for a value there.
    method Find(key: Key, from: int, pos: int, ghost p: Path) returns (r: int, from': int)
      requires Valid() && from in tree.path && tree.path[from] == p && Read(p).Plain? && 0 <= pos <= |key|
      ensures from' in tree.path
      ensures Extend(p, key[pos..]) !in tree.at ==> r == NO_PATH
      ensures Extend(p, key[pos..]) in tree.at ==>
                tree.path[from'] == Extend(p, key[pos..]) && Read(tree.path[from']).Plain?
      ensures Extend(p, key[pos..]) in tree.at ==> Looked(Extend(p, key[pos..]), r)
    {
      hide TreeValid, Bushy, PathsOk, Encode, Read, UpClosed;
      ghost var ks := key[pos..];
      AtUpClosed();
      from' := from;
      var i := pos;
      assert ks[..0] == [];
      while i < |key|
        invariant pos <= i <= |key| && from' in tree.path && tree.path[from'] == Extend(p, ks[..i - pos])
        invariant Read(tree.path[from']).Plain?
      {
        ghost var q := tree.path[from'];
        ExtendNext(p, ks, i - pos);
        if Extend(p, ks) in tree.at { ExtendUp(tree, p, ks, i - pos + 1); }
        var to, ok := HopByte(from', key[i], q);
        if !ok {
          return NO_PATH, from';
        }
        from' := to;
        i := i + 1;
      }
      assert ks[..|ks|] == ks;
      PlainNotTerm(tree.path[from']);
      InAt(from');
      var ok;
      r, ok := ValueAt(from', tree.path[from']);
      if !ok {
        r := NO_VALUE;
      }
    }

    // What a search that reached path q reports.
    ghost predicate Looked(q: Path, r: int)
      reads this
    {
      if Snoc(q, 0) in tree.at
      then 0 <= tree.at[Snoc(q, 0)] < |node.base| && r == node.base[tree.at[Snoc(q, 0)]]
      else r == NO_VALUE
    }

    lemma InAt(i: int)
      requires TreeValid() && i in tree.path
      ensures tree.path[i] in tree.at
    {
      TreeFacts(node, ninfo, Still, size, tree);
    }

    // What a search for key reports, in terms of the map.
    lemma LookedUp(key: Key, r: int)
      requires Valid()
      ensures Encode(key) !in tree.at ==> key !in Contents()
      ensures Encode(key) in tree.at && Looked(Encode(key), r) ==>
                r == if key in Contents() then Contents()[key] else NO_VALUE
    {
      Arranged();
      ContentsAt(node, tree, key);
      AtUpClosed();
    }

    method ExactMatchSearch(key: Key) returns (r: int)
      requires Valid()
      ensures r == if key in Contents() && Contents()[key] != NO_PATH then Contents()[key] else NO_VALUE
    {
      hide TreeValid, Bushy, PathsOk, Encode, Read, ContentsOf, Looked, Extend;
      RootPath();
      ReadRoot();
      StartAtRoot(key);
      var from;
      r, from := Find(key, 0, 0, Root);
      LookedUp(key, r);
      if r == NO_PATH {
        r := NO_VALUE;
      }
    }

    lemma StartAtRoot(key: Key)
      ensures Extend(Root, key[0..]) == Encode(key)
    {
      ExtendEncode([], key);
      EncodeEmpty();
      assert [] + key == key && key[0..] == key;
    }

    // One label down on behalf of byte pos, noting a value met there.
    method HopNoting(from: int, lab: byte, pos: int, ret: int, len: int, ghost p: Path)
        returns (to: int, ok: bool, ret': int, len': int)
      requires Valid() && from in tree.path && tree.path[from] == p && !IsTerm(p) && lab != 0
      requires !Read(Snoc(p, lab)).Garbled?
      ensures ok <==> Snoc(p, lab) in tree.at
      ensures ok ==> to in tree.path && tree.path[to] == Snoc(p, lab)
      ensures ok && Snoc(Snoc(p, lab), 0) in tree.at ==> Looked(Snoc(p, lab), ret') && len' == pos + 1
      ensures !ok || Snoc(Snoc(p, lab), 0) !in tree.at ==> ret' == ret && len' == len
    {
      hide TreeValid, Bushy, PathsOk, Read;
      ret', len' := ret, len;
      RootOnly(from);
      to, ok := Hop(from, lab, p);
      if ok {
        var r, has := ValueAt(to, Snoc(p, lab));
        if has {
          ret', len' := r, pos + 1;
        }
      }
    }

    method MatchLongestSearch(key: Key, matchLen: int) returns (ret: int, len: int)
      requires Valid()
      ensures Longest(Contents(), key, |key|, ret, len, NO_PATH, matchLen)
    {
      hide TreeValid, Bushy, PathsOk, Encode, Read, ContentsOf, Looked, UpClosed, Contents, Longest;
      Arranged();
      AtUpClosed();
      RootPath();
      ret, len := NO_PATH, matchLen;
      var from, pos := 0, 0;
      EncodeEmpty();
      assert key[..0] == [];
      NothingYet(key, matchLen);
      while pos < |key|
        invariant 0 <= pos <= |key| && from in tree.path && tree.path[from] == Encode(key[..pos])
        invariant Longest(Contents(), key, pos, ret, len, NO_PATH, matchLen)
      {
        ghost var p := Encode(key[..pos]);
        ReadEncode(key[..pos]);
        StepReadable(p, key[pos]);
        PlainNotTerm(p);
        EncodeNext(key, pos);
        MatchNext(key, pos, ret, len, matchLen);
        var to, ok;
        if key[pos] == 0 || key[pos] == PERCENT {
          EscapeNoValue(p);
          PlainNotTerm(Snoc(p, PERCENT));
          to, ok, ret, len := HopNoting(from, PERCENT, pos, ret, len, p);
          if !ok { return; }
          to, ok, ret, len := HopNoting(to, if key[pos] == 0 then ZERO else PERCENT, pos, ret, len, Snoc(p, PERCENT));
          if !ok { return; }
        } else {
          to, ok, ret, len := HopNoting(from, key[pos], pos, ret, len, p);
          if !ok { return; }
        }
        from := to;
        pos := pos + 1;
      }
    }

    lemma NothingYet(key: Key, matchLen: int)
      requires Valid()
      ensures Longest(Contents(), key, 0, NO_PATH, matchLen, NO_PATH, matchLen)
    {
    }

    lemma EscapeNoValue(p: Path)
      requires Valid() && Read(p).Plain?
      ensures Snoc(Snoc(p, PERCENT), 0) !in tree.at
    {
      NoValueInEscape(tree, Snoc(p, PERCENT));
    }

    // What one more byte of the query does to the answer so far.
    lemma MatchNext(key: Key, i: int, ret: int, len: int, len0: int)
      requires Valid() && 0 <= i < |key| && Longest(Contents(), key, i, ret, len, NO_PATH, len0)
      ensures Encode(key[..i + 1]) !in tree.at ==> Longest(Contents(), key, |key|, ret, len, NO_PATH, len0)
      ensures Snoc(Step(Encode(key[..i]), key[i]), 0) !in tree.at ==>
                Longest(Contents(), key, i + 1, ret, len, NO_PATH, len0)
      ensures Snoc(Step(Encode(key[..i]), key[i]), 0) in tree.at ==>
                forall r :: Looked(Step(Encode(key[..i]), key[i]), r) ==>
                    Longest(Contents(), key, i + 1, r, i + 1, NO_PATH, len0)
      ensures (key[i] == 0 || key[i] == PERCENT) && Snoc(Encode(key[..i]), PERCENT) !in tree.at ==>
                Encode(key[..i + 1]) !in tree.at
    {
      hide Encode, Read, Longest, ContentsOf;
      Arranged();
      AtUpClosed();
      ContentsAt(node, tree, key[..i + 1]);
      EncodeNext(key, i);
      LongestNext(Contents(), key, i, ret, len, NO_PATH, len0);
      if Encode(key[..i + 1]) !in tree.at {
        PathEnds(node, tree, key, i);
        LongestStop(Contents(), key, i, ret, len, NO_PATH, len0);
      }
      if Step(Encode(key[..i]), key[i]) in tree.at { StepUp(tree, Encode(key[..i]), key[i]); }
    }

    // --------------------------------------------------------------------- erasing

    method PopSibling(from: int, base: int, lab: byte, ghost ks: seq<byte>, ghost j: int)
      requires Chained(node, ninfo, from, ks) && base == node.base[from] && Distinct(ks)
      requires 0 <= j < |ks| && ks[j] == lab && |ninfo.sibling| == |ninfo.child| == |node.base|
      modifies this`ninfo
      ensures |old(ninfo).sibling| == |old(ninfo).child| == |node.base|
      ensures ninfo == SiblingPopped(node, old(ninfo), from, ks, j)
    {
      hide Xor;
      var c := ninfo.child[from];
      if c == lab {
        ninfo := ninfo.(child := ninfo.child[from := ninfo.sibling[Xor(base, lab)]]);
      } else {
        var at := Xor(base, c);
        ghost var i := 0;
        while ninfo.sibling[at] != lab
          invariant 0 <= i < j && at == Xor(base, ks[i])
          decreases j - i
        {
          at := Xor(base, ninfo.sibling[at]);
          i := i + 1;
        }
        ninfo := ninfo.(sibling := ninfo.sibling[at := ninfo.sibling[Xor(base, lab)]]);
      }
    }

    // In a starved block 0 every slot is a child of the root, the stale ring head too.
    lemma StarvedHead(md: Mode)
      requires AllocValid() && TreeOk(node, ninfo, md, size, tree) && Covers(node, size, tree, -1) && block.num[0] == 1
      ensures node.check[block.ehead[0]] == 0
    {
      hide TreeOk, BlocksOk, InfoClear;
      AllocBounds(node, ninfo, block, head, capacity, size, reject, rings, lists);
      assert BlockRingOk(node, block.num, block.ehead, rings[0], 0);
      var q := block.ehead[0];
      assert q / 256 == 0 && q !in rings[0];
      BlockZero(node, ninfo, md, size, tree, q);
    }

    // One turn of the climb: e leaves its parent's chain, if the chain has others,
    // and its slot is returned.
    method EraseOne(e: int, from: int, ghost md: Mode, ghost t0: Tree, ghost key: Key) returns (flag: bool)
      requires AllocValid() && ClimbOk(node, ninfo, md, size, t0, tree, e, key) && 0 <= e < |node.check|
      requires from == node.check[e]
      modifies this
      ensures e in old(tree).path && Placed(old(node), old(tree)) && (old(Starved(e)) ==> from == 0)
      ensures flag <==> from in old(tree).kids && |old(tree).kids[from]| >= 2
      ensures flag ==> (from == 0 <==> Sole(t0, key)) && (from == 0 <==> e < 256)
      ensures flag && old(Starved(e)) ==> |node.base| > 0 && node.base[0] == -e && e > 0
      ensures flag && !old(Starved(e)) ==> TreeValid() && Bushy(tree, Root) && PathsOk(tree)
      ensures !flag ==> AllocValid() && from != 0 && ClimbOk(node, ninfo, Erasing(from), size, t0, tree, from, key)
      ensures !flag ==> tree.path[from] == old(tree).path[e].up && !IsTerm(tree.path[from]) && old(tree).path[e].Snoc?
      ensures !flag ==> !old(Starved(e)) && |block.num| > 0 && |old(block).num| > 0 && block.num[0] == old(block).num[0]
      ensures !old(Starved(e)) ==> Placed(node, tree)
      ensures !old(Starved(e)) && IsTerm(old(tree).path[e]) ==>
                ContentsOf(node, tree) == ContentsOf(old(node), old(tree)) - {key}
      ensures !old(Starved(e)) && !IsTerm(old(tree).path[e]) ==>
                ContentsOf(node, tree) == ContentsOf(old(node), old(tree))
    {
      hide FreeOk, BlocksOk, InfoClear, Xor, TreeOk, ClimbOk, Chained, Bushy, PathsOk, Sole, Given, Covers, Cleared,
           ContentsOf, Placed, SiblingPopped;
      AllocBounds(node, ninfo, block, head, capacity, size, reject, rings, lists);
      ClimbFacts(node, ninfo, md, size, t0, tree, e, key);
      ghost var nd, inf, t, starved := node, ninfo, tree, Starved(e);
      ghost var ks, j := tree.kids[from], At(tree.kids[from], tree.path[e].lab);
      ChainHead(node, ninfo, from, ks);
      SecondKid(node, ninfo, from, ks);
      if starved { ClimbBase(nd, inf, md, size, t0, t, e, key); StarvedHead(md); }
      var nb := node.base[from];
      flag := ninfo.sibling[Xor(nb, ninfo.child[from])] != 0;
      if flag {
        ClimbKept(node, ninfo, md, size, t0, tree, e, key);
        PopSibling(from, nb, Xor(nb, e), ks, j);
        PopAlloc(nd, inf, md, size, t0, t, e, key, ninfo);
        AllocUsed(nd, inf, node, ninfo, block, head, capacity, size, reject, rings, lists);
        tree := WithoutNode(t, e, from, Without(ks, j));
      } else {
        ClimbOn(node, ninfo, md, size, t0, tree, e, key);
        tree := WithoutNode(t, e, from, []);
      }
      ghost var nd1, inf1, md1 := node, ninfo, if flag then Still else Erasing(from);
      PushEmptyNode(e);
      if !starved {
        AllocBounds(node, ninfo, block, head, capacity, size, reject, rings, lists);
        GivenTree(nd1, inf1, size, node, ninfo, e, md1, tree);
        ClimbGone(nd, inf, md, size, t0, t, e, key, node, if flag then Without(ks, j) else []);
        if !flag { ClimbAgain(node, ninfo, size, t0, tree, from, key); }
      }
    }

    // Erasing the key at node from. The climb is safe unless it empties the root's
    // only link under some label while block 0 has not one free slot.
    method EraseImpl(from: int, ghost key: Key)
      requires Valid() && key != [] && from in tree.path && tree.path[from] == Encode(key) && KeyPath(key) in tree.at
      modifies this
      ensures old(block.num[0] == 1 && Sole(tree, key)) ==> |node.base| > 0 && node.base[0] < 0
      ensures !old(block.num[0] == 1 && Sole(tree, key)) ==> Valid() && Contents() == old(Contents()) - {key}
    {
      hide AllocOk, Xor, TreeOk, ClimbOk, Bushy, PathsOk, Sole, Covers, Cleared, ContentsOf, Encode, Placed;
      AllocBounds(node, ninfo, block, head, capacity, size, reject, rings, lists);
      ghost var t0, was, num0 := tree, Contents(), block.num[0];
      ghost var md := Still;
      EraseStart(from, key);
      var e := Xor(node.base[from], 0);
      var f := from;
      while true
        invariant AllocValid() && ClimbOk(node, ninfo, md, size, t0, tree, e, key) && 0 <= e < |node.check|
        invariant f == node.check[e]
        invariant |block.num| > 0 && block.num[0] == num0 && Placed(node, tree) && e in tree.path
        invariant ContentsOf(node, tree) == if IsTerm(tree.path[e]) then was else was - {key}
        decreases tree.path[e]
      {
        var flag := EraseOne(e, f, md, t0, key);
        if flag { break; }
        e := f;
        ClimbFacts(node, ninfo, Erasing(e), size, t0, tree, e, key);
        f := node.check[e];
        md := Erasing(e);
      }
    }

    lemma EraseStart(from: int, key: Key)
      requires Valid() && key != [] && from in tree.path && tree.path[from] == Encode(key) && KeyPath(key) in tree.at
      ensures 0 <= from < |node.base| == |node.check| && 0 <= node.base[from] && Placed(node, tree)
      ensures var e := Xor(node.base[from], 0);
              e in tree.path && 0 <= e < |node.check| && node.check[e] == from && IsTerm(tree.path[e])
      ensures ClimbOk(node, ninfo, Still, size, tree, tree, Xor(node.base[from], 0), key)
    {
      hide AllocOk, Xor, TreeOk, PathsOk, Encode;
      TreeFacts(node, ninfo, Still, size, tree);
      EncodeNotTerm(key);
      BushyBase(from);
      RootOnly(from);
      Arranged();
      StepExact(node, ninfo, size, tree, from, 0);
      var e := Xor(node.base[from], 0);
      NodeFacts(node, ninfo, Still, size, tree, e);
    }

    method Erase(key: Key) returns (r: int)
      requires Valid()
      modifies this
      ensures r == ErasedValue(old(Contents()), key)
      ensures Valid() <==> !Harms(old(Contents()), key)
      ensures !Harms(old(Contents()), key) ==> Contents() == AfterErase(old(Contents()), key)
    {
      hide AllocOk, TreeOk, Covers, Bushy, PathsOk, Encode, Read, ContentsOf, Looked, Extend, Contents, Breaks, Sole;
      RootPath();
      ReadRoot();
      StartAtRoot(key);
      var from;
      r, from := Find(key, 0, 0, Root);
      LookedUp(key, r);
      if r == NO_PATH || r == NO_VALUE {
        return -1;
      }
      FoundKey(key);
      BreaksIff(key);
      EraseImpl(from, key);
      NotValid();
    }

    lemma NotValid()
      ensures |node.base| > 0 && node.base[0] < 0 ==> !Valid()
    {
    }

    lemma FoundKey(key: Key)
      requires Valid() && key in Contents()
      ensures key != [] && KeyPath(key) in tree.at
    {
      hide AllocOk, TreeOk, Covers, Bushy, PathsOk, Read, ContentsOf;
      Arranged();
      ContentsAt(node, tree, key);
      NoEmptyKey(tree);
    }

    // The map tells when the climb would starve block 0.
    lemma BreaksIff(key: Key)
      requires Valid() && key in Contents() && key != []
      ensures Breaks(Contents(), key) <==> block.num[0] == 1 && Sole(tree, key)
    {
      hide AllocOk, TreeOk, Covers, Bushy, PathsOk, Encode, Read, ContentsOf, Sole;
      Arranged();
      SoleIff(node, ninfo, size, tree, key);
      FullIff();
      FullLabels(node, ninfo, size, tree);
    }

    // Block 0 is full iff the root has a child under every label but 0.
    lemma FullIff()
      requires Valid()
      ensures SameLength(block) && |block.num| > 0
      ensures block.num[0] == 1 <==> forall l: byte :: l != 0 ==> Snoc(Root, l) in tree.at
    {
      hide TreeOk, Bushy, PathsOk, BlocksOk, InfoClear, Xor;
      AllocBounds(node, ninfo, block, head, capacity, size, reject, rings, lists);
      TreeFacts(node, ninfo, Still, size, tree);
      assert BlockRingOk(node, block.num, block.ehead, rings[0], 0);
      forall l: byte | l != 0 ensures Snoc(Root, l) in tree.at <==> !IsFree(node, size, l)
      {
        RootSlot(node, ninfo, size, tree, l);
      }
      if rings[0] == [] {
        forall l: byte | l != 0 ensures Snoc(Root, l) in tree.at
        {
          assert l / 256 == 0 && l !in rings[0];
        }
      } else {
        var x := rings[0][0];
        RingMembersFree(node, block, size, rings, 0, x);
        var l: byte := x;
        assert Snoc(Root, l) !in tree.at;
      }
    }

    // ----------------------------------------------------------- prefix enumeration

    // No stored value reads as "no path" or "no value".
    ghost predicate PlainValues()
      reads this
      requires TreeValid()
    {
      forall k :: k in Contents() ==> Contents()[k] != NO_PATH && Contents()[k] != NO_VALUE
    }

    lemma ChildChain(from: int, k: Key)
      requires Valid() && from in tree.path && tree.path[from] == Encode(k)
      ensures 0 <= from < |node.base| == |ninfo.child| && node.base[from] >= 0 && from in tree.kids
      ensures tree.kids[from] != []
      ensures Chained(node, ninfo, from, tree.kids[from]) && KidsOk(tree.kids[from], from) && Distinct(tree.kids[from])
      ensures forall l: byte :: Snoc(Encode(k), l) in tree.at ==> l in tree.kids[from]
    {
      hide AllocOk, TreeOk, Covers, PathsOk, Encode, Xor, Chained;
      TreeFacts(node, ninfo, Still, size, tree);
      EncodeNotTerm(k);
      BushyBase(from);
      forall l: byte | Snoc(Encode(k), l) in tree.at ensures l in tree.kids[from]
      {
        StepExact(node, ninfo, size, tree, from, l);
      }
    }

    // What a one-byte search from k's node finds.
    lemma OneByte(k: Key, b: byte)
      requires Valid() && PlainValues()
      ensures Extend(Encode(k), [b][0..]) == Step(Encode(k), b) == Encode(k + [b]) && Read(Encode(k)).Plain?
      ensures forall r :: Looked(Step(Encode(k), b), r) ==>
                Step(Encode(k), b) !in tree.at || r == if k + [b] in Contents() then Contents()[k + [b]] else NO_VALUE
      ensures forall r :: Looked(Step(Encode(k), b), r) && Step(Encode(k), b) in tree.at ==> r != NO_PATH
      ensures Step(Encode(k), b) !in tree.at ==> k + [b] !in Contents()
    {
      hide TreeValid, Bushy, PathsOk, ContentsOf, Looked;
      ReadEncode(k);
      assert [b][0..] == [b];
      assert (k + [b])[..|k|] == k;
      forall r | Looked(Step(Encode(k), b), r) ensures
          Step(Encode(k), b) !in tree.at || r == if k + [b] in Contents() then Contents()[k + [b]] else NO_VALUE
      {
        LookedUp(k + [b], r);
      }
      LookedUp(k + [b], 0);
    }

    // The keys below node from, each with its bytes below the search prefix.
    method CommonPrefixPathDfs(from: int, stack: Key, ghost k: Key) returns (out: seq<(Key, int)>)
      requires Valid() && PlainValues() && from in tree.path && tree.path[from] == Encode(k)
      ensures Enumerates(Contents(), k, stack, NonZero(), out)
      decreases MaxDepth(tree.at.Keys) - Depth(Encode(k)), 1
    {
      hide TreeValid, Bushy, PathsOk, Encode, Read, ContentsOf, Enumerates, NonZero, Chained, Looked, Extend, Step,
           Depth, PlainValues;
      ChildChain(from, k);
      ghost var ks := tree.kids[from];
      out := [];
      var child := ninfo.child[from];
      var base := node.base[from];
      ghost var j := 0;
      ChainHead(node, ninfo, from, ks);
      EnumeratesNone(Contents(), k, stack, {});
      assert HeadsBelow(ks, 0) == {};
      if child == 0 {
        HeadsStep(ks, 0);
        assert HeadsBelow(ks, 1) == {};
        ChainNext(node, ninfo, from, ks, 0);
        child := ninfo.sibling[Xor(base, child)];
        j := 1;
      }
      while child != 0
        invariant 0 <= j <= |ks| && child == (if j < |ks| then ks[j] else 0)
        invariant Enumerates(Contents(), k, stack, HeadsBelow(ks, j), out)
        decreases |ks| - j
      {
        HeadsStep(ks, j);
        ChainNext(node, ninfo, from, ks, j);
        var more := ChildKeys(from, child, stack, k);
        EnumeratesUnion(Contents(), k, stack, HeadsBelow(ks, j), {child}, out, more);
        out := out + more;
        child := ninfo.sibling[Xor(base, child)];
        j := j + 1;
      }
      Arranged();
      AtUpClosed();
      AllHeads(node, tree, k, ks);
      EnumeratesAll(Contents(), k, stack, HeadsBelow(ks, |ks|), out);
    }

    // The part of the enumeration that starts with one child label, read as a byte.
    method ChildKeys(from: int, child: byte, stack: Key, ghost k: Key) returns (more: seq<(Key, int)>)
      requires Valid() && PlainValues() && from in tree.path && tree.path[from] == Encode(k) && child != 0
      ensures Enumerates(Contents(), k, stack, {child}, more)
      decreases MaxDepth(tree.at.Keys) - Depth(Encode(k)), 0
    {
      hide TreeValid, Bushy, PathsOk, Encode, Read, ContentsOf, Enumerates, NonZero, Chained, Looked, Extend, Step,
           Depth, PlainValues;
      Arranged();
      AtUpClosed();
      OneByte(k, child);
      more := [];
      var b, l := Find([child], from, 0, Encode(k));
      if b != NO_PATH {
        var stack' := stack + [child];
        if b != NO_VALUE {
          more := [(stack', b)];
        }
        StepDeeper(tree, Encode(k), child);
        PlainValue(k + [child]);
        var sub := CommonPrefixPathDfs(l, stack', k + [child]);
        EnumeratesByte(Contents(), k, stack, child, sub);
        more := more + sub;
      } else {
        MissingByte(k, child, stack);
      }
    }

    lemma PlainValue(k: Key)
      requires TreeValid() && PlainValues()
      ensures k in Contents() ==> Contents()[k] != NO_PATH && Contents()[k] != NO_VALUE
    {
    }

    lemma MissingByte(k: Key, b: byte, stack: Key)
      requires Valid()
      ensures Step(Encode(k), b) !in tree.at ==> Enumerates(Contents(), k, stack, {b}, [])
    {
      hide ContentsOf, Enumerates, Encode, Step;
      Arranged();
      AtUpClosed();
      if Step(Encode(k), b) !in tree.at { NoPathNoSuffix(node, tree, k, b, stack); }
    }

    // The strict extensions of a prefix, each once. Where the prefix has no path the
    // original leaves its own result undefined, and so does this contract.
    method CommonPrefixPathSearch(key: Key) returns (ret: int, out: seq<(Key, int)>)
      requires Valid() && PlainValues()
      ensures Enumerates(Contents(), key, [], NonZero(), out)
      ensures key in Contents() ==> ret == 1
      ensures Encode(key) in tree.at && key !in Contents() ==> ret == 0
    {
      hide TreeValid, Bushy, PathsOk, Encode, Read, ContentsOf, Enumerates, NonZero, Looked, Extend, PlainValues;
      RootPath();
      ReadRoot();
      StartAtRoot(key);
      Arranged();
      AtUpClosed();
      ret, out := 0, [];
      var b, from := Find(key, 0, 0, Root);
      LookedUp(key, b);
      PlainValue(key);
      if b == NO_PATH {
        NoPathAtAll(node, tree, key, []);
        return;
      }
      if b != NO_VALUE {
        ret := 1;
      }
      out := CommonPrefixPathDfs(from, [], key);
    }

    // ------------------------------------------------------------------ counting keys

    method NumKeys() returns (n: nat)
      requires Valid()
      ensures n == |Contents()|
    {
      hide AllocOk, TreeOk, Covers, Bushy, PathsOk, Encode, Read, ContentsOf, Xor, KeysBelow;
      AllocBounds(node, ninfo, block, head, capacity, size, reject, rings, lists);
      Arranged();
      n := 0;
      var to := 0;
      KeysBelowNone(tree);
      while to < size
        invariant 0 <= to <= size && n == |KeysBelow(tree, to)|
      {
        KeySlot(node, ninfo, size, tree, to);
        KeysBelowNext(tree, to);
        if node.check[to] >= 0 && node.base[node.check[to]] == to {
          n := n + 1;
        }
        to := to + 1;
      }
      KeysBelowAll(node, ninfo, size, tree);
    }

    // ------------------------------------------------------------------- creation

    constructor ()
      ensures Valid() && Contents() == map[]
    {
      node := Nodes(Fill(256, 0), Fill(256, 0));
      ninfo := Infos(Fill(256, 0), Fill(256, 0));
      block := Blocks([0], [0], [256], [257], [0], [0]);
      head := Heads(0, 0, 0);
      capacity := 256;
      size := 256;
      reject := Fill(257, 0);
      rings := [Span()];
      lists := Lists([0], [], []);
      tree := Bare();
      new;
      ghost var inf := ninfo;
      node := Nodes(node.base[0 := 0], node.check[0 := -1]);
      for i := 1 to 256
        invariant |node.base| == |node.check| == 256 && node.base[0] == 0 && node.check[0] == -1
        invariant forall k :: 1 <= k < i ==> node.base[k] == (if k == 1 then -255 else -(k - 1))
        invariant forall k :: 1 <= k < i ==> node.check[k] == (if k == 255 then -1 else -(k + 1))
        invariant ninfo == inf && block == Blocks([0], [0], [256], [257], [0], [0]) && head == Heads(0, 0, 0)
        invariant |reject| == 257
        invariant capacity == size == 256 && rings == [Span()] && lists == Lists([0], [], []) && tree == Bare()
      {
        if i == 1 {
          node := Nodes(node.base[i := -255], node.check[i := -(i + 1)]);
        } else if i == 255 {
          node := Nodes(node.base[i := -(i - 1)], node.check[i := -1]);
        } else {
          node := Nodes(node.base[i := -(i - 1)], node.check[i := -(i + 1)]);
        }
      }
      block := block.(ehead := block.ehead[0 := 1]);
      FreshRing(node, block);
      FreshBlocks(block, head);
      FreshTree(node, ninfo);
      FreshContents(node);
      ghost var nd, bl := node, block;
      for i := 0 to 257
        invariant |reject| == 257 && node == nd && block == bl && ninfo == inf && head == Heads(0, 0, 0)
        invariant capacity == size == 256 && rings == [Span()] && lists == Lists([0], [], []) && tree == Bare()
      {
        reject := reject[i := i + 1];
      }
    }
  }
}
