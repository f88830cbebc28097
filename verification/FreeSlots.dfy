// Free-slot rings: conservation of slots under taking, returning and adding.
module FreeSlots {
  import opened Bits
  import opened Rings
  import opened Slots

  // A slot below size is free iff its check is negative; slot 0 is the root.
  predicate IsFree(nd: Nodes, size: int, i: int)
  {
    0 < i < size && i < |nd.check| && nd.check[i] < 0
  }

  ghost predicate FreeRing(nd: Nodes, r: seq<int>, b: int)
  {
    && Ring(r, Neg(nd.check), Neg(nd.base))
    && forall j :: 0 <= j < |r| ==> r[j] / 256 == b && r[j] > 0
  }

  // Block 0 counts the root's slot among its "num" although it is never free.
  function FreeCount(num: seq<int>, b: int): int
    requires 0 <= b < |num|
  {
    if b == 0 then num[0] - 1 else num[b]
  }

  ghost predicate BlockRingOk(nd: Nodes, num: seq<int>, ehead: seq<int>, r: seq<int>, b: int)
    requires 0 <= b < |num| == |ehead|
  {
    && FreeRing(nd, r, b)
    && |r| == FreeCount(num, b)
    && (r != [] ==> ehead[b] == r[0])
  }

  ghost predicate FreeOk(nd: Nodes, bl: Blocks, size: int, rings: seq<seq<int>>)
  {
    && SameLength(bl)
    && |nd.base| == |nd.check|
    && 0 < 256 * |rings| == size <= |nd.check| && |rings| <= |bl.num|
    && (forall b :: 0 <= b < |rings| ==> BlockRingOk(nd, bl.num, bl.ehead, rings[b], b))
    && (forall i :: IsFree(nd, size, i) ==> i in rings[i / 256])
  }

  lemma RingMembersFree(nd: Nodes, bl: Blocks, size: int, rings: seq<seq<int>>, b: int, e: int)
    requires FreeOk(nd, bl, size, rings) && 0 <= b < |rings| && e in rings[b]
    ensures IsFree(nd, size, e) && e / 256 == b
    ensures -nd.check[e] in rings[b] && -nd.base[e] in rings[b]
    ensures 0 < -nd.check[e] < size && 0 < -nd.base[e] < size
    ensures (-nd.check[e]) / 256 == b && (-nd.base[e]) / 256 == b
  {
    var r := rings[b];
    assert BlockRingOk(nd, bl.num, bl.ehead, r, b);
    var k := At(r, e);
    assert LinkedAt(r, Neg(nd.check), Neg(nd.base), k);
  }

  lemma FreeRingFrame(nd: Nodes, nd': Nodes, r: seq<int>, b: int)
    requires FreeRing(nd, r, b) && |nd'.base| == |nd'.check| >= |nd.check|
    requires forall j :: 0 <= j < |r| ==> nd'.base[r[j]] == nd.base[r[j]] && nd'.check[r[j]] == nd.check[r[j]]
    ensures FreeRing(nd', r, b)
  {
    RingFrame(r, Neg(nd.check), Neg(nd.base), Neg(nd'.check), Neg(nd'.base));
  }

  // Writes to slots that are in use leave every free ring alone.
  lemma FreeFrame(nd: Nodes, nd': Nodes, bl: Blocks, size: int, rings: seq<seq<int>>)
    requires FreeOk(nd, bl, size, rings)
    requires |nd'.base| == |nd'.check| == |nd.check|
    requires forall i :: IsFree(nd, size, i) ==> nd'.base[i] == nd.base[i] && nd'.check[i] == nd.check[i]
    requires forall i :: IsFree(nd', size, i) ==> IsFree(nd, size, i)
    ensures FreeOk(nd', bl, size, rings)
  {
    forall b | 0 <= b < |rings| ensures BlockRingOk(nd', bl.num, bl.ehead, rings[b], b)
    {
      assert BlockRingOk(nd, bl.num, bl.ehead, rings[b], b);
      forall j | 0 <= j < |rings[b]|
        ensures nd'.base[rings[b][j]] == nd.base[rings[b][j]] && nd'.check[rings[b][j]] == nd.check[rings[b][j]]
      {
        RingMembersFree(nd, bl, size, rings, b, rings[b][j]);
      }
      FreeRingFrame(nd, nd', rings[b], b);
    }
  }

  // Unlinking slot e from its neighbours, then writing its new contents.
  ghost function Unthread(nd: Nodes, e: int): Nodes
    requires |nd.base| == |nd.check| && 0 <= e < |nd.base|
    requires 0 <= -nd.base[e] < |nd.base| && 0 <= -nd.check[e] < |nd.base|
  {
    Nodes(nd.base[-nd.check[e] := nd.base[e]], nd.check[-nd.base[e] := nd.check[e]])
  }

  ghost function Write(nd: Nodes, e: int, v: int, from: int): Nodes
    requires |nd.base| == |nd.check| && 0 <= e < |nd.base|
  {
    Nodes(nd.base[e := v], nd.check[e := from])
  }

  // The ring that loses e: with e unthreaded from two or more members ...
  lemma TakeOwn(nd: Nodes, num: seq<int>, ehead: seq<int>, r: seq<int>, b: int, e: int, v: int, from: int)
    requires 0 <= b < |num| == |ehead| && BlockRingOk(nd, num, ehead, r, b) && e in r && |r| >= 2
    ensures 0 < -nd.base[e] < |nd.base| && 0 < -nd.check[e] < |nd.base|
    ensures BlockRingOk(Write(Unthread(nd, e), e, v, from), num[b := num[b] - 1],
                        if e == ehead[b] then ehead[b := -nd.check[e]] else ehead, Without(r, At(r, e)), b)
  {
    var k := At(r, e);
    var nx, pv := Neg(nd.check), Neg(nd.base);
    assert LinkedAt(r, nx, pv, k);
    RingRemove(r, nx, pv, k);
    WithoutMembers(r, k);
    var nd1 := Unthread(nd, e);
    NegUpdate(nd.check, -nd.base[e], nd.check[e]);
    NegUpdate(nd.base, -nd.check[e], nd.base[e]);
    var q := Without(r, k);
    assert Ring(q, Neg(nd1.check), Neg(nd1.base));
    var nd2 := Write(nd1, e, v, from);
    RingFrame(q, Neg(nd1.check), Neg(nd1.base), Neg(nd2.check), Neg(nd2.base));
    assert forall j :: 0 <= j < |q| ==> q[j] in r;
    assert e == ehead[b] ==> k == 0;
  }

  // ... or with e its only member.
  lemma TakeOnly(nd: Nodes, num: seq<int>, ehead: seq<int>, r: seq<int>, b: int, e: int)
    requires 0 <= b < |num| == |ehead| && BlockRingOk(nd, num, ehead, r, b) && e in r && |r| == 1
    ensures r == [e] && -nd.base[e] == e == -nd.check[e]
  {
    assert LinkedAt(r, Neg(nd.check), Neg(nd.base), 0);
  }

  // Slot e leaves the free slots with the given contents; slots in use keep theirs.
  ghost predicate Taken(nd: Nodes, nd': Nodes, size: int, e: int, v: int, from: int)
    requires |nd.base| == |nd.check|
  {
    && |nd'.base| == |nd'.check| == |nd.check|
    && IsFree(nd, size, e)
    && nd'.base[e] == v && nd'.check[e] == from
    && (forall i :: 0 <= i < |nd.check| && i != e && !IsFree(nd, size, i) ==>
         nd'.base[i] == nd.base[i] && nd'.check[i] == nd.check[i])
    && (forall i :: IsFree(nd', size, i) <==> IsFree(nd, size, i) && i != e)
  }

  // What the code writes when it takes e: only the bookkeeping of e's own block changes,
  // and a block that runs out (other than block 0) keeps its stale ring head.
  ghost predicate TakeWrites(nd: Nodes, nd': Nodes, bl: Blocks, bl': Blocks, e: int, v: int, from: int)
    requires SameLength(bl) && |nd.base| == |nd.check| && 0 <= e < |nd.base| && e / 256 < |bl.num|
  {
    && 0 <= -nd.base[e] < |nd.base| && 0 <= -nd.check[e] < |nd.base|
    && SameLength(bl')
    && bl'.num == bl.num[e / 256 := bl.num[e / 256] - 1]
    && if bl'.num[e / 256] == 0 && e / 256 != 0
       then nd' == Write(nd, e, v, from) && bl'.ehead == bl.ehead
       else nd' == Write(Unthread(nd, e), e, v, from) &&
            bl'.ehead == if e == bl.ehead[e / 256] then bl.ehead[e / 256 := -nd.check[e]] else bl.ehead
  }

  lemma TakeEffect(nd: Nodes, nd': Nodes, bl: Blocks, bl': Blocks, size: int, rings: seq<seq<int>>, e: int, v: int,
      from: int)
    requires FreeOk(nd, bl, size, rings) && IsFree(nd, size, e) && from >= 0
    requires TakeWrites(nd, nd', bl, bl', e, v, from)
    ensures Taken(nd, nd', size, e, v, from) && SameOutside(nd, nd', e / 256)
  {
    RingMembersFree(nd, bl, size, rings, e / 256, e);
    RingMembersFree(nd, bl, size, rings, e / 256, -nd.check[e]);
    RingMembersFree(nd, bl, size, rings, e / 256, -nd.base[e]);
    WriteEffect(nd, nd', size, e, v, from);
  }

  // All slots of the other blocks are untouched.
  ghost predicate SameOutside(nd: Nodes, nd': Nodes, b: int)
  {
    && |nd'.base| == |nd'.check| == |nd.check| == |nd.base|
    && forall i :: 0 <= i < |nd.check| && i / 256 != b ==> nd'.base[i] == nd.base[i] && nd'.check[i] == nd.check[i]
  }

  lemma WriteEffect(nd: Nodes, nd': Nodes, size: int, e: int, v: int, from: int)
    requires |nd.base| == |nd.check| && IsFree(nd, size, e) && from >= 0
    requires IsFree(nd, size, -nd.check[e]) && IsFree(nd, size, -nd.base[e])
    requires (-nd.check[e]) / 256 == e / 256 && (-nd.base[e]) / 256 == e / 256
    requires IsFree(nd, size, e) && -nd.check[e] > 0
    requires nd' == Write(nd, e, v, from) || nd' == Write(Unthread(nd, e), e, v, from)
    ensures Taken(nd, nd', size, e, v, from) && SameOutside(nd, nd', e / 256)
  {
  }

  lemma TakeOwnRing(nd: Nodes, nd': Nodes, bl: Blocks, bl': Blocks, size: int, rings: seq<seq<int>>, e: int, v: int,
      from: int)
    requires FreeOk(nd, bl, size, rings) && IsFree(nd, size, e) && from >= 0
    requires TakeWrites(nd, nd', bl, bl', e, v, from)
    ensures BlockRingOk(nd', bl'.num, bl'.ehead, Without(rings[e / 256], At(rings[e / 256], e)), e / 256)
  {
    var b := e / 256;
    var r := rings[b];
    assert BlockRingOk(nd, bl.num, bl.ehead, r, b);
    if |r| >= 2 {
      TakeOwn(nd, bl.num, bl.ehead, r, b, e, v, from);
    } else {
      TakeOnly(nd, bl.num, bl.ehead, r, b, e);
      assert FreeRing(nd', [], b);
      assert Without(r, At(r, e)) == [];
    }
  }

  lemma TakeSlot(nd: Nodes, nd': Nodes, bl: Blocks, bl': Blocks, size: int, rings: seq<seq<int>>, e: int, v: int,
      from: int)
    requires FreeOk(nd, bl, size, rings) && IsFree(nd, size, e) && from >= 0
    requires TakeWrites(nd, nd', bl, bl', e, v, from)
    ensures FreeOk(nd', bl', size, rings[e / 256 := Without(rings[e / 256], At(rings[e / 256], e))])
    ensures Taken(nd, nd', size, e, v, from)
  {
    var b := e / 256;
    var r := rings[b];
    TakeEffect(nd, nd', bl, bl', size, rings, e, v, from);
    TakeOwnRing(nd, nd', bl, bl', size, rings, e, v, from);
    assert BlockRingOk(nd, bl.num, bl.ehead, r, b);
    WithoutMembers(r, At(r, e));
    var rings' := rings[b := Without(r, At(r, e))];
    forall c | 0 <= c < |rings| && c != b ensures BlockRingOk(nd', bl'.num, bl'.ehead, rings'[c], c)
    {
      OtherFreeRing(nd, nd', bl, bl', rings[c], c, b);
    }
    forall i | IsFree(nd', size, i) ensures i in rings'[i / 256]
    {
      assert i in rings[i / 256];
    }
  }

  // Writes inside block b leave the ring of another block c alone.
  lemma OtherFreeRing(nd: Nodes, nd': Nodes, bl: Blocks, bl': Blocks, r: seq<int>, c: int, b: int)
    requires SameLength(bl) && SameLength(bl') && |bl'.num| == |bl.num|
    requires 0 <= c < |bl.num| && c != b && BlockRingOk(nd, bl.num, bl.ehead, r, c)
    requires bl'.num[c] == bl.num[c] && bl'.ehead[c] == bl.ehead[c]
    requires SameOutside(nd, nd', b)
    ensures BlockRingOk(nd', bl'.num, bl'.ehead, r, c)
  {
    FreeRingFrame(nd, nd', r, c);
  }

  // ------------------------------------------------------------- returning a slot

  ghost predicate Given(nd: Nodes, nd': Nodes, size: int, e: int)
    requires |nd.base| == |nd.check|
  {
    && |nd'.base| == |nd'.check| == |nd.check|
    && 0 < e < size && !IsFree(nd, size, e)
    && (forall i :: 0 <= i < |nd.check| && i != e && !IsFree(nd, size, i) ==>
         nd'.base[i] == nd.base[i] && nd'.check[i] == nd.check[i])
    && (forall i :: IsFree(nd', size, i) <==> IsFree(nd, size, i) || i == e)
  }

  // Threading slot e in after the ring head.
  ghost function Thread(nd: Nodes, e: int, prev: int, next: int): Nodes
    requires |nd.base| == |nd.check| && 0 <= e < |nd.base| && 0 <= prev < |nd.base| && 0 <= next < |nd.base|
  {
    Nodes(nd.base[e := -prev][next := -e], nd.check[e := -next][prev := -e])
  }

  ghost predicate GiveWrites(nd: Nodes, nd': Nodes, bl: Blocks, bl': Blocks, e: int)
    requires SameLength(bl) && |nd.base| == |nd.check| && 0 <= e < |nd.base| && e / 256 < |bl.num|
  {
    var b := e / 256;
    && SameLength(bl')
    && bl'.num == bl.num[b := bl.num[b] + 1]
    && if bl'.num[b] == 1
       then nd' == Write(nd, e, -e, -e) && bl'.ehead == bl.ehead[b := e]
       else bl'.ehead == bl.ehead &&
            0 <= bl.ehead[b] < |nd.base| && 0 <= -nd.check[bl.ehead[b]] < |nd.base| &&
            nd' == Thread(nd, e, bl.ehead[b], -nd.check[bl.ehead[b]])
  }

  ghost function GivenRing(r: seq<int>, e: int): seq<int>
  {
    if r == [] then [e] else [r[0], e] + r[1..]
  }

  lemma GiveOwn(nd: Nodes, nd': Nodes, num: seq<int>, ehead: seq<int>, r: seq<int>, b: int, e: int)
    requires 0 <= b < |num| == |ehead| && 0 < e < |nd.base| && e / 256 == b
    requires BlockRingOk(nd, num, ehead, r, b) && e !in r && r != []
    ensures 0 < -nd.check[r[0]] < |nd.base|
    ensures BlockRingOk(Thread(nd, e, r[0], -nd.check[r[0]]), num[b := num[b] + 1], ehead, [r[0], e] + r[1..], b)
  {
    var nx, pv := Neg(nd.check), Neg(nd.base);
    RingInsertSecond(r, nx, pv, e);
    assert LinkedAt(r, nx, pv, 0);
    var prev, next := r[0], -nd.check[r[0]];
    NegUpdate(nd.check, e, -next);
    NegUpdate(nd.check[e := -next], prev, -e);
    NegUpdate(nd.base, e, -prev);
    NegUpdate(nd.base[e := -prev], next, -e);
  }

  lemma GiveFirst(nd: Nodes, num: seq<int>, ehead: seq<int>, b: int, e: int)
    requires 0 < b < |num| == |ehead| && 0 < e < |nd.base| == |nd.check| && e / 256 == b && num[b] == 0
    ensures BlockRingOk(Write(nd, e, -e, -e), num[b := 1], ehead[b := e], [e], b)
  {
    var nd' := Write(nd, e, -e, -e);
    assert LinkedAt([e], Neg(nd'.check), Neg(nd'.base), 0);
  }

  lemma ThreadEffect(nd: Nodes, size: int, e: int, prev: int, next: int)
    requires |nd.base| == |nd.check| && 0 < e < size <= |nd.check| && !IsFree(nd, size, e)
    requires IsFree(nd, size, prev) && IsFree(nd, size, next)
    requires prev / 256 == e / 256 == next / 256
    ensures Given(nd, Thread(nd, e, prev, next), size, e) && SameOutside(nd, Thread(nd, e, prev, next), e / 256)
  {
  }

  lemma GiveEffect(nd: Nodes, nd': Nodes, bl: Blocks, bl': Blocks, size: int, rings: seq<seq<int>>, e: int)
    requires FreeOk(nd, bl, size, rings) && 0 < e < size && !IsFree(nd, size, e)
    requires e / 256 == 0 ==> rings[0] != []
    requires GiveWrites(nd, nd', bl, bl', e)
    ensures Given(nd, nd', size, e) && SameOutside(nd, nd', e / 256)
    ensures BlockRingOk(nd', bl'.num, bl'.ehead, GivenRing(rings[e / 256], e), e / 256)
  {
    hide FreeOk, BlockRingOk, Given, SameOutside;
    GiveFacts(nd, bl, size, rings, e);
    var b := e / 256;
    var r := rings[b];
    if r == [] {
      GiveFirst(nd, bl.num, bl.ehead, b, e);
      FirstEffect(nd, size, e);
    } else {
      GiveOwn(nd, nd', bl.num, bl.ehead, r, b, e);
      ThreadEffect(nd, size, e, r[0], -nd.check[r[0]]);
    }
  }

  lemma GiveFacts(nd: Nodes, bl: Blocks, size: int, rings: seq<seq<int>>, e: int)
    requires FreeOk(nd, bl, size, rings) && 0 < e < size && !IsFree(nd, size, e)
    requires e / 256 == 0 ==> rings[0] != []
    ensures var b := e / 256;
            && b < |rings| <= |bl.num| && |nd.base| == |nd.check| && e < size <= |nd.check| && SameLength(bl)
            && BlockRingOk(nd, bl.num, bl.ehead, rings[b], b) && e !in rings[b]
            && (rings[b] == [] ==> 0 < b && bl.num[b] == 0)
            && (rings[b] != [] ==> bl.num[b] != 0 && bl.ehead[b] == rings[b][0])
            && (rings[b] != [] ==> IsFree(nd, size, rings[b][0]) && rings[b][0] / 256 == b)
            && (rings[b] != [] ==> IsFree(nd, size, -nd.check[rings[b][0]]) && (-nd.check[rings[b][0]]) / 256 == b)
  {
    hide IsFree, FreeRing;
    var b := e / 256;
    var r := rings[b];
    assert BlockRingOk(nd, bl.num, bl.ehead, r, b);
    if e in r { RingMembersFree(nd, bl, size, rings, b, e); }
    if r != [] {
      RingMembersFree(nd, bl, size, rings, b, r[0]);
      RingMembersFree(nd, bl, size, rings, b, -nd.check[r[0]]);
    }
  }

  lemma FirstEffect(nd: Nodes, size: int, e: int)
    requires |nd.base| == |nd.check| && 0 < e < size <= |nd.check| && !IsFree(nd, size, e)
    ensures Given(nd, Write(nd, e, -e, -e), size, e) && SameOutside(nd, Write(nd, e, -e, -e), e / 256)
  {
  }

  lemma GiveSlot(nd: Nodes, nd': Nodes, bl: Blocks, bl': Blocks, size: int, rings: seq<seq<int>>, e: int)
    requires FreeOk(nd, bl, size, rings) && 0 < e < size && !IsFree(nd, size, e)
    requires e / 256 == 0 ==> rings[0] != []
    requires GiveWrites(nd, nd', bl, bl', e)
    ensures FreeOk(nd', bl', size, rings[e / 256 := GivenRing(rings[e / 256], e)])
    ensures Given(nd, nd', size, e)
  {
    var b := e / 256;
    var r := rings[b];
    assert BlockRingOk(nd, bl.num, bl.ehead, r, b);
    GiveEffect(nd, nd', bl, bl', size, rings, e);
    var rings' := rings[b := GivenRing(r, e)];
    forall c | 0 <= c < |rings| && c != b ensures BlockRingOk(nd', bl'.num, bl'.ehead, rings'[c], c)
    {
      OtherFreeRing(nd, nd', bl, bl', rings[c], c, b);
    }
    forall i | IsFree(nd', size, i) ensures i in rings'[i / 256]
    {
      GivenMembers(r, e);
      assert i != e ==> i in rings[i / 256];
    }
  }

  lemma GivenMembers(r: seq<int>, e: int)
    ensures e in GivenRing(r, e)
    ensures forall i :: i in r ==> i in GivenRing(r, e)
  {
    forall i | i in r ensures i in GivenRing(r, e)
    {
      var k := At(r, i);
      assert k > 0 ==> GivenRing(r, e)[k + 1] == i;
    }
    assert r != [] ==> GivenRing(r, e)[1] == e;
  }

  // ---------------------------------------------------------- moving a ring's head

  lemma Rehead(nd: Nodes, bl: Blocks, bl': Blocks, size: int, rings: seq<seq<int>>, b: int, e: int)
    requires FreeOk(nd, bl, size, rings) && 0 <= b < |rings| && e in rings[b]
    requires SameLength(bl') && bl'.num == bl.num && bl'.ehead == bl.ehead[b := e]
    ensures FreeOk(nd, bl', size, rings[b := RotateTo(rings[b], At(rings[b], e))])
  {
    var r := rings[b];
    var q := RotateTo(r, At(r, e));
    assert BlockRingOk(nd, bl.num, bl.ehead, r, b);
    RingRotate(r, Neg(nd.check), Neg(nd.base), At(r, e));
    forall x | x in r ensures x in q
    {
      assert r == r[..At(r, e)] + r[At(r, e)..];
    }
    forall c | 0 <= c < |rings| && c != b ensures BlockRingOk(nd, bl'.num, bl'.ehead, rings[c], c)
    {
      assert BlockRingOk(nd, bl.num, bl.ehead, rings[c], c);
    }
  }

  // ------------------------------------------------------------- adding a block

  ghost function Page(b: int): seq<int>
  {
    seq(256, j => 256 * b + j)
  }

  // The fresh page: slots of block b threaded in index order.
  ghost predicate PageThreaded(nd: Nodes, b: int)
    requires 0 <= b && |nd.base| == |nd.check| >= 256 * (b + 1)
  {
    && (forall j :: 0 <= j < 256 ==> nd.check[256 * b + j] == -(256 * b + After(j, 256)))
    && (forall j :: 0 <= j < 256 ==> nd.base[256 * b + j] == -(256 * b + Before(j, 256)))
  }

  lemma PageRing(nd: Nodes, b: int)
    requires 0 < b && |nd.base| == |nd.check| >= 256 * (b + 1) && PageThreaded(nd, b)
    ensures FreeRing(nd, Page(b), b)
  {
    forall j | 0 <= j < 256 ensures LinkedAt(Page(b), Neg(nd.check), Neg(nd.base), j) { }
  }

  lemma AddPage(nd: Nodes, nd': Nodes, bl: Blocks, bl': Blocks, size: int, rings: seq<seq<int>>)
    requires FreeOk(nd, bl, size, rings)
    requires |nd'.base| == |nd'.check| >= size + 256 && |nd'.check| >= |nd.check|
    requires SameLength(bl') && |rings| < |bl'.num| && |bl.num| <= |bl'.num|
    requires forall i :: 0 <= i < size ==> nd'.base[i] == nd.base[i] && nd'.check[i] == nd.check[i]
    requires forall b :: 0 <= b < |rings| ==> bl'.num[b] == bl.num[b] && bl'.ehead[b] == bl.ehead[b]
    requires bl'.num[|rings|] == 256 && bl'.ehead[|rings|] == size
    requires PageThreaded(nd', |rings|)
    ensures FreeOk(nd', bl', size + 256, rings + [Page(|rings|)])
    ensures forall i :: IsFree(nd', size + 256, i) <==> IsFree(nd, size, i) || size <= i < size + 256
  {
    var nb := |rings|;
    PageRing(nd', nb);
    assert Page(nb)[0] == size;
    assert BlockRingOk(nd', bl'.num, bl'.ehead, Page(nb), nb);
    forall c | 0 <= c < nb ensures BlockRingOk(nd', bl'.num, bl'.ehead, rings[c], c)
    {
      assert BlockRingOk(nd, bl.num, bl.ehead, rings[c], c);
      forall j | 0 <= j < |rings[c]| ensures rings[c][j] < size
      {
        RingMembersFree(nd, bl, size, rings, c, rings[c][j]);
      }
      FreeRingFrame(nd, nd', rings[c], c);
    }
    forall i | size <= i < size + 256 ensures nd'.check[i] < 0 && i in Page(nb) && i / 256 == nb
    {
      assert nd'.check[256 * nb + (i - size)] == -(256 * nb + After(i - size, 256));
      assert Page(nb)[i - size] == i;
    }
  }
}
