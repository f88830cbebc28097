// Free extents of chunks, in two orders: by size and address for the best fit, and by address
// for joining neighbours. One thread at a time.
module Extents {
  import opened Basics

  datatype Extent = Extent(addr: nat, size: nat, zeroed: bool)

  // What chunk_dealloc does with a chunk: the system takes it, or it is recorded as free, for
  // which base_node_alloc may give a node.
  datatype Dealloc = Unmapped | Recorded(spare: Option<nat>, unzeroed: bool)

  function Returned(back: Dealloc, size: nat): nat { if back.Recorded? && back.spare.Some? then size else 0 }

  const WORD := 0x1_0000_0000_0000_0000

  // extent_szad_comp and extent_ad_comp
  predicate Below(x: Extent, y: Extent, bySize: bool)
  {
    if bySize then x.size < y.size || (x.size == y.size && x.addr < y.addr) else x.addr < y.addr
  }

  // A tree in the order of its comparison function, as the sequence of its nodes.
  ghost predicate InOrder(nodes: map<nat, Extent>, s: seq<nat>, bySize: bool)
  {
    && (forall i :: 0 <= i < |s| ==> s[i] in nodes)
    && (forall i, j :: 0 <= i < j < |s| ==> Below(nodes[s[i]], nodes[s[j]], bySize))
  }

  predicate Apart(x: Extent, y: Extent) { x.addr + x.size <= y.addr || y.addr + y.size <= x.addr }

  predicate Touches(x: Extent, y: Extent) { x.addr + x.size == y.addr }

  // Both trees hold the same nodes, whose extents do not overlap.
  ghost predicate Trees(nodes: map<nat, Extent>, szad: seq<nat>, ad: seq<nat>)
  {
    && InOrder(nodes, szad, true) && InOrder(nodes, ad, false)
    && (forall id :: id in ad <==> id in szad)
    && (forall id :: id in ad ==> nodes[id].size > 0)
    && (forall i, j :: i in ad && j in ad && i != j ==> Apart(nodes[i], nodes[j]))
  }

  ghost predicate NoneTouch(nodes: map<nat, Extent>, ad: seq<nat>)
    requires forall id :: id in ad ==> id in nodes
  {
    forall i, j :: i in ad && j in ad ==> !Touches(nodes[i], nodes[j])
  }

  predicate Covers(x: Extent, a: int) { x.addr <= a < x.addr + x.size }

  ghost function Span(x: Extent): iset<int> { iset a | Covers(x, a) }

  // The bytes of the free extents.
  ghost predicate Free(nodes: map<nat, Extent>, ad: seq<nat>, a: int)
    requires forall id :: id in ad ==> id in nodes
  {
    exists id :: id in ad && Covers(nodes[id], a)
  }

  // Multiples of the chunk size.
  predicate Whole(x: Extent, chunk: nat)
    requires chunk > 0
  {
    x.addr % chunk == 0 && x.size % chunk == 0
  }

  // ------------------------------------------------------------------------ tree operations

  // How many nodes of a tree come before an extent.
  function Place(nodes: map<nat, Extent>, s: seq<nat>, x: Extent, bySize: bool): (p: nat)
    requires forall i :: 0 <= i < |s| ==> s[i] in nodes
    ensures p <= |s|
  {
    if s == [] || !Below(nodes[s[0]], x, bySize) then 0 else 1 + Place(nodes, s[1..], x, bySize)
  }

  // Insertion of a node into a tree.
  function Put(nodes: map<nat, Extent>, s: seq<nat>, id: nat, bySize: bool): seq<nat>
    requires id in nodes && forall i :: 0 <= i < |s| ==> s[i] in nodes
  {
    var p := Place(nodes, s, nodes[id], bySize);
    s[..p] + [id] + s[p..]
  }

  function Drop(s: seq<nat>, id: nat): seq<nat>
  {
    if s == [] then [] else if s[0] == id then s[1..] else [s[0]] + Drop(s[1..], id)
  }

  lemma {:induction false} PlaceSplits(nodes: map<nat, Extent>, s: seq<nat>, x: Extent, bySize: bool)
    requires InOrder(nodes, s, bySize)
    ensures var p := Place(nodes, s, x, bySize);
            && (forall i :: 0 <= i < p ==> Below(nodes[s[i]], x, bySize))
            && (forall i :: p <= i < |s| ==> !Below(nodes[s[i]], x, bySize))
  {
    if s != [] {
      var t := s[1..];
      forall i, j | 0 <= i < j < |t|
        ensures Below(nodes[t[i]], nodes[t[j]], bySize)
      {
        assert t[i] == s[i + 1] && t[j] == s[j + 1];
      }
      PlaceSplits(nodes, t, x, bySize);
      var p := Place(nodes, s, x, bySize);
      if Below(nodes[s[0]], x, bySize) {
        forall i | 0 <= i < p ensures Below(nodes[s[i]], x, bySize) { if i > 0 { assert s[i] == t[i - 1]; } }
        forall i | p <= i < |s| ensures !Below(nodes[s[i]], x, bySize) { assert s[i] == t[i - 1]; }
      }
    }
  }

  lemma PutOrder(nodes: map<nat, Extent>, s: seq<nat>, id: nat, bySize: bool)
    requires InOrder(nodes, s, bySize) && id in nodes && id !in s
    requires forall i :: 0 <= i < |s| ==> nodes[s[i]].addr != nodes[id].addr
    ensures InOrder(nodes, Put(nodes, s, id, bySize), bySize)
    ensures forall x :: x in Put(nodes, s, id, bySize) <==> x in s || x == id
  {
    var p := Place(nodes, s, nodes[id], bySize);
    PlaceSplits(nodes, s, nodes[id], bySize);
    var t := Put(nodes, s, id, bySize);
    forall i, j | 0 <= i < j < |t| ensures Below(nodes[t[i]], nodes[t[j]], bySize)
    {
      assert i < p ==> t[i] == s[i];
      assert i > p ==> t[i] == s[i - 1];
      assert j < p ==> t[j] == s[j];
      assert j > p ==> t[j] == s[j - 1];
    }
    forall x | x in s || x == id ensures x in t
    {
      if x in s {
        var k :| 0 <= k < |s| && s[k] == x;
        assert if k < p then t[k] == x else t[k + 1] == x;
      } else {
        assert t[p] == id;
      }
    }
  }

  lemma {:induction false} DropOrder(nodes: map<nat, Extent>, s: seq<nat>, id: nat, bySize: bool)
    requires InOrder(nodes, s, bySize)
    ensures InOrder(nodes, Drop(s, id), bySize)
    ensures forall x :: x in Drop(s, id) <==> x in s && x != id
  {
    if s != [] {
      var t := s[1..];
      forall i, j | 0 <= i < j < |t|
        ensures Below(nodes[t[i]], nodes[t[j]], bySize)
      {
        assert t[i] == s[i + 1] && t[j] == s[j + 1];
      }
      forall x | x in t ensures Below(nodes[s[0]], nodes[x], bySize)
      {
        var k :| 0 <= k < |t| && t[k] == x;
        assert s[k + 1] == x;
      }
      if s[0] != id {
        DropOrder(nodes, t, id, bySize);
        var r := Drop(s, id);
        forall i, j | 0 <= i < j < |r| ensures Below(nodes[r[i]], nodes[r[j]], bySize)
        {
          if i == 0 { assert r[j] in Drop(t, id); }
          else { assert r[i] == Drop(t, id)[i - 1] && r[j] == Drop(t, id)[j - 1]; }
        }
      }
    }
  }

  // Changing a node that is not in a tree.
  lemma OrderFrame(nodes: map<nat, Extent>, s: seq<nat>, id: nat, x: Extent, bySize: bool)
    requires InOrder(nodes, s, bySize) && id !in s
    ensures InOrder(nodes[id := x], s, bySize)
  { }

  // ---------------------------------------------------------------------- whole extents

  ghost predicate Ready(nodes: map<nat, Extent>, szad: seq<nat>, ad: seq<nat>, chunk: nat)
  {
    && chunk > 0 && Trees(nodes, szad, ad) && NoneTouch(nodes, ad)
    && forall id :: id in ad ==> Whole(nodes[id], chunk)
  }

  lemma Removed(nodes: map<nat, Extent>, szad: seq<nat>, ad: seq<nat>, chunk: nat, id: nat)
    requires Ready(nodes, szad, ad, chunk) && id in ad
    ensures Ready(nodes, Drop(szad, id), Drop(ad, id), chunk)
    ensures forall x :: x in Drop(ad, id) <==> x in ad && x != id
    ensures id in nodes && forall a :: Free(nodes, Drop(ad, id), a) <==> Free(nodes, ad, a) && !Covers(nodes[id], a)
    ensures forall a :: Covers(nodes[id], a) ==> Free(nodes, ad, a)
  {
    hide InOrder, Whole;
    DropOrder(nodes, szad, id, true);
    DropOrder(nodes, ad, id, false);
    forall x | x in ad ensures x in nodes { Known(nodes, ad, x, false); }
    forall a | Free(nodes, Drop(ad, id), a) ensures !Covers(nodes[id], a)
    {
      var j :| j in Drop(ad, id) && Covers(nodes[j], a);
      assert Apart(nodes[j], nodes[id]);
    }
  }

  lemma Known(nodes: map<nat, Extent>, s: seq<nat>, id: nat, bySize: bool)
    requires InOrder(nodes, s, bySize) && id in s
    ensures id in nodes
  { }

  // x keeps clear of all free extents.
  ghost predicate Clear(nodes: map<nat, Extent>, ad: seq<nat>, x: Extent)
  {
    forall j :: j in ad ==> j in nodes && Apart(nodes[j], x) && !Touches(nodes[j], x) && !Touches(x, nodes[j])
  }

  lemma Inserted(nodes: map<nat, Extent>, szad: seq<nat>, ad: seq<nat>, chunk: nat, id: nat, x: Extent)
    requires Ready(nodes, szad, ad, chunk) && id !in ad && x.size > 0 && Whole(x, chunk) && Clear(nodes, ad, x)
    ensures var nodes' := nodes[id := x];
            && (forall i :: 0 <= i < |szad| ==> szad[i] in nodes') && (forall i :: 0 <= i < |ad| ==> ad[i] in nodes')
            && Ready(nodes', Put(nodes', szad, id, true), Put(nodes', ad, id, false), chunk)
            && (forall j :: j in Put(nodes', ad, id, false) <==> j in ad || j == id)
            && (forall j :: j in Put(nodes', ad, id, false) ==> j in nodes') && (forall j :: j in ad ==> j in nodes)
            && (forall a :: Free(nodes', Put(nodes', ad, id, false), a) <==> Covers(x, a) || Free(nodes, ad, a))
  {
    hide InOrder, Whole, Put;
    var nodes' := nodes[id := x];
    OrderFrame(nodes, szad, id, x, true);
    OrderFrame(nodes, ad, id, x, false);
    AllKnown(nodes, szad, true);
    AllKnown(nodes, ad, false);
    forall j | j in ad ensures nodes[j].addr != x.addr
    {
      assert Apart(nodes[j], x);
    }
    PutOrder(nodes', szad, id, true);
    PutOrder(nodes', ad, id, false);
    var ad' := Put(nodes', ad, id, false);
    forall a ensures Free(nodes', ad', a) <==> Covers(x, a) || Free(nodes, ad, a)
    {
      if Covers(x, a) { assert Covers(nodes'[id], a); }
      if Free(nodes, ad, a) {
        var j :| j in ad && Covers(nodes[j], a);
        assert Covers(nodes'[j], a);
      }
    }
  }

  lemma AllKnown(nodes: map<nat, Extent>, s: seq<nat>, bySize: bool)
    requires InOrder(nodes, s, bySize)
    ensures (forall i :: 0 <= i < |s| ==> s[i] in nodes) && forall j :: j in s ==> j in nodes
  { }

  // ------------------------------------------------------------------------- allocation

  // ALIGNMENT_CEILING
  function RoundUp(a: nat, alignment: nat): nat
    requires alignment > 0
  {
    (a + (alignment - 1)) / alignment * alignment
  }

  // Rounding a chunk address up to a multiple of whole chunks passes over fewer than all of them.
  lemma LeadFits(addr: nat, alignment: nat, chunk: nat)
    requires chunk > 0 && alignment > 0 && addr % chunk == 0 && alignment % chunk == 0
    ensures var r := RoundUp(addr, alignment);
            addr <= r <= addr + alignment - chunk && r % alignment == 0 && r % chunk == 0
  {
    var r, q := RoundUp(addr, alignment), alignment / chunk;
    var k := (addr + (alignment - 1)) / alignment;
    assert alignment == chunk * q && r == k * alignment == chunk * (k * q) by { Rearranged(k, chunk, q); }
    DivBounds(addr + (alignment - 1), alignment);
    ModOfMultiple(k, alignment);
    ModOfMultiple(k * q, chunk);
    var p := addr / chunk;
    assert addr == chunk * p;
    Steps(chunk, k * q, p, q);
  }

  lemma Rearranged(k: nat, chunk: nat, q: nat)
    ensures k * (chunk * q) == chunk * (k * q)
  { }

  lemma DivBounds(x: nat, d: nat)
    requires d > 0
    ensures x - d < x / d * d <= x
  { }

  lemma ModOfMultiple(k: nat, d: nat)
    requires d > 0
    ensures k * d % d == 0 && d * k % d == 0
  {
    var q, r := k * d / d, k * d % d;
    assert k * d == q * d + r;
    Multiples(k - q, d);
    assert (k - q) * d == r;
  }

  lemma Multiples(c: int, d: nat)
    ensures c >= 1 ==> c * d >= d
    ensures c <= -1 ==> c * d + d <= 0
    ensures c == 0 ==> c * d == 0
  { }

  // Multiples of chunk: less than alignment apart is at most alignment - chunk apart.
  lemma Steps(chunk: nat, a: nat, p: nat, q: nat)
    requires chunk > 0 && chunk * a < chunk * p + chunk * q
    ensures chunk * a <= chunk * p + chunk * q - chunk
  {
    assert chunk * p + chunk * q == chunk * (p + q);
    assert a < p + q;
    assert chunk * a <= chunk * (p + q - 1);
  }

  // An extent this much larger than wanted always has an aligned part of the wanted size.
  lemma AlwaysFits(x: Extent, size: nat, alignment: nat, chunk: nat)
    requires chunk > 0 && alignment > 0 && alignment % chunk == 0 && Whole(x, chunk)
    requires x.size >= size + alignment - chunk
    ensures var r := RoundUp(x.addr, alignment); r % alignment == 0 && x.addr <= r && r + size <= x.addr + x.size
  {
    LeadFits(x.addr, alignment, chunk);
  }

  // --------------------------------------------------------------------------- the pool

  // The part of x from a on.
  function Part(x: Extent, a: nat, size: nat): Extent { x.(addr := a, size := size) }

  // A part of an extent that was taken out touches none of the others.
  lemma PartClear(nodes: map<nat, Extent>, szad: seq<nat>, ad: seq<nat>, chunk: nat, id: nat, y: Extent)
    requires Ready(nodes, szad, ad, chunk) && id in ad
    requires id in nodes && nodes[id].addr <= y.addr && y.size > 0 && y.addr + y.size <= nodes[id].addr + nodes[id].size
    ensures Clear(nodes, Drop(ad, id), y)
  {
    hide Whole;
    DropOrder(nodes, ad, id, false);
    AllKnown(nodes, ad, false);
    forall j | j in Drop(ad, id) ensures Apart(nodes[j], y) && !Touches(nodes[j], y) && !Touches(y, nodes[j])
    {
      assert Apart(nodes[j], nodes[id]) && !Touches(nodes[j], nodes[id]) && !Touches(nodes[id], nodes[j]);
    }
  }

  // ------------------------------------------------------------------- bytes known to be zero

  // The bytes of the free extents that are marked as zeroed.
  ghost predicate ZeroAt(nodes: map<nat, Extent>, ad: seq<nat>, a: int)
  {
    exists id :: id in ad && id in nodes && nodes[id].zeroed && Covers(nodes[id], a)
  }

  ghost function AllZero(nodes: map<nat, Extent>, ad: seq<nat>): iset<int> { iset a | ZeroAt(nodes, ad, a) }

  // An extent is marked exactly if all of it is in z.
  ghost predicate Marks(nodes: map<nat, Extent>, ad: seq<nat>, z: iset<int>)
  {
    forall id :: id in ad && id in nodes ==> (nodes[id].zeroed <==> Span(nodes[id]) <= z)
  }

  // All bytes of an extent are marked, or none.
  lemma ZeroSpan(nodes: map<nat, Extent>, szad: seq<nat>, ad: seq<nat>, id: nat)
    requires Trees(nodes, szad, ad) && id in ad && id in nodes
    ensures nodes[id].zeroed ==> Span(nodes[id]) <= AllZero(nodes, ad)
    ensures !nodes[id].zeroed ==> Span(nodes[id]) * AllZero(nodes, ad) == iset{}
  {
    hide InOrder;
    forall a | a in Span(nodes[id]) ensures a in AllZero(nodes, ad) <==> nodes[id].zeroed
    {
      if ZeroAt(nodes, ad, a) {
        var j :| j in ad && j in nodes && nodes[j].zeroed && Covers(nodes[j], a);
        assert j == id;
      }
    }
  }

  lemma MarksOwn(nodes: map<nat, Extent>, szad: seq<nat>, ad: seq<nat>)
    requires Trees(nodes, szad, ad)
    ensures Marks(nodes, ad, AllZero(nodes, ad))
  {
    hide InOrder, AllZero;
    forall id | id in ad && id in nodes ensures nodes[id].zeroed <==> Span(nodes[id]) <= AllZero(nodes, ad)
    {
      ZeroSpan(nodes, szad, ad, id);
      if !nodes[id].zeroed { NotAll(nodes[id], AllZero(nodes, ad)); }
    }
  }

  lemma ZeroOut(nodes: map<nat, Extent>, szad: seq<nat>, ad: seq<nat>, id: nat, ad': seq<nat>)
    requires Trees(nodes, szad, ad) && id in ad && id in nodes && forall x :: x in ad' <==> x in ad && x != id
    ensures AllZero(nodes, ad') == AllZero(nodes, ad) - Span(nodes[id])
  {
    hide InOrder;
    forall a ensures a in AllZero(nodes, ad') <==> a in AllZero(nodes, ad) && a !in Span(nodes[id])
    {
      if ZeroAt(nodes, ad', a) {
        var j :| j in ad' && j in nodes && nodes[j].zeroed && Covers(nodes[j], a);
        assert Apart(nodes[id], nodes[j]);
      }
    }
  }

  lemma ZeroIn(nodes: map<nat, Extent>, ad: seq<nat>, id: nat, x: Extent, ad': seq<nat>)
    requires id !in ad && (forall j :: j in ad' <==> j in ad || j == id)
    ensures AllZero(nodes[id := x], ad') == AllZero(nodes, ad) + if x.zeroed then Span(x) else iset{}
  {
    var nodes' := nodes[id := x];
    forall a ensures ZeroAt(nodes', ad', a) <==> ZeroAt(nodes, ad, a) || (x.zeroed && Covers(x, a))
    {
      if ZeroAt(nodes, ad, a) {
        var j :| j in ad && j in nodes && nodes[j].zeroed && Covers(nodes[j], a);
        assert nodes'[j] == nodes[j];
      }
      if x.zeroed && Covers(x, a) { assert nodes'[id] == x; }
    }
  }

  // The marked bytes when the middle of an extent is taken, or all from there on.
  lemma ZeroPieces(z: iset<int>, e: Extent, lead: nat, size: nat)
    requires lead + size <= e.size && (e.zeroed ==> Span(e) <= z) && (!e.zeroed ==> Span(e) * z == iset{})
    ensures var r, end := e.addr + lead, e.addr + e.size;
            var x, y := Part(e, e.addr, lead), Part(e, r + size, e.size - lead - size);
            var l, t := if e.zeroed then Span(x) else iset{}, if e.zeroed then Span(y) else iset{};
            && z - Span(e) + l + t == z - Bytes(r, r + size)
            && z - Span(e) + l == z - Bytes(r, end)
            && (lead == 0 ==> z - Span(e) + t == z - Bytes(r, r + size))
            && (lead == 0 && lead + size == e.size ==> z - Span(e) == z - Bytes(r, r + size))
            && (lead + size == e.size ==> z - Span(e) + l == z - Bytes(r, r + size))
            && (size > 0 ==> (e.zeroed <==> Bytes(r, r + size) <= z))
  {
    var r, end := e.addr + lead, e.addr + e.size;
    if e.zeroed {
      Pieces(z, e, lead, size);
    } else {
      forall a | a in Bytes(r, end) || a in Bytes(r, r + size) ensures a !in z
      {
        assert a in Span(e) && a !in Span(e) * z;
      }
      assert z - Span(e) == z == z - Bytes(r, r + size) == z - Bytes(r, end);
      if size > 0 { assert r in Bytes(r, r + size); }
    }
  }

  lemma MarksBound(nodes: map<nat, Extent>, ad: seq<nat>, z: iset<int>)
    requires Marks(nodes, ad, z)
    ensures AllZero(nodes, ad) <= z
  {
    forall a | a in AllZero(nodes, ad) ensures a in z
    {
      var id :| id in ad && id in nodes && nodes[id].zeroed && Covers(nodes[id], a);
      assert a in Span(nodes[id]);
    }
  }

  // A chunk that gets a node of its own.
  lemma MarksNew(nodes: map<nat, Extent>, ad: seq<nat>, z: iset<int>, id: nat, x: Extent, ad': seq<nat>)
    requires Marks(nodes, ad, z) && id !in ad && x.size > 0 && Span(x) * z == iset{} && Taken(nodes, ad, x)
    requires forall j :: j in ad' <==> j in ad || j == id
    ensures Marks(nodes[id := x], ad', z + if x.zeroed then Span(x) else iset{})
  {
    var nodes', z' := nodes[id := x], z + if x.zeroed then Span(x) else iset{};
    NotAll(x, z);
    forall j | j in ad' && j in nodes' ensures nodes'[j].zeroed <==> Span(nodes'[j]) <= z'
    {
      if j != id { SpansApart(nodes[j], x, z); }
    }
  }

  // A chunk that joins the extent behind it.
  lemma MarksGrown(nodes: map<nat, Extent>, ad: seq<nat>, z: iset<int>, id: nat, x: Extent, zeroed: bool)
    requires Marks(nodes, ad, z) && id in ad && id in nodes && x.size > 0 && Span(x) * z == iset{}
    requires Taken(nodes, ad, x) && Touches(x, nodes[id]) && zeroed == (nodes[id].zeroed && x.zeroed)
    ensures Marks(nodes[id := Extent(x.addr, nodes[id].size + x.size, zeroed)], ad,
              z + if x.zeroed then Span(x) else iset{})
  {
    var e, y := nodes[id], Extent(x.addr, nodes[id].size + x.size, zeroed);
    var nodes', z' := nodes[id := y], z + if x.zeroed then Span(x) else iset{};
    NotAll(x, z);
    SpanSum(x, e, y);
    SpansApart(e, x, z);
    forall j | j in ad && j in nodes' ensures nodes'[j].zeroed <==> Span(nodes'[j]) <= z'
    {
      if j != id { SpansApart(nodes[j], x, z); }
    }
  }

  // The extent before it joins.
  lemma MarksJoined(nodes: map<nat, Extent>, ad: seq<nat>, z: iset<int>, id: nat, prev: nat, zeroed: bool,
      ad': seq<nat>)
    requires Marks(nodes, ad, z) && id in ad && id in nodes && prev in ad && prev in nodes
    requires Touches(nodes[prev], nodes[id]) && zeroed == (nodes[id].zeroed && nodes[prev].zeroed)
    requires forall j :: j in ad' ==> j in ad
    ensures Marks(nodes[id := Extent(nodes[prev].addr, nodes[id].size + nodes[prev].size, zeroed)], ad', z)
  {
    SpanSum(nodes[prev], nodes[id], Extent(nodes[prev].addr, nodes[id].size + nodes[prev].size, zeroed));
  }

  lemma SpanSum(x: Extent, e: Extent, y: Extent)
    requires Touches(x, e) && y.addr == x.addr && y.size == x.size + e.size
    ensures Span(y) == Span(x) + Span(e)
  { }

  lemma NotAll(x: Extent, z: iset<int>)
    requires x.size > 0 && Span(x) * z == iset{}
    ensures !(Span(x) <= z)
  {
    assert x.addr in Span(x) && x.addr !in Span(x) * z;
  }

  lemma SpansApart(e: Extent, x: Extent, z: iset<int>)
    requires Apart(e, x)
    ensures Span(e) <= z + Span(x) <==> Span(e) <= z
  {
    forall a | a in Span(e) ensures a !in Span(x) { }
  }

  class Pool {
    const chunk: nat
    var nodes: map<nat, Extent>
    var szad: seq<nat>
    var ad: seq<nat>

    ghost predicate Valid()
      reads this
    {
      Ready(nodes, szad, ad, chunk)
    }

    // chunk_boot: nothing is free.
    constructor (chunk: nat)
      requires chunk > 0
      ensures Valid() && FreeBytes() == iset{} && ZeroBytes() == iset{} && nodes == map[] && this.chunk == chunk
    {
      this.chunk := chunk;
      nodes := map[];
      szad := [];
      ad := [];
    }

    // All free bytes.
    ghost function FreeBytes(): iset<int>
      reads this
      requires Valid()
    {
      AllKnown(nodes, ad, false);
      iset a | Free(nodes, ad, a)
    }

    // Those that are marked as zeroed.
    ghost function ZeroBytes(): iset<int>
      reads this
    {
      AllZero(nodes, ad)
    }

    // extent_tree_szad_nsearch with address 0: the smallest extent that is large enough, and of
    // those the first.
    method BestFit(size: nat) returns (r: Option<nat>)
      requires Valid()
      ensures r.None? ==> forall id :: id in ad ==> id in nodes && nodes[id].size < size
      ensures r.Some? ==> r.value in ad && r.value in nodes && nodes[r.value].size >= size
      ensures r.Some? ==> forall id :: id in ad && id in nodes && nodes[id].size >= size ==>
                !Below(nodes[id], nodes[r.value], true)
    {
      hide Whole;
      AllKnown(nodes, szad, true);
      for i := 0 to |szad|
        invariant forall j :: 0 <= j < i ==> nodes[szad[j]].size < size
      {
        if nodes[szad[i]].size >= size {
          assert szad[i] in ad;
          forall id | id in ad && nodes[id].size >= size ensures !Below(nodes[id], nodes[szad[i]], true)
          {
            var j :| 0 <= j < |szad| && szad[j] == id;
            if i < j { assert Below(nodes[szad[i]], nodes[szad[j]], true); }
          }
          return Some(szad[i]);
        }
      }
      r := None;
    }

    // Takes the node of an extent out of both trees.
    method TakeOut(id: nat)
      requires Valid() && id in ad
      modifies this`szad, this`ad
      ensures Valid() && szad == Drop(old(szad), id) && ad == Drop(old(ad), id)
      ensures forall x :: x in ad <==> x in old(ad) && x != id
      ensures id in nodes && FreeBytes() == old(FreeBytes()) - Span(nodes[id]) && Span(nodes[id]) <= old(FreeBytes())
      ensures ZeroBytes() == old(ZeroBytes()) - Span(nodes[id])
    {
      hide Whole, AllZero;
      Removed(nodes, szad, ad, chunk, id);
      ZeroOut(nodes, szad, ad, id, Drop(ad, id));
      szad := Drop(szad, id);
      ad := Drop(ad, id);
    }

    // Puts a node, with a new extent, into both trees.
    method PutIn(id: nat, x: Extent)
      requires Valid() && id !in ad && x.size > 0 && Whole(x, chunk) && Clear(nodes, ad, x)
      modifies this`nodes, this`szad, this`ad
      ensures Valid() && nodes == old(nodes)[id := x]
      ensures forall j :: j in ad <==> j in old(ad) || j == id
      ensures FreeBytes() == old(FreeBytes()) + Span(x)
      ensures ZeroBytes() == old(ZeroBytes()) + if x.zeroed then Span(x) else iset{}
    {
      hide Whole, AllZero;
      Inserted(nodes, szad, ad, chunk, id, x);
      ZeroIn(nodes, ad, id, x, Put(nodes[id := x], ad, id, false));
      nodes := nodes[id := x];
      szad := Put(nodes, szad, id, true);
      ad := Put(nodes, ad, id, false);
    }

    lemma Inside(id: nat)
      requires Valid() && id in ad
      ensures id in nodes && Span(nodes[id]) <= FreeBytes()
    {
      AllKnown(nodes, ad, false);
    }

    lemma ZeroOf(id: nat)
      requires Valid() && id in ad
      ensures id in nodes && (nodes[id].zeroed ==> Span(nodes[id]) <= ZeroBytes())
      ensures !nodes[id].zeroed ==> Span(nodes[id]) * ZeroBytes() == iset{}
    {
      AllKnown(nodes, ad, false);
      ZeroSpan(nodes, szad, ad, id);
    }

    // Splits a free extent in up to three: what is before r, the result, and what is behind it.
    // A second node may be needed for the last; without it that space is not entered again.
    method Carve(node: nat, r: nat, size: nat, spare: Option<nat>) returns (ok: bool)
      requires Valid() && node in ad && (spare.Some? ==> spare.value !in nodes) && size > 0 && size % chunk == 0
      requires r % chunk == 0
      requires node in nodes && nodes[node].addr <= r && r + size <= nodes[node].addr + nodes[node].size
      modifies this`nodes, this`szad, this`ad
      ensures Valid()
      ensures ok <==> spare.Some? || r == old(nodes[node].addr) || r + size == old(nodes[node].addr + nodes[node].size)
      ensures ok ==> FreeBytes() == old(FreeBytes()) - Bytes(r, r + size) && Bytes(r, r + size) <= old(FreeBytes())
      ensures !ok ==> FreeBytes() == old(FreeBytes()) - Bytes(r, old(nodes[node].addr + nodes[node].size))
      ensures !ok ==> nodes.Keys == old(nodes).Keys && Bytes(r, r + size) <= old(FreeBytes())
      // What stays free keeps its mark.
      ensures var end := if ok then r + size else old(nodes[node].addr + nodes[node].size);
              ZeroBytes() == old(ZeroBytes()) - Bytes(r, end)
      ensures old(nodes[node]).zeroed <==> Bytes(r, r + size) <= old(ZeroBytes())
    {
      hide Whole, Trees, NoneTouch, Clear, Drop, Put, Bytes, Span, Ready, AllZero;
      ZeroOf(node);
      var e := nodes[node];
      var lead := r - e.addr;
      var trail := e.size - lead - size;
      WholeOf(nodes, szad, ad, chunk, node);
      Inside(node);
      PartsWhole(e, lead, size, chunk);
      if lead > 0 { PartClear(nodes, szad, ad, chunk, node, Part(e, e.addr, lead)); }
      if trail > 0 { PartClear(nodes, szad, ad, chunk, node, Part(e, r + size, trail)); }
      Pieces(FreeBytes(), e, lead, size);
      ZeroPieces(ZeroBytes(), e, lead, size);
      TakeOut(node);
      ghost var rest, nodes0 := ad, nodes;
      if lead != 0 {
        PutIn(node, Part(e, e.addr, lead));
      }
      if trail != 0 {
        var id := node;
        if lead != 0 {
          if spare.None? {
            return false;
          }
          id := spare.value;
          StillClear(nodes0, rest, nodes, ad, node, Part(e, e.addr, lead), Part(e, r + size, trail));
        }
        PutIn(id, Part(e, r + size, trail));
      }
      ok := true;
    }

    // chunk_recycle; spare is what base_node_alloc gives if a second node is needed, and back
    // what becomes of the result if it gives none.
    method Recycle(size: nat, alignment: nat, base: bool, spare: Option<nat>, back: Dealloc)
        returns (ret: Option<nat>, zeroed: bool)
      requires Valid() && 0 < size < WORD && size % chunk == 0 && chunk <= alignment < WORD && alignment % chunk == 0
      requires spare.Some? ==> spare.value !in nodes
      requires back.Recorded? && back.spare.Some? ==> back.spare.value !in nodes
      modifies this`nodes, this`szad, this`ad
      ensures Valid()
      ensures ret.Some? ==> ret.value % alignment == 0 && ret.value % chunk == 0
      ensures ret.Some? ==> FreeBytes() == old(FreeBytes()) - Bytes(ret.value, ret.value + size)
      ensures ret.Some? ==> Bytes(ret.value, ret.value + size) <= old(FreeBytes())
      ensures base ==> ret.None?
      // It succeeds whenever some extent is large enough and the best of these leaves no more
      // pieces than there are nodes for; the result is the first aligned address in that one.
      ensures var need := size + alignment - chunk;
              ret.Some? <==> !base && need < WORD && exists x ::
                  BestOf(old(nodes), old(ad), need, x) && (spare.Some? || !TwoPieces(x, size, alignment))
      ensures var need := size + alignment - chunk;
              ret.None? && (base || need >= WORD || spare.Some? || !exists x ::
                  FreeExtent(old(nodes), old(ad), x) && x.size >= need) ==>
                nodes == old(nodes) && szad == old(szad) && ad == old(ad)
      // Otherwise the piece behind the result is lost, and the result unless it is given back.
      ensures ret.None? && !base && spare.None? && size + alignment - chunk < WORD ==>
                forall x :: BestOf(old(nodes), old(ad), size + alignment - chunk, x) ==>
                  FreeBytes() == old(FreeBytes()) - Bytes(RoundUp(x.addr, alignment) + Returned(back, size),
                      x.addr + x.size)
      ensures ret.Some? ==> exists x :: BestOf(old(nodes), old(ad), size + alignment - chunk, x)
                                        && ret.value == RoundUp(x.addr, alignment) && zeroed == x.zeroed
      // The result is said to be zero exactly if all its bytes were known to be, and what stays or
      // comes back keeps its mark.
      ensures ret.Some? ==> (zeroed <==> Bytes(ret.value, ret.value + size) <= old(ZeroBytes()))
      ensures ret.Some? ==> ZeroBytes() == old(ZeroBytes()) - Bytes(ret.value, ret.value + size)
      ensures ret.None? && !base && spare.None? && size + alignment - chunk < WORD ==>
                forall x :: BestOf(old(nodes), old(ad), size + alignment - chunk, x) ==>
                  var r := RoundUp(x.addr, alignment);
                  Marks(nodes, ad, old(ZeroBytes()) - Bytes(r, x.addr + x.size) + Rezeroed(back, r, size))
    {
      hide Whole, Trees, NoneTouch, Clear, Drop, Put, Bytes, Span, Ready, Free, AllZero, Marks, Rezeroed;
      ret, zeroed := None, false;
      ChunkSome();
      if base {
        return;
      }
      var allocSize := (size + alignment - chunk) % WORD;
      if allocSize < size {
        assert size + alignment - chunk >= WORD;
        return;
      }
      assert allocSize == size + alignment - chunk;
      var node := BestFit(allocSize);
      if node.None? {
        return;
      }
      assert BestOf(nodes, ad, allocSize, nodes[node.value]);
      assert FreeExtent(nodes, ad, nodes[node.value]);
      OneBest(nodes, ad, allocSize, nodes[node.value]);
      ret, zeroed := FromExtent(node.value, size, alignment, spare, back);
    }

    // The end of chunk_recycle, with a node whose extent is large enough.
    method FromExtent(node: nat, size: nat, alignment: nat, spare: Option<nat>, back: Dealloc)
        returns (ret: Option<nat>, zeroed: bool)
      requires Valid() && size > 0 && size % chunk == 0 && alignment > 0 && alignment % chunk == 0
      requires node in ad && node in nodes && nodes[node].size >= size + alignment - chunk
      requires spare.Some? ==> spare.value !in nodes
      requires back.Recorded? && back.spare.Some? ==> back.spare.value !in nodes
      modifies this`nodes, this`szad, this`ad
      ensures Valid()
      ensures ret.Some? <==> spare.Some? || !TwoPieces(old(nodes[node]), size, alignment)
      ensures ret.Some? ==>
                ret.value == RoundUp(old(nodes[node].addr), alignment) && ret.value % alignment == 0
                    && ret.value % chunk == 0
      ensures ret.Some? ==> FreeBytes() == old(FreeBytes()) - Bytes(ret.value, ret.value + size)
      ensures ret.Some? ==> Bytes(ret.value, ret.value + size) <= old(FreeBytes())
      ensures ret.None? ==>
                var e := old(nodes[node]);
                FreeBytes() == old(FreeBytes()) - Bytes(RoundUp(e.addr, alignment) + Returned(back, size),
                    e.addr + e.size)
      ensures zeroed == old(nodes[node].zeroed)
      ensures ret.Some? ==> (zeroed <==> Bytes(ret.value, ret.value + size) <= old(ZeroBytes()))
      ensures ret.Some? ==> ZeroBytes() == old(ZeroBytes()) - Bytes(ret.value, ret.value + size)
      ensures ret.None? ==>
                var e := old(nodes[node]); var r := RoundUp(e.addr, alignment);
                Marks(nodes, ad, old(ZeroBytes()) - Bytes(r, e.addr + e.size) + Rezeroed(back, r, size))
    {
      hide Whole, Trees, NoneTouch, Clear, Drop, Put, Bytes, Span, Ready, Free, AllZero, Marks, Rezeroed;
      var e := nodes[node];
      WholeOf(nodes, szad, ad, chunk, node);
      AlwaysFits(e, size, alignment, chunk);
      LeadFits(e.addr, alignment, chunk);
      var r := RoundUp(e.addr, alignment);
      zeroed := e.zeroed;
      ghost var was := FreeBytes();
      var ok := Carve(node, r, size, spare);
      if ok {
        ret := Some(r);
      } else {
        ret := None;
        BytesBack(was, r, r + size, e.addr + e.size);
        BytesBack(was, r, r, e.addr + e.size);
        BytesNone(r);
        ZeroIsFree();
        GiveBack(r, size, e.addr + e.size, back);
      }
    }

    // chunk_dealloc of a result that was taken out and whose trailing space was not entered.
    method GiveBack(r: nat, size: nat, end: nat, back: Dealloc)
      requires Valid() && size > 0 && r % chunk == 0 && size % chunk == 0 && r + size < end
      requires back.Recorded? && back.spare.Some? ==> back.spare.value !in nodes
      requires FreeBytes() * Bytes(r, end) == iset{}
      modifies this`nodes, this`szad, this`ad
      ensures Valid() && FreeBytes() == old(FreeBytes()) + Bytes(r, r + Returned(back, size))
      ensures Marks(nodes, ad, old(ZeroBytes()) + Rezeroed(back, r, size))
    {
      hide Ready, Bytes, FreeExtent, AllZero, Marks;
      MarksOwnReady();
      ChunkSome();
      NotFollowed(r + size, end, r);
      BytesNone(r);
      if back.Recorded? {
        BytesPart(FreeBytes(), r, r + size, end);
        var leaked := Record(r, size, back.unzeroed, back.spare);
      }
    }

    lemma MarksOwnReady()
      requires Valid()
      ensures Marks(nodes, ad, ZeroBytes()) && ZeroBytes() + iset{} == ZeroBytes()
    {
      MarksOwn(nodes, szad, ad);
    }

    lemma ZeroIsFree()
      requires Valid()
      ensures ZeroBytes() <= FreeBytes()
    {
      AllKnown(nodes, ad, false);
    }

    lemma ChunkSome()
      requires Valid()
      ensures chunk > 0
    { }

    // No extent starts at an address that is not free.
    lemma NotFollowed(a: nat, end: nat, from: nat)
      requires Valid() && from <= a < end && FreeBytes() * Bytes(from, end) == iset{}
      ensures !exists x :: FreeExtent(nodes, ad, x) && x.addr == a
    {
      AllKnown(nodes, ad, false);
      forall id | id in ad ensures nodes[id].addr != a
      {
        assert Covers(nodes[id], nodes[id].addr);
        assert Within(from, a, end);
        NotThere(FreeBytes(), from, a, end);
        assert nodes[id].addr == a ==> Free(nodes, ad, a);
      }
    }

    // extent_tree_ad_nsearch: the first extent at or behind an address.
    method FirstAt(addr: nat) returns (r: Option<nat>)
      requires Valid()
      ensures r.None? ==> forall id :: id in ad ==> id in nodes && nodes[id].addr < addr
      ensures r.Some? ==> r.value in ad && r.value in nodes && nodes[r.value].addr >= addr
      ensures r.Some? ==> forall id :: id in ad && id in nodes && nodes[id].addr >= addr ==>
                nodes[id].addr >= nodes[r.value].addr
    {
      hide Whole;
      AllKnown(nodes, ad, false);
      for i := 0 to |ad|
        invariant forall j :: 0 <= j < i ==> nodes[ad[j]].addr < addr
      {
        if nodes[ad[i]].addr >= addr {
          forall id | id in ad && nodes[id].addr >= addr ensures nodes[id].addr >= nodes[ad[i]].addr
          {
            var j :| 0 <= j < |ad| && ad[j] == id;
            if i < j { assert Below(nodes[ad[i]], nodes[ad[j]], false); }
          }
          return Some(ad[i]);
        }
      }
      r := None;
    }

    // extent_tree_ad_prev
    method Prev(id: nat) returns (r: Option<nat>)
      requires InOrder(nodes, ad, false) && id in ad
      ensures id in nodes
      ensures r.None? ==> forall j :: j in ad && j in nodes ==> nodes[j].addr >= nodes[id].addr
      ensures r.Some? ==> r.value in ad && r.value in nodes && nodes[r.value].addr < nodes[id].addr
      ensures r.Some? ==> forall j :: j in ad && j in nodes && nodes[j].addr < nodes[id].addr ==>
                nodes[j].addr <= nodes[r.value].addr
    {
      AllKnown(nodes, ad, false);
      var i := 0;
      while ad[i] != id
        invariant 0 <= i < |ad| && id in ad[i..]
        decreases |ad| - i
      {
        assert ad[i..] == [ad[i]] + ad[i + 1..];
        i := i + 1;
      }
      r := if i == 0 then None else Some(ad[i - 1]);
      forall j | j in ad ensures nodes[j].addr >= nodes[id].addr || (i > 0 && nodes[j].addr <= nodes[ad[i - 1]].addr)
      {
        var k :| 0 <= k < |ad| && ad[k] == j;
        if k < i - 1 { assert Below(nodes[ad[k]], nodes[ad[i - 1]], false); }
        if k > i { assert Below(nodes[ad[i]], nodes[ad[k]], false); }
      }
      if i > 0 { assert Below(nodes[ad[i - 1]], nodes[ad[i]], false); }
    }

    // The first half of chunk_record: the chunk joins the extent behind it, or gets a node.
    method RecordForward(start: nat, size: nat, unzeroed: bool, spare: Option<nat>, ghost z: iset<int>)
        returns (leaked: bool, node: nat)
      requires Valid() && size > 0 && chunk > 0 && start % chunk == 0 && size % chunk == 0
      requires Taken(nodes, ad, Extent(start, size, !unzeroed))
      requires spare.Some? ==> spare.value !in nodes
      requires Marks(nodes, ad, z) && z * Bytes(start, start + size) == iset{}
      modifies this`nodes, this`szad, this`ad
      ensures leaked ==> nodes == old(nodes) && szad == old(szad) && ad == old(ad)
      ensures !leaked ==> Halfway(nodes, szad, ad, chunk, node) && node in nodes && nodes[node].addr == start
      ensures !leaked ==> AllFree(nodes, ad) == old(AllFree(nodes, ad)) + Bytes(start, start + size)
      ensures leaked <==> spare.None? && !exists x :: FreeExtent(old(nodes), old(ad), x) && x.addr == start + size
      ensures forall id :: id in nodes ==> id in old(nodes) || spare == Some(id)
      ensures !leaked ==> Marks(nodes, ad, z + Fresh(start, size, unzeroed))
      ensures !leaked && (forall x :: FreeExtent(old(nodes), old(ad), x) ==> x.addr != start + size) ==>
                ZeroBytes() == old(ZeroBytes()) + Fresh(start, size, unzeroed)
                && forall x :: FreeExtent(nodes, ad, x) ==> x.addr == start || FreeExtent(old(nodes), old(ad), x)
    {
      hide Put, Drop, Trees, NoneTouch, Halfway, Ready, Marks, Span, Bytes, AllZero;
      ghost var x := Extent(start, size, !unzeroed);
      AllKnownIn(nodes, szad, ad, chunk);
      SameBytes(x);
      leaked, node := false, 0;
      var next := FirstAt(start + size);
      if next.Some? && nodes[next.value].addr == start + size {
        node := next.value;
        var e := nodes[node];
        assert FreeExtent(nodes, ad, e);
        GrowDown(nodes, szad, ad, chunk, node, x, e.zeroed && !unzeroed);
        AddedBytes(nodes, ad, nodes[node := Extent(start, e.size + size, e.zeroed && !unzeroed)], ad, x);
        MarksGrown(nodes, ad, z, node, x, e.zeroed && !unzeroed);
        szad := Drop(szad, node);
        nodes := nodes[node := Extent(start, e.size + size, e.zeroed && !unzeroed)];
        szad := Put(nodes, szad, node, true);
      } else {
        if spare.None? {
          return true, 0;
        }
        node := spare.value;
        PutNew(nodes, szad, ad, chunk, node, x);
        AddedBytes(nodes, ad, nodes[node := x], Put(nodes[node := x], ad, node, false), x);
        MarksNew(nodes, ad, z, node, x, Put(nodes[node := x], ad, node, false));
        ZeroIn(nodes, ad, node, x, Put(nodes[node := x], ad, node, false));
        nodes := nodes[node := Extent(start, size, !unzeroed)];
        ad := Put(nodes, ad, node, false);
        szad := Put(nodes, szad, node, true);
      }
    }

    // The second half: and the extent before it.
    method RecordBackward(start: nat, node: nat, ghost z: iset<int>)
      requires Halfway(nodes, szad, ad, chunk, node) && node in nodes && nodes[node].addr == start
      requires Marks(nodes, ad, z)
      modifies this`nodes, this`szad, this`ad
      ensures Valid() && AllFree(nodes, ad) == old(AllFree(nodes, ad)) && nodes.Keys == old(nodes).Keys
      ensures Marks(nodes, ad, z)
      ensures (forall x :: FreeExtent(old(nodes), old(ad), x) ==> x.addr + x.size != start) ==>
                nodes == old(nodes) && ad == old(ad)
    {
      hide Put, Drop, Trees, NoneTouch, Whole, Halfway, Ready, Marks;
      HalfwayOrder(nodes, szad, ad, chunk, node);
      var prev := Prev(node);
      if prev.Some? && nodes[prev.value].addr + nodes[prev.value].size == start {
        var p, e := nodes[prev.value], nodes[node];
        assert FreeExtent(nodes, ad, p);
        JoinBack(nodes, szad, ad, chunk, node, prev.value, e.zeroed && p.zeroed);
        KeptBytes(nodes, ad, nodes[node := Extent(p.addr, e.size + p.size, e.zeroed && p.zeroed)],
            Drop(ad, prev.value));
        DropMembers(nodes, ad, prev.value);
        MarksJoined(nodes, ad, z, node, prev.value, e.zeroed && p.zeroed, Drop(ad, prev.value));
        szad := Drop(szad, prev.value);
        ad := Drop(ad, prev.value);
        szad := Drop(szad, node);
        nodes := nodes[node := Extent(p.addr, e.size + p.size, e.zeroed && p.zeroed)];
        szad := Put(nodes, szad, node, true);
      } else {
        OnlyPrev(nodes, szad, ad, chunk, node, prev);
        NoneBack(nodes, szad, ad, chunk, node);
      }
    }

    // chunk_record: a freed chunk joins the extents around it. spare is the node allocated
    // beforehand; without one the chunk is leaked, unless a free extent follows it.
    method Record(start: nat, size: nat, unzeroed: bool, spare: Option<nat>) returns (leaked: bool)
      requires Valid() && size > 0 && chunk > 0 && start % chunk == 0 && size % chunk == 0
      requires FreeBytes() * Bytes(start, start + size) == iset{}
      requires spare.Some? ==> spare.value !in nodes
      modifies this`nodes, this`szad, this`ad
      ensures Valid()
      ensures !leaked ==> FreeBytes() == old(FreeBytes()) + Bytes(start, start + size)
      ensures leaked <==> spare.None? && !exists x :: FreeExtent(old(nodes), old(ad), x) && x.addr == start + size
      ensures leaked ==> nodes == old(nodes) && szad == old(szad) && ad == old(ad)
      ensures forall id :: id in nodes ==> id in old(nodes) || spare == Some(id)
      // An extent is now marked as zeroed exactly if all its bytes were, or came so with the chunk.
      ensures !leaked ==> Marks(nodes, ad, old(ZeroBytes()) + Fresh(start, size, unzeroed))
      ensures !leaked ==> ZeroBytes() <= old(ZeroBytes()) + Fresh(start, size, unzeroed)
      ensures !leaked && (forall x :: FreeExtent(old(nodes), old(ad), x) ==>
                x.addr != start + size && x.addr + x.size != start) ==>
                  ZeroBytes() == old(ZeroBytes()) + Fresh(start, size, unzeroed)
    {
      hide Halfway, Ready, Taken, FreeExtent, Bytes, Marks, AllZero;
      MarksOwnReady();
      ZeroIsFree();
      ghost var z := ZeroBytes();
      Disjoint(z, FreeBytes(), Bytes(start, start + size));
      NotFree(Extent(start, size, !unzeroed));
      FreeIsAll();
      var node;
      leaked, node := RecordForward(start, size, unzeroed, spare, z);
      if leaked {
        return;
      }
      HalfwaySizes(nodes, szad, ad, chunk, node);
      RecordBackward(start, node, z + Fresh(start, size, unzeroed));
      FreeIsAll();
      MarksBound(nodes, ad, z + Fresh(start, size, unzeroed));
    }

    lemma FreeIsAll()
      requires Valid()
      ensures FreeBytes() == AllFree(nodes, ad)
    {
      AllKnown(nodes, ad, false);
    }

    lemma SameBytes(x: Extent)
      ensures Span(x) == Bytes(x.addr, x.addr + x.size)
    { }

    lemma NotFree(x: Extent)
      requires Valid() && x.size > 0 && FreeBytes() * Bytes(x.addr, x.addr + x.size) == iset{}
      ensures Taken(nodes, ad, x)
    {
      AllKnown(nodes, ad, false);
      forall j | j in ad ensures Apart(nodes[j], x)
      {
        var a := if nodes[j].addr > x.addr then nodes[j].addr else x.addr;
        assert a !in FreeBytes() * Bytes(x.addr, x.addr + x.size);
        assert Covers(nodes[j], a) ==> a in FreeBytes();
        assert Within(x.addr, a, x.addr + x.size) ==> a in Bytes(x.addr, x.addr + x.size);
      }
    }
  }

  ghost function AllFree(nodes: map<nat, Extent>, ad: seq<nat>): iset<int>
  {
    iset a | (forall id :: id in ad ==> id in nodes) && Free(nodes, ad, a)
  }

  lemma AddedBytes(nodes: map<nat, Extent>, ad: seq<nat>, nodes': map<nat, Extent>, ad': seq<nat>, x: Extent)
    requires (forall id :: id in ad ==> id in nodes) && (forall id :: id in ad' ==> id in nodes')
    requires forall a :: Free(nodes', ad', a) <==> Covers(x, a) || Free(nodes, ad, a)
    ensures AllFree(nodes', ad') == AllFree(nodes, ad) + Span(x)
  { }

  lemma KeptBytes(nodes: map<nat, Extent>, ad: seq<nat>, nodes': map<nat, Extent>, ad': seq<nat>)
    requires (forall id :: id in ad ==> id in nodes) && (forall id :: id in ad' ==> id in nodes')
    requires forall a :: Free(nodes', ad', a) <==> Free(nodes, ad, a)
    ensures AllFree(nodes', ad') == AllFree(nodes, ad)
  { }

  lemma AllKnownIn(nodes: map<nat, Extent>, szad: seq<nat>, ad: seq<nat>, chunk: nat)
    requires Ready(nodes, szad, ad, chunk)
    ensures (forall j :: j in ad ==> j in nodes) && (forall i :: 0 <= i < |ad| ==> ad[i] in nodes)
    ensures forall i :: 0 <= i < |szad| ==> szad[i] in nodes
  {
    AllKnown(nodes, ad, false);
    AllKnown(nodes, szad, true);
  }

  lemma HalfwayOrder(nodes: map<nat, Extent>, szad: seq<nat>, ad: seq<nat>, chunk: nat, id: nat)
    requires Halfway(nodes, szad, ad, chunk, id)
    ensures InOrder(nodes, ad, false) && id in ad && (forall i :: 0 <= i < |szad| ==> szad[i] in nodes)
    ensures forall i :: 0 <= i < |ad| ==> ad[i] in nodes
  { }

  lemma HalfwaySizes(nodes: map<nat, Extent>, szad: seq<nat>, ad: seq<nat>, chunk: nat, id: nat)
    requires Halfway(nodes, szad, ad, chunk, id)
    ensures forall x :: FreeExtent(nodes, ad, x) ==> x.size > 0
  { }

  // Only the extent right before it can touch it.
  lemma OnlyPrev(nodes: map<nat, Extent>, szad: seq<nat>, ad: seq<nat>, chunk: nat, id: nat, prev: Option<nat>)
    requires Halfway(nodes, szad, ad, chunk, id) && id in nodes
    requires prev.None? ==> forall j :: j in ad && j in nodes ==> nodes[j].addr >= nodes[id].addr
    requires prev.Some? ==> prev.value in ad && prev.value in nodes && nodes[prev.value].addr < nodes[id].addr
                            && (forall j :: j in ad && j in nodes && nodes[j].addr < nodes[id].addr ==>
                                 nodes[j].addr <= nodes[prev.value].addr)
                            && !Touches(nodes[prev.value], nodes[id])
    ensures forall j :: j in ad && j in nodes ==> !Touches(nodes[j], nodes[id])
  {
    AllKnown(nodes, ad, false);
    forall j | j in ad ensures !Touches(nodes[j], nodes[id])
    {
      assert prev.Some? && j != prev.value ==> Apart(nodes[j], nodes[prev.value]);
      assert prev.Some? ==> Apart(nodes[prev.value], nodes[id]);
    }
  }

  // x is a free extent.
  ghost predicate FreeExtent(nodes: map<nat, Extent>, ad: seq<nat>, x: Extent)
  {
    exists id :: id in ad && id in nodes && nodes[id] == x
  }

  // x is the smallest of the large enough extents, and the first of these.
  ghost predicate BestOf(nodes: map<nat, Extent>, ad: seq<nat>, need: int, x: Extent)
  {
    && FreeExtent(nodes, ad, x) && x.size >= need
    && forall y :: FreeExtent(nodes, ad, y) && y.size >= need ==> !Below(y, x, true)
  }

  // The best fit, by size and address.
  lemma OneBest(nodes: map<nat, Extent>, ad: seq<nat>, need: int, x: Extent)
    requires BestOf(nodes, ad, need, x)
    ensures forall y :: BestOf(nodes, ad, need, y) ==> y.addr == x.addr && y.size == x.size
  { }

  // Space remains both before and behind the aligned part.
  predicate TwoPieces(x: Extent, size: nat, alignment: nat)
    requires alignment > 0
  {
    x.addr < RoundUp(x.addr, alignment) && RoundUp(x.addr, alignment) + size < x.addr + x.size
  }

  // The bytes known to be zero that a chunk brings with it.
  ghost function Fresh(start: nat, size: nat, unzeroed: bool): iset<int>
  {
    if unzeroed then iset{} else Bytes(start, start + size)
  }

  ghost function Rezeroed(back: Dealloc, r: nat, size: nat): iset<int>
  {
    if back.Recorded? && back.spare.Some? then Fresh(r, size, back.unzeroed) else iset{}
  }

  lemma Disjoint(z: iset<int>, free: iset<int>, x: iset<int>)
    requires z <= free && free * x == iset{}
    ensures z * x == iset{}
  {
    forall a | a in z ensures a !in x { assert a !in free * x; }
  }

  lemma DropMembers(nodes: map<nat, Extent>, ad: seq<nat>, id: nat)
    requires InOrder(nodes, ad, false) && id in ad
    ensures forall j :: j in Drop(ad, id) ==> j in ad
  {
    DropOrder(nodes, ad, id, false);
  }

  predicate Within(from: int, a: int, to: int) { from <= a < to }

  ghost function Bytes(from: int, to: int): iset<int> { iset a | Within(from, a, to) }

  lemma NotThere(free: iset<int>, from: int, a: int, to: int)
    requires free * Bytes(from, to) == iset{} && Within(from, a, to)
    ensures a !in free
  {
    var both := free * Bytes(from, to);
    assert a in both <==> a in free;
  }

  lemma BytesNone(r: int)
    ensures Bytes(r, r) == iset{}
  { }

  lemma BytesPart(free: iset<int>, from: int, mid: int, to: int)
    requires from <= mid <= to && free * Bytes(from, to) == iset{}
    ensures free * Bytes(from, mid) == iset{}
  {
    forall a | a in free ensures a !in Bytes(from, mid) { assert a !in free * Bytes(from, to); }
  }

  // Taking all from r to the end and giving the first bytes of it back.
  lemma BytesBack(free: iset<int>, r: int, mid: int, end: int)
    requires r <= mid <= end && (Bytes(r, mid) <= free || r == mid)
    ensures free - Bytes(r, end) + Bytes(r, mid) == free - Bytes(mid, end)
    ensures (free - Bytes(r, end)) * Bytes(r, end) == iset{}
  { }

  // What remains of a set of bytes when the middle of an extent is taken, or all from there on.
  lemma Pieces(free: iset<int>, e: Extent, lead: nat, size: nat)
    requires Span(e) <= free && lead + size <= e.size
    ensures var r, end := e.addr + lead, e.addr + e.size;
            var l, t := Span(Part(e, e.addr, lead)), Span(Part(e, r + size, e.size - lead - size));
            && free - Span(e) + l + t == free - Bytes(r, r + size)
            && free - Span(e) + l == free - Bytes(r, end)
            && (lead == 0 ==> free - Span(e) + t == free - Bytes(r, r + size))
            && (lead == 0 && lead + size == e.size ==> free - Span(e) == free - Bytes(r, r + size))
            && (lead + size == e.size ==> free - Span(e) + l == free - Bytes(r, r + size))
            && Bytes(r, r + size) <= free
  {
    assert forall a :: a in Bytes(e.addr + lead, e.addr + lead + size) ==> a in Span(e);
  }

  lemma WholeOf(nodes: map<nat, Extent>, szad: seq<nat>, ad: seq<nat>, chunk: nat, id: nat)
    requires Ready(nodes, szad, ad, chunk) && id in ad
    ensures chunk > 0 && id in nodes && Whole(nodes[id], chunk) && nodes[id].size > 0
  {
    AllKnown(nodes, ad, false);
  }

  lemma SumMod(a: nat, b: nat, c: nat)
    requires c > 0 && a % c == 0 && b % c == 0
    ensures (a + b) % c == 0
  {
    var q := a / c + b / c;
    assert a + b == c * q;
    ModOfMultiple(q, c);
  }

  lemma DiffMod(a: nat, b: nat, c: nat)
    requires c > 0 && a % c == 0 && b % c == 0 && b <= a
    ensures (a - b) % c == 0
  {
    var q := a / c - b / c;
    assert a - b == c * q;
    NonNegative(c, q);
    ModOfMultiple(q, c);
  }

  lemma PartsWhole(e: Extent, lead: nat, size: nat, chunk: nat)
    requires chunk > 0 && Whole(e, chunk) && size % chunk == 0 && (e.addr + lead) % chunk == 0 && lead + size <= e.size
    ensures Whole(Part(e, e.addr, lead), chunk) && Whole(Part(e, e.addr + lead + size, e.size - lead - size), chunk)
  {
    DiffMod(e.addr + lead, e.addr, chunk);
    SumMod(e.addr + lead, size, chunk);
    DiffMod(e.size, lead, chunk);
    DiffMod(e.size - lead, size, chunk);
  }

  lemma NonNegative(c: nat, k: int)
    requires c > 0 && c * k >= 0
    ensures k >= 0
  {
    Multiples(k, c);
  }

  lemma StillClear(nodes: map<nat, Extent>, ad: seq<nat>, nodes': map<nat, Extent>, ad': seq<nat>, id: nat, x: Extent,
      y: Extent)
    requires Clear(nodes, ad, y) && nodes' == nodes[id := x] && (forall j :: j in ad' <==> j in ad || j == id)
    requires id !in ad
    requires x.addr + x.size < y.addr
    ensures Clear(nodes', ad', y)
  { }

  // ------------------------------------------------------------------------------ record

  // While a chunk is recorded, the extent that holds it may touch the one before it.
  ghost predicate Halfway(nodes: map<nat, Extent>, szad: seq<nat>, ad: seq<nat>, chunk: nat, id: nat)
  {
    && chunk > 0 && Trees(nodes, szad, ad) && id in ad
    && (forall j :: j in ad ==> Whole(nodes[j], chunk))
    && (forall i, j :: i in ad && j in ad && j != id ==> !Touches(nodes[i], nodes[j]))
  }

  // The freed chunk overlaps no free extent.
  ghost predicate Taken(nodes: map<nat, Extent>, ad: seq<nat>, x: Extent)
  {
    forall j :: j in ad ==> j in nodes && Apart(nodes[j], x)
  }

  // Growing a node downwards, to start at the chunk before it, leaves its place by address.
  lemma GrowDown(nodes: map<nat, Extent>, szad: seq<nat>, ad: seq<nat>, chunk: nat, id: nat, x: Extent, zeroed: bool)
    requires Ready(nodes, szad, ad, chunk) && id in ad && id in nodes && Taken(nodes, ad, x) && x.size > 0
    requires Whole(x, chunk)
    requires Touches(x, nodes[id])
    ensures var y := Extent(x.addr, nodes[id].size + x.size, zeroed);
            var nodes' := nodes[id := y];
            && (forall i :: 0 <= i < |Drop(szad, id)| ==> Drop(szad, id)[i] in nodes')
            && Halfway(nodes', Put(nodes', Drop(szad, id), id, true), ad, chunk, id)
            && (forall j :: j in ad ==> j in nodes && j in nodes')
            && (forall a :: Free(nodes', ad, a) <==> Free(nodes, ad, a) || Covers(x, a))
  {
    hide Whole, Put, Drop;
    var y := Extent(x.addr, nodes[id].size + x.size, zeroed);
    var nodes' := nodes[id := y];
    AllKnown(nodes, ad, false);
    AllKnown(nodes, szad, true);
    DropOrder(nodes, szad, id, true);
    OrderFrame(nodes, Drop(szad, id), id, y, true);
    AllKnown(nodes', Drop(szad, id), true);
    forall j | j in ad && j != id ensures Apart(nodes[j], y) && nodes[j].addr != y.addr && !Touches(y, nodes[j])
        && (Below(nodes[j], nodes[id], false) <==> Below(nodes[j], y, false))
    {
      assert Apart(nodes[j], nodes[id]) && Apart(nodes[j], x) && !Touches(nodes[id], nodes[j]);
    }
    SameOrder(nodes, nodes', ad, id);
    PutOrder(nodes', Drop(szad, id), id, true);
    assert Whole(y, chunk) by { SumWhole(x, nodes[id], y, chunk); }
    GrownFree(nodes, ad, id, x, y);
  }

  lemma GrownFree(nodes: map<nat, Extent>, ad: seq<nat>, id: nat, x: Extent, y: Extent)
    requires (forall j :: j in ad ==> j in nodes) && id in ad && Touches(x, nodes[id]) && y.addr == x.addr
    requires y.size == x.size + nodes[id].size
    ensures forall a :: Free(nodes[id := y], ad, a) <==> Free(nodes, ad, a) || Covers(x, a)
  {
    var nodes' := nodes[id := y];
    forall a ensures Free(nodes', ad, a) <==> Free(nodes, ad, a) || Covers(x, a)
    {
      if Free(nodes, ad, a) {
        var j :| j in ad && Covers(nodes[j], a);
        assert Covers(nodes'[j], a);
      }
      if Covers(x, a) { assert Covers(nodes'[id], a); }
      if Free(nodes', ad, a) {
        var j :| j in ad && Covers(nodes'[j], a);
        assert j != id ==> Covers(nodes[j], a);
        assert Covers(y, a) ==> Covers(x, a) || Covers(nodes[id], a);
      }
    }
  }

  // A node's place by address stays if it stays on the same side of all others.
  lemma SameOrder(nodes: map<nat, Extent>, nodes': map<nat, Extent>, ad: seq<nat>, id: nat)
    requires InOrder(nodes, ad, false) && id in nodes && id in nodes' && nodes' == nodes[id := nodes'[id]]
    requires forall j :: j in ad && j != id ==>
               j in nodes && nodes[j].addr != nodes'[id].addr
                   && (Below(nodes[j], nodes[id], false) <==> Below(nodes[j], nodes'[id], false))
    ensures InOrder(nodes', ad, false)
  {
    forall i, j | 0 <= i < j < |ad| ensures Below(nodes'[ad[i]], nodes'[ad[j]], false)
    {
      assert Below(nodes[ad[i]], nodes[ad[j]], false);
    }
  }

  lemma SumWhole(x: Extent, z: Extent, y: Extent, chunk: nat)
    requires chunk > 0 && Whole(x, chunk) && Whole(z, chunk) && y.addr == x.addr && y.size == x.size + z.size
    ensures Whole(y, chunk)
  {
    SumMod(x.size, z.size, chunk);
  }

  // A new node for the chunk.
  lemma PutNew(nodes: map<nat, Extent>, szad: seq<nat>, ad: seq<nat>, chunk: nat, id: nat, x: Extent)
    requires Ready(nodes, szad, ad, chunk) && id !in ad && Taken(nodes, ad, x) && x.size > 0 && Whole(x, chunk)
    requires forall j :: j in ad && j in nodes ==> !Touches(x, nodes[j])
    ensures var nodes' := nodes[id := x];
            && (forall i :: 0 <= i < |szad| ==> szad[i] in nodes') && (forall i :: 0 <= i < |ad| ==> ad[i] in nodes')
            && Halfway(nodes', Put(nodes', szad, id, true), Put(nodes', ad, id, false), chunk, id)
            && (forall j :: j in Put(nodes', ad, id, false) ==> j in nodes') && (forall j :: j in ad ==> j in nodes)
            && (forall j :: j in Put(nodes', ad, id, false) <==> j in ad || j == id)
            && (forall a :: Free(nodes', Put(nodes', ad, id, false), a) <==> Covers(x, a) || Free(nodes, ad, a))
  {
    hide InOrder, Whole, Put;
    var nodes' := nodes[id := x];
    OrderFrame(nodes, szad, id, x, true);
    OrderFrame(nodes, ad, id, x, false);
    AllKnown(nodes, szad, true);
    AllKnown(nodes, ad, false);
    forall j | j in ad ensures nodes[j].addr != x.addr
    {
      assert Apart(nodes[j], x);
    }
    PutOrder(nodes', szad, id, true);
    PutOrder(nodes', ad, id, false);
    var ad' := Put(nodes', ad, id, false);
    forall a ensures Free(nodes', ad', a) <==> Covers(x, a) || Free(nodes, ad, a)
    {
      if Covers(x, a) { assert Covers(nodes'[id], a); }
      if Free(nodes, ad, a) {
        var j :| j in ad && Covers(nodes[j], a);
        assert Covers(nodes'[j], a);
      }
    }
  }

  // The extent before it touches: its node goes, and the other grows down over it.
  lemma JoinBack(nodes: map<nat, Extent>, szad: seq<nat>, ad: seq<nat>, chunk: nat, id: nat, prev: nat, zeroed: bool)
    requires Halfway(nodes, szad, ad, chunk, id) && prev in ad && prev in nodes && id in nodes
    requires Touches(nodes[prev], nodes[id])
    ensures var y := Extent(nodes[prev].addr, nodes[id].size + nodes[prev].size, zeroed);
            var nodes', ad', sz := nodes[id := y], Drop(ad, prev), Drop(Drop(szad, prev), id);
            && (forall i :: 0 <= i < |sz| ==> sz[i] in nodes')
            && Ready(nodes', Put(nodes', sz, id, true), ad', chunk)
            && (forall j :: j in ad ==> j in nodes) && (forall j :: j in ad' ==> j in nodes')
            && (forall a :: Free(nodes', ad', a) <==> Free(nodes, ad, a))
  {
    hide Whole, Put, Drop, Ready, Free, Apart;
    var p, e := nodes[prev], nodes[id];
    var y := Extent(p.addr, e.size + p.size, zeroed);
    var nodes' := nodes[id := y];
    AllKnown(nodes, ad, false);
    AllKnown(nodes, szad, true);
    DropOrder(nodes, szad, prev, true);
    DropOrder(nodes, Drop(szad, prev), id, true);
    DropOrder(nodes, ad, prev, false);
    var sz, ad' := Drop(Drop(szad, prev), id), Drop(ad, prev);
    OrderFrame(nodes, sz, id, y, true);
    AllKnown(nodes', sz, true);
    AllKnown(nodes, ad', false);
    forall j | j in ad' && j != id
      ensures nodes[j].addr != y.addr && (Below(nodes[j], e, false) <==> Below(nodes[j], y, false))
    {
      JoinedClear(nodes, szad, ad, chunk, id, prev, y, j);
    }
    SameOrder(nodes, nodes', ad', id);
    PutOrder(nodes', sz, id, true);
    JoinedReady(nodes, szad, ad, chunk, id, prev, y, Put(nodes', sz, id, true), ad');
    JoinedFree(nodes, ad, ad', id, prev, y);
  }

  lemma JoinedReady(nodes: map<nat, Extent>, szad: seq<nat>, ad: seq<nat>, chunk: nat, id: nat, prev: nat, y: Extent,
      szad': seq<nat>, ad': seq<nat>)
    requires Halfway(nodes, szad, ad, chunk, id) && prev in ad && prev in nodes && id in nodes
    requires Touches(nodes[prev], nodes[id])
    requires y.addr == nodes[prev].addr && y.size == nodes[id].size + nodes[prev].size
    requires InOrder(nodes[id := y], szad', true) && InOrder(nodes[id := y], ad', false)
    requires (forall j :: j in ad' <==> j in ad && j != prev) && forall j :: j in szad' <==> j in szad && j != prev
    ensures Ready(nodes[id := y], szad', ad', chunk)
  {
    hide Whole, InOrder;
    AllKnown(nodes, ad, false);
    SumWhole(nodes[prev], nodes[id], y, chunk);
    forall j | j in ad && j != id && j != prev
      ensures Apart(nodes[j], y) && !Touches(y, nodes[j]) && !Touches(nodes[j], y)
    {
      JoinedClear(nodes, szad, ad, chunk, id, prev, y, j);
    }
  }

  lemma JoinedClear(nodes: map<nat, Extent>, szad: seq<nat>, ad: seq<nat>, chunk: nat, id: nat, prev: nat, y: Extent,
      j: nat)
    requires Halfway(nodes, szad, ad, chunk, id) && prev in ad && prev in nodes && id in nodes && j in ad
    requires Touches(nodes[prev], nodes[id]) && j != id && j != prev
    requires y.addr == nodes[prev].addr && y.size == nodes[id].size + nodes[prev].size
    ensures j in nodes && Apart(nodes[j], y) && nodes[j].addr != y.addr
    ensures !Touches(y, nodes[j]) && !Touches(nodes[j], y)
    ensures Below(nodes[j], nodes[id], false) <==> Below(nodes[j], y, false)
  {
    hide Whole;
    var p, e := nodes[prev], nodes[id];
    AllKnown(nodes, ad, false);
    assert Apart(nodes[j], e) && Apart(nodes[j], p) && !Touches(e, nodes[j]) && !Touches(nodes[j], p)
        && !Touches(p, nodes[j]);
  }

  lemma JoinedFree(nodes: map<nat, Extent>, ad: seq<nat>, ad': seq<nat>, id: nat, prev: nat, y: Extent)
    requires (forall j :: j in ad ==> j in nodes) && id in ad && prev in ad && id != prev
    requires Touches(nodes[prev], nodes[id])
    requires y.addr == nodes[prev].addr && y.size == nodes[id].size + nodes[prev].size
    requires forall j :: j in ad' <==> j in ad && j != prev
    ensures forall a :: Free(nodes[id := y], ad', a) <==> Free(nodes, ad, a)
  {
    var p, e, nodes' := nodes[prev], nodes[id], nodes[id := y];
    forall a ensures Free(nodes', ad', a) <==> Free(nodes, ad, a)
    {
      if Free(nodes, ad, a) {
        var j :| j in ad && Covers(nodes[j], a);
        assert Covers(nodes'[if j == prev then id else j], a);
      }
      if Free(nodes', ad', a) {
        var j :| j in ad' && Covers(nodes'[j], a);
        assert j != id ==> Covers(nodes[j], a);
        assert Covers(y, a) ==> Covers(p, a) || Covers(e, a);
      }
    }
  }

  // No extent before it touches.
  lemma NoneBack(nodes: map<nat, Extent>, szad: seq<nat>, ad: seq<nat>, chunk: nat, id: nat)
    requires Halfway(nodes, szad, ad, chunk, id)
    requires forall j :: j in ad && j in nodes && id in nodes ==> !Touches(nodes[j], nodes[id])
    ensures Ready(nodes, szad, ad, chunk)
  {
    AllKnown(nodes, ad, false);
  }

  // The bytes right before and right behind a free extent are not free.
  lemma Maximal(nodes: map<nat, Extent>, szad: seq<nat>, ad: seq<nat>, chunk: nat, id: nat)
    requires Ready(nodes, szad, ad, chunk) && id in ad
    ensures id in nodes && nodes[id].size > 0 && forall j :: j in ad ==> j in nodes
    ensures !Free(nodes, ad, nodes[id].addr - 1) && !Free(nodes, ad, nodes[id].addr + nodes[id].size)
  {
    hide Whole;
    AllKnown(nodes, ad, false);
    forall j | j in ad ensures !Covers(nodes[j], nodes[id].addr - 1)
        && !Covers(nodes[j], nodes[id].addr + nodes[id].size)
    {
      assert j != id ==> Apart(nodes[id], nodes[j]) && !Touches(nodes[id], nodes[j]) && !Touches(nodes[j], nodes[id]);
    }
  }

  // So one stretch of free bytes is one extent.
  lemma OneStretch(nodes: map<nat, Extent>, szad: seq<nat>, ad: seq<nat>, chunk: nat, from: nat, to: nat)
    requires Ready(nodes, szad, ad, chunk) && from < to && forall id :: id in ad ==> id in nodes
    requires forall a :: Free(nodes, ad, a) <==> Within(from, a, to)
    ensures forall x :: FreeExtent(nodes, ad, x) ==> x.addr == from && x.size == to - from
    ensures exists x :: FreeExtent(nodes, ad, x)
  {
    hide Whole, Ready;
    forall id | id in ad ensures nodes[id].addr == from && nodes[id].size == to - from
    {
      Maximal(nodes, szad, ad, chunk, id);
      assert Covers(nodes[id], nodes[id].addr) && Covers(nodes[id], nodes[id].addr + nodes[id].size - 1);
      assert Free(nodes, ad, nodes[id].addr) && Free(nodes, ad, nodes[id].addr + nodes[id].size - 1);
    }
    assert Within(from, from, to);
    var id :| id in ad && Covers(nodes[id], from);
    assert FreeExtent(nodes, ad, nodes[id]);
  }

  const MIB := 0x10_0000

  // Sixteen free megabytes that start at an odd multiple of four: taking eight of them, aligned
  // to eight, fails without a second node. Four are lost, or all but the first four if the
  // result is not recorded again.
  method LoseSpace(recorded: bool) returns (p: Pool)
    ensures p.Valid() && p.FreeBytes() == Bytes(4 * MIB, if recorded then 16 * MIB else 8 * MIB)
  {
    hide Ready, Whole, Trees, NoneTouch, Free, Bytes, AllZero, Marks, Rezeroed, Fresh;
    p := new Pool(4 * MIB);
    NoBytes(p.FreeBytes(), 4 * MIB, 20 * MIB);
    var leaked := p.Record(4 * MIB, 16 * MIB, true, Some(0));
    ghost var x := StretchOf(p, 4 * MIB, 20 * MIB, 12 * MIB);
    LostPart(4 * MIB, 8 * MIB, 20 * MIB);
    LostPart(4 * MIB, 16 * MIB, 20 * MIB);
    var back := Recorded(if recorded then Some(1) else None, true);
    var ret, zeroed := p.Recycle(8 * MIB, 8 * MIB, false, None, back);
  }

  lemma StretchOf(p: Pool, from: nat, to: nat, need: nat) returns (x: Extent)
    requires p.Valid() && from < to && p.FreeBytes() == Bytes(from, to) && need <= to - from
    ensures x.addr == from && x.size == to - from && BestOf(p.nodes, p.ad, need, x)
  {
    hide Ready, Whole, Free;
    AllKnownReady(p.nodes, p.szad, p.ad, p.chunk);
    forall a ensures Free(p.nodes, p.ad, a) <==> Within(from, a, to)
    {
      assert a in p.FreeBytes() <==> a in Bytes(from, to);
    }
    OneStretch(p.nodes, p.szad, p.ad, p.chunk, from, to);
    x :| FreeExtent(p.nodes, p.ad, x);
  }

  lemma AllKnownReady(nodes: map<nat, Extent>, szad: seq<nat>, ad: seq<nat>, chunk: nat)
    requires Ready(nodes, szad, ad, chunk)
    ensures forall id :: id in ad ==> id in nodes
  {
    AllKnown(nodes, ad, false);
  }

  lemma LostPart(from: int, r: int, to: int)
    requires from <= r <= to
    ensures Bytes(from, to) - Bytes(r, to) == Bytes(from, r)
  { }

  lemma NoBytes(free: iset<int>, from: int, to: int)
    ensures free == iset{} ==> free * Bytes(from, to) == iset{}
  { }
}
