// The page map of an arena chunk: runs of pages that tile the chunk, each described by its
// first and last map entries. Sizes are counted in pages.
module RunMap {
  import opened Basics

  datatype Entry = Entry(inUse: bool, large: bool, unzeroed: bool, dirty: bool, binind: nat, size: nat)

  const BININD_INVALID: nat := 0xff
  const PAGE: nat := 0x1000

  function One(b: bool): nat { if b then 1 else 0 }

  // The word that holds an entry.
  function Word(e: Entry): nat
  {
    e.size * PAGE + e.binind * 16 + One(e.dirty) * 8 + One(e.unzeroed) * 4 + One(e.large) * 2 + One(e.inUse)
  }

  // The masks and shifts of the accessors, on words.
  function SizeBits(w: nat): nat { w / PAGE }
  function BinindBits(w: nat): nat { w / 16 % 0x100 }
  function DirtyBit(w: nat): bool { w / 8 % 2 == 1 }
  function UnzeroedBit(w: nat): bool { w / 4 % 2 == 1 }
  function LargeBit(w: nat): bool { w / 2 % 2 == 1 }
  function AllocatedBit(w: nat): bool { w % 2 == 1 }

  // Each accessor reads its own part of the word, so no setter disturbs another part.
  lemma WordParts(e: Entry)
    requires e.binind <= BININD_INVALID
    ensures var w := Word(e);
            Entry(AllocatedBit(w), LargeBit(w), UnzeroedBit(w), DirtyBit(w), BinindBits(w), SizeBits(w)) == e
  {
    hide Word;
    WordNumbers(e);
    WordFlags(e);
  }

  lemma WordNumbers(e: Entry)
    requires e.binind <= BININD_INVALID
    ensures SizeBits(Word(e)) == e.size && BinindBits(Word(e)) == e.binind
  {
    var flags := One(e.dirty) * 8 + One(e.unzeroed) * 4 + One(e.large) * 2 + One(e.inUse);
    var high := e.size * 0x100 + e.binind;
    Quotient(Word(e), PAGE, e.size, e.binind * 16 + flags);
    Quotient(Word(e), 16, high, flags);
    Quotient(high, 0x100, e.size, e.binind);
  }

  lemma WordFlags(e: Entry)
    ensures DirtyBit(Word(e)) == e.dirty && UnzeroedBit(Word(e)) == e.unzeroed
    ensures LargeBit(Word(e)) == e.large && AllocatedBit(Word(e)) == e.inUse
  {
    var w, d, u, l, a := Word(e), One(e.dirty), One(e.unzeroed), One(e.large), One(e.inUse);
    var high := e.size * 0x100 + e.binind;
    BitAt(w, 8, high, e.dirty, u * 4 + l * 2 + a);
    BitAt(w, 4, high * 2 + d, e.unzeroed, l * 2 + a);
    BitAt(w, 2, high * 4 + d * 2 + u, e.large, a);
    BitAt(w, 1, high * 8 + d * 4 + u * 2 + l, e.inUse, 0);
  }

  lemma BitAt(w: nat, n: nat, q: nat, bit: bool, r: nat)
    requires w == (q * 2 + One(bit)) * n + r && r < n
    ensures w / n % 2 == 1 <==> bit
  {
    Quotient(w, n, q * 2 + One(bit), r);
  }

  lemma Quotient(w: nat, n: nat, q: nat, r: nat)
    requires w == q * n + r && r < n
    ensures w / n == q && w % n == r
  {
    if w / n < q { Multiples(w / n + 1, q, n); } else if w / n > q { Multiples(q + 1, w / n, n); }
  }

  lemma Multiples(a: nat, b: nat, n: nat)
    requires a <= b
    ensures a * n <= b * n
  { }

  // arena_mapbits_unallocated_set
  function UnallocatedSet(size: nat, dirty: bool, unzeroed: bool): Entry
  {
    Entry(false, false, unzeroed, dirty, BININD_INVALID, size)
  }

  // arena_mapbits_large_set
  function LargeSet(e: Entry, size: nat, dirty: bool): Entry
  {
    Entry(true, true, e.unzeroed, dirty, BININD_INVALID, size)
  }

  // arena_mapbits_small_set
  function SmallSet(e: Entry, runind: nat, binind: nat, dirty: bool): Entry
  {
    Entry(true, false, e.unzeroed, dirty, binind, runind)
  }

  // ------------------------------------------------------- what the setters do to the words

  function Or(a: nat, b: nat): nat
  {
    if a == 0 && b == 0 then 0 else One(a % 2 == 1 || b % 2 == 1) + 2 * Or(a / 2, b / 2)
  }

  function And(a: nat, b: nat): nat
  {
    if a == 0 || b == 0 then 0 else One(a % 2 == 1 && b % 2 == 1) + 2 * And(a / 2, b / 2)
  }

  const PAGE_MASK: nat := 0xfff
  const DIRTY: nat := 8
  const UNZEROED: nat := 4
  const LARGE: nat := 2
  const ALLOCATED: nat := 1
  const INVALID_BITS: nat := 0xff0

  // The masks and ors of the setters, on words; size counts pages here too.
  function UnallocatedSetWord(size: nat, flags: nat): nat { Or(Or(size * PAGE, INVALID_BITS), flags) }

  function UnallocatedSizeSetWord(w: nat, size: nat): nat { Or(size * PAGE, And(w, PAGE_MASK)) }

  function LargeSetWord(w: nat, size: nat, flags: nat): nat
  {
    Or(Or(Or(Or(Or(size * PAGE, INVALID_BITS), flags), And(w, UNZEROED)), LARGE), ALLOCATED)
  }

  function SmallSetWord(w: nat, runind: nat, binind: nat, flags: nat): nat
  {
    Or(Or(Or(Or(runind * PAGE, binind * 16), flags), And(w, UNZEROED)), ALLOCATED)
  }

  // Or of parts that lie apart is their sum.
  lemma {:induction false} OrApart(n: nat, a: nat, b: nat)
    requires b < Power(n)
    ensures Or(a * Power(n), b) == a * Power(n) + b
    decreases n, a
  {
    if n == 0 {
      if a > 0 {
        OrApart(0, a / 2, 0);
      }
    } else {
      var p := Power(n - 1);
      assert a * Power(n) == 2 * (a * p);
      OrApart(n - 1, a, b / 2);
    }
  }

  lemma AndOdd(w: nat, b: nat)
    ensures And(w, 2 * b + 1) == w % 2 + 2 * And(w / 2, b)
  {
    if w == 0 { assert And(0, b) == 0; }
  }

  // And with the low bits, and with one bit.
  lemma {:induction false} AndLow(n: nat, w: nat)
    ensures And(w, Power(n) - 1) == w % Power(n)
  {
    hide And;
    if n == 0 {
      AndNone(w);
    } else {
      AndLow(n - 1, w / 2);
      AndOdd(w, Power(n - 1) - 1);
      HalfRemainder(w, Power(n - 1));
    }
  }

  lemma HalfRemainder(w: nat, p: nat)
    requires p > 0
    ensures w % (2 * p) == w % 2 + 2 * (w / 2 % p)
  {
    Quotient(w, 2 * p, w / 2 / p, w % 2 + 2 * (w / 2 % p));
  }

  lemma {:induction false} AndBit(n: nat, w: nat)
    ensures And(w, Power(n)) == One(w / Power(n) % 2 == 1) * Power(n)
  {
    if n > 0 {
      AndBit(n - 1, w / 2);
      HalfQuotient(w, Power(n - 1));
    } else {
      AndNone(w / 2);
    }
  }

  lemma AndNone(w: nat)
    ensures And(w, 0) == 0
  { }

  lemma HalfQuotient(w: nat, p: nat)
    requires p > 0
    ensures w / (2 * p) == w / 2 / p
  {
    Quotient(w, 2 * p, w / 2 / p, w % 2 + 2 * (w / 2 % p));
  }

  lemma Powers()
    ensures Power(0) == 1 && Power(1) == 2 && Power(2) == 4 && Power(3) == 8 && Power(4) == 16 && Power(12) == 0x1000
  {
    assert Power(4) == 2 * Power(3) && Power(6) == 4 * Power(4) && Power(8) == 4 * Power(6)
        && Power(10) == 4 * Power(8);
  }

  // Size, size class and flags in one word.
  lemma HighParts(size: nat, binind: nat, flags: nat)
    requires binind <= BININD_INVALID && flags < 16
    ensures Or(Or(size * PAGE, binind * 16), flags) == (size * 0x100 + binind) * 16 + flags
  {
    hide Or, Power;
    Powers();
    OrApart(12, size, binind * 16);
    OrApart(4, size * 0x100 + binind, flags);
  }

  lemma UnallocatedWord(size: nat, dirty: bool, unzeroed: bool)
    ensures UnallocatedSetWord(size, One(dirty) * DIRTY + One(unzeroed) * UNZEROED) ==
            Word(UnallocatedSet(size, dirty, unzeroed))
  {
    hide Or;
    HighParts(size, BININD_INVALID, One(dirty) * DIRTY + One(unzeroed) * UNZEROED);
  }

  lemma UnallocatedSizeWord(e: Entry, size: nat)
    requires e.binind <= BININD_INVALID
    ensures UnallocatedSizeSetWord(Word(e), size) == Word(e.(size := size))
  {
    hide Or, And, Power;
    Powers();
    var low := e.binind * 16 + One(e.dirty) * 8 + One(e.unzeroed) * 4 + One(e.large) * 2 + One(e.inUse);
    AndLow(12, Word(e));
    Quotient(Word(e), PAGE, e.size, low);
    OrApart(12, size, low);
  }

  lemma UnzeroedPart(e: Entry)
    ensures And(Word(e), UNZEROED) == One(e.unzeroed) * UNZEROED
  {
    hide And, Word, Power;
    Powers();
    AndBit(2, Word(e));
    WordFlags(e);
  }

  // The unzeroed bit stays; the rest is written.
  lemma LargeWord(e: Entry, size: nat, dirty: bool)
    ensures LargeSetWord(Word(e), size, One(dirty) * DIRTY) == Word(LargeSet(e, size, dirty))
  {
    hide Or, And, Power;
    Powers();
    UnzeroedPart(e);
    var d, u, high := One(dirty), One(e.unzeroed), size * 0x100 + BININD_INVALID;
    HighParts(size, BININD_INVALID, d * DIRTY);
    OrApart(3, high * 2 + d, u * UNZEROED);
    OrApart(2, high * 4 + d * 2 + u, LARGE);
    OrApart(1, high * 8 + d * 4 + u * 2 + 1, ALLOCATED);
  }

  lemma SmallWord(e: Entry, runind: nat, binind: nat, dirty: bool)
    requires binind <= BININD_INVALID
    ensures SmallSetWord(Word(e), runind, binind, One(dirty) * DIRTY) == Word(SmallSet(e, runind, binind, dirty))
  {
    hide Or, And, Power;
    Powers();
    UnzeroedPart(e);
    var d, u, high := One(dirty), One(e.unzeroed), runind * 0x100 + binind;
    HighParts(runind, binind, d * DIRTY);
    OrApart(3, high * 2 + d, u * UNZEROED);
    OrApart(2, high * 4 + d * 2 + u, ALLOCATED);
  }

  // Free runs are in the tree of available runs. A loose run is marked unallocated but not
  // in the tree; a taken run is in use but not marked yet.
  datatype Kind = Free | Loose | Taken | Large | Small(binind: nat)

  datatype Run = Run(start: nat, pages: nat, kind: Kind, dirty: bool)

  function End(r: Run): nat { r.start + r.pages }

  predicate Meet(a: Run, b: Run) { End(a) == b.start }

  predicate Apart(a: Run, b: Run) { a.kind.Free? && b.kind.Free? ==> a.dirty != b.dirty }

  predicate BothFree(a: Run, b: Run) { a.kind.Free? && b.kind.Free? }

  predicate Owned(r: Run) { r.kind.Large? || r.kind.Small? }

  predicate Settled(r: Run) { Owned(r) || r.kind.Free? }

  ghost predicate Tiles(rs: seq<Run>, lo: nat, hi: nat)
  {
    && rs != [] && rs[0].start == lo && End(rs[|rs| - 1]) == hi
    && (forall i :: 0 <= i < |rs| ==> rs[i].pages > 0)
    && (forall i, j :: 0 <= i && j == i + 1 && j < |rs| ==> Meet(rs[i], rs[j]))
  }

  lemma {:induction false} TilesAfter(rs: seq<Run>, lo: nat, hi: nat, i: int, j: int)
    requires Tiles(rs, lo, hi) && 0 <= i < j < |rs|
    ensures End(rs[i]) <= rs[j].start
    decreases j - i
  {
    assert Meet(rs[i], rs[i + 1]);
    if i + 1 < j { TilesAfter(rs, lo, hi, i + 1, j); }
  }

  lemma TilesWithin(rs: seq<Run>, lo: nat, hi: nat, i: int)
    requires Tiles(rs, lo, hi) && 0 <= i < |rs|
    ensures lo <= rs[i].start < End(rs[i]) <= hi
  {
    if i > 0 { TilesAfter(rs, lo, hi, 0, i); }
    if i < |rs| - 1 { TilesAfter(rs, lo, hi, i, |rs| - 1); }
  }

  // Runs k up to m of a tiling replaced by others.
  function Splice(rs: seq<Run>, k: int, m: int, mid: seq<Run>): seq<Run>
    requires 0 <= k <= m <= |rs|
  {
    rs[..k] + mid + rs[m..]
  }

  lemma TilesSplice(rs: seq<Run>, lo: nat, hi: nat, k: int, m: int, mid: seq<Run>)
    requires Tiles(rs, lo, hi) && 0 <= k < m <= |rs| && Tiles(mid, rs[k].start, End(rs[m - 1]))
    ensures Tiles(Splice(rs, k, m, mid), lo, hi)
  {
    var t := Splice(rs, k, m, mid);
    forall i, j | 0 <= i && j == i + 1 && j < |t| ensures Meet(t[i], t[j])
    {
      if j < k {
        assert Meet(rs[i], rs[j]);
      } else if j == k {
        assert Meet(rs[i], rs[k]);
      } else if j < k + |mid| {
        assert Meet(mid[i - k], mid[j - k]);
      } else {
        var j0 := j - |mid| - k + m;
        assert t[j] == rs[j0];
        assert Meet(rs[j0 - 1], rs[j0]);
      }
    }
  }

  predicate UnusedMark(e: Entry, r: Run) { !e.inUse && !e.large && e.size == r.pages && e.dirty == r.dirty }

  // The entries of a run say what it is.
  ghost predicate Marked(bits: seq<Entry>, r: Run)
  {
    && r.pages > 0 && End(r) <= |bits|
    && var a, z := bits[r.start], bits[End(r) - 1];
       && (r.kind.Free? || r.kind.Loose? ==> UnusedMark(a, r) && UnusedMark(z, r))
       && (Owned(r) ==> a.dirty == r.dirty && z.dirty == r.dirty)
       && (r.kind.Large? ==>
            a.inUse && a.large && a.size == r.pages && z.inUse && z.large && (r.pages > 1 ==> z.size == 0))
       && (r.kind.Small? ==> forall p :: r.start <= p < End(r) ==> SmallMark(bits[p], p - r.start, r.kind.binind))
  }

  predicate SmallMark(e: Entry, runind: int, binind: nat)
  {
    e.inUse && !e.large && e.size == runind && e.binind == binind
  }

  ghost predicate Marks(bits: seq<Entry>, rs: seq<Run>) { forall i :: 0 <= i < |rs| ==> Marked(bits, rs[i]) }

  lemma MarkedFrame(bits: seq<Entry>, bits': seq<Entry>, r: Run)
    requires Marked(bits, r) && |bits'| == |bits| && forall p :: r.start <= p < End(r) ==> bits'[p] == bits[p]
    ensures Marked(bits', r)
  { }

  // bits' differs from bits between lo and hi only.
  ghost predicate Outside(bits: seq<Entry>, bits': seq<Entry>, lo: int, hi: int)
  {
    |bits'| == |bits| && forall p :: 0 <= p < |bits| && (p < lo || hi <= p) ==> bits'[p] == bits[p]
  }

  lemma MarksSplice(bits: seq<Entry>, bits': seq<Entry>, rs: seq<Run>, lo: nat, hi: nat, k: int, m: int, mid: seq<Run>)
    requires Tiles(rs, lo, hi) && Marks(bits, rs) && 0 <= k < m <= |rs|
    requires Outside(bits, bits', rs[k].start, End(rs[m - 1])) && Marks(bits', mid)
    ensures Marks(bits', Splice(rs, k, m, mid))
  {
    hide Marked, Tiles;
    forall i | 0 <= i < k ensures Marked(bits', rs[i])
    {
      TilesAfter(rs, lo, hi, i, k);
      MarkedFits(bits, rs[i]);
      MarkedFrame(bits, bits', rs[i]);
    }
    forall i | m <= i < |rs| ensures Marked(bits', rs[i])
    {
      TilesAfter(rs, lo, hi, m - 1, i);
      MarkedFits(bits, rs[i]);
      MarkedFrame(bits, bits', rs[i]);
    }
    MarksJoin(bits', rs[..k], mid, rs[m..]);
  }

  lemma MarkedFits(bits: seq<Entry>, r: Run)
    requires Marked(bits, r)
    ensures r.pages > 0 && End(r) <= |bits|
  { }

  lemma MarksJoin(bits: seq<Entry>, a: seq<Run>, b: seq<Run>, c: seq<Run>)
    requires Marks(bits, a) && Marks(bits, b) && Marks(bits, c)
    ensures Marks(bits, a + b + c)
  {
    hide Marked;
  }

  // No two neighbouring free runs have the same dirty flag.
  ghost predicate Alternates(rs: seq<Run>) { forall i, j :: 0 <= i && j == i + 1 && j < |rs| ==> Apart(rs[i], rs[j]) }

  lemma AlternatesSplice(rs: seq<Run>, k: int, m: int, mid: seq<Run>)
    requires Alternates(rs) && Alternates(mid) && 0 <= k < m <= |rs| && mid != []
    requires k > 0 ==> Apart(rs[k - 1], mid[0])
    requires m < |rs| ==> Apart(mid[|mid| - 1], rs[m])
    ensures Alternates(Splice(rs, k, m, mid))
  {
    hide Apart;
    var t := Splice(rs, k, m, mid);
    forall i, j | 0 <= i && j == i + 1 && j < |t| ensures Apart(t[i], t[j])
    {
      if j < k {
        assert Apart(rs[i], rs[j]);
      } else if k < j < k + |mid| {
        assert Apart(mid[i - k], mid[j - k]);
      } else if j > k + |mid| {
        var j0 := j - |mid| - k + m;
        assert t[j] == rs[j0] && t[i] == rs[j0 - 1];
        assert Apart(rs[j0 - 1], rs[j0]);
      }
    }
  }

  // What the counters count.
  function FreeRuns(rs: seq<Run>): nat { if rs == [] then 0 else One(rs[0].kind.Free?) + FreeRuns(rs[1..]) }

  function Adjacent(rs: seq<Run>): nat { if |rs| < 2 then 0 else One(BothFree(rs[0], rs[1])) + Adjacent(rs[1..]) }

  function DirtyPages(rs: seq<Run>): nat
  {
    if rs == [] then 0 else (if rs[0].kind.Free? && rs[0].dirty then rs[0].pages else 0) + DirtyPages(rs[1..])
  }

  function ActivePages(rs: seq<Run>): nat
  {
    if rs == [] then 0 else (if Owned(rs[0]) || rs[0].kind.Taken? then rs[0].pages else 0) + ActivePages(rs[1..])
  }

  lemma {:induction false} CountsJoin(a: seq<Run>, b: seq<Run>)
    ensures FreeRuns(a + b) == FreeRuns(a) + FreeRuns(b)
    ensures DirtyPages(a + b) == DirtyPages(a) + DirtyPages(b)
    ensures ActivePages(a + b) == ActivePages(a) + ActivePages(b)
  {
    if a == [] {
      assert a + b == b;
    } else {
      assert (a + b)[1..] == a[1..] + b;
      CountsJoin(a[1..], b);
    }
  }

  predicate EdgeFree(a: seq<Run>, b: seq<Run>) { a != [] && b != [] && BothFree(a[|a| - 1], b[0]) }

  lemma {:induction false} AdjacentJoin(a: seq<Run>, b: seq<Run>)
    ensures Adjacent(a + b) == Adjacent(a) + Adjacent(b) + One(EdgeFree(a, b))
  {
    if a == [] {
      assert a + b == b;
    } else {
      assert (a + b)[1..] == a[1..] + b;
      AdjacentJoin(a[1..], b);
    }
  }

  lemma CountsSplice(rs: seq<Run>, k: int, m: int, mid: seq<Run>)
    requires 0 <= k <= m <= |rs|
    ensures FreeRuns(Splice(rs, k, m, mid)) == FreeRuns(rs) - FreeRuns(rs[k..m]) + FreeRuns(mid)
    ensures DirtyPages(Splice(rs, k, m, mid)) == DirtyPages(rs) - DirtyPages(rs[k..m]) + DirtyPages(mid)
    ensures ActivePages(Splice(rs, k, m, mid)) == ActivePages(rs) - ActivePages(rs[k..m]) + ActivePages(mid)
  {
    hide FreeRuns, DirtyPages, ActivePages;
    var a, b, c := rs[..k], rs[k..m], rs[m..];
    CountsJoin(a, mid);
    CountsJoin(a + mid, c);
    CountsJoin(a, b);
    CountsJoin(a + b, c);
    assert a + b + c == rs;
  }

  lemma AdjacentSplice(rs: seq<Run>, k: int, m: int, mid: seq<Run>)
    requires 0 <= k < m <= |rs| && mid != []
    ensures var a, b, c := rs[..k], rs[k..m], rs[m..];
            Adjacent(Splice(rs, k, m, mid)) + Adjacent(b) + One(EdgeFree(a, b)) + One(EdgeFree(b, c))
            == Adjacent(rs) + Adjacent(mid) + One(EdgeFree(a, mid)) + One(EdgeFree(mid, c))
  {
    hide Adjacent, BothFree;
    var a, b, c := rs[..k], rs[k..m], rs[m..];
    AdjacentJoin(a, mid);
    AdjacentJoin(a + mid, c);
    AdjacentJoin(a, b);
    AdjacentJoin(a + b, c);
    assert a + b + c == rs;
    assert (a + mid)[|a + mid| - 1] == mid[|mid| - 1] && (a + b)[|a + b| - 1] == b[|b| - 1];
  }

  // There are fewer adjacencies than free runs.
  lemma {:induction false} FewerAdjacent(rs: seq<Run>)
    ensures Adjacent(rs) < FreeRuns(rs) || Adjacent(rs) == FreeRuns(rs) == 0
    ensures rs != [] && !rs[0].kind.Free? && FreeRuns(rs) > 0 ==> Adjacent(rs) < FreeRuns(rs)
  {
    if |rs| >= 2 {
      FewerAdjacent(rs[1..]);
      assert rs[1..][0] == rs[1];
      if rs[1].kind.Free? { assert FreeRuns(rs[1..]) > 0; }
    } else if |rs| == 1 {
      assert rs[1..] == [];
    }
  }

  ghost predicate NoFree(rs: seq<Run>) { forall i :: 0 <= i < |rs| ==> !rs[i].kind.Free? }

  lemma {:induction false} NoFreeCounts(rs: seq<Run>)
    requires NoFree(rs)
    ensures FreeRuns(rs) == DirtyPages(rs) == Adjacent(rs) == 0
  {
    if rs != [] { NoFreeCounts(rs[1..]); }
  }

  datatype Chunk = Chunk(addr: nat, mapped: bool, bits: seq<Entry>, ndirty: int, nrunsAvail: int, nrunsAdjac: int)

  ghost predicate SizesFit(rs: seq<Run>, runPages: nat -> nat)
  {
    forall i :: 0 <= i < |rs| && rs[i].kind.Small? ==> rs[i].pages == runPages(rs[i].kind.binind)
  }

  // The map and the counters of a chunk tell its runs.
  ghost predicate Sound(ch: Chunk, rs: seq<Run>, lo: nat, hi: nat, runPages: nat -> nat)
  {
    && |ch.bits| == hi && Tiles(rs, lo, hi) && Marks(ch.bits, rs) && Alternates(rs) && SizesFit(rs, runPages)
    && ch.ndirty == DirtyPages(rs) && ch.nrunsAvail == FreeRuns(rs) && ch.nrunsAdjac == Adjacent(rs)
  }

  // Runs that are not free may be cut and joined without touching the counters.
  lemma SoundRetile(ch: Chunk, rs: seq<Run>, lo: nat, hi: nat, runPages: nat -> nat, bits': seq<Entry>, k: int, m: int,
      mid: seq<Run>)
    requires Sound(ch, rs, lo, hi, runPages) && 0 <= k < m <= |rs| && NoFree(rs[k..m]) && NoFree(mid)
    requires Tiles(mid, rs[k].start, End(rs[m - 1])) && Marks(bits', mid) && SizesFit(mid, runPages)
    requires Outside(ch.bits, bits', rs[k].start, End(rs[m - 1]))
    ensures Sound(ch.(bits := bits'), Splice(rs, k, m, mid), lo, hi, runPages)
    ensures ActivePages(Splice(rs, k, m, mid)) == ActivePages(rs) - ActivePages(rs[k..m]) + ActivePages(mid)
  {
    hide Tiles, Marked, Marks, FreeRuns, DirtyPages, ActivePages, Adjacent, Alternates;
    TilesSome(mid, rs[k].start, End(rs[m - 1]));
    TilesSplice(rs, lo, hi, k, m, mid);
    MarksSplice(ch.bits, bits', rs, lo, hi, k, m, mid);
    CountsSplice(rs, k, m, mid);
    AdjacentSplice(rs, k, m, mid);
    NoFreeCounts(rs[k..m]);
    NoFreeCounts(mid);
    NoFreeEdges(rs, k, m, mid);
    NoFreeAlternates(mid);
    AlternatesSplice(rs, k, m, mid);
    SizesSplice(rs, runPages, k, m, mid);
  }

  lemma TilesSome(rs: seq<Run>, lo: nat, hi: nat)
    requires Tiles(rs, lo, hi)
    ensures rs != []
  { }

  lemma NoFreeAlternates(rs: seq<Run>)
    requires NoFree(rs)
    ensures Alternates(rs)
  { }

  lemma NoFreeEdges(rs: seq<Run>, k: int, m: int, mid: seq<Run>)
    requires 0 <= k < m <= |rs| && NoFree(rs[k..m]) && NoFree(mid)
    ensures !EdgeFree(rs[..k], rs[k..m]) && !EdgeFree(rs[k..m], rs[m..])
    ensures !EdgeFree(rs[..k], mid) && !EdgeFree(mid, rs[m..])
  {
    assert rs[k..m][0] == rs[k] && rs[k..m][m - k - 1] == rs[m - 1];
  }

  lemma SizesSplice(rs: seq<Run>, runPages: nat -> nat, k: int, m: int, mid: seq<Run>)
    requires SizesFit(rs, runPages) && SizesFit(mid, runPages) && 0 <= k <= m <= |rs|
    ensures SizesFit(Splice(rs, k, m, mid), runPages)
  { }

  function SetKind(rs: seq<Run>, k: int, kind: Kind): seq<Run>
    requires 0 <= k < |rs|
  {
    rs[k := rs[k].(kind := kind)]
  }

  // arena_avail_adjac_pred
  predicate AdjacPred(bits: seq<Entry>, pageind: nat, mapBias: nat)
    requires 1 <= mapBias <= pageind <= |bits|
  {
    !(pageind - 1 < mapBias) && !bits[pageind - 1].inUse
  }

  // arena_avail_adjac_succ
  predicate AdjacSucc(bits: seq<Entry>, pageind: nat, npages: nat)
    requires pageind + npages <= |bits|
  {
    pageind + npages != |bits| && !bits[pageind + npages].inUse
  }

  // The neighbours of run k may be consulted, or need not be.
  ghost predicate Askable(rs: seq<Run>, k: int, pred: bool, succ: bool)
  {
    && 0 <= k < |rs|
    && (k > 0 ==> if pred then Settled(rs[k - 1]) else !rs[k - 1].kind.Free?)
    && (k + 1 < |rs| ==> if succ then Settled(rs[k + 1]) else !rs[k + 1].kind.Free?)
  }

  // Asking the map of the page before a run tells whether a free run lies there.
  lemma PredFree(bits: seq<Entry>, rs: seq<Run>, lo: nat, hi: nat, k: int)
    requires Tiles(rs, lo, hi) && Marks(bits, rs) && |bits| == hi && lo >= 1 && 0 <= k < |rs|
    requires k > 0 ==> Settled(rs[k - 1])
    ensures lo <= rs[k].start <= |bits|
    ensures AdjacPred(bits, rs[k].start, lo) <==> k > 0 && rs[k - 1].kind.Free?
  {
    TilesWithin(rs, lo, hi, k);
    if k > 0 {
      assert Meet(rs[k - 1], rs[k]);
      TilesWithin(rs, lo, hi, k - 1);
      assert Marked(bits, rs[k - 1]);
      if rs[k - 1].kind.Small? {
        assert SmallMark(bits[End(rs[k - 1]) - 1], rs[k - 1].pages - 1, rs[k - 1].kind.binind);
      }
    }
  }

  lemma SuccFree(bits: seq<Entry>, rs: seq<Run>, lo: nat, hi: nat, k: int)
    requires Tiles(rs, lo, hi) && Marks(bits, rs) && |bits| == hi && 0 <= k < |rs|
    requires k + 1 < |rs| ==> Settled(rs[k + 1])
    ensures End(rs[k]) <= |bits|
    ensures AdjacSucc(bits, rs[k].start, rs[k].pages) <==> k + 1 < |rs| && rs[k + 1].kind.Free?
  {
    TilesWithin(rs, lo, hi, k);
    if k + 1 < |rs| {
      assert Meet(rs[k], rs[k + 1]);
      TilesWithin(rs, lo, hi, k + 1);
      assert Marked(bits, rs[k + 1]);
      if rs[k + 1].kind.Small? { assert SmallMark(bits[rs[k + 1].start], 0, rs[k + 1].kind.binind); }
    }
  }

  // The adjacencies that a run makes when it is free.
  function Joints(bits: seq<Entry>, pageind: nat, npages: nat, pred: bool, succ: bool, mapBias: nat): nat
    requires 1 <= mapBias <= pageind && pageind + npages <= |bits|
  {
    One(pred && AdjacPred(bits, pageind, mapBias)) + One(succ && AdjacSucc(bits, pageind, npages))
  }

  lemma JointsCount(bits: seq<Entry>, rs: seq<Run>, lo: nat, hi: nat, k: int, pred: bool, succ: bool)
    requires Tiles(rs, lo, hi) && Marks(bits, rs) && |bits| == hi && lo >= 1 && Askable(rs, k, pred, succ)
    ensures lo <= rs[k].start && End(rs[k]) <= hi
    ensures Joints(bits, rs[k].start, rs[k].pages, pred, succ, lo)
            == One(k > 0 && rs[k - 1].kind.Free?) + One(k + 1 < |rs| && rs[k + 1].kind.Free?)
  {
    hide Marks, Tiles;
    TilesWithin(rs, lo, hi, k);
    if pred { PredFree(bits, rs, lo, hi, k); }
    if succ { SuccFree(bits, rs, lo, hi, k); }
  }

  // A run entering or leaving the tree, between its neighbours.
  lemma KindCounts(rs: seq<Run>, k: int, kind: Kind)
    requires 0 <= k < |rs| && !kind.Free? && rs[k].kind.Free?
    ensures var t, j := SetKind(rs, k, kind),
              One(k > 0 && rs[k - 1].kind.Free?) + One(k + 1 < |rs| && rs[k + 1].kind.Free?);
            FreeRuns(rs) == FreeRuns(t) + 1 && Adjacent(rs) == Adjacent(t) + j
            && DirtyPages(rs) == DirtyPages(t) + (if rs[k].dirty then rs[k].pages else 0)
            && ActivePages(t) == ActivePages(rs) + (if kind.Loose? then 0 else rs[k].pages)
  {
    var a, b, c := rs[..k], [rs[k]], rs[k + 1..];
    var b' := [rs[k].(kind := kind)];
    assert rs[k..k + 1] == b;
    assert SetKind(rs, k, kind) == Splice(rs, k, k + 1, b');
    CountsSplice(rs, k, k + 1, b');
    AdjacentSplice(rs, k, k + 1, b');
    assert b[1..] == [] == b'[1..];
  }

  lemma SetKindTiles(rs: seq<Run>, lo: nat, hi: nat, k: int, kind: Kind)
    requires Tiles(rs, lo, hi) && 0 <= k < |rs|
    ensures Tiles(SetKind(rs, k, kind), lo, hi)
  {
    var t := SetKind(rs, k, kind);
    forall i, j | 0 <= i && j == i + 1 && j < |t| ensures Meet(t[i], t[j]) { assert Meet(rs[i], rs[j]); }
  }

  lemma SetKindMarks(bits: seq<Entry>, rs: seq<Run>, k: int, kind: Kind)
    requires Marks(bits, rs) && 0 <= k < |rs| && (rs[k].kind.Free? || rs[k].kind.Loose?)
    requires (kind.Free? || kind.Loose? || kind.Taken?)
    ensures Marks(bits, SetKind(rs, k, kind))
  {
    var t := SetKind(rs, k, kind);
    forall i | 0 <= i < |t| ensures Marked(bits, t[i]) { assert Marked(bits, rs[i]); }
  }

  // arena_avail_remove, on the chunk
  function AvailRemoved(ch: Chunk, pageind: nat, npages: nat, pred: bool, succ: bool, mapBias: nat): Chunk
    requires 1 <= mapBias <= pageind < |ch.bits| && pageind + npages <= |ch.bits|
  {
    ch.(nrunsAdjac := ch.nrunsAdjac - Joints(ch.bits, pageind, npages, pred, succ, mapBias),
        nrunsAvail := ch.nrunsAvail - 1,
        ndirty := ch.ndirty - if ch.bits[pageind].dirty then npages else 0)
  }

  // arena_avail_insert, on the chunk
  function AvailInserted(ch: Chunk, pageind: nat, npages: nat, pred: bool, succ: bool, mapBias: nat): Chunk
    requires 1 <= mapBias <= pageind < |ch.bits| && pageind + npages <= |ch.bits|
  {
    ch.(nrunsAdjac := ch.nrunsAdjac + Joints(ch.bits, pageind, npages, pred, succ, mapBias),
        nrunsAvail := ch.nrunsAvail + 1,
        ndirty := ch.ndirty + if ch.bits[pageind].dirty then npages else 0)
  }

  lemma SoundRemove(ch: Chunk, rs: seq<Run>, lo: nat, hi: nat, runPages: nat -> nat, k: int, pred: bool, succ: bool)
    requires Sound(ch, rs, lo, hi, runPages) && lo >= 1 && Askable(rs, k, pred, succ) && rs[k].kind.Free?
    ensures lo <= rs[k].start < End(rs[k]) <= hi && ch.bits[rs[k].start].dirty == rs[k].dirty
    ensures Sound(AvailRemoved(ch, rs[k].start, rs[k].pages, pred, succ, lo), SetKind(rs, k, Loose), lo, hi, runPages)
    ensures ActivePages(SetKind(rs, k, Loose)) == ActivePages(rs)
    ensures DirtyPages(SetKind(rs, k, Loose)) == DirtyPages(rs) - if rs[k].dirty then rs[k].pages else 0
  {
    hide Tiles, Marks, FreeRuns, DirtyPages, ActivePages, Adjacent, AdjacPred, AdjacSucc;
    TilesWithin(rs, lo, hi, k);
    JointsCount(ch.bits, rs, lo, hi, k, pred, succ);
    KindCounts(rs, k, Loose);
    SetKindTiles(rs, lo, hi, k, Loose);
    SetKindMarks(ch.bits, rs, k, Loose);
    StartMarked(ch.bits, rs, k);
    KindAlternates(rs, k, Loose);
  }

  lemma StartMarked(bits: seq<Entry>, rs: seq<Run>, k: int)
    requires Marks(bits, rs) && 0 <= k < |rs| && (rs[k].kind.Free? || rs[k].kind.Loose?)
    ensures rs[k].pages > 0 && End(rs[k]) <= |bits| && UnusedMark(bits[rs[k].start], rs[k])
    ensures UnusedMark(bits[End(rs[k]) - 1], rs[k])
  {
    assert Marked(bits, rs[k]);
  }

  lemma KindAlternates(rs: seq<Run>, k: int, kind: Kind)
    requires Alternates(rs) && 0 <= k < |rs|
    requires kind.Free? && k > 0 ==> Apart(rs[k - 1], rs[k].(kind := kind))
    requires kind.Free? && k + 1 < |rs| ==> Apart(rs[k].(kind := kind), rs[k + 1])
    ensures Alternates(SetKind(rs, k, kind))
  {
    var t := SetKind(rs, k, kind);
    forall i, j | 0 <= i && j == i + 1 && j < |t| ensures Apart(t[i], t[j]) { assert Apart(rs[i], rs[j]); }
  }

  lemma SoundInsert(ch: Chunk, rs: seq<Run>, lo: nat, hi: nat, runPages: nat -> nat, k: int, pred: bool, succ: bool)
    requires Sound(ch, rs, lo, hi, runPages) && lo >= 1 && Askable(rs, k, pred, succ) && rs[k].kind.Loose?
    requires k > 0 ==> Apart(rs[k - 1], rs[k].(kind := Free))
    requires k + 1 < |rs| ==> Apart(rs[k].(kind := Free), rs[k + 1])
    ensures lo <= rs[k].start < End(rs[k]) <= hi && ch.bits[rs[k].start].dirty == rs[k].dirty
    ensures Sound(AvailInserted(ch, rs[k].start, rs[k].pages, pred, succ, lo), SetKind(rs, k, Free), lo, hi, runPages)
    ensures ActivePages(SetKind(rs, k, Free)) == ActivePages(rs)
    ensures DirtyPages(SetKind(rs, k, Free)) == DirtyPages(rs) + if rs[k].dirty then rs[k].pages else 0
  {
    hide Tiles, Marks, FreeRuns, DirtyPages, ActivePages, Adjacent, AdjacPred, AdjacSucc;
    TilesWithin(rs, lo, hi, k);
    JointsCount(ch.bits, rs, lo, hi, k, pred, succ);
    var t := SetKind(rs, k, Free);
    assert SetKind(t, k, Loose) == rs;
    KindCounts(t, k, Loose);
    SetKindTiles(rs, lo, hi, k, Free);
    SetKindMarks(ch.bits, rs, k, Free);
    StartMarked(ch.bits, rs, k);
    KindAlternates(rs, k, Free);
  }
}
