// The runs of an arena: its chunks, the tree of available runs and the page counters.
module Arenas {
  import opened RunMap

  // The sum of a count over all chunks.
  function Sum(rss: seq<seq<Run>>, f: seq<Run> -> nat): nat
  {
    if rss == [] then 0 else f(rss[0]) + Sum(rss[1..], f)
  }

  lemma {:induction false} SumAt(rss: seq<seq<Run>>, f: seq<Run> -> nat, c: int, rs: seq<Run>)
    requires 0 <= c < |rss|
    ensures Sum(rss[c := rs], f) == Sum(rss, f) - f(rss[c]) + f(rs)
  {
    if c == 0 {
      assert rss[c := rs][1..] == rss[1..];
    } else {
      assert rss[c := rs][1..] == rss[1..][c - 1 := rs];
      SumAt(rss[1..], f, c - 1, rs);
    }
  }

  lemma {:induction false} SumMore(rss: seq<seq<Run>>, f: seq<Run> -> nat, rs: seq<Run>)
    ensures Sum(rss + [rs], f) == Sum(rss, f) + f(rs)
  {
    if rss == [] {
      assert rss + [rs] == [rs] && [rs][1..] == [];
    } else {
      assert (rss + [rs])[1..] == rss[1..] + [rs];
      SumMore(rss[1..], f, rs);
    }
  }

  ghost predicate FreeAt(rs: seq<Run>, p: int) { exists k :: 0 <= k < |rs| && rs[k].kind.Free? && rs[k].start == p }

  // The tree of available runs holds the free runs of all chunks.
  ghost predicate Listed(avail: set<(nat, nat)>, rss: seq<seq<Run>>)
  {
    forall c: nat, p: nat :: (c, p) in avail <==> c < |rss| && FreeAt(rss[c], p)
  }

  ghost predicate DirtyListed(dirtyChunks: set<nat>, chunks: seq<Chunk>)
  {
    forall c: nat :: c in dirtyChunks <==> c < |chunks| && chunks[c].ndirty != 0
  }

  ghost predicate AllSound(chunks: seq<Chunk>, rss: seq<seq<Run>>, lo: nat, hi: nat, runPages: nat -> nat)
  {
    |chunks| == |rss| && forall c :: 0 <= c < |rss| ==> Sound(chunks[c], rss[c], lo, hi, runPages)
  }

  // All that an arena keeps about its runs agrees with the tilings of its chunks.
  datatype Books = Books(chunks: seq<Chunk>, nactive: int, ndirty: int, avail: set<(nat, nat)>, dirtyChunks: set<nat>)

  ghost predicate Kept(b: Books, rss: seq<seq<Run>>, lo: nat, hi: nat, runPages: nat -> nat)
  {
    && 1 <= lo < hi && AllSound(b.chunks, rss, lo, hi, runPages)
    && b.nactive == Sum(rss, ActivePages) && b.ndirty == Sum(rss, DirtyPages)
    && Listed(b.avail, rss) && DirtyListed(b.dirtyChunks, b.chunks)
  }

  lemma ListedSame(avail: set<(nat, nat)>, rss: seq<seq<Run>>, c: int, rs: seq<Run>)
    requires Listed(avail, rss) && 0 <= c < |rss| && forall p: nat :: FreeAt(rs, p) <==> FreeAt(rss[c], p)
    ensures Listed(avail, rss[c := rs])
  { }

  lemma FreeAtSplice(rs: seq<Run>, k: int, m: int, mid: seq<Run>, p: int)
    requires 0 <= k <= m <= |rs| && NoFree(rs[k..m]) && NoFree(mid)
    ensures FreeAt(Splice(rs, k, m, mid), p) <==> FreeAt(rs, p)
  {
    var t := Splice(rs, k, m, mid);
    forall i | k <= i < m ensures !rs[i].kind.Free? { assert rs[k..m][i - k] == rs[i]; }
    forall i | k <= i < k + |mid| ensures !t[i].kind.Free? { assert mid[i - k] == t[i]; }
    if FreeAt(rs, p) {
      var i :| 0 <= i < |rs| && rs[i].kind.Free? && rs[i].start == p;
      if i < k {
        assert t[i] == rs[i];
      } else {
        assert t[i - m + k + |mid|] == rs[i];
      }
    }
    if FreeAt(t, p) {
      var i :| 0 <= i < |t| && t[i].kind.Free? && t[i].start == p;
      if i < k {
        assert t[i] == rs[i];
      } else {
        assert t[i] == rs[i - |mid| - k + m];
      }
    }
  }

  lemma KeptRetile(b: Books, rss: seq<seq<Run>>, lo: nat, hi: nat, runPages: nat -> nat, c: nat, bits': seq<Entry>,
      k: int, m: int, mid: seq<Run>)
    requires Kept(b, rss, lo, hi, runPages) && c < |rss| && 0 <= k < m <= |rss[c]| && NoFree(rss[c][k..m])
    requires NoFree(mid)
    requires Tiles(mid, rss[c][k].start, End(rss[c][m - 1])) && Marks(bits', mid) && SizesFit(mid, runPages)
    requires Outside(b.chunks[c].bits, bits', rss[c][k].start, End(rss[c][m - 1]))
    ensures Kept(b.(chunks := b.chunks[c := b.chunks[c].(bits := bits')],
                    nactive := b.nactive - ActivePages(rss[c][k..m]) + ActivePages(mid)),
                 rss[c := Splice(rss[c], k, m, mid)], lo, hi, runPages)
  {
    hide Sound, Tiles, Marks, SizesFit, Outside, ActivePages, DirtyPages, Listed, Splice, Sum;
    var rs := rss[c];
    assert Sound(b.chunks[c], rs, lo, hi, runPages);
    SoundRetile(b.chunks[c], rs, lo, hi, runPages, bits', k, m, mid);
    var rs' := Splice(rs, k, m, mid);
    SumAt(rss, ActivePages, c, rs');
    SumAt(rss, DirtyPages, c, rs');
    SoundCounts(b.chunks[c], rs, lo, hi, runPages);
    SoundCounts(b.chunks[c].(bits := bits'), rs', lo, hi, runPages);
    forall p: nat ensures FreeAt(rs', p) <==> FreeAt(rs, p) { FreeAtSplice(rs, k, m, mid, p); }
    ListedSame(b.avail, rss, c, rs');
  }

  lemma SoundCounts(ch: Chunk, rs: seq<Run>, lo: nat, hi: nat, runPages: nat -> nat)
    requires Sound(ch, rs, lo, hi, runPages)
    ensures ch.ndirty == DirtyPages(rs) && Tiles(rs, lo, hi) && |ch.bits| == hi && Marks(ch.bits, rs)
    ensures Alternates(rs) && SizesFit(rs, runPages)
  { }

  lemma ListedLess(avail: set<(nat, nat)>, rss: seq<seq<Run>>, c: nat, k: int, lo: nat, hi: nat)
    requires Listed(avail, rss) && c < |rss| && Tiles(rss[c], lo, hi) && 0 <= k < |rss[c]| && rss[c][k].kind.Free?
    ensures Listed(avail - {(c, rss[c][k].start)}, rss[c := SetKind(rss[c], k, Loose)])
    ensures (c, rss[c][k].start) in avail
  {
    hide Tiles;
    var rs, t := rss[c], SetKind(rss[c], k, Loose);
    assert FreeAt(rs, rs[k].start);
    forall p: nat ensures FreeAt(t, p) <==> FreeAt(rs, p) && p != rs[k].start
    {
      if FreeAt(rs, p) && p != rs[k].start {
        var i :| 0 <= i < |rs| && rs[i].kind.Free? && rs[i].start == p;
        assert t[i] == rs[i];
      }
      if FreeAt(t, p) {
        var i :| 0 <= i < |t| && t[i].kind.Free? && t[i].start == p;
        assert i != k && t[i] == rs[i];
        StartsDiffer(rs, lo, hi, i, k);
      }
    }
  }

  lemma StartsDiffer(rs: seq<Run>, lo: nat, hi: nat, i: int, k: int)
    requires Tiles(rs, lo, hi) && 0 <= i < |rs| && 0 <= k < |rs| && i != k
    ensures End(rs[i]) <= rs[k].start || End(rs[k]) <= rs[i].start
    ensures rs[i].start != rs[k].start
  {
    TilesWithin(rs, lo, hi, i);
    TilesWithin(rs, lo, hi, k);
    if i < k { TilesAfter(rs, lo, hi, i, k); } else { TilesAfter(rs, lo, hi, k, i); }
  }

  lemma ListedMore(avail: set<(nat, nat)>, rss: seq<seq<Run>>, c: nat, k: int)
    requires Listed(avail, rss) && c < |rss| && 0 <= k < |rss[c]| && rss[c][k].kind.Loose?
    ensures Listed(avail + {(c, rss[c][k].start)}, rss[c := SetKind(rss[c], k, Free)])
  {
    var rs, t := rss[c], SetKind(rss[c], k, Free);
    assert t[k].kind.Free? && t[k].start == rs[k].start;
    forall p: nat ensures FreeAt(t, p) <==> FreeAt(rs, p) || p == rs[k].start
    {
      if FreeAt(rs, p) {
        var i :| 0 <= i < |rs| && rs[i].kind.Free? && rs[i].start == p;
        assert t[i] == rs[i];
      }
      if FreeAt(t, p) && p != rs[k].start {
        var i :| 0 <= i < |t| && t[i].kind.Free? && t[i].start == p;
        assert t[i] == rs[i];
      }
    }
  }

  function Relisted(dirtyChunks: set<nat>, c: nat, ndirty: int): set<nat>
  {
    dirtyChunks - {c} + if ndirty != 0 then {c} else {}
  }

  lemma KeptRemove(b: Books, rss: seq<seq<Run>>, lo: nat, hi: nat, runPages: nat -> nat, c: nat, k: int, pred: bool,
      succ: bool)
    requires Kept(b, rss, lo, hi, runPages) && c < |rss| && Askable(rss[c], k, pred, succ) && rss[c][k].kind.Free?
    ensures var r, ch := rss[c][k], b.chunks[c];
            lo <= r.start < End(r) <= hi == |ch.bits| && UnusedMark(ch.bits[r.start], r) && (c, r.start) in b.avail
    ensures var r, ch := rss[c][k], b.chunks[c]; var ch' := AvailRemoved(ch, r.start, r.pages, pred, succ, lo);
            && (ch'.nrunsAvail > ch'.nrunsAdjac || ch'.nrunsAvail == ch'.nrunsAdjac == 0)
            && Kept(b.(chunks := b.chunks[c := ch'], ndirty := b.ndirty - (if r.dirty then r.pages else 0),
                       avail := b.avail - {(c, r.start)}, dirtyChunks := Relisted(b.dirtyChunks, c, ch'.ndirty)),
                    rss[c := SetKind(rss[c], k, Loose)], lo, hi, runPages)
  {
    hide Sound, Tiles, Marks, ActivePages, DirtyPages, Listed, Sum, Adjacent, FreeRuns, AvailRemoved;
    var rs, ch := rss[c], b.chunks[c];
    assert Sound(ch, rs, lo, hi, runPages);
    SoundRemove(ch, rs, lo, hi, runPages, k, pred, succ);
    SoundCounts(ch, rs, lo, hi, runPages);
    StartMarked(ch.bits, rs, k);
    var t, ch' := SetKind(rs, k, Loose), AvailRemoved(ch, rs[k].start, rs[k].pages, pred, succ, lo);
    SumAt(rss, ActivePages, c, t);
    SumAt(rss, DirtyPages, c, t);
    ListedLess(b.avail, rss, c, k, lo, hi);
    RunCountsApart(ch', t, lo, hi, runPages);
  }

  lemma RunCountsApart(ch: Chunk, rs: seq<Run>, lo: nat, hi: nat, runPages: nat -> nat)
    requires Sound(ch, rs, lo, hi, runPages)
    ensures ch.nrunsAvail > ch.nrunsAdjac || ch.nrunsAvail == ch.nrunsAdjac == 0
  {
    FewerAdjacent(rs);
  }

  lemma KeptInsert(b: Books, rss: seq<seq<Run>>, lo: nat, hi: nat, runPages: nat -> nat, c: nat, k: int, pred: bool,
      succ: bool)
    requires Kept(b, rss, lo, hi, runPages) && c < |rss| && Askable(rss[c], k, pred, succ) && rss[c][k].kind.Loose?
    requires k > 0 ==> Apart(rss[c][k - 1], rss[c][k].(kind := Free))
    requires k + 1 < |rss[c]| ==> Apart(rss[c][k].(kind := Free), rss[c][k + 1])
    ensures var r, ch := rss[c][k], b.chunks[c];
            lo <= r.start < End(r) <= hi == |ch.bits| && UnusedMark(ch.bits[r.start], r)
    ensures var r, ch := rss[c][k], b.chunks[c]; var ch' := AvailInserted(ch, r.start, r.pages, pred, succ, lo);
            && ch'.nrunsAvail > ch'.nrunsAdjac
            && Kept(b.(chunks := b.chunks[c := ch'], ndirty := b.ndirty + (if r.dirty then r.pages else 0),
                       avail := b.avail + {(c, r.start)}, dirtyChunks := Relisted(b.dirtyChunks, c, ch'.ndirty)),
                    rss[c := SetKind(rss[c], k, Free)], lo, hi, runPages)
  {
    hide Sound, Tiles, Marks, ActivePages, DirtyPages, Listed, Sum, Adjacent, FreeRuns, AvailInserted;
    var rs, ch := rss[c], b.chunks[c];
    assert Sound(ch, rs, lo, hi, runPages);
    SoundInsert(ch, rs, lo, hi, runPages, k, pred, succ);
    SoundCounts(ch, rs, lo, hi, runPages);
    StartMarked(ch.bits, rs, k);
    var t, ch' := SetKind(rs, k, Free), AvailInserted(ch, rs[k].start, rs[k].pages, pred, succ, lo);
    SumAt(rss, ActivePages, c, t);
    SumAt(rss, DirtyPages, c, t);
    ListedMore(b.avail, rss, c, k);
    RunCountsApart(ch', t, lo, hi, runPages);
    SoundSome(ch', t, lo, hi, runPages, k);
  }

  lemma SoundSome(ch: Chunk, rs: seq<Run>, lo: nat, hi: nat, runPages: nat -> nat, k: int)
    requires Sound(ch, rs, lo, hi, runPages) && 0 <= k < |rs| && rs[k].kind.Free?
    ensures ch.nrunsAvail > 0
  {
    CountsJoin(rs[..k], rs[k..]);
    assert rs[..k] + rs[k..] == rs;
  }

  // Run k cut in two: the first part of a new kind.
  function Split(rs: seq<Run>, k: int, need: nat, kind: Kind): seq<Run>
    requires 0 <= k < |rs| && 0 < need <= rs[k].pages
  {
    var r := rs[k];
    Splice(rs, k, k + 1, [Run(r.start, need, kind, r.dirty)] + if need < r.pages
        then [Run(r.start + need, r.pages - need, r.kind, r.dirty)] else [])
  }

  // All runs but run k are settled.
  ghost predicate OthersSettled(rs: seq<Run>, k: int) { forall i :: 0 <= i < |rs| && i != k ==> Settled(rs[i]) }

  lemma SettledAskable(rs: seq<Run>, k: int)
    requires 0 <= k < |rs| && OthersSettled(rs, k)
    ensures Askable(rs, k, true, true)
  { }

  // Where the chunks are, and whether they are in use.
  function Places(chunks: seq<Chunk>): (ps: seq<(nat, bool)>)
    ensures |ps| == |chunks|
  {
    seq(|chunks|, c requires 0 <= c < |chunks| => (chunks[c].addr, chunks[c].mapped))
  }

  lemma PlacesSame(chunks: seq<Chunk>, c: int, ch: Chunk)
    requires 0 <= c < |chunks| && ch.addr == chunks[c].addr && ch.mapped == chunks[c].mapped
    ensures Places(chunks[c := ch]) == Places(chunks)
  { }

  lemma LooseCut(bits: seq<Entry>, bits': seq<Entry>, r: Run, need: nat)
    requires r.pages > 0 && End(r) <= |bits| && Outside(bits, bits', r.start, End(r)) && 0 < need < r.pages
    requires var z := Run(r.start + need, r.pages - need, Loose, r.dirty);
             UnusedMark(bits'[z.start], z) && UnusedMark(bits'[End(z) - 1], z)
    ensures var mid := [Run(r.start, need, Taken, r.dirty), Run(r.start + need, r.pages - need, Loose, r.dirty)];
            Tiles(mid, r.start, End(r)) && Marks(bits', mid) && NoFree(mid) && ActivePages(mid) == need
  {
    var mid := [Run(r.start, need, Taken, r.dirty), Run(r.start + need, r.pages - need, Loose, r.dirty)];
    assert mid[1..][1..] == [];
  }

  lemma OneRun(bits: seq<Entry>, r: Run)
    requires Marked(bits, r)
    ensures Tiles([r], r.start, End(r)) && Marks(bits, [r]) && ActivePages([r]) == if Owned(r) || r.kind.Taken?
              then r.pages else 0
  {
    assert [r][1..] == [];
  }

  lemma SplitSteps(rs: seq<Run>, k: int, need: nat)
    requires 0 <= k < |rs| && 0 < need < rs[k].pages && rs[k].kind.Free?
    ensures var r := rs[k];
            var mid := [Run(r.start, need, Taken, r.dirty), Run(r.start + need, r.pages - need, Loose, r.dirty)];
            SetKind(Splice(SetKind(rs, k, Loose), k, k + 1, mid), k + 1, Free) == Split(rs, k, need, Taken)
  { }

  // ------------------------------------------------------- which pages may have been written to

  ghost predicate DirtyPage(rs: seq<Run>, p: int)
  {
    exists i :: 0 <= i < |rs| && rs[i].dirty && rs[i].start <= p < End(rs[i])
  }

  // A page that may hold anything but zeros: its entry says so, or its run is dirty.
  ghost predicate Suspect(bits: seq<Entry>, rs: seq<Run>, p: int)
  {
    0 <= p < |bits| && (bits[p].unzeroed || DirtyPage(rs, p))
  }

  // The same for any chunk, where new ones are zeroed or not.
  ghost predicate Doubtful(chunks: seq<Chunk>, rss: seq<seq<Run>>, c: nat, p: int, zero: bool)
    requires |chunks| == |rss|
  {
    if c < |rss| then Suspect(chunks[c].bits, rss[c], p) else !zero
  }

  // The unzeroed bit of a page stays, unless its run is dirty; and no page of a dirty run is lost.
  ghost predicate TracksOne(bits: seq<Entry>, rs: seq<Run>, bits': seq<Entry>, rs': seq<Run>)
  {
    && |bits'| == |bits|
    && (forall p :: 0 <= p < |bits| ==> bits'[p].unzeroed == bits[p].unzeroed || DirtyPage(rs', p))
    && forall p :: DirtyPage(rs, p) ==> DirtyPage(rs', p)
  }

  ghost predicate Tracks(chunks: seq<Chunk>, rss: seq<seq<Run>>, chunks': seq<Chunk>, rss': seq<seq<Run>>)
  {
    && |chunks| == |rss| <= |chunks'| == |rss'|
    && forall c :: 0 <= c < |chunks| ==> TracksOne(chunks[c].bits, rss[c], chunks'[c].bits, rss'[c])
  }

  // So a page that may hold anything but zeros is never taken for one that holds zeros.
  lemma StaysSuspect(chunks: seq<Chunk>, rss: seq<seq<Run>>, chunks': seq<Chunk>, rss': seq<seq<Run>>, c: int, p: int)
    requires Tracks(chunks, rss, chunks', rss') && 0 <= c < |chunks| && Suspect(chunks[c].bits, rss[c], p)
    ensures Suspect(chunks'[c].bits, rss'[c], p)
  {
    assert TracksOne(chunks[c].bits, rss[c], chunks'[c].bits, rss'[c]);
  }

  lemma StillSuspect(chunks: seq<Chunk>, rss: seq<seq<Run>>, chunks': seq<Chunk>, rss': seq<seq<Run>>, c: int)
    requires Tracks(chunks, rss, chunks', rss')
    ensures 0 <= c < |chunks| ==>
              forall p :: Suspect(chunks[c].bits, rss[c], p) ==> Suspect(chunks'[c].bits, rss'[c], p)
  {
    hide TracksOne, Suspect;
    if 0 <= c < |chunks| {
      forall p | Suspect(chunks[c].bits, rss[c], p) ensures Suspect(chunks'[c].bits, rss'[c], p)
      {
        StaysSuspect(chunks, rss, chunks', rss', c, p);
      }
    }
  }

  lemma TracksSame(chunks: seq<Chunk>, rss: seq<seq<Run>>)
    requires |chunks| == |rss|
    ensures Tracks(chunks, rss, chunks, rss)
  { }

  lemma TracksThen(a: seq<Chunk>, ra: seq<seq<Run>>, b: seq<Chunk>, rb: seq<seq<Run>>, c: seq<Chunk>,
      rc: seq<seq<Run>>)
    requires Tracks(a, ra, b, rb) && Tracks(b, rb, c, rc)
    ensures Tracks(a, ra, c, rc)
  {
    hide DirtyPage;
    forall i | 0 <= i < |a| ensures TracksOne(a[i].bits, ra[i], c[i].bits, rc[i])
    {
      assert TracksOne(a[i].bits, ra[i], b[i].bits, rb[i]) && TracksOne(b[i].bits, rb[i], c[i].bits, rc[i]);
    }
  }

  lemma TracksIn(chunks: seq<Chunk>, rss: seq<seq<Run>>, c: int, ch: Chunk, rs: seq<Run>)
    requires |chunks| == |rss| && 0 <= c < |chunks| && TracksOne(chunks[c].bits, rss[c], ch.bits, rs)
    ensures Tracks(chunks, rss, chunks[c := ch], rss[c := rs])
  { }

  lemma TracksKind(bits: seq<Entry>, rs: seq<Run>, k: int, kind: Kind)
    requires 0 <= k < |rs|
    ensures TracksOne(bits, rs, bits, SetKind(rs, k, kind))
  {
    var rs' := SetKind(rs, k, kind);
    forall p | DirtyPage(rs, p) ensures DirtyPage(rs', p)
    {
      var i :| 0 <= i < |rs| && rs[i].dirty && rs[i].start <= p < End(rs[i]);
      assert rs'[i].dirty && rs'[i].start == rs[i].start && End(rs'[i]) == End(rs[i]);
    }
  }

  lemma TracksSet(chunks: seq<Chunk>, rss: seq<seq<Run>>, c: int, ch: Chunk, k: int, kind: Kind)
    requires |chunks| == |rss| && 0 <= c < |chunks| && ch.bits == chunks[c].bits && 0 <= k < |rss[c]|
    ensures Tracks(chunks, rss, chunks[c := ch], rss[c := SetKind(rss[c], k, kind)])
  {
    hide TracksOne, SetKind;
    TracksKind(ch.bits, rss[c], k, kind);
    TracksIn(chunks, rss, c, ch, SetKind(rss[c], k, kind));
  }

  lemma TracksBits(chunks: seq<Chunk>, rss: seq<seq<Run>>, c: int)
    requires |chunks| == |rss| && 0 <= c < |chunks|
    ensures Tracks(chunks, rss, chunks[c := chunks[c].(mapped := false)], rss)
  { }

  lemma TracksMore(chunks: seq<Chunk>, rss: seq<seq<Run>>, ch: Chunk, rs: seq<Run>)
    requires |chunks| == |rss|
    ensures Tracks(chunks, rss, chunks + [ch], rss + [rs])
  { }

  lemma TracksSplice(bits: seq<Entry>, rs: seq<Run>, k: int, m: int, bits': seq<Entry>, mid: seq<Run>)
    requires 0 <= k <= m <= |rs| && TracksOne(bits, rs[k..m], bits', mid)
    ensures TracksOne(bits, rs, bits', Splice(rs, k, m, mid))
  {
    var t := Splice(rs, k, m, mid);
    forall p | DirtyPage(mid, p) ensures DirtyPage(t, p)
    {
      var i :| 0 <= i < |mid| && mid[i].dirty && mid[i].start <= p < End(mid[i]);
      assert t[k + i] == mid[i];
    }
    forall p | DirtyPage(rs, p) ensures DirtyPage(t, p)
    {
      var i :| 0 <= i < |rs| && rs[i].dirty && rs[i].start <= p < End(rs[i]);
      if i < k {
        assert t[i] == rs[i];
      } else if i < m {
        assert rs[k..m][i - k] == rs[i];
        assert DirtyPage(rs[k..m], p);
      } else {
        assert t[k + |mid| + i - m] == rs[i];
      }
    }
  }

  lemma OwnDirt(rs: seq<Run>, lo: nat, hi: nat, k: int, p: int)
    requires Tiles(rs, lo, hi) && 0 <= k < |rs| && rs[k].start <= p < End(rs[k])
    ensures DirtyPage(rs, p) <==> rs[k].dirty
  {
    hide Tiles;
    if DirtyPage(rs, p) {
      var i :| 0 <= i < |rs| && rs[i].dirty && rs[i].start <= p < End(rs[i]);
      if i < k { TilesAfter(rs, lo, hi, i, k); }
      if k < i { TilesAfter(rs, lo, hi, k, i); }
    }
  }

  // What may hold anything in the front of a run is told by its dirtiness and its entries still.
  lemma SplitSuspects(chunks: seq<Chunk>, rss: seq<seq<Run>>, chunks': seq<Chunk>, rss': seq<seq<Run>>, lo: nat,
      hi: nat, c: int, k: int, need: nat, zero: bool, cleared: set<nat>)
    requires Tracks(chunks, rss, chunks', rss') && 0 <= c < |chunks| && 0 <= k < |rss[c]| && 0 < need <= rss[c][k].pages
    requires rss'[c] == Split(rss[c], k, need, Taken) && Tiles(rss[c], lo, hi) && Tiles(rss'[c], lo, hi)
    requires |chunks[c].bits| == |chunks'[c].bits| == hi
    requires rss[c][k].start + need <= hi
    requires forall p :: p in cleared <==>
               zero && rss[c][k].start <= p < rss[c][k].start + need && (rss[c][k].dirty || chunks'[c].bits[p].unzeroed)
    ensures forall p :: p in cleared <==>
              zero && rss[c][k].start <= p < rss[c][k].start + need && Suspect(chunks[c].bits, rss[c], p)
  {
    hide Tiles;
    var r := rss[c][k];
    assert TracksOne(chunks[c].bits, rss[c], chunks'[c].bits, rss'[c]);
    TilesWithin(rss[c], lo, hi, k);
    forall p | r.start <= p < r.start + need
      ensures Suspect(chunks[c].bits, rss[c], p) <==> r.dirty || chunks'[c].bits[p].unzeroed
    {
      OwnDirt(rss[c], lo, hi, k, p);
      assert rss'[c][k] == Run(r.start, need, Taken, r.dirty);
      OwnDirt(rss'[c], lo, hi, k, p);
    }
  }

  predicate AtOrBehind(p: nat, from: nat) { p >= from }

  // The entries from lo to hi may lose their unzeroed bits if dirty.
  ghost predicate BitsKept(bits: seq<Entry>, bits': seq<Entry>, lo: int, hi: int, dirty: bool)
  {
    && |bits'| == |bits|
    && forall p :: 0 <= p < |bits| ==> bits'[p].unzeroed == bits[p].unzeroed || (dirty && lo <= p < hi)
  }

  // Runs of one dirtiness are cut or joined, or become dirty.
  lemma TracksUniform(bits: seq<Entry>, bits': seq<Entry>, rs: seq<Run>, rs': seq<Run>, lo: nat, hi: nat, d: bool,
      d': bool)
    requires BitsKept(bits, bits', lo, hi, d') && (d ==> d') && Tiles(rs', lo, hi)
    requires forall i :: 0 <= i < |rs| ==> rs[i].dirty == d && lo <= rs[i].start && End(rs[i]) <= hi
    requires forall i :: 0 <= i < |rs'| ==> rs'[i].dirty == d'
    ensures TracksOne(bits, rs, bits', rs')
  {
    hide Tiles;
    forall p | lo <= p < hi && d' ensures DirtyPage(rs', p)
    {
      var i := RunAt(rs', lo, hi, p);
    }
  }

  lemma {:induction false} RunAt(rs: seq<Run>, lo: nat, hi: nat, p: int) returns (i: int)
    requires Tiles(rs, lo, hi) && lo <= p < hi
    ensures 0 <= i < |rs| && rs[i].start <= p < End(rs[i])
  {
    i := 0;
    while p >= End(rs[i])
      invariant 0 <= i < |rs| && rs[i].start <= p
      decreases |rs| - i
    {
      assert i + 1 < |rs| ==> Meet(rs[i], rs[i + 1]);
      i := i + 1;
    }
  }

  class Arena {
    const mapBias: nat
    const chunkNpages: nat
    // The run size of each bin, in pages.
    const runPages: nat -> nat
    var chunks: seq<Chunk>
    var nactive: int
    var ndirty: int
    var runsAvail: set<(nat, nat)>
    var chunksDirty: set<nat>
    // A chunk kept for reuse, or -1.
    var spare: int
    ghost var runs: seq<seq<Run>>

    ghost function Account(): Books
      reads this
    {
      Books(chunks, nactive, ndirty, runsAvail, chunksDirty)
    }

    ghost predicate Consistent()
      reads this
    {
      Kept(Account(), runs, mapBias, chunkNpages, runPages)
    }

    // How many of the neighbours asked for are free.
    method CountJoints(bits: seq<Entry>, pageind: nat, npages: nat, maybePred: bool, maybeSucc: bool)
        returns (joints: nat)
      requires 1 <= mapBias <= pageind && pageind + npages <= |bits|
      ensures joints == Joints(bits, pageind, npages, maybePred, maybeSucc, mapBias)
    {
      joints := 0;
      if maybePred && AdjacPred(bits, pageind, mapBias) {
        joints := joints + 1;
      }
      if maybeSucc && AdjacSucc(bits, pageind, npages) {
        joints := joints + 1;
      }
    }

    // arena_avail_remove
    method AvailRemove(c: nat, pageind: nat, npages: nat, maybePred: bool, maybeSucc: bool, ghost k: int)
      requires Consistent() && c < |runs| && Askable(runs[c], k, maybePred, maybeSucc)
      requires runs[c][k].kind.Free? && pageind == runs[c][k].start && npages == runs[c][k].pages
      modifies this`chunks, this`ndirty, this`runsAvail, this`chunksDirty, this`runs
      ensures Consistent() && runs == old(runs)[c := SetKind(old(runs[c]), k, Loose)]
      ensures Places(chunks) == old(Places(chunks)) && Tracks(old(chunks), old(runs), chunks, runs)
    {
      hide Kept, Joints, Places, Apart, SetKind, Tracks, TracksOne;
      KeptRemove(Account(), runs, mapBias, chunkNpages, runPages, c, k, maybePred, maybeSucc);
      KeptChunk(Account(), runs, mapBias, chunkNpages, runPages, c);
      var ch := chunks[c];
      assert npages == ch.bits[pageind].size;
      if ch.ndirty != 0 {
        chunksDirty := chunksDirty - {c};
      }
      var joints := CountJoints(ch.bits, pageind, npages, maybePred, maybeSucc);
      ch := ch.(nrunsAdjac := ch.nrunsAdjac - joints);
      ch := ch.(nrunsAvail := ch.nrunsAvail - 1);
      assert ch.nrunsAvail > ch.nrunsAdjac || (ch.nrunsAvail == 0 && ch.nrunsAdjac == 0);
      if ch.bits[pageind].dirty {
        ndirty := ndirty - npages;
        ch := ch.(ndirty := ch.ndirty - npages);
      }
      PlacesSame(chunks, c, ch);
      chunks := chunks[c := ch];
      if ch.ndirty != 0 {
        chunksDirty := chunksDirty + {c};
      }
      runsAvail := runsAvail - {(c, pageind)};
      TracksSet(old(chunks), runs, c, ch, k, Loose);
      runs := runs[c := SetKind(runs[c], k, Loose)];
      assert chunksDirty == Relisted(old(chunksDirty), c, ch.ndirty);
    }

    // The counters of a chunk that gets another free run.
    method CountIn(chunk: Chunk, pageind: nat, npages: nat, maybePred: bool, maybeSucc: bool)
        returns (ch: Chunk, dirty: nat)
      requires 1 <= mapBias <= pageind < |chunk.bits| && pageind + npages <= |chunk.bits|
      ensures ch == AvailInserted(chunk, pageind, npages, maybePred, maybeSucc, mapBias)
      ensures dirty == if chunk.bits[pageind].dirty then npages else 0
    {
      ch, dirty := chunk, 0;
      var joints := CountJoints(ch.bits, pageind, npages, maybePred, maybeSucc);
      ch := ch.(nrunsAdjac := ch.nrunsAdjac + joints);
      ch := ch.(nrunsAvail := ch.nrunsAvail + 1);
      if ch.bits[pageind].dirty {
        dirty := npages;
        ch := ch.(ndirty := ch.ndirty + npages);
      }
    }

    // arena_avail_insert
    method AvailInsert(c: nat, pageind: nat, npages: nat, maybePred: bool, maybeSucc: bool, ghost k: int)
      requires Consistent() && c < |runs| && Askable(runs[c], k, maybePred, maybeSucc)
      requires runs[c][k].kind.Loose? && pageind == runs[c][k].start && npages == runs[c][k].pages
      requires k > 0 ==> Apart(runs[c][k - 1], runs[c][k].(kind := Free))
      requires k + 1 < |runs[c]| ==> Apart(runs[c][k].(kind := Free), runs[c][k + 1])
      modifies this`chunks, this`ndirty, this`runsAvail, this`chunksDirty, this`runs
      ensures Consistent() && runs == old(runs)[c := SetKind(old(runs[c]), k, Free)]
      ensures Places(chunks) == old(Places(chunks)) && Tracks(old(chunks), old(runs), chunks, runs)
    {
      hide Kept, Joints, Places, Apart, SetKind, Tracks, TracksOne;
      KeptInsert(Account(), runs, mapBias, chunkNpages, runPages, c, k, maybePred, maybeSucc);
      KeptChunk(Account(), runs, mapBias, chunkNpages, runPages, c);
      var ch := chunks[c];
      assert npages == ch.bits[pageind].size;
      if ch.ndirty != 0 {
        chunksDirty := chunksDirty - {c};
      }
      var dirty;
      ch, dirty := CountIn(ch, pageind, npages, maybePred, maybeSucc);
      assert ch.nrunsAvail > ch.nrunsAdjac;
      ndirty := ndirty + dirty;
      PlacesSame(chunks, c, ch);
      chunks := chunks[c := ch];
      if ch.ndirty != 0 {
        chunksDirty := chunksDirty + {c};
      }
      runsAvail := runsAvail + {(c, pageind)};
      TracksSet(old(chunks), runs, c, ch, k, Free);
      runs := runs[c := SetKind(runs[c], k, Free)];
      assert chunksDirty == Relisted(old(chunksDirty), c, ch.ndirty);
    }

    // The map entries of runs k up to m, none of them free, are rewritten, which takes pages
    // into use or out of it.
    method Remap(c: nat, bits: seq<Entry>, gained: int, ghost k: int, ghost m: int, ghost mid: seq<Run>)
      requires Consistent() && c < |runs| && 0 <= k < m <= |runs[c]| && NoFree(runs[c][k..m]) && NoFree(mid)
      requires Tiles(mid, runs[c][k].start, End(runs[c][m - 1])) && Marks(bits, mid) && SizesFit(mid, runPages)
      requires c < |chunks| && Outside(chunks[c].bits, bits, runs[c][k].start, End(runs[c][m - 1]))
      requires gained == ActivePages(mid) - ActivePages(runs[c][k..m])
      modifies this`chunks, this`nactive, this`runs
      ensures Consistent() && runs == old(runs)[c := Splice(old(runs[c]), k, m, mid)]
      ensures Places(chunks) == old(Places(chunks))
      ensures TracksOne(old(chunks[c]).bits, old(runs[c])[k..m], bits, mid) ==>
                Tracks(old(chunks), old(runs), chunks, runs)
    {
      hide Kept, Places, Tiles, Marks, SizesFit, NoFree, Outside, ActivePages, Splice, Tracks, TracksOne;
      ghost var rs, was := runs[c], chunks[c].bits;
      KeptSizes(Account(), runs, mapBias, chunkNpages, runPages);
      KeptRetile(Account(), runs, mapBias, chunkNpages, runPages, c, bits, k, m, mid);
      PlacesSame(chunks, c, chunks[c].(bits := bits));
      chunks := chunks[c := chunks[c].(bits := bits)];
      nactive := nactive + gained;
      if TracksOne(was, rs[k..m], bits, mid) {
        TracksSplice(was, rs, k, m, bits, mid);
        TracksIn(old(chunks), runs, c, chunks[c], Splice(rs, k, m, mid));
      }
      runs := runs[c := Splice(runs[c], k, m, mid)];
    }

    // arena_run_split_remove: the first pages of a free run are taken, the others stay free.
    method RunSplitRemove(c: nat, runInd: nat, flagDirty: bool, needPages: nat, ghost k: int)
      requires Consistent() && c < |runs| && 0 <= k < |runs[c]| && OthersSettled(runs[c], k)
      requires runs[c][k].kind.Free? && runInd == runs[c][k].start && flagDirty == runs[c][k].dirty
      requires 0 < needPages <= runs[c][k].pages
      modifies this`chunks, this`nactive, this`ndirty, this`runsAvail, this`chunksDirty, this`runs
      ensures Consistent() && runs == old(runs)[c := Split(old(runs[c]), k, needPages, Taken)]
      ensures Places(chunks) == old(Places(chunks))
      ensures Tracks(old(chunks), old(runs), chunks, runs)
    {
      hide Kept, Splice, Split, Places, OthersSettled, Tiles, Marks, Apart, Tracks, TracksOne;
      KeptChunk(Account(), runs, mapBias, chunkNpages, runPages, c);
      KeptRun(Account(), runs, mapBias, chunkNpages, runPages, c, k);
      var totalPages := chunks[c].bits[runInd].size;
      ghost var rs := runs[c];
      ghost var r := rs[k];
      SettledAskable(rs, k);
      AvailRemove(c, runInd, totalPages, true, true, k);
      ghost var c1, r1 := chunks, runs;
      if needPages < totalPages {
        KeepRest(c, runInd, flagDirty, totalPages, needPages, k, rs);
      } else {
        KeptChunk(Account(), runs, mapBias, chunkNpages, runPages, c);
        assert runs[c][k..k + 1] == [r.(kind := Loose)];
        OneRun(chunks[c].bits, r.(kind := Taken));
        ghost var was, now := [r.(kind := Loose)], [r.(kind := Taken)];
        TracksUniform(chunks[c].bits, chunks[c].bits, was, now, r.start, End(r), r.dirty, r.dirty);
        Remap(c, chunks[c].bits, needPages, k, k + 1, [r.(kind := Taken)]);
        SplitWhole(rs, k, Taken);
      }
      TracksThen(old(chunks), old(runs), c1, r1, chunks, runs);
    }

    // The trailing unused pages of a run become a free run.
    method KeepRest(c: nat, runInd: nat, flagDirty: bool, totalPages: nat, needPages: nat, ghost k: int,
        ghost rs: seq<Run>)
      requires 0 <= k < |rs| && OthersSettled(rs, k) && Alternates(rs) && rs[k].kind.Free?
      requires Consistent() && c < |runs| && runs[c] == SetKind(rs, k, Loose)
      requires runInd == rs[k].start && flagDirty == rs[k].dirty && totalPages == rs[k].pages
      requires 0 < needPages < totalPages
      requires runInd + totalPages <= chunkNpages
      modifies this`chunks, this`nactive, this`ndirty, this`runsAvail, this`chunksDirty, this`runs
      ensures Consistent() && runs == old(runs)[c := Split(rs, k, needPages, Taken)]
      ensures Places(chunks) == old(Places(chunks))
      ensures Tracks(old(chunks), old(runs), chunks, runs)
    {
      hide Kept, Splice, Split, Places, OthersSettled, Tiles, Marks, Apart, Alternates,
           Tracks, TracksOne;
      KeptChunk(Account(), runs, mapBias, chunkNpages, runPages, c);
      ghost var r := rs[k];
      var remPages := totalPages - needPages;
      var bits := chunks[c].bits;
      assert runs[c][k..k + 1] == [r.(kind := Loose)];
      bits := bits[runInd + needPages :=
          UnallocatedSet(remPages, flagDirty, !flagDirty && bits[runInd + needPages].unzeroed)];
      bits := bits[runInd + totalPages - 1 :=
          UnallocatedSet(remPages, flagDirty, !flagDirty && bits[runInd + totalPages - 1].unzeroed)];
      LooseCut(chunks[c].bits, bits, r, needPages);
      ghost var mid := [Run(r.start, needPages, Taken, r.dirty), Run(r.start + needPages, remPages, Loose, r.dirty)];
      TracksUniform(chunks[c].bits, bits, [r.(kind := Loose)], mid, r.start, End(r), r.dirty, r.dirty);
      Remap(c, bits, needPages, k, k + 1, mid);
      ghost var c1, r1 := chunks, runs;
      SplitReady(rs, k, needPages);
      AvailInsert(c, runInd + needPages, remPages, false, true, k + 1);
      TracksThen(old(chunks), old(runs), c1, r1, chunks, runs);
      SplitSteps(rs, k, needPages);
    }

    // The zeroing of a run: all its pages if it is dirty, else those that may hold something.
    method ZeroPages(bits: seq<Entry>, runInd: nat, needPages: nat, flagDirty: bool, zero: bool)
        returns (cleared: set<nat>)
      requires runInd + needPages <= |bits|
      ensures forall p :: p in cleared <==> zero && runInd <= p < runInd + needPages && (flagDirty || bits[p].unzeroed)
    {
      cleared := {};
      if zero {
        if flagDirty {
          cleared := set p: nat | p < runInd + needPages && AtOrBehind(p, runInd);
        } else {
          for i := 0 to needPages
            invariant forall p :: p in cleared <==> runInd <= p < runInd + i && bits[p].unzeroed
          {
            if bits[runInd + i].unzeroed {
              cleared := cleared + {runInd + i};
            }
          }
        }
      }
    }

    // The entries of a large run: its size with the first page.
    method MarkLarge(c: nat, runInd: nat, size: nat, flagDirty: bool, ghost k: int)
      requires Consistent() && c < |runs| && 0 <= k < |runs[c]| && runs[c][k] == Run(runInd, size, Taken, flagDirty)
      modifies this`chunks, this`nactive, this`runs
      ensures Consistent()
      ensures runs == old(runs)[c := Splice(old(runs[c]), k, k + 1, [Run(runInd, size, Large, flagDirty)])]
      ensures Places(chunks) == old(Places(chunks)) && Tracks(old(chunks), old(runs), chunks, runs)
    {
      hide Kept, Splice, Places, Tiles, Marks, Tracks, TracksOne;
      KeptChunk(Account(), runs, mapBias, chunkNpages, runPages, c);
      KeptRun(Account(), runs, mapBias, chunkNpages, runPages, c, k);
      var bits := chunks[c].bits;
      bits := bits[runInd + size - 1 := LargeSet(bits[runInd + size - 1], 0, flagDirty)];
      bits := bits[runInd := LargeSet(bits[runInd], size, flagDirty)];
      ghost var taken := runs[c][k];
      assert runs[c][k..k + 1] == [taken];
      OneRun(bits, taken.(kind := Large));
      OneRun(bits, taken);
      TracksUniform(chunks[c].bits, bits, [taken], [taken.(kind := Large)], runInd, runInd + size, flagDirty,
          flagDirty);
      Remap(c, bits, 0, k, k + 1, [taken.(kind := Large)]);
    }

    // arena_run_split_large; cleared are the pages that are filled with zeros.
    method RunSplitLarge(c: nat, runInd: nat, size: nat, zero: bool, ghost k: int) returns (cleared: set<nat>)
      requires Consistent() && c < |runs| && 0 <= k < |runs[c]| && OthersSettled(runs[c], k)
      requires runs[c][k].kind.Free? && runInd == runs[c][k].start && 0 < size <= runs[c][k].pages
      modifies this`chunks, this`nactive, this`ndirty, this`runsAvail, this`chunksDirty, this`runs
      ensures Consistent() && runs == old(runs)[c := Split(old(runs[c]), k, size, Large)]
      ensures Places(chunks) == old(Places(chunks))
      ensures Tracks(old(chunks), old(runs), chunks, runs)
      // If zeros are wanted, exactly the pages of the run are filled that may hold anything else.
      ensures |old(chunks)| == |old(runs)| && forall p :: p in cleared <==>
                zero && runInd <= p < runInd + size && Suspect(old(chunks)[c].bits, old(runs)[c], p)
    {
      hide Kept, Splice, Places, OthersSettled, Tiles, Marks, Tracks, TracksOne, Suspect;
      KeptChunk(Account(), runs, mapBias, chunkNpages, runPages, c);
      KeptRun(Account(), runs, mapBias, chunkNpages, runPages, c, k);
      ghost var rs := runs[c];
      ghost var r := rs[k];
      var flagDirty := chunks[c].bits[runInd].dirty;
      RunSplitRemove(c, runInd, flagDirty, size, k);
      ghost var c1, r1 := chunks, runs;
      SplitAt(rs, k, size, Taken);
      KeptChunk(Account(), runs, mapBias, chunkNpages, runPages, c);
      KeptRun(Account(), runs, mapBias, chunkNpages, runPages, c, k);
      cleared := ZeroPages(chunks[c].bits, runInd, size, flagDirty, zero);
      SplitSuspects(old(chunks), old(runs), chunks, runs, mapBias, chunkNpages, c, k, size, zero, cleared);
      MarkLarge(c, runInd, size, flagDirty, k);
      TracksThen(old(chunks), old(runs), c1, r1, chunks, runs);
      SplitRenamed(rs, k, size, Large);
    }

    // arena_run_split_small
    method RunSplitSmall(c: nat, runInd: nat, binind: nat, ghost k: int)
      requires Consistent() && c < |runs| && 0 <= k < |runs[c]| && OthersSettled(runs[c], k)
      requires runs[c][k].kind.Free? && runInd == runs[c][k].start && 0 < runPages(binind) <= runs[c][k].pages
      modifies this`chunks, this`nactive, this`ndirty, this`runsAvail, this`chunksDirty, this`runs
      ensures Consistent() && runs == old(runs)[c := Split(old(runs[c]), k, runPages(binind), Small(binind))]
      ensures Places(chunks) == old(Places(chunks))
      ensures Tracks(old(chunks), old(runs), chunks, runs)
    {
      hide Kept, Splice, Places, OthersSettled, Tiles, Marks, Tracks, TracksOne;
      KeptChunk(Account(), runs, mapBias, chunkNpages, runPages, c);
      KeptRun(Account(), runs, mapBias, chunkNpages, runPages, c, k);
      ghost var rs := runs[c];
      ghost var r := rs[k];
      var flagDirty := chunks[c].bits[runInd].dirty;
      var needPages := runPages(binind);
      RunSplitRemove(c, runInd, flagDirty, needPages, k);
      ghost var c1, r1 := chunks, runs;
      KeptChunk(Account(), runs, mapBias, chunkNpages, runPages, c);
      var bits := MarkSmall(chunks[c].bits, runInd, needPages, binind, flagDirty);
      ghost var taken := Run(r.start, needPages, Taken, r.dirty);
      SplitAt(rs, k, needPages, Taken);
      assert runs[c][k..k + 1] == [taken];
      OneRun(bits, taken.(kind := Small(binind)));
      OneRun(bits, taken);
      TracksUniform(chunks[c].bits, bits, [taken], [taken.(kind := Small(binind))], r.start, r.start + needPages,
          r.dirty, r.dirty);
      Remap(c, bits, 0, k, k + 1, [taken.(kind := Small(binind))]);
      TracksThen(old(chunks), old(runs), c1, r1, chunks, runs);
      SplitRenamed(rs, k, needPages, Small(binind));
    }

    // The entries of a small run: each page knows its distance from the first.
    method MarkSmall(entries: seq<Entry>, runInd: nat, needPages: nat, binind: nat, flagDirty: bool)
        returns (bits: seq<Entry>)
      requires 0 < needPages && runInd + needPages <= |entries|
      ensures Outside(entries, bits, runInd, runInd + needPages)
      ensures forall p :: 0 <= p < |bits| ==> bits[p].unzeroed == entries[p].unzeroed
      ensures Marked(bits, Run(runInd, needPages, Small(binind), flagDirty))
    {
      bits := entries[runInd := SmallSet(entries[runInd], 0, binind, flagDirty)];
      var i := 1;
      while i < needPages - 1
        invariant 1 <= i <= needPages
        invariant Outside(entries, bits, runInd, runInd + needPages)
        invariant forall p :: runInd <= p < runInd + i ==> SmallMark(bits[p], p - runInd, binind)
        invariant bits[runInd].dirty == flagDirty
        invariant forall p :: 0 <= p < |bits| ==> bits[p].unzeroed == entries[p].unzeroed
      {
        bits := bits[runInd + i := SmallSet(bits[runInd + i], i, binind, false)];
        i := i + 1;
      }
      var last := runInd + needPages - 1;
      bits := bits[last := SmallSet(bits[last], needPages - 1, binind, flagDirty)];
    }

    // The forward half of arena_run_coalesce.
    method CoalesceForward(c: nat, runInd: nat, size: nat, flagDirty: bool, ghost k: int) returns (runPages': nat)
      requires Consistent() && c < |runs| && 0 <= k < |runs[c]| && OthersSettled(runs[c], k)
      requires runs[c][k].kind.Loose? && runInd == runs[c][k].start && size == runs[c][k].pages
      requires flagDirty == runs[c][k].dirty
      modifies this`chunks, this`nactive, this`ndirty, this`runsAvail, this`chunksDirty, this`runs
      ensures Consistent() && runs == old(runs)[c := MergedNext(old(runs[c]), k)]
      ensures Places(chunks) == old(Places(chunks)) && runPages' == runs[c][k].pages
      ensures Tracks(old(chunks), old(runs), chunks, runs)
    {
      hide Kept, Splice, Places, OthersSettled, Tiles, Marks, Alternates, NoFree,
           Tracks, TracksOne;
      KeptChunk(Account(), runs, mapBias, chunkNpages, runPages, c);
      KeptRun(Account(), runs, mapBias, chunkNpages, runPages, c, k);
      NextEntry(chunks[c].bits, runs[c], mapBias, chunkNpages, k);
      runPages' := size;
      ghost var rs := runs[c];
      KeptSizes(Account(), runs, mapBias, chunkNpages, runPages);
      TracksSame(chunks, runs);
      var bits := chunks[c].bits;
      var next := runInd + size;
      if next < chunkNpages && !bits[next].inUse && bits[next].dirty == flagDirty {
        var nrunPages := bits[next].size;
        NextRemovable(rs, k);
        AvailRemove(c, next, nrunPages, false, true, k + 1);
        ghost var c1, r1 := chunks, runs;
        runPages' := runPages' + nrunPages;
        JoinLoose(c, runInd, runPages', k);
        TracksThen(old(chunks), old(runs), c1, r1, chunks, runs);
        JoinedAt(SetKind(rs, k + 1, Loose), k);
      }
    }

    // Two loose runs become one.
    method JoinLoose(c: nat, runInd: nat, runPages': nat, ghost k: int)
      requires Consistent() && c < |runs| && 0 <= k < |runs[c]| - 1 && runs[c][k].kind.Loose?
      requires runs[c][k + 1].kind.Loose?
      requires runs[c][k].dirty == runs[c][k + 1].dirty && runInd == runs[c][k].start
      requires runPages' == runs[c][k].pages + runs[c][k + 1].pages
      modifies this`chunks, this`nactive, this`runs
      ensures Consistent() && runs == old(runs)[c := Joined(old(runs[c]), k)]
      ensures Places(chunks) == old(Places(chunks))
      ensures Tracks(old(chunks), old(runs), chunks, runs)
    {
      hide Kept, Splice, Places, Tiles, Marks, NoFree, Tracks, TracksOne;
      KeptChunk(Account(), runs, mapBias, chunkNpages, runPages, c);
      KeptRun(Account(), runs, mapBias, chunkNpages, runPages, c, k);
      KeptRun(Account(), runs, mapBias, chunkNpages, runPages, c, k + 1);
      NextMeets(runs[c], mapBias, chunkNpages, k);
      var bits := chunks[c].bits;
      bits := bits[runInd := bits[runInd].(size := runPages')];
      var last := runInd + runPages' - 1;
      bits := bits[last := bits[last].(size := runPages')];
      LooseJoin(chunks[c].bits, bits, runs[c], k);
      TracksUniform(chunks[c].bits, bits, runs[c][k..k + 2], [JoinedRun(runs[c], k)], runInd, runInd + runPages',
          runs[c][k].dirty, runs[c][k].dirty);
      Remap(c, bits, 0, k, k + 2, [JoinedRun(runs[c], k)]);
    }

    // The backward half of arena_run_coalesce.
    method CoalesceBackward(c: nat, runInd: nat, size: nat, flagDirty: bool, ghost k: int)
        returns (runInd': nat, runPages': nat)
      requires Consistent() && c < |runs| && 0 <= k < |runs[c]| && OthersSettled(runs[c], k)
      requires runs[c][k].kind.Loose? && runInd == runs[c][k].start && size == runs[c][k].pages
      requires flagDirty == runs[c][k].dirty
      modifies this`chunks, this`nactive, this`ndirty, this`runsAvail, this`chunksDirty, this`runs
      ensures Consistent() && runs == old(runs)[c := MergedPrev(old(runs[c]), k)]
      ensures Places(chunks) == old(Places(chunks))
      ensures Tracks(old(chunks), old(runs), chunks, runs)
      ensures var k' := MergedAt(old(runs[c]), k); runInd' == runs[c][k'].start && runPages' == runs[c][k'].pages
    {
      hide Kept, Splice, Places, OthersSettled, Tiles, Marks, Alternates, NoFree,
           Tracks, TracksOne;
      KeptChunk(Account(), runs, mapBias, chunkNpages, runPages, c);
      KeptRun(Account(), runs, mapBias, chunkNpages, runPages, c, k);
      PrevEntry(chunks[c].bits, runs[c], mapBias, chunkNpages, k);
      runInd', runPages' := runInd, size;
      ghost var rs := runs[c];
      KeptSizes(Account(), runs, mapBias, chunkNpages, runPages);
      TracksSame(chunks, runs);
      var bits := chunks[c].bits;
      if runInd > mapBias && !bits[runInd - 1].inUse && bits[runInd - 1].dirty == flagDirty {
        var prunPages := bits[runInd - 1].size;
        runInd' := runInd' - prunPages;
        PrevRemovable(rs, k);
        AvailRemove(c, runInd', prunPages, true, false, k - 1);
        ghost var c1, r1 := chunks, runs;
        runPages' := runPages' + prunPages;
        JoinLoose(c, runInd', runPages', k - 1);
        TracksThen(old(chunks), old(runs), c1, r1, chunks, runs);
        JoinedAt(SetKind(rs, k - 1, Loose), k - 1);
      }
    }

    // arena_run_coalesce
    method RunCoalesce(c: nat, runInd: nat, size: nat, flagDirty: bool, ghost k: int)
        returns (runInd': nat, runPages': nat)
      requires Consistent() && c < |runs| && 0 <= k < |runs[c]| && OthersSettled(runs[c], k)
      requires runs[c][k].kind.Loose? && runInd == runs[c][k].start && size == runs[c][k].pages
      requires flagDirty == runs[c][k].dirty
      modifies this`chunks, this`nactive, this`ndirty, this`runsAvail, this`chunksDirty, this`runs
      ensures Consistent() && runs == old(runs)[c := Coalesced(old(runs[c]), k)]
      ensures Places(chunks) == old(Places(chunks))
      ensures Tracks(old(chunks), old(runs), chunks, runs)
      ensures var k' := CoalescedAt(old(runs[c]), k); runInd' == runs[c][k'].start && runPages' == runs[c][k'].pages
    {
      hide Kept, Places, MergedNext, MergedPrev, OthersSettled, Tracks, TracksOne;
      ghost var rs := runs[c];
      var pages := CoalesceForward(c, runInd, size, flagDirty, k);
      ghost var c1, r1 := chunks, runs;
      MergedNextRun(rs, k);
      runInd', runPages' := CoalesceBackward(c, runInd, pages, flagDirty, k);
      TracksThen(old(chunks), old(runs), c1, r1, chunks, runs);
    }

    // Between operations only idle chunks have a run that is neither free nor held.
    ghost predicate Valid()
      reads this
    {
      Consistent() && Shelved(Places(chunks), runs, spare)
    }

    // arena_chunk_dealloc: a chunk without runs in use becomes the spare.
    method ChunkDealloc(c: nat)
      requires Consistent() && c < |runs| && |runs[c]| == 1 && runs[c][0].kind.Free? && -1 <= spare < |chunks|
      modifies this`chunks, this`ndirty, this`runsAvail, this`chunksDirty, this`runs, this`spare
      ensures Consistent() && runs == old(runs)[c := SetKind(old(runs[c]), 0, Loose)] && spare == c
      ensures Places(chunks) == Unmapped(old(Places(chunks)), old(spare))
      ensures Tracks(old(chunks), old(runs), chunks, runs)
    {
      hide Kept, Places, Tracks;
      KeptRun(Account(), runs, mapBias, chunkNpages, runPages, c, 0);
      KeptChunk(Account(), runs, mapBias, chunkNpages, runPages, c);
      WholeRun(runs[c], mapBias, chunkNpages);
      AvailRemove(c, mapBias, chunkNpages - mapBias, false, false, 0);
      if spare != -1 {
        var was := spare;
        spare := c;
        ghost var c1, r1 := chunks, runs;
        Unmap(was);
        TracksThen(old(chunks), old(runs), c1, r1, chunks, runs);
      } else {
        spare := c;
      }
    }

    // A chunk goes back to where it came from.
    method Unmap(c: nat)
      requires Consistent() && c < |chunks| == |runs|
      modifies this`chunks
      ensures Consistent() && Places(chunks) == Unmapped(old(Places(chunks)), c)
      ensures Tracks(old(chunks), old(runs), chunks, runs)
    {
      hide Kept, TracksOne;
      TracksBits(chunks, runs, c);
      KeptUnmap(Account(), runs, mapBias, chunkNpages, runPages, c);
      chunks := chunks[c := chunks[c].(mapped := false)];
    }

    // A run goes out of use and becomes a free one, with its free neighbours if they are
    // of the same dirtiness.
    method FreeRun(c: nat, runInd: nat, dirty: bool, cleaned: bool, ghost k: int) returns (pages: nat)
      requires Consistent() && c < |runs| && 0 <= k < |runs[c]| && OthersSettled(runs[c], k) && Owned(runs[c][k])
      requires runInd == runs[c][k].start
      modifies this`chunks, this`nactive, this`ndirty, this`runsAvail, this`chunksDirty, this`runs
      ensures Consistent() && Places(chunks) == old(Places(chunks))
      ensures runs == old(runs)[c := Freed(old(runs[c]), k, dirty || (!cleaned && old(runs[c][k].dirty)))]
      ensures pages == chunkNpages - mapBias <==> |runs[c]| == 1
      ensures !cleaned ==> Tracks(old(chunks), old(runs), chunks, runs)
    {
      hide Kept, Places, Coalesced, CoalescedAt, Settled, Alternates, Freed, Dropped, SetKind, Unmapped, OthersSettled,
           Apart, Tiles, Marked, Tracks;
      ghost var rs := runs[c];
      ghost var d := dirty || (!cleaned && rs[k].dirty);
      var flagDirty := DropRun(c, runInd, dirty, cleaned, k);
      ghost var c1, r1 := chunks, runs;
      ghost var dropped := Dropped(rs, k, d);
      DroppedReady(rs, k, d);
      KeptRun(Account(), runs, mapBias, chunkNpages, runPages, c, k);
      var at, n := RunCoalesce(c, runInd, RunSize(c, runInd, k), flagDirty, k);
      pages := n;
      ghost var c2, r2 := chunks, runs;
      CoalescedRun(dropped, k);
      ghost var k' := CoalescedAt(dropped, k);
      SettledAskable(Coalesced(dropped, k), k');
      AvailInsert(c, at, pages, true, true, k');
      FreedIs(rs, k, d);
      TracksThen(c1, r1, c2, r2, chunks, runs);
      if !cleaned { TracksThen(old(chunks), old(runs), c1, r1, chunks, runs); }
      KeptRun(Account(), runs, mapBias, chunkNpages, runPages, c, k');
      WholeOnly(runs[c], mapBias, chunkNpages, k');
    }

    // arena_run_dalloc, up to the purging of dirty pages.
    method RunDalloc(c: nat, runInd: nat, dirty: bool, cleaned: bool, ghost k: int)
      requires Valid() && c < |runs| && 0 <= k < |runs[c]| && Owned(runs[c][k]) && runInd == runs[c][k].start
      modifies this`chunks, this`nactive, this`ndirty, this`runsAvail, this`chunksDirty, this`runs, this`spare
      ensures Valid()
      ensures var t := Freed(old(runs[c]), k, dirty || (!cleaned && old(runs[c][k].dirty)));
              && runs == old(runs)[c := Rested(t)] && spare == (if |t| == 1 then c else old(spare))
              && Places(chunks) == if |t| == 1 then Unmapped(old(Places(chunks)), old(spare)) else old(Places(chunks))
      ensures HeldIn(runs[c]) == HeldIn(old(runs[c])) - {old(runs[c][k])}
      ensures !cleaned ==> Tracks(old(chunks), old(runs), chunks, runs)
      ensures dirty ==>
                forall p :: old(runs[c][k]).start <= p < End(old(runs[c][k])) ==> DirtyPage(runs[c], p)
    {
      hide Kept, Places, Freed, SetKind, Unmapped, Live, Idle, HeldIn, Tracks, DirtyPage;
      ghost var places := Places(chunks);
      ShelvedLive(places, runs, spare, c, k);
      KeptRun(Account(), runs, mapBias, chunkNpages, runPages, c, k);
      HeldRested(runs[c], mapBias, chunkNpages, k, dirty || (!cleaned && runs[c][k].dirty));
      ghost var d := dirty || (!cleaned && runs[c][k].dirty);
      var pages := FreeRun(c, runInd, dirty, cleaned, k);
      ghost var t := runs[c];
      if dirty { DirtyFreed(old(runs[c]), mapBias, chunkNpages, k); }
      ShelvedFreed(places, old(runs), spare, c, k, d);
      if pages == chunkNpages - mapBias {
        ghost var c1, r1 := chunks, runs;
        ChunkDealloc(c);
        if !cleaned { TracksThen(old(chunks), old(runs), c1, r1, chunks, runs); }
        ShelvedRested(places, old(runs), old(spare), c, t);
      }
    }

    // The size that the map gives an unallocated run.
    function RunSize(c: nat, runInd: nat, ghost k: int): (n: nat)
      requires Consistent() && c < |runs| && 0 <= k < |runs[c]| && runs[c][k].kind.Loose? && runInd == runs[c][k].start
      reads this
      ensures n == runs[c][k].pages
    {
      KeptRun(Account(), runs, mapBias, chunkNpages, runPages, c, k);
      chunks[c].bits[runInd].size
    }

    // A run's pages go out of use, marked unallocated and with their dirty flag.
    method DropRun(c: nat, runInd: nat, dirty: bool, cleaned: bool, ghost k: int) returns (flagDirty: bool)
      requires Consistent() && c < |runs| && 0 <= k < |runs[c]| && Owned(runs[c][k]) && runInd == runs[c][k].start
      modifies this`chunks, this`nactive, this`runs
      ensures flagDirty == (dirty || (!cleaned && old(runs[c][k].dirty)))
      ensures Consistent() && runs == old(runs)[c := Dropped(old(runs[c]), k, flagDirty)]
      ensures Places(chunks) == old(Places(chunks))
      ensures !cleaned ==> Tracks(old(chunks), old(runs), chunks, runs)
    {
      hide Kept, Places, Splice, Tiles, Marks, Tracks, TracksOne;
      KeptRun(Account(), runs, mapBias, chunkNpages, runPages, c, k);
      ghost var r := runs[c][k];
      var bits := chunks[c].bits;
      if r.kind.Small? { assert SmallMark(bits[runInd], 0, r.kind.binind); }
      var size := if bits[runInd].large then bits[runInd].size else runPages(bits[runInd].binind);
      flagDirty := dirty || (!cleaned && bits[runInd].dirty);
      var last := runInd + size - 1;
      bits := bits[runInd := UnallocatedSet(size, flagDirty, !flagDirty && bits[runInd].unzeroed)];
      bits := bits[last := UnallocatedSet(size, flagDirty, !flagDirty && bits[last].unzeroed)];
      ghost var free := Run(r.start, r.pages, Loose, flagDirty);
      OneRun(bits, free);
      OneRun(chunks[c].bits, r);
      assert runs[c][k..k + 1] == [r];
      DroppedSplice(runs[c], k, flagDirty);
      if !cleaned {
        TracksUniform(chunks[c].bits, bits, [r], [free], r.start, End(r), r.dirty, flagDirty);
      }
      Remap(c, bits, -size, k, k + 1, [free]);
    }

    // A held run is cut in two large runs, so that one part can be freed.
    method CutLarge(c: nat, pageind: nat, headNpages: nat, tailNpages: nat, ghost k: int)
      requires Valid() && c < |runs| && 0 <= k < |runs[c]| && runs[c][k].kind.Large? && pageind == runs[c][k].start
      requires 0 < headNpages && 0 < tailNpages && headNpages + tailNpages == runs[c][k].pages
      modifies this`chunks, this`nactive, this`runs
      ensures Valid() && runs == old(runs)[c := Split(old(runs[c]), k, headNpages, Large)]
      ensures Places(chunks) == old(Places(chunks))
      ensures Tracks(old(chunks), old(runs), chunks, runs)
    {
      hide Kept, Places, Splice, Split, Tiles, Marks, Live, Idle, Tracks, TracksOne;
      KeptRun(Account(), runs, mapBias, chunkNpages, runPages, c, k);
      ghost var r := runs[c][k];
      var bits := chunks[c].bits;
      var flagDirty := bits[pageind].dirty;
      assert bits[pageind].size == headNpages + tailNpages;
      bits := bits[pageind + headNpages - 1 := LargeSet(bits[pageind + headNpages - 1], 0, flagDirty)];
      bits := bits[pageind := LargeSet(bits[pageind], headNpages, flagDirty)];
      assert tailNpages > 1 ==> bits[pageind + headNpages + tailNpages - 1].size == 0;
      assert bits[pageind + headNpages + tailNpages - 1].dirty == flagDirty;
      bits := bits[pageind + headNpages := LargeSet(bits[pageind + headNpages], tailNpages, flagDirty)];
      LargeCut(chunks[c].bits, bits, r, headNpages);
      assert runs[c][k..k + 1] == [r];
      LargeSplit(runs[c], k, headNpages);
      ShelvedLive(Places(chunks), runs, spare, c, k);
      ShelvedSplit(Places(chunks), runs, spare, c, k, headNpages, Large);
      ghost var mid :=
        [Run(r.start, headNpages, Large, r.dirty), Run(r.start + headNpages, tailNpages, Large, r.dirty)];
      TracksUniform(chunks[c].bits, bits, [r], mid, r.start, End(r), r.dirty, r.dirty);
      Remap(c, bits, 0, k, k + 1, mid);
    }

    // arena_run_trim_head
    method RunTrimHead(c: nat, pageind: nat, oldsize: nat, newsize: nat, ghost k: int)
      requires Valid() && c < |runs| && 0 <= k < |runs[c]| && runs[c][k].kind.Large? && pageind == runs[c][k].start
      requires oldsize == runs[c][k].pages && 0 < newsize < oldsize
      modifies this`chunks, this`nactive, this`ndirty, this`runsAvail, this`chunksDirty, this`runs, this`spare
      ensures Valid() && spare == old(spare) && Places(chunks) == old(Places(chunks))
      ensures Tracks(old(chunks), old(runs), chunks, runs)
      ensures var r := old(runs[c][k]);
              && runs == old(runs)[c := Freed(Split(old(runs[c]), k, oldsize - newsize, Large), k, r.dirty)]
              && HeldIn(runs[c]) == HeldIn(old(runs[c])) - {r}
                  + {Run(r.start + oldsize - newsize, newsize, Large, r.dirty)}
    {
      hide Kept, Places, Split, Freed, HeldIn, SetKind, Live, Idle, Unmapped, Shelved, Rested, Tiles, Marks,
           Alternates, OthersSettled, Tracks;
      ghost var rs := runs[c];
      KeptRun(Account(), runs, mapBias, chunkNpages, runPages, c, k);
      ShelvedLive(Places(chunks), runs, spare, c, k);
      CutLarge(c, pageind, oldsize - newsize, newsize, k);
      ghost var c1, r1 := chunks, runs;
      LargeSplitRuns(rs, k, oldsize - newsize);
      KeptRun(Account(), runs, mapBias, chunkNpages, runPages, c, k);
      Trimmed(rs, mapBias, chunkNpages, k, oldsize - newsize, k, rs[k].dirty);
      RunDalloc(c, pageind, false, false, k);
      TracksThen(old(chunks), old(runs), c1, r1, chunks, runs);
    }

    // arena_run_trim_tail
    method RunTrimTail(c: nat, pageind: nat, oldsize: nat, newsize: nat, dirty: bool, ghost k: int)
      requires Valid() && c < |runs| && 0 <= k < |runs[c]| && runs[c][k].kind.Large? && pageind == runs[c][k].start
      requires oldsize == runs[c][k].pages && 0 < newsize < oldsize
      modifies this`chunks, this`nactive, this`ndirty, this`runsAvail, this`chunksDirty, this`runs, this`spare
      ensures Valid() && spare == old(spare) && Places(chunks) == old(Places(chunks))
      ensures Tracks(old(chunks), old(runs), chunks, runs)
      ensures var r := old(runs[c][k]);
              && runs == old(runs)[c := Freed(Split(old(runs[c]), k, newsize, Large), k + 1, dirty || r.dirty)]
              && HeldIn(runs[c]) == HeldIn(old(runs[c])) - {r} + {Run(r.start, newsize, Large, r.dirty)}
    {
      hide Kept, Places, Split, Freed, HeldIn, SetKind, Live, Idle, Unmapped, Shelved, Rested, Tiles, Marks,
           Alternates, OthersSettled, Tracks;
      ghost var rs := runs[c];
      KeptRun(Account(), runs, mapBias, chunkNpages, runPages, c, k);
      ShelvedLive(Places(chunks), runs, spare, c, k);
      CutLarge(c, pageind, newsize, oldsize - newsize, k);
      ghost var c1, r1 := chunks, runs;
      LargeSplitRuns(rs, k, newsize);
      KeptRun(Account(), runs, mapBias, chunkNpages, runPages, c, k + 1);
      Trimmed(rs, mapBias, chunkNpages, k, newsize, k + 1, dirty || rs[k].dirty);
      RunDalloc(c, pageind + newsize, dirty, false, k + 1);
      TracksThen(old(chunks), old(runs), c1, r1, chunks, runs);
    }

    // arena_dalloc_bin_run: of a small run, the pages that were never touched stay clean.
    method DallocBinRun(c: nat, runInd: nat, touched: nat, ghost k: int)
      requires Valid() && c < |runs| && 0 <= k < |runs[c]| && runs[c][k].kind.Small? && runInd == runs[c][k].start
      requires 0 < touched
      modifies this`chunks, this`nactive, this`ndirty, this`runsAvail, this`chunksDirty, this`runs, this`spare
      ensures Valid() && |runs| == |old(runs)| && HeldIn(runs[c]) == HeldIn(old(runs[c])) - {old(runs[c][k])}
      ensures forall d :: 0 <= d < |runs| && d != c ==> runs[d] == old(runs[d])
      ensures Tracks(old(chunks), old(runs), chunks, runs)
      ensures var r := old(runs[c][k]);
              forall p :: r.start <= p < r.start + touched && p < End(r) ==> DirtyPage(runs[c], p)
      ensures var r := old(runs[c][k]);
              && (!r.dirty && touched < r.pages ==>
                    && FreePages(runs[c], r.start, r.start + touched, true)
                    && FreePages(runs[c], r.start + touched, End(r), false))
              && ((r.dirty || r.pages <= touched) && spare != c ==> FreePages(runs[c], r.start, End(r), true))
    {
      hide Kept, Places, Freed, SetKind, Live, Idle, HeldIn, Split, FreePages, Unmapped, Shelved, Alternates,
           OthersSettled, Marks, Tiles, Tracks, DirtyPage;
      ghost var rs := runs[c];
      ghost var r := rs[k];
      KeptRun(Account(), runs, mapBias, chunkNpages, runPages, c, k);
      ShelvedLive(Places(chunks), runs, spare, c, k);
      var bits := chunks[c].bits;
      KeptSizes(Account(), runs, mapBias, chunkNpages, runPages);
      TracksSame(chunks, runs);
      assert SmallMark(bits[runInd], 0, r.kind.binind);
      var npages := runPages(bits[runInd].binind);
      if !bits[runInd].dirty && touched < npages {
        TrimUntouched(c, runInd, npages, touched, k);
        ShelvedLive(Places(chunks), runs, spare, c, k);
        KeptRun(Account(), runs, mapBias, chunkNpages, runPages, c, k);
        FreedCovers(runs[c], mapBias, chunkNpages, k, true);
        FreedOthers(runs[c], k, true, runInd + touched, runInd + npages);
        FreedApart(runs[c], k, true, runInd, runInd + touched, runInd + touched, runInd + npages);
      } else {
        FreedCovers(rs, mapBias, chunkNpages, k, true);
      }
      ghost var c1, r1 := chunks, runs;
      RunDalloc(c, runInd, true, false, k);
      TracksThen(old(chunks), old(runs), c1, r1, chunks, runs);
    }

    // The untouched pages of a clean small run are trimmed off it, as a large run.
    method TrimUntouched(c: nat, runInd: nat, npages: nat, touched: nat, ghost k: int)
      requires Valid() && c < |runs| && 0 <= k < |runs[c]| && runs[c][k].kind.Small? && runInd == runs[c][k].start
      requires !runs[c][k].dirty && npages == runs[c][k].pages && 0 < touched < npages
      modifies this`chunks, this`nactive, this`ndirty, this`runsAvail, this`chunksDirty, this`runs, this`spare
      ensures Valid() && spare == old(spare) && Places(chunks) == old(Places(chunks)) && |runs| == |old(runs)|
      ensures forall d :: 0 <= d < |runs| && d != c ==> runs[d] == old(runs[d])
      ensures k < |runs[c]| && runs[c][k] == Run(runInd, touched, Large, false)
      ensures HeldIn(runs[c]) - {runs[c][k]} == HeldIn(old(runs[c])) - {old(runs[c][k])}
      ensures FreePages(runs[c], runInd + touched, runInd + npages, false)
      ensures Tracks(old(chunks), old(runs), chunks, runs)
    {
      hide Kept, Places, Freed, SetKind, Live, Idle, HeldIn, Split, FreePages, Unmapped, Tiles, Marks, Shelved,
           Alternates, OthersSettled, Tracks, TracksOne;
      ghost var rs := runs[c];
      ghost var r := rs[k];
      KeptRun(Account(), runs, mapBias, chunkNpages, runPages, c, k);
      var bits := chunks[c].bits;
      bits := bits[runInd := LargeSet(bits[runInd], npages, false)];
      bits := bits[runInd + npages - 1 := LargeSet(bits[runInd + npages - 1], 0, false)];
      ghost var large := r.(kind := Large);
      OneRun(bits, large);
      OneRun(chunks[c].bits, r);
      assert rs[k..k + 1] == [r];
      RenamedRun(rs, k);
      ghost var t := rs[k := large];
      HeldDropped(rs, mapBias, chunkNpages, k, false);
      ShelvedRenamed(Places(chunks), runs, spare, c, k);
      TracksUniform(chunks[c].bits, bits, [r], [large], r.start, End(r), false, false);
      Remap(c, bits, 0, k, k + 1, [large]);
      ghost var c1, r1 := chunks, runs;
      KeptRun(Account(), runs, mapBias, chunkNpages, runPages, c, k);
      ShelvedLive(Places(chunks), runs, spare, c, k);
      HeldDropped(t, mapBias, chunkNpages, k, false);
      assert Dropped(t, k, false) == Dropped(rs, k, false);
      TailFreed(t, mapBias, chunkNpages, k, touched);
      RunTrimTail(c, runInd, npages, touched, false, k);
      TracksThen(old(chunks), old(runs), c1, r1, chunks, runs);
    }

    // arena_new: no chunks yet.
    constructor (mapBias: nat, chunkNpages: nat, runPages: nat -> nat)
      requires 1 <= mapBias < chunkNpages
      ensures Valid() && runs == []
      ensures this.mapBias == mapBias && this.chunkNpages == chunkNpages && this.runPages == runPages
    {
      this.mapBias := mapBias;
      this.chunkNpages := chunkNpages;
      this.runPages := runPages;
      chunks := [];
      nactive := 0;
      ndirty := 0;
      runsAvail := {};
      chunksDirty := {};
      spare := -1;
      runs := [];
    }

    // arena_chunk_init_hard: a new chunk is one maximal run, untouched.
    method ChunkInitHard(addr: nat, memory: seq<Entry>, zero: bool) returns (c: nat)
      requires Consistent() && |memory| == chunkNpages
      modifies this`chunks, this`runs
      ensures Consistent() && c == |old(runs)|
      ensures runs == old(runs) + [[Run(mapBias, chunkNpages - mapBias, Loose, false)]]
      ensures Places(chunks) == old(Places(chunks)) + [(addr, true)] && Tracks(old(chunks), old(runs), chunks, runs)
      // The pages of a chunk that is not zeroed may hold anything; those of a zeroed one have the
      // bits that its zeroed map gives them.
      ensures forall p :: mapBias <= p < chunkNpages ==>
                |chunks[c].bits| == chunkNpages && chunks[c].bits[p].unzeroed ==
                  (!zero || (mapBias < p < chunkNpages - 1 && memory[p].unzeroed))
    {
      hide Kept, Marks, Tiles, TracksOne;
      KeptSizes(Account(), runs, mapBias, chunkNpages, runPages);
      var maxclass := chunkNpages - mapBias;
      var bits := memory[mapBias := UnallocatedSet(maxclass, false, !zero)];
      if !zero {
        var i := mapBias + 1;
        while i < chunkNpages - 1
          invariant |bits| == chunkNpages && i > mapBias && bits[mapBias] == UnallocatedSet(maxclass, false, !zero)
          invariant forall p :: mapBias <= p < i && p < chunkNpages ==> bits[p].unzeroed
        {
          bits := bits[i := bits[i].(unzeroed := true)];
          i := i + 1;
        }
      }
      bits := bits[chunkNpages - 1 := UnallocatedSet(maxclass, false, !zero)];
      ghost var whole := Run(mapBias, maxclass, Loose, false);
      OneRun(bits, whole);
      var ch := Chunk(addr, true, bits, 0, 0, 0);
      KeptMore(Account(), runs, mapBias, chunkNpages, runPages, ch, whole);
      TracksMore(chunks, runs, ch, [whole]);
      c := |chunks|;
      chunks := chunks + [ch];
      runs := runs + [[whole]];
    }

    // arena_chunk_alloc; c is -1 if there is no spare and the system has no chunk to give.
    method ChunkAlloc(given: bool, addr: nat, memory: seq<Entry>, zero: bool) returns (c: int)
      requires Valid() && |memory| == chunkNpages
      modifies this`chunks, this`ndirty, this`runsAvail, this`chunksDirty, this`runs, this`spare
      ensures Consistent() && spare == -1
      ensures c == -1 ==> !given && old(spare) == -1 && runs == old(runs) && Places(chunks) == old(Places(chunks))
      ensures c != -1 ==>
                && Almost(Places(chunks), runs, spare, c)
                && runs == WithChunk(old(runs), old(spare), mapBias, chunkNpages)
                && Places(chunks) == WithPlace(old(Places(chunks)), old(spare), addr)
                && c == (if old(spare) >= 0 then old(spare) else |old(runs)|)
                && SameHeld(old(runs), runs)
      ensures Tracks(old(chunks), old(runs), chunks, runs)
      ensures c == |old(runs)| && !zero ==>
                |chunks| == |runs| && forall p :: mapBias <= p < chunkNpages ==> Suspect(chunks[c].bits, runs[c], p)
    {
      hide Kept, Places, SetKind, Idle, Live, Tiles, Marks, HeldIn, Alternates, Tracks, DirtyPage;
      ghost var places := Places(chunks);
      SpareRun();
      TracksSame(chunks, runs);
      if spare != -1 {
        c := spare;
        spare := -1;
      } else if given {
        c := ChunkInitHard(addr, memory, zero);
      } else {
        return -1;
      }
      AlmostWhole(places, old(runs), old(spare), Places(chunks), runs, c);
      KeptRun(Account(), runs, mapBias, chunkNpages, runPages, c, 0);
      WholeRun(runs[c], mapBias, chunkNpages);
      WholeFree(runs[c]);
      WithChunkIs(old(runs), old(spare), runs, mapBias, chunkNpages);
      HeldKind(runs[c], 0, Free);
      ghost var before, c1 := runs, chunks;
      AvailInsert(c, mapBias, chunkNpages - mapBias, false, false, 0);
      assert SameHeld(before, runs);
      TracksThen(old(chunks), old(runs), c1, before, chunks, runs);
      if c == |old(runs)| && !zero {
        forall p | mapBias <= p < chunkNpages ensures Suspect(chunks[c].bits, runs[c], p)
        {
          StaysSuspect(c1, before, chunks, runs, c, p);
        }
      }
    }

    // arena_avail_tree_nsearch with a size as key: the lowest best fit.
    method BestFit(need: nat) returns (found: bool, c: nat, pageind: nat, ghost k: int)
      requires Valid()
      ensures found ==>
                c < |runs| && 0 <= k < |runs[c]| && runs[c][k].kind.Free? && runs[c][k].start == pageind
                && need <= runs[c][k].pages
      ensures found ==> forall d, j ::
                0 <= d < |runs| && 0 <= j < |runs[d]| && runs[d][j].kind.Free? && need <= runs[d][j].pages ==>
                          !Before(runs[d][j], chunks[d].addr, runs[c][k], chunks[c].addr)
      ensures found ==> Lowest(runs, Places(chunks), c, k, need)
      ensures !found ==> forall d, j :: 0 <= d < |runs| && 0 <= j < |runs[d]| && runs[d][j].kind.Free? ==>
                runs[d][j].pages < need
    {
      hide Kept, Shelved, Places, Lowest;
      found, c, pageind, k := false, 0, 0, 0;
      var left := runsAvail;
      KeptSizes(Account(), runs, mapBias, chunkNpages, runPages);
      while left != {}
        invariant left <= runsAvail && |chunks| == |runs|
        invariant found ==>
                    c < |runs| && 0 <= k < |runs[c]| && runs[c][k].kind.Free? && runs[c][k].start == pageind
                    && need <= runs[c][k].pages
        invariant forall d: nat, j ::
                    d < |runs| && 0 <= j < |runs[d]| && runs[d][j].kind.Free?
                        && (d, runs[d][j].start) in runsAvail - left && need <= runs[d][j].pages ==>
                    found && !Before(runs[d][j], chunks[d].addr, runs[c][k], chunks[c].addr)
        decreases |left|
      {
        var x :| x in left;
        ghost var j := ListedRun(Account(), runs, mapBias, chunkNpages, runPages, x.0, x.1);
        var size := chunks[x.0].bits[x.1].size;
        OnlyStart(Account(), runs, mapBias, chunkNpages, runPages, x.0, j);
        if need <= size && (!found
            || Precedes(size, chunks[x.0].addr, x.1, SizeAt(c, pageind, k), chunks[c].addr, pageind)) {
          found, c, pageind, k := true, x.0, x.1, j;
        }
        left := left - {x};
      }
      forall d: nat, j | d < |runs| && 0 <= j < |runs[d]|
          && runs[d][j].kind.Free? ensures (d, runs[d][j].start) in runsAvail
      {
        FreeListed(Account(), runs, mapBias, chunkNpages, runPages, d, j);
      }
      if found { LowestIs(chunks, runs, c, k, need); }
    }

    // The size that the map gives a free run.
    function SizeAt(c: nat, pageind: nat, ghost k: int): (n: nat)
      requires Consistent() && c < |runs| && 0 <= k < |runs[c]| && runs[c][k].kind.Free? && pageind == runs[c][k].start
      reads this
      ensures n == runs[c][k].pages
    {
      KeptRun(Account(), runs, mapBias, chunkNpages, runPages, c, k);
      chunks[c].bits[pageind].size
    }

    lemma SpareRun()
      requires Valid()
      ensures |chunks| == |runs| && spare < |runs| && (spare >= 0 ==> runs[spare] != [])
    {
      hide Kept, Places, Live;
    }

    // A free run of at least so many pages: the lowest best fit, or else a new chunk. While
    // the system is asked for a chunk nothing else happens here, so the second look finds
    // no more than the first.
    method FindRun(need: nat, given: bool, addr: nat, memory: seq<Entry>, zero: bool)
        returns (ok: bool, c: nat, pageind: nat, ghost k: int)
      requires Valid() && |memory| == chunkNpages && 0 < need <= chunkNpages - mapBias
      modifies this`chunks, this`ndirty, this`runsAvail, this`chunksDirty, this`runs, this`spare
      ensures Consistent() && Tracks(old(chunks), old(runs), chunks, runs)
      ensures ok ==> Almost(Places(chunks), runs, spare, c) && SameHeld(old(runs), runs)
      ensures ok ==>
                0 <= k < |runs[c]| && runs[c][k].kind.Free? && runs[c][k].start == pageind
                && need <= runs[c][k].pages && Lowest(runs, Places(chunks), c, k, need)
      ensures ok ==> runs == Supply(old(runs), old(spare), mapBias, chunkNpages, need)
      ensures ok ==> Places(chunks) == SupplyPlaces(old(runs), old(Places(chunks)), old(spare), addr, need)
      ensures ok && !AnyFits(old(runs), need) ==>
                pageind == mapBias && c == if old(spare) >= 0 then old(spare) else |old(runs)|
      ensures ok ==> c <= |old(runs)|
      ensures ok && c == |old(runs)| && !zero ==>
                |chunks| == |runs| && forall p :: mapBias <= p < chunkNpages ==> Suspect(chunks[c].bits, runs[c], p)
      ensures !ok ==> Valid() && !given && old(spare) == -1 && runs == old(runs) && !AnyFits(runs, need)
    {
      hide Kept, Places, Shelved, Live, Idle, HeldIn, Lowest, Tracks, Suspect;
      SpareRun();
      TracksSame(chunks, runs);
      ok, c, pageind, k := BestFit(need);
      ghost var places := Places(chunks);
      if ok {
        assert Fits(runs, c, k, need);
        ShelvedAlmost(places, runs, spare, c, k);
        return;
      }
      assert !AnyFits(runs, need);
      var chunk := ChunkAlloc(given, addr, memory, zero);
      if chunk != -1 {
        OnlyFit(old(runs), old(spare), places, addr, mapBias, chunkNpages, need);
        ok, c, pageind, k := true, chunk, mapBias, 0;
        return;
      }
      assert Shelved(Places(chunks), runs, spare);
      ok, c, pageind, k := BestFit(need);
    }

    // arena_run_alloc_large
    method RunAllocLarge(size: nat, clear: bool, given: bool, addr: nat, memory: seq<Entry>, zero: bool)
        returns (ok: bool, c: nat, pageind: nat, cleared: set<nat>)
      requires Valid() && |memory| == chunkNpages && 0 < size <= chunkNpages - mapBias
      modifies this
      ensures Valid() && Tracks(old(chunks), old(runs), chunks, runs)
      ensures ok ==> exists dirty :: Gained(old(runs), runs, c, Run(pageind, size, Large, dirty))
      // It is the front of the lowest best fit; only if no run fits, of the spare or a new chunk.
      ensures ok ==>
                Takes(Supply(old(runs), old(spare), mapBias, chunkNpages, size),
                      SupplyPlaces(old(runs), old(Places(chunks)), old(spare), addr, size),
                      size, Large, c, pageind, runs, Places(chunks))
      ensures ok && !AnyFits(old(runs), size) ==>
                pageind == mapBias && c == if old(spare) >= 0 then old(spare) else |old(runs)|
      // If zeros are wanted, no page of it that may hold anything else is left as it is.
      ensures ok && clear ==>
                forall p :: pageind <= p < pageind + size && Doubtful(old(chunks), old(runs), c, p, zero) ==>
                    p in cleared
      ensures !ok || !clear ==> cleared == {}
      ensures !ok ==> !given && old(spare) == -1 && runs == old(runs) && !AnyFits(runs, size)
    {
      hide Kept, Places, HeldIn, Split, Live, Idle, Before, Tiles, Marks, Alternates, Lowest, Supply, SupplyPlaces,
           AnyFits, Tracks, Suspect;
      ghost var k;
      SpareRun();
      cleared := {};
      ok, c, pageind, k := FindRun(size, given, addr, memory, zero);
      if ok {
        ghost var found: seq<seq<Run>>, c1 := runs, chunks;
        AlmostReady(Places(chunks), runs, spare, c, k);
        KeptRun(Account(), runs, mapBias, chunkNpages, runPages, c, k);
        HeldTaken(runs[c], k, size, Large);
        HeldTwice(runs[c], mapBias, chunkNpages, k, Run(pageind, size, Large, runs[c][k].dirty));
        ShelvedSplit(Places(chunks), runs, spare, c, k, size, Large);
        StillSuspect(old(chunks), old(runs), chunks, runs, c);
        cleared := RunSplitLarge(c, pageind, size, clear, k);
        TracksThen(old(chunks), old(runs), c1, found, chunks, runs);
        GainedOne(old(runs), found, runs, c, Run(pageind, size, Large, found[c][k].dirty));
      }
    }

    // arena_run_alloc_small
    method RunAllocSmall(binind: nat, given: bool, addr: nat, memory: seq<Entry>, zero: bool)
        returns (ok: bool, c: nat, pageind: nat)
      requires Valid() && |memory| == chunkNpages && 0 < runPages(binind) <= chunkNpages - mapBias
      modifies this
      ensures Valid() && Tracks(old(chunks), old(runs), chunks, runs)
      ensures ok ==> exists dirty :: Gained(old(runs), runs, c, Run(pageind, runPages(binind), Small(binind), dirty))
      // It is the front of the lowest best fit; only if no run fits, of the spare or a new chunk.
      ensures ok ==>
                Takes(Supply(old(runs), old(spare), mapBias, chunkNpages, runPages(binind)),
                      SupplyPlaces(old(runs), old(Places(chunks)), old(spare), addr, runPages(binind)),
                      runPages(binind), Small(binind), c, pageind, runs, Places(chunks))
      ensures ok && !AnyFits(old(runs), runPages(binind)) ==>
                pageind == mapBias && c == if old(spare) >= 0 then old(spare) else |old(runs)|
      ensures !ok ==> !given && old(spare) == -1 && runs == old(runs) && !AnyFits(runs, runPages(binind))
    {
      hide Kept, Places, HeldIn, Split, Live, Idle, Before, Tiles, Marks, Alternates, Lowest, Supply, SupplyPlaces,
           AnyFits, Tracks;
      ghost var k;
      var size := runPages(binind);
      ok, c, pageind, k := FindRun(size, given, addr, memory, zero);
      if ok {
        ghost var found: seq<seq<Run>>, c1 := runs, chunks;
        AlmostReady(Places(chunks), runs, spare, c, k);
        KeptRun(Account(), runs, mapBias, chunkNpages, runPages, c, k);
        HeldTaken(runs[c], k, size, Small(binind));
        HeldTwice(runs[c], mapBias, chunkNpages, k, Run(pageind, size, Small(binind), runs[c][k].dirty));
        ShelvedSplit(Places(chunks), runs, spare, c, k, size, Small(binind));
        RunSplitSmall(c, pageind, binind, k);
        TracksThen(old(chunks), old(runs), c1, found, chunks, runs);
        GainedOne(old(runs), found, runs, c, Run(pageind, size, Small(binind), found[c][k].dirty));
      }
    }
  }

  predicate Fits(rss: seq<seq<Run>>, c: int, k: int, need: nat)
  {
    0 <= c < |rss| && 0 <= k < |rss[c]| && rss[c][k].kind.Free? && need <= rss[c][k].pages
  }

  ghost predicate AnyFits(rss: seq<seq<Run>>, need: nat) { exists d, j :: Fits(rss, d, j, need) }

  // Run k of chunk c is the smallest available run that is large enough, and the first of these.
  ghost predicate Lowest(rss: seq<seq<Run>>, places: seq<(nat, bool)>, c: int, k: int, need: nat)
  {
    && |places| == |rss| && Fits(rss, c, k, need)
    && forall d, j :: Fits(rss, d, j, need) ==> !Before(rss[d][j], places[d].0, rss[c][k], places[c].0)
  }

  lemma LowestIs(chunks: seq<Chunk>, rss: seq<seq<Run>>, c: int, k: int, need: nat)
    requires |chunks| == |rss| && Fits(rss, c, k, need)
    requires forall d, j :: 0 <= d < |rss| && 0 <= j < |rss[d]| && rss[d][j].kind.Free? && need <= rss[d][j].pages ==>
               !Before(rss[d][j], chunks[d].addr, rss[c][k], chunks[c].addr)
    ensures Lowest(rss, Places(chunks), c, k, need)
  {
    hide Before;
  }

  // The spare, or else a new chunk, is made one available run.
  ghost function WithChunk(rss: seq<seq<Run>>, spare: int, lo: nat, hi: nat): seq<seq<Run>>
    requires spare < |rss| && (spare >= 0 ==> rss[spare] != []) && lo <= hi
  {
    if spare >= 0 then rss[spare := [Run(lo, hi - lo, Free, rss[spare][0].dirty)]]
    else rss + [[Run(lo, hi - lo, Free, false)]]
  }

  function WithPlace(places: seq<(nat, bool)>, spare: int, addr: nat): seq<(nat, bool)>
  {
    if spare >= 0 then places else places + [(addr, true)]
  }

  lemma WithChunkIs(rss: seq<seq<Run>>, spare: int, rss': seq<seq<Run>>, lo: nat, hi: nat)
    requires spare < |rss| && lo <= hi
    requires spare >= 0 ==> rss' == rss && |rss[spare]| == 1 && rss[spare][0].kind.Loose?
    requires spare >= 0 ==> rss[spare][0].start == lo && rss[spare][0].pages == hi - lo
    requires spare < 0 ==> rss' == rss + [[Run(lo, hi - lo, Loose, false)]]
    ensures WithChunk(rss, spare, lo, hi) ==
            if spare >= 0 then rss'[spare := SetKind(rss'[spare], 0, Free)]
            else rss'[|rss| := SetKind(rss'[|rss|], 0, Free)]
  {
    if spare >= 0 {
      assert SetKind(rss[spare], 0, Free) == [Run(lo, hi - lo, Free, rss[spare][0].dirty)];
    } else {
      assert SetKind(rss'[|rss|], 0, Free) == [Run(lo, hi - lo, Free, false)];
    }
  }

  // What there is to choose from: the available runs, with one more chunk if none of them fits.
  ghost function Supply(rss: seq<seq<Run>>, spare: int, lo: nat, hi: nat, need: nat): seq<seq<Run>>
    requires spare < |rss| && (spare >= 0 ==> rss[spare] != []) && lo <= hi
  {
    if AnyFits(rss, need) then rss else WithChunk(rss, spare, lo, hi)
  }

  ghost function SupplyPlaces(rss: seq<seq<Run>>, places: seq<(nat, bool)>, spare: int, addr: nat,
      need: nat): seq<(nat, bool)>
  {
    if AnyFits(rss, need) then places else WithPlace(places, spare, addr)
  }

  // The front of the lowest best fit is taken, and nothing else changes.
  ghost predicate Takes(rss: seq<seq<Run>>, places: seq<(nat, bool)>, need: nat, kind: Kind, c: int, pageind: nat,
      rss': seq<seq<Run>>, places': seq<(nat, bool)>)
  {
    && places' == places && need > 0
    && exists k ::
         && Lowest(rss, places, c, k, need) && rss[c][k].start == pageind
         && rss' == rss[c := Split(rss[c], k, need, kind)]
  }

  // Where nothing fits, the run of the additional chunk is the only one that does.
  lemma OnlyFit(rss: seq<seq<Run>>, spare: int, places: seq<(nat, bool)>, addr: nat, lo: nat, hi: nat, need: nat)
    requires |places| == |rss| && spare < |rss| && (spare >= 0 ==> rss[spare] != []) && lo <= hi && need <= hi - lo
    requires !AnyFits(rss, need)
    ensures Lowest(WithChunk(rss, spare, lo, hi), WithPlace(places, spare, addr),
              if spare >= 0 then spare else |rss|, 0, need)
  {
    var rss', c := WithChunk(rss, spare, lo, hi), if spare >= 0 then spare else |rss|;
    assert forall d, j :: d != c ==> (Fits(rss', d, j, need) <==> Fits(rss, d, j, need));
  }

  ghost function HeldBefore(rss: seq<seq<Run>>, c: int): set<Run> { if 0 <= c < |rss| then HeldIn(rss[c]) else {} }

  // Chunk c has one more run in use, and that is all that changed.
  ghost predicate Gained(rss: seq<seq<Run>>, rss': seq<seq<Run>>, c: int, r: Run)
  {
    && 0 <= c < |rss'| && |rss| <= |rss'|
    && r !in HeldBefore(rss, c) && HeldIn(rss'[c]) == HeldBefore(rss, c) + {r}
    && (forall d :: 0 <= d < |rss| && d != c ==> HeldIn(rss'[d]) == HeldIn(rss[d]))
    && forall d :: |rss| <= d < |rss'| && d != c ==> HeldIn(rss'[d]) == {}
  }

  lemma GainedOne(rss: seq<seq<Run>>, found: seq<seq<Run>>, rss': seq<seq<Run>>, c: int, r: Run)
    requires SameHeld(rss, found) && 0 <= c < |found| && |rss'| == |found| && rss' == found[c := rss'[c]]
    requires r !in HeldIn(found[c]) && HeldIn(rss'[c]) == HeldIn(found[c]) + {r}
    ensures Gained(rss, rss', c, r)
  {
    hide HeldIn;
  }

  // A run taken from a free one was not in use before.
  lemma HeldTwice(rs: seq<Run>, lo: nat, hi: nat, k: int, r: Run)
    requires Tiles(rs, lo, hi) && 0 <= k < |rs| && rs[k].kind.Free? && r.start == rs[k].start
    requires 0 < r.pages <= rs[k].pages && Owned(r)
    ensures r !in HeldIn(rs)
  {
    HeldApart(rs, lo, hi, k, r);
  }

  lemma ShelvedAlmost(places: seq<(nat, bool)>, rss: seq<seq<Run>>, spare: int, c: nat, k: int)
    requires Shelved(places, rss, spare) && c < |rss| && 0 <= k < |rss[c]| && rss[c][k].kind.Free?
    ensures Almost(places, rss, spare, c) && SameHeld(rss, rss)
  { }

  lemma AlmostReady(places: seq<(nat, bool)>, rss: seq<seq<Run>>, spare: int, c: nat, k: int)
    requires Almost(places, rss, spare, c) && 0 <= k < |rss[c]|
    ensures OthersSettled(rss[c], k) && c < |rss|
  { }

  // The order of available runs: by size, then by address.
  predicate Precedes(size: nat, addr: nat, pageind: nat, size': nat, addr': nat, pageind': nat)
  {
    size < size' || (size == size' && (addr < addr' || (addr == addr' && pageind < pageind')))
  }

  predicate Before(r: Run, addr: nat, r': Run, addr': nat)
  {
    Precedes(r.pages, addr, r.start, r'.pages, addr', r'.start)
  }

  lemma KeptMore(b: Books, rss: seq<seq<Run>>, lo: nat, hi: nat, runPages: nat -> nat, ch: Chunk, whole: Run)
    requires Kept(b, rss, lo, hi, runPages) && whole.kind.Loose? && whole.start == lo && End(whole) == hi
    requires |ch.bits| == hi && Tiles([whole], lo, hi) && Marks(ch.bits, [whole])
    requires ch.ndirty == ch.nrunsAvail == ch.nrunsAdjac == 0
    ensures Kept(b.(chunks := b.chunks + [ch]), rss + [[whole]], lo, hi, runPages)
  {
    hide Tiles, Marks, Listed;
    NoFreeCounts([whole]);
    NoFreeAlternates([whole]);
    SumMore(rss, ActivePages, [whole]);
    SumMore(rss, DirtyPages, [whole]);
    assert [whole][1..] == [];
    ListedMoreChunks(b.avail, rss, whole);
  }

  lemma ListedMoreChunks(avail: set<(nat, nat)>, rss: seq<seq<Run>>, whole: Run)
    requires Listed(avail, rss) && whole.kind.Loose?
    ensures Listed(avail, rss + [[whole]])
  {
    forall p: nat ensures !FreeAt([whole], p) { }
  }

  // As Shelved, but that chunk c may be all free.
  ghost predicate Almost(places: seq<(nat, bool)>, rss: seq<seq<Run>>, spare: int, c: int)
  {
    && |places| == |rss| && -1 <= spare < |rss| && (spare >= 0 ==> places[spare].1)
    && 0 <= c < |rss| && c != spare && places[c].1 && AllSettled(rss[c])
    && forall d :: 0 <= d < |rss| && d != c ==> if d == spare || !places[d].1 then Idle(rss[d]) else Live(rss[d])
  }

  // The same runs are in use; new chunks have none.
  ghost predicate SameHeld(rss: seq<seq<Run>>, rss': seq<seq<Run>>)
  {
    && |rss| <= |rss'| && (forall d :: 0 <= d < |rss| ==> HeldIn(rss'[d]) == HeldIn(rss[d]))
    && forall d :: |rss| <= d < |rss'| ==> HeldIn(rss'[d]) == {}
  }

  lemma AlmostWhole(places: seq<(nat, bool)>, rss: seq<seq<Run>>, spare: int, places': seq<(nat, bool)>,
      rss': seq<seq<Run>>, c: int)
    requires Shelved(places, rss, spare)
    requires spare >= 0 ==> c == spare && rss' == rss && places' == places
    requires spare < 0 ==> c == |rss| && |rss'| == c + 1 && rss'[..c] == rss && Idle(rss'[c])
    requires spare < 0 ==> |places'| == c + 1 && places'[..c] == places && places'[c].1
    ensures 0 <= c < |rss'| && Idle(rss'[c]) && SameHeld(rss, rss')
    ensures Almost(places', rss'[c := SetKind(rss'[c], 0, Free)], -1, c)
  {
    forall d | 0 <= d < |rss'| && d != c ensures if !places'[d].1 then Idle(rss'[d]) else Live(rss'[d])
    {
      assert places'[..|rss|] == places && rss'[..|rss|] == rss;
      assert rss'[d] == rss[d] && places'[d] == places[d];
    }
  }

  lemma WholeFree(rs: seq<Run>)
    requires |rs| == 1 && rs[0].kind.Loose?
    ensures SetKind(rs, 0, Free) == [Run(rs[0].start, rs[0].pages, Free, rs[0].dirty)] && Askable(rs, 0, false, false)
  { }

  lemma KeptSizes(b: Books, rss: seq<seq<Run>>, lo: nat, hi: nat, runPages: nat -> nat)
    requires Kept(b, rss, lo, hi, runPages)
    ensures |b.chunks| == |rss| && 1 <= lo < hi
  { }

  // A run in the tree is a free run of its chunk.
  lemma ListedRun(b: Books, rss: seq<seq<Run>>, lo: nat, hi: nat, runPages: nat -> nat, c: nat, p: nat) returns (k: int)
    requires Kept(b, rss, lo, hi, runPages) && (c, p) in b.avail
    ensures c < |rss| == |b.chunks| && 0 <= k < |rss[c]| && rss[c][k].kind.Free? && rss[c][k].start == p
    ensures p < |b.chunks[c].bits| && b.chunks[c].bits[p].size == rss[c][k].pages
  {
    hide Sound, Sum;
    k :| 0 <= k < |rss[c]| && rss[c][k].kind.Free? && rss[c][k].start == p;
    KeptRun(b, rss, lo, hi, runPages, c, k);
  }

  lemma FreeListed(b: Books, rss: seq<seq<Run>>, lo: nat, hi: nat, runPages: nat -> nat, c: nat, k: int)
    requires Kept(b, rss, lo, hi, runPages) && c < |rss| && 0 <= k < |rss[c]| && rss[c][k].kind.Free?
    ensures (c, rss[c][k].start) in b.avail
  {
    hide Sound, Sum;
    assert FreeAt(rss[c], rss[c][k].start);
  }

  lemma OnlyStart(b: Books, rss: seq<seq<Run>>, lo: nat, hi: nat, runPages: nat -> nat, c: nat, k: int)
    requires Kept(b, rss, lo, hi, runPages) && c < |rss| && 0 <= k < |rss[c]|
    ensures forall j :: 0 <= j < |rss[c]| && rss[c][j].start == rss[c][k].start ==> j == k
  {
    hide Kept, Tiles;
    KeptRun(b, rss, lo, hi, runPages, c, k);
    forall j | 0 <= j < |rss[c]| && j != k ensures rss[c][j].start != rss[c][k].start
    {
      StartsDiffer(rss[c], lo, hi, j, k);
    }
  }

  lemma LargeCut(bits: seq<Entry>, bits': seq<Entry>, r: Run, head: nat)
    requires Marked(bits, r) && r.kind.Large? && 0 < head < r.pages
    requires var s1 := bits[r.start + head - 1 := LargeSet(bits[r.start + head - 1], 0, r.dirty)];
             var s2 := s1[r.start := LargeSet(s1[r.start], head, r.dirty)];
             bits' == s2[r.start + head := LargeSet(s2[r.start + head], r.pages - head, r.dirty)]
    ensures var mid := [Run(r.start, head, Large, r.dirty), Run(r.start + head, r.pages - head, Large, r.dirty)];
            && Tiles(mid, r.start, End(r)) && Marks(bits', mid) && NoFree(mid) && NoFree([r])
            && ActivePages(mid) == ActivePages([r]) && Outside(bits, bits', r.start, End(r))
  {
    var mid := [Run(r.start, head, Large, r.dirty), Run(r.start + head, r.pages - head, Large, r.dirty)];
    assert mid[1..] == [mid[1]] && [mid[1]][1..] == [] && [r][1..] == [];
  }

  lemma LargeSplit(rs: seq<Run>, k: int, head: nat)
    requires 0 <= k < |rs| && rs[k].kind.Large? && 0 < head < rs[k].pages
    ensures var r := rs[k];
            Split(rs, k, head, Large) == Splice(rs, k, k + 1,
                [Run(r.start, head, Large, r.dirty), Run(r.start + head, r.pages - head, Large, r.dirty)])
  { }

  lemma LargeSplitRuns(rs: seq<Run>, k: int, head: nat)
    requires 0 <= k < |rs| && rs[k].kind.Large? && 0 < head < rs[k].pages
    ensures var r, t := rs[k], Split(rs, k, head, Large);
            k + 1 < |t| && t[k] == Run(r.start, head, Large, r.dirty)
                && t[k + 1] == Run(r.start + head, r.pages - head, Large, r.dirty)
  { }

  lemma ShelvedSplit(places: seq<(nat, bool)>, rss: seq<seq<Run>>, spare: int, c: nat, k: int, need: nat, kind: Kind)
    requires |places| == |rss| && c < |rss| && c != spare && places[c].1 && AllSettled(rss[c])
    requires (kind.Large? || kind.Small?)
    requires -1 <= spare < |rss| && (spare >= 0 ==> places[spare].1)
    requires forall d :: 0 <= d < |rss| && d != c ==> if d == spare || !places[d].1 then Idle(rss[d]) else Live(rss[d])
    requires 0 <= k < |rss[c]| && 0 < need <= rss[c][k].pages
    ensures Shelved(places, rss[c := Split(rss[c], k, need, kind)], spare)
  {
    hide Split, Idle;
    SplitLive(rss[c], k, need, kind);
  }

  lemma SplitLive(rs: seq<Run>, k: int, need: nat, kind: Kind)
    requires AllSettled(rs) && 0 <= k < |rs| && 0 < need <= rs[k].pages && (kind.Large? || kind.Small?)
    ensures Live(Split(rs, k, need, kind))
  {
    var t := Split(rs, k, need, kind);
    assert t[k] == Run(rs[k].start, need, kind, rs[k].dirty);
  }

  lemma HeldTrimmed(rs: seq<Run>, lo: nat, hi: nat, k: int, head: nat)
    requires Tiles(rs, lo, hi) && 0 <= k < |rs| && rs[k].kind.Large? && 0 < head < rs[k].pages
    ensures var r := rs[k]; var a, z := Run(r.start, head, Large, r.dirty),
              Run(r.start + head, r.pages - head, Large, r.dirty);
            HeldIn(Split(rs, k, head, Large)) == HeldIn(rs) - {r} + {a, z} && a !in HeldIn(rs) && z !in HeldIn(rs)
  {
    hide Tiles;
    var r := rs[k];
    var mid := [Run(r.start, head, Large, r.dirty), Run(r.start + head, r.pages - head, Large, r.dirty)];
    LargeSplit(rs, k, head);
    HeldSplice(rs, k, k + 1, mid);
    HeldPair(mid[0], mid[1]);
    HeldDropped(rs, lo, hi, k, false);
    HeldSplice(rs, k, k + 1, [Run(r.start, r.pages, Loose, false)]);
    assert HeldIn([Run(r.start, r.pages, Loose, false)]) == {};
    DroppedSplice(rs, k, false);
    HeldApart(rs, lo, hi, k, mid[0]);
    HeldApart(rs, lo, hi, k, mid[1]);
  }

  // Either part of a cut run is freed; the other stays in use.
  lemma Trimmed(rs: seq<Run>, lo: nat, hi: nat, k: int, head: nat, at: int, dirty: bool)
    requires Tiles(rs, lo, hi) && Live(rs) && 0 <= k < |rs| && rs[k].kind.Large? && 0 < head < rs[k].pages
    requires k <= at <= k + 1
    requires Tiles(Split(rs, k, head, Large), lo, hi)
    ensures var r, t := rs[k], Split(rs, k, head, Large);
            && at < |t| && |Freed(t, at, dirty)| != 1 && Rested(Freed(t, at, dirty)) == Freed(t, at, dirty)
            && HeldIn(Freed(t, at, dirty)) == HeldIn(rs) - {r}
                + {if at == k then Run(r.start + head, r.pages - head, Large, r.dirty)
                   else Run(r.start, head, Large, r.dirty)}
  {
    hide Tiles, Split, Freed, HeldIn, Live;
    var t := Split(rs, k, head, Large);
    LargeSplitRuns(rs, k, head);
    HeldTrimmed(rs, lo, hi, k, head);
    LiveSettled(rs);
    SplitLive(rs, k, head, Large);
    LiveSettled(t);
    HeldFreed(t, lo, hi, at, dirty);
    HeldSome(t, lo, hi, if at == k then k + 1 else k, at, dirty);
  }

  lemma LiveSettled(rs: seq<Run>)
    requires Live(rs)
    ensures AllSettled(rs) && forall k :: OthersSettled(rs, k)
  { }

  lemma HeldPair(a: Run, b: Run)
    requires Owned(a) && Owned(b)
    ensures HeldIn([a, b]) == {a, b}
  {
    HeldInAt([a, b], 0);
    HeldInAt([a, b], 1);
  }

  // A piece of a run is no run of the chunk.
  lemma HeldApart(rs: seq<Run>, lo: nat, hi: nat, k: int, r: Run)
    requires Tiles(rs, lo, hi) && 0 <= k < |rs| && rs[k].start <= r.start && 0 < r.pages && End(r) <= End(rs[k])
    requires r != rs[k]
    ensures r !in HeldIn(rs)
  {
    hide Tiles;
    forall i | 0 <= i < |rs| ensures rs[i] != r
    {
      if i != k {
        TilesWithin(rs, lo, hi, k);
        StartsDiffer(rs, lo, hi, i, k);
      }
    }
  }

  // A chunk that keeps a run in use does not become free.
  lemma HeldSome(rs: seq<Run>, lo: nat, hi: nat, j: int, k: int, dirty: bool)
    requires Tiles(rs, lo, hi) && 0 <= j < |rs| && 0 <= k < |rs| && j != k && Owned(rs[j]) && OthersSettled(rs, k)
    ensures |Freed(rs, k, dirty)| != 1
  {
    hide Tiles, Freed, HeldIn;
    HeldInAt(rs, j);
    StartsDiffer(rs, lo, hi, j, k);
    HeldFreed(rs, lo, hi, k, dirty);
    OneFreed(rs, k, dirty);
    assert rs[j] in HeldIn(Freed(rs, k, dirty));
  }

  lemma OneFreed(rs: seq<Run>, k: int, dirty: bool)
    requires 0 <= k < |rs| && OthersSettled(rs, k)
    ensures |Freed(rs, k, dirty)| == 1 ==> HeldIn(Freed(rs, k, dirty)) == {}
  {
    hide Coalesced, CoalescedAt;
    FreedIs(rs, k, dirty);
  }

  lemma HeldRested(rs: seq<Run>, lo: nat, hi: nat, k: int, dirty: bool)
    requires Tiles(rs, lo, hi) && 0 <= k < |rs| && OthersSettled(rs, k)
    ensures HeldIn(Rested(Freed(rs, k, dirty))) == HeldIn(rs) - {rs[k]}
  {
    hide Tiles, Freed, HeldIn, OthersSettled;
    HeldFreed(rs, lo, hi, k, dirty);
    FreedNotOwned(rs, k, dirty);
    var t := Freed(rs, k, dirty);
    if |t| == 1 { HeldKind(t, 0, Loose); }
  }

  lemma FreedNotOwned(rs: seq<Run>, k: int, dirty: bool)
    requires 0 <= k < |rs| && OthersSettled(rs, k)
    ensures |Freed(rs, k, dirty)| == 1 ==> !Owned(Freed(rs, k, dirty)[0])
  {
    hide Coalesced, CoalescedAt;
    FreedIs(rs, k, dirty);
  }

  // Pages a up to b lie in a free run of the given dirtiness.
  ghost predicate FreePages(rs: seq<Run>, a: nat, b: nat, dirty: bool)
  {
    exists i :: 0 <= i < |rs| && rs[i].kind.Free? && rs[i].dirty == dirty && rs[i].start <= a && b <= End(rs[i])
  }

  // Pages that were written to lie in a dirty run when they are free.
  lemma DirtyFreed(rs: seq<Run>, lo: nat, hi: nat, k: int)
    requires Tiles(rs, lo, hi) && 0 <= k < |rs| && OthersSettled(rs, k)
    ensures var t := Freed(rs, k, true);
            forall p :: rs[k].start <= p < End(rs[k]) ==> DirtyPage(t, p) && DirtyPage(Rested(t), p)
  {
    hide Freed, Tiles, OthersSettled;
    FreedCovers(rs, lo, hi, k, true);
  }

  // The pages of a freed run are free, with its dirtiness.
  lemma FreedCovers(rs: seq<Run>, lo: nat, hi: nat, k: int, dirty: bool)
    requires Tiles(rs, lo, hi) && 0 <= k < |rs| && OthersSettled(rs, k)
    ensures FreePages(Freed(rs, k, dirty), rs[k].start, End(rs[k]), dirty)
  {
    hide Coalesced, CoalescedAt, Tiles;
    var t := Dropped(rs, k, dirty);
    PrevMeets(rs, lo, hi, k);
    CoalescedCovers(t, k);
    FreedIs(rs, k, dirty);
  }

  lemma CoalescedCovers(rs: seq<Run>, k: int)
    requires 0 <= k < |rs| && OthersSettled(rs, k) && rs[k].kind.Loose? && (k > 0 ==> End(rs[k - 1]) == rs[k].start)
    ensures var r := Coalesced(rs, k)[CoalescedAt(rs, k)];
            r.start <= rs[k].start && End(rs[k]) <= End(r) && r.dirty == rs[k].dirty
  { }

  lemma FreeMoved(rs: seq<Run>, t: seq<Run>, i: int, j: int, a: nat, b: nat, dirty: bool)
    requires 0 <= i < |rs| && rs[i].kind.Free? && rs[i].dirty == dirty && rs[i].start <= a && b <= End(rs[i])
    requires 0 <= j < |t| && t[j] == rs[i]
    ensures FreePages(t, a, b, dirty)
  { }

  // Free pages of the other dirtiness are left alone.
  lemma FreedOthers(rs: seq<Run>, k: int, dirty: bool, a: nat, b: nat)
    requires 0 <= k < |rs| && OthersSettled(rs, k) && !rs[k].kind.Free? && FreePages(rs, a, b, !dirty)
    ensures FreePages(Freed(rs, k, dirty), a, b, !dirty)
  {
    hide MergedNext, MergedPrev, MergedAt;
    var i :| 0 <= i < |rs| && rs[i].kind.Free? && rs[i].dirty == !dirty && rs[i].start <= a && b <= End(rs[i]);
    var d := Dropped(rs, k, dirty);
    assert d[i] == rs[i];
    var i' := NextOthers(d, k, i);
    MergedNextRun(d, k);
    var i'' := PrevOthers(MergedNext(d, k), k, i');
    FreeMoved(rs, Freed(rs, k, dirty), i, i'', a, b, !dirty);
  }

  lemma NextOthers(rs: seq<Run>, k: int, i: int) returns (j: int)
    requires 0 <= k < |rs| && rs[k].kind.Loose? && 0 <= i < |rs| && rs[i].kind.Free? && rs[i].dirty != rs[k].dirty
    ensures var t := MergedNext(rs, k); 0 <= j < |t| && j != k && t[j] == rs[i]
  {
    j := if i > k && MateNext(rs, k) then i - 1 else i;
  }

  lemma PrevOthers(rs: seq<Run>, k: int, i: int) returns (j: int)
    requires 0 <= k < |rs| && rs[k].kind.Loose? && 0 <= i < |rs| && rs[i].kind.Free? && rs[i].dirty != rs[k].dirty
    ensures var t := MergedPrev(rs, k); 0 <= j < |t| && j != MergedAt(rs, k) && t[j] == rs[i]
  {
    j := if i > k && MatePrev(rs, k) then i - 1 else i;
  }

  lemma FreedApart(rs: seq<Run>, k: int, dirty: bool, a: nat, b: nat, a': nat, b': nat)
    requires 0 <= k < |rs| && FreePages(Freed(rs, k, dirty), a, b, dirty)
    requires FreePages(Freed(rs, k, dirty), a', b', !dirty)
    ensures |Freed(rs, k, dirty)| != 1
  { }

  lemma RenamedRun(rs: seq<Run>, k: int)
    requires 0 <= k < |rs|
    ensures Splice(rs, k, k + 1, [rs[k].(kind := Large)]) == rs[k := rs[k].(kind := Large)]
  { }

  lemma ShelvedRenamed(places: seq<(nat, bool)>, rss: seq<seq<Run>>, spare: int, c: nat, k: int)
    requires Shelved(places, rss, spare) && c < |rss| && 0 <= k < |rss[c]| && Settled(rss[c][k])
    ensures Shelved(places, rss[c := rss[c][k := rss[c][k].(kind := Large)]], spare)
  { }

  // The head of a trimmed run stays where it was.
  lemma TailFreed(rs: seq<Run>, lo: nat, hi: nat, k: int, head: nat)
    requires Tiles(rs, lo, hi) && Live(rs) && 0 <= k < |rs| && rs[k].kind.Large? && 0 < head < rs[k].pages
    ensures var r, t := rs[k], Split(rs, k, head, Large);
            && k + 1 < |t| && k < |Freed(t, k + 1, false)|
            && Freed(t, k + 1, false)[k] == Run(r.start, head, Large, r.dirty)
            && FreePages(Freed(t, k + 1, false), r.start + head, End(r), false)
            && Run(r.start, head, Large, r.dirty) !in HeldIn(rs)
  {
    hide Tiles, HeldIn, Freed, Split, FreePages;
    var t := Split(rs, k, head, Large);
    LargeSplitRuns(rs, k, head);
    SplitLive(rs, k, head, Large);
    LargeSplit(rs, k, head);
    TwoTile(rs[k], head);
    TilesSplice(rs, lo, hi, k, k + 1,
        [Run(rs[k].start, head, Large, rs[k].dirty), Run(rs[k].start + head, rs[k].pages - head, Large, rs[k].dirty)]);
    FreedCovers(t, lo, hi, k + 1, false);
    FreedFront(t, k + 1, false);
    HeldApart(rs, lo, hi, k, Run(rs[k].start, head, Large, rs[k].dirty));
  }

  lemma TwoTile(r: Run, head: nat)
    requires 0 < head < r.pages
    ensures Tiles([Run(r.start, head, Large, r.dirty), Run(r.start + head, r.pages - head, Large, r.dirty)], r.start,
              End(r))
  { }

  lemma FreedFront(rs: seq<Run>, k: int, dirty: bool)
    requires 0 < k < |rs| && Owned(rs[k - 1]) && OthersSettled(rs, k)
    ensures var t := Freed(rs, k, dirty); k - 1 < |t| && t[k - 1] == rs[k - 1]
  { }

  function Unmapped(places: seq<(nat, bool)>, c: int): seq<(nat, bool)>
    requires -1 <= c < |places|
  {
    if c >= 0 then places[c := (places[c].0, false)] else places
  }

  ghost predicate AllSettled(rs: seq<Run>) { forall i :: 0 <= i < |rs| ==> Settled(rs[i]) }

  // A chunk in use is not one single free run.
  ghost predicate Live(rs: seq<Run>) { AllSettled(rs) && (|rs| == 1 ==> Owned(rs[0])) }

  ghost predicate Idle(rs: seq<Run>) { |rs| == 1 && rs[0].kind.Loose? }

  // A mapped chunk other than the spare is in use.
  ghost predicate Shelved(places: seq<(nat, bool)>, rss: seq<seq<Run>>, spare: int)
  {
    && |places| == |rss| && -1 <= spare < |rss| && (spare >= 0 ==> places[spare].1)
    && forall c :: 0 <= c < |rss| ==> if c == spare || !places[c].1 then Idle(rss[c]) else Live(rss[c])
  }

  // What is left of a chunk after a run was freed: nothing but a loose run if all is free.
  function Rested(rs: seq<Run>): seq<Run> { if |rs| == 1 then SetKind(rs, 0, Loose) else rs }

  lemma ShelvedLive(places: seq<(nat, bool)>, rss: seq<seq<Run>>, spare: int, c: nat, k: int)
    requires Shelved(places, rss, spare) && c < |rss| && 0 <= k < |rss[c]| && Settled(rss[c][k])
    ensures c != spare && places[c].1 && Live(rss[c]) && OthersSettled(rss[c], k)
  { }

  lemma WholeRun(rs: seq<Run>, lo: nat, hi: nat)
    requires Tiles(rs, lo, hi) && |rs| == 1
    ensures rs[0].start == lo && rs[0].pages == hi - lo
  { }

  lemma WholeOnly(rs: seq<Run>, lo: nat, hi: nat, k: int)
    requires Tiles(rs, lo, hi) && 0 <= k < |rs|
    ensures rs[k].pages == hi - lo <==> |rs| == 1
  {
    TilesWithin(rs, lo, hi, k);
    if |rs| > 1 {
      var other := if k == 0 then 1 else 0;
      TilesWithin(rs, lo, hi, other);
      StartsDiffer(rs, lo, hi, k, other);
    }
  }

  lemma KeptUnmap(b: Books, rss: seq<seq<Run>>, lo: nat, hi: nat, runPages: nat -> nat, c: nat)
    requires Kept(b, rss, lo, hi, runPages) && c < |rss|
    ensures Kept(b.(chunks := b.chunks[c := b.chunks[c].(mapped := false)]), rss, lo, hi, runPages)
  {
    hide Tiles, Marks, Alternates, SizesFit, DirtyPages, ActivePages, FreeRuns, Adjacent, Sum, Listed;
    assert Sound(b.chunks[c], rss[c], lo, hi, runPages);
  }

  lemma DroppedSplice(rs: seq<Run>, k: int, dirty: bool)
    requires 0 <= k < |rs|
    ensures Splice(rs, k, k + 1, [Run(rs[k].start, rs[k].pages, Loose, dirty)]) == Dropped(rs, k, dirty)
  { }

  lemma DroppedReady(rs: seq<Run>, k: int, dirty: bool)
    requires 0 <= k < |rs| && OthersSettled(rs, k)
    ensures var t := Dropped(rs, k, dirty);
            |t| == |rs| && OthersSettled(t, k) && t[k] == Run(rs[k].start, rs[k].pages, Loose, dirty)
  { }

  lemma FreedIs(rs: seq<Run>, k: int, dirty: bool)
    requires 0 <= k < |rs|
    ensures var t := Dropped(rs, k, dirty);
            |t| == |rs| && Freed(rs, k, dirty) == SetKind(Coalesced(t, k), CoalescedAt(t, k), Free)
    ensures var t, f := Dropped(rs, k, dirty), Freed(rs, k, dirty); var k' := CoalescedAt(t, k);
            k' < |f| && f[k'] == Coalesced(t, k)[k'].(kind := Free)
  { }

  lemma FreedSettled(rs: seq<Run>, k: int, dirty: bool)
    requires 0 <= k < |rs| && OthersSettled(rs, k)
    ensures AllSettled(Freed(rs, k, dirty))
  {
    hide Coalesced, CoalescedAt, MergedNext, MergedPrev, MergedAt;
    var d := Dropped(rs, k, dirty);
    CoalescedSettled(d, k);
  }

  lemma CoalescedSettled(rs: seq<Run>, k: int)
    requires 0 <= k < |rs| && rs[k].kind.Loose? && OthersSettled(rs, k)
    ensures OthersSettled(Coalesced(rs, k), CoalescedAt(rs, k))
  {
    hide MergedNext, MergedPrev, MergedAt, OthersSettled;
    MergedNextRun(rs, k);
    MergedPrevSettled(MergedNext(rs, k), k);
  }

  lemma MergedPrevSettled(rs: seq<Run>, k: int)
    requires 0 <= k < |rs| && rs[k].kind.Loose? && OthersSettled(rs, k)
    ensures OthersSettled(MergedPrev(rs, k), MergedAt(rs, k))
  {
    var t, k' := MergedPrev(rs, k), MergedAt(rs, k);
    if MatePrev(rs, k) {
      forall i | 0 <= i < |t| && i != k' ensures Settled(t[i]) { assert t[i] == if i < k' then rs[i] else rs[i + 1]; }
    }
  }

  lemma ShelvedFreed(places: seq<(nat, bool)>, rss: seq<seq<Run>>, spare: int, c: nat, k: int, dirty: bool)
    requires Shelved(places, rss, spare) && c < |rss| && 0 <= k < |rss[c]| && Owned(rss[c][k])
    ensures var t := Freed(rss[c], k, dirty);
            if |t| == 1 then t[0].kind.Free? else Shelved(places, rss[c := t], spare)
  {
    hide Freed, Coalesced;
    ShelvedLive(places, rss, spare, c, k);
    FreedSettled(rss[c], k, dirty);
    DroppedReady(rss[c], k, dirty);
    FreedIs(rss[c], k, dirty);
  }

  lemma ShelvedRested(places: seq<(nat, bool)>, rss: seq<seq<Run>>, spare: int, c: nat, t: seq<Run>)
    requires Shelved(places, rss, spare) && c < |rss| && Live(rss[c]) && |t| == 1
    ensures Shelved(Unmapped(places, spare), rss[c := SetKind(t, 0, Loose)], c)
  { }

  // A run that can be joined to run k on its right or on its left.
  predicate MateNext(rs: seq<Run>, k: int)
    requires 0 <= k < |rs|
  {
    k + 1 < |rs| && rs[k + 1].kind.Free? && rs[k + 1].dirty == rs[k].dirty
  }

  predicate MatePrev(rs: seq<Run>, k: int)
    requires 0 <= k < |rs|
  {
    k > 0 && rs[k - 1].kind.Free? && rs[k - 1].dirty == rs[k].dirty
  }

  function JoinedRun(rs: seq<Run>, k: int): Run
    requires 0 <= k < |rs| - 1
  {
    Run(rs[k].start, rs[k].pages + rs[k + 1].pages, Loose, rs[k].dirty)
  }

  function Joined(rs: seq<Run>, k: int): seq<Run>
    requires 0 <= k < |rs| - 1
  {
    Splice(rs, k, k + 2, [JoinedRun(rs, k)])
  }

  lemma JoinedAt(rs: seq<Run>, k: int)
    requires 0 <= k < |rs| - 1
    ensures k < |Joined(rs, k)| && Joined(rs, k)[k] == JoinedRun(rs, k)
  { }

  function MergedNext(rs: seq<Run>, k: int): (t: seq<Run>)
    requires 0 <= k < |rs|
    ensures k < |t|
  {
    if MateNext(rs, k) then Joined(SetKind(rs, k + 1, Loose), k) else rs
  }

  function MergedAt(rs: seq<Run>, k: int): int
    requires 0 <= k < |rs|
  {
    if MatePrev(rs, k) then k - 1 else k
  }

  function MergedPrev(rs: seq<Run>, k: int): (t: seq<Run>)
    requires 0 <= k < |rs|
    ensures 0 <= MergedAt(rs, k) < |t|
  {
    if MatePrev(rs, k) then Joined(SetKind(rs, k - 1, Loose), k - 1) else rs
  }

  // Run k joined with the free neighbours of its own dirtiness.
  function Coalesced(rs: seq<Run>, k: int): seq<Run>
    requires 0 <= k < |rs|
  {
    MergedPrev(MergedNext(rs, k), k)
  }

  function CoalescedAt(rs: seq<Run>, k: int): (k': int)
    requires 0 <= k < |rs|
    ensures 0 <= k' < |Coalesced(rs, k)|
  {
    MergedAt(MergedNext(rs, k), k)
  }

  lemma NextMeets(rs: seq<Run>, lo: nat, hi: nat, k: int)
    requires Tiles(rs, lo, hi) && 0 <= k < |rs|
    ensures if k + 1 < |rs| then rs[k + 1].start == End(rs[k]) else End(rs[k]) == hi
  {
    if k + 1 < |rs| { assert Meet(rs[k], rs[k + 1]); }
  }

  lemma PrevMeets(rs: seq<Run>, lo: nat, hi: nat, k: int)
    requires Tiles(rs, lo, hi) && 0 <= k < |rs|
    ensures if k > 0 then End(rs[k - 1]) == rs[k].start else rs[k].start == lo
  {
    if k > 0 { assert Meet(rs[k - 1], rs[k]); }
  }

  // The entry after a run tells whether there is a run to join, and its size.
  lemma NextEntry(bits: seq<Entry>, rs: seq<Run>, lo: nat, hi: nat, k: int)
    requires Tiles(rs, lo, hi) && Marks(bits, rs) && |bits| == hi && 0 <= k < |rs| && OthersSettled(rs, k)
    ensures var next := End(rs[k]);
            && next <= hi && (MateNext(rs, k) <==> next < hi && !bits[next].inUse && bits[next].dirty == rs[k].dirty)
            && (MateNext(rs, k) ==> next == rs[k + 1].start && bits[next].size == rs[k + 1].pages)
  {
    TilesWithin(rs, lo, hi, k);
    NextMeets(rs, lo, hi, k);
    if k + 1 < |rs| {
      TilesWithin(rs, lo, hi, k + 1);
      assert Marked(bits, rs[k + 1]) && Settled(rs[k + 1]);
      if rs[k + 1].kind.Small? { assert SmallMark(bits[rs[k + 1].start], 0, rs[k + 1].kind.binind); }
    }
  }

  lemma PrevEntry(bits: seq<Entry>, rs: seq<Run>, lo: nat, hi: nat, k: int)
    requires Tiles(rs, lo, hi) && Marks(bits, rs) && |bits| == hi && 0 <= k < |rs| && OthersSettled(rs, k) && 1 <= lo
    ensures var at := rs[k].start;
            && lo <= at <= hi
            && (MatePrev(rs, k) <==> at > lo && !bits[at - 1].inUse && bits[at - 1].dirty == rs[k].dirty)
            && (MatePrev(rs, k) ==> at - rs[k - 1].pages == rs[k - 1].start && bits[at - 1].size == rs[k - 1].pages)
  {
    TilesWithin(rs, lo, hi, k);
    PrevMeets(rs, lo, hi, k);
    if k > 0 {
      TilesWithin(rs, lo, hi, k - 1);
      assert Marked(bits, rs[k - 1]) && Settled(rs[k - 1]);
      if rs[k - 1].kind.Small? { assert SmallMark(bits[rs[k].start - 1], rs[k - 1].pages - 1, rs[k - 1].kind.binind); }
    }
  }

  lemma NextRemovable(rs: seq<Run>, k: int)
    requires 0 <= k < |rs| - 1 && OthersSettled(rs, k) && !rs[k].kind.Free?
    ensures Askable(rs, k + 1, false, true)
  { }

  lemma PrevRemovable(rs: seq<Run>, k: int)
    requires 0 < k < |rs| && OthersSettled(rs, k) && !rs[k].kind.Free?
    ensures Askable(rs, k - 1, true, false)
  { }

  lemma LooseJoin(bits: seq<Entry>, bits': seq<Entry>, rs: seq<Run>, k: int)
    requires 0 <= k < |rs| - 1 && Meet(rs[k], rs[k + 1]) && rs[k].kind.Loose? && rs[k + 1].kind.Loose?
    requires rs[k].dirty == rs[k + 1].dirty
    requires Marked(bits, rs[k]) && Marked(bits, rs[k + 1])
    requires var n := rs[k].pages + rs[k + 1].pages;
             bits' == bits[rs[k].start := bits[rs[k].start].(size := n)][End(rs[k + 1]) - 1 :=
                 bits[End(rs[k + 1]) - 1].(size := n)]
    ensures Tiles([JoinedRun(rs, k)], rs[k].start, End(rs[k + 1])) && Marks(bits', [JoinedRun(rs, k)])
    ensures NoFree(rs[k..k + 2]) && NoFree([JoinedRun(rs, k)]) && Outside(bits, bits', rs[k].start, End(rs[k + 1]))
    ensures ActivePages(rs[k..k + 2]) == ActivePages([JoinedRun(rs, k)]) == 0
  {
    assert rs[k..k + 2] == [rs[k], rs[k + 1]];
    assert [rs[k], rs[k + 1]][1..] == [rs[k + 1]] && [rs[k + 1]][1..] == [] && [JoinedRun(rs, k)][1..] == [];
  }

  lemma MergedNextRun(rs: seq<Run>, k: int)
    requires 0 <= k < |rs| && rs[k].kind.Loose? && OthersSettled(rs, k)
    ensures var t := MergedNext(rs, k);
            t[k].kind.Loose? && t[k].start == rs[k].start && t[k].dirty == rs[k].dirty && OthersSettled(t, k)
    ensures var t := MergedNext(rs, k); Alternates(rs) ==> Alternates(t) && NextApart(t, k)
  {
    var t := MergedNext(rs, k);
    if MateNext(rs, k) {
      forall i | 0 <= i < |t| && i != k ensures Settled(t[i]) { assert t[i] == if i < k then rs[i] else rs[i + 1]; }
      if Alternates(rs) {
        forall i, j | 0 <= i && j == i + 1 && j < |t| ensures Apart(t[i], t[j])
        {
          if j < k { assert Apart(rs[i], rs[j]); }
          if i > k { assert Apart(rs[i + 1], rs[j + 1]); }
        }
        if k + 2 < |rs| {
          assert t[k + 1] == rs[k + 2];
          assert Apart(rs[k + 1], rs[k + 2]);
        }
      }
    }
  }

  // Run k may be free beside its neighbours.
  predicate NextApart(rs: seq<Run>, k: int)
  {
    0 <= k < |rs| && (k + 1 < |rs| ==> Apart(rs[k].(kind := Free), rs[k + 1]))
  }

  predicate PrevApart(rs: seq<Run>, k: int) { 0 <= k < |rs| && (k > 0 ==> Apart(rs[k - 1], rs[k].(kind := Free))) }

  lemma MergedPrevRun(rs: seq<Run>, k: int)
    requires 0 <= k < |rs| && rs[k].kind.Loose? && OthersSettled(rs, k) && Alternates(rs) && NextApart(rs, k)
    ensures var t, k' := MergedPrev(rs, k), MergedAt(rs, k);
            t[k'].kind.Loose? && t[k'].dirty == rs[k].dirty && OthersSettled(t, k') && NextApart(t, k')
                && PrevApart(t, k')
  {
    var t, k' := MergedPrev(rs, k), MergedAt(rs, k);
    if MatePrev(rs, k) {
      forall i | 0 <= i < |t| && i != k' ensures Settled(t[i]) { assert t[i] == if i < k' then rs[i] else rs[i + 1]; }
      if k + 1 < |rs| { assert t[k] == rs[k + 1]; }
      if k' > 0 { assert Apart(rs[k' - 1], rs[k']); }
    }
  }

  lemma CoalescedRun(rs: seq<Run>, k: int)
    requires 0 <= k < |rs| && rs[k].kind.Loose? && OthersSettled(rs, k) && Alternates(rs)
    ensures var t, k' := Coalesced(rs, k), CoalescedAt(rs, k);
            t[k'].kind.Loose? && t[k'].dirty == rs[k].dirty && OthersSettled(t, k') && NextApart(t, k')
                && PrevApart(t, k')
  {
    hide MergedNext, MergedPrev, MergedAt, OthersSettled, Alternates, NextApart, PrevApart;
    MergedNextRun(rs, k);
    MergedPrevRun(MergedNext(rs, k), k);
  }

  // Run k given up with the given dirtiness.
  function Dropped(rs: seq<Run>, k: int, dirty: bool): seq<Run>
    requires 0 <= k < |rs|
  {
    rs[k := Run(rs[k].start, rs[k].pages, Loose, dirty)]
  }

  // Run k freed.
  function Freed(rs: seq<Run>, k: int, dirty: bool): seq<Run>
    requires 0 <= k < |rs|
  {
    var t := Dropped(rs, k, dirty);
    SetKind(Coalesced(t, k), CoalescedAt(t, k), Free)
  }

  // The runs in use.
  ghost function HeldIn(rs: seq<Run>): set<Run> { set k | 0 <= k < |rs| && Owned(rs[k]) :: rs[k] }

  lemma HeldInAt(rs: seq<Run>, k: int)
    requires 0 <= k < |rs| && Owned(rs[k])
    ensures rs[k] in HeldIn(rs)
  { }

  lemma HeldSplice(rs: seq<Run>, k: int, m: int, mid: seq<Run>)
    requires 0 <= k <= m <= |rs|
    ensures HeldIn(Splice(rs, k, m, mid)) == HeldIn(rs[..k]) + HeldIn(mid) + HeldIn(rs[m..])
  {
    HeldJoin(rs[..k], mid);
    HeldJoin(rs[..k] + mid, rs[m..]);
  }

  lemma HeldJoin(a: seq<Run>, b: seq<Run>)
    ensures HeldIn(a + b) == HeldIn(a) + HeldIn(b)
  {
    var t := a + b;
    forall r | r in HeldIn(a) ensures r in HeldIn(t)
    {
      var i :| 0 <= i < |a| && Owned(a[i]) && a[i] == r;
      assert t[i] == r;
    }
    forall r | r in HeldIn(b) ensures r in HeldIn(t)
    {
      var i :| 0 <= i < |b| && Owned(b[i]) && b[i] == r;
      assert t[|a| + i] == r;
    }
  }

  // Cutting and joining runs that nobody holds takes nothing from anybody.
  lemma HeldUnowned(rs: seq<Run>, k: int, m: int, mid: seq<Run>)
    requires 0 <= k <= m <= |rs| && HeldIn(rs[k..m]) == HeldIn(mid)
    ensures HeldIn(Splice(rs, k, m, mid)) == HeldIn(rs)
  {
    HeldSplice(rs, k, m, mid);
    HeldSplice(rs, k, m, rs[k..m]);
    assert Splice(rs, k, m, rs[k..m]) == rs;
  }

  lemma HeldKind(rs: seq<Run>, k: int, kind: Kind)
    requires 0 <= k < |rs| && !Owned(rs[k]) && !kind.Large? && !kind.Small?
    ensures HeldIn(SetKind(rs, k, kind)) == HeldIn(rs)
  {
    assert SetKind(rs, k, kind) == Splice(rs, k, k + 1, [rs[k].(kind := kind)]);
    assert rs[k..k + 1] == [rs[k]];
    HeldUnowned(rs, k, k + 1, [rs[k].(kind := kind)]);
  }

  lemma HeldJoined(rs: seq<Run>, k: int)
    requires 0 <= k < |rs| - 1 && !Owned(rs[k]) && !Owned(rs[k + 1])
    ensures HeldIn(Joined(rs, k)) == HeldIn(rs)
  {
    assert rs[k..k + 2] == [rs[k], rs[k + 1]];
    HeldUnowned(rs, k, k + 2, [JoinedRun(rs, k)]);
  }

  lemma HeldCoalesced(rs: seq<Run>, k: int)
    requires 0 <= k < |rs| && rs[k].kind.Loose? && OthersSettled(rs, k)
    ensures HeldIn(Coalesced(rs, k)) == HeldIn(rs)
  {
    hide HeldIn, Joined, OthersSettled;
    if MateNext(rs, k) {
      HeldKind(rs, k + 1, Loose);
      HeldJoined(SetKind(rs, k + 1, Loose), k);
    }
    MergedNextRun(rs, k);
    var t := MergedNext(rs, k);
    if MatePrev(t, k) {
      HeldKind(t, k - 1, Loose);
      HeldJoined(SetKind(t, k - 1, Loose), k - 1);
    }
  }

  lemma HeldDropped(rs: seq<Run>, lo: nat, hi: nat, k: int, dirty: bool)
    requires Tiles(rs, lo, hi) && 0 <= k < |rs|
    ensures HeldIn(Dropped(rs, k, dirty)) == HeldIn(rs) - {rs[k]}
  {
    hide Tiles;
    var t := Dropped(rs, k, dirty);
    forall r | r in HeldIn(rs) && r != rs[k] ensures r in HeldIn(t)
    {
      var i :| 0 <= i < |rs| && Owned(rs[i]) && rs[i] == r;
      assert t[i] == r;
    }
    forall r | r in HeldIn(t) ensures r in HeldIn(rs) && r != rs[k]
    {
      var i :| 0 <= i < |t| && Owned(t[i]) && t[i] == r;
      assert i != k && rs[i] == r;
      StartsDiffer(rs, lo, hi, i, k);
    }
  }

  // Freeing takes just this run from those in use.
  lemma HeldFreed(rs: seq<Run>, lo: nat, hi: nat, k: int, dirty: bool)
    requires Tiles(rs, lo, hi) && 0 <= k < |rs| && OthersSettled(rs, k)
    ensures HeldIn(Freed(rs, k, dirty)) == HeldIn(rs) - {rs[k]}
  {
    hide HeldIn, Coalesced, CoalescedAt, Tiles, MergedNext, MergedPrev;
    var t := Dropped(rs, k, dirty);
    HeldDropped(rs, lo, hi, k, dirty);
    assert OthersSettled(t, k);
    HeldCoalesced(t, k);
    DroppedCoalesces(rs, k, dirty);
    HeldKind(Coalesced(t, k), CoalescedAt(t, k), Free);
  }

  lemma DroppedCoalesces(rs: seq<Run>, k: int, dirty: bool)
    requires 0 <= k < |rs| && OthersSettled(rs, k)
    ensures var t := Dropped(rs, k, dirty); Coalesced(t, k)[CoalescedAt(t, k)].kind.Loose?
  {
    var t := Dropped(rs, k, dirty);
    MergedNextRun(t, k);
  }

  // Taking the front of a free run adds just that run to those in use.
  lemma HeldTaken(rs: seq<Run>, k: int, need: nat, kind: Kind)
    requires 0 <= k < |rs| && 0 < need <= rs[k].pages && rs[k].kind.Free? && (kind.Large? || kind.Small?)
    ensures HeldIn(Split(rs, k, need, kind)) == HeldIn(rs) + {Run(rs[k].start, need, kind, rs[k].dirty)}
  {
    var r := rs[k];
    var taken := Run(r.start, need, kind, r.dirty);
    var mid := [taken] + if need < r.pages then [Run(r.start + need, r.pages - need, Free, r.dirty)] else [];
    assert mid[0] == taken;
    assert HeldIn(mid) == {taken};
    assert rs[k..k + 1] == [r];
    assert HeldIn([r]) == {};
    HeldSplice(rs, k, k + 1, mid);
    HeldSplice(rs, k, k + 1, [r]);
    assert Splice(rs, k, k + 1, [r]) == rs;
  }

  // No page is handed out twice.
  lemma HeldDisjoint(rs: seq<Run>, lo: nat, hi: nat, a: Run, b: Run)
    requires Tiles(rs, lo, hi) && a in HeldIn(rs) && b in HeldIn(rs) && a != b
    ensures End(a) <= b.start || End(b) <= a.start
    ensures lo <= a.start < End(a) <= hi
  {
    hide Tiles;
    var i :| 0 <= i < |rs| && Owned(rs[i]) && rs[i] == a;
    var j :| 0 <= j < |rs| && Owned(rs[j]) && rs[j] == b;
    StartsDiffer(rs, lo, hi, i, j);
    TilesWithin(rs, lo, hi, i);
  }

  // Every page of a chunk is in one run, and runs do not overlap.
  lemma {:induction false} PageHasRun(rs: seq<Run>, lo: nat, hi: nat, p: nat)
    requires Tiles(rs, lo, hi) && lo <= p < hi
    ensures exists i :: 0 <= i < |rs| && rs[i].start <= p < End(rs[i])
    ensures forall i, j ::
              0 <= i < |rs| && 0 <= j < |rs| && rs[i].start <= p < End(rs[i]) && rs[j].start <= p < End(rs[j]) ==>
                  i == j
    decreases |rs|
  {
    forall i, j | 0 <= i < |rs| && 0 <= j < |rs| && i != j ensures End(rs[i]) <= rs[j].start
        || End(rs[j]) <= rs[i].start
    {
      StartsDiffer(rs, lo, hi, i, j);
    }
    var i := 0;
    while i < |rs| && End(rs[i]) <= p
      invariant 0 <= i <= |rs| && (i < |rs| ==> rs[i].start <= p) && (i == |rs| ==> hi <= p)
    {
      NextMeets(rs, lo, hi, i);
      i := i + 1;
    }
  }

  lemma KeptRun(b: Books, rss: seq<seq<Run>>, lo: nat, hi: nat, runPages: nat -> nat, c: nat, k: int)
    requires Kept(b, rss, lo, hi, runPages) && c < |rss| && 0 <= k < |rss[c]|
    ensures var r := rss[c][k];
            && c < |b.chunks| && lo <= r.start < End(r) <= hi == |b.chunks[c].bits| && Tiles(rss[c], lo, hi)
            && Alternates(rss[c])
            && Marks(b.chunks[c].bits, rss[c]) && Marked(b.chunks[c].bits, r)
            && (r.kind.Small? ==> r.pages == runPages(r.kind.binind))
  {
    assert Sound(b.chunks[c], rss[c], lo, hi, runPages);
    TilesWithin(rss[c], lo, hi, k);
  }

  lemma SplitReady(rs: seq<Run>, k: int, need: nat)
    requires 0 <= k < |rs| && OthersSettled(rs, k) && 0 < need < rs[k].pages && Alternates(rs) && rs[k].kind.Free?
    ensures var r := rs[k];
            var mid := [Run(r.start, need, Taken, r.dirty), Run(r.start + need, r.pages - need, Loose, r.dirty)];
            var t := Splice(SetKind(rs, k, Loose), k, k + 1, mid);
            && k + 1 < |t| && t[k + 1] == mid[1] && Askable(t, k + 1, false, true)
            && Apart(t[k], t[k + 1].(kind := Free))
            && (k + 2 < |t| ==> Apart(t[k + 1].(kind := Free), t[k + 2]))
  {
    var t := Splice(SetKind(rs, k, Loose), k, k + 1,
        [Run(rs[k].start, need, Taken, rs[k].dirty), Run(rs[k].start + need, rs[k].pages - need, Loose, rs[k].dirty)]);
    if k + 1 < |rs| {
      assert t[k + 2] == rs[k + 1];
      assert Apart(rs[k], rs[k + 1]);
    }
  }

  lemma SplitWhole(rs: seq<Run>, k: int, kind: Kind)
    requires 0 <= k < |rs| && rs[k].pages > 0
    ensures Splice(SetKind(rs, k, Loose), k, k + 1, [rs[k].(kind := kind)]) == Split(rs, k, rs[k].pages, kind)
  { }

  lemma SplitAt(rs: seq<Run>, k: int, need: nat, kind: Kind)
    requires 0 <= k < |rs| && 0 < need <= rs[k].pages
    ensures k < |Split(rs, k, need, kind)| && Split(rs, k, need, kind)[k] == Run(rs[k].start, need, kind, rs[k].dirty)
  { }

  lemma SplitRenamed(rs: seq<Run>, k: int, need: nat, kind: Kind)
    requires 0 <= k < |rs| && 0 < need <= rs[k].pages
    ensures k < |Split(rs, k, need, Taken)|
    ensures Splice(Split(rs, k, need, Taken), k, k + 1, [Run(rs[k].start, need, kind, rs[k].dirty)]) ==
            Split(rs, k, need, kind)
  { }

  lemma KeptChunk(b: Books, rss: seq<seq<Run>>, lo: nat, hi: nat, runPages: nat -> nat, c: nat)
    requires Kept(b, rss, lo, hi, runPages) && c < |rss|
    ensures |b.chunks| == |rss| && 1 <= lo < hi && |b.chunks[c].bits| == hi
    ensures c in b.dirtyChunks <==> b.chunks[c].ndirty != 0
  {
    assert Sound(b.chunks[c], rss[c], lo, hi, runPages);
  }
}
