// A cuckoo hash table with two buckets a key: what insertion with eviction, rebuilding,
// growing, shrinking and removal do to the map it stores.
module Cuckoo {
  import opened Basics

  // Cells of a bucket: 1 << LG_CKH_BUCKET_CELLS with 64-byte cache lines and 8-byte pointers.
  const CELLS := 4

  datatype Cell = Empty | Item(key: int, data: int)

  // How an operation that may evict ends. Evictions are chosen at random, and nothing bounds
  // their number: Running says that the given number of them was not enough.
  datatype Outcome = Done | Failed | Running

  predicate Has(tab: seq<Cell>, k: int, d: int) { Item(k, d) in tab }

  // The table holds exactly the items of m, each once.
  ghost predicate Stores(tab: seq<Cell>, m: map<int, int>)
  {
    && (forall i :: 0 <= i < |tab| && tab[i].Item? ==> tab[i].key in m && m[tab[i].key] == tab[i].data)
    && (forall k :: k in m ==> Has(tab, k, m[k]))
    && (forall i, j :: 0 <= i < j < |tab| && tab[i].Item? && tab[j].Item? ==> tab[i].key != tab[j].key)
  }

  lemma StoresPut(tab: seq<Cell>, m: map<int, int>, i: nat, k: int, d: int)
    requires Stores(tab, m) && i < |tab| && tab[i].Empty? && k !in m
    ensures Stores(tab[i := Item(k, d)], m[k := d])
  {
    var tab', m' := tab[i := Item(k, d)], m[k := d];
    assert tab'[i] == Item(k, d);
    forall x | x in m' ensures Has(tab', x, m'[x])
    {
      if x != k {
        assert Has(tab, x, m[x]);
        var j :| 0 <= j < |tab| && tab[j] == Item(x, m[x]);
        assert tab'[j] == Item(x, m[x]);
      }
    }
  }

  lemma StoresTake(tab: seq<Cell>, m: map<int, int>, i: nat)
    requires Stores(tab, m) && i < |tab| && tab[i].Item?
    ensures Stores(tab[i := Empty], m - {tab[i].key})
  {
    var tab', m' := tab[i := Empty], m - {tab[i].key};
    forall x | x in m' ensures Has(tab', x, m'[x])
    {
      assert Has(tab, x, m[x]);
      var j :| 0 <= j < |tab| && tab[j] == Item(x, m[x]);
      assert tab'[j] == Item(x, m'[x]);
    }
  }

  // An item takes the cell of another.
  lemma StoresSwap(tab: seq<Cell>, m: map<int, int>, i: nat, k: int, d: int)
    requires Stores(tab, m) && i < |tab| && tab[i].Item? && k !in m
    ensures Stores(tab[i := Item(k, d)], (m - {tab[i].key})[k := d])
  {
    StoresTake(tab, m, i);
    StoresPut(tab[i := Empty], m - {tab[i].key}, i, k, d);
    assert tab[i := Empty][i := Item(k, d)] == tab[i := Item(k, d)];
  }

  ghost function Used(tab: seq<Cell>): set<int> { set i | 0 <= i < |tab| && tab[i].Item? }

  // The count of items is the number of cells in use.
  lemma {:induction false} CountsCells(tab: seq<Cell>, m: map<int, int>)
    requires Stores(tab, m)
    ensures |m| == |Used(tab)|
    decreases |m|
  {
    hide Stores, Used;
    if i :| 0 <= i < |tab| && tab[i].Item? {
      StoresTake(tab, m, i);
      StoredAt(tab, m, i);
      OneLess(m, tab[i].key);
      CountsCells(tab[i := Empty], m - {tab[i].key});
      UsedTake(tab, i);
    } else {
      NoneUsed(tab, m);
    }
  }

  lemma UsedTake(tab: seq<Cell>, i: nat)
    requires i < |tab| && tab[i].Item?
    ensures |Used(tab)| == |Used(tab[i := Empty])| + 1
  {
    assert Used(tab) == Used(tab[i := Empty]) + {i};
  }

  lemma NoneUsed(tab: seq<Cell>, m: map<int, int>)
    requires Stores(tab, m) && forall i :: 0 <= i < |tab| ==> !tab[i].Item?
    ensures |m| == |Used(tab)| == 0
  {
    forall k ensures k !in m { HasIt(tab, m, k); }
    assert m == map[];
    assert Used(tab) == {};
  }

  lemma HasIt(tab: seq<Cell>, m: map<int, int>, k: int)
    requires Stores(tab, m)
    ensures k in m ==> exists i :: 0 <= i < |tab| && tab[i] == Item(k, m[k])
  { }

  lemma OneLess(m: map<int, int>, k: int)
    requires k in m
    ensures |m - {k}| == |m| - 1
  {
    assert (m - {k}).Keys == m.Keys - {k} && |m| == |m.Keys| && |m - {k}| == |(m - {k}).Keys|;
  }

  predicate IsBucket(b: nat, k: int, n: nat, hash: int -> (nat, nat))
    requires n > 0
  {
    b == hash(k).0 % n || b == hash(k).1 % n
  }

  // Every item lies in one of its two buckets.
  predicate Housed(tab: seq<Cell>, n: nat, hash: int -> (nat, nat))
  {
    n > 0 && forall i :: 0 <= i < |tab| && tab[i].Item? ==> IsBucket(i / CELLS, tab[i].key, n, hash)
  }

  predicate FullBucket(tab: seq<Cell>, b: nat)
  {
    CELLS * b + CELLS <= |tab| && forall i :: CELLS * b <= i < CELLS * b + CELLS ==> tab[i].Item?
  }

  // Some cell of the key's two buckets is free.
  predicate HasRoom(tab: seq<Cell>, k: int, n: nat, hash: int -> (nat, nat))
    requires n > 0
  {
    !FullBucket(tab, hash(k).0 % n) || !FullBucket(tab, hash(k).1 % n)
  }

  // No item of the bucket can go anywhere else.
  predicate Stuck(tab: seq<Cell>, b: nat, n: nat, hash: int -> (nat, nat))
    requires n > 0
  {
    && CELLS * b + CELLS <= |tab|
    && forall i :: CELLS * b <= i < CELLS * b + CELLS && tab[i].Item? ==> Homed(tab[i].key, b, n, hash)
  }

  predicate Homed(k: int, b: nat, n: nat, hash: int -> (nat, nat))
    requires n > 0
  {
    hash(k).0 % n == b && hash(k).1 % n == b
  }

  // Where an item of bucket b goes when it is evicted.
  function Other(k: int, b: nat, n: nat, hash: int -> (nat, nat)): nat
    requires n > 0
  {
    if hash(k).1 % n == b then hash(k).0 % n else hash(k).1 % n
  }

  // Evictions lead from full buckets to full ones of lower rank only, so they go in no circle.
  ghost predicate Ranked(tab: seq<Cell>, rank: map<nat, nat>, n: nat, hash: int -> (nat, nat))
    requires n > 0
  {
    forall i :: 0 <= i < |tab| && tab[i].Item? && i / CELLS in rank ==>
        Descends(tab, rank, n, hash, tab[i].key, i / CELLS)
  }

  predicate Descends(tab: seq<Cell>, rank: map<nat, nat>, n: nat, hash: int -> (nat, nat), k: int, b: nat)
    requires n > 0 && b in rank
  {
    FullBucket(tab, Other(k, b, n, hash)) ==> Other(k, b, n, hash) in rank && rank[Other(k, b, n, hash)] < rank[b]
  }

  // Whatever the choices, evictions from full bucket b may go on forever; or, with a number of steps,
  // for so many steps.
  ghost predicate Circling(tab: seq<Cell>, b: nat, n: nat, hash: int -> (nat, nat), steps: Option<nat>)
    requires n > 0
  {
    forall rank: map<nat, nat> :: b in rank && Ranked(tab, rank, n, hash) ==> steps.Some? && rank[b] >= steps.value
  }

  lemma Pick(tab: seq<Cell>, b: nat, n: nat, hash: int -> (nat, nat), steps: nat) returns (rank: map<nat, nat>)
    requires n > 0
    ensures Circling(tab, b, n, hash, None) || (b in rank && Ranked(tab, rank, n, hash))
    ensures Circling(tab, b, n, hash, Some(steps)) ||
            (b in rank && Ranked(tab, rank, n, hash) && rank[b] < steps)
  {
    hide Ranked;
    if !Circling(tab, b, n, hash, Some(steps)) {
      rank :| b in rank && Ranked(tab, rank, n, hash) && rank[b] < steps;
    } else if !Circling(tab, b, n, hash, None) {
      rank :| b in rank && Ranked(tab, rank, n, hash);
    } else {
      rank := map[];
    }
  }

  // An item that finds no free cell, and no way to free one in so many steps.
  ghost predicate NoWay(tab: seq<Cell>, k: int, n: nat, hash: int -> (nat, nat), steps: Option<nat>)
    requires n > 0
  {
    !HasRoom(tab, k, n, hash) && Circling(tab, hash(k).1 % n, n, hash, steps)
  }

  // Some of the items of m lie in a table of n buckets such that another one finds no way in.
  ghost predicate Jam(tab: seq<Cell>, part: map<int, int>, k: int, m: map<int, int>, n: nat,
      hash: int -> (nat, nat), steps: Option<nat>)
  {
    && |tab| == CELLS * n && Stores(tab, part) && Housed(tab, n, hash)
    && part.Keys <= m.Keys && k in m && k !in part && NoWay(tab, k, n, hash, steps)
  }

  ghost predicate Jams(m: map<int, int>, n: nat, hash: int -> (nat, nat), steps: Option<nat>)
  {
    exists tab, part, k :: Jam(tab, part, k, m, n, hash, steps)
  }

  lemma JamsMore(m: map<int, int>, m': map<int, int>, n: nat, hash: int -> (nat, nat), steps: Option<nat>)
    requires Jams(m, n, hash, steps) && m.Keys <= m'.Keys
    ensures Jams(m', n, hash, steps)
  {
    hide Stores, Housed, NoWay;
    var tab, part, k :| Jam(tab, part, k, m, n, hash, steps);
    assert k in m.Keys;
    assert Jam(tab, part, k, m', n, hash, steps);
  }

  // The items may jam a table of any size from lo to hi.
  ghost predicate Useless(m: map<int, int>, lo: nat, hi: nat, hash: int -> (nat, nat))
  {
    forall l: nat :: lo <= l < hi ==> Jams(m, Power(l), hash, None)
  }

  // A table of this many buckets is not to be had.
  predicate Refused(lg: nat, grants: nat -> bool, lgMax: nat) { lg > lgMax || !grants(lg) }

  // Some size above lo is refused, and the items may jam every smaller table above lo.
  ghost predicate Exhausted(m: map<int, int>, lo: nat, grants: nat -> bool, lgMax: nat, hash: int -> (nat, nat))
  {
    exists top: nat :: lo < top && Refused(top, grants, lgMax) && Useless(m, lo + 1, top, hash)
  }

  // So there is no size from lo on that would surely do.
  ghost predicate NoMemory(m: map<int, int>, lo: nat, grants: nat -> bool, lgMax: nat, hash: int -> (nat, nat))
  {
    Exhausted(m, lo, grants, lgMax, hash) && Jams(m, Power(lo), hash, None)
  }

  // The keys of m that may lie in bucket b.
  ghost function Rivals(m: map<int, int>, b: nat, n: nat, hash: int -> (nat, nat)): set<int>
    requires n > 0
  {
    set k | k in m && IsBucket(b, k, n, hash)
  }

  // Where each key has a bucket that can hold all keys that may lie in it, nothing jams.
  lemma Spacious(m: map<int, int>, n: nat, hash: int -> (nat, nat), steps: Option<nat>)
    requires n > 0
    requires forall k :: k in m ==>
               |Rivals(m, hash(k).0 % n, n, hash)| <= CELLS || |Rivals(m, hash(k).1 % n, n, hash)| <= CELLS
    ensures !Jams(m, n, hash, steps)
  {
    hide Rivals, Stores, Housed, FullBucket, Circling;
    if Jams(m, n, hash, steps) {
      var tab, part, k :| Jam(tab, part, k, m, n, hash, steps);
      Crowded(tab, part, k, m, hash(k).0 % n, n, hash);
      Crowded(tab, part, k, m, hash(k).1 % n, n, hash);
    }
  }

  lemma Crowded(tab: seq<Cell>, part: map<int, int>, k: int, m: map<int, int>, b: nat, n: nat,
      hash: int -> (nat, nat))
    requires n > 0 && Stores(tab, part) && Housed(tab, n, hash) && FullBucket(tab, b) && IsBucket(b, k, n, hash)
    requires part.Keys <= m.Keys && k in m && k !in part
    ensures |Rivals(m, b, n, hash)| > CELLS
  {
    var i := CELLS * b;
    assert i / CELLS == (i + 1) / CELLS == (i + 2) / CELLS == (i + 3) / CELLS == b;
    var five := {tab[i].key, tab[i + 1].key, tab[i + 2].key, tab[i + 3].key, k};
    assert forall x :: x in five && x != k ==> x in part.Keys;
    assert |five| == 5;
    assert five <= Rivals(m, b, n, hash);
    Smaller(five, Rivals(m, b, n, hash));
  }

  // What the evictions so far left alone: everything from the current bucket's rank down.
  ghost predicate Below(was: seq<Cell>, tab: seq<Cell>, rank: map<nat, nat>, bucket: nat)
  {
    && |was| == |tab| && bucket in rank && (forall i :: 0 <= i < |tab| ==> (tab[i].Item? <==> was[i].Item?))
    && forall i :: 0 <= i < |tab| && i / CELLS in rank && rank[i / CELLS] <= rank[bucket] ==> tab[i] == was[i]
  }

  lemma SameFull(was: seq<Cell>, tab: seq<Cell>, b: nat)
    requires |was| == |tab| && forall i :: 0 <= i < |tab| ==> (tab[i].Item? <==> was[i].Item?)
    ensures FullBucket(tab, b) <==> FullBucket(was, b)
  { }

  // One turn goes down in rank, or to a bucket with room.
  lemma Lower(was: seq<Cell>, tab: seq<Cell>, rank: map<nat, nat>, n: nat, hash: int -> (nat, nat), bucket: nat, c: nat,
      item: Cell)
    requires n > 0 && Ranked(was, rank, n, hash) && Below(was, tab, rank, bucket) && c < |tab| && c / CELLS == bucket
    requires tab[c].Item? && item.Item?
    ensures var b := Other(tab[c].key, bucket, n, hash);
            && (FullBucket(tab[c := item], b) <==> FullBucket(was, b))
            && (FullBucket(was, b) ==> b in rank && rank[b] < rank[bucket] && Below(was, tab[c := item], rank, b))
  {
    assert Descends(was, rank, n, hash, was[c].key, bucket);
    SameFull(was, tab[c := item], Other(tab[c].key, bucket, n, hash));
  }

  // all without the item that is on its way between buckets.
  ghost predicate Lacks(m: map<int, int>, all: map<int, int>, key: int, data: int)
  {
    key in all && all[key] == data && m == all - {key}
  }

  // m has the items in the first n cells.
  ghost predicate First(tab: seq<Cell>, n: nat, all: map<int, int>, m: map<int, int>)
    requires n <= |tab|
  {
    && (forall k :: k in m ==> k in all && m[k] == all[k] && Has(tab[..n], k, all[k]))
    && (forall k :: k in all && Has(tab[..n], k, all[k]) ==> k in m)
  }

  lemma FirstNext(tab: seq<Cell>, n: nat, all: map<int, int>, m: map<int, int>)
    requires n < |tab| && First(tab, n, all, m) && Stores(tab, all)
    ensures tab[n].Empty? ==> First(tab, n + 1, all, m)
    ensures tab[n].Item? ==> tab[n].key !in m && First(tab, n + 1, all, m[tab[n].key := tab[n].data])
  {
    assert tab[..n + 1] == tab[..n] + [tab[n]];
  }

  lemma FirstAll(tab: seq<Cell>, n: nat, all: map<int, int>, m: map<int, int>)
    requires n <= |tab| && First(tab, n, all, m) && Stores(tab, all)
    ensures |m| <= |all| && (|m| == |all| || n == |tab| ==> m == all)
  {
    forall k | k in m.Keys ensures k in all.Keys { assert k in m; }
    Smaller(m.Keys, all.Keys);
    assert |m| == |m.Keys| && |all| == |all.Keys|;
    if n == |tab| {
      assert tab[..n] == tab;
      forall k | k in all ensures k in m { assert Has(tab, k, all[k]); }
      assert m.Keys == all.Keys;
    }
    if m.Keys == all.Keys {
      forall k | k in all ensures k in m && m[k] == all[k] { assert k in m.Keys; }
    }
  }

  lemma Smaller(a: set<int>, b: set<int>)
    requires a <= b
    ensures |a| <= |b| && (|a| == |b| ==> a == b)
  {
    assert b == a + (b - a);
  }

  class Table {
    const hash: int -> (nat, nat)
    const lgMin: nat
    // No allocation of more than this many buckets can succeed.
    const lgMax: nat
    var tab: seq<Cell>
    var count: nat
    var lgCur: nat
    // The map that the table stands for.
    ghost var m: map<int, int>

    ghost predicate Valid()
      reads this
    {
      && |tab| == CELLS * Power(lgCur) && lgMin <= lgCur
      && Stores(tab, m) && Housed(tab, Power(lgCur), hash) && count == |m|
    }

    // ckh_bucket_search
    method BucketSearch(bucket: nat, key: int) returns (cell: int)
      requires bucket < Power(lgCur) && |tab| == CELLS * Power(lgCur)
      ensures cell == -1 ==> forall i :: CELLS * bucket <= i < CELLS * bucket + CELLS ==>
                !(tab[i].Item? && tab[i].key == key)
      ensures cell != -1 ==> 0 <= cell < |tab| && tab[cell].Item? && tab[cell].key == key
    {
      for i := 0 to CELLS
        invariant forall j :: CELLS * bucket <= j < CELLS * bucket + i ==> !(tab[j].Item? && tab[j].key == key)
      {
        if tab[CELLS * bucket + i].Item? && tab[CELLS * bucket + i].key == key {
          return CELLS * bucket + i;
        }
      }
      cell := -1;
    }

    // ckh_isearch
    method ISearch(key: int) returns (cell: int)
      requires Valid()
      ensures cell == -1 <==> key !in m
      ensures cell != -1 ==> 0 <= cell < |tab| && tab[cell] == Item(key, m[key])
    {
      var hashes := hash(key);
      var n := Power(lgCur);
      cell := BucketSearch(hashes.0 % n, key);
      if cell == -1 {
        cell := BucketSearch(hashes.1 % n, key);
      }
      if cell == -1 {
        forall i | 0 <= i < |tab| ensures !(tab[i].Item? && tab[i].key == key)
        {
          assert CELLS * (i / CELLS) <= i < CELLS * (i / CELLS) + CELLS;
          if tab[i].Item? { assert IsBucket(i / CELLS, tab[i].key, n, hash); }
        }
        assert key in m ==> Has(tab, key, m[key]);
      }
    }

    // ckh_search
    method Search(key: int) returns (missing: bool, data: int)
      requires Valid()
      ensures missing <==> key !in m
      ensures !missing ==> data == m[key]
    {
      var cell := ISearch(key);
      if cell != -1 {
        return false, tab[cell].data;
      }
      return true, 0;
    }

    // prng32: some cell of a bucket.
    method Random() returns (i: nat)
      ensures i < CELLS
    {
      i :| 0 <= i < CELLS;
    }

    // ckh_try_bucket_insert
    method TryBucketInsert(bucket: nat, key: int, data: int) returns (full: bool)
      requires Valid() && bucket < Power(lgCur) && IsBucket(bucket, key, Power(lgCur), hash) && key !in m
      modifies this`tab, this`count, this`m
      ensures Valid()
      ensures full ==> m == old(m) && tab == old(tab) && FullBucket(tab, bucket)
      ensures !full ==> m == old(m)[key := data] && !FullBucket(old(tab), bucket)
    {
      hide Stores, Power;
      var offset := Random();
      ghost var seen: set<nat> := {};
      for i := 0 to CELLS
        invariant tab == old(tab) && m == old(m) && count == old(count)
        invariant forall j :: 0 <= j < i ==> tab[CELLS * bucket + Wrapped(j, offset)].Item?
      {
        var c := CELLS * bucket + Wrapped(i, offset);
        if tab[c].Empty? {
          StoresPut(tab, m, c, key, data);
          tab := tab[c := Item(key, data)];
          count := count + 1;
          m := m[key := data];
          return false;
        }
      }
      forall c | CELLS * bucket <= c < CELLS * bucket + CELLS ensures tab[c].Item?
      {
        WrapAround(c - CELLS * bucket, offset);
      }
      return true;
    }

    // The carried item takes the cell of a random one of its bucket; that one is carried on, to
    // its other bucket.
    method Evict(bucket: nat, key: int, data: int, ghost all: map<int, int>)
        returns (tkey: int, tdata: int, tbucket: nat, ghost c: nat)
      requires Valid() && bucket < Power(lgCur) && IsBucket(bucket, key, Power(lgCur), hash)
      requires FullBucket(tab, bucket) && Lacks(m, all, key, data)
      modifies this`tab, this`m
      ensures Valid() && Lacks(m, all, tkey, tdata) && tkey !in m && m[tkey := tdata] == all && tkey in old(m)
      ensures key in m
      ensures c < |old(tab)| && c / CELLS == bucket && old(tab)[c] == Item(tkey, tdata)
      ensures tab == old(tab)[c := Item(key, data)]
      ensures tbucket < Power(lgCur) && IsBucket(tbucket, tkey, Power(lgCur), hash)
      ensures tbucket == Other(tkey, bucket, Power(lgCur), hash)
      ensures Stuck(old(tab), bucket, Power(lgCur), hash) ==> tbucket == bucket
    {
      hide Stores, Power, Lacks, Housed, FullBucket, IsBucket, Stuck;
      var i := Random();
      c := CELLS * bucket + i;
      var cell := CELLS * bucket + i;
      StuckAt(tab, bucket, i, Power(lgCur), hash);
      HousedAt(tab, m, Power(lgCur), hash, c, bucket, i, key, data);
      tkey, tdata := tab[cell].key, tab[cell].data;
      Carried(m, all, key, data);
      StoresSwap(tab, m, c, key, data);
      Swapped(m, all, key, data, tkey, tdata, tab, c);
      m := (m - {tkey})[key := data];
      tab := tab[cell := Item(key, data)];
      var hashes := hash(tkey);
      tbucket := hashes.1 % Power(lgCur);
      if tbucket == bucket {
        tbucket := hashes.0 % Power(lgCur);
      }
      OtherBucket(tkey, Power(lgCur), hash, bucket, tbucket);
      Carried(m, all, tkey, tdata);
    }

    // The carried item starts out as the one to insert, in a full bucket of its own. Every turn
    // swaps it with a random one there, and tries the other bucket of that one.
    // ckh_evict_reloc_insert
    method EvictRelocInsert(argBucket: nat, argKey: int, argData: int, steps: nat)
        returns (r: Outcome, key: int, data: int)
      requires Valid() && argBucket < Power(lgCur) && IsBucket(argBucket, argKey, Power(lgCur), hash) && argKey !in m
      requires FullBucket(tab, argBucket)
      modifies this`tab, this`count, this`m
      ensures Valid()
      ensures r == Done ==> m == old(m)[argKey := argData]
      ensures r != Done ==> Lacks(m, old(m)[argKey := argData], key, data)
      ensures r == Failed ==> key != argKey && key in old(m) && argKey in m
      ensures steps > 0 && Stuck(old(tab), argBucket, Power(lgCur), hash) ==> r == Failed
      // Without a circle every choice ends well, after at most as many turns as the rank tells.
      ensures r == Failed ==> Circling(old(tab), argBucket, Power(lgCur), hash, None)
      ensures r == Running ==> Circling(old(tab), argBucket, Power(lgCur), hash, Some(steps))
    {
      hide Stores, Power, Lacks, Housed, FullBucket, IsBucket, Stuck, Ranked, Below, Other, Circling;
      ghost var all := m[argKey := argData];
      NewLacks(m, argKey, argData);
      var bucket: nat := argBucket;
      // Where the new item is.
      ghost var home: nat := 0;
      ghost var rank := Pick(tab, argBucket, Power(lgCur), hash, steps);
      ghost var ranked := argBucket in rank && Ranked(tab, rank, Power(lgCur), hash);
      if ranked { BelowStart(tab, rank, argBucket); }
      key, data := argKey, argData;
      for turn := 0 to steps
        invariant Valid() && Lacks(m, all, key, data)
        invariant bucket < Power(lgCur) && IsBucket(bucket, key, Power(lgCur), hash) && FullBucket(tab, bucket)
        invariant turn == 0 ==> bucket == argBucket && key == argKey && data == argData && tab == old(tab)
        invariant turn > 0 ==>
                    bucket != argBucket && home / CELLS == argBucket && home < |tab|
                        && tab[home] == Item(argKey, argData)
        invariant turn > 0 ==> !Stuck(old(tab), argBucket, Power(lgCur), hash)
        invariant ranked ==>
                    Below(old(tab), tab, rank, bucket) && bucket in rank && rank[bucket] + turn <= rank[argBucket]
      {
        ghost var before, from := tab, bucket;
        ghost var c;
        var tbucket;
        key, data, tbucket, c := Evict(bucket, key, data, all);
        if turn == 0 { home := c; }
        if ranked { Lower(old(tab), before, rank, Power(lgCur), hash, from, c, tab[c]); }
        StoredAt(tab, m, home);
        NewStays(m, all, argKey, key, data);
        if tbucket == argBucket {
          return Failed, key, data;
        }
        bucket := tbucket;
        var full := TryBucketInsert(bucket, key, data);
        if !full {
          return Done, key, data;
        }
      }
      r := Running;
    }

    // ckh_try_insert
    method TryInsert(argKey: int, argData: int, steps: nat) returns (r: Outcome, key: int, data: int)
      requires Valid() && argKey !in m
      modifies this`tab, this`count, this`m
      ensures Valid()
      ensures r == Done ==> m == old(m)[argKey := argData]
      ensures r != Done ==> Lacks(m, old(m)[argKey := argData], key, data)
      ensures HasRoom(old(tab), argKey, Power(lgCur), hash) ==> r == Done
      ensures r == Failed ==> key != argKey && key in old(m) && argKey in m
      ensures var n := Power(lgCur);
              steps > 0 && !HasRoom(old(tab), argKey, n, hash) && Stuck(old(tab), hash(argKey).1 % n, n, hash) ==>
                  r == Failed
      ensures r == Failed ==> NoWay(old(tab), argKey, Power(lgCur), hash, None)
      ensures r == Running ==> NoWay(old(tab), argKey, Power(lgCur), hash, Some(steps))
    {
      hide Stores, Power, FullBucket, Stuck, Circling;
      var hashes := hash(argKey);
      key, data := argKey, argData;
      var bucket: nat := hashes.0 % Power(lgCur);
      var full := TryBucketInsert(bucket, key, data);
      if !full {
        return Done, key, data;
      }
      bucket := hashes.1 % Power(lgCur);
      full := TryBucketInsert(bucket, key, data);
      if !full {
        return Done, key, data;
      }
      r, key, data := EvictRelocInsert(bucket, key, data, steps);
    }

    // ckh_rebuild: all items of the old table go into the new one, or its count is restored.
    method Rebuild(aTab: seq<Cell>, steps: nat) returns (r: Outcome)
      requires |tab| == CELLS * Power(lgCur) && lgMin <= lgCur && (forall i :: 0 <= i < |tab| ==> tab[i].Empty?)
      requires Stores(aTab, m) && count == |m|
      modifies this`tab, this`count, this`m
      ensures r == Done ==> Valid() && m == old(m)
      ensures r == Failed ==> count == old(count)
      ensures r == Failed ==> Jams(old(m), Power(lgCur), hash, None)
      ensures r == Running ==> Jams(old(m), Power(lgCur), hash, Some(steps))
    {
      hide Power, NoWay, Jams;
      ghost var all := m;
      var total := count;
      count := 0;
      m := map[];
      var i, nins := 0, 0;
      assert First(aTab, 0, all, m);
      while nins < total
        invariant Valid() && i <= |aTab| && First(aTab, i, all, m) && nins == count && total == |all|
        decreases |aTab| - i
      {
        FirstAll(aTab, i, all, m);
        FirstNext(aTab, i, all, m);
        if aTab[i].Item? {
          ghost var before, part := tab, m;
          var o, key, data := TryInsert(aTab[i].key, aTab[i].data, steps);
          if o != Done {
            Jammed(before, part, aTab[i].key, all, Power(lgCur), hash, if o == Failed then None else Some(steps));
            count := total;
            return o;
          }
          nins := nins + 1;
        }
        i := i + 1;
      }
      FirstAll(aTab, i, all, m);
      r := Done;
    }

    // ipalloc, zeroed; no more than the address space holds, and than there is memory for. An
    // operation asks for each size at most once.
    method Allocate(lgBuckets: nat, grants: nat -> bool) returns (ok: bool, cells: seq<Cell>)
      ensures ok <==> !Refused(lgBuckets, grants, lgMax)
      ensures ok ==> |cells| == CELLS * Power(lgBuckets) && forall i :: 0 <= i < |cells| ==> cells[i].Empty?
    {
      ok := lgBuckets <= lgMax && grants(lgBuckets);
      cells := if ok then seq(CELLS * Power(lgBuckets), _ => Empty) else [];
    }

    // ckh_grow: doubles the table until all items find a place, or fails and leaves it alone.
    method Grow(steps: nat, grants: nat -> bool) returns (r: Outcome)
      requires Valid()
      modifies this`tab, this`count, this`m, this`lgCur
      ensures r != Running ==> Valid() && m == old(m)
      ensures r == Failed ==> tab == old(tab) && lgCur == old(lgCur)
      ensures r == Done ==> lgCur > old(lgCur) && lgCur <= lgMax
      ensures old(lgCur) >= lgMax ==> r == Failed
      ensures lgCur == old(lgCur) || old(lgCur) < lgCur <= lgMax
      // It fails for want of memory only, and takes the first size that the items cannot jam.
      ensures r == Failed ==> Exhausted(old(m), old(lgCur), grants, lgMax, hash)
      ensures Useless(old(m), old(lgCur) + 1, lgCur, hash)
      ensures r != Failed ==> old(lgCur) < lgCur && !Refused(lgCur, grants, lgMax)
      ensures r == Running ==> Jams(old(m), Power(lgCur), hash, Some(steps))
    {
      hide Power, Stores, Housed, Jams, Refused;
      var lgPrev := lgCur;
      var lgNext := lgCur;
      ghost var all := m;
      while true
        invariant lgNext >= lgPrev == lgCur == old(lgCur) && (lgNext > lgPrev ==> lgNext <= lgMax)
        invariant Valid() && m == all && tab == old(tab) && Useless(all, lgPrev + 1, lgNext + 1, hash)
        decreases lgMax - lgNext
      {
        lgNext := lgNext + 1;
        var ok, cells := Allocate(lgNext, grants);
        RefusedAbove(lgNext, grants, lgMax);
        if !ok {
          return Failed;
        }
        var ttab := tab;
        tab := cells;
        lgCur := lgNext;
        r := Rebuild(ttab, steps);
        if r == Done || r == Running {
          return;
        }
        tab := ttab;
        lgCur := lgPrev;
        m := all;
      }
    }

    // ckh_shrink: a failure of any kind leaves the table alone.
    method Shrink(steps: nat, grants: nat -> bool) returns (r: Outcome)
      requires Valid() && lgCur > lgMin
      modifies this`tab, this`count, this`m, this`lgCur
      ensures r != Running ==> Valid() && m == old(m)
      ensures r == Failed ==> tab == old(tab) && lgCur == old(lgCur)
      ensures r != Failed ==> lgCur == old(lgCur) - 1
      ensures r == Failed ==>
                Refused(old(lgCur) - 1, grants, lgMax) || Jams(old(m), Power(old(lgCur) - 1), hash, None)
      ensures r == Running ==> Jams(old(m), Power(old(lgCur) - 1), hash, Some(steps))
    {
      hide Power, Stores, Housed, Jams, Refused;
      var lgPrev := lgCur;
      ghost var all := m;
      var ok, cells := Allocate(lgCur - 1, grants);
      if !ok {
        return Failed;
      }
      var ttab := tab;
      tab := cells;
      lgCur := lgCur - 1;
      r := Rebuild(ttab, steps);
      if r == Failed {
        tab := ttab;
        lgCur := lgPrev;
        m := all;
      }
    }

    // ckh_insert. If the table cannot grow, then the item carried last is missing. Unless the
    // table grew before, that is one that was stored, and the new one is in its place.
    method Insert(argKey: int, argData: int, steps: nat, grants: nat -> bool)
        returns (r: Outcome, ghost key: int, ghost data: int)
      requires Valid() && argKey !in m
      modifies this`tab, this`count, this`m, this`lgCur
      ensures r != Running ==> Valid() && (lgCur == old(lgCur) || old(lgCur) < lgCur <= lgMax)
      ensures r == Done ==> m == old(m)[argKey := argData]
      ensures r == Failed ==> Lacks(m, old(m)[argKey := argData], key, data)
      ensures r == Failed && lgCur == old(lgCur) ==> key != argKey && key in old(m) && argKey in m
      ensures HasRoom(old(tab), argKey, Power(old(lgCur)), hash) ==> r == Done && lgCur == old(lgCur)
      ensures var n := Power(old(lgCur));
              steps > 0 && old(lgCur) >= lgMax && !HasRoom(old(tab), argKey, n, hash)
                  && Stuck(old(tab), hash(argKey).1 % n, n, hash) ==>
                r == Failed && lgCur == old(lgCur)
      ensures var n := Power(old(lgCur));
              steps > 0 && !HasRoom(old(tab), argKey, n, hash) && Stuck(old(tab), hash(argKey).1 % n, n, hash) ==>
                r == Failed || lgCur > old(lgCur)
      // Whatever the choices, it is done unless the item finds no way in.
      ensures r == Failed || lgCur > old(lgCur) ==> NoWay(old(tab), argKey, Power(old(lgCur)), hash, None)
      ensures r == Running ==> NoWay(old(tab), argKey, Power(old(lgCur)), hash, Some(steps))
      // It fails for want of memory only: some larger size was refused, and all smaller ones may
      // jam. The table takes the first size, from its own on, that the items do not jam.
      ensures var all := old(m)[argKey := argData];
              && (r == Failed ==> NoMemory(all, old(lgCur), grants, lgMax, hash))
              && Useless(all, old(lgCur), lgCur, hash)
              && (lgCur > old(lgCur) ==> !Refused(lgCur, grants, lgMax))
              && (r == Running ==> Jams(all, Power(lgCur), hash, Some(steps)))
    {
      hide Power, Stores, Housed, HasRoom, Stuck, NoWay, Jams, Refused, Exhausted, Useless, Lacks;
      NewLacks(m, argKey, argData);
      ghost var all := m[argKey := argData];
      var k, d := argKey, argData;
      key, data := k, d;
      UselessNone(all, lgCur, hash);
      while true
        invariant Valid() && Lacks(m, all, k, d) && (lgCur == old(lgCur) || old(lgCur) < lgCur <= lgMax)
        invariant lgCur == old(lgCur) ==> tab == old(tab) && m == old(m) && k == argKey && d == argData
        invariant lgCur > old(lgCur) ==> !HasRoom(old(tab), argKey, Power(old(lgCur)), hash) && old(lgCur) < lgMax
        invariant lgCur > old(lgCur) ==>
                    NoWay(old(tab), argKey, Power(old(lgCur)), hash, None) && !Refused(lgCur, grants, lgMax)
        invariant Useless(all, old(lgCur), lgCur, hash)
        decreases lgMax - lgCur
      {
        ghost var before, was, carried := m, tab, k;
        LacksKeys(m, all, k, d);
        var o;
        o, k, d := TryInsert(k, d, steps);
        key, data := k, d;
        StillLacks(before, all, m);
        if o != Done {
          Jammed(was, before, carried, all, Power(lgCur), hash, if o == Failed then None else Some(steps));
          if lgCur > old(lgCur) { Anyhow(old(tab), argKey, Power(old(lgCur)), hash, steps); }
        }
        if o != Failed {
          return o, k, d;
        }
        LacksKeys(m, all, k, d);
        ghost var m0, lg0 := m, lgCur;
        o := Grow(steps, grants);
        if o == Failed {
          ExhaustedJoin(all, m0, old(lgCur), lg0, grants, lgMax, hash);
          return o, k, d;
        }
        UselessJoin(all, m0, old(lgCur), lg0, lgCur, hash);
        if o == Running {
          JamsMore(m0, all, Power(lgCur), hash, Some(steps));
          Anyhow(old(tab), argKey, Power(old(lgCur)), hash, steps);
          return o, k, d;
        }
      }
    }

    // In a table of one bucket.
    lemma OneBucketRoom(k: int)
      requires Valid() && lgCur == 0
      ensures Power(0) == 1 && (HasRoom(tab, k, 1, hash) <==> |m| < CELLS)
      ensures hash(k).1 % 1 == 0 && Stuck(tab, 0, 1, hash)
    {
      OneBucket(tab, m, k, hash);
    }

    method ClearCell(cell: nat)
      requires Valid() && cell < |tab| && tab[cell].Item?
      modifies this`tab, this`count, this`m
      ensures Valid() && m == old(m) - {old(tab[cell]).key} && count == |m| == |old(m)| - 1
    {
      hide Stores, Housed, Power;
      StoresTake(tab, m, cell);
      StoredAt(tab, m, cell);
      OneLess(m, tab[cell].key);
      HousedTake(tab, cell, Power(lgCur), hash);
      m := m - {tab[cell].key};
      tab := tab[cell := Empty];
      count := count - 1;
    }

    // ckh_remove, which halves a table that is less than a quarter full.
    method Remove(searchKey: int, steps: nat, grants: nat -> bool) returns (missing: bool, data: int, r: Outcome)
      requires Valid()
      modifies this`tab, this`count, this`m, this`lgCur
      ensures missing <==> searchKey !in old(m)
      ensures !missing ==> data == old(m)[searchKey]
      ensures r != Running ==> Valid() && m == old(m) - {searchKey}
      // It shrinks if it is less than a quarter full, unless memory is refused or the items may jam.
      ensures lgCur == old(lgCur) || lgCur == old(lgCur) - 1
      ensures lgCur < old(lgCur) ==> !missing && |old(m)| - 1 < Power(old(lgCur)) && old(lgCur) > lgMin
      ensures lgCur == old(lgCur) && !missing && |old(m)| - 1 < Power(lgCur) && lgCur > lgMin ==>
                Refused(lgCur - 1, grants, lgMax) || Jams(old(m) - {searchKey}, Power(lgCur - 1), hash, None)
      ensures r == Running ==> lgCur < old(lgCur) && Jams(old(m) - {searchKey}, Power(lgCur), hash, Some(steps))
    {
      hide Jams, Refused, Stores, Housed, Power;
      var cell := ISearch(searchKey);
      r := Done;
      if cell == -1 {
        return true, 0, Done;
      }
      data := tab[cell].data;
      ClearCell(cell);
      if count < Power(lgCur) && lgCur > lgMin {
        r := Shrink(steps, grants);
      }
      return false, data, r;
    }

    // ckh_iter: the next item at or after a cell.
    method Iter(tabind: nat) returns (done: bool, next: nat, key: int, data: int)
      requires Valid()
      ensures done ==> forall i :: tabind <= i < |tab| ==> tab[i].Empty?
      ensures !done ==> tabind < next <= |tab| && tab[next - 1] == Item(key, data)
      ensures !done ==> forall i :: tabind <= i < next - 1 ==> tab[i].Empty?
    {
      var i := tabind;
      while i < CELLS * Power(lgCur)
        invariant tabind <= i && forall j :: tabind <= j < i && j < |tab| ==> tab[j].Empty?
      {
        if tab[i].Item? {
          return false, i + 1, tab[i].key, tab[i].data;
        }
        i := i + 1;
      }
      return true, tabind, 0, 0;
    }

    // ckh_new, with room for at least four items a bucket three quarters full.
    constructor (minItems: nat, hash: int -> (nat, nat), lgMax: nat)
      requires minItems > 0
      ensures Valid() && m == map[] && this.hash == hash && this.lgMax == lgMax && lgCur == lgMin
      ensures CELLS * Power(lgMin) >= (minItems + (3 - minItems % 3)) / 3 * 4 > minItems
      ensures lgMin == 0 || CELLS * Power(lgMin - 1) < (minItems + (3 - minItems % 3)) / 3 * 4
    {
      var minCells := (minItems + (3 - minItems % 3)) / 3 * 4;
      var lg := 0;
      while CELLS * Power(lg) < minCells
        invariant lg == 0 || CELLS * Power(lg - 1) < minCells
        decreases minCells - Power(lg)
      {
        lg := lg + 1;
      }
      lgMin := lg;
      lgCur := lg;
      count := 0;
      this.hash := hash;
      this.lgMax := lgMax;
      tab := seq(CELLS * Power(lg), _ => Empty);
      m := map[];
    }
  }

  lemma BelowStart(tab: seq<Cell>, rank: map<nat, nat>, bucket: nat)
    requires bucket in rank
    ensures Below(tab, tab, rank, bucket)
  { }

  lemma StuckAt(tab: seq<Cell>, b: nat, i: nat, n: nat, hash: int -> (nat, nat))
    requires n > 0 && FullBucket(tab, b) && i < CELLS
    ensures CELLS * b + i < |tab| && tab[CELLS * b + i].Item? && (CELLS * b + i) / CELLS == b
    ensures Stuck(tab, b, n, hash) ==> Homed(tab[CELLS * b + i].key, b, n, hash)
  { }

  lemma StoredAt(tab: seq<Cell>, m: map<int, int>, i: nat)
    requires Stores(tab, m) && i < |tab| && tab[i].Item?
    ensures tab[i].key in m
  { }

  lemma NewStays(m: map<int, int>, all: map<int, int>, new': int, key: int, data: int)
    requires Lacks(m, all, key, data) && new' in m
    ensures key != new' && key in all && all[key] == data
  { }

  lemma Jammed(tab: seq<Cell>, part: map<int, int>, k: int, m: map<int, int>, n: nat, hash: int -> (nat, nat),
      steps: Option<nat>)
    requires n > 0 && |tab| == CELLS * n && Stores(tab, part) && Housed(tab, n, hash) && NoWay(tab, k, n, hash, steps)
    requires k in m && k !in part && forall x :: x in part ==> x in m
    ensures Jams(m, n, hash, steps)
  {
    forall x | x in part.Keys ensures x in m.Keys { assert x in part; }
    assert Jam(tab, part, k, m, n, hash, steps);
  }

  lemma Anyhow(tab: seq<Cell>, k: int, n: nat, hash: int -> (nat, nat), steps: nat)
    requires n > 0 && NoWay(tab, k, n, hash, None)
    ensures NoWay(tab, k, n, hash, Some(steps))
  { }

  lemma UselessNone(m: map<int, int>, lo: nat, hash: int -> (nat, nat))
    ensures Useless(m, lo, lo, hash)
  { }

  // A useless range, a jammed size and the range above it for a part of the items.
  lemma UselessJoin(m: map<int, int>, m0: map<int, int>, lo: nat, mid: nat, hi: nat, hash: int -> (nat, nat))
    requires lo <= mid < hi && Useless(m, lo, mid, hash) && Jams(m, Power(mid), hash, None)
    requires Useless(m0, mid + 1, hi, hash) && m0.Keys <= m.Keys
    ensures Useless(m, lo, hi, hash)
  {
    hide Jams, Power;
    forall l: nat | mid < l < hi ensures Jams(m, Power(l), hash, None)
    {
      JamsMore(m0, m, Power(l), hash, None);
    }
  }

  lemma UselessNext(m: map<int, int>, lo: nat, mid: nat, hash: int -> (nat, nat))
    requires Useless(m, lo, mid, hash) && Jams(m, Power(mid), hash, None)
    ensures Useless(m, lo, mid + 1, hash)
  { }

  lemma UselessPart(m: map<int, int>, lo: nat, hi: nat, hash: int -> (nat, nat))
    requires Useless(m, lo, hi, hash) && lo < hi
    ensures Useless(m, lo + 1, hi, hash) && Jams(m, Power(lo), hash, None)
  { }

  lemma ExhaustedJoin(m: map<int, int>, m0: map<int, int>, lo: nat, mid: nat, grants: nat -> bool, lgMax: nat,
      hash: int -> (nat, nat))
    requires lo <= mid && Useless(m, lo, mid, hash) && Jams(m, Power(mid), hash, None)
    requires Exhausted(m0, mid, grants, lgMax, hash) && m0.Keys <= m.Keys
    ensures Exhausted(m, lo, grants, lgMax, hash) && Jams(m, Power(lo), hash, None)
  {
    hide Jams, Power, Refused, Useless;
    var top: nat :| mid < top && Refused(top, grants, lgMax) && Useless(m0, mid + 1, top, hash);
    if mid + 1 < top {
      UselessJoin(m, m0, lo, mid, top, hash);
    } else {
      UselessNext(m, lo, mid, hash);
    }
    UselessPart(m, lo, top, hash);
  }

  lemma LacksKeys(m: map<int, int>, all: map<int, int>, key: int, data: int)
    requires Lacks(m, all, key, data)
    ensures m.Keys <= all.Keys && key in all && key !in m && forall x :: x in m ==> x in all
  { }

  lemma RefusedAbove(lg: nat, grants: nat -> bool, lgMax: nat)
    ensures !Refused(lg, grants, lgMax) ==> lg <= lgMax
  { }

  lemma HousedTake(tab: seq<Cell>, c: nat, n: nat, hash: int -> (nat, nat))
    requires Housed(tab, n, hash) && c < |tab|
    ensures Housed(tab[c := Empty], n, hash)
  { }

  // A table of one bucket: room is left exactly below four items, and nobody can move.
  lemma OneBucket(tab: seq<Cell>, m: map<int, int>, k: int, hash: int -> (nat, nat))
    requires Stores(tab, m) && |tab| == CELLS
    ensures HasRoom(tab, k, 1, hash) <==> |m| < CELLS
    ensures |m| <= CELLS && hash(k).1 % 1 == 0 && Stuck(tab, 0, 1, hash)
  {
    CountsCells(tab, m);
    var all := {0, 1, 2, 3};
    Smaller(Used(tab), all);
    if |m| == CELLS {
      forall i | 0 <= i < CELLS ensures tab[i].Item? { assert i in Used(tab); }
    }
    if FullBucket(tab, 0) {
      assert forall i :: i in all ==> tab[i].Item?;
      Smaller(all, Used(tab));
    }
  }

  ghost function UpTo(n: nat): map<int, int> { if n == 0 then map[] else UpTo(n - 1)[n - 1 := n - 1] }

  lemma {:induction false} UpToHolds(n: nat)
    ensures |UpTo(n)| == n && forall k :: k in UpTo(n) <==> 0 <= k < n
  {
    if n > 0 {
      UpToHolds(n - 1);
      assert UpTo(n) - {n - 1} == UpTo(n - 1);
      OneLess(UpTo(n), n - 1);
    }
  }

  // An insertion into a table of one bucket that is not full.
  method InsertNext(t: Table, n: nat, grants: nat -> bool)
    requires t.Valid() && t.lgCur == 0 && t.m == UpTo(n) && n < 4
    modifies t
    ensures t.Valid() && t.lgCur == 0 && t.m == UpTo(n + 1)
  {
    hide Stuck, HasRoom, UpTo, Lacks, NoWay, Jams, NoMemory, Useless, Refused, Power, Table.Valid;
    UpToHolds(n);
    t.OneBucketRoom(n);
    UpToNext(n);
    var r, key, data := t.Insert(n, n, 1, grants);
    assert r == Done;
  }

  method FillBucket(hash: int -> (nat, nat), lgMax: nat, grants: nat -> bool) returns (t: Table)
    ensures fresh(t) && t.Valid() && t.hash == hash && t.lgMax == lgMax && t.lgMin == t.lgCur == 0 && t.m == UpTo(4)
  {
    hide UpTo, Table.Valid;
    t := SmallTable(hash, lgMax);
    UpToHolds(0);
    for n := 0 to 4
      invariant fresh(t) && t.Valid() && t.hash == hash && t.lgMax == lgMax && t.lgMin == t.lgCur == 0
      invariant t.m == UpTo(n)
    {
      InsertNext(t, n, grants);
    }
  }

  // A table of one bucket that cannot grow: with four items stored, a fifth insertion keeps
  // the new item and loses a stored one.
  method LoseAnItem(hash: int -> (nat, nat), grants: nat -> bool) returns (t: Table, ghost lost: int)
    ensures t.Valid() && 0 <= lost < 4 && lost !in t.m && t.m == UpTo(5) - {lost} && 4 in t.m
  {
    hide Stuck, HasRoom, UpTo, Lacks, NoWay, Jams, NoMemory, Useless, Refused, Power, Table.Valid;
    t := FillBucket(hash, 0, grants);
    UpToHolds(4);
    t.OneBucketRoom(4);
    UpToNext(4);
    var r, key, data := t.Insert(4, 4, 1, grants);
    LacksIs(t.m, UpTo(5), key, data);
    lost := key;
  }

  // With memory it grows, for keys that spread out over two buckets, and keeps all five.
  method GrowsInstead(lgMax: nat, grants: nat -> bool) returns (t: Table)
    requires lgMax >= 1 && grants(1)
    ensures t.Valid() && t.m == UpTo(5) && t.lgCur == 1
  {
    hide Stuck, HasRoom, UpTo, Lacks, NoWay, Jams, Exhausted, Useless, Refused, SPREAD, Power, Table.Valid;
    t := FillBucket(SPREAD, lgMax, grants);
    UpToHolds(4);
    t.OneBucketRoom(4);
    UpToNext(4);
    FiveFit(Some(1));
    GrantedTwo(grants, lgMax);
    var r, key, data := t.Insert(4, 4, 1, grants);
  }

  const SPREAD: int -> (nat, nat) := k => if k < 0 then (0, 0) else (k, k)

  lemma FewRivals(m: map<int, int>, b: nat, n: nat, hash: int -> (nat, nat), some: set<int>)
    requires n > 0 && forall k :: k in m && IsBucket(b, k, n, hash) ==> k in some
    ensures |Rivals(m, b, n, hash)| <= |some|
  {
    Smaller(Rivals(m, b, n, hash), some);
  }

  lemma FiveFit(steps: Option<nat>)
    ensures !Jams(UpTo(5), 2, SPREAD, steps)
  {
    hide Jams, UpTo, Rivals;
    UpToHolds(5);
    forall k | k in UpTo(5) ensures k in {0, 1, 2, 3, 4} && SPREAD(k) == (k, k) { }
    FewRivals(UpTo(5), 0, 2, SPREAD, {0, 2, 4});
    FewRivals(UpTo(5), 1, 2, SPREAD, {1, 3});
    forall k | k in UpTo(5) ensures |Rivals(UpTo(5), SPREAD(k).0 % 2, 2, SPREAD)| <= CELLS
    {
      assert SPREAD(k).0 % 2 in {0, 1};
    }
    Spacious(UpTo(5), 2, SPREAD, steps);
  }

  lemma GrantedTwo(grants: nat -> bool, lgMax: nat)
    requires lgMax >= 1 && grants(1)
    ensures Power(1) == 2 && !Exhausted(UpTo(5), 0, grants, lgMax, SPREAD)
    ensures forall lg: nat :: Useless(UpTo(5), 0, lg, SPREAD) ==> lg <= 1
  {
    hide Jams, UpTo;
    FiveFit(None);
    assert Power(1) == 2;
  }

  method SmallTable(hash: int -> (nat, nat), lgMax: nat) returns (t: Table)
    ensures fresh(t) && t.Valid() && t.hash == hash && t.lgMax == lgMax && t.lgMin == t.lgCur == 0 && t.m == map[]
  {
    hide Stores, Housed;
    t := new Table(1, hash, lgMax);
  }

  lemma UpToNext(n: nat)
    ensures UpTo(n + 1) == UpTo(n)[n := n]
  { }

  lemma LacksIs(m: map<int, int>, all: map<int, int>, key: int, data: int)
    requires Lacks(m, all, key, data)
    ensures m == all - {key} && key !in m && key in all
  { }

  lemma StillLacks(before: map<int, int>, all: map<int, int>, m: map<int, int>)
    requires before.Keys <= all.Keys
    ensures forall k, d, x, y :: Lacks(before, all, k, d) && Lacks(m, before[k := d], x, y) ==> Lacks(m, all, x, y)
    ensures forall k, d :: Lacks(before, all, k, d) ==> before[k := d] == all
  {
    forall k, d | Lacks(before, all, k, d) ensures before[k := d] == all { }
  }

  // (j + offset) & (CELLS - 1)
  function Wrapped(j: nat, offset: nat): (i: nat)
    ensures i < CELLS
  {
    (j + offset) % CELLS
  }

  lemma WrapAround(c: nat, offset: nat)
    requires c < CELLS && offset < CELLS
    ensures exists j: nat :: j < CELLS && Wrapped(j, offset) == c
  {
    var j: nat := if c >= offset then c - offset else c + CELLS - offset;
    assert Wrapped(j, offset) == c;
  }

  lemma NewLacks(m: map<int, int>, k: int, d: int)
    requires k !in m
    ensures Lacks(m, m[k := d], k, d)
  { }

  lemma Carried(m: map<int, int>, all: map<int, int>, k: int, d: int)
    requires Lacks(m, all, k, d)
    ensures k !in m && m[k := d] == all
  { }

  // The item put into its bucket, and the one taken out of it.
  lemma HousedAt(tab: seq<Cell>, m: map<int, int>, n: nat, hash: int -> (nat, nat), c: nat, b: nat, i: nat, key: int,
      data: int)
    requires Housed(tab, n, hash) && c == CELLS * b + i < |tab| && i < CELLS && tab[c].Item? && b < n
    requires IsBucket(b, key, n, hash)
    ensures Housed(tab[c := Item(key, data)], n, hash) && IsBucket(b, tab[c].key, n, hash)
  {
    assert c / CELLS == b;
  }

  lemma OtherBucket(k: int, n: nat, hash: int -> (nat, nat), b: nat, b': nat)
    requires n > 0 && b' == if hash(k).1 % n == b then hash(k).0 % n else hash(k).1 % n
    ensures b' < n && IsBucket(b', k, n, hash)
  { }

  lemma Swapped(m: map<int, int>, all: map<int, int>, key: int, data: int, tkey: int, tdata: int, tab: seq<Cell>,
      c: nat)
    requires Lacks(m, all, key, data) && Stores(tab, m) && c < |tab| && tab[c] == Item(tkey, tdata)
    ensures tkey in m && Lacks((m - {tkey})[key := data], all, tkey, tdata) && |(m - {tkey})[key := data]| == |m|
  {
    var m' := (m - {tkey})[key := data];
    assert m'.Keys == m.Keys - {tkey} + {key};
    assert |m'.Keys| == |m.Keys|;
    assert |m'| == |m'.Keys| && |m| == |m.Keys|;
  }
}
