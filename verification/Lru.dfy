// The page cache: every cached page is once on the ring in order of use and once on the
// chain of its hash head.
module Lru {
  import opened Basics
  import opened Rings

  // Links of nodes and heads, by address.
  datatype Links = Links(next: seq<int>, prev: seq<int>)

  predicate Linkable(l: Links, x: int)
  {
    && |l.next| == |l.prev| && 0 <= x < |l.next|
    && 0 <= l.next[x] < |l.next| && 0 <= l.prev[x] < |l.next|
  }

  // etdb_queue_remove
  function QueueRemove(l: Links, x: int): Links
    requires Linkable(l, x)
  {
    var prev := l.prev[l.next[x] := l.prev[x]];
    Links(l.next[l.prev[x] := l.next[x]], prev)
  }

  // etdb_queue_insert_head
  function QueueInsertHead(l: Links, h: int, x: int): Links
    requires Linkable(l, h) && 0 <= x < |l.next|
  {
    var next := l.next[x := l.next[h]];
    var prev := l.prev[l.next[h] := x][x := h];
    Links(next[h := x], prev)
  }

  // A queue with its head, first member first.
  ghost predicate Queue(l: Links, h: int, q: seq<int>) { Ring([h] + q, l.next, l.prev) }

  lemma QueueRemoved(l: Links, h: int, q: seq<int>, k: int)
    requires Queue(l, h, q) && 0 <= k < |q|
    ensures Linkable(l, q[k]) && Queue(QueueRemove(l, q[k]), h, Without(q, k))
    ensures var l' := QueueRemove(l, q[k]);
            |l'.next| == |l.next| && |l'.prev| == |l.prev| && forall x :: x !in [h] + q && 0 <= x < |l.next| ==>
                l'.next[x] == l.next[x] && l'.prev[x] == l.prev[x]
  {
    var r := [h] + q;
    RingRemove(r, l.next, l.prev, k + 1);
    assert r[k + 1] == q[k];
    assert Without(r, k + 1) == [h] + Without(q, k);
    assert l.next[q[k]] == r[After(k + 1, |r|)] && l.prev[q[k]] == r[Before(k + 1, |r|)];
  }

  lemma QueueInserted(l: Links, h: int, q: seq<int>, x: int)
    requires Queue(l, h, q) && 0 <= x < |l.next| && x != h && x !in q
    ensures Linkable(l, h) && Queue(QueueInsertHead(l, h, x), h, [x] + q)
    ensures var l' := QueueInsertHead(l, h, x);
            |l'.next| == |l.next| && |l'.prev| == |l.prev|
            && forall y :: y !in [h] + q && y != x && 0 <= y < |l.next| ==>
                 l'.next[y] == l.next[y] && l'.prev[y] == l.prev[y]
  {
    var r := [h] + q;
    assert x !in r;
    RingInsertSecond(r, l.next, l.prev, x);
    assert r[1..] == q && [h, x] + q == [h] + ([x] + q);
    assert l.next[h] == r[After(0, |r|)] && l.prev[h] == r[Before(0, |r|)];
    assert l.prev[x := h][l.next[h] := x] == l.prev[l.next[h] := x][x := h];
  }

  lemma QueueFrame(l: Links, l': Links, h: int, q: seq<int>)
    requires Queue(l, h, q) && |l'.next| == |l.next| && |l'.prev| == |l.prev|
    requires forall x :: x in [h] + q && 0 <= x < |l.next| ==> l'.next[x] == l.next[x] && l'.prev[x] == l.prev[x]
    ensures Queue(l', h, q)
  {
    RingFrame([h] + q, l.next, l.prev, l'.next, l'.prev);
  }

  lemma QueueMember(l: Links, h: int, q: seq<int>, k: int)
    requires Queue(l, h, q) && 0 <= k < |q|
    ensures 0 <= q[k] < |l.next| == |l.prev| && q[k] != h
    ensures l.next[q[k]] == (if k + 1 < |q| then q[k + 1] else h) && l.prev[q[k]] == (if k > 0 then q[k - 1] else h)
  {
    var r := [h] + q;
    assert LinkedAt(r, l.next, l.prev, k + 1);
    assert r[k + 1] == q[k] && r[0] == h;
  }

  lemma QueueEnds(l: Links, h: int, q: seq<int>)
    requires Queue(l, h, q)
    ensures 0 <= h < |l.next| == |l.prev|
    ensures l.next[h] == (if q == [] then h else q[0]) && l.prev[h] == (if q == [] then h else q[|q| - 1])
  {
    var r := [h] + q;
    assert LinkedAt(r, l.next, l.prev, 0);
  }

  // All hash chains: chain i has its head at first + i.
  ghost predicate Chains(l: Links, first: int, chains: seq<seq<int>>)
  {
    && (forall i :: 0 <= i < |chains| ==> Queue(l, first + i, chains[i]))
    && (forall i, x :: 0 <= i < |chains| && x in chains[i] ==> 0 < x < first)
    && (forall i, j, x :: 0 <= i < |chains| && 0 <= j < |chains| && i != j && x in chains[i] ==> x !in chains[j])
  }

  lemma ChainsRemoved(l: Links, first: int, chains: seq<seq<int>>, i: int, k: int)
    requires Chains(l, first, chains) && 0 <= i < |chains| && 0 <= k < |chains[i]|
    ensures Linkable(l, chains[i][k]) && Chains(QueueRemove(l, chains[i][k]), first, chains[i := Without(chains[i], k)])
    ensures forall x :: x in Without(chains[i], k) <==> x in chains[i] && x != chains[i][k]
  {
    hide Queue;
    QueueRemoved(l, first + i, chains[i], k);
    QueueDistinct(l, first + i, chains[i]);
    WithoutMembers(chains[i], k);
    var l', chains' := QueueRemove(l, chains[i][k]), chains[i := Without(chains[i], k)];
    forall j | 0 <= j < |chains| && j != i ensures Queue(l', first + j, chains[j])
    {
      var r, q := [first + j] + chains[j], [first + i] + chains[i];
      forall x | x in r ensures x !in q { }
      QueueFrame(l, l', first + j, chains[j]);
    }
  }

  lemma QueueDistinct(l: Links, h: int, q: seq<int>)
    requires Queue(l, h, q)
    ensures Distinct(q)
  {
    assert forall i :: 0 <= i < |q| ==> ([h] + q)[i + 1] == q[i];
  }

  lemma ChainsInserted(l: Links, first: int, chains: seq<seq<int>>, i: int, x: int)
    requires Chains(l, first, chains) && 0 <= i < |chains| && 0 < x < first
    requires forall j :: 0 <= j < |chains| ==> x !in chains[j]
    ensures Linkable(l, first + i) && x < |l.next|
    ensures Chains(QueueInsertHead(l, first + i, x), first, chains[i := [x] + chains[i]])
  {
    hide Queue;
    QueueEnds(l, first + i, chains[i]);
    QueueInserted(l, first + i, chains[i], x);
    var l', chains' := QueueInsertHead(l, first + i, x), chains[i := [x] + chains[i]];
    forall j | 0 <= j < |chains| && j != i ensures Queue(l', first + j, chains[j])
    {
      var r, q := [first + j] + chains[j], [first + i] + chains[i];
      forall y | y in r ensures y !in q && y != x { }
      QueueFrame(l, l', first + j, chains[j]);
    }
  }

  function Remove(s: seq<nat>, p: nat): (t: seq<nat>)
    ensures forall x :: x in t <==> x in s && x != p
  {
    if s == [] then [] else (if s[0] == p then [] else [s[0]]) + Remove(s[1..], p)
  }

  // Pages in the order of their last fetch, the latest first.
  function Recent(history: seq<nat>): seq<nat>
  {
    if history == [] then []
    else
      var n := |history| - 1;
      [history[n]] + Remove(Recent(history[..n]), history[n])
  }

  function Take(s: seq<nat>, n: nat): seq<nat> { if |s| <= n then s else s[..n] }

  // What a fetch makes of the pages in a cache.
  function Fetched(pages: seq<nat>, p: nat, capacity: nat): seq<nat>
    requires capacity > 0
  {
    if p in pages then [p] + Remove(pages, p) else [p] + Take(pages, capacity - 1)
  }

  lemma {:induction false} RemoveAbsent(s: seq<nat>, p: nat)
    requires p !in s
    ensures Remove(s, p) == s
  {
    if s != [] { RemoveAbsent(s[1..], p); }
  }

  lemma {:induction false} RemoveDistinct(s: seq<nat>, p: nat)
    requires Distinct(s)
    ensures Distinct(Remove(s, p)) && (p in s ==> |Remove(s, p)| == |s| - 1)
  {
    if s != [] {
      var t := s[1..];
      assert forall i :: 0 <= i < |t| ==> t[i] == s[i + 1];
      assert s[0] !in t;
      RemoveDistinct(t, p);
      if s[0] == p { RemoveAbsent(t, p); }
    }
  }

  lemma {:induction false} RecentDistinct(history: seq<nat>)
    ensures Distinct(Recent(history))
  {
    if history != [] {
      var n := |history| - 1;
      RecentDistinct(history[..n]);
      RemoveDistinct(Recent(history[..n]), history[n]);
    }
  }

  lemma TakeCons(x: nat, t: seq<nat>, n: nat)
    requires n > 0
    ensures Take([x] + t, n) == [x] + Take(t, n - 1)
  {
    if |t| + 1 > n { assert ([x] + t)[..n] == [x] + t[..n - 1]; }
  }

  lemma RemoveCons(x: nat, t: seq<nat>, p: nat)
    ensures Remove([x] + t, p) == (if x == p then [] else [x]) + Remove(t, p)
  {
    assert ([x] + t)[1..] == t;
  }

  lemma TakeMembers(s: seq<nat>, n: nat)
    ensures forall x :: x in Take(s, n) ==> x in s
  { }

  lemma {:induction false} TakeRemove(s: seq<nat>, p: nat, n: nat)
    requires Distinct(s) && n > 0
    ensures p in Take(s, n) ==> Take(Remove(s, p), n - 1) == Remove(Take(s, n), p)
    ensures p !in Take(s, n) ==> Take(Remove(s, p), n - 1) == Take(s, n - 1)
  {
    if s != [] {
      hide Take, Remove;
      var x, t := s[0], s[1..];
      assert s == [x] + t;
      assert forall i :: 0 <= i < |t| ==> t[i] == s[i + 1];
      TakeCons(x, t, n);
      RemoveCons(x, t, p);
      RemoveCons(x, Take(t, n - 1), p);
      if x == p {
        TakeMembers(t, n - 1);
        RemoveAbsent(t, p);
        RemoveAbsent(Take(t, n - 1), p);
      } else if n > 1 {
        TakeRemove(t, p, n - 1);
        TakeCons(x, t, n - 1);
        TakeCons(x, Remove(t, p), n - 1);
      } else {
        TakeNone(t);
        TakeNone(s);
        TakeNone(Remove(s, p));
      }
    }
  }

  lemma TakeNone(s: seq<nat>)
    ensures Take(s, 0) == []
  { }

  // Over any run of fetches the cache holds the pages fetched last, as many as fit.
  lemma FetchedRecent(history: seq<nat>, p: nat, capacity: nat)
    requires capacity > 0
    ensures Fetched(Take(Recent(history), capacity), p, capacity) == Take(Recent(history + [p]), capacity)
  {
    var r := Recent(history);
    assert (history + [p])[..|history|] == history;
    RecentDistinct(history);
    TakeRemove(r, p, capacity);
    assert Take([p] + Remove(r, p), capacity) == [p] + Take(Remove(r, p), capacity - 1);
    assert Take(Take(r, capacity), capacity - 1) == Take(r, capacity - 1);
  }

  // A chain holds the nodes in use, but for node n, whose page belongs there.
  ghost predicate ChainHolds(q: seq<int>, i: int, pageId: seq<nat>, size: nat, n: int, heads: nat)
  {
    forall x :: x in q <==> Belongs(x, i, pageId, size, n, heads)
  }

  predicate Belongs(x: int, i: int, pageId: seq<nat>, size: nat, n: int, heads: nat)
  {
    1 <= x <= size && x != n && x < |pageId| && heads > 0 && pageId[x] % heads == i
  }

  // One of the nodes 1 to size has page p with value v.
  ghost predicate Serves<Page>(pageId: seq<nat>, pageValue: seq<Page>, size: nat, p: nat, v: Page)
    requires size < |pageId| == |pageValue|
  {
    exists x :: 1 <= x <= size && pageId[x] == p && pageValue[x] == v
  }

  lemma ServesStill<Page>(was: seq<nat>, pageId: seq<nat>, wasValue: seq<Page>, pageValue: seq<Page>, size0: nat,
      size: nat, n: int, p: nat, v: Page, x: int)
    requires size0 <= size < |pageId| == |pageValue| == |was| == |wasValue|
    requires 1 <= x <= size && pageId[x] == p && x != n
    requires forall y :: 1 <= y <= size && y != n ==> y <= size0 && pageId[y] == was[y] && pageValue[y] == wasValue[y]
    requires (forall y, z :: 1 <= y < z <= size0 ==> was[y] != was[z]) && Serves(was, wasValue, size0, p, v)
    ensures Serves(pageId, pageValue, size, p, v)
  {
    var y :| 1 <= y <= size0 && was[y] == p && wasValue[y] == v;
    assert x == y;
  }

  // The nodes have what is in the file.
  ghost predicate TrueTo<Page>(pageId: seq<nat>, pageValue: seq<Page>, size: nat, file: nat -> Page)
    requires size < |pageId| == |pageValue|
  {
    forall x :: 1 <= x <= size ==> pageValue[x] == file(pageId[x])
  }

  lemma TrueAt<Page>(pageId: seq<nat>, pageValue: seq<Page>, size: nat, file: nat -> Page, n: int)
    requires 1 <= n <= size < |pageId| == |pageValue|
    ensures TrueTo(pageId, pageValue, size, file) ==> pageValue[n] == file(pageId[n])
  { }

  lemma TrueStill<Page>(was: seq<nat>, pageId: seq<nat>, wasValue: seq<Page>, pageValue: seq<Page>, size0: nat,
      size: nat, file: nat -> Page, n: int)
    requires size0 <= size < |pageId| == |pageValue| == |was| == |wasValue| && 1 <= n <= size
    requires forall y :: 1 <= y <= size && y != n ==> y <= size0 && pageId[y] == was[y] && pageValue[y] == wasValue[y]
    requires TrueTo(was, wasValue, size0, file)
    ensures TrueTo(pageId, pageValue, size, file) <==> pageValue[n] == file(pageId[n])
  { }

  class Cache<Page(0, !new)> {
    const capacity: nat
    const heads: nat
    // The file that pages are read from.
    const file: nat -> Page
    var size: nat
    // Node 0 is lru_head; nodes 1 to capacity are the cached pages.
    var lru: Links
    // The heads of the hash chains come after the nodes.
    var chain: Links
    var pageId: seq<nat>
    var pageValue: seq<Page>
    ghost var order: seq<int>
    ghost var chains: seq<seq<int>>

    ghost predicate Valid()
      reads this
    {
      && capacity >= 3 && heads == capacity / 3 && size <= capacity
      && |lru.next| == |pageId| == |pageValue| == capacity + 1 && |chain.next| == capacity + 1 + heads
      && Queue(lru, 0, order) && |order| == size && (forall x :: x in order <==> 1 <= x <= size)
      && Chains(chain, capacity + 1, chains) && |chains| == heads
      && (forall i :: 0 <= i < heads ==> ChainHolds(chains[i], i, pageId, size, 0, heads))
      && (forall x, y :: 1 <= x < y <= size ==> pageId[x] != pageId[y])
    }

    // The cache would serve v for page p.
    ghost predicate Holds(p: nat, v: Page)
      reads this
      requires Valid()
    {
      Serves(pageId, pageValue, size, p, v)
    }

    // What is cached is what the file has.
    ghost predicate Sound()
      reads this
      requires Valid()
    {
      TrueTo(pageId, pageValue, size, file)
    }

    // The cached pages, the last used first.
    ghost function Pages(): (ps: seq<nat>)
      reads this
      requires Valid()
      ensures |ps| == size
    {
      AllWithin(order, |pageId|);
      PagesOf(pageId, order)
    }

    // etdb_init_lru; the queues of all heads are empty.
    constructor (capacity: nat, file: nat -> Page, blank: Page)
      requires capacity >= 3
      ensures Valid() && Sound() && Pages() == [] && this.capacity == capacity && this.file == file
    {
      this.capacity := capacity;
      this.heads := capacity / 3;
      this.file := file;
      size := 0;
      lru := Links(seq(capacity + 1, i => i), seq(capacity + 1, i => i));
      chain := Links(seq(capacity + 1 + capacity / 3, i => i), seq(capacity + 1 + capacity / 3, i => i));
      pageId := seq(capacity + 1, _ => 0);
      pageValue := seq(capacity + 1, _ => blank);
      order := [];
      chains := seq(capacity / 3, _ => []);
      new;
      EmptyQueue(lru, 0);
      forall i | 0 <= i < heads
        ensures Queue(chain, capacity + 1 + i, chains[i])
      {
        EmptyQueue(chain, capacity + 1 + i);
      }
    }

    lemma HeldOnce()
      requires Valid()
      ensures forall p, v, w :: Holds(p, v) && Holds(p, w) ==> v == w
      ensures size == |Pages()|
    { }

    lemma Sizes()
      requires Valid()
      ensures size <= capacity && |pageId| == |pageValue| == capacity + 1 && size == |Pages()| == |order|
      ensures forall x, y :: 1 <= x < y <= size ==> pageId[x] != pageId[y]
    { }

    // The nodes serve the pages on the ring.
    lemma HeldAll()
      requires Valid()
      ensures forall x :: 1 <= x <= size ==> pageId[x] in Pages() && Holds(pageId[x], pageValue[x])
      ensures forall p :: p in Pages() ==> exists x :: 1 <= x <= size && pageId[x] == p
      ensures forall k :: 0 <= k < size ==> 1 <= order[k] <= size && Pages()[k] == pageId[order[k]]
    {
      hide Queue, Chains, ChainHolds;
      AllWithin(order, |pageId|);
      forall x | 1 <= x <= size ensures pageId[x] in Pages() && Holds(pageId[x], pageValue[x])
      {
        InPages(pageId, order, x);
      }
      forall k | 0 <= k < size ensures 1 <= order[k] <= size && Pages()[k] == pageId[order[k]]
      {
        assert order[k] in order;
      }
      forall p | p in Pages() ensures exists x :: 1 <= x <= size && pageId[x] == p
      {
        var k := At(Pages(), p);
        assert pageId[order[k]] == p;
      }
    }

    lemma FromFile()
      requires Valid() && Sound()
      ensures forall p, v :: Holds(p, v) ==> v == file(p)
    { }

    // The node of a page on a chain, or 0.
    method Lookup(page: nat) returns (n: int)
      requires Valid()
      ensures n == 0 ==> page !in Pages()
      ensures n != 0 ==> 1 <= n <= size && pageId[n] == page
    {
      hide Queue, Chains;
      var i := page % heads;
      var head := capacity + 1 + i;
      ChainAt(chain, capacity + 1, chains, i);
      QueueEnds(chain, head, chains[i]);
      var next := chain.next[head];
      ghost var k := 0;
      if chains[i] != [] { QueueMember(chain, head, chains[i], 0); }
      while next != head
        invariant 0 <= k <= |chains[i]| && next == if k < |chains[i]| then chains[i][k] else head
        invariant next == head ==> k == |chains[i]|
        invariant forall j :: 0 <= j < k ==> 1 <= chains[i][j] <= size && pageId[chains[i][j]] != page
        decreases |chains[i]| - k
      {
        QueueMember(chain, head, chains[i], k);
        assert ChainHolds(chains[i], i, pageId, size, 0, heads);
        assert chains[i][k] in chains[i];
        if pageId[next] == page {
          return next;
        }
        next := chain.next[next];
        k := k + 1;
        if k < |chains[i]| { QueueMember(chain, head, chains[i], k); }
      }
      n := 0;
      assert ChainHolds(chains[i], i, pageId, size, 0, heads);
      forall m | 0 <= m < |order| ensures order[m] in order && pageId[order[m]] != page
      {
        assert order[m] in order;
        assert pageId[order[m]] == page ==> Belongs(order[m], i, pageId, size, 0, heads);
      }
    }

    // A node that is on no queue: a new one, or that of the page used longest ago.
    method FreeNode() returns (n: int)
      requires Valid()
      modifies this`size, this`lru, this`chain, this`order, this`chains
      ensures 1 <= n <= size <= capacity && size == (if old(size) < capacity then old(size) + 1 else capacity)
      ensures |lru.next| == capacity + 1 && |chain.next| == capacity + 1 + heads && |chains| == heads
      ensures Queue(lru, 0, order) && Chains(chain, capacity + 1, chains)
      ensures n !in order && (forall x :: x in order <==> 1 <= x <= size && x != n) && |order| == size - 1
      ensures forall i :: 0 <= i < heads ==> ChainHolds(chains[i], i, pageId, size, n, heads)
      ensures order == (if old(size) < capacity then old(order) else old(order)[..capacity - 1])
      ensures n == if old(size) < capacity then size else old(order)[capacity - 1]
      ensures forall x :: x in order ==> x in old(order)
    {
      hide Queue, Chains;
      if size == capacity {
        ghost var last := |order| - 1;
        QueueEnds(lru, 0, order);
        n := lru.prev[0];
        assert n == order[last];
        assert n in order;
        QueueRemoved(lru, 0, order, last);
        QueueDistinct(lru, 0, order);
        WithoutMembers(order, last);
        assert Without(order, last) == order[..last];
        lru := QueueRemove(lru, n);
        ghost var i: int := pageId[n] % heads;
        assert ChainHolds(chains[i], i, pageId, size, 0, heads) && Belongs(n, i, pageId, size, 0, heads);
        assert n in chains[i];
        ghost var k := At(chains[i], n);
        ChainsRemoved(chain, capacity + 1, chains, i, k);
        ChainSize(chain, capacity + 1, chains, i, k);
        chain := QueueRemove(chain, n);
        ghost var chains0 := chains;
        chains := chains[i := Without(chains[i], k)];
        order := order[..last];
        forall j | 0 <= j < heads ensures ChainHolds(chains[j], j, pageId, size, n, heads)
        {
          assert ChainHolds(chains0[j], j, pageId, size, 0, heads);
        }
      } else {
        size := size + 1;
        n := size;
        forall j | 0 <= j < heads ensures ChainHolds(chains[j], j, pageId, size, n, heads)
        {
          assert ChainHolds(chains[j], j, pageId, size - 1, 0, heads);
        }
      }
    }

    // A cached page moves to the front.
    method Hit(n: int)
      requires Valid() && 1 <= n <= size
      modifies this`lru, this`order
      ensures Valid() && Pages() == Fetched(old(Pages()), pageId[n], capacity)
    {
      hide Queue, Chains, ChainHolds;
      assert n in order;
      ghost var k := At(order, n);
      QueueRemoved(lru, 0, order, k);
      QueueDistinct(lru, 0, order);
      WithoutMembers(order, k);
      lru := QueueRemove(lru, n);
      ghost var rest := Without(order, k);
      QueueInserted(lru, 0, rest, n);
      QueueSize(lru, 0, rest);
      lru := QueueInsertHead(lru, 0, n);
      AllWithin(order, |pageId|);
      forall i, j | 0 <= i < j < |order|
        ensures pageId[order[i]] != pageId[order[j]]
      {
        assert order[i] in order && order[j] in order && order[i] != order[j];
      }
      PagesMoved(pageId, order, k);
      order := [n] + rest;
    }

    // A free node is linked in at both fronts for its new page.
    method LinkIn(n: int, page: nat)
      requires capacity >= 3 && heads == capacity / 3 && 1 <= n <= size <= capacity
      requires |lru.next| == |pageId| == |pageValue| == capacity + 1 && |chain.next| == capacity + 1 + heads
      requires |chains| == heads
      requires Queue(lru, 0, order) && Chains(chain, capacity + 1, chains)
      requires n !in order && forall i :: 0 <= i < heads ==> ChainHolds(chains[i], i, pageId, size, n, heads)
      requires pageId[n] == page
      modifies this`lru, this`chain, this`order, this`chains
      ensures |lru.next| == capacity + 1 && |chain.next| == capacity + 1 + heads && |chains| == heads
      ensures order == [n] + old(order)
      ensures Queue(lru, 0, order) && Chains(chain, capacity + 1, chains)
      ensures forall i :: 0 <= i < heads ==> ChainHolds(chains[i], i, pageId, size, 0, heads)
    {
      hide Queue, Chains;
      QueueSize(lru, 0, order);
      QueueInserted(lru, 0, order, n);
      lru := QueueInsertHead(lru, 0, n);
      order := [n] + order;
      ghost var i, chains0 := page % heads, chains;
      forall j | 0 <= j < heads ensures n !in chains[j]
      {
        assert ChainHolds(chains[j], j, pageId, size, n, heads) && !Belongs(n, j, pageId, size, n, heads);
      }
      ChainsInserted(chain, capacity + 1, chains, i, n);
      ChainAt(chain, capacity + 1, chains, i);
      QueueSize(chain, capacity + 1 + i, chains[i]);
      QueueInserted(chain, capacity + 1 + i, chains[i], n);
      chain := QueueInsertHead(chain, capacity + 1 + page % heads, n);
      chains := chains[i := [n] + chains[i]];
      forall j | 0 <= j < heads ensures ChainHolds(chains[j], j, pageId, size, 0, heads)
      {
        assert ChainHolds(chains0[j], j, pageId, size, n, heads);
        forall x ensures x in chains[j] <==> Belongs(x, j, pageId, size, 0, heads)
        {
          assert x in chains0[j] <==> Belongs(x, j, pageId, size, n, heads);
        }
      }
    }

    // The page comes to a node that was free or the last one; a failed read leaves in its buffer
    // what was there.
    method Load(page: nat, read: Option<Page>) returns (n: int)
      requires Valid() && page !in Pages()
      modifies this
      ensures Valid() && Pages() == Fetched(old(Pages()), page, capacity) && 1 <= n <= size
      ensures n == if old(size) < capacity then size else old(order)[capacity - 1]
      ensures size == if old(size) < capacity then old(size) + 1 else capacity
      ensures pageId == old(pageId)[n := page]
      ensures pageValue == if read.Some? then old(pageValue)[n := read.value] else old(pageValue)
    {
      hide Queue, Chains, ChainHolds, Fetched, PagesOf;
      n := FreeNode();
      AllWithin(old(order), |pageId|);
      PagesAdded(pageId, old(order), order, n, page, capacity);
      NewPage(pageId, size, n, page, heads, chains);
      pageId := pageId[n := page];
      if read.Some? {
        pageValue := pageValue[n := read.value];
      }
      LinkIn(n, page);
      forall x | 1 <= x <= size && x != n ensures pageId[x] != page
      {
        InPages(old(pageId), old(order), x);
      }
    }

    // etdb_lru_fetch; what the file system reads for a page that is not cached, if it can. A failed
    // read leaves in the buffer what was there.
    method Fetch(page: nat, read: Option<Page>) returns (value: Page)
      requires Valid()
      modifies this
      ensures Valid() && Pages() == Fetched(old(Pages()), page, capacity)
      ensures page in old(Pages()) ==> old(Holds(page, value))
      ensures page !in old(Pages()) && read.Some? ==> value == read.value
      ensures page !in old(Pages()) && read.None? && old(size) == capacity ==>
                old(Holds(Pages()[capacity - 1], value))
      ensures Holds(page, value)
      ensures forall p, v :: p in Pages() && p != page && old(Holds(p, v)) ==> Holds(p, v)
      ensures old(Sound()) ==> (Sound() <==> value == file(page))
    {
      hide Valid, Fetched, Serves, TrueTo;
      Sizes();
      HeldAll();
      var n := Lookup(page);
      if n != 0 {
        Hit(n);
        value := pageValue[n];
        TrueAt(pageId, pageValue, size, file, n);
        return;
      }
      n := Load(page, read);
      value := pageValue[n];
      if old(Sound()) {
        TrueStill(old(pageId), pageId, old(pageValue), pageValue, old(size), size, file, n);
      }
      Sizes();
      HeldAll();
      forall p, v | p in Pages() && p != page && old(Holds(p, v)) ensures Holds(p, v)
      {
        var x :| 1 <= x <= size && pageId[x] == p;
        assert x != n;
        ServesStill(old(pageId), pageId, old(pageValue), pageValue, old(size), size, n, p, v, x);
      }
    }
  }

  lemma InPages(pageId: seq<nat>, order: seq<int>, x: int)
    requires Within(order, |pageId|) && x in order
    ensures 0 <= x < |pageId| && pageId[x] in PagesOf(pageId, order)
  {
    var k := At(order, x);
    assert PagesOf(pageId, order)[k] == pageId[x];
  }

  // The page of the node left out does not matter.
  lemma NewPage(pageId: seq<nat>, size: nat, n: int, page: nat, heads: nat, chains: seq<seq<int>>)
    requires 0 <= n < |pageId| && |chains| == heads
    requires forall i :: 0 <= i < heads ==> ChainHolds(chains[i], i, pageId, size, n, heads)
    ensures forall i :: 0 <= i < heads ==> ChainHolds(chains[i], i, pageId[n := page], size, n, heads)
  {
    forall i | 0 <= i < heads ensures ChainHolds(chains[i], i, pageId[n := page], size, n, heads)
    {
      forall x ensures x in chains[i] <==> Belongs(x, i, pageId[n := page], size, n, heads)
      {
        assert x in chains[i] <==> Belongs(x, i, pageId, size, n, heads);
      }
    }
  }

  lemma RecentNone(n: nat)
    ensures Take(Recent([]), n) == []
  { }

  // The last fetch of a page.
  function Last(history: seq<nat>, p: nat): (k: nat)
    requires p in history
    ensures k < |history| && history[k] == p && forall j :: k < j < |history| ==> history[j] != p
  {
    var n := |history| - 1;
    if history[n] == p then n else Last(history[..n], p)
  }

  // The answer to fetch i: a cached page as it was served last, else what is read; failing that,
  // in a full cache, the page that had to go.
  ghost predicate Served<Page>(history: seq<nat>, got: seq<Option<Page>>, capacity: nat, values: seq<Page>,
      i: nat)
    requires i < |history| == |got| && i < |values| && capacity > 0
  {
    var past := history[..i];
    var cached := Take(Recent(past), capacity);
    if history[i] in cached then history[i] in past && values[i] == values[Last(past, history[i])]
    else if got[i].Some? then values[i] == got[i].value
    else |cached| == capacity ==>
        cached[capacity - 1] in past && values[i] == values[Last(past, cached[capacity - 1])]
  }

  lemma LastStep(past: seq<nat>, page: nat, p: nat)
    requires p in past || p == page
    ensures p in past + [page]
    ensures Last(past + [page], p) == if p == page then |past| else Last(past, p)
  {
    assert (past + [page])[..|past|] == past;
  }

  lemma FetchedPages(pages: seq<nat>, p: nat, capacity: nat)
    requires capacity > 0
    ensures forall q :: q in Fetched(pages, p, capacity) ==> q == p || q in pages
  {
    TakeMembers(pages, capacity - 1);
  }

  lemma ServedStill<Page>(history: seq<nat>, got: seq<Option<Page>>, capacity: nat, values: seq<Page>,
      values': seq<Page>)
    requires |history| == |got| && |values| <= |history| && |values| <= |values'| && capacity > 0
    requires values'[..|values|] == values
    requires forall i :: 0 <= i < |values| ==> Served(history, got, capacity, values, i)
    ensures forall i :: 0 <= i < |values| ==> Served(history, got, capacity, values', i)
  {
    hide Recent, Take, Last;
    assert forall k :: 0 <= k < |values| ==> values[k] == values'[k];
    forall i | 0 <= i < |values| ensures Served(history, got, capacity, values', i)
    {
      assert Served(history, got, capacity, values, i);
    }
  }

  // Every run of fetches, whichever reads fail, leaves the pages used last in the cache; and if no
  // read fails each fetch delivers the file's page.
  method Replay<Page(0, !new)>(capacity: nat, file: nat -> Page, blank: Page, history: seq<nat>,
      got: seq<Option<Page>>)
      returns (c: Cache<Page>, values: seq<Page>)
    requires capacity >= 3 && |got| == |history|
    ensures c.Valid() && c.Pages() == Take(Recent(history), capacity)
    ensures |values| == |history| && forall i :: 0 <= i < |history| ==> Served(history, got, capacity, values, i)
    ensures (forall i :: 0 <= i < |history| ==> values[i] == file(history[i])) ==> c.Sound()
    ensures (forall i :: 0 <= i < |history| ==> got[i] == Some(file(history[i]))) ==>
              forall i :: 0 <= i < |history| ==> values[i] == file(history[i])
  {
    hide Recent, Take, Fetched, Queue, Chains, ChainHolds, PagesOf, Last, Cache.Valid, Cache.Holds,
         Cache.Sound;
    RecentNone(capacity);
    c := new Cache(capacity, file, blank);
    values := [];
    assert history[..0] == [];
    for i := 0 to |history|
      invariant fresh(c) && c.Valid() && c.capacity == capacity && c.file == file
      invariant c.Pages() == Take(Recent(history[..i]), capacity) && |values| == i
      invariant forall p :: p in c.Pages() ==> p in history[..i] && c.Holds(p, values[Last(history[..i], p)])
      invariant forall j :: 0 <= j < i ==> Served(history, got, capacity, values, j)
      invariant (forall j :: 0 <= j < i ==> values[j] == file(history[j])) ==> c.Sound()
      invariant (forall j :: 0 <= j < |history| ==> got[j] == Some(file(history[j]))) ==>
                  forall j :: 0 <= j < i ==> values[j] == file(history[j])
    {
      FetchedRecent(history[..i], history[i], capacity);
      assert history[..i + 1] == history[..i] + [history[i]];
      c.HeldOnce();
      if c.Sound() { c.FromFile(); }
      ghost var was, served := c.Pages(), values;
      var v := c.Fetch(history[i], got[i]);
      values := values + [v];
      FetchedPages(was, history[i], capacity);
      ServedStill(history, got, capacity, served, values);
      forall p | p in c.Pages() ensures p in history[..i + 1] && c.Holds(p, values[Last(history[..i + 1], p)])
      {
        LastStep(history[..i], history[i], p);
      }
    }
    assert history[..|history|] == history;
  }

  // In a full cache a failed read serves the page that had to go, and goes on to do so although the
  // file can be read again.
  method ServeStale<Page(0, !new)>(c: Cache<Page>, page: nat) returns (first: Page, second: Page)
    requires c.Valid() && c.Sound() && c.size == c.capacity && page !in c.Pages()
    modifies c
    ensures c.Valid() && first == second == c.file(old(c.Pages()[c.capacity - 1]))
    ensures c.Sound() <==> first == c.file(page)
  {
    hide Cache.Valid, Cache.Pages, Queue, Chains, ChainHolds;
    c.Sizes();
    c.FromFile();
    first := c.Fetch(page, None);
    c.HeldOnce();
    second := c.Fetch(page, Some(c.file(page)));
    c.HeldOnce();
  }

  lemma ChainAt(l: Links, first: int, chains: seq<seq<int>>, i: int)
    requires Chains(l, first, chains) && 0 <= i < |chains|
    ensures Queue(l, first + i, chains[i]) && forall x :: x in chains[i] ==> 0 < x < first
  { }

  lemma QueueSize(l: Links, h: int, q: seq<int>)
    requires Queue(l, h, q)
    ensures |l.next| == |l.prev|
  { }

  lemma ChainSize(l: Links, first: int, chains: seq<seq<int>>, i: int, k: int)
    requires Chains(l, first, chains) && 0 <= i < |chains| && 0 <= k < |chains[i]| && Linkable(l, chains[i][k])
    ensures |QueueRemove(l, chains[i][k]).next| == |l.next|
  { }

  lemma {:induction false} RemoveAt(s: seq<nat>, k: int)
    requires Distinct(s) && 0 <= k < |s|
    ensures Remove(s, s[k]) == Without(s, k)
  {
    var t := s[1..];
    assert forall i :: 0 <= i < |t| ==> t[i] == s[i + 1];
    if k == 0 {
      assert s[0] !in t;
      RemoveAbsent(t, s[0]);
    } else {
      RemoveAt(t, k - 1);
      assert Without(s, k) == [s[0]] + Without(t, k - 1);
    }
  }

  lemma PagesMoved(pageId: seq<nat>, order: seq<int>, k: int)
    requires Within(order, |pageId|) && 0 <= k < |order| && Distinct(order)
    requires forall i, j :: 0 <= i < j < |order| ==> pageId[order[i]] != pageId[order[j]]
    ensures Within([order[k]] + Without(order, k), |pageId|)
    ensures PagesOf(pageId, [order[k]] + Without(order, k)) ==
            [pageId[order[k]]] + Remove(PagesOf(pageId, order), pageId[order[k]])
    ensures pageId[order[k]] in PagesOf(pageId, order)
  {
    var ps := PagesOf(pageId, order);
    assert ps[k] == pageId[order[k]];
    RemoveAt(ps, k);
    assert Without(ps, k) == PagesOf(pageId, Without(order, k));
  }

  lemma PagesAdded(pageId: seq<nat>, was: seq<int>, order: seq<int>, n: int, page: nat, capacity: nat)
    requires Within(was, |pageId|) && n !in order && 0 <= n < |pageId| && capacity > 0 && |was| <= capacity
    requires order == (if |was| < capacity then was else was[..capacity - 1]) && page !in PagesOf(pageId, was)
    ensures Within([n] + order, |pageId[n := page]|)
    ensures PagesOf(pageId[n := page], [n] + order) == Fetched(PagesOf(pageId, was), page, capacity)
  {
    var ps := PagesOf(pageId, was);
    assert Within(order, |pageId|);
    assert PagesOf(pageId, order) == Take(ps, capacity - 1);
    forall i | 0 <= i < |order| ensures pageId[n := page][order[i]] == pageId[order[i]] { assert order[i] in order; }
    assert PagesOf(pageId[n := page], [n] + order) == [page] + PagesOf(pageId, order);
  }

  ghost function PagesOf(pageId: seq<nat>, order: seq<int>): (ps: seq<nat>)
    requires Within(order, |pageId|)
    ensures |ps| == |order|
  {
    seq(|order|, i requires 0 <= i < |order| => pageId[order[i]])
  }

  lemma AllWithin(order: seq<int>, n: int)
    requires forall x :: x in order ==> 0 <= x < n
    ensures Within(order, n)
  {
    forall i | 0 <= i < |order| ensures 0 <= order[i] < n { assert order[i] in order; }
  }

  lemma EmptyQueue(l: Links, h: int)
    requires |l.next| == |l.prev| && 0 <= h < |l.next| && l.next[h] == h && l.prev[h] == h
    ensures Queue(l, h, [])
  {
    assert [h] + [] == [h];
  }
}
