// The spatial index of one database slot: every point is stored under its id and again
// under its geohash code, and a rectangle is answered from the codes.
module Spatial {
  import opened Bits
  import opened Keys
  import opened Views
  import opened Climbing
  import opened Listing
  import opened Geohash
  import opened Tries
  import opened Heads

  const PRECISION := 9

  // What an address in the trie leads to.
  datatype Head = Head(lat: real, lng: real, code: seq<byte>)

  datatype Point = Point(lat: real, lng: real)

  function IdKey(id: Key): Key { [HEAD1] + id }

  function CodeKey(code: seq<byte>, id: Key): Key { [HEAD2] + code + id }

  lemma IdKeyOf(id: Key)
    ensures IdKey(id)[0] == HEAD1 && IdKey(id)[1..] == id && KnownKey(IdKey(id))
  { }

  lemma CodeKeyOf(code: seq<byte>, id: Key)
    requires |code| == PRECISION
    ensures var k := CodeKey(code, id);
            |k| >= 10 && k[0] == HEAD2 && k[1..10] == code && k[10..] == id && KnownKey(k) && k != IdKey(id)
  { }

  // The first byte says which command family a key belongs to.
  predicate KnownKey(k: Key)
  {
    && k != []
    && (k[0] == KV_HEAD || k[0] == HASH_HEAD || k[0] == SET_HEAD || k[0] == LIST_HEAD || k[0] == HEAD1
        || k[0] == HEAD2)
  }

  // The index entries of one id.
  predicate KeyOf(k: Key, id: Key)
  {
    k == IdKey(id) || (|k| >= 10 && k[0] == HEAD2 && k[10..] == id)
  }

  lemma KeysOfOne(k: Key, i: Key, j: Key)
    requires KeyOf(k, i) && KeyOf(k, j)
    ensures i == j
  {
    IdKeyOf(i);
    IdKeyOf(j);
  }

  lemma KeysOf(id: Key)
    ensures KeyOf(IdKey(id), id)
    ensures forall code :: |code| == PRECISION ==> KeyOf(CodeKey(code, id), id)
    ensures forall k :: KeyOf(k, id) ==> KnownKey(k) && (k == IdKey(id) || k == CodeKey(k[1..10], id))
  {
    IdKeyOf(id);
    forall code: seq<byte> | |code| == PRECISION ensures KeyOf(CodeKey(code, id), id) { CodeKeyOf(code, id); }
    forall k | KeyOf(k, id) && k != IdKey(id) ensures k == CodeKey(k[1..10], id)
    {
      assert k == [k[0]] + k[1..10] + k[10..];
    }
  }

  predicate HeadOk(h: Head)
  {
    OnEarth(h.lat, h.lng) && h.code == Code(h.lat, h.lng, PRECISION)
  }

  // The entries of one id: none, or one under the id and one under the code of its point,
  // both leading to the same head.
  ghost predicate IdOk(c: map<Key, int>, heads: map<int, Head>, id: Key)
  {
    if IdKey(id) !in c then forall k :: k in c ==> !KeyOf(k, id)
    else
      var p := c[IdKey(id)];
      && p in heads && HeadOk(heads[p])
      && (forall k :: KeyOf(k, id) && k in c ==> k == IdKey(id) || k == CodeKey(heads[p].code, id))
      && CodeKey(heads[p].code, id) in c && c[CodeKey(heads[p].code, id)] == p
  }

  ghost predicate Owned(c: map<Key, int>, p: int)
  {
    exists id :: IdKey(id) in c && c[IdKey(id)] == p
  }

  ghost predicate Tame(c: map<Key, int>)
  {
    forall k :: k in c ==> KnownKey(k) && c[k] >= 0 && (k[0] == HEAD2 ==> |k| >= 10)
  }

  // The entries of every id are in step, no two ids share a head, and no head is without an id.
  ghost predicate InStep(c: map<Key, int>, heads: map<int, Head>)
  {
    && Tame(c)
    && (forall id :: IdOk(c, heads, id))
    && (forall i, j :: IdKey(i) in c && IdKey(j) in c && c[IdKey(i)] == c[IdKey(j)] ==> i == j)
    && (forall p :: p in heads ==> Owned(c, p))
  }

  ghost function Ids(c: map<Key, int>): (ids: set<Key>)
    ensures forall id :: id in ids <==> IdKey(id) in c
  {
    var ids := set k | k in c && k != [] && k[0] == HEAD1 :: k[1..];
    forall id ensures id in ids <==> IdKey(id) in c
    {
      IdKeyOf(id);
      forall k | k in c && k != [] && k[0] == HEAD1 && k[1..] == id ensures k == IdKey(id) { }
      if IdKey(id) in c { assert IdKey(id)[1..] in ids; }
    }
    ids
  }

  ghost function PointAt(c: map<Key, int>, heads: map<int, Head>, id: Key): Point
    requires IdOk(c, heads, id) && IdKey(id) in c
  {
    Point(heads[c[IdKey(id)]].lat, heads[c[IdKey(id)]].lng)
  }

  // The points of the index.
  ghost function PointsOf(c: map<Key, int>, heads: map<int, Head>): map<Key, Point>
    requires InStep(c, heads)
  {
    map id | id in Ids(c) :: PointAt(c, heads, id)
  }

  // No first byte other than the known ones is in use, so no erase harms the trie.
  lemma NeverHarms(c: map<Key, int>, key: Key)
    requires Tame(c)
    ensures !Harms(c, key)
  {
    assert !Starts(c, 1) by {
      forall k | k in c && k != [] ensures FirstLabel(k) != 1 { assert KnownKey(k); }
    }
  }

  // -------------------------------------------------------------- what the operations do

  // Only the entries of one id differ.
  ghost predicate OnlyFor(c: map<Key, int>, c': map<Key, int>, id: Key)
  {
    forall k :: !KeyOf(k, id) ==> (k in c <==> k in c') && (k in c ==> c[k] == c'[k])
  }

  // The head of an id is only its own, and all other heads stay.
  ghost predicate HeadsFor(c: map<Key, int>, heads: map<int, Head>, c': map<Key, int>, heads': map<int, Head>, id: Key)
  {
    && (forall i :: i != id && IdKey(i) in c ==>
         c[IdKey(i)] in heads && c[IdKey(i)] in heads' && heads'[c[IdKey(i)]] == heads[c[IdKey(i)]])
    && (forall i :: i != id && IdKey(i) in c && IdKey(id) in c' ==> c[IdKey(i)] != c'[IdKey(id)])
    && (forall p :: p in heads' ==> p in heads || (IdKey(id) in c' && c'[IdKey(id)] == p))
    && (IdKey(id) in c && c[IdKey(id)] in heads' ==> IdKey(id) in c' && c'[IdKey(id)] == c[IdKey(id)])
  }

  lemma OtherId(c: map<Key, int>, heads: map<int, Head>, c': map<Key, int>, heads': map<int, Head>, id: Key, i: Key)
    requires OnlyFor(c, c', id) && HeadsFor(c, heads, c', heads', id) && i != id && IdOk(c, heads, i)
    ensures IdOk(c', heads', i) && (IdKey(i) in c <==> IdKey(i) in c')
    ensures (IdKey(i) in c ==> c[IdKey(i)] == c'[IdKey(i)])
    ensures IdKey(i) in c ==> PointAt(c, heads, i) == PointAt(c', heads', i)
  {
    hide KeyOf, IdKey, CodeKey, HeadOk;
    KeysOf(i);
    forall k | KeyOf(k, i) ensures !KeyOf(k, id)
    {
      if KeyOf(k, id) { KeysOfOne(k, i, id); }
    }
    if IdKey(i) in c {
      var p := c[IdKey(i)];
      CodeLength(heads[p]);
    }
  }

  lemma CodeLength(h: Head)
    requires HeadOk(h)
    ensures |h.code| == PRECISION
  { }

  // A change to the entries of one id that leaves them in step leaves all in step.
  lemma OneIdChanged(c: map<Key, int>, heads: map<int, Head>, c': map<Key, int>, heads': map<int, Head>, id: Key)
    requires InStep(c, heads) && OnlyFor(c, c', id) && HeadsFor(c, heads, c', heads', id)
    requires IdOk(c', heads', id) && forall k :: k in c' && KeyOf(k, id) ==> c'[k] >= 0
    ensures InStep(c', heads')
    ensures PointsOf(c', heads') ==
            if IdKey(id) in c' then PointsOf(c, heads)[id := PointAt(c', heads', id)] else PointsOf(c, heads) - {id}
  {
    hide IdKey, CodeKey, HeadOk, IdOk, OnlyFor, HeadsFor, PointAt, Tame, Owned, KeyOf;
    forall i ensures IdOk(c', heads', i)
    {
      if i != id { OtherId(c, heads, c', heads', id, i); }
    }
    forall i | i != id
      ensures (IdKey(i) in c <==> IdKey(i) in c') && (IdKey(i) in c ==> c[IdKey(i)] == c'[IdKey(i)])
      ensures IdKey(i) in c ==> PointAt(c, heads, i) == PointAt(c', heads', i)
    {
      OtherId(c, heads, c', heads', id, i);
    }
    StillTame(c, c', id);
    forall p | p in heads' ensures Owned(c', p) { StillOwned(c, heads, c', heads', id, p); }
    OwnHead(c, heads, c', heads', id);
    SamePoints(c, heads, c', heads', id);
  }

  lemma SamePoints(c: map<Key, int>, heads: map<int, Head>, c': map<Key, int>, heads': map<int, Head>, id: Key)
    requires InStep(c, heads) && InStep(c', heads')
    requires forall i :: i != id ==> (IdKey(i) in c <==> IdKey(i) in c')
    requires forall i :: i != id && IdKey(i) in c ==> PointAt(c, heads, i) == PointAt(c', heads', i)
    ensures PointsOf(c', heads') ==
            if IdKey(id) in c' then PointsOf(c, heads)[id := PointAt(c', heads', id)] else PointsOf(c, heads) - {id}
  {
    hide IdKey, CodeKey, HeadOk, IdOk, PointAt, Tame, Owned, KeyOf;
  }

  lemma OwnHead(c: map<Key, int>, heads: map<int, Head>, c': map<Key, int>, heads': map<int, Head>, id: Key)
    requires HeadsFor(c, heads, c', heads', id)
    ensures forall i :: i != id && IdKey(i) in c && IdKey(id) in c' ==> c[IdKey(i)] != c'[IdKey(id)]
  {
    hide IdKey;
  }

  lemma StillTame(c: map<Key, int>, c': map<Key, int>, id: Key)
    requires Tame(c) && OnlyFor(c, c', id) && forall k :: k in c' && KeyOf(k, id) ==> c'[k] >= 0
    ensures Tame(c')
  {
    hide IdKey, CodeKey;
    KeysOf(id);
    forall k | k in c' ensures KnownKey(k) && c'[k] >= 0 && (k[0] == HEAD2 ==> |k| >= 10)
    {
      if KeyOf(k, id) { IdKeyOf(id); }
    }
  }

  lemma StillOwned(c: map<Key, int>, heads: map<int, Head>, c': map<Key, int>, heads': map<int, Head>, id: Key, p: int)
    requires OnlyFor(c, c', id) && HeadsFor(c, heads, c', heads', id) && p in heads' && (p in heads ==> Owned(c, p))
    ensures Owned(c', p)
  {
    hide IdKey, KeyOf;
    if IdKey(id) in c' && c'[IdKey(id)] == p {
    } else {
      var i :| IdKey(i) in c && c[IdKey(i)] == p;
      if i != id {
        KeysOf(i);
        if KeyOf(IdKey(i), id) { KeysOfOne(IdKey(i), i, id); }
        assert IdKey(i) in c';
      }
    }
  }

  lemma InStepAt(c: map<Key, int>, heads: map<int, Head>, id: Key)
    requires InStep(c, heads)
    ensures IdOk(c, heads, id) && Tame(c)
  {
    hide IdOk, Tame, Owned;
  }

  lemma HeadsInStep(c: map<Key, int>, heads: map<int, Head>)
    requires InStep(c, heads)
    ensures forall i :: IdKey(i) in c ==> c[IdKey(i)] in heads
    ensures forall i, j :: IdKey(i) in c && IdKey(j) in c && c[IdKey(i)] == c[IdKey(j)] ==> i == j
  {
    hide IdKey, CodeKey, HeadOk, KeyOf, Tame, Owned;
    forall i | IdKey(i) in c ensures c[IdKey(i)] in heads { InStepAt(c, heads, i); }
  }

  // A head is added or changed for an id.
  lemma HeadGiven(c: map<Key, int>, heads: map<int, Head>, c': map<Key, int>, id: Key, p: int, h: Head)
    requires InStep(c, heads) && (if IdKey(id) in c then c[IdKey(id)] == p else p !in heads)
    requires IdKey(id) in c' && c'[IdKey(id)] == p
    ensures HeadsFor(c, heads, c', heads[p := h], id)
  {
    hide IdKey, InStep;
    HeadsInStep(c, heads);
  }

  // A head is dropped with its id.
  lemma HeadTaken(c: map<Key, int>, heads: map<int, Head>, c': map<Key, int>, id: Key)
    requires InStep(c, heads) && IdKey(id) in c && IdKey(id) !in c'
    ensures HeadsFor(c, heads, c', heads - {c[IdKey(id)]}, id)
  {
    hide IdKey, InStep;
    HeadsInStep(c, heads);
  }

  // The entries of an id that are right for its head.
  lemma EntriesGiven(c: map<Key, int>, heads: map<int, Head>, id: Key, h: Head, p: int)
    requires HeadOk(h) && p >= 0 && (IdKey(id) in c ==> IdOk(c, heads, id) && c[IdKey(id)] == p)
    requires IdKey(id) !in c ==> IdOk(c, heads, id)
    ensures var c' := if IdKey(id) !in c then c[IdKey(id) := p][CodeKey(h.code, id) := p]
                      else if h.code == heads[p].code then c
                      else c[CodeKey(h.code, id) := p] - {CodeKey(heads[p].code, id)};
            && IdKey(id) in c' && c'[IdKey(id)] == p && IdOk(c', heads[p := h], id) && OnlyFor(c, c', id)
            && (forall k :: k in c' && KeyOf(k, id) ==> c'[k] >= 0)
  {
    hide IdKey, CodeKey, HeadOk, KeyOf;
    KeysOf(id);
    CodeLength(h);
    CodeKeyOf(h.code, id);
    if IdKey(id) in c {
      CodeLength(heads[p]);
      CodeKeyOf(heads[p].code, id);
    }
  }

  lemma SetNew(c: map<Key, int>, heads: map<int, Head>, id: Key, h: Head, p: int)
    requires InStep(c, heads) && HeadOk(h) && IdKey(id) !in c && p !in heads && p >= 0
    ensures var c', heads' := c[IdKey(id) := p][CodeKey(h.code, id) := p], heads[p := h];
            && CodeKey(h.code, id) !in c && IdKey(id) != CodeKey(h.code, id)
            && InStep(c', heads') && OnlyFor(c, c', id)
            && PointsOf(c', heads') == PointsOf(c, heads)[id := Point(h.lat, h.lng)]
  {
    hide IdKey, CodeKey, HeadOk, KeyOf, InStep, PointsOf, HeadsFor, OnlyFor, Tame;
    var c', heads' := c[IdKey(id) := p][CodeKey(h.code, id) := p], heads[p := h];
    CodeLength(h);
    CodeKeyOf(h.code, id);
    KeysOf(id);
    InStepAt(c, heads, id);
    EntriesGiven(c, heads, id, h, p);
    HeadGiven(c, heads, c', id, p, h);
    OneIdChanged(c, heads, c', heads', id);
  }

  lemma SetMoved(c: map<Key, int>, heads: map<int, Head>, id: Key, h: Head)
    requires InStep(c, heads) && HeadOk(h) && IdKey(id) in c
    ensures var p := c[IdKey(id)];
            && p in heads && |heads[p].code| == PRECISION && p >= 0
            && CodeKey(heads[p].code, id) in c && c[CodeKey(heads[p].code, id)] == p
            && (h.code != heads[p].code ==> CodeKey(h.code, id) != CodeKey(heads[p].code, id))
            && Tame(c[CodeKey(h.code, id) := p])
    ensures var p := c[IdKey(id)];
            var c' := if h.code == heads[p].code then c else c[CodeKey(h.code, id) := p] - {CodeKey(heads[p].code, id)};
            var heads' := heads[p := h];
            && InStep(c', heads') && OnlyFor(c, c', id)
            && PointsOf(c', heads') == PointsOf(c, heads)[id := Point(h.lat, h.lng)]
  {
    hide IdKey, CodeKey, HeadOk, KeyOf, InStep, PointsOf, HeadsFor, OnlyFor, Tame, IdOk;
    var p := c[IdKey(id)];
    OldEntries(c, heads, id, h);
    EntriesGiven(c, heads, id, h, p);
    var c' := if h.code == heads[p].code then c else c[CodeKey(h.code, id) := p] - {CodeKey(heads[p].code, id)};
    HeadGiven(c, heads, c', id, p, h);
    OneIdChanged(c, heads, c', heads[p := h], id);
  }

  lemma OldEntries(c: map<Key, int>, heads: map<int, Head>, id: Key, h: Head)
    requires InStep(c, heads) && HeadOk(h) && IdKey(id) in c
    ensures var p := c[IdKey(id)];
            && IdOk(c, heads, id) && p in heads && |heads[p].code| == PRECISION && p >= 0
            && CodeKey(heads[p].code, id) in c && c[CodeKey(heads[p].code, id)] == p
            && (h.code != heads[p].code ==> CodeKey(h.code, id) != CodeKey(heads[p].code, id))
            && Tame(c[CodeKey(h.code, id) := p])
  {
    hide IdKey, CodeKey, HeadOk, KeyOf, InStep, KnownKey;
    InStepAt(c, heads, id);
    CodeLength(h);
    CodeLength(heads[c[IdKey(id)]]);
    CodeKeyOf(h.code, id);
    CodeKeyOf(heads[c[IdKey(id)]].code, id);
  }

  lemma Deleted(c: map<Key, int>, heads: map<int, Head>, id: Key)
    requires InStep(c, heads) && IdKey(id) in c
    ensures var p := c[IdKey(id)];
            && p in heads && |heads[p].code| == PRECISION && p >= 0
            && CodeKey(heads[p].code, id) in c && c[CodeKey(heads[p].code, id)] == p
            && CodeKey(heads[p].code, id) != IdKey(id) && Tame(c) && Tame(c - {IdKey(id)})
    ensures var p := c[IdKey(id)];
            var c' := c - {IdKey(id)} - {CodeKey(heads[p].code, id)};
            var heads' := heads - {p};
            InStep(c', heads') && OnlyFor(c, c', id) && PointsOf(c', heads') == PointsOf(c, heads) - {id}
  {
    hide IdKey, CodeKey, HeadOk, KeyOf, InStep, PointsOf, HeadsFor;
    InStepAt(c, heads, id);
    KeysOf(id);
    var p := c[IdKey(id)];
    CodeLength(heads[p]);
    CodeKeyOf(heads[p].code, id);
    var c' := c - {IdKey(id)} - {CodeKey(heads[p].code, id)};
    HeadTaken(c, heads, c', id);
    OneIdChanged(c, heads, c', heads - {p}, id);
  }

  lemma PointFound(c: map<Key, int>, heads: map<int, Head>, id: Key)
    requires InStep(c, heads)
    ensures IdKey(id) in c <==> id in PointsOf(c, heads)
    ensures IdKey(id) in c ==>
              c[IdKey(id)] >= 0 && c[IdKey(id)] in heads && PointsOf(c, heads)[id] == PointAt(c, heads, id)
  {
    hide IdKey, Owned;
    InStepAt(c, heads, id);
  }

  lemma Unchanged(c: map<Key, int>, id: Key)
    ensures OnlyFor(c, c, id)
  { }

  method MakeIdKey(id: Key) returns (key: Key)
    ensures key == IdKey(id) && key != []
  {
    key := [HEAD1] + id;
  }

  // The key of a code entry, in a buffer that holds the head byte, the code and the id.
  method MakeCodeKey(code: seq<byte>, id: Key) returns (key: Key)
    ensures key == CodeKey(code, id) && key != []
  {
    key := [HEAD2] + code + id;
  }

  method GeoHash(lat: real, lng: real) returns (code: seq<byte>)
    requires OnEarth(lat, lng)
    ensures HeadOk(Head(lat, lng, code))
  {
    var buffer := new byte[PRECISION];
    Geohash.Encode(lat, lng, buffer, 0, PRECISION);
    code := buffer[..];
    assert code == Code(lat, lng, PRECISION);
  }

  // ------------------------------------------------------------------- rectangle queries

  predicate InRect(lat: real, lng: real, lat1: real, lat2: real, lng1: real, lng2: real)
  {
    lat1 <= lat <= lat2 && lng1 <= lng <= lng2
  }

  // What a scan of all points finds.
  ghost function Scan(points: map<Key, Point>, lat1: real, lat2: real, lng1: real, lng2: real): set<Key>
  {
    set id | id in points && InRect(points[id].lat, points[id].lng, lat1, lat2, lng1, lng2)
  }

  // What a query finds of that: nothing if a line of the coarsest code runs through the rectangle,
  // and otherwise all ids without NUL bytes, but for the empty id inside a single finest cell.
  ghost function Reported(points: map<Key, Point>, lat1: real, lat2: real, lng1: real, lng2: real): set<Key>
  {
    var r := Box(Sorted(lat1, lat2), Sorted(lng1, lng2));
    set id | id in Scan(points, lat1, lat2, lng1, lng2) && Findable(id, r)
  }

  ghost predicate Findable(id: Key, r: Box)
  {
    NulFree(id) && Uncut(r, 5) && (Uncut(r, 5 * PRECISION) ==> id != [])
  }

  // The entries name exactly these ids, each once.
  ghost predicate Answers(resp: seq<(Key, int)>, ids: set<Key>)
  {
    && (forall i :: 0 <= i < |resp| ==> resp[i].0 in ids)
    && (forall id :: id in ids ==> exists i :: 0 <= i < |resp| && resp[i].0 == id)
    && DistinctIds(resp)
  }

  // Each entry leads where the entry under its id does.
  ghost predicate Led(resp: seq<(Key, int)>, c: map<Key, int>)
  {
    forall i :: 0 <= i < |resp| ==> IdKey(resp[i].0) in c && resp[i].1 == c[IdKey(resp[i].0)]
  }

  predicate DistinctIds(resp: seq<(Key, int)>)
  {
    forall i, j :: 0 <= i < j < |resp| ==> resp[i].0 != resp[j].0
  }

  // The entries within the rectangle, each cut down to its id.
  function Filtered(out: seq<(Key, int)>, heads: map<int, Head>, n: nat,
                    lat1: real, lat2: real, lng1: real, lng2: real): seq<(Key, int)>
    requires forall i :: 0 <= i < |out| ==> |out[i].0| >= n && out[i].1 in heads
  {
    if out == [] then []
    else
      var e := out[|out| - 1];
      var rest := Filtered(out[..|out| - 1], heads, n, lat1, lat2, lng1, lng2);
      if InRect(heads[e.1].lat, heads[e.1].lng, lat1, lat2, lng1, lng2) then rest + [(e.0[n..], e.1)] else rest
  }

  lemma FilteredNone(out: seq<(Key, int)>, heads: map<int, Head>, n: nat, lat1: real, lat2: real, lng1: real,
      lng2: real)
    ensures Filtered(out[..0], heads, n, lat1, lat2, lng1, lng2) == []
  { }

  lemma FilteredNext(out: seq<(Key, int)>, j: nat, heads: map<int, Head>, n: nat,
                     lat1: real, lat2: real, lng1: real, lng2: real)
    requires j < |out| && forall i :: 0 <= i < |out| ==> |out[i].0| >= n && out[i].1 in heads
    ensures var e := out[j];
            Filtered(out[..j + 1], heads, n, lat1, lat2, lng1, lng2) ==
            Filtered(out[..j], heads, n, lat1, lat2, lng1, lng2)
            + if InRect(heads[e.1].lat, heads[e.1].lng, lat1, lat2, lng1, lng2) then [(e.0[n..], e.1)] else []
  {
    assert out[..j + 1][..j] == out[..j];
  }

  // What is in the rectangle and can be found.
  lemma ReportedMembers(points: map<Key, Point>, lat1: real, lat2: real, lng1: real, lng2: real)
    ensures var all, r := Scan(points, lat1, lat2, lng1, lng2), Box(Sorted(lat1, lat2), Sorted(lng1, lng2));
            forall id :: id in Reported(points, lat1, lat2, lng1, lng2) <==> id in all && Findable(id, r)
  { }

  // So a response is that of a scan exactly when every point of the scan is findable.
  lemma AnswersScan(resp: seq<(Key, int)>, points: map<Key, Point>, lat1: real, lat2: real, lng1: real, lng2: real)
    requires Answers(resp, Reported(points, lat1, lat2, lng1, lng2))
    ensures Answers(resp, Scan(points, lat1, lat2, lng1, lng2))
            <==> forall id :: id in Scan(points, lat1, lat2, lng1, lng2) ==>
                Findable(id, Box(Sorted(lat1, lat2), Sorted(lng1, lng2)))
  {
    hide Scan, Findable, Reported;
    ReportedMembers(points, lat1, lat2, lng1, lng2);
    var all, got := Scan(points, lat1, lat2, lng1, lng2), Reported(points, lat1, lat2, lng1, lng2);
    if Answers(resp, all) {
      forall id | id in all ensures id in got { var i :| 0 <= i < |resp| && resp[i].0 == id; }
    }
    if forall id :: id in all ==> Findable(id, Box(Sorted(lat1, lat2), Sorted(lng1, lng2))) {
      assert got == all;
    }
  }

  // Ids that any query with a cover finds.
  ghost predicate GoodIds(points: map<Key, Point>) { forall id :: id in points ==> id != [] && NulFree(id) }

  // Some character is committed: no line of the coarsest code runs through the rectangle.
  ghost predicate Covered(lat1: real, lat2: real, lng1: real, lng2: real)
  {
    Uncut(Box(Sorted(lat1, lat2), Sorted(lng1, lng2)), 5)
  }

  lemma GoodAreFindable(points: map<Key, Point>, lat1: real, lat2: real, lng1: real, lng2: real)
    requires GoodIds(points) && Covered(lat1, lat2, lng1, lng2)
    ensures forall id :: id in Scan(points, lat1, lat2, lng1, lng2) ==>
              Findable(id, Box(Sorted(lat1, lat2), Sorted(lng1, lng2)))
  { }

  // A rectangle that touches the equator or the prime meridian finds nothing, whatever it holds.
  lemma MiddleFindsNothing(points: map<Key, Point>, lat1: real, lat2: real, lng1: real, lng2: real)
    requires lat1 <= 0.0 <= lat2 || lng1 <= 0.0 <= lng2
    ensures Reported(points, lat1, lat2, lng1, lng2) == {}
  {
    var r := Box(Sorted(lat1, lat2), Sorted(lng1, lng2));
    assert Cell([]) == WORLD;
    assert PointBits(r.lat.low, r.lng.low, 1)[..0] == [];
    assert !Clear(r, 0) || !Clear(r, 1);
  }

  // The search key: a prefix that every code in the rectangle has, or one that no code has.
  ghost predicate Searches(key: Key, chars: nat, precision: nat, r: Box)
  {
    && chars <= PRECISION && Uncut(r, 5 * chars) && (chars < PRECISION ==> !Uncut(r, 5 * chars + 5))
    && (if chars == 0 then precision == PRECISION && key == [HEAD2, 0, 0, 0, 0, 0, 0, 0, 0, 0]
        else precision == chars && key == [HEAD2] + Code(r.lat.low, r.lng.low, chars))
  }

  lemma CoverKey(was: seq<byte>, now: seq<byte>, r: Box, chars: nat, precision: nat)
    requires |was| == 13 && was[0] == HEAD2 && forall i :: 1 <= i < 13 ==> was[i] == 0
    requires chars <= PRECISION && now == Written(was, 1, Code(r.lat.low, r.lng.low, chars))
    requires Uncut(r, 5 * chars) && (chars < PRECISION ==> !Uncut(r, 5 * chars + 5))
    requires precision == if chars == 0 then PRECISION else chars
    ensures Searches(now[..precision + 1], chars, precision, r)
  {
    hide Uncut, Code;
    if chars == 0 {
      assert now == was;
    }
  }

  lemma LettersNotNul(lat: real, lng: real, p: nat)
    ensures forall i :: 0 <= i < p ==> Code(lat, lng, p)[i] != 0
  {
    hide Value;
    var bits := PointBits(lat, lng, 5 * p);
    forall i | 0 <= i < p ensures Code(lat, lng, p)[i] != 0
    {
      ValueBound(bits[5 * i..5 * i + 5]);
      LettersDistinct();
    }
  }

  // Whatever a search lists is the rest of the code and the id of some point.
  lemma EntryIs(c: map<Key, int>, heads: map<int, Head>, key: Key, chars: nat, precision: nat, r: Box, s: Key)
    requires InStep(c, heads) && Searches(key, chars, precision, r) && Suffix(c, key, NonZero(), s)
    ensures chars > 0 && |s| >= PRECISION - precision
    ensures var id := s[PRECISION - precision..];
            && IdKey(id) in c && c[IdKey(id)] == c[key + s] && c[key + s] in heads
            && |heads[c[key + s]].code| == PRECISION
            && key + s == CodeKey(heads[c[key + s]].code, id) && NulFree(id) && (precision == PRECISION ==> id != [])
  {
    hide IdKey, HeadOk, InStep, Uncut, Code, CodeKey, NonZero;
    var k := key + s;
    InStepAt(c, heads, []);
    InStepAt(c, heads, k[10..]);
    var id, h := k[10..], heads[c[IdKey(k[10..])]];
    assert KeyOf(k, id);
    IdKeyOf(id);
    CodeLength(h);
    CodeKeyOf(h.code, id);
    assert k == CodeKey(h.code, id);
    HeadLetters(h);
    assert h.code[0] == k[1];
    assert s[PRECISION - precision..] == id;
  }

  lemma HeadLetters(h: Head)
    requires HeadOk(h)
    ensures forall i :: 0 <= i < |h.code| ==> h.code[i] != 0
  {
    LettersNotNul(h.lat, h.lng, PRECISION);
  }

  predicate EntryOf(c: map<Key, int>, key: Key, s: Key, precision: nat, id: Key)
    requires precision <= PRECISION
  {
    && |s| >= PRECISION - precision && s[PRECISION - precision..] == id
    && key + s in c && IdKey(id) in c && c[key + s] == c[IdKey(id)]
  }

  // And every findable point of the rectangle is listed.
  lemma EntryFor(c: map<Key, int>, heads: map<int, Head>, key: Key, chars: nat, precision: nat, r: Box, id: Key)
    requires InStep(c, heads) && Searches(key, chars, precision, r) && chars > 0
    requires IdKey(id) in c && IdOk(c, heads, id) && NulFree(id) && (precision == PRECISION ==> id != [])
    requires Inside(heads[c[IdKey(id)]].lat, heads[c[IdKey(id)]].lng, r)
    ensures exists s :: Suffix(c, key, NonZero(), s) && EntryOf(c, key, s, precision, id)
  {
    hide IdKey, InStep, Uncut, Code, NonZero;
    var h := heads[c[IdKey(id)]];
    SharedPrefix(h, r, chars);
    HeadLetters(h);
    var s := h.code[chars..] + id;
    assert key + s == CodeKey(h.code, id) by { assert h.code == h.code[..chars] + h.code[chars..]; }
    assert s[PRECISION - precision..] == id;
    assert NulFree(s);
    assert s != [] && s[0] in NonZero();
    assert Suffix(c, key, NonZero(), s);
    assert EntryOf(c, key, s, precision, id);
  }

  lemma SharedPrefix(h: Head, r: Box, chars: nat)
    requires HeadOk(h) && chars <= PRECISION && Uncut(r, 5 * chars) && Inside(h.lat, h.lng, r)
    ensures |h.code| == PRECISION && h.code[..chars] == Code(r.lat.low, r.lng.low, chars)
  {
    hide Uncut, CodeOf, PointBits;
    CodePrefix(h.lat, h.lng, chars, PRECISION);
    UncutShares(r, 5 * chars, h.lat, h.lng);
  }

  lemma EntriesRead(c: map<Key, int>, heads: map<int, Head>, key: Key, chars: nat, precision: nat, r: Box,
      out: seq<(Key, int)>)
    requires InStep(c, heads) && Searches(key, chars, precision, r) && Enumerates(c, key, [], NonZero(), out)
    ensures forall i :: 0 <= i < |out| ==> |out[i].0| >= PRECISION - precision && out[i].1 in heads
  {
    hide InStep, Searches, NonZero;
    forall i | 0 <= i < |out| ensures |out[i].0| >= PRECISION - precision && out[i].1 in heads
    {
      ListedIs(c, key, out[i]);
      EntryIs(c, heads, key, chars, precision, r, out[i].0);
    }
  }

  lemma ListedIs(c: map<Key, int>, key: Key, e: (Key, int))
    requires Listed(c, key, [], NonZero(), e)
    ensures Suffix(c, key, NonZero(), e.0) && e.1 == c[key + e.0]
  {
    assert e.0[0..] == e.0;
  }

  ghost predicate Kept(e: (Key, int), heads: map<int, Head>, lat1: real, lat2: real, lng1: real, lng2: real)
    requires e.1 in heads
  {
    InRect(heads[e.1].lat, heads[e.1].lng, lat1, lat2, lng1, lng2)
  }

  // f's entry i is cut from out's entry j, which lies in the rectangle.
  ghost predicate From(f: seq<(Key, int)>, i: int, out: seq<(Key, int)>, j: int, heads: map<int, Head>, n: nat,
                       lat1: real, lat2: real, lng1: real, lng2: real)
  {
    && 0 <= i < |f| && 0 <= j < |out| && |out[j].0| >= n && out[j].1 in heads
    && f[i] == (out[j].0[n..], out[j].1) && Kept(out[j], heads, lat1, lat2, lng1, lng2)
  }

  lemma {:induction false} FilteredFrom(out: seq<(Key, int)>, heads: map<int, Head>, n: nat,
                                        lat1: real, lat2: real, lng1: real, lng2: real, i: nat)
    returns (j: nat)
    requires forall i :: 0 <= i < |out| ==> |out[i].0| >= n && out[i].1 in heads
    requires i < |Filtered(out, heads, n, lat1, lat2, lng1, lng2)|
    ensures From(Filtered(out, heads, n, lat1, lat2, lng1, lng2), i, out, j, heads, n, lat1, lat2, lng1, lng2)
  {
    var m := |out| - 1;
    var g := Filtered(out[..m], heads, n, lat1, lat2, lng1, lng2);
    if i < |g| {
      j := FilteredFrom(out[..m], heads, n, lat1, lat2, lng1, lng2, i);
    } else {
      j := m;
    }
  }

  lemma {:induction false} FilteredHas(out: seq<(Key, int)>, heads: map<int, Head>, n: nat,
                                       lat1: real, lat2: real, lng1: real, lng2: real, j: nat)
    returns (i: nat)
    requires forall i :: 0 <= i < |out| ==> |out[i].0| >= n && out[i].1 in heads
    requires j < |out| && Kept(out[j], heads, lat1, lat2, lng1, lng2)
    ensures From(Filtered(out, heads, n, lat1, lat2, lng1, lng2), i, out, j, heads, n, lat1, lat2, lng1, lng2)
  {
    var m := |out| - 1;
    if j < m {
      assert out[..m][j] == out[j];
      i := FilteredHas(out[..m], heads, n, lat1, lat2, lng1, lng2, j);
    } else {
      i := |Filtered(out[..m], heads, n, lat1, lat2, lng1, lng2)|;
    }
  }

  lemma {:induction false} FilteredDistinct(out: seq<(Key, int)>, heads: map<int, Head>, n: nat,
                                            lat1: real, lat2: real, lng1: real, lng2: real)
    requires forall i :: 0 <= i < |out| ==> |out[i].0| >= n && out[i].1 in heads
    requires forall i, j :: 0 <= i < j < |out| ==> out[i].0[n..] != out[j].0[n..]
    ensures DistinctIds(Filtered(out, heads, n, lat1, lat2, lng1, lng2))
  {
    if out != [] {
      var m := |out| - 1;
      FilteredDistinct(out[..m], heads, n, lat1, lat2, lng1, lng2);
      var g := Filtered(out[..m], heads, n, lat1, lat2, lng1, lng2);
      var f := Filtered(out, heads, n, lat1, lat2, lng1, lng2);
      assert f == g || f == g + [(out[m].0[n..], out[m].1)];
      forall i | 0 <= i < |g| ensures g[i].0 != out[m].0[n..]
      {
        var j := FilteredFrom(out[..m], heads, n, lat1, lat2, lng1, lng2, i);
        assert out[..m][j] == out[j];
      }
      forall i, j | 0 <= i < j < |f| ensures f[i].0 != f[j].0
      {
        assert f[i] == g[i];
        if j < |g| {
          assert f[j] == g[j] && g[i].0 != g[j].0;
        } else {
          assert f[j] == (out[m].0[n..], out[m].1);
        }
      }
    }
  }

  lemma RectAnswers(c: map<Key, int>, heads: map<int, Head>, key: Key, chars: nat, precision: nat, out: seq<(Key, int)>,
                    lat1: real, lat2: real, lng1: real, lng2: real)
    requires InStep(c, heads) && Enumerates(c, key, [], NonZero(), out)
    requires Searches(key, chars, precision, Box(Sorted(lat1, lat2), Sorted(lng1, lng2)))
    requires forall i :: 0 <= i < |out| ==> |out[i].0| >= PRECISION - precision && out[i].1 in heads
    ensures Answers(Filtered(out, heads, PRECISION - precision, lat1, lat2, lng1, lng2),
                    Reported(PointsOf(c, heads), lat1, lat2, lng1, lng2))
    ensures Led(Filtered(out, heads, PRECISION - precision, lat1, lat2, lng1, lng2), c)
  {
    hide InStep, Code, NonZero, Enumerates, PointsOf, Listed, Findable, Suffix, Uncut, Filtered, IdKey, CodeKey,
         HeadOk, IdOk;
    var n, box := PRECISION - precision, Box(Sorted(lat1, lat2), Sorted(lng1, lng2));
    var f := Filtered(out, heads, n, lat1, lat2, lng1, lng2);
    var ids := Reported(PointsOf(c, heads), lat1, lat2, lng1, lng2);
    IdsDistinct(c, heads, key, chars, precision, box, out);
    FilteredDistinct(out, heads, n, lat1, lat2, lng1, lng2);
    forall i | 0 <= i < |f| ensures f[i].0 in ids && IdKey(f[i].0) in c && f[i].1 == c[IdKey(f[i].0)]
    {
      var j := FilteredFrom(out, heads, n, lat1, lat2, lng1, lng2, i);
      Entry(c, heads, key, chars, precision, box, out, j);
    }
    forall id | id in ids ensures exists i :: 0 <= i < |f| && f[i].0 == id
    {
      var j := Found(c, heads, key, chars, precision, lat1, lat2, lng1, lng2, out, id);
      var i := FilteredHas(out, heads, n, lat1, lat2, lng1, lng2, j);
    }
  }

  // An entry of the enumeration, as a point.
  lemma Entry(c: map<Key, int>, heads: map<int, Head>, key: Key, chars: nat, precision: nat, r: Box,
      out: seq<(Key, int)>, j: nat)
    requires InStep(c, heads) && Searches(key, chars, precision, r) && Enumerates(c, key, [], NonZero(), out)
    requires j < |out| && |out[j].0| >= PRECISION - precision && out[j].1 in heads
    ensures var id := out[j].0[PRECISION - precision..];
            && IdKey(id) in c && c[IdKey(id)] == out[j].1 && id in PointsOf(c, heads) && Findable(id, r)
            && |heads[out[j].1].code| == PRECISION && key + out[j].0 == CodeKey(heads[out[j].1].code, id)
            && PointsOf(c, heads)[id] == Point(heads[out[j].1].lat, heads[out[j].1].lng)
  {
    hide InStep, NonZero, Uncut, PointsOf, IdKey, CodeKey;
    ListedIs(c, key, out[j]);
    EntryIs(c, heads, key, chars, precision, r, out[j].0);
    PointFound(c, heads, out[j].0[PRECISION - precision..]);
    Committed(r, chars, 1);
    Committed(r, chars, PRECISION);
  }

  // How many characters are committed, by the lines that meet the rectangle.
  lemma Committed(r: Box, chars: nat, p: nat)
    requires chars <= PRECISION && Uncut(r, 5 * chars) && (chars < PRECISION ==> !Uncut(r, 5 * chars + 5))
    requires p <= PRECISION
    ensures Uncut(r, 5 * p) <==> chars >= p
  {
    hide Clear;
  }

  lemma IdsDistinct(c: map<Key, int>, heads: map<int, Head>, key: Key, chars: nat, precision: nat, r: Box,
      out: seq<(Key, int)>)
    requires InStep(c, heads) && Searches(key, chars, precision, r) && Enumerates(c, key, [], NonZero(), out)
    requires forall i :: 0 <= i < |out| ==> |out[i].0| >= PRECISION - precision && out[i].1 in heads
    ensures forall i, j :: 0 <= i < j < |out| ==> out[i].0[PRECISION - precision..] != out[j].0[PRECISION - precision..]
  {
    hide InStep, Uncut, Code, NonZero, PointsOf, IdKey, CodeKey, Findable, Listed, Suffix;
    var n := PRECISION - precision;
    forall i, j | 0 <= i < j < |out| ensures out[i].0[n..] != out[j].0[n..]
    {
      if out[i].0[n..] == out[j].0[n..] {
        Entry(c, heads, key, chars, precision, r, out, i);
        Entry(c, heads, key, chars, precision, r, out, j);
        SameRest(key, out[i].0, out[j].0);
      }
    }
  }

  lemma SameRest(k: Key, s: Key, t: Key)
    requires k + s == k + t
    ensures s == t
  {
    assert (k + s)[|k|..] == s && (k + t)[|k|..] == t;
  }

  lemma Found(c: map<Key, int>, heads: map<int, Head>, key: Key, chars: nat, precision: nat,
              lat1: real, lat2: real, lng1: real, lng2: real, out: seq<(Key, int)>, id: Key)
    returns (j: nat)
    requires InStep(c, heads) && Enumerates(c, key, [], NonZero(), out)
    requires Searches(key, chars, precision, Box(Sorted(lat1, lat2), Sorted(lng1, lng2)))
    requires forall i :: 0 <= i < |out| ==> |out[i].0| >= PRECISION - precision && out[i].1 in heads
    requires id in Reported(PointsOf(c, heads), lat1, lat2, lng1, lng2)
    ensures j < |out| && out[j].0[PRECISION - precision..] == id && Kept(out[j], heads, lat1, lat2, lng1, lng2)
  {
    hide InStep, NonZero, Uncut, PointsOf, IdKey, CodeKey, HeadOk, IdOk, Suffix, Listed;
    var r := Box(Sorted(lat1, lat2), Sorted(lng1, lng2));
    PointFound(c, heads, id);
    InStepAt(c, heads, id);
    Committed(r, chars, 1);
    Committed(r, chars, PRECISION);
    EntryFor(c, heads, key, chars, precision, r, id);
    var s :| Suffix(c, key, NonZero(), s) && EntryOf(c, key, s, precision, id);
    j :| 0 <= j < |out| && out[j] == ([] + s, c[key + s]);
    assert [] + s == s;
  }

  class SpatialIndex {
    const trie: Trie
    // The records that the values of index entries point to, by address.
    var heads: map<int, Head>

    ghost predicate Valid()
      reads this, trie
    {
      trie.Valid() && InStep(trie.Contents(), heads)
    }

    ghost function Points(): map<Key, Point>
      reads this, trie
      requires Valid()
    {
      PointsOf(trie.Contents(), heads)
    }

    constructor ()
      ensures Valid() && fresh(trie) && Points() == map[] && heads == map[] && trie.Contents() == map[]
    {
      trie := new Trie();
      heads := map[];
    }

    // etdb_database_sp_set; address is what the allocator hands out if a record is needed.
    method Set(id: Key, lat: real, lng: real, address: int) returns (r: int)
      requires Valid() && address > 0 && address !in heads
      modifies this, trie
      ensures Valid()
      ensures r == if OnEarth(lat, lng) then 0 else -1
      ensures Points() == if OnEarth(lat, lng) then old(Points())[id := Point(lat, lng)] else old(Points())
      ensures OnlyFor(old(trie.Contents()), trie.Contents(), id)
    {
      hide Trie.TreeValid, Bushy, PathsOk, Trie.Contents, InStep, PointsOf, IdKey, CodeKey, Harms, HeadOk, IdOk,
           OnlyFor, Tame, Code;
      ghost var c, hs := trie.Contents(), heads;
      Unchanged(c, id);
      if lat < -90.0 || lat > 90.0 || lng < -180.0 || lng > 180.0 {
        return -1;
      }
      InStepAt(c, hs, id);
      PointFound(c, hs, id);
      var idKey := MakeIdKey(id);
      var pValue := trie.ExactMatchSearch(idKey);
      var code := GeoHash(lat, lng);
      ghost var h := Head(lat, lng, code);
      var codeKey := MakeCodeKey(code, id);
      if pValue < 0 {
        SetNew(c, hs, id, h, address);
        heads := heads[address := Head(lat, lng, code)];
        var u := trie.Update(idKey, address);
        assert u == 0; // the roll-back never runs
        u := trie.Update(codeKey, address);
        assert u == 0;
      } else {
        SetMoved(c, hs, id, h);
        var head := heads[pValue];
        if code != head.code {
          var u := trie.Update(codeKey, pValue);
          NeverHarms(trie.Contents(), CodeKey(head.code, id));
          var oldKey := MakeCodeKey(head.code, id);
          u := trie.Erase(oldKey);
          head := head.(code := code);
        }
        head := head.(lat := lat, lng := lng);
        heads := heads[pValue := head];
      }
      return 0;
    }

    // etdb_database_sp_get
    method Get(id: Key) returns (r: int, lat: real, lng: real, code: seq<byte>)
      requires Valid()
      ensures r == if id in Points() then 0 else -1
      ensures id in Points() ==>
                Points()[id] == Point(lat, lng) && OnEarth(lat, lng) && code == Code(lat, lng, PRECISION)
    {
      hide Trie.TreeValid, Bushy, PathsOk, Trie.Contents, InStep, PointsOf, IdKey, CodeKey, Tame, Code;
      ghost var c := trie.Contents();
      PointFound(c, heads, id);
      InStepAt(c, heads, id);
      var idKey := MakeIdKey(id);
      var pValue := trie.ExactMatchSearch(idKey);
      if pValue < 0 {
        return -1, 0.0, 0.0, [];
      }
      var head := heads[pValue];
      return 0, head.lat, head.lng, head.code;
    }

    // etdb_database_sp_del
    method Del(id: Key) returns (r: int)
      requires Valid()
      modifies this, trie
      ensures Valid()
      ensures r == if id in old(Points()) then 0 else -1
      ensures Points() == old(Points()) - {id}
      ensures OnlyFor(old(trie.Contents()), trie.Contents(), id)
    {
      hide Trie.TreeValid, Bushy, PathsOk, Trie.Contents, InStep, PointsOf, IdKey, CodeKey, Harms, HeadOk, IdOk,
           OnlyFor, Tame;
      ghost var c, hs := trie.Contents(), heads;
      Unchanged(c, id);
      PointFound(c, hs, id);
      InStepAt(c, hs, id);
      NeverHarms(c, IdKey(id));
      if id in Points() {
        Deleted(c, hs, id);
      }
      var idKey := MakeIdKey(id);
      var pValue := trie.Erase(idKey);
      if pValue < 0 {
        return -1;
      }
      var head := heads[pValue];
      var codeKey := MakeCodeKey(head.code, id);
      NeverHarms(trie.Contents(), codeKey);
      var e := trie.Erase(codeKey);
      heads := heads - {pValue};
      return 0;
    }

    // The loop over the result queue: every entry is cut down to its id, and removed if its
    // point lies outside.
    method KeepInside(out: seq<(Key, int)>, n: nat, lat1: real, lat2: real, lng1: real, lng2: real)
      returns (resp: seq<(Key, int)>)
      requires forall i :: 0 <= i < |out| ==> |out[i].0| >= n && out[i].1 in heads
      ensures resp == Filtered(out, heads, n, lat1, lat2, lng1, lng2)
    {
      hide Filtered;
      resp := out;
      var i := 0;
      ghost var j := 0;
      FilteredNone(out, heads, n, lat1, lat2, lng1, lng2);
      while i < |resp|
        invariant 0 <= i <= |resp| && 0 <= j <= |out| && resp[i..] == out[j..]
        invariant resp[..i] == Filtered(out[..j], heads, n, lat1, lat2, lng1, lng2)
        decreases |resp| - i
      {
        assert resp[i] == out[j];
        FilteredNext(out, j, heads, n, lat1, lat2, lng1, lng2);
        var head := heads[resp[i].1];
        resp := resp[i := (resp[i].0[n..], resp[i].1)];
        if head.lat < lat1 || head.lat > lat2 || head.lng < lng1 || head.lng > lng2 {
          resp := resp[..i] + resp[i + 1..];
        } else {
          i := i + 1;
        }
        j := j + 1;
      }
      assert resp[..i] == resp && out[..j] == out;
    }

    // etdb_database_sp_rect
    method Rect(lat1: real, lat2: real, lng1: real, lng2: real) returns (r: int, resp: seq<(Key, int)>)
      requires Valid()
      ensures r == if OnEarth(lat1, lng1) && OnEarth(lat2, lng2) then 0 else -1
      ensures r == 0 ==> Answers(resp, Reported(Points(), lat1, lat2, lng1, lng2))
      ensures r == 0 ==> Led(resp, trie.Contents())
      ensures r == 0 ==> (Answers(resp, Scan(Points(), lat1, lat2, lng1, lng2)) <==>
                            forall id :: id in Scan(Points(), lat1, lat2, lng1, lng2) ==>
                                Findable(id, Box(Sorted(lat1, lat2), Sorted(lng1, lng2))))
      ensures r == 0 && GoodIds(Points()) && Covered(lat1, lat2, lng1, lng2) ==>
                Answers(resp, Scan(Points(), lat1, lat2, lng1, lng2))
    {
      hide Trie.TreeValid, Bushy, PathsOk, Trie.Contents, InStep, PointsOf, Uncut, Enumerates, Filtered, Answers,
           Reported, Code, Scan, Findable, Covered, GoodIds, Led;
      resp := [];
      if lat1 < -90.0 || lat1 > 90.0 || lng1 < -180.0 || lng1 > 180.0 || lat2 < -90.0 || lat2 > 90.0 || lng2 < -180.0
          || lng2 > 180.0 {
        return -1, [];
      }
      ghost var c := trie.Contents();
      var hash := new byte[13](_ => 0);
      hash[0] := HEAD2;
      ghost var chars;
      ghost var was, box := hash[..], Box(Sorted(lat1, lat2), Sorted(lng1, lng2));
      var precision;
      precision, chars := GetMaxCover(lat1, lat2, lng1, lng2, hash, 1, PRECISION);
      CoverKey(was, hash[..], box, chars, precision);
      var key := hash[..precision + 1];
      InStepAt(c, heads, []);
      var ret, out := trie.CommonPrefixPathSearch(key);
      EntriesRead(c, heads, key, chars, precision, box, out);
      resp := KeepInside(out, PRECISION - precision, lat1, lat2, lng1, lng2);
      RectAnswers(c, heads, key, chars, precision, out, lat1, lat2, lng1, lng2);
      AnswersScan(resp, Points(), lat1, lat2, lng1, lng2);
      if GoodIds(Points()) && Covered(lat1, lat2, lng1, lng2) { GoodAreFindable(Points(), lat1, lat2, lng1, lng2); }
      r := 0;
    }
  }

  // One point, and a square of two degrees around the origin that holds it: the query misses it.
  method MissThePoint() returns (index: SpatialIndex, resp: seq<(Key, int)>)
    ensures index.Valid() && index.Points() == map[[65] := Point(0.5, 0.5)]
    ensures Scan(index.Points(), -1.0, 1.0, -1.0, 1.0) == {[65]} && resp == []
  {
    hide SpatialIndex.Valid, SpatialIndex.Points, Reported, Findable, Scan, Answers;
    index := StoreOne();
    var r;
    r, resp := index.Rect(-1.0, 1.0, -1.0, 1.0);
    MiddleFindsNothing(index.Points(), -1.0, 1.0, -1.0, 1.0);
    FirstAnswer(resp, {});
    OneScanned(index.Points());
  }

  method StoreOne() returns (index: SpatialIndex)
    ensures index.Valid() && index.Points() == map[[65] := Point(0.5, 0.5)]
  {
    hide SpatialIndex.Valid, SpatialIndex.Points, OnlyFor;
    index := new SpatialIndex();
    var r := index.Set([65], 0.5, 0.5, 1);
  }

  lemma FirstAnswer(resp: seq<(Key, int)>, ids: set<Key>)
    requires Answers(resp, ids)
    ensures resp == [] || resp[0].0 in ids
  { }

  lemma OneScanned(points: map<Key, Point>)
    requires points == map[[65] := Point(0.5, 0.5)]
    ensures Scan(points, -1.0, 1.0, -1.0, 1.0) == {[65]}
  { }
}
