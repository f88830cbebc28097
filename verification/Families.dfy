// Key-value records and points in one slot: they share the trie, yet each family is a map of its
// own that the commands of the other never change.
module Families {
  import opened Bits
  import opened Keys
  import opened Views
  import opened Climbing
  import opened Tries
  import opened Heads
  import opened KeyValue
  import opened Geohash
  import opened Spatial

  // No record's key is an index entry.
  lemma KeysApart(k: Key, id: Key)
    ensures !KeyOf(RecordKey(k), id) && RecordKey(k) != IdKey(id)
    ensures forall code :: RecordKey(k) != CodeKey(code, id)
  {
    IdKeyOf(id);
    assert RecordKey(k)[0] == KV_HEAD;
    forall code: seq<byte> ensures CodeKey(code, id)[0] == HEAD2 { }
  }

  lemma RecordKeyOf(k: Key)
    ensures RecordKey(k) != [] && RecordKey(k)[0] == KV_HEAD && RecordKey(k)[1..] == k && KnownKey(RecordKey(k))
  { }

  // Entries of the family lead to records, no two of them to the same.
  ghost predicate KvOk(c: map<Key, int>, records: map<int, Record>)
  {
    && Leads(c, records)
    && forall i, j :: RecordKey(i) in c && RecordKey(j) in c && c[RecordKey(i)] == c[RecordKey(j)] ==> i == j
  }

  ghost function Stored(c: map<Key, int>): (ks: set<Key>)
    ensures forall k :: k in ks <==> RecordKey(k) in c
  {
    var ks := set k | k in c && k != [] && k[0] == KV_HEAD :: k[1..];
    forall k ensures k in ks <==> RecordKey(k) in c
    {
      RecordKeyOf(k);
      forall x | x in c && x != [] && x[0] == KV_HEAD && x[1..] == k ensures x == RecordKey(k) { }
      if RecordKey(k) in c { assert RecordKey(k)[1..] in ks; }
    }
    ks
  }

  lemma LeadsAt(c: map<Key, int>, records: map<int, Record>, k: Key)
    requires Leads(c, records) && RecordKey(k) in c
    ensures c[RecordKey(k)] >= 0 && c[RecordKey(k)] in records
  {
    RecordKeyOf(k);
  }

  // The records of a slot, by their keys.
  ghost function RecordsOf(c: map<Key, int>, records: map<int, Record>): (m: map<Key, Record>)
    requires Leads(c, records)
    ensures forall k :: k in m <==> RecordKey(k) in c
    ensures forall k :: k in m ==> c[RecordKey(k)] in records && m[k] == records[c[RecordKey(k)]]
  {
    map k | k in Stored(c) :: LeadsAt(c, records, k); records[c[RecordKey(k)]]
  }

  // Index entries come and go: the records stay.
  lemma PointsOnly(c: map<Key, int>, c': map<Key, int>, records: map<int, Record>, id: Key)
    requires KvOk(c, records) && OnlyFor(c, c', id)
    ensures KvOk(c', records) && RecordsOf(c', records) == RecordsOf(c, records)
  {
    hide RecordKey, KeyOf;
    forall k
      ensures RecordKey(k) in c <==> RecordKey(k) in c'
      ensures RecordKey(k) in c ==> c[RecordKey(k)] == c'[RecordKey(k)]
    {
      KeysApart(k, id);
    }
    forall x | x in c' && x != [] && x[0] == KV_HEAD ensures c'[x] >= 0 && c'[x] in records
    {
      RecordKeyAs(x);
      LeadsAt(c, records, x[1..]);
    }
  }

  lemma RecordKeyAs(x: Key)
    requires x != [] && x[0] == KV_HEAD
    ensures x == RecordKey(x[1..])
  { }

  // Only the entry of one record differs.
  ghost predicate OnlyRecord(c: map<Key, int>, c': map<Key, int>, key: Key)
  {
    forall k :: k != RecordKey(key) ==> (k in c <==> k in c') && (k in c ==> c[k] == c'[k])
  }

  lemma IdStays(c: map<Key, int>, c': map<Key, int>, heads: map<int, Head>, key: Key, id: Key)
    requires IdOk(c, heads, id) && OnlyRecord(c, c', key)
    ensures IdOk(c', heads, id) && (IdKey(id) in c <==> IdKey(id) in c')
    ensures IdKey(id) in c ==> c'[IdKey(id)] == c[IdKey(id)]
  {
    hide RecordKey, IdKey, CodeKey, KeyOf, HeadOk;
    KeysApart(key, id);
  }

  lemma OwnedStays(c: map<Key, int>, c': map<Key, int>, key: Key, p: int)
    requires OnlyRecord(c, c', key) && Owned(c, p)
    ensures Owned(c', p)
  {
    hide RecordKey, IdKey;
    var id :| IdKey(id) in c && c[IdKey(id)] == p;
    KeysApart(key, id);
  }

  // Records come and go: the points stay.
  lemma RecordsOnly(c: map<Key, int>, c': map<Key, int>, heads: map<int, Head>, key: Key)
    requires InStep(c, heads) && OnlyRecord(c, c', key) && (RecordKey(key) in c' ==> c'[RecordKey(key)] >= 0)
    ensures InStep(c', heads) && PointsOf(c', heads) == PointsOf(c, heads)
  {
    hide RecordKey, IdKey, IdOk, Owned;
    RecordKeyOf(key);
    forall id
      ensures IdOk(c', heads, id) && (IdKey(id) in c <==> IdKey(id) in c')
      ensures IdKey(id) in c ==> c'[IdKey(id)] == c[IdKey(id)]
    {
      InStepAt(c, heads, id);
      IdStays(c, c', heads, key, id);
    }
    assert Tame(c');
    forall p | p in heads ensures Owned(c', p) { OwnedStays(c, c', key, p); }
  }

  lemma RecordGiven(c: map<Key, int>, records: map<int, Record>, key: Key, value: Record, p: int)
    requires KvOk(c, records) && p >= 0 && p !in records
    ensures var c', records' := c[RecordKey(key) := p], records[p := value];
            KvOk(c', records') && RecordsOf(c', records') == RecordsOf(c, records)[key := value]
  {
    hide RecordKey, KvOk, Leads, RecordsOf;
    GivenOk(c, records, key, value, p);
    var c', records' := c[RecordKey(key) := p], records[p := value];
    KvLeads(c, records);
    KvLeads(c', records');
    OneKey(key);
    var m, m' := RecordsOf(c, records), RecordsOf(c', records');
    forall k ensures k in m' <==> k in m || k == key { }
    forall k | k in m' ensures m'[k] == m[key := value][k] { }
  }

  lemma KvLeads(c: map<Key, int>, records: map<int, Record>)
    requires KvOk(c, records)
    ensures Leads(c, records)
  { }

  lemma GivenOk(c: map<Key, int>, records: map<int, Record>, key: Key, value: Record, p: int)
    requires KvOk(c, records) && p >= 0 && p !in records
    ensures KvOk(c[RecordKey(key) := p], records[p := value])
  {
    hide RecordKey;
    var c', records' := c[RecordKey(key) := p], records[p := value];
    assert Leads(c', records');
    OneKey(key);
    forall k | RecordKey(k) in c ensures c[RecordKey(k)] in records && c[RecordKey(k)] != p { LeadsAt(c, records, k); }
  }

  lemma OneKey(key: Key)
    ensures forall k :: RecordKey(k) == RecordKey(key) ==> k == key
  {
    forall k | RecordKey(k) == RecordKey(key) ensures k == key
    {
      RecordKeyOf(k);
      RecordKeyOf(key);
    }
  }

  lemma RecordTaken(c: map<Key, int>, records: map<int, Record>, key: Key)
    requires KvOk(c, records) && RecordKey(key) in c
    ensures var c', records' := c - {RecordKey(key)}, records - {c[RecordKey(key)]};
            KvOk(c', records') && RecordsOf(c', records') == RecordsOf(c, records) - {key}
  {
    hide RecordKey, KvOk, Leads, RecordsOf;
    TakenOk(c, records, key);
    var c', records' := c - {RecordKey(key)}, records - {c[RecordKey(key)]};
    KvLeads(c, records);
    KvLeads(c', records');
    OneKey(key);
    var m, m' := RecordsOf(c, records), RecordsOf(c', records');
    forall k ensures k in m' <==> k in m && k != key { }
    forall k | k in m' ensures m'[k] == m[k] { }
  }

  lemma TakenOk(c: map<Key, int>, records: map<int, Record>, key: Key)
    requires KvOk(c, records) && RecordKey(key) in c
    ensures KvOk(c - {RecordKey(key)}, records - {c[RecordKey(key)]})
  {
    hide RecordKey;
    var c', records' := c - {RecordKey(key)}, records - {c[RecordKey(key)]};
    forall x | x in c' && x != [] && x[0] == KV_HEAD ensures c'[x] >= 0 && c'[x] in records'
    {
      RecordKeyAs(x);
      assert RecordKey(x[1..]) in c;
    }
  }

  // A slot with both families. Addresses are what the allocator hands out if a record is needed.
  class Slot {
    const index: SpatialIndex
    var records: map<int, Record>

    ghost predicate Valid()
      reads this, index, index.trie
    {
      index.Valid() && KvOk(index.trie.Contents(), records)
    }

    ghost function Records(): map<Key, Record>
      reads this, index, index.trie
      requires Valid()
    {
      RecordsOf(index.trie.Contents(), records)
    }

    ghost function Points(): map<Key, Point>
      reads this, index, index.trie
      requires Valid()
    {
      index.Points()
    }

    constructor ()
      ensures Valid() && fresh(index) && fresh(index.trie) && Records() == map[] && Points() == map[]
    {
      hide Trie.TreeValid, Bushy, PathsOk, Trie.Contents, InStep, PointsOf, Valid, Records, Points;
      index := new SpatialIndex();
      records := map[];
      new;
      NoRecords();
    }

    lemma NoRecords()
      requires index.Valid() && index.trie.Contents() == map[] && records == map[]
      ensures Valid() && Records() == map[] && Points() == index.Points()
    {
      hide Trie.TreeValid, Bushy, PathsOk, Trie.Contents, InStep, PointsOf;
      assert KvOk(map[], map[]);
    }

    lemma Parts()
      requires Valid()
      ensures index.trie.Valid() && InStep(index.trie.Contents(), index.heads) && Tame(index.trie.Contents())
      ensures KvOk(index.trie.Contents(), records) && Leads(index.trie.Contents(), records)
      ensures Points() == PointsOf(index.trie.Contents(), index.heads)
      ensures Records() == RecordsOf(index.trie.Contents(), records)
    {
      hide InStep, KvOk, Tame, Trie.TreeValid, Bushy, PathsOk, Trie.Contents, PointsOf, RecordsOf;
      InStepAt(index.trie.Contents(), index.heads, []);
      KvLeads(index.trie.Contents(), records);
    }

    lemma Whole()
      requires index.trie.Valid() && InStep(index.trie.Contents(), index.heads)
      requires KvOk(index.trie.Contents(), records)
      ensures Valid() && Points() == PointsOf(index.trie.Contents(), index.heads)
      ensures Leads(index.trie.Contents(), records) && Records() == RecordsOf(index.trie.Contents(), records)
    {
      hide InStep, Trie.TreeValid, Bushy, PathsOk, Trie.Contents, PointsOf, RecordsOf;
    }

    // etdb_database_kv_set; a record that was stored under the key stays allocated.
    method KvSet(key: Key, value: Record, address: int) returns (r: int)
      requires Valid() && address > 0 && address !in records
      modifies this, index.trie
      ensures Valid() && r == 0 && Records() == old(Records())[key := value] && Points() == old(Points())
      ensures records == old(records)[address := value]
    {
      hide Trie.TreeValid, Bushy, PathsOk, Trie.Contents, InStep, PointsOf, RecordsOf, RecordKey, KvOk, Leads,
           Tame, Valid, Records, Points;
      Parts();
      ghost var c := index.trie.Contents();
      RecordKeyOf(key);
      RecordGiven(c, records, key, value, address);
      RecordsOnly(c, c[RecordKey(key) := address], index.heads, key);
      LeadsBefore(c, key);
      records := records[address := value];
      var u := index.trie.Update(RecordKey(key), address);
      assert u >= 0; // the roll-back never runs
      Whole();
      return 0;
    }

    lemma LeadsBefore(c: map<Key, int>, key: Key)
      requires Leads(c, records)
      ensures RecordKey(key) in c ==> c[RecordKey(key)] >= 0 && c[RecordKey(key)] in records
    {
      if RecordKey(key) in c { LeadsAt(c, records, key); }
    }

    // etdb_database_kv_get
    method KvGet(key: Key) returns (r: int, value: Record)
      requires Valid()
      ensures r == if key in Records() then 0 else -1
      ensures r == 0 ==> value == Records()[key]
    {
      hide Trie.TreeValid, Bushy, PathsOk, Trie.Contents, InStep, PointsOf, RecordsOf, RecordKey, KvOk, Leads,
           Tame, Valid, Records, Points;
      Parts();
      LeadsBefore(index.trie.Contents(), key);
      var p := index.trie.ExactMatchSearch(RecordKey(key));
      if p < 0 {
        return -1, [];
      }
      return 0, records[p];
    }

    // etdb_database_kv_del
    method KvDel(key: Key) returns (r: int)
      requires Valid()
      modifies this, index.trie
      ensures Valid() && r == (if key in old(Records()) then 0 else -1)
      ensures Records() == old(Records()) - {key} && Points() == old(Points())
    {
      hide Trie.TreeValid, Bushy, PathsOk, Trie.Contents, InStep, PointsOf, RecordsOf, RecordKey, KvOk, Leads,
           Harms, Tame, Valid, Records, Points;
      Parts();
      ghost var c := index.trie.Contents();
      LeadsBefore(c, key);
      NeverHarms(c, RecordKey(key));
      if RecordKey(key) in c {
        RecordTaken(c, records, key);
        RecordsOnly(c, c - {RecordKey(key)}, index.heads, key);
      }
      var p := index.trie.Erase(RecordKey(key));
      if p < 0 {
        Whole();
        return -1;
      }
      records := records - {p};
      Whole();
      return 0;
    }

    // etdb_database_kv_match_longest
    method KvMatchLongest(key: Key, matchLen: int) returns (r: int, value: Record, len: int)
      requires Valid()
      ensures r == if exists j :: 0 <= j <= |key| && key[..j] in Records() then 0 else -1
      ensures r == 0 ==> 0 <= len <= |key| && key[..len] in Records() && value == Records()[key[..len]]
      ensures r == 0 ==> forall j :: len < j <= |key| ==> key[..j] !in Records()
    {
      hide Trie.TreeValid, Bushy, PathsOk, Trie.Contents, InStep, PointsOf, RecordsOf, RecordKey, KvOk, Leads,
           Tame, Valid, Records, Points;
      Parts();
      r, value, len := MatchLongest(index.trie, records, key, matchLen);
    }

    method SpSet(id: Key, lat: real, lng: real, address: int) returns (r: int)
      requires Valid() && address > 0 && address !in index.heads
      modifies index, index.trie
      ensures Valid() && r == if OnEarth(lat, lng) then 0 else -1
      ensures Points() == if OnEarth(lat, lng) then old(Points())[id := Point(lat, lng)] else old(Points())
      ensures Records() == old(Records())
    {
      hide Trie.TreeValid, Bushy, PathsOk, Trie.Contents, InStep, PointsOf, RecordsOf, KvOk, Leads, Tame, OnlyFor;
      Parts();
      ghost var c := index.trie.Contents();
      r := index.Set(id, lat, lng, address);
      PointsOnly(c, index.trie.Contents(), records, id);
    }

    method SpDel(id: Key) returns (r: int)
      requires Valid()
      modifies index, index.trie
      ensures Valid() && r == if id in old(Points()) then 0 else -1
      ensures Points() == old(Points()) - {id} && Records() == old(Records())
    {
      hide Trie.TreeValid, Bushy, PathsOk, Trie.Contents, InStep, PointsOf, RecordsOf, KvOk, Leads, Tame, OnlyFor;
      Parts();
      ghost var c := index.trie.Contents();
      r := index.Del(id);
      PointsOnly(c, index.trie.Contents(), records, id);
    }
  }
}
