// Key-value records share the trie with the other command families, under a head byte.
module KeyValue {
  import opened Bits
  import opened Keys
  import opened Views
  import opened Climbing
  import opened Tries
  import opened Heads

  // A record starts with the size of its value; here it is the value.
  type Record = seq<byte>

  function RecordKey(k: Key): Key { [KV_HEAD] + k }

  // Every entry of the family leads to a record.
  ghost predicate Leads(c: map<Key, int>, records: map<int, Record>)
  {
    forall k :: k in c && k != [] && k[0] == KV_HEAD ==> c[k] >= 0 && c[k] in records
  }

  // Value and length are those of the longest stored prefix of key, the empty one included.
  ghost predicate Matched(c: map<Key, int>, records: map<int, Record>, key: Key, value: Record, len: int)
  {
    && 0 <= len <= |key| && RecordKey(key[..len]) in c && c[RecordKey(key[..len])] in records
    && value == records[c[RecordKey(key[..len])]]
    && forall j :: len < j <= |key| ==> RecordKey(key[..j]) !in c
  }

  lemma HeadPrefix(key: Key, j: int)
    requires 0 <= j <= |key|
    ensures RecordKey(key)[..j + 1] == RecordKey(key[..j])
  { }

  // The head byte shifts all prefixes by one; the shortest of them is the empty key's.
  lemma LongestRecord(c: map<Key, int>, records: map<int, Record>, key: Key, ret: int, len: int, none: int, len0: int)
    requires Leads(c, records) && none < 0 && Longest(c, RecordKey(key), |key| + 1, ret, len, none, len0)
    ensures ret < 0 <==> forall j :: 0 <= j <= |key| ==> RecordKey(key[..j]) !in c
    ensures ret >= 0 ==> ret in records && Matched(c, records, key, records[ret], len - 1)
  {
    var q := RecordKey(key);
    forall j | 0 <= j <= |key| ensures q[..j + 1] == RecordKey(key[..j]) { HeadPrefix(key, j); }
    if ret == none && len == len0 && forall j :: 1 <= j <= |q| ==> q[..j] !in c {
      forall j | 0 <= j <= |key| ensures RecordKey(key[..j]) !in c { assert q[..j + 1] !in c; }
    } else {
      assert q[..len] == RecordKey(key[..len - 1]);
      assert q[..len][0] == KV_HEAD;
      forall j | len - 1 < j <= |key| ensures RecordKey(key[..j]) !in c { assert q[..j + 1] !in c; }
    }
  }

  // etdb_database_kv_match_longest
  method MatchLongest(trie: Trie, records: map<int, Record>, key: Key, matchLen: int)
      returns (r: int, value: Record, len: int)
    requires trie.Valid() && Leads(trie.Contents(), records)
    ensures r == -1 <==> forall j :: 0 <= j <= |key| ==> RecordKey(key[..j]) !in trie.Contents()
    ensures r == -1 || r == 0
    ensures r == 0 ==> Matched(trie.Contents(), records, key, value, len)
  {
    hide Trie.TreeValid, Bushy, PathsOk, Trie.Contents, Leads, Matched, Longest;
    var pValue, n := trie.MatchLongestSearch(RecordKey(key), matchLen);
    LongestRecord(trie.Contents(), records, key, pValue, n, NO_PATH, matchLen);
    if pValue < 0 {
      return -1, [], n;
    }
    return 0, records[pValue], n - 1;
  }
}
