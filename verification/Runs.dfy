// Whole runs of the trie against a finite map, and the one kind of erase that
// breaks it.
module Runs {
  import opened Bits
  import opened Keys
  import opened Views
  import opened Climbing
  import opened Tries

  datatype Op = Put(key: Key, value: int) | Drop(key: Key) | Look(key: Key)

  function After(c: map<Key, int>, op: Op): map<Key, int>
  {
    match op
    case Put(k, v) => if k == [] then c else c[k := v]
    case Drop(k) => AfterErase(c, k)
    case Look(_) => c
  }

  function Answer(c: map<Key, int>, op: Op): int
  {
    match op
    case Put(k, v) => if k == [] then -1 else if k in c then c[k] else 0
    case Drop(k) => ErasedValue(c, k)
    case Look(k) => if k in c && c[k] != NO_PATH then c[k] else NO_VALUE
  }

  function AfterAll(c: map<Key, int>, ops: seq<Op>): map<Key, int>
  {
    if ops == [] then c else After(AfterAll(c, ops[..|ops| - 1]), ops[|ops| - 1])
  }

  // No erase of the run empties the last link under some label while the root has
  // links under all of them.
  ghost predicate Harmless(ops: seq<Op>)
  {
    forall i :: 0 <= i < |ops| && ops[i].Drop? ==> !Harms(AfterAll(map[], ops[..i]), ops[i].key)
  }

  method Perform(t: Trie, op: Op) returns (r: int)
    requires t.Valid() && (op.Drop? ==> !Harms(t.Contents(), op.key))
    modifies t
    ensures t.Valid() && t.Contents() == After(old(t.Contents()), op) && r == Answer(old(t.Contents()), op)
  {
    hide Harms, Trie.TreeValid, Bushy, PathsOk, ContentsOf;
    match op {
      case Put(k, v) => r := t.Update(k, v);
      case Drop(k) => r := t.Erase(k);
      case Look(k) => r := t.ExactMatchSearch(k);
    }
  }

  // Any harmless run leaves the trie standing for the map the run describes, and
  // every call of it answers as the map would.
  method Replay(ops: seq<Op>) returns (t: Trie, answers: seq<int>)
    requires Harmless(ops)
    ensures t.Valid() && t.Contents() == AfterAll(map[], ops)
    ensures |answers| == |ops|
    ensures forall i :: 0 <= i < |ops| ==> answers[i] == Answer(AfterAll(map[], ops[..i]), ops[i])
  {
    hide Harms, Trie.TreeValid, Bushy, PathsOk, ContentsOf, Answer, After;
    t := new Trie();
    answers := [];
    assert ops[..0] == [];
    for i := 0 to |ops|
      invariant t.Valid() && t.Contents() == AfterAll(map[], ops[..i]) && fresh(t)
      invariant |answers| == i && forall j :: 0 <= j < i ==> answers[j] == Answer(AfterAll(map[], ops[..j]), ops[j])
    {
      assert ops[..i + 1][..i] == ops[..i];
      var r := Perform(t, ops[i]);
      answers := answers + [r];
    }
    assert ops[..|ops|] == ops;
  }

  ghost function Singles(n: int): map<Key, int>
    requires 0 <= n <= 255
  {
    if n == 0 then map[] else Singles(n - 1)[[n as byte] := n]
  }

  lemma {:induction false} SinglesHold(n: int)
    requires 0 <= n <= 255
    ensures forall k :: k in Singles(n) <==> |k| == 1 && 1 <= k[0] <= n
    ensures forall k :: k in Singles(n) ==> Singles(n)[k] == k[0]
  {
    if n > 0 {
      SinglesHold(n - 1);
      forall k | |k| == 1 && 1 <= k[0] <= n ensures k in Singles(n)
      {
        if k[0] == n { assert k == [n as byte]; }
      }
    }
  }

  // With all 255 one-byte keys present, erasing any of them breaks the trie.
  lemma FullHouse(b: byte)
    requires b != 0
    ensures Harms(Singles(255), [b])
  {
    SinglesHold(255);
    var c := Singles(255);
    forall l: byte | l != 0 ensures Starts(c, l)
    {
      assert [l] in c && FirstLabel([l]) == l;
    }
    forall k | k in c && k != [] && FirstLabel(k) == FirstLabel([b]) ensures k == [b]
    {
      assert k == [k[0]];
    }
  }

  // The same as a run: 255 updates, one erase, and the trie is no trie any more.
  method LoseTheRoot(b: byte) returns (t: Trie)
    requires b != 0
    ensures !t.Valid()
  {
    hide Harms, Trie.TreeValid, Bushy, PathsOk, ContentsOf;
    t := new Trie();
    for n := 1 to 256
      invariant t.Valid() && t.Contents() == Singles(n - 1) && fresh(t)
    {
      var k: byte := n;
      var r := t.Update([k], n);
    }
    FullHouse(b);
    var r := t.Erase([b]);
  }
}
