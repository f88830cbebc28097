// What a prefix enumeration has to deliver.
module Listing {
  import opened Bits
  import opened Slots
  import opened Shape
  import opened Views
  import opened Keys
  import opened Climbing
  import opened Rings

  predicate NulFree(s: Key)
  {
    forall i :: 0 <= i < |s| ==> s[i] != 0
  }

  // s is a non-empty NUL-free suffix starting with one of heads, and k + s is in c.
  ghost predicate Suffix(c: map<Key, int>, k: Key, heads: set<byte>, s: Key)
  {
    s != [] && s[0] in heads && NulFree(s) && k + s in c
  }

  ghost predicate Listed(c: map<Key, int>, k: Key, stack: Key, heads: set<byte>, e: (Key, int))
  {
    stack <= e.0 && Suffix(c, k, heads, e.0[|stack|..]) && e.1 == c[k + e.0[|stack|..]]
  }

  // out lists every such suffix exactly once, behind the given stack of bytes, with
  // the value of its key.
  ghost predicate Enumerates(c: map<Key, int>, k: Key, stack: Key, heads: set<byte>, out: seq<(Key, int)>)
  {
    && (forall i :: 0 <= i < |out| ==> Listed(c, k, stack, heads, out[i]))
    && (forall s :: Suffix(c, k, heads, s) ==> (stack + s, c[k + s]) in out)
    && (forall i, j :: 0 <= i < j < |out| ==> out[i].0 != out[j].0)
  }

  ghost function BytesTo(n: byte): (s: set<byte>)
    ensures forall b: byte :: b in s <==> 0 < b <= n
  {
    if n == 0 then {} else BytesTo(n - 1) + {n}
  }

  ghost function NonZero(): (s: set<byte>)
    ensures forall b: byte :: b in s <==> b != 0
  {
    BytesTo(255)
  }

  lemma EnumeratesNone(c: map<Key, int>, k: Key, stack: Key, heads: set<byte>)
    requires forall s :: !Suffix(c, k, heads, s)
    ensures Enumerates(c, k, stack, heads, [])
  {
  }

  lemma EnumeratesUnion(c: map<Key, int>, k: Key, stack: Key, h1: set<byte>, h2: set<byte>, o1: seq<(Key, int)>,
      o2: seq<(Key, int)>)
    requires Enumerates(c, k, stack, h1, o1) && Enumerates(c, k, stack, h2, o2) && h1 !! h2
    ensures Enumerates(c, k, stack, h1 + h2, o1 + o2)
  {
    var o := o1 + o2;
    forall i | 0 <= i < |o| ensures Listed(c, k, stack, h1 + h2, o[i])
    {
      if i < |o1| { assert Listed(c, k, stack, h1, o1[i]); } else { assert Listed(c, k, stack, h2, o2[i - |o1|]); }
    }
    forall s | Suffix(c, k, h1 + h2, s) ensures (stack + s, c[k + s]) in o
    {
      if s[0] in h1 { assert Suffix(c, k, h1, s); } else { assert Suffix(c, k, h2, s); }
    }
    forall i, j | 0 <= i < j < |o| ensures o[i].0 != o[j].0
    {
      if i < |o1| <= j {
        assert Listed(c, k, stack, h1, o1[i]) && Listed(c, k, stack, h2, o2[j - |o1|]);
        assert o1[i].0[|stack|..][0] in h1 && o2[j - |o1|].0[|stack|..][0] in h2;
      }
    }
  }

  // The keys that go on with byte b: the key ending there, and those below it.
  lemma DeeperListed(c: map<Key, int>, k: Key, stack: Key, b: byte, e: (Key, int))
    requires b != 0 && Listed(c, k + [b], stack + [b], NonZero(), e)
    ensures Listed(c, k, stack, {b}, e) && |e.0| > |stack| + 1
  {
    hide NonZero;
    var s := e.0[|stack + [b]|..];
    assert e.0[|stack|..] == [b] + s;
    assert k + ([b] + s) == k + [b] + s;
  }

  lemma DeeperSuffix(c: map<Key, int>, k: Key, b: byte, s: Key)
    requires Suffix(c, k, {b}, s) && b != 0
    ensures s == [b] + s[1..] && k + s == k + [b] + s[1..]
    ensures s[1..] != [] ==> Suffix(c, k + [b], NonZero(), s[1..])
    ensures s[1..] == [] ==> s == [b] && k + [b] in c && k + s == k + [b]
  {
    var r := s[1..];
    assert s == [b] + r;
    assert k + s == k + [b] + r;
    assert NulFree(r) by { forall i | 0 <= i < |r| ensures r[i] != 0 { assert s[i + 1] != 0; } }
  }

  lemma EnumeratesByte(c: map<Key, int>, k: Key, stack: Key, b: byte, out: seq<(Key, int)>)
    requires b != 0 && Enumerates(c, k + [b], stack + [b], NonZero(), out)
    ensures Enumerates(c, k, stack, {b}, (if k + [b] in c then [(stack + [b], c[k + [b]])] else []) + out)
  {
    hide NonZero, Listed, NulFree;
    var own := if k + [b] in c then [(stack + [b], c[k + [b]])] else [];
    var o := own + out;
    forall i | 0 <= i < |o|
      ensures Listed(c, k, stack, {b}, o[i]) && (i >= |own| ==> |o[i].0| > |stack| + 1)
    {
      if i < |own| { OwnListed(c, k, stack, b); } else { DeeperListed(c, k, stack, b, out[i - |own|]); }
    }
    forall s | Suffix(c, k, {b}, s) ensures (stack + s, c[k + s]) in o
    {
      DeeperSuffix(c, k, b, s);
      if s[1..] == [] {
        assert o[0] == (stack + s, c[k + s]);
      } else {
        assert stack + s == stack + [b] + s[1..];
        assert (stack + [b] + s[1..], c[k + [b] + s[1..]]) in out;
      }
    }
    forall i, j | 0 <= i < j < |o| ensures o[i].0 != o[j].0
    {
      if i >= |own| { assert o[i] == out[i - |own|] && o[j] == out[j - |own|]; }
      else { assert |o[j].0| > |stack| + 1; }
    }
  }

  lemma OwnListed(c: map<Key, int>, k: Key, stack: Key, b: byte)
    requires b != 0 && k + [b] in c
    ensures Listed(c, k, stack, {b}, (stack + [b], c[k + [b]]))
  {
    assert (stack + [b])[|stack|..] == [b];
  }

  lemma EnumeratesAll(c: map<Key, int>, k: Key, stack: Key, heads: set<byte>, out: seq<(Key, int)>)
    requires Enumerates(c, k, stack, heads, out) && heads <= NonZero()
    requires forall s :: Suffix(c, k, NonZero(), s) ==> s[0] in heads
    ensures Enumerates(c, k, stack, NonZero(), out)
  {
    forall i | 0 <= i < |out| ensures Listed(c, k, stack, NonZero(), out[i])
    {
      assert Listed(c, k, stack, heads, out[i]);
    }
    forall s | Suffix(c, k, NonZero(), s) ensures (stack + s, c[k + s]) in out
    {
      assert Suffix(c, k, heads, s);
    }
  }

  // ----------------------------------------------------------- and how the tree shows it

  lemma SuffixPath(nd: Nodes, t: Tree, k: Key, s: Key)
    requires Placed(nd, t) && UpClosed(t) && s != [] && k + s in ContentsOf(nd, t)
    ensures Step(Encode(k), s[0]) in t.at
    ensures s[0] != 0 ==> Snoc(Encode(k), s[0]) in t.at
  {
    hide ContentsOf, Encode, UpClosed;
    ContentsAt(nd, t, k + s);
    Parent(t, Encode(k + s), 0);
    EncodeUp(t, k + s, |k| + 1);
    assert (k + s)[..|k| + 1] == k + [s[0]];
    EncodeNext(k + [s[0]], |k|);
    assert (k + [s[0]])[..|k|] == k && (k + [s[0]])[..|k| + 1] == k + [s[0]] && (k + [s[0]])[|k|] == s[0];
    StepUp(t, Encode(k), s[0]);
  }

  lemma NoPathNoSuffix(nd: Nodes, t: Tree, k: Key, b: byte, stack: Key)
    requires Placed(nd, t) && UpClosed(t) && Step(Encode(k), b) !in t.at
    ensures Enumerates(ContentsOf(nd, t), k, stack, {b}, [])
  {
    hide ContentsOf, Encode, UpClosed, Step;
    forall s ensures !Suffix(ContentsOf(nd, t), k, {b}, s)
    {
      if Suffix(ContentsOf(nd, t), k, {b}, s) { SuffixPath(nd, t, k, s); }
    }
    EnumeratesNone(ContentsOf(nd, t), k, stack, {b});
  }

  lemma NoPathAtAll(nd: Nodes, t: Tree, k: Key, stack: Key)
    requires Placed(nd, t) && UpClosed(t) && Encode(k) !in t.at
    ensures Enumerates(ContentsOf(nd, t), k, stack, NonZero(), [])
  {
    hide ContentsOf, Encode, UpClosed, Step;
    forall s ensures !Suffix(ContentsOf(nd, t), k, NonZero(), s)
    {
      if Suffix(ContentsOf(nd, t), k, NonZero(), s) {
        SuffixPath(nd, t, k, s);
        StepUp(t, Encode(k), s[0]);
      }
    }
    EnumeratesNone(ContentsOf(nd, t), k, stack, NonZero());
  }

  lemma StepDeeper(t: Tree, p: Path, b: byte)
    ensures Depth(Step(p, b)) > Depth(p)
    ensures Step(p, b) in t.at ==> Depth(Step(p, b)) <= MaxDepth(t.at.Keys)
  {
    if Step(p, b) in t.at { assert Step(p, b) in t.at.Keys; }
  }

  ghost function HeadsBelow(ks: seq<byte>, j: int): set<byte>
    requires 0 <= j <= |ks|
  {
    set i | 0 <= i < j && ks[i] != 0 :: ks[i]
  }

  lemma HeadsStep(ks: seq<byte>, j: int)
    requires 0 <= j < |ks| && Distinct(ks)
    ensures HeadsBelow(ks, j + 1) == HeadsBelow(ks, j) + (if ks[j] == 0 then {} else {ks[j]})
    ensures ks[j] !in HeadsBelow(ks, j) && HeadsBelow(ks, j) <= NonZero()
  {
    forall x | x in HeadsBelow(ks, j + 1) ensures x in HeadsBelow(ks, j) || (x == ks[j] && x != 0)
    {
      var i :| 0 <= i < j + 1 && ks[i] != 0 && ks[i] == x;
      if i < j { assert x in HeadsBelow(ks, j); }
    }
  }

  // Every suffix starts with a byte whose first label is in the chain.
  lemma AllHeads(nd: Nodes, t: Tree, k: Key, ks: seq<byte>)
    requires Placed(nd, t) && UpClosed(t)
    requires forall l: byte :: Snoc(Encode(k), l) in t.at ==> l in ks
    ensures forall s :: Suffix(ContentsOf(nd, t), k, NonZero(), s) ==> s[0] in HeadsBelow(ks, |ks|)
    ensures HeadsBelow(ks, |ks|) <= NonZero()
  {
    hide ContentsOf, Encode, UpClosed;
    forall s | Suffix(ContentsOf(nd, t), k, NonZero(), s) ensures s[0] in HeadsBelow(ks, |ks|)
    {
      SuffixPath(nd, t, k, s);
      assert ks[At(ks, s[0])] == s[0];
    }
  }
}
