// Keys as byte strings, their escaped label paths, and the finite map that a
// trie stands for.
module Keys {
  import opened Bits
  import opened Rings
  import opened Slots
  import opened FreeSlots
  import opened Shape
  import opened Adding
  import opened Views

  type Key = seq<byte>

  const PERCENT: byte := 37
  const ZERO: byte := 48
  const SPACE: byte := 32

  // The escape: NUL becomes "%0", '%' becomes "%%", so that no key uses label 0.
  function Step(p: Path, b: byte): Path
  {
    if b == 0 then Snoc(Snoc(p, PERCENT), ZERO)
    else if b == PERCENT then Snoc(Snoc(p, PERCENT), PERCENT)
    else Snoc(p, b)
  }

  function Encode(k: Key): Path
  {
    if k == [] then Root else Step(Encode(k[..|k| - 1]), k[|k| - 1])
  }

  // The terminal path under which the value of k is kept.
  function KeyPath(k: Key): Path { Snoc(Encode(k), 0) }

  lemma EncodeNext(k: Key, i: int)
    requires 0 <= i < |k|
    ensures Encode(k[..i + 1]) == Step(Encode(k[..i]), k[i])
  {
    assert k[..i + 1][..i] == k[..i];
  }

  // Reading a path back: a whole key, a key with an escape begun, or neither.
  datatype Reading = Plain(key: Key) | Escaped(key: Key) | Garbled

  function Read(p: Path): Reading
  {
    match p
    case Root => Plain([])
    case Snoc(u, l) =>
      match Read(u)
      case Plain(k) => if l == PERCENT then Escaped(k) else if l == 0 then Garbled else Plain(k + [l])
      case Escaped(k) => if l == ZERO then Plain(k + [0]) else if l == PERCENT then Plain(k + [PERCENT]) else Garbled
      case Garbled => Garbled
  }

  // The escape loses nothing, and no escaped key ends inside an escape.
  lemma {:induction false} ReadEncode(k: Key)
    ensures Read(Encode(k)) == Plain(k)
  {
    if k != [] {
      ReadEncode(k[..|k| - 1]);
      assert k[..|k| - 1] + [k[|k| - 1]] == k;
    }
  }

  lemma EncodeInjective(k: Key, k': Key)
    requires Encode(k) == Encode(k')
    ensures k == k'
  {
    ReadEncode(k);
    ReadEncode(k');
  }

  lemma {:induction false} EncodeRead(p: Path)
    ensures Read(p).Plain? ==> p == Encode(Read(p).key)
    ensures Read(p).Escaped? ==> p == Snoc(Encode(Read(p).key), PERCENT)
  {
    if p.Snoc? {
      EncodeRead(p.up);
      if Read(p).Plain? {
        var k := Read(p).key;
        assert k[..|k| - 1] == Read(p.up).key;
      }
    }
  }

  // Every path of the trie is on the way to, or the end of, an escaped key.
  ghost predicate Readable(p: Path)
  {
    if IsTerm(p) then Read(p.up).Plain? && p.up != Root else !Read(p).Garbled?
  }

  ghost predicate PathsOk(t: Tree)
  {
    forall p :: p in t.at ==> Readable(p)
  }

  lemma TerminalKey(p: Path)
    requires IsTerm(p) && Readable(p)
    ensures Read(p.up).Plain? && p == KeyPath(Read(p.up).key) && Read(p.up).key != []
  {
    EncodeRead(p.up);
  }

  ghost function KeySet(t: Tree): set<Key>
  {
    set p | p in t.at && IsTerm(p) && Read(p.up).Plain? :: Read(p.up).key
  }

  lemma InKeySet(t: Tree, k: Key)
    ensures k in KeySet(t) <==> KeyPath(k) in t.at
  {
    ReadEncode(k);
    if k in KeySet(t) {
      var p :| p in t.at && IsTerm(p) && Read(p.up).Plain? && Read(p.up).key == k;
      EncodeRead(p.up);
    }
    if KeyPath(k) in t.at { assert Read(KeyPath(k).up).key == k; }
  }

  // The abstract contents: a finite map from keys to values.
  ghost function ContentsOf(nd: Nodes, t: Tree): map<Key, int>
    requires Placed(nd, t)
  {
    map k | k in KeySet(t) && KeyPath(k) in t.at :: nd.base[t.at[KeyPath(k)]]
  }

  lemma ContentsAt(nd: Nodes, t: Tree, k: Key)
    requires Placed(nd, t)
    ensures k in ContentsOf(nd, t) <==> KeyPath(k) in t.at
    ensures KeyPath(k) in t.at ==> t.at[KeyPath(k)] in t.path && ContentsOf(nd, t)[k] == nd.base[t.at[KeyPath(k)]]
  {
    InKeySet(t, k);
  }

  lemma MoreContents(nd: Nodes, t: Tree, nd': Nodes, t': Tree, p: Path, l: byte)
    requires OneMore(nd, t, nd', t', p, l)
    ensures l != 0 ==> ContentsOf(nd', t') == ContentsOf(nd, t)
    ensures l == 0 && Read(p).Plain? ==> Read(p).key !in ContentsOf(nd, t)
    ensures l == 0 && Read(p).Plain? ==> ContentsOf(nd', t') == ContentsOf(nd, t)[Read(p).key := 0]
  {
    hide Encode, Read;
    EncodeRead(p);
    forall k: Key | l != 0 || Read(p).Plain?
      ensures k in ContentsOf(nd', t') <==> (k in ContentsOf(nd, t) || (l == 0 && k == Read(p).key))
      ensures k in ContentsOf(nd, t) ==> k in ContentsOf(nd', t') && ContentsOf(nd', t')[k] == ContentsOf(nd, t)[k]
      ensures l == 0 && k == Read(p).key ==> k !in ContentsOf(nd, t) && ContentsOf(nd', t')[k] == 0
    {
      ContentsAt(nd, t, k);
      ContentsAt(nd', t', k);
      if l == 0 && Encode(k) == p { EncodeInjective(k, Read(p).key); }
    }
  }

  lemma StoreContents(nd: Nodes, t: Tree, i: int, v: int, k: Key)
    requires Placed(nd, t) && i in t.path && t.path[i] == KeyPath(k)
    ensures Placed(Nodes(nd.base[i := v], nd.check), t)
    ensures ContentsOf(Nodes(nd.base[i := v], nd.check), t) == ContentsOf(nd, t)[k := v]
    ensures k in ContentsOf(nd, t) && ContentsOf(nd, t)[k] == nd.base[i]
  {
    hide Encode, Read;
    var nd' := Nodes(nd.base[i := v], nd.check);
    ContentsAt(nd, t, k);
    forall j: Key
      ensures j in ContentsOf(nd', t) <==> j in ContentsOf(nd, t)
      ensures j in ContentsOf(nd, t) ==> ContentsOf(nd', t)[j] == if j == k then v else ContentsOf(nd, t)[j]
    {
      ContentsAt(nd, t, j);
      ContentsAt(nd', t, j);
      if Encode(j) == Encode(k) { EncodeInjective(j, k); }
    }
  }

  lemma MorePathsOk(nd: Nodes, t: Tree, nd': Nodes, t': Tree, p: Path, l: byte)
    requires OneMore(nd, t, nd', t', p, l) && PathsOk(t) && Readable(Snoc(p, l))
    ensures PathsOk(t')
  {
    hide Readable;
    forall q | q in t'.at ensures Readable(q)
    {
      assert q in t.at.Keys || q == Snoc(p, l);
    }
  }

  lemma StepReadable(p: Path, b: byte)
    requires Read(p).Plain?
    ensures Read(Step(p, b)) == Plain(Read(p).key + [b]) && !Read(Snoc(p, PERCENT)).Garbled?
    ensures Readable(Step(p, b)) && (b == 0 || b == PERCENT ==> Readable(Snoc(p, PERCENT)))
  {
  }

  lemma EncodeEmpty()
    ensures Encode([]) == Root
  {
  }

  lemma EncodeNotTerm(k: Key)
    ensures !IsTerm(Encode(k)) && (k == [] <==> Encode(k) == Root)
  {
  }

  // ------------------------------------------------------------------ lookups

  // The path reached from p along the escaped bytes of ks.
  function Extend(p: Path, ks: Key): Path
  {
    if ks == [] then p else Step(Extend(p, ks[..|ks| - 1]), ks[|ks| - 1])
  }

  lemma ExtendNext(p: Path, ks: Key, i: int)
    requires 0 <= i < |ks|
    ensures Extend(p, ks[..i + 1]) == Step(Extend(p, ks[..i]), ks[i])
  {
    assert ks[..i + 1][..i] == ks[..i];
  }

  lemma {:induction false} ExtendEncode(k: Key, ks: Key)
    ensures Encode(k + ks) == Extend(Encode(k), ks)
  {
    if ks == [] {
      assert k + ks == k;
    } else {
      ExtendEncode(k, ks[..|ks| - 1]);
      assert (k + ks)[..|k + ks| - 1] == k + ks[..|ks| - 1];
    }
  }

  ghost predicate UpClosed(t: Tree)
  {
    forall p, l :: Snoc(p, l) in t.at ==> p in t.at
  }

  lemma TreeUpClosed(nd: Nodes, inf: Infos, md: Mode, size: int, t: Tree)
    requires TreeOk(nd, inf, md, size, t)
    ensures UpClosed(t)
  {
    hide Xor, TreeOk, Family;
    TreeFacts(nd, inf, md, size, t);
    forall p, l | Snoc(p, l) in t.at ensures p in t.at
    {
      var i := t.at[Snoc(p, l)];
      NodeFacts(nd, inf, md, size, t, i);
    }
  }

  lemma StepUp(t: Tree, p: Path, b: byte)
    requires UpClosed(t) && Step(p, b) in t.at
    ensures p in t.at && (b == 0 || b == PERCENT ==> Snoc(p, PERCENT) in t.at)
  {
  }

  lemma {:induction false} ExtendUp(t: Tree, p: Path, ks: Key, i: int)
    requires UpClosed(t) && Extend(p, ks) in t.at && 0 <= i <= |ks|
    ensures Extend(p, ks[..i]) in t.at
    decreases |ks|
  {
    if i == |ks| {
      assert ks[..i] == ks;
    } else {
      StepUp(t, Extend(p, ks[..|ks| - 1]), ks[|ks| - 1]);
      ExtendUp(t, p, ks[..|ks| - 1], i);
      assert ks[..|ks| - 1][..i] == ks[..i];
    }
  }

  // In the middle of an escape there is never a value.
  lemma NoValueInEscape(t: Tree, p: Path)
    requires PathsOk(t) && Read(p).Escaped?
    ensures Snoc(p, 0) !in t.at
  {
    assert Snoc(p, 0) in t.at ==> Readable(Snoc(p, 0));
  }

  lemma NoEmptyKey(t: Tree)
    requires PathsOk(t)
    ensures Snoc(Root, 0) !in t.at
  {
    assert Snoc(Root, 0) in t.at ==> Readable(Snoc(Root, 0));
  }

  lemma PlainNotTerm(p: Path)
    requires !Read(p).Garbled?
    ensures !IsTerm(p)
  {
  }

  lemma ReadRoot()
    ensures Read(Root) == Plain([])
  {
  }

  // len is the length of the longest non-empty prefix of key, among the first i
  // bytes, that is in the map; without one, ret and len are the defaults.
  ghost predicate Longest(c: map<Key, int>, key: Key, i: int, ret: int, len: int, none: int, len0: int)
    requires 0 <= i <= |key|
  {
    || (ret == none && len == len0 && forall j :: 1 <= j <= i ==> key[..j] !in c)
    || (1 <= len <= i && key[..len] in c && ret == c[key[..len]] && forall j :: len < j <= i ==> key[..j] !in c)
  }

  lemma LongestNext(c: map<Key, int>, key: Key, i: int, ret: int, len: int, none: int, len0: int)
    requires 0 <= i < |key| && Longest(c, key, i, ret, len, none, len0)
    ensures key[..i + 1] in c ==> Longest(c, key, i + 1, c[key[..i + 1]], i + 1, none, len0)
    ensures key[..i + 1] !in c ==> Longest(c, key, i + 1, ret, len, none, len0)
  {
  }

  lemma LongestStop(c: map<Key, int>, key: Key, i: int, ret: int, len: int, none: int, len0: int)
    requires 0 <= i <= |key| && Longest(c, key, i, ret, len, none, len0)
    requires forall j :: i < j <= |key| ==> key[..j] !in c
    ensures Longest(c, key, |key|, ret, len, none, len0)
  {
  }

  // Once the way down is missing, no longer prefix is in the map.
  lemma PathEnds(nd: Nodes, t: Tree, key: Key, i: int)
    requires Placed(nd, t) && UpClosed(t) && 0 <= i < |key| && Encode(key[..i + 1]) !in t.at
    ensures forall j :: i < j <= |key| ==> key[..j] !in ContentsOf(nd, t)
  {
    hide Encode, UpClosed, ContentsOf;
    forall j | i < j <= |key| ensures key[..j] !in ContentsOf(nd, t)
    {
      ContentsAt(nd, t, key[..j]);
      assert key[..j][..i + 1] == key[..i + 1];
      if KeyPath(key[..j]) in t.at {
        Parent(t, Encode(key[..j]), 0);
        EncodeUp(t, key[..j], i + 1);
      }
    }
  }

  lemma Parent(t: Tree, p: Path, l: byte)
    requires UpClosed(t) && Snoc(p, l) in t.at
    ensures p in t.at
  {
  }

  lemma {:induction false} EncodeUp(t: Tree, k: Key, i: int)
    requires UpClosed(t) && Encode(k) in t.at && 0 <= i <= |k|
    ensures Encode(k[..i]) in t.at
    decreases |k|
  {
    if i == |k| {
      assert k[..i] == k;
    } else {
      StepUp(t, Encode(k[..|k| - 1]), k[|k| - 1]);
      EncodeUp(t, k[..|k| - 1], i);
      assert k[..|k| - 1][..i] == k[..i];
    }
  }
}
