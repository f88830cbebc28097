// A hierarchical bitmap: each bit of an upper level says whether a group of the level below
// has any bit left. A word is its bits, least significant first.
module Bitmaps {
  // Bits of a group.
  const NBITS := 64

  type Word = seq<bool>

  function Ones(n: nat): Word { seq(NBITS, k => k < n) }

  predicate IsWord(g: Word) { |g| == NBITS }

  // g != 0
  predicate Some(g: Word) { true in g }

  // g ^ (1 << k)
  function Flip(g: Word, k: nat): Word
    requires k < |g|
  {
    g[k := !g[k]]
  }

  // k >> LG_BITMAP_GROUP_NBITS and k & BITMAP_GROUP_NBITS_MASK
  function GroupNo(k: nat): nat { k / NBITS }

  function BitNo(k: nat): (i: nat)
    ensures i < NBITS
  {
    k % NBITS
  }

  // bits2groups
  function Groups(n: nat): nat { n / NBITS + if n % NBITS != 0 then 1 else 0 }

  // How many bits level i has.
  function Bits(nbits: nat, i: nat): nat { if i == 0 then nbits else Groups(Bits(nbits, i - 1)) }

  // Where level i starts.
  function Offset(nbits: nat, i: nat): nat
  {
    if i == 0 then 0 else Offset(nbits, i - 1) + Bits(nbits, i)
  }

  datatype Info = Info(nbits: nat, nlevels: nat, offsets: seq<nat>)

  // The top level is the first one with a single group.
  ghost predicate InfoOk(b: Info)
  {
    && b.nbits > 0 && b.nlevels > 0 && |b.offsets| == b.nlevels + 1
    && (forall i :: 0 <= i <= b.nlevels ==> b.offsets[i] == Offset(b.nbits, i))
    && Bits(b.nbits, b.nlevels) == 1
    && (forall i :: 1 <= i < b.nlevels ==> Bits(b.nbits, i) > 1)
  }

  lemma GroupsShrink(n: nat)
    ensures n > 1 ==> 0 < Groups(n) < n
    ensures n > 0 ==> Groups(n) > 0
    ensures n <= NBITS * Groups(n) < n + NBITS
    ensures forall b: nat :: b < n ==> GroupNo(b) < Groups(n)
  { }

  // bitmap_info_init
  method InfoInit(nbits: nat) returns (b: Info)
    requires nbits > 0
    ensures InfoOk(b) && b.nbits == nbits
  {
    hide Groups, Bits, Offset;
    LevelNext(nbits, 0);
    var offsets := [0];
    var groupCount := Groups(nbits);
    GroupsShrink(nbits);
    var i := 1;
    while groupCount > 1
      invariant i >= 1 && |offsets| == i && groupCount == Bits(nbits, i) > 0
      invariant forall j :: 0 <= j < i ==> offsets[j] == Offset(nbits, j)
      invariant forall j :: 1 <= j < i ==> Bits(nbits, j) > 1
      decreases groupCount
    {
      LevelNext(nbits, i - 1);
      LevelNext(nbits, i);
      offsets := offsets + [offsets[i - 1] + groupCount];
      GroupsShrink(groupCount);
      groupCount := Groups(groupCount);
      i := i + 1;
    }
    LevelNext(nbits, i - 1);
    offsets := offsets + [offsets[i - 1] + groupCount];
    b := Info(nbits, i, offsets);
  }

  lemma LevelNext(nbits: nat, i: nat)
    ensures Bits(nbits, 0) == nbits && Offset(nbits, 0) == 0
    ensures Bits(nbits, i + 1) == Groups(Bits(nbits, i))
    ensures Offset(nbits, i + 1) == Offset(nbits, i) + Bits(nbits, i + 1)
  { }

  lemma {:induction false} LevelsApart(nbits: nat, i: nat, j: nat)
    requires i < j
    ensures Offset(nbits, i) + Bits(nbits, i + 1) <= Offset(nbits, j)
  {
    hide Groups;
    if i + 1 < j { LevelsApart(nbits, i, j - 1); }
  }

  // Group g of level i.
  ghost function Group(b: Info, words: seq<Word>, i: nat, g: nat): Word
  {
    var p := Offset(b.nbits, i) + g;
    if p < |words| then words[p] else []
  }

  // Bit k of level i.
  ghost predicate Bit(b: Info, words: seq<Word>, i: nat, k: nat)
  {
    var g := Group(b, words, i, GroupNo(k));
    BitNo(k) < |g| && g[BitNo(k)]
  }

  // All words are there, and the bits beyond the end of a level are 0.
  ghost predicate Shaped(b: Info, words: seq<Word>)
  {
    && |words| == Offset(b.nbits, b.nlevels)
    && (forall p :: 0 <= p < |words| ==> IsWord(words[p]))
    && (forall i: nat, k: nat :: i < b.nlevels && k >= Bits(b.nbits, i) && GroupNo(k) < Bits(b.nbits, i + 1) ==>
         !Bit(b, words, i, k))
  }

  // Bit k of level i says whether there is a bit in group k of the level below.
  ghost predicate Agrees(b: Info, words: seq<Word>, i: nat, k: nat)
    requires i > 0
  {
    Bit(b, words, i, k) == Some(Group(b, words, i - 1, k))
  }

  // All upper levels do, except for one bit perhaps.
  ghost predicate Summed(b: Info, words: seq<Word>, ei: nat, ek: nat)
  {
    forall i: nat, k: nat :: 1 <= i < b.nlevels && k < Bits(b.nbits, i) && !(i == ei && k == ek) ==>
        Agrees(b, words, i, k)
  }

  ghost predicate Valid(b: Info, words: seq<Word>)
  {
    InfoOk(b) && Shaped(b, words) && Summed(b, words, 0, 0)
  }

  // The logical bits that are set; they are stored inverted.
  ghost predicate IsSet(b: Info, words: seq<Word>, k: nat)
  {
    !Bit(b, words, 0, k)
  }

  // ------------------------------------------------------------------------ one word flips

  lemma PlaceInside(b: Info, words: seq<Word>, i: nat, g: nat)
    requires InfoOk(b) && Shaped(b, words) && i < b.nlevels && g < Bits(b.nbits, i + 1)
    ensures Offset(b.nbits, i) + g < |words| && b.offsets[i] == Offset(b.nbits, i)
    ensures IsWord(words[Offset(b.nbits, i) + g])
    ensures Group(b, words, i, g) == words[Offset(b.nbits, i) + g]
  {
    hide Groups;
    LevelsApart(b.nbits, i, b.nlevels);
  }

  // Changing one word changes the groups of no other place.
  lemma OtherGroup(b: Info, words: seq<Word>, w: Word, i: nat, g: nat, j: nat, h: nat)
    requires InfoOk(b) && Shaped(b, words) && i < b.nlevels && g < Bits(b.nbits, i + 1)
    requires j < b.nlevels && h < Bits(b.nbits, j + 1)
    ensures Offset(b.nbits, i) + g < |words|
    ensures Group(b, words[Offset(b.nbits, i) + g := w], j, h) == if i == j && g == h then w else Group(b, words, j, h)
  {
    hide Groups;
    PlaceInside(b, words, i, g);
    PlaceInside(b, words, j, h);
    if i < j { LevelsApart(b.nbits, i, j); }
    if j < i { LevelsApart(b.nbits, j, i); }
  }

  lemma GroupOf(nbits: nat, i: nat, k: nat)
    requires k < Bits(nbits, i)
    ensures GroupNo(k) < Bits(nbits, i + 1)
  {
    GroupsShrink(Bits(nbits, i));
  }

  // Flipping bit k of level i.
  lemma Flipped(b: Info, words: seq<Word>, i: nat, k: nat)
    requires InfoOk(b) && Shaped(b, words) && i < b.nlevels && k < Bits(b.nbits, i)
    ensures GroupNo(k) < Bits(b.nbits, i + 1) && Offset(b.nbits, i) + GroupNo(k) < |words|
    ensures IsWord(words[Offset(b.nbits, i) + GroupNo(k)])
    ensures var p := Offset(b.nbits, i) + GroupNo(k);
            var words' := words[p := Flip(words[p], BitNo(k))];
            && Shaped(b, words')
            && (forall j: nat, h: nat :: j < b.nlevels && GroupNo(h) < Bits(b.nbits, j + 1) ==>
                  (Bit(b, words', j, h) <==> if j == i && h == k then !Bit(b, words, i, k) else Bit(b, words, j, h)))
            && (forall j: nat, h: nat :: j < b.nlevels && h < Bits(b.nbits, j + 1) && !(j == i && h == GroupNo(k)) ==>
                  Group(b, words', j, h) == Group(b, words, j, h))
  {
    hide Bits, Offset, GroupNo, BitNo, Group, Shaped, InfoOk;
    GroupOf(b.nbits, i, k);
    PlaceInside(b, words, i, GroupNo(k));
    var p := Offset(b.nbits, i) + GroupNo(k);
    var w := Flip(words[p], BitNo(k));
    var words' := words[p := w];
    forall j: nat, h: nat | j < b.nlevels && h < Bits(b.nbits, j + 1)
      ensures Group(b, words', j, h) == if i == j && h == GroupNo(k) then w else Group(b, words, j, h)
    {
      OtherGroup(b, words, w, i, GroupNo(k), j, h);
    }
    forall j: nat, h: nat | j < b.nlevels && GroupNo(h) < Bits(b.nbits, j + 1)
      ensures Bit(b, words', j, h) <==> if j == i && h == k then !Bit(b, words, i, k) else Bit(b, words, j, h)
    {
      SameBit(h, k);
    }
    AllWords(b, words);
    StillShaped(b, words, words', i, k);
  }

  lemma AllWords(b: Info, words: seq<Word>)
    requires Shaped(b, words)
    ensures forall p :: 0 <= p < |words| ==> IsWord(words[p])
  { }

  lemma StillShaped(b: Info, words: seq<Word>, words': seq<Word>, i: nat, k: nat)
    requires Shaped(b, words) && k < Bits(b.nbits, i) && |words'| == |words|
    requires forall p :: 0 <= p < |words| ==> IsWord(words'[p])
    requires forall j: nat, h: nat :: j < b.nlevels && GroupNo(h) < Bits(b.nbits, j + 1) ==>
               (Bit(b, words', j, h) <==> if j == i && h == k then !Bit(b, words, i, k) else Bit(b, words, j, h))
    ensures Shaped(b, words')
  {
    hide Bits, Offset, GroupNo, BitNo, Group, Bit;
  }

  lemma SameBit(h: nat, k: nat)
    ensures GroupNo(h) == GroupNo(k) && BitNo(h) == BitNo(k) <==> h == k
  { }

  // ------------------------------------------------------------------- what summaries mean

  // A group has a bit left iff one of the bits it holds is left.
  lemma SomeBit(b: Info, words: seq<Word>, i: nat, g: nat)
    requires InfoOk(b) && Shaped(b, words) && i < b.nlevels && g < Bits(b.nbits, i + 1)
    ensures Some(Group(b, words, i, g)) <==>
              exists k: nat :: k < Bits(b.nbits, i) && GroupNo(k) == g && Bit(b, words, i, k)
  {
    hide Bits, Offset, Groups, InfoOk;
    PlaceInside(b, words, i, g);
    var w := Group(b, words, i, g);
    if Some(w) {
      var n :| 0 <= n < |w| && w[n];
      var k := NBITS * g + n;
      assert GroupNo(k) == g && BitNo(k) == n;
      assert Bit(b, words, i, k);
    }
    if k: nat :| k < Bits(b.nbits, i) && GroupNo(k) == g && Bit(b, words, i, k) {
      assert w[BitNo(k)];
    }
  }

  ghost predicate AnyBit(b: Info, words: seq<Word>, i: nat)
  {
    exists k: nat :: k < Bits(b.nbits, i) && Bit(b, words, i, k)
  }

  lemma LevelSums(b: Info, words: seq<Word>, i: nat)
    requires Valid(b, words) && 0 < i < b.nlevels
    ensures AnyBit(b, words, i) <==> AnyBit(b, words, i - 1)
  {
    hide Offset, Groups, InfoOk, Shaped, Bit, Group, Bits;
    if AnyBit(b, words, i) {
      var k: nat :| k < Bits(b.nbits, i) && Bit(b, words, i, k);
      assert Agrees(b, words, i, k);
      SomeBit(b, words, i - 1, k);
    }
    if AnyBit(b, words, i - 1) {
      var h: nat :| h < Bits(b.nbits, i - 1) && Bit(b, words, i - 1, h);
      GroupOf(b.nbits, i - 1, h);
      assert Agrees(b, words, i, GroupNo(h));
      SomeBit(b, words, i - 1, GroupNo(h));
    }
  }

  // The root has a bit left iff the bottom level has.
  lemma {:induction false} RootSums(b: Info, words: seq<Word>, i: nat)
    requires Valid(b, words) && i < b.nlevels
    ensures AnyBit(b, words, i) <==> AnyBit(b, words, 0)
  {
    if i > 0 {
      LevelSums(b, words, i);
      RootSums(b, words, i - 1);
    }
  }

  lemma AnyLeft(b: Info, words: seq<Word>)
    ensures !AnyBit(b, words, 0) <==> forall k: nat :: k < b.nbits ==> IsSet(b, words, k)
  {
    assert Bits(b.nbits, 0) == b.nbits;
    if k: nat :| k < Bits(b.nbits, 0) && Bit(b, words, 0, k) {
      assert !IsSet(b, words, k);
    } else {
      forall k: nat | k < b.nbits ensures IsSet(b, words, k) { }
    }
  }

  // The top level is one group.
  lemma TopGroup(b: Info, words: seq<Word>)
    requires Valid(b, words)
    ensures var top := b.nlevels - 1;
            && 0 < b.offsets[b.nlevels] <= |words| && b.offsets[b.nlevels] - 1 == b.offsets[top] == Offset(b.nbits, top)
            && Group(b, words, top, 0) == words[b.offsets[top]] && IsWord(words[b.offsets[top]])
            && Bits(b.nbits, b.nlevels) == 1 && (forall k: nat :: k < Bits(b.nbits, top) ==> GroupNo(k) == 0)
            && (Some(words[b.offsets[top]]) <==> AnyBit(b, words, top))
  {
    hide Groups;
    var top := b.nlevels - 1;
    LevelNext(b.nbits, top);
    PlaceInside(b, words, top, 0);
    forall k: nat | k < Bits(b.nbits, top) ensures GroupNo(k) == 0 { GroupOf(b.nbits, top, k); }
    SomeBit(b, words, top, 0);
  }

  // After a flip at level i that changed whether the group has a bit left, the bit above it is
  // the only one that is wrong.
  lemma SummedUp(b: Info, words: seq<Word>, i: nat, k: nat)
    requires InfoOk(b) && Shaped(b, words) && Summed(b, words, i, k) && i < b.nlevels && k < Bits(b.nbits, i)
    requires i > 0 ==> !Agrees(b, words, i, k)
    ensures GroupNo(k) < Bits(b.nbits, i + 1) && Offset(b.nbits, i) + GroupNo(k) < |words|
    ensures IsWord(words[Offset(b.nbits, i) + GroupNo(k)])
    ensures var p := Offset(b.nbits, i) + GroupNo(k);
            var w, w' := words[p], Flip(words[p], BitNo(k));
            var words' := words[p := w'];
            && Shaped(b, words') && Summed(b, words', i + 1, GroupNo(k)) && Group(b, words', i, GroupNo(k)) == w'
            && Group(b, words, i, GroupNo(k)) == w
            && (Some(w) == Some(w') ==> Summed(b, words', 0, 0))
            && (Some(w) != Some(w') && i + 1 < b.nlevels ==> !Agrees(b, words', i + 1, GroupNo(k)))
            && (i + 1 == b.nlevels ==> Summed(b, words', 0, 0))
            && (i + 1 < b.nlevels ==> Bit(b, words', i + 1, GroupNo(k)) == Some(w))
            && Bit(b, words, i, k) == w[BitNo(k)]
            && (forall h: nat :: h < b.nbits ==>
                 (Bit(b, words', 0, h) <==> if i == 0 && h == k then !Bit(b, words, 0, k) else Bit(b, words, 0, h)))
  {
    hide Bits, Offset, Groups, GroupNo, BitNo, InfoOk, Shaped;
    Flipped(b, words, i, k);
    PlaceInside(b, words, i, GroupNo(k));
    var p, g := Offset(b.nbits, i) + GroupNo(k), GroupNo(k);
    var words' := words[p := Flip(words[p], BitNo(k))];
    PlaceInside(b, words', i, g);
    forall j: nat, h: nat | 1 <= j < b.nlevels && h < Bits(b.nbits, j) && !(j == i + 1 && h == g)
      ensures Agrees(b, words', j, h)
    {
      GroupOf(b.nbits, j, h);
      assert j == i && h == k ==> Group(b, words', i - 1, k) == Group(b, words, i - 1, k);
      if !(j == i && h == k) { assert Agrees(b, words, j, h); }
    }
    if i + 1 < b.nlevels {
      assert Agrees(b, words, i + 1, g);
      GroupOf(b.nbits, i + 1, g);
      assert Bit(b, words', i + 1, g) == Bit(b, words, i + 1, g);
      if Some(words[p]) == Some(words'[p]) { assert Agrees(b, words', i + 1, g); }
    }
    forall h: nat | h < b.nbits ensures Bit(b, words', 0, h) <==>
        if i == 0 && h == k then !Bit(b, words, 0, k) else Bit(b, words, 0, h)
    {
      BottomBit(b, h);
    }
  }

  // How many bits the last group of level i does not use.
  method Extra(b: Info, i: nat) returns (extra: nat)
    requires InfoOk(b) && i < b.nlevels
    ensures extra == (NBITS - Bits(b.nbits, i) % NBITS) % NBITS
  {
    hide Groups, Bits, Offset;
    OffsetAt(b, i);
    var groupCount := b.nbits;
    if i > 0 {
      OffsetAt(b, i - 1);
      LevelNext(b.nbits, i - 1);
      groupCount := b.offsets[i] - b.offsets[i - 1];
    }
    LevelNext(b.nbits, i);
    extra := (NBITS - groupCount % NBITS) % NBITS;
  }

  method InitWords(b: Info) returns (words: seq<Word>)
    requires InfoOk(b)
    ensures Valid(b, words) && forall k: nat :: k < b.nbits ==> !IsSet(b, words, k)
  {
    hide Groups, Bits, Offset, Group, GroupNo, BitNo, Bit, InfoOk, Ones, Shr, Trimmed, Shaped, Summed;
    InfoFacts(b);
    OffsetAt(b, b.nlevels);
    AllOnes(b, []);
    words := seq(b.offsets[b.nlevels], _ => Ones(NBITS));
    for i := 0 to b.nlevels
      invariant |words| == Offset(b.nbits, b.nlevels) && (forall p :: 0 <= p < |words| ==> IsWord(words[p]))
      invariant forall j: nat :: j < i ==> Trimmed(b, words, j)
      invariant forall p :: Offset(b.nbits, i) <= p < |words| ==> words[p] == Ones(NBITS)
    {
      var extra := Extra(b, i);
      OffsetAt(b, i + 1);
      Trim(b, words, i, extra);
      if extra != 0 {
        var last := b.offsets[i + 1] - 1;
        words := words[last := Shr(words[last], extra)];
      }
    }
    AllTrimmed(b, words);
  }

  class Bitmap {
    const b: Info
    var words: seq<Word>

    ghost predicate Ok()
      reads this
    {
      Valid(b, words)
    }

    // bitmap_init: nothing is set.
    constructor (b: Info)
      requires InfoOk(b)
      ensures this.b == b && Ok() && forall k: nat :: k < b.nbits ==> !IsSet(b, words, k)
    {
      var w := InitWords(b);
      this.b := b;
      words := w;
    }

    // bitmap_full
    method Full() returns (full: bool)
      requires Ok()
      ensures full <==> forall k: nat :: k < b.nbits ==> IsSet(b, words, k)
    {
      hide Offset, Groups, Shaped, Group, Bits, Summed, IsSet;
      TopGroup(b, words);
      RootSums(b, words, b.nlevels - 1);
      AnyLeft(b, words);
      var rg := words[b.offsets[b.nlevels] - 1];
      full := true !in rg;
    }

    // bitmap_get
    method Get(bit: nat) returns (set': bool)
      requires Ok() && bit < b.nbits
      ensures set' == IsSet(b, words, bit)
    {
      hide Groups, Bits, Summed;
      LevelNext(b.nbits, 0);
      GroupOf(b.nbits, 0, bit);
      PlaceInside(b, words, 0, GroupNo(bit));
      set' := !words[GroupNo(bit)][BitNo(bit)];
    }

    // bitmap_set
    method Set(bit0: nat)
      requires Ok() && bit0 < b.nbits && !IsSet(b, words, bit0)
      modifies this`words
      ensures Ok() && forall k: nat :: k < b.nbits ==> (IsSet(b, words, k) <==> IsSet(b, old(words), k) || k == bit0)
    {
      hide Groups, Bits, Summed, Offset, Shaped, GroupNo, BitNo, InfoOk, Group, Bit, Agrees;
      var bit := bit0;
      AtBottom(b, words, bit);
      SummedUp(b, words, 0, bit);
      var goff: nat := GroupNo(bit);
      var g := Flip(words[goff], BitNo(bit));
      words := words[goff := g];
      if true !in g {
        var i := 1;
        while i < b.nlevels
          invariant 1 <= i <= b.nlevels && Shaped(b, words) && goff < Bits(b.nbits, i)
          invariant i < b.nlevels ==> Summed(b, words, i, goff) && Bit(b, words, i, goff) && !Agrees(b, words, i, goff)
          invariant i == b.nlevels ==> Summed(b, words, 0, 0)
          invariant forall k: nat :: k < b.nbits ==> (IsSet(b, words, k) <==> IsSet(b, old(words), k) || k == bit0)
        {
          bit := goff;
          goff := GroupNo(bit);
          SummedUp(b, words, i, bit);
          OffsetAt(b, i);
          var p := b.offsets[i] + goff;
          g := Flip(words[p], BitNo(bit));
          words := words[p := g];
          if true in g {
            break;
          }
          i := i + 1;
        }
      }
    }

    // bitmap_unset
    method Unset(bit0: nat)
      requires Ok() && bit0 < b.nbits && IsSet(b, words, bit0)
      modifies this`words
      ensures Ok() && forall k: nat :: k < b.nbits ==> (IsSet(b, words, k) <==> IsSet(b, old(words), k) && k != bit0)
    {
      hide Groups, Bits, Summed, Offset, Shaped, GroupNo, BitNo, InfoOk, Group, Bit, Agrees;
      var bit := bit0;
      AtBottom(b, words, bit);
      SummedUp(b, words, 0, bit);
      var goff: nat := GroupNo(bit);
      var g := words[goff];
      var propagate := true !in g;
      FlipOn(g, BitNo(bit));
      words := words[goff := Flip(g, BitNo(bit))];
      if propagate {
        var i := 1;
        while i < b.nlevels
          invariant 1 <= i <= b.nlevels && Shaped(b, words) && goff < Bits(b.nbits, i)
          invariant i < b.nlevels ==> Summed(b, words, i, goff) && !Bit(b, words, i, goff) && !Agrees(b, words, i, goff)
          invariant i == b.nlevels ==> Summed(b, words, 0, 0)
          invariant forall k: nat :: k < b.nbits ==> (IsSet(b, words, k) <==> IsSet(b, old(words), k) && k != bit0)
        {
          bit := goff;
          goff := GroupNo(bit);
          SummedUp(b, words, i, bit);
          OffsetAt(b, i);
          var p := b.offsets[i] + goff;
          g := words[p];
          propagate := true !in g;
          FlipOn(g, BitNo(bit));
          words := words[p := Flip(g, BitNo(bit))];
          if !propagate {
            break;
          }
          i := i + 1;
        }
      }
    }

    // ffsl(g) - 1
    method FirstBit(g: Word) returns (n: nat)
      requires Some(g) && IsWord(g)
      ensures n < NBITS && g[n] && forall k :: 0 <= k < n ==> !g[k]
    {
      n := 0;
      while !g[n]
        invariant n < NBITS && (forall k :: 0 <= k < n ==> !g[k]) && exists k :: n <= k < NBITS && g[k]
        decreases NBITS - n
      {
        n := n + 1;
      }
    }

    // bitmap_sfu: sets the first bit that is not set.
    method SetFirstUnset() returns (bit: nat)
      requires Ok() && exists k: nat :: k < b.nbits && !IsSet(b, words, k)
      modifies this`words
      ensures bit < b.nbits && !IsSet(b, old(words), bit) && forall k: nat :: k < bit ==> IsSet(b, old(words), k)
      ensures Ok() && forall k: nat :: k < b.nbits ==> (IsSet(b, words, k) <==> IsSet(b, old(words), k) || k == bit)
    {
      hide Groups, Bits, Summed, Offset, Shaped, GroupNo, BitNo, InfoOk, Group, Agrees;
      InfoFacts(b);
      TopGroup(b, words);
      RootSums(b, words, b.nlevels - 1);
      AnyLeft(b, words);
      BottomBits(b);
      var i := b.nlevels - 1;
      var g := words[b.offsets[i]];
      var n := FirstBit(g);
      bit := n;
      TopFirst(b, words, i, n);
      while i > 0
        invariant words == old(words)
        invariant i < b.nlevels && bit < Bits(b.nbits, i) && Bit(b, words, i, bit)
        invariant forall k: nat :: k < bit ==> !Bit(b, words, i, k)
      {
        GroupLeft(b, words, i, bit);
        i := i - 1;
        g := words[b.offsets[i] + bit];
        n := FirstBit(g);
        FirstBelow(b, words, i, i + 1, bit, n);
        bit := NBITS * bit + n;
      }
      Set(bit);
    }
  }

  lemma BottomBit(b: Info, h: nat)
    requires InfoOk(b) && h < b.nbits
    ensures GroupNo(h) < Bits(b.nbits, 1)
  {
    GroupOf(b.nbits, 0, h);
  }

  lemma BottomBits(b: Info)
    ensures Bits(b.nbits, 0) == b.nbits
  { }

  lemma InfoFacts(b: Info)
    requires InfoOk(b)
    ensures b.nlevels > 0 && |b.offsets| == b.nlevels + 1
  { }

  lemma OffsetAt(b: Info, i: nat)
    requires InfoOk(b) && i <= b.nlevels
    ensures |b.offsets| == b.nlevels + 1 && b.offsets[i] == Offset(b.nbits, i)
  { }

  lemma AtBottom(b: Info, words: seq<Word>, bit: nat)
    requires Valid(b, words) && bit < b.nbits
    ensures b.nlevels > 0 && Bits(b.nbits, 0) == b.nbits && Offset(b.nbits, 0) == 0 && Summed(b, words, 0, bit)
  { }

  lemma FlipOn(g: Word, k: nat)
    requires k < |g| && !g[k]
    ensures Some(Flip(g, k))
  {
    assert Flip(g, k)[k];
  }

  // The first bit of the top group is the first of its level.
  lemma TopFirst(b: Info, words: seq<Word>, top: nat, n: nat)
    requires Valid(b, words) && top == b.nlevels - 1 && n < NBITS && |b.offsets| == b.nlevels + 1
    requires b.offsets[top] < |words|
    requires Group(b, words, top, 0) == words[b.offsets[top]] && IsWord(words[b.offsets[top]])
    requires var g := words[b.offsets[top]]; g[n] && forall k :: 0 <= k < n ==> !g[k]
    ensures n < Bits(b.nbits, top) && Bit(b, words, top, n) && forall k: nat :: k < n ==> !Bit(b, words, top, k)
  {
    hide Bits, Offset, Groups;
    assert forall k: nat :: k <= n ==> GroupNo(k) == 0 && BitNo(k) == k;
    assert Bit(b, words, top, n);
  }

  lemma GroupLeft(b: Info, words: seq<Word>, i: nat, k: nat)
    requires Valid(b, words) && 0 < i < b.nlevels && k < Bits(b.nbits, i) && Bit(b, words, i, k)
    ensures |b.offsets| == b.nlevels + 1 && b.offsets[i - 1] + k < |words|
    ensures Some(words[b.offsets[i - 1] + k]) && IsWord(words[b.offsets[i - 1] + k])
    ensures Group(b, words, i - 1, k) == words[b.offsets[i - 1] + k]
  {
    hide Bits, Offset, Groups;
    PlaceInside(b, words, i - 1, k);
    assert Agrees(b, words, i, k);
  }

  // The first bit of the first group that has one is the first of the level below.
  lemma FirstBelow(b: Info, words: seq<Word>, i: nat, up: nat, k: nat, n: nat)
    requires Valid(b, words) && up == i + 1 < b.nlevels && k < Bits(b.nbits, up) && Bit(b, words, up, k) && n < NBITS
    requires forall h: nat :: h < k ==> !Bit(b, words, up, h)
    requires var g := Group(b, words, i, k); IsWord(g) && g[n] && forall h :: 0 <= h < n ==> !g[h]
    ensures NBITS * k + n < Bits(b.nbits, i) && Bit(b, words, i, NBITS * k + n)
    ensures forall h: nat :: h < NBITS * k + n ==> !Bit(b, words, i, h)
  {
    hide Bits, Offset, Groups, InfoOk;
    var bit := NBITS * k + n;
    assert GroupNo(bit) == k && BitNo(bit) == n;
    assert Bit(b, words, i, bit);
    forall h: nat | h < bit ensures !Bit(b, words, i, h)
    {
      if GroupNo(h) < k {
        NoneBefore(b, words, i, up, k, h);
      } else {
        assert GroupNo(h) == k && BitNo(h) < n;
      }
    }
  }

  lemma NoneBefore(b: Info, words: seq<Word>, i: nat, up: nat, k: nat, h: nat)
    requires Valid(b, words) && up == i + 1 < b.nlevels && k < Bits(b.nbits, up) && GroupNo(h) < k
    requires forall j: nat :: j < k ==> !Bit(b, words, up, j)
    ensures !Bit(b, words, i, h)
  {
    hide Bits, Offset, Groups, InfoOk, GroupNo;
    assert Agrees(b, words, up, GroupNo(h));
    if Bit(b, words, i, h) && h < Bits(b.nbits, i) {
      SomeBit(b, words, i, GroupNo(h));
    }
  }

  // g >> n
  function Shr(g: Word, n: nat): Word
    requires IsWord(g)
  {
    seq(NBITS, k requires 0 <= k => k + n < NBITS && g[k + n])
  }

  // Level i has a bit for every bit it should have, and no others.
  ghost predicate Trimmed(b: Info, words: seq<Word>, i: nat)
  {
    forall k: nat :: GroupNo(k) < Bits(b.nbits, i + 1) ==> (Bit(b, words, i, k) <==> k < Bits(b.nbits, i))
  }

  lemma AllOnes(b: Info, words: seq<Word>)
    ensures IsWord(Ones(NBITS)) && Bits(b.nbits, 0) == b.nbits && Offset(b.nbits, 0) == 0
  { }

  // The last group of a level, shifted down by what its bits leave free.
  lemma Trim(b: Info, words: seq<Word>, i: nat, extra: nat)
    requires InfoOk(b) && i < b.nlevels && |words| == Offset(b.nbits, b.nlevels)
    requires (forall p :: 0 <= p < |words| ==> IsWord(words[p]))
    requires (forall j: nat :: j < i ==> Trimmed(b, words, j))
    requires forall p :: Offset(b.nbits, i) <= p < |words| ==> words[p] == Ones(NBITS)
    requires extra == (NBITS - Bits(b.nbits, i) % NBITS) % NBITS
    ensures Offset(b.nbits, i) < Offset(b.nbits, i + 1) <= |words|
    ensures var last := Offset(b.nbits, i + 1) - 1;
            var words' := if extra == 0 then words else words[last := Shr(words[last], extra)];
            && (forall p :: 0 <= p < |words'| ==> IsWord(words'[p]))
            && (forall j: nat :: j <= i ==> Trimmed(b, words', j))
            && (forall p :: Offset(b.nbits, i + 1) <= p < |words'| ==> words'[p] == Ones(NBITS))
  {
    hide Groups, Bits, Offset, Ones;
    LevelNext(b.nbits, i);
    PositiveLevel(b, i);
    if i + 1 < b.nlevels { LevelsApart(b.nbits, i, b.nlevels); }
    var n, last := Bits(b.nbits, i), Offset(b.nbits, i + 1) - 1;
    var words' := if extra == 0 then words else words[last := Shr(words[last], extra)];
    forall j: nat | j < i ensures Trimmed(b, words', j)
    {
      LevelsApart(b.nbits, j, i);
      SameLevel(b, words, words', j);
    }
    forall k: nat | GroupNo(k) < Bits(b.nbits, i + 1) ensures Bit(b, words', i, k) <==> k < n
    {
      LastGroup(n, extra, k);
      OnesAt();
    }
  }

  lemma OnesAt()
    ensures IsWord(Ones(NBITS)) && forall k: nat :: k < NBITS ==> Ones(NBITS)[k]
  { }

  lemma PositiveLevel(b: Info, i: nat)
    requires InfoOk(b) && i <= b.nlevels
    ensures Bits(b.nbits, i) > 0
  {
    hide Groups, Offset;
    if i > 0 { assert i == b.nlevels || Bits(b.nbits, i) > 1; }
  }

  // A bit of the last group is in range iff it survives the shift.
  lemma LastGroup(n: nat, extra: nat, k: nat)
    requires n > 0 && extra == (NBITS - n % NBITS) % NBITS && GroupNo(k) < Groups(n)
    ensures GroupNo(k) == Groups(n) - 1 ==> (k < n <==> BitNo(k) + extra < NBITS)
    ensures GroupNo(k) < Groups(n) - 1 ==> k < n
  {
    var q, r := n / NBITS, n % NBITS;
    assert n == NBITS * q + r && k == NBITS * GroupNo(k) + BitNo(k);
    if r == 0 { assert extra == 0 && Groups(n) == q; } else { assert extra == NBITS - r && Groups(n) == q + 1; }
  }

  lemma SameLevel(b: Info, words: seq<Word>, words': seq<Word>, j: nat)
    requires Trimmed(b, words, j) && |words'| == |words| && Offset(b.nbits, j) + Bits(b.nbits, j + 1) <= |words|
    requires forall p :: 0 <= p < Offset(b.nbits, j) + Bits(b.nbits, j + 1) ==> words'[p] == words[p]
    ensures Trimmed(b, words', j)
  {
    hide Groups, Bits, Offset, GroupNo, BitNo;
    forall k: nat | GroupNo(k) < Bits(b.nbits, j + 1) ensures Bit(b, words', j, k) <==> k < Bits(b.nbits, j)
    {
      assert Bit(b, words', j, k) == Bit(b, words, j, k);
    }
  }

  lemma AllTrimmed(b: Info, words: seq<Word>)
    requires InfoOk(b) && |words| == Offset(b.nbits, b.nlevels) && (forall p :: 0 <= p < |words| ==> IsWord(words[p]))
    requires forall j: nat :: j < b.nlevels ==> Trimmed(b, words, j)
    ensures Valid(b, words) && forall k: nat :: k < b.nbits ==> !IsSet(b, words, k)
  {
    hide Groups, Bits, Offset, GroupNo, BitNo, Group, Bit, InfoOk;
    InfoFacts(b);
    assert Shaped(b, words) by {
      forall i: nat, k: nat | i < b.nlevels && k >= Bits(b.nbits, i)
          && GroupNo(k) < Bits(b.nbits, i + 1) ensures !Bit(b, words, i, k)
      {
        assert Trimmed(b, words, i);
      }
    }
    forall i: nat, k: nat | 1 <= i < b.nlevels && k < Bits(b.nbits, i) ensures Agrees(b, words, i, k)
    {
      assert Trimmed(b, words, i) && Trimmed(b, words, i - 1);
      GroupOf(b.nbits, i, k);
      FirstOfGroup(b.nbits, i - 1, k);
      SomeBit(b, words, i - 1, k);
      assert Bit(b, words, i - 1, NBITS * k);
    }
    assert Trimmed(b, words, 0);
    BottomBits(b);
    forall k: nat | k < b.nbits ensures !IsSet(b, words, k) { GroupOf(b.nbits, 0, k); }
  }

  // Every group of a level holds at least one bit of it.
  lemma FirstOfGroup(nbits: nat, i: nat, g: nat)
    requires g < Bits(nbits, i + 1)
    ensures NBITS * g < Bits(nbits, i) && GroupNo(NBITS * g) == g
  {
    LevelNext(nbits, i);
    GroupsShrink(Bits(nbits, i));
  }
}
