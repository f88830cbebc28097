// Neighbouring geohash codes: the character tables, the carry from character to character,
// and what they mean on the grid of cells.
module Neighbors {
  import opened Basics
  import opened Bits
  import opened Geohash

  const NORTH := 0
  const EAST := 1
  const SOUTH := 2
  const WEST := 3

  // "p0r21436x8zb9dcf5h7kjnmqesgutwvy"
  const LONG_UP: seq<byte> := [112, 48, 114, 50, 49, 52, 51, 54, 120, 56, 122, 98, 57, 100, 99, 102,
                               53, 104, 55, 107, 106, 110, 109, 113, 101, 115, 103, 117, 116, 119, 118, 121]
  // "bc01fg45238967deuvhjyznpkmstqrwx"
  const SHORT_UP: seq<byte> := [98, 99, 48, 49, 102, 103, 52, 53, 50, 51, 56, 57, 54, 55, 100, 101,
                                117, 118, 104, 106, 121, 122, 110, 112, 107, 109, 115, 116, 113, 114, 119, 120]
  // "14365h7k9dcfesgujnmqp0r2twvyx8zb"
  const LONG_DOWN: seq<byte> := [49, 52, 51, 54, 53, 104, 55, 107, 57, 100, 99, 102, 101, 115, 103, 117,
                                 106, 110, 109, 113, 112, 48, 114, 50, 116, 119, 118, 121, 120, 56, 122, 98]
  // "238967debc01fg45kmstqrwxuvhjyznp"
  const SHORT_DOWN: seq<byte> := [50, 51, 56, 57, 54, 55, 100, 101, 98, 99, 48, 49, 102, 103, 52, 53,
                                  107, 109, 115, 116, 113, 114, 119, 120, 117, 118, 104, 106, 121, 122, 110, 112]

  const EVEN_NEIGHBORS: seq<seq<byte>> := [LONG_UP, SHORT_UP, LONG_DOWN, SHORT_DOWN]
  const ODD_NEIGHBORS: seq<seq<byte>> := [SHORT_UP, LONG_UP, SHORT_DOWN, LONG_DOWN]

  // "prxz", "bcfguvyz", "028b", "0145hjnp"
  const LONG_TOP: seq<byte> := [112, 114, 120, 122]
  const SHORT_TOP: seq<byte> := [98, 99, 102, 103, 117, 118, 121, 122]
  const LONG_BOTTOM: seq<byte> := [48, 50, 56, 98]
  const SHORT_BOTTOM: seq<byte> := [48, 49, 52, 53, 104, 106, 110, 112]

  const EVEN_BORDERS: seq<seq<byte>> := [LONG_TOP, SHORT_TOP, LONG_BOTTOM, SHORT_BOTTOM]
  const ODD_BORDERS: seq<seq<byte>> := [SHORT_TOP, LONG_TOP, SHORT_BOTTOM, LONG_BOTTOM]

  predicate IsTable(t: seq<byte>, axis: nat, up: bool)
  {
    if axis == 0 then t == (if up then LONG_UP else LONG_DOWN) else t == (if up then SHORT_UP else SHORT_DOWN)
  }

  predicate IsBorder(t: seq<byte>, axis: nat, up: bool)
  {
    if axis == 0 then t == (if up then LONG_TOP else LONG_BOTTOM) else t == (if up then SHORT_TOP else SHORT_BOTTOM)
  }

  // -------------------------------------------------- the two coordinates in one character

  function N(x: bool): nat { if x then 1 else 0 }

  function Size(axis: nat): nat { if axis == 0 then 8 else 4 }

  // The five bits of a character. Bits a, c and e number its long axis, b and d the short one.
  datatype Quint = Quint(a: bool, b: bool, c: bool, d: bool, e: bool)
  {
    function Number(): (n: nat)
      ensures n < 32
    {
      16 * N(a) + 8 * N(b) + 4 * N(c) + 2 * N(d) + N(e)
    }

    function Part(axis: nat): nat { if axis == 0 then 4 * N(a) + 2 * N(c) + N(e) else 2 * N(b) + N(d) }

    // One step along an axis, wrapping around.
    function Move(axis: nat, up: bool): Quint
    {
      if axis == 0 then
        Quint(a != (if up then c && e else !c && !e), b, if up then c != e else c == e, d, !e)
      else
        Quint(a, if up then b != d else b == d, c, !d, e)
    }

    function Bits(): seq<bool> { [a, b, c, d, e] }
  }

  lemma MoveBack(q: Quint, axis: nat, up: bool)
    requires axis < 2
    ensures q.Move(axis, up).Move(axis, !up) == q
  { }

  lemma MoveParts(q: Quint, axis: nat, up: bool)
    requires axis < 2
    ensures q.Move(axis, up).Part(1 - axis) == q.Part(1 - axis)
    ensures q.Move(axis, up).Part(axis) == Stepped(q.Part(axis), Size(axis), up)
  {
    if axis == 0 { MoveLong(q, up); } else { MoveShort(q, up); }
  }

  lemma MoveLong(q: Quint, up: bool)
    ensures q.Move(0, up).Part(0) == Stepped(q.Part(0), 8, up)
  { }

  lemma MoveShort(q: Quint, up: bool)
    ensures q.Move(1, up).Part(1) == Stepped(q.Part(1), 4, up)
  { }

  function Stepped(p: nat, size: nat, up: bool): int
  {
    if up then if p == size - 1 then 0 else p + 1 else if p == 0 then size - 1 else p - 1
  }

  lemma LongUp(q: Quint)
    ensures LONG_UP[q.Number()] == CHAR_MAP[q.Move(0, false).Number()]
  { }

  lemma LongDown(q: Quint)
    ensures LONG_DOWN[q.Number()] == CHAR_MAP[q.Move(0, true).Number()]
  { }

  lemma ShortUp(q: Quint)
    ensures SHORT_UP[q.Number()] == CHAR_MAP[q.Move(1, false).Number()]
  { }

  lemma ShortDown(q: Quint)
    ensures SHORT_DOWN[q.Number()] == CHAR_MAP[q.Move(1, true).Number()]
  { }

  // A character stands in each table at the place of the character that the table leads to.
  lemma TableEntry(t: seq<byte>, axis: nat, up: bool, q: Quint)
    requires axis < 2 && IsTable(t, axis, up)
    ensures |t| == 32 && t[q.Number()] == CHAR_MAP[q.Move(axis, !up).Number()]
  {
    LongUp(q);
    LongDown(q);
    ShortUp(q);
    ShortDown(q);
  }

  lemma BorderEntry(t: seq<byte>, axis: nat, up: bool, q: Quint)
    requires axis < 2 && IsBorder(t, axis, up)
    ensures CHAR_MAP[q.Number()] in t <==> q.Part(axis) == (if up then Size(axis) - 1 else 0)
  {
    if axis == 0 { LongBorder(q, up); } else { ShortBorder(q, up); }
  }

  lemma LongBorder(q: Quint, up: bool)
    ensures CHAR_MAP[q.Number()] in (if up then LONG_TOP else LONG_BOTTOM) <==> q.Part(0) == (if up then 7 else 0)
  { }

  lemma ShortBorder(q: Quint, up: bool)
    ensures CHAR_MAP[q.Number()] in (if up then SHORT_TOP else SHORT_BOTTOM) <==> q.Part(1) == (if up then 3 else 0)
  { }

  ghost function QuintOf(c: byte): Quint
  {
    var b := Low(Digit(c), 5);
    Quint(b[0], b[1], b[2], b[3], b[4])
  }

  lemma QuintIs(c: byte)
    requires IsLetter(c)
    ensures CHAR_MAP[QuintOf(c).Number()] == c && QuintOf(c).Number() == Digit(c)
  {
    ValueOfLow(Digit(c), 5);
    assert Power(5) == 32;
    BitsValue(QuintOf(c));
    assert Low(Digit(c), 5) == QuintOf(c).Bits();
  }

  lemma BitsValue(q: Quint)
    ensures Value(q.Bits()) == q.Number()
  {
    hide Value;
    assert Value([]) == 0 by { ValueOfNone(); }
    var a, b, c, d := [q.a], [q.a, q.b], [q.a, q.b, q.c], [q.a, q.b, q.c, q.d];
    assert q.Bits() == d + [q.e] && d == c + [q.d] && c == b + [q.c] && b == a + [q.b] && a == [] + [q.a];
    ValueNext([], q.a);
    ValueNext(a, q.b);
    ValueNext(b, q.c);
    ValueNext(c, q.d);
    ValueNext(d, q.e);
  }

  lemma QuintUnique(q: Quint, c: byte)
    requires IsLetter(c) && CHAR_MAP[q.Number()] == c
    ensures QuintOf(c) == q
  {
    QuintIs(c);
    LettersDistinct();
    assert QuintOf(c).Number() == q.Number();
  }

  // Looking a character up finds the one a step away.
  lemma Lookup(t: seq<byte>, axis: nat, up: bool, c: byte, i: int)
    requires axis < 2 && IsTable(t, axis, up) && IsLetter(c)
    requires -1 <= i < |t| && (if i == -1 then c !in t else t[i] == c)
    ensures 0 <= i < 32 && QuintOf(CHAR_MAP[i]) == QuintOf(c).Move(axis, up)
  {
    hide IsTable;
    var q := QuintOf(c);
    QuintIs(c);
    MoveBack(q, axis, up);
    TableEntry(t, axis, up, q.Move(axis, up));
    assert t[q.Move(axis, up).Number()] == c;
    var r := QuintOf(CHAR_MAP[i]);
    QuintIs(CHAR_MAP[i]);
    NumberOfLetter(i);
    TableEntry(t, axis, up, r);
    QuintUnique(r.Move(axis, !up), c);
    MoveBack(r, axis, !up);
  }

  lemma NumberOfLetter(i: nat)
    requires i < 32
    ensures IsLetter(CHAR_MAP[i]) && QuintOf(CHAR_MAP[i]).Number() == i
  {
    QuintIs(CHAR_MAP[i]);
    LettersDistinct();
  }

  // ------------------------------------------------------------------ places on the grid

  // Column (axis 0) or row (axis 1) of the cell that a code denotes.
  ghost function Coord(hash: seq<byte>, g: nat): nat { Index(BitsOf(hash), g) }

  // The axis of a character that a coordinate uses, by the length of the code it ends.
  function AxisOf(length: nat, g: nat): (axis: nat)
    requires g < 2
    ensures axis < 2
  {
    if length % 2 == 1 then g else 1 - g
  }

  lemma IndexNext(bits: seq<bool>, x: bool, g: nat)
    ensures Index(bits + [x], g) == if |bits| % 2 == g then 2 * Index(bits, g) + N(x) else Index(bits, g)
  {
    assert (bits + [x])[..|bits|] == bits;
  }

  lemma IndexPair(bits: seq<bool>, x: bool, y: bool, g: nat)
    requires g < 2
    ensures Index(bits + [x, y], g) == 2 * Index(bits, g) + if |bits| % 2 == g then N(x) else N(y)
  {
    hide Index;
    assert bits + [x, y] == bits + [x] + [y];
    IndexNext(bits, x, g);
    IndexNext(bits + [x], y, g);
  }

  lemma IndexQuint(b: seq<bool>, q: Quint, g: nat)
    requires g < 2
    ensures Index(b + q.Bits(), g) == if |b| % 2 == g then 8 * Index(b, g) + q.Part(0) else 4 * Index(b, g) + q.Part(1)
  {
    hide Index, N;
    var b2 := b + [q.a, q.b];
    var b4 := b2 + [q.c, q.d];
    assert b + q.Bits() == b4 + [q.e];
    IndexPair(b, q.a, q.b, g);
    IndexPair(b2, q.c, q.d, g);
    IndexNext(b4, q.e, g);
  }

  lemma CoordNext(hash: seq<byte>, c: byte, g: nat)
    requires g < 2
    ensures Coord(hash + [c], g) ==
            Size(AxisOf(|hash| + 1, g)) * Coord(hash, g) + QuintOf(c).Part(AxisOf(|hash| + 1, g))
  {
    hide BitsOf, Low, Digit, Index;
    BitsOfNext(hash, c);
    assert Low(Digit(c), 5) == QuintOf(c).Bits();
    IndexQuint(BitsOf(hash), QuintOf(c), g);
  }

  lemma {:induction false} IndexInjective(x: seq<bool>, y: seq<bool>)
    requires |x| == |y| && Index(x, 0) == Index(y, 0) && Index(x, 1) == Index(y, 1)
    ensures x == y
  {
    if x != [] {
      var n := |x| - 1;
      IndexInjective(x[..n], y[..n]);
      assert x == x[..n] + [x[n]] && y == y[..n] + [y[n]];
    }
  }

  // A code is determined by its length and its cell's column and row.
  lemma CoordInjective(a: seq<byte>, b: seq<byte>)
    requires IsCode(a) && IsCode(b) && |a| == |b| && Coord(a, 0) == Coord(b, 0) && Coord(a, 1) == Coord(b, 1)
    ensures a == b
  {
    IndexInjective(BitsOf(a), BitsOf(b));
    BitsOfInjective(a, b);
  }

  // Rows and columns of the grid of codes of one length.
  function Extent(length: nat, g: nat): (n: nat)
    requires g < 2
    ensures n > 0
  {
    if length == 0 then 1 else Size(AxisOf(length, g)) * Extent(length - 1, g)
  }

  // ------------------------------------------------------------------------- neighbours

  // The coordinate that a direction changes.
  function Along(direction: nat): (g: nat)
    ensures g < 2
  {
    if direction % 2 == 0 then 1 else 0
  }

  function Up(direction: nat): bool { direction < 2 }

  function Borders(length: nat, direction: nat): seq<byte>
    requires direction < 4
  {
    if length % 2 == 1 then ODD_BORDERS[direction] else EVEN_BORDERS[direction]
  }

  function Table(length: nat, direction: nat): seq<byte>
    requires direction < 4
  {
    if length % 2 == 1 then ODD_NEIGHBORS[direction] else EVEN_NEIGHBORS[direction]
  }

  lemma TableIs(length: nat, direction: nat)
    requires direction < 4
    ensures IsTable(Table(length, direction), AxisOf(length, Along(direction)), Up(direction))
    ensures IsBorder(Borders(length, direction), AxisOf(length, Along(direction)), Up(direction))
  {
    assert direction == 0 || direction == 1 || direction == 2 || direction == 3;
  }

  // Every character of the code is a border character: nothing lies beyond it on the map.
  predicate AtEdge(hash: seq<byte>, direction: nat)
    requires direction < 4
  {
    hash == [] || (hash[|hash| - 1] in Borders(|hash|, direction) && AtEdge(hash[..|hash| - 1], direction))
  }

  // ... which happens exactly in the outermost row or column.
  lemma {:induction false} EdgeIsOutermost(hash: seq<byte>, direction: nat)
    requires direction < 4 && IsCode(hash)
    ensures var x := Coord(hash, Along(direction));
            && x < Extent(|hash|, Along(direction))
            && (AtEdge(hash, direction) <==> x == if Up(direction) then Extent(|hash|, Along(direction)) - 1 else 0)
  {
    hide Coord, Extent, AtEdge, IsCode;
    if hash == [] {
      NoCoord(Along(direction));
      NowhereLeft(direction);
    } else {
      var n := |hash| - 1;
      assert hash == hash[..n] + [hash[n]];
      FrontIsCode(hash[..n], hash[n], direction);
      EdgeIsOutermost(hash[..n], direction);
      EdgeStep(hash[..n], hash[n], direction);
    }
  }

  lemma EdgeStep(front: seq<byte>, c: byte, direction: nat)
    requires direction < 4 && IsLetter(c) && Coord(front, Along(direction)) < Extent(|front|, Along(direction))
    ensures var g := Along(direction);
            var n, e := |front|, Extent(|front|, g);
            && Coord(front + [c], g) < Extent(n + 1, g)
            && (c in Borders(n + 1, direction) && Coord(front, g) == (if Up(direction) then e - 1 else 0)
                <==> Coord(front + [c], g) == if Up(direction) then Extent(n + 1, g) - 1 else 0)
  {
    hide Coord, Borders, IsBorder, QuintOf, Along, Up, AxisOf, Size, Quint.Number, Quint.Part, IsLetter;
    var g, n := Along(direction), |front|;
    var axis := AxisOf(n + 1, g);
    CoordNext(front, c, g);
    TableIs(n + 1, direction);
    QuintIs(c);
    BorderEntry(Borders(n + 1, direction), axis, Up(direction), QuintOf(c));
    PartBound(QuintOf(c), axis);
    Outermost(Size(axis), Coord(front, g), Extent(n, g), QuintOf(c).Part(axis));
  }

  lemma NoCoord(g: nat)
    requires g < 2
    ensures Coord([], g) == 0 && Extent(0, g) == 1
  { }

  lemma PartBound(q: Quint, axis: nat)
    ensures q.Part(axis) < Size(axis) && (Size(axis) == 4 || Size(axis) == 8)
  { }

  lemma Outermost(k: nat, x: nat, e: nat, p: nat)
    requires x < e && p < k && (k == 4 || k == 8)
    ensures k * x + p < k * e
    ensures k * x + p == k * e - 1 <==> x == e - 1 && p == k - 1
    ensures k * x + p == 0 <==> x == 0 && p == 0
  { }

  // r is the code of the same length one cell away in a direction.
  ghost predicate IsNeighbor(hash: seq<byte>, direction: nat, r: seq<byte>)
  {
    && |r| == |hash| && IsCode(r)
    && Coord(r, Along(direction)) == Coord(hash, Along(direction)) + (if Up(direction) then 1 else -1)
    && Coord(r, 1 - Along(direction)) == Coord(hash, 1 - Along(direction))
  }

  // memcpy
  method Copy(to: array<byte>, from: array<byte>, n: nat)
    requires to != from && n <= to.Length && n <= from.Length
    modifies to
    ensures to[..n] == from[..n] && to[n..] == old(to[n..])
  {
    forall k | 0 <= k < n { to[k] := from[k]; }
  }

  // etdb_geo_hash_get_neighbor
  method GetNeighbor(hash: array<byte>, charAmount: nat, direction: nat, nei: array<byte>)
    requires direction < 4 && hash != nei && charAmount <= hash.Length && charAmount <= nei.Length
    requires IsCode(hash[..charAmount]) && !AtEdge(hash[..charAmount], direction)
    modifies nei
    ensures IsNeighbor(hash[..charAmount], direction, nei[..charAmount])
    ensures nei[charAmount..] == old(nei[charAmount..])
    decreases charAmount
  {
    hide IsNeighbor, IsCode, IsLetter, Borders, Table, StepsTo, AtEdge;
    assert charAmount > 0 by { NowhereLeft(direction); }
    var n := charAmount - 1;
    var lastChar := hash[n];
    ghost var front := hash[..n];
    assert hash[..charAmount] == front + [lastChar];
    FrontIsCode(front, lastChar, direction);
    var index := IndexForChar(lastChar, Borders(charAmount, direction));
    if index != -1 {
      GetNeighbor(hash, n, direction, nei);
    } else {
      Copy(nei, hash, n);
    }
    ghost var front' := nei[..n];
    assert nei[charAmount..] == old(nei[charAmount..]);
    index := IndexForChar(lastChar, Table(charAmount, direction));
    LookupIn(charAmount, direction, lastChar, index);
    nei[n] := CHAR_MAP[index];
    assert nei[..charAmount] == front' + [CHAR_MAP[index]];
    Carry(front, lastChar, direction, front', CHAR_MAP[index]);
  }

  lemma LookupIn(length: nat, direction: nat, c: byte, i: int)
    requires direction < 4 && IsLetter(c) && -1 <= i < |Table(length, direction)|
    requires if i == -1 then c !in Table(length, direction) else Table(length, direction)[i] == c
    ensures 0 <= i < 32 && StepsTo(length, direction, c, CHAR_MAP[i])
  {
    hide IsTable, QuintOf, IsLetter;
    TableIs(length, direction);
    Lookup(Table(length, direction), AxisOf(length, Along(direction)), Up(direction), c, i);
    NumberOfLetter(i);
  }

  // The character c' is one step from c in a code of this length.
  ghost predicate StepsTo(length: nat, direction: nat, c: byte, c': byte)
  {
    IsLetter(c') && QuintOf(c') == QuintOf(c).Move(AxisOf(length, Along(direction)), Up(direction))
  }

  lemma NowhereLeft(direction: nat)
    requires direction < 4
    ensures AtEdge([], direction)
  { }

  lemma FrontIsCode(front: seq<byte>, c: byte, direction: nat)
    requires direction < 4 && IsCode(front + [c])
    ensures IsCode(front) && IsLetter(c)
    ensures AtEdge(front + [c], direction) <==> c in Borders(|front| + 1, direction) && AtEdge(front, direction)
  {
    hide Borders;
    assert (front + [c])[|front|] == c && (front + [c])[..|front|] == front;
    forall x | x in front ensures IsLetter(x) { assert x in front + [c]; }
  }

  // The last character wraps around exactly when the step is carried to the code before it.
  lemma Carry(front: seq<byte>, c: byte, direction: nat, front': seq<byte>, c': byte)
    requires direction < 4 && IsLetter(c) && IsCode(front) && StepsTo(|front| + 1, direction, c, c')
    requires if c in Borders(|front| + 1, direction) then IsNeighbor(front, direction, front') else front' == front
    ensures IsNeighbor(front + [c], direction, front' + [c'])
  {
    hide Coord, Borders, QuintOf, StepsTo, AxisOf, Along, Up, Quint.Part, Size, IsLetter, IsCode;
    var g := Along(direction);
    var axis := AxisOf(|front| + 1, g);
    LetterStep(|front| + 1, direction, c, c');
    Carried(axis, Coord(front, g), Coord(front', g), QuintOf(c).Part(axis), QuintOf(c').Part(axis), Up(direction));
    CoordNext(front, c, g);
    CoordNext(front', c', g);
    SameOther(front, c, front', c', g);
    MoreCode(front', c');
  }

  lemma LetterStep(length: nat, direction: nat, c: byte, c': byte)
    requires direction < 4 && IsLetter(c) && StepsTo(length, direction, c, c')
    ensures var axis, up := AxisOf(length, Along(direction)), Up(direction);
            && IsLetter(c')
            && QuintOf(c').Part(axis) == Stepped(QuintOf(c).Part(axis), Size(axis), up)
            && QuintOf(c').Part(1 - axis) == QuintOf(c).Part(1 - axis)
            && (c in Borders(length, direction) <==> QuintOf(c).Part(axis) == if up then Size(axis) - 1 else 0)
  {
    hide Borders, QuintOf, IsBorder, AxisOf, Along, Up, Quint.Part, Quint.Move, Quint.Number, Size, IsLetter, Stepped;
    var axis := AxisOf(length, Along(direction));
    TableIs(length, direction);
    QuintIs(c);
    BorderEntry(Borders(length, direction), axis, Up(direction), QuintOf(c));
    MoveParts(QuintOf(c), axis, Up(direction));
  }

  lemma MoreCode(front: seq<byte>, c: byte)
    requires IsCode(front) && IsLetter(c)
    ensures IsCode(front + [c])
  { }

  lemma SameOther(front: seq<byte>, c: byte, front': seq<byte>, c': byte, g: nat)
    requires g < 2 && |front| == |front'| && Coord(front', 1 - g) == Coord(front, 1 - g)
    requires QuintOf(c').Part(1 - AxisOf(|front| + 1, g)) == QuintOf(c).Part(1 - AxisOf(|front| + 1, g))
    ensures Coord(front' + [c'], 1 - g) == Coord(front + [c], 1 - g)
  {
    hide Coord, QuintOf, Quint.Part, Size;
    CoordNext(front, c, 1 - g);
    CoordNext(front', c', 1 - g);
    Axes(|front| + 1, g);
  }

  lemma Axes(length: nat, g: nat)
    requires g < 2
    ensures AxisOf(length, 1 - g) == 1 - AxisOf(length, g)
  { }

  lemma Carried(axis: nat, x: nat, x': nat, p: nat, p': nat, up: bool)
    requires p' == Stepped(p, Size(axis), up)
    requires p == (if up then Size(axis) - 1 else 0) ==> x' == x + if up then 1 else -1
    requires p != (if up then Size(axis) - 1 else 0) ==> x' == x
    ensures Size(axis) * x' + p' == Size(axis) * x + p + if up then 1 else -1
  { }

  function Opposite(direction: nat): nat { if direction < 2 then direction + 2 else direction - 2 }

  // Opposite steps undo each other, and the step back is always possible.
  lemma OppositeUndoes(hash: seq<byte>, direction: nat, r: seq<byte>)
    requires direction < 4 && IsCode(hash) && IsNeighbor(hash, direction, r)
    ensures !AtEdge(r, Opposite(direction))
    ensures forall s :: IsNeighbor(r, Opposite(direction), s) <==> s == hash
  {
    hide Coord, AtEdge, IsCode;
    EdgeIsOutermost(r, Opposite(direction));
    EdgeIsOutermost(hash, Opposite(direction));
    EdgeIsOutermost(hash, direction);
    assert Along(Opposite(direction)) == Along(direction);
    forall s | IsNeighbor(r, Opposite(direction), s) ensures s == hash
    {
      CoordInjective(s, hash);
    }
  }

  // A step north or south moves the box by its height, one east or west by its width.
  lemma NeighborBox(hash: seq<byte>, direction: nat, r: seq<byte>)
    requires direction < 4 && IsNeighbor(hash, direction, r)
    ensures var b, b' := Cell(BitsOf(hash)), Cell(BitsOf(r));
            match direction
            case 0 => b'.lng == b.lng && b'.lat.low == b.lat.high && b'.lat.high - b'.lat.low == b.lat.high - b.lat.low
            case 1 => b'.lat == b.lat && b'.lng.low == b.lng.high && b'.lng.high - b'.lng.low == b.lng.high - b.lng.low
            case 2 => b'.lng == b.lng && b'.lat.high == b.lat.low && b'.lat.high - b'.lat.low == b.lat.high - b.lat.low
            case _ => b'.lat == b.lat && b'.lng.high == b.lng.low && b'.lng.high - b'.lng.low == b.lng.high - b.lng.low
  {
    hide Cell, Index, BitsOf, Halved;
    CellGrid(BitsOf(hash));
    CellGrid(BitsOf(r));
    CellSides(BitsOf(hash), |hash|);
    CellSides(BitsOf(r), |hash|);
  }

  // etdb_geo_hash_neighbors: N, NE, E, SE, S, SW, W, NW
  method AllNeighbors(hash: array<byte>, charAmount: nat, neighbors: seq<array<byte>>)
    requires |neighbors| == 8 && charAmount <= hash.Length
    requires forall i :: 0 <= i < 8 ==> charAmount <= neighbors[i].Length && neighbors[i] != hash
    requires forall i, j :: 0 <= i < j < 8 ==> neighbors[i] != neighbors[j]
    requires IsCode(hash[..charAmount]) && forall d :: 0 <= d < 4 ==> !AtEdge(hash[..charAmount], d)
    modifies neighbors
    ensures forall i, g :: 0 <= i < 8 && 0 <= g < 2 ==>
              Offset(hash[..charAmount], neighbors[i][..charAmount], g, AROUND[i][g])
  {
    hide AtEdge, IsCode, Coord;
    ghost var h := hash[..charAmount];
    GetNeighbor(hash, charAmount, NORTH, neighbors[0]);
    StillInside(h, NORTH, neighbors[0][..charAmount]);
    GetNeighbor(neighbors[0], charAmount, EAST, neighbors[1]);
    GetNeighbor(hash, charAmount, EAST, neighbors[2]);
    StillInside(h, EAST, neighbors[2][..charAmount]);
    GetNeighbor(neighbors[2], charAmount, SOUTH, neighbors[3]);
    GetNeighbor(hash, charAmount, SOUTH, neighbors[4]);
    StillInside(h, SOUTH, neighbors[4][..charAmount]);
    GetNeighbor(neighbors[4], charAmount, WEST, neighbors[5]);
    GetNeighbor(hash, charAmount, WEST, neighbors[6]);
    StillInside(h, WEST, neighbors[6][..charAmount]);
    GetNeighbor(neighbors[6], charAmount, NORTH, neighbors[7]);
  }

  // Columns east and rows north of the start.
  const AROUND: seq<seq<int>> := [[0, 1], [1, 1], [1, 0], [1, -1], [0, -1], [-1, -1], [-1, 0], [-1, 1]]

  ghost predicate Offset(hash: seq<byte>, r: seq<byte>, g: nat, steps: int)
  {
    IsCode(r) && Coord(r, g) == Coord(hash, g) + steps
  }

  lemma StillInside(hash: seq<byte>, direction: nat, r: seq<byte>)
    requires direction < 4 && IsCode(hash) && IsNeighbor(hash, direction, r)
    ensures forall d :: 0 <= d < 4 && Along(d) != Along(direction) ==> AtEdge(r, d) == AtEdge(hash, d)
  {
    hide AtEdge, IsCode, Coord;
    forall d | 0 <= d < 4 && Along(d) != Along(direction) ensures AtEdge(r, d) == AtEdge(hash, d)
    {
      EdgeIsOutermost(r, d);
      EdgeIsOutermost(hash, d);
    }
  }
}
