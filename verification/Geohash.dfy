// Geohash codes over exact coordinates: interval halving, box geometry, and the
// smallest code prefix covering a rectangle.
module Geohash {
  import opened Basics
  import opened Bits

  const MAX_LAT := 90.0
  const MIN_LAT := -90.0
  const MAX_LONG := 180.0
  const MIN_LONG := -180.0

  // "0123456789bcdefghjkmnpqrstuvwxyz"
  const CHAR_MAP: seq<byte> := [48, 49, 50, 51, 52, 53, 54, 55, 56, 57, 98, 99, 100, 101, 102, 103,
                                104, 106, 107, 109, 110, 112, 113, 114, 115, 116, 117, 118, 119, 120, 121, 122]

  datatype Interval = Interval(low: real, high: real)
  datatype Box = Box(lat: Interval, lng: Interval)

  function Mid(i: Interval): real { (i.low + i.high) / 2.0 }

  function Halve(i: Interval, upper: bool): Interval
  {
    if upper then Interval(Mid(i), i.high) else Interval(i.low, Mid(i))
  }

  // Bit number n of a code (counted from 0) halves longitude if n is even.
  function HalveBox(b: Box, n: nat, upper: bool): Box
  {
    if n % 2 == 0 then b.(lng := Halve(b.lng, upper)) else b.(lat := Halve(b.lat, upper))
  }

  const WORLD := Box(Interval(MIN_LAT, MAX_LAT), Interval(MIN_LONG, MAX_LONG))

  // The box that a bit string denotes.
  function Cell(bits: seq<bool>): Box
  {
    if bits == [] then WORLD
    else HalveBox(Cell(bits[..|bits| - 1]), |bits| - 1, bits[|bits| - 1])
  }

  function Side(b: Box, n: nat): Interval { if n % 2 == 0 then b.lng else b.lat }

  // The first n bits of a point's code.
  function PointBits(lat: real, lng: real, n: nat): (bits: seq<bool>)
    ensures |bits| == n
  {
    if n == 0 then []
    else
      var b := PointBits(lat, lng, n - 1);
      b + [(if (n - 1) % 2 == 0 then lng else lat) > Mid(Side(Cell(b), n - 1))]
  }

  predicate OnEarth(lat: real, lng: real)
  {
    MIN_LAT <= lat <= MAX_LAT && MIN_LONG <= lng <= MAX_LONG
  }

  predicate Inside(lat: real, lng: real, b: Box)
  {
    b.lat.low <= lat <= b.lat.high && b.lng.low <= lng <= b.lng.high
  }

  // Five bits as a number, most significant first.
  function Value(bits: seq<bool>): nat
  {
    if bits == [] then 0 else 2 * Value(bits[..|bits| - 1]) + (if bits[|bits| - 1] then 1 else 0)
  }

  lemma {:induction false} ValueBound(bits: seq<bool>)
    ensures |bits| <= 5 ==> Value(bits) < 32
    ensures |bits| <= 4 ==> Value(bits) < 16
    ensures |bits| <= 3 ==> Value(bits) < 8
    ensures |bits| <= 2 ==> Value(bits) < 4
    ensures |bits| <= 1 ==> Value(bits) < 2
  {
    if bits != [] { ValueBound(bits[..|bits| - 1]); }
  }

  function Letter(bits: seq<bool>): byte
    requires |bits| == 5
  {
    ValueBound(bits);
    CHAR_MAP[Value(bits)]
  }

  // The code of a bit string whose length is a multiple of five.
  function CodeOf(bits: seq<bool>, p: nat): (code: seq<byte>)
    requires |bits| >= 5 * p
    ensures |code| == p
  {
    seq(p, j requires 0 <= j < p => Letter(bits[5 * j..5 * j + 5]))
  }

  function Code(lat: real, lng: real, p: nat): (code: seq<byte>)
    ensures |code| == p
  {
    CodeOf(PointBits(lat, lng, 5 * p), p)
  }

  // ------------------------------------------------------------------- encoding

  lemma {:induction false} PointBitsPrefix(lat: real, lng: real, m: nat, n: nat)
    requires m <= n
    ensures PointBits(lat, lng, n)[..m] == PointBits(lat, lng, m)
  {
    if m < n { PointBitsPrefix(lat, lng, m, n - 1); }
  }

  // Shorter codes are prefixes of longer ones.
  lemma CodePrefix(lat: real, lng: real, p: nat, q: nat)
    requires p <= q
    ensures Code(lat, lng, q)[..p] == Code(lat, lng, p)
  {
    PointBitsPrefix(lat, lng, 5 * p, 5 * q);
    var b, c := PointBits(lat, lng, 5 * q), PointBits(lat, lng, 5 * p);
    forall j | 0 <= j < p ensures b[5 * j..5 * j + 5] == c[5 * j..5 * j + 5]
    {
      assert b[..5 * p][5 * j..5 * j + 5] == b[5 * j..5 * j + 5];
    }
  }

  // The box of a point's code holds the point.
  lemma {:induction false} PointInside(lat: real, lng: real, n: nat)
    requires OnEarth(lat, lng)
    ensures Inside(lat, lng, Cell(PointBits(lat, lng, n)))
  {
    if n > 0 {
      PointInside(lat, lng, n - 1);
      var b := PointBits(lat, lng, n);
      assert b[..n - 1] == PointBits(lat, lng, n - 1);
    }
  }

  // Where the encoder stands after n bits, of which the last n - 5q belong to an unfinished letter.
  ghost predicate Encoding(lat: real, lng: real, n: nat, q: nat, box: Box, hashChar: nat)
  {
    var bits := PointBits(lat, lng, n);
    5 * q <= n && Cell(bits) == box && hashChar == Value(bits[5 * q..])
  }

  lemma NextBit(lat: real, lng: real, n: nat, q: nat, box: Box, hashChar: nat)
    requires Encoding(lat, lng, n, q, box, hashChar)
    ensures var upper := (if n % 2 == 0 then lng else lat) > Mid(Side(box, n));
            Encoding(lat, lng, n + 1, q, HalveBox(box, n, upper), 2 * hashChar + (if upper then 1 else 0))
  {
    hide Cell, Value, HalveBox, Mid, Side;
    var b := PointBits(lat, lng, n);
    var upper := (if n % 2 == 0 then lng else lat) > Mid(Side(box, n));
    CellNext(b, upper);
    ValueNext(b[5 * q..], upper);
    assert (b + [upper])[5 * q..] == b[5 * q..] + [upper];
  }

  lemma CellNext(bits: seq<bool>, b: bool)
    ensures Cell(bits + [b]) == HalveBox(Cell(bits), |bits|, b)
  {
    assert (bits + [b])[..|bits|] == bits;
  }

  lemma ValueNext(bits: seq<bool>, b: bool)
    ensures Value(bits + [b]) == 2 * Value(bits) + (if b then 1 else 0)
  {
    assert (bits + [b])[..|bits|] == bits;
  }

  lemma LastBit(lat: real, lng: real, q: nat, box: Box, hashChar: nat)
    requires Encoding(lat, lng, 5 * q + 5, q, box, hashChar)
    ensures hashChar < 32 && Code(lat, lng, q + 1) == Code(lat, lng, q) + [CHAR_MAP[hashChar]]
    ensures Encoding(lat, lng, 5 * q + 5, q + 1, box, 0)
  {
    hide Value, Cell;
    var bits := PointBits(lat, lng, 5 * q + 5);
    ValueBound(bits[5 * q..]);
    CodePrefix(lat, lng, q, q + 1);
    assert bits[5 * q..5 * q + 5] == bits[5 * q..];
    assert bits[5 * (q + 1)..] == [];
    assert Value([]) == 0 by { ValueOfNone(); }
    assert Code(lat, lng, q + 1)[q] == Letter(bits[5 * q..]);
  }

  lemma ValueOfNone()
    ensures Value([]) == 0
  { }

  // The precision that encoding works with.
  function Clamp(precision: int): nat { if precision < 1 || precision > 12 then 6 else precision }

  // The buffer with a code written into it.
  function Written(was: seq<byte>, start: nat, code: seq<byte>): (now: seq<byte>)
    requires start + |code| <= |was|
    ensures |now| == |was|
  {
    was[..start] + code + was[start + |code|..]
  }

  lemma NothingWritten(was: seq<byte>, start: nat)
    requires start <= |was|
    ensures Written(was, start, []) == was
  { }

  // One more character goes into the buffer.
  method Put(hash: array<byte>, start: nat, n: nat, c: byte, ghost was: seq<byte>, ghost code: seq<byte>)
    requires |code| == n && start + n < |was| && hash[..] == Written(was, start, code)
    modifies hash
    ensures hash[..] == Written(was, start, code + [c])
  {
    hash[start + n] := c;
    assert hash[..] == Written(was, start, code)[start + n := c];
  }

  // etdb_geo_hash_encode
  method Encode(lat: real, lng: real, hash: array<byte>, start: nat, precision: int)
    requires hash.Length >= start + Clamp(precision)
    modifies hash
    ensures OnEarth(lat, lng) ==> hash[..] == Written(old(hash[..]), start, Code(lat, lng, Clamp(precision)))
    ensures !OnEarth(lat, lng) ==> hash[..] == old(hash[..])
  {
    hide Encoding, Code, Written, Side, HalveBox, Halve, Mid;
    var p := precision;
    if precision < 1 || precision > 12 {
      p := 6;
    }
    if lat <= 90.0 && lat >= -90.0 && lng <= 180.0 && lng >= -180.0 {
      var len := p * 5;
      var box := Box(Interval(MIN_LAT, MAX_LAT), Interval(MIN_LONG, MAX_LONG));
      var isEven := true;
      var hashChar: nat := 0;
      ghost var q, was := 0, hash[..];
      Begin(lat, lng);
      NothingWritten(was, start);
      var i := 1;
      while i <= len
        invariant 1 <= i <= len + 1 && isEven == ((i - 1) % 2 == 0)
        invariant 5 * q <= i - 1 < 5 * q + 5 && q <= p
        invariant Encoding(lat, lng, i - 1, q, box, hashChar)
        invariant hash[..] == Written(was, start, Code(lat, lng, q))
      {
        EncodeStep(lat, lng, i - 1, q, box, hashChar, isEven);
        Fifth(i, q);
        var interval, coord := if isEven then box.lng else box.lat, if isEven then lng else lat;
        var mid := (interval.low + interval.high) / 2.0;
        hashChar := 2 * hashChar;
        if coord > mid {
          interval := interval.(low := mid);
          hashChar := hashChar + 1;
        } else {
          interval := interval.(high := mid);
        }
        box := if isEven then box.(lng := interval) else box.(lat := interval);
        if i % 5 == 0 {
          LastBit(lat, lng, q, box, hashChar);
          Put(hash, start, (i - 1) / 5, CHAR_MAP[hashChar], was, Code(lat, lng, q));
          hashChar := 0;
          q := q + 1;
        }
        isEven := !isEven;
        i := i + 1;
      }
    }
  }

  lemma EncodeStep(lat: real, lng: real, n: nat, q: nat, box: Box, hashChar: nat, isEven: bool)
    requires Encoding(lat, lng, n, q, box, hashChar) && isEven == (n % 2 == 0)
    ensures var coord, i := if isEven then lng else lat, if isEven then box.lng else box.lat;
            var mid := (i.low + i.high) / 2.0;
            var next := if coord > mid then i.(low := mid) else i.(high := mid);
            var hashChar' := 2 * hashChar + (if coord > mid then 1 else 0);
            Encoding(lat, lng, n + 1, q, if isEven then box.(lng := next) else box.(lat := next), hashChar')
  {
    hide Encoding;
    NextBit(lat, lng, n, q, box, hashChar);
  }

  lemma Fifth(i: nat, q: nat)
    requires 5 * q < i <= 5 * q + 5
    ensures (i % 5 == 0) == (i == 5 * q + 5) && (i - 1) / 5 == q
  { }

  lemma Begin(lat: real, lng: real)
    ensures Encoding(lat, lng, 0, 0, WORLD, 0) && Code(lat, lng, 0) == []
  { }

  // ------------------------------------------------------------------- decoding

  // etdb_geo_hash_index_for_char
  method IndexForChar(c: byte, s: seq<byte>) returns (index: int)
    ensures -1 <= index < |s|
    ensures index == -1 ==> c !in s
    ensures index >= 0 ==> s[index] == c && c !in s[..index]
  {
    index := -1;
    var i := 0;
    while i < |s|
      invariant 0 <= i <= |s| && index == -1 && c !in s[..i]
    {
      if c == s[i] {
        index := i;
        break;
      }
      i := i + 1;
    }
  }

  lemma LettersDistinct()
    ensures forall i, j :: 0 <= i < j < 32 ==> CHAR_MAP[i] < CHAR_MAP[j]
  { }

  // The five bits a character contributes, as a number; a character outside the alphabet reads as all ones.
  ghost function Digit(c: byte): (d: nat)
    ensures d < 32 && (if c in CHAR_MAP then CHAR_MAP[d] == c else d == 31)
  {
    if c in CHAR_MAP then var k :| 0 <= k < 32 && CHAR_MAP[k] == c; k else 31
  }

  // The n low bits of a number, most significant first.
  function Low(d: nat, n: nat): (bits: seq<bool>)
    ensures |bits| == n
  {
    if n == 0 then [] else Low(d / 2, n - 1) + [d % 2 == 1]
  }

  // The bits that a string of characters stands for.
  ghost function BitsOf(hash: seq<byte>): (bits: seq<bool>)
    ensures |bits| == 5 * |hash|
  {
    if hash == [] then [] else BitsOf(hash[..|hash| - 1]) + Low(Digit(hash[|hash| - 1]), 5)
  }

  lemma {:induction false} LowOfValue(bits: seq<bool>)
    ensures Low(Value(bits), |bits|) == bits
  {
    if bits != [] {
      var n := |bits| - 1;
      LowOfValue(bits[..n]);
      assert Value(bits) / 2 == Value(bits[..n]);
    }
  }

  lemma {:induction false} ValueOfLow(d: nat, n: nat)
    requires d < Power(n)
    ensures Value(Low(d, n)) == d
  {
    if n > 0 {
      ValueOfLow(d / 2, n - 1);
      ValueNext(Low(d / 2, n - 1), d % 2 == 1);
    }
  }

  // Reading back the characters of a bit string gives the bit string.
  lemma {:induction false} BitsOfCode(bits: seq<bool>, p: nat)
    requires |bits| >= 5 * p
    ensures BitsOf(CodeOf(bits, p)) == bits[..5 * p]
  {
    hide Low, Value, Digit, Letter, CodeOf, BitsOf;
    if p == 0 {
      NoCode(bits);
    } else {
      BitsOfCode(bits, p - 1);
      CodeNext(bits, p - 1);
      BitsOfNext(CodeOf(bits, p - 1), Letter(bits[5 * p - 5..5 * p]));
      ReadLetter(bits[5 * p - 5..5 * p]);
      assert bits[..5 * p] == bits[..5 * p - 5] + bits[5 * p - 5..5 * p];
    }
  }

  lemma NoCode(bits: seq<bool>)
    ensures BitsOf(CodeOf(bits, 0)) == bits[..0]
  { }

  lemma CodeNext(bits: seq<bool>, p: nat)
    requires |bits| >= 5 * p + 5
    ensures CodeOf(bits, p + 1) == CodeOf(bits, p) + [Letter(bits[5 * p..5 * p + 5])]
  { }

  lemma BitsOfNext(hash: seq<byte>, c: byte)
    ensures BitsOf(hash + [c]) == BitsOf(hash) + Low(Digit(c), 5)
  {
    assert (hash + [c])[..|hash|] == hash;
  }

  lemma ReadLetter(five: seq<bool>)
    requires |five| == 5
    ensures Low(Digit(Letter(five)), 5) == five
  {
    ValueBound(five);
    LettersDistinct();
    LowOfValue(five);
  }

  predicate IsLetter(c: byte) { c in CHAR_MAP }

  predicate IsCode(hash: seq<byte>) { forall c :: c in hash ==> IsLetter(c) }

  // Different codes of one length stand for different bit strings.
  lemma {:induction false} BitsOfInjective(a: seq<byte>, b: seq<byte>)
    requires IsCode(a) && IsCode(b) && BitsOf(a) == BitsOf(b)
    ensures a == b
  {
    hide BitsOf, Low, Digit;
    assert |a| == |b|;
    if a != [] {
      var n := |a| - 1;
      assert a == a[..n] + [a[n]] && b == b[..n] + [b[n]];
      BitsOfNext(a[..n], a[n]);
      BitsOfNext(b[..n], b[n]);
      var x, y := BitsOf(a), BitsOf(b);
      assert x[..5 * n] == BitsOf(a[..n]) && y[..5 * n] == BitsOf(b[..n]);
      assert Low(Digit(a[n]), 5) == x[5 * n..] && Low(Digit(b[n]), 5) == y[5 * n..];
      BitsOfInjective(a[..n], b[..n]);
      DigitInjective(a[n], b[n]);
    }
  }

  lemma DigitInjective(c: byte, d: byte)
    requires IsLetter(c) && IsLetter(d) && Low(Digit(c), 5) == Low(Digit(d), 5)
    ensures c == d
  {
    LowInjective(Digit(c), Digit(d), 5, 32);
  }

  lemma {:induction false} LowInjective(d: nat, e: nat, n: nat, bound: nat)
    requires d < bound && e < bound && Low(d, n) == Low(e, n) && bound == Power(n)
    ensures d == e
  {
    if n > 0 {
      var x, y := Low(d, n), Low(e, n);
      assert x[..n - 1] == Low(d / 2, n - 1) && y[..n - 1] == Low(e / 2, n - 1);
      assert x[n - 1] == y[n - 1];
      LowInjective(d / 2, e / 2, n - 1, bound / 2);
    }
  }

  // The decoded box of a point's code is the cell the encoder ended in, and it holds the point.
  lemma DecodeEncode(lat: real, lng: real, p: nat)
    requires OnEarth(lat, lng)
    ensures BitsOf(Code(lat, lng, p)) == PointBits(lat, lng, 5 * p)
    ensures Inside(lat, lng, Cell(BitsOf(Code(lat, lng, p))))
  {
    BitsOfCode(PointBits(lat, lng, 5 * p), p);
    PointInside(lat, lng, 5 * p);
  }

  datatype Coordinate = Coordinate(latitude: real, longitude: real, north: real, east: real, south: real, west: real)

  // etdb_geo_hash_decode
  method Decode(hash: array?<byte>, charAmount: nat) returns (r: Coordinate)
    requires hash != null ==> charAmount <= hash.Length
    ensures hash == null || charAmount == 0 ==> r == Coordinate(0.0, 0.0, 0.0, 0.0, 0.0, 0.0)
    ensures hash != null && charAmount > 0 ==>
              var b := Cell(BitsOf(hash[..charAmount]));
              r == Coordinate(Mid(b.lat), Mid(b.lng), b.lat.high, b.lng.high, b.lat.low, b.lng.low)
  {
    hide Low, Digit, BitsOf, Cell;
    r := Coordinate(0.0, 0.0, 0.0, 0.0, 0.0, 0.0);
    if hash != null && charAmount != 0 {
      var box := Box(Interval(MIN_LAT, MAX_LAT), Interval(MIN_LONG, MAX_LONG));
      var isEven := true;
      CellOfNone();
      var i := 0;
      while i < charAmount
        invariant 0 <= i <= charAmount && isEven == (i % 2 == 0)
        invariant Cell(BitsOf(hash[..i])) == box
      {
        var index := IndexForChar(hash[i], CHAR_MAP);
        DigitIs(hash[i], index);
        BitsOfNext(hash[..i], hash[i]);
        assert hash[..i + 1] == hash[..i] + [hash[i]];
        box, isEven := Narrow(box, isEven, if index == -1 then 31 else index, BitsOf(hash[..i]));
        i := i + 1;
      }
      r := Coordinate(box.lat.high - (box.lat.high - box.lat.low) / 2.0,
                      box.lng.high - (box.lng.high - box.lng.low) / 2.0,
                      box.lat.high, box.lng.high, box.lat.low, box.lng.low);
    }
  }

  lemma CellOfNone()
    ensures Cell(BitsOf([])) == WORLD
  { }

  lemma DigitIs(c: byte, index: int)
    requires -1 <= index < 32 && (index == -1 ==> c !in CHAR_MAP) && (index >= 0 ==> CHAR_MAP[index] == c)
    ensures Digit(c) == if index == -1 then 31 else index
  {
    LettersDistinct();
  }

  // The five steps that one character of the code takes.
  method Narrow(box: Box, even: bool, index: nat, ghost bits: seq<bool>) returns (r: Box, isEven: bool)
    requires Cell(bits) == box && even == (|bits| % 2 == 0)
    ensures Cell(bits + Low(index, 5)) == r && isEven == !even
  {
    hide Low, Cell, Shifted;
    r, isEven := box, even;
    var shifted, j := index, 0;
    LowParts(bits, index);
    assert Shifted(index, 0) == index by { Unshifted(index); }
    while j < 5
      invariant 0 <= j <= 5 && isEven == ((|bits| + j) % 2 == 0)
      invariant shifted == Shifted(index, j)
      invariant Cell(bits + Low(index, 5)[..j]) == r
    {
      NarrowStep(bits, index, j);
      NextShift(index, j);
      var interval := if isEven then r.lng else r.lat;
      var delta := (interval.high - interval.low) / 2.0;
      if shifted / 16 % 2 == 1 {
        interval := interval.(low := interval.low + delta);
      } else {
        interval := interval.(high := interval.high - delta);
      }
      r := if isEven then r.(lng := interval) else r.(lat := interval);
      isEven := !isEven;
      j := j + 1;
      shifted := 2 * shifted; // << 1
    }
  }

  lemma LowParts(bits: seq<bool>, index: nat)
    ensures bits + Low(index, 5)[..0] == bits && Low(index, 5)[..5] == Low(index, 5)
  { }

  lemma NarrowStep(bits: seq<bool>, d: nat, j: nat)
    requires j < 5
    ensures Cell(bits + Low(d, 5)[..j + 1]) ==
            HalveBox(Cell(bits + Low(d, 5)[..j]), |bits| + j, Shifted(d, j) / 16 % 2 == 1)
  {
    hide Low, Shifted, HalveBox, Cell;
    assert bits + Low(d, 5)[..j + 1] == bits + Low(d, 5)[..j] + [Low(d, 5)[j]];
    CellNext(bits + Low(d, 5)[..j], Low(d, 5)[j]);
    ShiftedLow(d, 5, j, 0);
    TopBit(Shifted(d, j));
  }

  function Shifted(d: nat, j: nat): nat { if j == 0 then d else 2 * Shifted(d, j - 1) }

  lemma Unshifted(d: nat)
    ensures Shifted(d, 0) == d
  { }

  lemma NextShift(d: nat, j: nat)
    ensures Shifted(d, j + 1) == 2 * Shifted(d, j)
  { }

  // Shifting left by j brings bit j from the top to the place that 0x10 tests.
  lemma {:induction false} ShiftedLow(d: nat, n: nat, j: nat, i: nat)
    requires i + j < n
    ensures Low(Shifted(d, j), n)[i] == Low(d, n)[i + j]
  {
    if j > 0 {
      ShiftedLow(d, n, j - 1, i + 1);
      DoubledLow(Shifted(d, j - 1), n, i);
    }
  }

  lemma {:induction false} DoubledLow(d: nat, n: nat, i: nat)
    requires i + 1 < n
    ensures Low(2 * d, n)[i] == Low(d, n)[i + 1]
  {
    assert Low(2 * d, n) == Low(d, n - 1) + [false];
    FewerLow(d, n - 1, i);
  }

  lemma {:induction false} FewerLow(d: nat, n: nat, i: nat)
    requires i < n
    ensures Low(d, n)[i] == Low(d, n + 1)[i + 1]
  {
    if i < n - 1 { FewerLow(d / 2, n - 1, i); }
  }

  lemma TopBit(d: nat)
    ensures Low(d, 5)[0] == (d / 16 % 2 == 1)
  {
    var a, b, c, e := d / 2, d / 4, d / 8, d / 16;
    assert Low(d, 5)[0] == Low(a, 4)[0];
    assert a / 2 == b && Low(a, 4)[0] == Low(b, 3)[0];
    assert b / 2 == c && Low(b, 3)[0] == Low(c, 2)[0];
    assert c / 2 == e && Low(c, 2)[0] == Low(e, 1)[0];
  }

  // ------------------------------------------------------------------- geometry

  function Halved(x: real, k: nat): real
  {
    if k == 0 then x else Halved(x, k - 1) / 2.0
  }

  // The columns and rows of a code's cell, counted from the south-west corner of the world.
  function Column(bits: seq<bool>): nat { Index(bits, 0) }

  function Row(bits: seq<bool>): nat { Index(bits, 1) }

  function Index(bits: seq<bool>, axis: nat): nat
  {
    if bits == [] then 0
    else
      var n := |bits| - 1;
      var i := Index(bits[..n], axis);
      if n % 2 == axis then 2 * i + (if bits[n] then 1 else 0) else i
  }

  // A cell is one square of a regular grid.
  lemma {:induction false} CellGrid(bits: seq<bool>)
    ensures var w, h := Halved(360.0, (|bits| + 1) / 2), Halved(180.0, |bits| / 2);
            var x, y := Column(bits) as real, Row(bits) as real;
            Cell(bits) == Box(Interval(y * h - 90.0, (y + 1.0) * h - 90.0),
                Interval(x * w - 180.0, (x + 1.0) * w - 180.0))
  {
    if bits != [] {
      var n := |bits| - 1;
      CellGrid(bits[..n]);
    }
  }

  lemma {:induction false} SidesHalve(bits: seq<bool>)
    ensures Cell(bits).lat.high - Cell(bits).lat.low == Halved(180.0, |bits| / 2)
    ensures Cell(bits).lng.high - Cell(bits).lng.low == Halved(360.0, (|bits| + 1) / 2)
  {
    if bits != [] { SidesHalve(bits[..|bits| - 1]); }
  }

  lemma CellSides(bits: seq<bool>, precision: nat)
    requires |bits| == 5 * precision
    ensures Cell(bits).lat.high - Cell(bits).lat.low == Halved(180.0, precision * 5 / 2)
    ensures Cell(bits).lng.high - Cell(bits).lng.low == Halved(360.0, precision * 5 / 2 + precision % 2)
  {
    hide Cell, Halved;
    SidesHalve(bits);
    assert (5 * precision + 1) / 2 == precision * 5 / 2 + precision % 2;
  }

  lemma HalvedNone()
    ensures Halved(180.0, 0) == 180.0 && Halved(360.0, 0) == 360.0
  { }

  lemma HalvedMore(x: real, k: nat)
    ensures Halved(x, k + 1) == Halved(x, k) / 2.0
  { }

  datatype Dimension = Dimension(height: real, width: real)

  // etdb_geo_hash_dimensions_for_precision: the sides of every cell of that precision.
  method DimensionsForPrecision(precision: int) returns (r: Dimension)
    ensures precision <= 0 ==> r == Dimension(0.0, 0.0)
    ensures forall bits: seq<bool> :: precision > 0 && |bits| == 5 * precision ==>
              var b := Cell(bits);
              r == Dimension(b.lat.high - b.lat.low, b.lng.high - b.lng.low)
  {
    hide Cell, Halved;
    r := Dimension(0.0, 0.0);
    HalvedNone();
    if precision > 0 {
      var latTimesToCut := precision * 5 / 2;
      var lngTimesToCut := precision * 5 / 2 + (if precision % 2 == 1 then 1 else 0);
      var width := 360.0;
      var height := 180.0;
      for i := 0 to latTimesToCut
        invariant height == Halved(180.0, i)
      {
        HalvedMore(180.0, i);
        height := height / 2.0;
      }
      for i := 0 to lngTimesToCut
        invariant width == Halved(360.0, i)
      {
        HalvedMore(360.0, i);
        width := width / 2.0;
      }
      r := Dimension(height, width);
      forall bits: seq<bool> | |bits| == 5 * precision
        ensures r == Dimension(Cell(bits).lat.high - Cell(bits).lat.low, Cell(bits).lng.high - Cell(bits).lng.low)
      {
        CellSides(bits, precision);
      }
    }
  }

  // ---------------------------------------------------------------------- cover

  // The lines through the low corner's first m cells that the rectangle would have to cross.
  ghost predicate Clear(r: Box, m: nat)
  {
    var mid := Mid(Side(Cell(PointBits(r.lat.low, r.lng.low, m)), m));
    Side(r, m).low > mid || Side(r, m).high < mid
  }

  // No line that the first n halvings draw touches the rectangle.
  ghost predicate Uncut(r: Box, n: nat)
  {
    forall m | 0 <= m < n :: Clear(r, m)
  }

  // Then all its points share n bits.
  lemma {:induction false} UncutShares(r: Box, n: nat, lat: real, lng: real)
    requires Uncut(r, n) && Inside(lat, lng, r)
    ensures PointBits(lat, lng, n) == PointBits(r.lat.low, r.lng.low, n)
  {
    if n > 0 {
      UncutShares(r, n - 1, lat, lng);
      assert Clear(r, n - 1);
    }
  }

  // And if some line does touch it, then its opposite corners get different codes, or a line
  // runs along its north or east edge.
  lemma {:induction false} CutDiffers(r: Box, n: nat)
    requires !Uncut(r, n) && r.lat.low <= r.lat.high && r.lng.low <= r.lng.high
    ensures PointBits(r.lat.low, r.lng.low, n) != PointBits(r.lat.high, r.lng.high, n) || exists m: nat ::
              m < n && Along(r, m)
  {
    hide PointBits, Clear, Along;
    if n > 0 {
      if !Uncut(r, n - 1) {
        CutDiffers(r, n - 1);
        PointBitsPrefix(r.lat.low, r.lng.low, n - 1, n);
        PointBitsPrefix(r.lat.high, r.lng.high, n - 1, n);
      } else {
        UncutShares(r, n - 1, r.lat.high, r.lng.high);
        FirstCut(r, n - 1);
      }
    }
  }

  ghost predicate Along(r: Box, m: nat)
  {
    Side(r, m).high == Mid(Side(Cell(PointBits(r.lat.low, r.lng.low, m)), m))
  }

  // So the corners alone tell.
  lemma UncutIff(r: Box, n: nat)
    requires r.lat.low <= r.lat.high && r.lng.low <= r.lng.high
    ensures Uncut(r, n) <==>
              PointBits(r.lat.low, r.lng.low, n) == PointBits(r.lat.high, r.lng.high, n) && forall m: nat :: m < n ==>
                  !Along(r, m)
  {
    hide PointBits, Cell, Mid;
    if Uncut(r, n) {
      UncutShares(r, n, r.lat.high, r.lng.high);
      forall m: nat | m < n ensures !Along(r, m) { assert Clear(r, m); }
    } else {
      CutDiffers(r, n);
    }
  }

  lemma FirstCut(r: Box, n: nat)
    requires !Clear(r, n) && PointBits(r.lat.low, r.lng.low, n) == PointBits(r.lat.high, r.lng.high, n)
    ensures PointBits(r.lat.low, r.lng.low, n + 1) != PointBits(r.lat.high, r.lng.high, n + 1) || Along(r, n)
  {
    hide Cell;
    var p, q := PointBits(r.lat.low, r.lng.low, n + 1), PointBits(r.lat.high, r.lng.high, n + 1);
    assert p[n] == (Side(r, n).low > Mid(Side(Cell(p[..n]), n)));
    assert q[n] == (Side(r, n).high > Mid(Side(Cell(q[..n]), n)));
  }

  function Sorted(a: real, b: real): Interval { if a > b then Interval(b, a) else Interval(a, b) }

  // One bit of the cover, or a line that cuts the rectangle.
  method CoverBit(range: Interval, box: Box, isEven: bool, hashChar: nat, ghost r: Box, ghost n: nat, ghost q: nat)
    returns (box': Box, hashChar': nat, cut: bool)
    requires Encoding(r.lat.low, r.lng.low, n, q, box, hashChar) && Uncut(r, n) && n < 5 * q + 5
    requires isEven == (n % 2 == 0) && range == if isEven then r.lng else r.lat
    ensures !cut ==> Uncut(r, n + 1) && Encoding(r.lat.low, r.lng.low, n + 1, q, box', hashChar')
    ensures cut ==> Uncut(r, 5 * q) && !Uncut(r, 5 * q + 5)
  {
    hide Encoding, Uncut;
    CoverStep(r, n, q, box, hashChar, isEven);
    var interval := if isEven then box.lng else box.lat;
    var mid := (interval.low + interval.high) / 2.0;
    hashChar', cut := 2 * hashChar, false;
    if range.low > mid {
      interval := interval.(low := mid);
      hashChar' := hashChar' + 1;
    } else if range.high < mid {
      interval := interval.(high := mid);
    } else {
      cut := true;
    }
    box' := if isEven then box.(lng := interval) else box.(lat := interval);
  }

  // etdb_geo_hash_get_max_cover: the longest code, of at most the given precision, whose lines do
  // not touch the rectangle. The precision is set only when a character is committed.
  method GetMaxCover(lat1: real, lat2: real, lng1: real, lng2: real, hash: array<byte>, start: nat, precision: nat)
    returns (newPrecision: nat, ghost chars: nat)
    requires hash.Length >= start + precision
    modifies hash
    ensures chars <= precision && newPrecision == (if chars == 0 then precision else chars)
    ensures var r := Box(Sorted(lat1, lat2), Sorted(lng1, lng2));
            && Uncut(r, 5 * chars) && (chars < precision ==> !Uncut(r, 5 * chars + 5))
            && hash[..] == Written(old(hash[..]), start, Code(r.lat.low, r.lng.low, chars))
  {
    hide Encoding, Code, Uncut, Written, Clamp, IsLetter, Power;
    var latRange := if lat1 > lat2 then Interval(lat2, lat1) else Interval(lat1, lat2);
    var lngRange := if lng1 > lng2 then Interval(lng2, lng1) else Interval(lng1, lng2);
    ghost var r, was := Box(latRange, lngRange), hash[..];
    newPrecision, chars := precision, 0;
    var box := Box(Interval(MIN_LAT, MAX_LAT), Interval(MIN_LONG, MAX_LONG));
    var isEven := true;
    var hashChar: nat := 0;
    Begin(latRange.low, lngRange.low);
    NoLine(r);
    NothingWritten(was, start);
    var len := precision * 5;
    var i := 1;
    while i <= len
      invariant 1 <= i <= len + 1 && isEven == ((i - 1) % 2 == 0)
      invariant 5 * chars <= i - 1 < 5 * chars + 5 && chars <= precision
      invariant newPrecision == (if chars == 0 then precision else chars)
      invariant Encoding(latRange.low, lngRange.low, i - 1, chars, box, hashChar)
      invariant Uncut(r, i - 1)
      invariant hash[..] == Written(was, start, Code(latRange.low, lngRange.low, chars))
    {
      var cut;
      box, hashChar, cut := CoverBit(if isEven then lngRange else latRange, box, isEven, hashChar, r, i - 1, chars);
      if cut {
        return;
      }
      Fifth(i, chars);
      assert chars < precision;
      if i % 5 == 0 {
        LastBit(latRange.low, lngRange.low, chars, box, hashChar);
        Put(hash, start, (i - 1) / 5, CHAR_MAP[hashChar], was, Code(latRange.low, lngRange.low, chars));
        hashChar := 0;
        newPrecision := (i - 1) / 5 + 1;
        chars := chars + 1;
      }
      isEven := !isEven;
      i := i + 1;
    }
  }

  lemma NoLine(r: Box)
    ensures Uncut(r, 0)
  { }

  lemma CoverStep(r: Box, n: nat, q: nat, box: Box, hashChar: nat, isEven: bool)
    requires Encoding(r.lat.low, r.lng.low, n, q, box, hashChar) && Uncut(r, n) && n < 5 * q + 5
    requires isEven == (n % 2 == 0)
    ensures var range, i := if isEven then r.lng else r.lat, if isEven then box.lng else box.lat;
            var mid := (i.low + i.high) / 2.0;
            var next := if range.low > mid then i.(low := mid) else i.(high := mid);
            var hashChar' := 2 * hashChar + (if range.low > mid then 1 else 0);
            if range.low <= mid <= range.high then
              Uncut(r, 5 * q) && !Uncut(r, 5 * q + 5)
            else
              && Uncut(r, n + 1)
              && Encoding(r.lat.low, r.lng.low, n + 1, q, if isEven then box.(lng := next)
                   else box.(lat := next), hashChar')
  {
    hide Encoding, Uncut, Clear;
    EncodeStep(r.lat.low, r.lng.low, n, q, box, hashChar, isEven);
    NextLine(r, n, q, box, hashChar);
  }

  lemma NextLine(r: Box, n: nat, q: nat, box: Box, hashChar: nat)
    requires Encoding(r.lat.low, r.lng.low, n, q, box, hashChar) && Uncut(r, n) && n < 5 * q + 5
    ensures Side(r, n).low > Mid(Side(box, n)) || Side(r, n).high < Mid(Side(box, n)) ==> Uncut(r, n + 1)
    ensures Side(r, n).low <= Mid(Side(box, n)) <= Side(r, n).high ==> Uncut(r, 5 * q) && !Uncut(r, 5 * q + 5)
  {
    if Side(r, n).low <= Mid(Side(box, n)) <= Side(r, n).high {
      assert !Clear(r, n);
    }
  }
}
