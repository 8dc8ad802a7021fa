/** demos/byok-playground/src/shared/text.ts: fitting text and messages into a byte limit. */
module Utf8 {

  type Byte = b: nat | b < 256

  /** A JavaScript string is a sequence of UTF-16 code units, whole or not. */
  type Unit = u: nat | u < 0x1_0000

  /** A code point, or a surrogate that has no partner. */
  type Point = n: nat | n < 0x11_0000

  const BOM: Point := 0xFEFF
  const REPLACEMENT: Point := 0xFFFD

  predicate IsHigh(n: nat) {
    0xD800 <= n < 0xDC00
  }

  predicate IsLow(n: nat) {
    0xDC00 <= n < 0xE000
  }

  predicate IsSurrogate(n: nat) {
    IsHigh(n) || IsLow(n)
  }

  // ---------------------------------------------------------------- code units and code points

  predicate StartsWithPair(value: seq<Unit>) {
    |value| > 1 && IsHigh(value[0]) && IsLow(value[1])
  }

  function Pair(high: nat, low: nat): Point
    requires IsHigh(high) && IsLow(low)
  {
    0x1_0000 + (high - 0xD800) * 0x400 + (low - 0xDC00)
  }

  /** The code points of a string; a lone surrogate stands for itself. */
  function Points(value: seq<Unit>): seq<Point> {
    if value == [] then []
    else if StartsWithPair(value) then [Pair(value[0], value[1])] + Points(value[2..])
    else [value[0]] + Points(value[1..])
  }

  function UnitsOf(n: Point): (units: seq<Unit>)
    ensures 1 <= |units| <= 2
  {
    if n < 0x1_0000 then [n] else [0xD800 + (n - 0x1_0000) / 0x400, 0xDC00 + (n - 0x1_0000) % 0x400]
  }

  function Units(points: seq<Point>): seq<Unit> {
    if points == [] then [] else UnitsOf(points[0]) + Units(points[1..])
  }

  /** Every lone surrogate becomes U+FFFD. */
  function Repair(n: Point): Point {
    if IsSurrogate(n) then REPLACEMENT else n
  }

  function Repaired(points: seq<Point>): (r: seq<Point>)
    ensures |r| == |points| && forall i | 0 <= i < |r| :: r[i] == Repair(points[i])
  {
    seq(|points|, i requires 0 <= i < |points| => Repair(points[i]))
  }

  predicate HasLone(points: seq<Point>) {
    exists n | n in points :: IsSurrogate(n)
  }

  // ---------------------------------------------------------------- the two coders

  /** The UTF-8 form of one code point (section 3 of RFC 3629); a lone surrogate is encoded as U+FFFD. */
  function EncodePoint(point: Point): (bytes: seq<Byte>)
    ensures 1 <= |bytes| <= 4 && !IsContinuation(bytes[0])
    ensures forall i | 1 <= i < |bytes| :: IsContinuation(bytes[i])
  {
    var n := Repair(point);
    if n < 0x80 then [n]
    else if n < 0x800 then [0xC0 + n / 64, 0x80 + n % 64]
    else if n < 0x1_0000 then [0xE0 + n / 4096, 0x80 + n / 64 % 64, 0x80 + n % 64]
    else [0xF0 + n / 262_144, 0x80 + n / 4096 % 64, 0x80 + n / 64 % 64, 0x80 + n % 64]
  }

  function Encode(points: seq<Point>): seq<Byte> {
    if points == [] then [] else EncodePoint(points[0]) + Encode(points[1..])
  }

  /** `new TextEncoder().encode(value).length`. */
  function ByteLength(value: seq<Unit>): nat {
    |Encode(Points(value))|
  }

  /** The two top bits are `10`. */
  predicate IsContinuation(b: Byte) {
    b / 64 == 2
  }

  /** The length that the first byte of a code point announces; 0 for a byte that cannot be first. */
  function Width(first: Byte): nat {
    if first < 0x80 then 1
    else if 0xC0 <= first < 0xE0 then 2
    else if 0xE0 <= first < 0xF0 then 3
    else if 0xF0 <= first < 0xF8 then 4
    else 0
  }

  /** The payload of a byte, below its marker bits. */
  function Bits(b: int, marker: int): int {
    b - marker
  }

  function Scalar(bytes: seq<Byte>): int
    requires 1 <= |bytes| <= 4
  {
    if |bytes| == 1 then bytes[0]
    else if |bytes| == 2 then Bits(bytes[0], 0xC0) * 64 + Bits(bytes[1], 0x80)
    else if |bytes| == 3 then Bits(bytes[0], 0xE0) * 4096 + Bits(bytes[1], 0x80) * 64 + Bits(bytes[2], 0x80)
    else Bits(bytes[0], 0xF0) * 262_144 + Bits(bytes[1], 0x80) * 4096 + Bits(bytes[2], 0x80) * 64 + Bits(bytes[3], 0x80)
  }

  /** The code point that `bytes` begins with, if its encoding is well formed. */
  predicate StartsWell(bytes: seq<Byte>) {
    bytes != [] &&
    var w := Width(bytes[0]);
    0 < w <= |bytes| &&
    var n := Scalar(bytes[..w]);
    0 <= n < 0x11_0000 && !IsSurrogate(n) && EncodePoint(n) == bytes[..w]
  }

  /** Decoding without the byte order mark rule; a malformed byte becomes U+FFFD. */
  function DecodeAll(bytes: seq<Byte>): seq<Point> {
    if bytes == [] then []
    else if StartsWell(bytes) then
      var w := Width(bytes[0]);
      [Scalar(bytes[..w])] + DecodeAll(bytes[w..])
    else [REPLACEMENT] + DecodeAll(bytes[1..])
  }

  /** `new TextDecoder().decode(bytes)`: a leading byte order mark is dropped. */
  function Decode(bytes: seq<Byte>): seq<Unit> {
    Units(WithoutBom(DecodeAll(bytes)))
  }

  function WithoutBom(points: seq<Point>): seq<Point> {
    if points != [] && points[0] == BOM then points[1..] else points
  }

  // ---------------------------------------------------------------- trimUtf8

  method TrimUtf8(value: seq<Unit>, maxBytes: nat) returns (r: seq<Unit>)
    ensures r == Trimmed(value, maxBytes)
  {
    var encoded := Encode(Points(value));
    if |encoded| <= maxBytes { return value; }
    var end := maxBytes;
    while end > 0 && IsContinuation(encoded[end])
      invariant 0 <= end <= maxBytes
      invariant forall i | end < i <= maxBytes :: IsContinuation(encoded[i])
    {
      end := end - 1;
    }
    LastBoundary(Points(value), maxBytes, end);
    DecodeEncoded(KeptPoints(value, maxBytes));
    r := Decode(encoded[..end]);
  }

  /** How many whole code points from the front fit into the limit. */
  function FitCount(points: seq<Point>, maxBytes: nat): (k: nat)
    ensures k <= |points|
  {
    if points == [] || |EncodePoint(points[0])| > maxBytes then 0
    else 1 + FitCount(points[1..], maxBytes - |EncodePoint(points[0])|)
  }

  function KeptPoints(value: seq<Unit>, maxBytes: nat): seq<Point> {
    Points(value)[..FitCount(Points(value), maxBytes)]
  }

  /** What `trimUtf8` returns. */
  function Trimmed(value: seq<Unit>, maxBytes: nat): seq<Unit> {
    if ByteLength(value) <= maxBytes then value else Units(WithoutBom(Repaired(KeptPoints(value, maxBytes))))
  }

  // ---------------------------------------------------------------- properties of the coders

  lemma ScalarOfPoint(n: Point)
    ensures Width(EncodePoint(n)[0]) == |EncodePoint(n)| && Scalar(EncodePoint(n)) == Repair(n)
  {
    var n := Repair(n);
    assert n == n / 64 * 64 + n % 64;
    assert n / 64 == n / 64 / 64 * 64 + n / 64 % 64 && n / 64 / 64 == n / 4096;
    assert n / 4096 == n / 4096 / 64 * 64 + n / 4096 % 64 && n / 4096 / 64 == n / 262_144;
  }

  lemma RepairTwice(n: Point)
    ensures !IsSurrogate(Repair(n)) && EncodePoint(Repair(n)) == EncodePoint(n)
  {
  }

  lemma EncodedPointDecodes(n: Point, rest: seq<Byte>)
    ensures var bytes := EncodePoint(n) + rest;
            StartsWell(bytes) && Width(bytes[0]) == |EncodePoint(n)| && Scalar(bytes[..Width(bytes[0])]) == Repair(n)
  {
    hide EncodePoint, Scalar, Width, Repair;
    ScalarOfPoint(n);
    RepairTwice(n);
    var own := EncodePoint(n);
    assert (own + rest)[..|own|] == own;
  }

  /** Encoding and decoding give the text back, with every lone surrogate replaced. */
  lemma {:induction false} DecodeEncoded(points: seq<Point>)
    ensures DecodeAll(Encode(points)) == Repaired(points)
  {
    if points != [] {
      hide EncodePoint, StartsWell, Repair, Width, Scalar;
      var own, rest := EncodePoint(points[0]), Encode(points[1..]);
      EncodedPointDecodes(points[0], rest);
      DecodeEncoded(points[1..]);
      assert (own + rest)[|own|..] == rest;
      assert Repaired(points) == [Repair(points[0])] + Repaired(points[1..]);
    }
  }

  /** The first code point's bytes come first. */
  lemma FirstBytes(points: seq<Point>, i: nat)
    requires points != [] && i < |Encode(points)|
    ensures var own, rest := EncodePoint(points[0]), Encode(points[1..]);
            Encode(points)[i] == if i < |own| then own[i] else rest[i - |own|]
  {
    hide EncodePoint;
  }

  lemma FirstCut(points: seq<Point>, end: nat)
    requires points != [] && |EncodePoint(points[0])| <= end <= |Encode(points)|
    ensures var own, rest := EncodePoint(points[0]), Encode(points[1..]);
            Encode(points)[..end] == own + rest[..end - |own|]
  {
    hide EncodePoint;
  }

  lemma EncodedPrefix(points: seq<Point>, k: nat)
    requires k < |points|
    ensures Encode(points[..k + 1]) == EncodePoint(points[0]) + Encode(points[1..][..k])
  {
    hide EncodePoint;
    assert points[..k + 1][1..] == points[1..][..k];
  }

  lemma NotContinued(points: seq<Point>)
    requires Encode(points) != []
    ensures !IsContinuation(Encode(points)[0])
  {
  }

  /** The last byte position up to the limit that does not split a code point ends the prefix that fits. */
  lemma {:induction false} LastBoundary(points: seq<Point>, maxBytes: nat, end: nat)
    requires end <= maxBytes < |Encode(points)|
    requires end > 0 ==> !IsContinuation(Encode(points)[end])
    requires forall i | end < i <= maxBytes :: IsContinuation(Encode(points)[i])
    ensures Encode(points)[..end] == Encode(points[..FitCount(points, maxBytes)])
  {
    hide EncodePoint, IsContinuation, Encode;
    NothingEncoded();
    var own, rest := EncodePoint(points[0]), Encode(points[1..]);
    var w := |own|;
    EncodedSize(points);
    if w <= maxBytes {
      FirstBytes(points, w);
      NotContinued(points[1..]);
      if end > 0 { FirstBytes(points, end); }
      forall i | end - w < i <= maxBytes - w ensures IsContinuation(rest[i]) {
        FirstBytes(points, i + w);
      }
      LastBoundary(points[1..], maxBytes - w, end - w);
      EncodedPrefix(points, FitCount(points[1..], maxBytes - w));
      FirstCut(points, end);
    } else {
      if 0 < end { FirstBytes(points, end); }
      assert points[..0] == [];
    }
  }

  lemma NothingEncoded()
    ensures Encode([]) == []
  {
  }

  lemma EncodedSize(points: seq<Point>)
    requires points != []
    ensures |Encode(points)| == |EncodePoint(points[0])| + |Encode(points[1..])|
  {
    hide EncodePoint;
  }

  /** A prefix fits into the limit exactly when it has at most `FitCount` code points. */
  lemma {:induction false} FitCountIsLongest(points: seq<Point>, maxBytes: nat, k: nat)
    requires k <= |points|
    ensures |Encode(points[..k])| <= maxBytes <==> k <= FitCount(points, maxBytes)
  {
    if k > 0 {
      hide EncodePoint;
      var w := |EncodePoint(points[0])|;
      assert points[..k][1..] == points[1..][..k - 1];
      if w <= maxBytes {
        FitCountIsLongest(points[1..], maxBytes - w, k - 1);
      }
    }
  }

  /**
   * The table of section 3 of RFC 3629: how many bytes a code point takes, and that their payload bits, six from
   * every byte after the first, are its number.
   */
  lemma EncodedForm(n: Point)
    requires !IsSurrogate(n)
    ensures var b := EncodePoint(n);
            if n < 0x80 then b == [n]
            else if n < 0x800 then
              && |b| == 2 && 0xC0 <= b[0] < 0xE0 && 0x80 <= b[1] < 0xC0
              && (b[0] as int - 0xC0) * 64 + (b[1] as int - 0x80) == n
            else if n < 0x1_0000 then
              && |b| == 3 && 0xE0 <= b[0] < 0xF0 && 0x80 <= b[1] < 0xC0 && 0x80 <= b[2] < 0xC0
              && (b[0] as int - 0xE0) * 4096 + (b[1] as int - 0x80) * 64 + (b[2] as int - 0x80) == n
            else
              && |b| == 4 && 0xF0 <= b[0] < 0xF8 && 0x80 <= b[1] < 0xC0 && 0x80 <= b[2] < 0xC0 && 0x80 <= b[3] < 0xC0
              && (b[0] as int - 0xF0) * 262_144 + (b[1] as int - 0x80) * 4096
                 + (b[2] as int - 0x80) * 64 + (b[3] as int - 0x80) == n
    ensures IsSurrogate(0xD800) && IsSurrogate(0xDFFF) && !IsSurrogate(0xD7FF) && !IsSurrogate(0xE000)
  {
    hide EncodePoint;
    ScalarOfPoint(n);
    EncodedRanges(n);
  }

  lemma EncodedRanges(n: Point)
    requires !IsSurrogate(n)
    ensures var b := EncodePoint(n);
            && |b| == (if n < 0x80 then 1 else if n < 0x800 then 2 else if n < 0x1_0000 then 3 else 4)
            && (|b| == 1 ==> b[0] == n)
            && (|b| == 2 ==> 0xC0 <= b[0] < 0xE0)
            && (|b| == 3 ==> 0xE0 <= b[0] < 0xF0)
            && (|b| == 4 ==> 0xF0 <= b[0] < 0xF8)
            && forall i | 1 <= i < |b| :: 0x80 <= b[i] < 0xC0
  {
  }

  /** A lone surrogate is encoded as U+FFFD. */
  lemma SurrogateIsReplaced(n: Point)
    requires 0xD800 <= n <= 0xDFFF
    ensures EncodePoint(n) == EncodePoint(0xFFFD) == [0xEF, 0xBF, 0xBD]
  {
  }

  // ---------------------------------------------------------------- cutting between code points

  lemma PairUnits(high: Unit, low: Unit)
    requires IsHigh(high) && IsLow(low)
    ensures UnitsOf(Pair(high, low)) == [high, low]
  {
  }

  /** The code points of a string are its code units again. */
  lemma {:induction false} UnitsOfPoints(value: seq<Unit>)
    ensures Units(Points(value)) == value
  {
    hide UnitsOf, Pair;
    if value != [] {
      if StartsWithPair(value) {
        PairUnits(value[0], value[1]);
        UnitsOfPoints(value[2..]);
        assert [value[0], value[1]] + value[2..] == value;
      } else {
        SingleUnit(value[0]);
        UnitsOfPoints(value[1..]);
      }
    }
  }

  lemma SingleUnit(u: Unit)
    ensures UnitsOf(u) == [u]
  {
  }

  /** Index `m` does not lie inside a surrogate pair. */
  predicate Whole(value: seq<Unit>, m: nat) {
    m <= |value| && !(0 < m < |value| && IsHigh(value[m - 1]) && IsLow(value[m]))
  }

  /** How many code units the first code point takes. */
  function FirstWidth(value: seq<Unit>): nat {
    if StartsWithPair(value) then 2 else 1
  }

  lemma FirstPoint(value: seq<Unit>)
    requires value != []
    ensures FirstWidth(value) <= |value| && Points(value) != []
            && Points(value)[1..] == Points(value[FirstWidth(value)..])
    ensures UnitsOf(Points(value)[0]) == value[..FirstWidth(value)]
  {
    hide UnitsOf, Pair;
    if StartsWithPair(value) { PairUnits(value[0], value[1]); } else { SingleUnit(value[0]); }
  }

  /** A longer string that begins alike begins with the same code point. */
  lemma FirstPointOfPrefix(value: seq<Unit>, m: nat)
    requires 0 < m <= |value| && Whole(value, m)
    ensures FirstWidth(value) <= m && StartsWithPair(value[..m]) == StartsWithPair(value)
    ensures Whole(value[FirstWidth(value)..], m - FirstWidth(value))
    ensures Points(value[..m]) != [] && Points(value) != [] && Points(value[..m])[0] == Points(value)[0]
  {
    hide Points, Pair;
    FirstIs(value);
    FirstIs(value[..m]);
  }

  lemma FirstIs(value: seq<Unit>)
    requires value != []
    ensures Points(value) != []
    ensures Points(value)[0] == if StartsWithPair(value) then Pair(value[0], value[1]) else value[0]
  {
    hide Pair;
  }

  /** Cutting the string between code points cuts its code points. */
  lemma {:induction false} WholeCut(value: seq<Unit>, m: nat) returns (k: nat)
    requires Whole(value, m)
    ensures k <= |Points(value)| && Points(value[..m]) == Points(value)[..k] && value[..m] == Units(Points(value)[..k])
    decreases |value|
  {
    k := 0;
    hide Points, UnitsOf, Units, Whole;
    NoPoints();
    if m > 0 {
      var w := FirstWidth(value);
      FirstPoint(value);
      FirstPointOfPrefix(value, m);
      FirstPoint(value[..m]);
      var rest := WholeCut(value[w..], m - w);
      k := rest + 1;
      assert value[..m][w..] == value[w..][..m - w];
      PointsJoin(Points(value), Points(value[..m]), k);
      assert value[..m] == value[..w] + value[w..][..m - w];
      UnitsOfPrefix(Points(value), k);
    } else {
      assert value[..0] == [] && Points(value)[..0] == [];
    }
  }

  lemma PointsJoin(all: seq<Point>, some: seq<Point>, k: nat)
    requires 1 <= k <= |all| && some != [] && some[0] == all[0] && some[1..] == all[1..][..k - 1]
    ensures some == all[..k]
  {
    assert some == [some[0]] + some[1..];
    assert all[..k] == [all[0]] + all[1..][..k - 1];
  }

  lemma UnitsOfPrefix(points: seq<Point>, k: nat)
    requires 1 <= k <= |points|
    ensures Units(points[..k]) == UnitsOf(points[0]) + Units(points[1..][..k - 1])
  {
    assert points[..k][1..] == points[1..][..k - 1];
  }

  /** And every cut of the code points is such a cut of the string. */
  lemma {:induction false} PointsCut(value: seq<Unit>, k: nat) returns (m: nat)
    requires k <= |Points(value)|
    ensures m <= |value| && Whole(value, m)
    ensures Points(value[..m]) == Points(value)[..k] && value[..m] == Units(Points(value)[..k])
    decreases |value|
  {
    m := 0;
    hide Points, UnitsOf, Units;
    NoPoints();
    if k > 0 {
      var w := FirstWidth(value);
      FirstPoint(value);
      var rest := PointsCut(value[w..], k - 1);
      m := w + rest;
      assert value[..m] == value[..w] + value[w..][..rest];
      StillWhole(value, rest);
      FirstPointOfPrefix(value, m);
      FirstPoint(value[..m]);
      assert value[..m][w..] == value[w..][..rest];
      PointsJoin(Points(value), Points(value[..m]), k);
      UnitsOfPrefix(Points(value), k);
    } else {
      assert value[..0] == [] && Points(value)[..0] == [];
    }
  }

  lemma NoPoints()
    ensures Points([]) == [] && Units([]) == []
  {
  }

  lemma StillWhole(value: seq<Unit>, rest: nat)
    requires value != [] && FirstWidth(value) <= |value| && Whole(value[FirstWidth(value)..], rest)
    ensures Whole(value, FirstWidth(value) + rest)
  {
  }

  lemma {:induction false} UnitsGrow(points: seq<Point>, j: nat, k: nat)
    requires j <= k <= |points|
    ensures |Units(points[..j])| <= |Units(points[..k])|
    decreases |points|
  {
    hide UnitsOf;
    if j > 0 {
      UnitsOfPrefix(points, j);
      UnitsOfPrefix(points, k);
      UnitsGrow(points[1..], j - 1, k - 1);
    } else {
      assert points[..0] == [];
    }
  }

  // ---------------------------------------------------------------- the longest prefix that fits

  /** `r` is the longest prefix of whole code points that fits into the limit. */
  ghost predicate LongestFit(value: seq<Unit>, maxBytes: nat, r: seq<Unit>) {
    && r <= value && Whole(value, |r|) && ByteLength(r) <= maxBytes
    && forall m | |r| < m <= |value| && Whole(value, m) :: ByteLength(value[..m]) > maxBytes
  }

  /** There is exactly one such prefix. */
  lemma KeptIsLongest(value: seq<Unit>, maxBytes: nat, r: seq<Unit>)
    ensures LongestFit(value, maxBytes, r) <==> r == Units(KeptPoints(value, maxBytes))
  {
    hide Points, Units, Encode, FitCount, Whole;
    var points := Points(value);
    var k := FitCount(points, maxBytes);
    var kept := Units(points[..k]);
    var at := PointsCut(value, k);
    FitCountIsLongest(points, maxBytes, k);
    forall m | |kept| < m <= |value| && Whole(value, m) ensures ByteLength(value[..m]) > maxBytes {
      var k' := WholeCut(value, m);
      if k' <= k { UnitsGrow(points, k', k); }
      FitCountIsLongest(points, maxBytes, k');
    }
    assert kept == value[..at] && LongestFit(value, maxBytes, kept);
    if LongestFit(value, maxBytes, r) {
      assert value[..|r|] == r;
      assert |r| == |kept|;
    }
  }

  lemma EverythingFits(value: seq<Unit>, maxBytes: nat)
    requires ByteLength(value) <= maxBytes
    ensures Units(KeptPoints(value, maxBytes)) == value
  {
    hide Points, Units, Encode, FitCount;
    var points := Points(value);
    assert points[..|points|] == points;
    FitCountIsLongest(points, maxBytes, |points|);
    UnitsOfPoints(value);
  }

  lemma {:induction false} RepairedLength(points: seq<Point>)
    ensures |Units(Repaired(points))| == |Units(points)|
    ensures Units(Repaired(points)) == Units(points) <==> !HasLone(points)
  {
    if points != [] {
      var n, rest := points[0], points[1..];
      RepairedLength(rest);
      assert Repaired(points)[1..] == Repaired(rest);
      assert forall x :: x in points <==> x == n || x in rest;
      RepairedUnits(n);
      SameTail(UnitsOf(Repair(n)), Units(Repaired(rest)), UnitsOf(n), Units(rest));
    }
  }

  lemma RepairedUnits(n: Point)
    ensures |UnitsOf(Repair(n))| == |UnitsOf(n)| && (UnitsOf(Repair(n)) == UnitsOf(n) <==> !IsSurrogate(n))
  {
  }

  lemma SameTail(a: seq<Unit>, x: seq<Unit>, b: seq<Unit>, y: seq<Unit>)
    requires |a| == |b|
    ensures a + x == b + y <==> a == b && x == y
  {
    if a + x == b + y {
      assert (a + x)[..|a|] == a && (b + y)[..|b|] == b && (a + x)[|a|..] == x && (b + y)[|b|..] == y;
    }
  }

  /** What the decoder makes of the kept part is that part, unless it holds a lone surrogate or a leading mark. */
  lemma DecodedIsKept(kept: seq<Point>)
    ensures Units(WithoutBom(Repaired(kept))) == Units(kept) <==> !HasLone(kept) && !(kept != [] && kept[0] == BOM)
  {
    RepairedLength(kept);
    if kept != [] && kept[0] == BOM { assert |Units(Repaired(kept))| == 1 + |Units(Repaired(kept)[1..])|; }
  }

  lemma LeadingMark(value: seq<Unit>, maxBytes: nat)
    requires value != []
    ensures var kept := KeptPoints(value, maxBytes); kept != [] && kept[0] == BOM <==> value[0] == BOM && maxBytes >= 3
  {
    assert |EncodePoint(BOM)| == 3;
  }

  /**
   * `trimUtf8` returns the longest whole-code-point prefix that fits, for every string and limit, unless the
   * string is cut and either the kept part holds a lone surrogate, which comes back as U+FFFD, or the
   * string begins with a byte order mark and the limit leaves room for it: then the decoder drops the mark.
   */
  lemma TrimIsLongestPrefix(value: seq<Unit>, maxBytes: nat)
    ensures LongestFit(value, maxBytes, Trimmed(value, maxBytes))
            <==> !(ByteLength(value) > maxBytes
                   && (HasLone(KeptPoints(value, maxBytes)) || (value[0] == BOM && maxBytes >= 3)))
  {
    hide Points, Units, Encode, KeptPoints, Repaired, HasLone, LongestFit, WithoutBom;
    KeptIsLongest(value, maxBytes, Trimmed(value, maxBytes));
    if ByteLength(value) <= maxBytes {
      EverythingFits(value, maxBytes);
    } else {
      NothingIsShort(value);
      DecodedIsKept(KeptPoints(value, maxBytes));
      LeadingMark(value, maxBytes);
    }
  }

  lemma NothingIsShort(value: seq<Unit>)
    ensures ByteLength(value) > 0 ==> value != []
  {
  }

  /** Both exceptions occur: `\ud800a` becomes U+FFFD, and U+FEFF followed by `a` becomes the empty string. */
  lemma TrimExceptions()
    ensures Trimmed([0xD800, 0x61], 3) == [REPLACEMENT] && Trimmed([BOM, 0x61], 3) == []
  {
    OneOfTwo(0xD800, 0x61);
    OneOfTwo(BOM, 0x61);
    assert Repaired([0xD800]) == [REPLACEMENT] && Repaired([BOM]) == [BOM];
    assert [BOM][1..] == [] && UnitsOf(REPLACEMENT) == [REPLACEMENT];
    assert Units([REPLACEMENT]) == UnitsOf(REPLACEMENT) + Units([REPLACEMENT][1..]) == [REPLACEMENT];
  }

  /** Of a three-byte and a one-byte code point, the first alone fits into three bytes. */
  lemma OneOfTwo(a: Unit, b: Unit)
    requires a >= 0x800 && b < 0x80
    ensures ByteLength([a, b]) == 4 && KeptPoints([a, b], 3) == [a]
  {
    assert Points([b]) == [b] && [a, b][1..] == [b] && [b][1..] == [];
    assert Points([a, b]) == [a, b];
    assert |EncodePoint(a)| == 3 && |EncodePoint(b)| == 1;
    assert Encode([b]) == EncodePoint(b) + Encode([]) && |Encode([a, b])| == 3 + |Encode([b])|;
    assert FitCount([a, b], 3) == 1 + FitCount([b], 0) && FitCount([b], 0) == 0;
  }

  /** Whatever `trimUtf8` returns fits into the limit. */
  lemma TrimmedFits(value: seq<Unit>, maxBytes: nat)
    ensures ByteLength(Trimmed(value, maxBytes)) <= maxBytes
  {
    if ByteLength(value) > maxBytes {
      hide Points, Units, Encode, FitCount, EncodePoint;
      var points := Points(value);
      var kept := KeptPoints(value, maxBytes);
      FitCountIsLongest(points, maxBytes, FitCount(points, maxBytes));
      EncodeRepaired(kept);
      WithoutMarkIsShorter(Repaired(kept));
      assert !HasLone(Repaired(kept));
      PointsOfUnits(WithoutBom(Repaired(kept)));
    }
  }

  lemma WithoutMarkIsShorter(points: seq<Point>)
    ensures |Encode(WithoutBom(points))| <= |Encode(points)|
  {
  }

  lemma {:induction false} EncodeRepaired(points: seq<Point>)
    ensures Encode(Repaired(points)) == Encode(points)
  {
    if points != [] {
      hide EncodePoint, Repair;
      EncodeRepaired(points[1..]);
      RepairTwice(points[0]);
      assert Repaired(points)[1..] == Repaired(points[1..]);
    }
  }

  /** Code points that are no surrogates survive as code units. */
  lemma {:induction false} PointsOfUnits(points: seq<Point>)
    requires !HasLone(points)
    ensures Points(Units(points)) == points
    ensures points != [] ==> Units(points) != [] && !IsLow(Units(points)[0])
  {
    if points != [] {
      var n, rest := points[0], points[1..];
      assert n in points && forall x | x in rest :: x in points;
      PointsOfUnits(rest);
      OnePoint(n, Units(rest));
    }
  }

  lemma OnePoint(n: Point, rest: seq<Unit>)
    requires !IsSurrogate(n) && (rest != [] ==> !IsLow(rest[0]))
    ensures Points(UnitsOf(n) + rest) == [n] + Points(rest) && !IsLow(UnitsOf(n)[0])
  {
    var units := UnitsOf(n);
    if n < 0x1_0000 {
      assert (units + rest)[1..] == rest;
    } else {
      assert Pair(units[0], units[1]) == n;
      assert (units + rest)[2..] == rest;
    }
  }

  /** The newest `n` messages. */
  function Newest<M>(messages: seq<M>, n: nat): seq<M>
    requires n <= |messages|
  {
    messages[|messages| - n..]
  }

  /**
   * `dropOldestUntilFits`: the longest non-empty suffix of the messages whose body fits, or the last
   * message alone if none does. `size` measures the body that holds the given messages.
   */
  method DropOldestUntilFits<M>(messages: seq<M>, size: seq<M> -> nat, maxBytes: nat) returns (kept: seq<M>)
    ensures kept == [] <==> messages == []
    ensures |kept| <= |messages| && kept == Newest(messages, |kept|)
    ensures |kept| > 1 ==> size(kept) <= maxBytes
    ensures forall n | |kept| < n <= |messages| :: size(Newest(messages, n)) > maxBytes
  {
    kept := messages;
    while |kept| > 1 && size(kept) > maxBytes
      invariant |kept| <= |messages| && kept == Newest(messages, |kept|)
      invariant kept == [] <==> messages == []
      invariant forall n | |kept| < n <= |messages| :: size(Newest(messages, n)) > maxBytes
    {
      kept := kept[1..];
    }
  }
}
