/**
 * How replacing a key by a placeholder behaves when the text is cut, and when the output is read again.
 * Stated for every key and every placeholder; Redaction supplies `[redacted]`.
 */
module Placeholder {
  import opened JsStrings

  /** The placeholder, laid over the key so that it starts at index `d`, agrees wherever they overlap. */
  predicate Agrees(key: string, d: int, p: string) {
    forall j | 0 <= j < |key| && 0 <= j - d < |p| :: key[j] == p[j - d]
  }

  /** No part of a placeholder can begin a fresh occurrence of the key that later text completes. */
  ghost predicate Streamable(key: string, p: string) {
    forall d | -|p| < d && d + |p| < |key| :: !Agrees(key, d, p)
  }

  /** The first occurrence of `key` in `key[..d] + key` is the one at `d`. */
  ghost predicate FirstAt(key: string, d: int)
    requires d < |key|
  {
    forall i | 0 <= i < d :: !OccursAt(key[..d] + key, key, i)
  }

  /** Some text makes a placeholder and its neighbours spell the key again. */
  ghost predicate Regrows(key: string, p: string) {
    exists d :: -|p| < d < |key| && Agrees(key, d, p) && FirstAt(key, d)
  }

  lemma {:induction false} SkipQuiet(x: string, w: string, key: string, p: string)
    requires key != ""
    requires forall i | 0 <= i < |x| :: !OccursAt(x + w, key, i)
    ensures Replace(x + w, key, p) == x + Replace(w, key, p)
  {
    hide Replace;
    if x == "" {
      assert x + w == w;
    } else {
      var rest := x[1..];
      assert !OccursAt(x + w, key, 0);
      assert (x + w)[1..] == rest + w;
      forall i | 0 <= i < |rest| ensures !OccursAt(rest + w, key, i) {
        OccursInTail(x + w, key, i);
      }
      SkipQuiet(rest, w, key, p);
      ReplaceChar(x + w, key, p);
      assert [x[0]] + (rest + Replace(w, key, p)) == x + Replace(w, key, p);
    }
  }

  lemma ShortStays(s: string, key: string, p: string)
    requires |s| < |key|
    ensures Replace(s, key, p) == s
  {
    SkipQuiet(s, "", key, p);
    assert s + "" == s;
  }

  /** Either the pass changed nothing, or its output holds a placeholder. */
  lemma {:induction false} SameOrMarked(s: string, key: string, p: string)
    requires key != ""
    ensures Replace(s, key, p) == s || Contains(Replace(s, key, p), p)
  {
    hide Replace, Contains;
    if key <= s {
      assert s == key + s[|key|..];
      ReplaceKey(s[|key|..], key, p);
      MarkedAt(p + Replace(s[|key|..], key, p), p, 0);
    } else if s == "" {
      EmptyStays(key, p);
    } else {
      SameOrMarked(s[1..], key, p);
      ReplaceChar(s, key, p);
      StillMarked(s[0], Replace(s[1..], key, p), p);
      assert [s[0]] + s[1..] == s;
    }
  }

  lemma MarkedAt(s: string, p: string, i: int)
    requires OccursAt(s, p, i)
    ensures Contains(s, p)
  {
  }

  lemma StillMarked(c: char, s: string, p: string)
    ensures Contains(s, p) ==> Contains([c] + s, p)
  {
    if j :| OccursAt(s, p, j) {
      assert ([c] + s)[1..] == s;
      OccursInTail([c] + s, p, j);
    }
  }

  /** The last `hold` characters of an output, or all of it when it is shorter. */
  function Kept(s: string, hold: nat): string {
    if |s| <= hold then s else s[|s| - hold..]
  }

  function Gone(s: string, hold: nat): string {
    if |s| <= hold then "" else s[..|s| - hold]
  }

  /** Cutting the text after `s` and redacting the held-back tail again gives the batch result. */
  ghost predicate CutSafe(s: string, rest: string, key: string, p: string)
    requires key != ""
  {
    var out := Replace(s, key, p);
    Replace(s + rest, key, p) == Gone(out, |key| - 1) + Replace(Kept(out, |key| - 1) + rest, key, p)
  }

  lemma {:induction false} HoldBack(s: string, rest: string, key: string, p: string)
    requires key != "" && p != "" && Streamable(key, p)
    ensures CutSafe(s, rest, key, p)
  {
    if |s| < |key| {
      ShortStays(s, key, p);
    } else if key <= s {
      HoldBack(s[|key|..], rest, key, p);
      HoldBackKey(s, rest, key, p);
    } else {
      HoldBack(s[1..], rest, key, p);
      HoldBackChar(s, rest, key, p);
    }
  }

  lemma KeptOfLong(x: string, y: string, h: nat)
    requires |y| >= h
    ensures Gone(x + y, h) == x + Gone(y, h) && Kept(x + y, h) == Kept(y, h)
  {
  }

  lemma KeptOfShort(x: string, y: string, h: nat, t: nat)
    requires |y| < h && t == |Gone(x + y, h)|
    ensures t <= |x| && Gone(x + y, h) == x[..t] && Kept(x + y, h) == x[t..] + y
  {
  }

  lemma ReplaceKey(w: string, key: string, p: string)
    requires key != ""
    ensures Replace(key + w, key, p) == p + Replace(w, key, p)
  {
    assert (key + w)[|key|..] == w;
  }

  lemma EmptyStays(key: string, p: string)
    requires key != ""
    ensures Replace("", key, p) == ""
  {
  }

  lemma ReplaceChar(s: string, key: string, p: string)
    requires s != "" && key != "" && !(key <= s)
    ensures Replace(s, key, p) == [s[0]] + Replace(s[1..], key, p)
  {
  }

  lemma HoldBackKey(s: string, rest: string, key: string, p: string)
    requires key != "" && p != "" && Streamable(key, p) && key <= s && CutSafe(s[|key|..], rest, key, p)
    ensures CutSafe(s, rest, key, p)
  {
    hide Replace;
    var h, s' := |key| - 1, s[|key|..];
    var out' := Replace(s', key, p);
    assert s == key + s' && s + rest == key + (s' + rest);
    ReplaceKey(s', key, p);
    ReplaceKey(s' + rest, key, p);
    if |out'| >= h {
      KeptOfLong(p, out', h);
      var x := Replace(Kept(out', h) + rest, key, p);
      assert p + (Gone(out', h) + x) == p + Gone(out', h) + x;
    } else {
      var t := |Gone(p + out', h)|;
      KeptOfShort(p, out', h, t);
      TailOfPlaceholder(t, out' + rest, key, p);
      assert p[t..] + out' + rest == p[t..] + (out' + rest);
      var x := Replace(out' + rest, key, p);
      assert p[..t] + (p[t..] + x) == p + x;
    }
  }

  lemma HoldBackChar(s: string, rest: string, key: string, p: string)
    requires key != "" && p != "" && Streamable(key, p) && |s| >= |key| && !(key <= s)
    requires CutSafe(s[1..], rest, key, p)
    ensures CutSafe(s, rest, key, p)
  {
    hide Replace, Streamable, CutSafe;
    var out' := Replace(s[1..], key, p);
    ReplaceChar(s, key, p);
    assert (s + rest)[..|key|] == s[..|key|] && (s + rest)[1..] == s[1..] + rest;
    ReplaceChar(s + rest, key, p);
    if |out'| >= |key| - 1 {
      LongCharSafe(s, rest, key, p);
    } else {
      SameOrMarked(s, key, p);
      ShortMarked(s[0], out', rest, key, p);
      ShortCharSafe(s, rest, key, p);
    }
  }

  /** What `ReplaceChar` says of `s` and of `s + rest`. */
  predicate FirstStays(s: string, rest: string, key: string, p: string)
    requires s != "" && key != ""
  {
    && Replace(s, key, p) == [s[0]] + Replace(s[1..], key, p)
    && Replace(s + rest, key, p) == [s[0]] + Replace(s[1..] + rest, key, p)
  }

  lemma LongCharSafe(s: string, rest: string, key: string, p: string)
    requires s != "" && key != "" && FirstStays(s, rest, key, p) && CutSafe(s[1..], rest, key, p)
    requires |Replace(s[1..], key, p)| >= |key| - 1
    ensures CutSafe(s, rest, key, p)
  {
    hide Replace;
    var h, c, out' := |key| - 1, [s[0]], Replace(s[1..], key, p);
    KeptOfLong(c, out', h);
    var x := Replace(Kept(out', h) + rest, key, p);
    assert c + (Gone(out', h) + x) == c + Gone(out', h) + x;
  }

  lemma ShortCharSafe(s: string, rest: string, key: string, p: string)
    requires s != "" && key != "" && FirstStays(s, rest, key, p) && CutSafe(s[1..], rest, key, p)
    requires var out' := Replace(s[1..], key, p);
             |out'| < |key| - 1 && Replace([s[0]] + out' + rest, key, p) == [s[0]] + Replace(out' + rest, key, p)
    ensures CutSafe(s, rest, key, p)
  {
    hide Replace;
    var out' := Replace(s[1..], key, p);
    assert "" + Replace(out' + rest, key, p) == Replace(out' + rest, key, p);
    assert "" + Replace([s[0]] + out' + rest, key, p) == Replace([s[0]] + out' + rest, key, p);
  }

  lemma ShortMarked(c: char, out: string, rest: string, key: string, p: string)
    requires p != "" && Streamable(key, p) && |out| + 1 < |key| && Contains([c] + out, p)
    ensures Replace([c] + out + rest, key, p) == [c] + Replace(out + rest, key, p)
  {
    hide Replace, Streamable;
    var j :| OccursAt([c] + out, p, j);
    MarkedNoKey([c] + out, j, rest, key, p);
    assert ([c] + out + rest)[1..] == out + rest;
    ReplaceChar([c] + out + rest, key, p);
  }

  /** A short output that holds a placeholder does not begin an occurrence of the key. */
  lemma MarkedNoKey(out: string, j: int, rest: string, key: string, p: string)
    requires p != "" && Streamable(key, p) && |out| < |key| && OccursAt(out, p, j)
    ensures !(key <= out + rest)
  {
    assert !Agrees(key, j, p);
    var q :| 0 <= q < |key| && 0 <= q - j < |p| && key[q] != p[q - j];
    assert out[j..j + |p|][q - j] == out[q] == (out + rest)[q];
  }

  /** No occurrence of the key starts inside the last characters of a placeholder. */
  lemma TailOfPlaceholder(t: nat, w: string, key: string, p: string)
    requires key != "" && Streamable(key, p) && t <= |p| && |p| - t < |key|
    ensures Replace(p[t..] + w, key, p) == p[t..] + Replace(w, key, p)
  {
    var x := p[t..];
    forall i | 0 <= i < |x| ensures !OccursAt(x + w, key, i) {
      var d := -(t + i);
      assert !Agrees(key, d, p);
      var q :| 0 <= q < |key| && 0 <= q - d < |p| && key[q] != p[q - d];
      assert i + q < |x| && (x + w)[i + q] == p[q - d];
      if i + |key| <= |x + w| { assert (x + w)[i..i + |key|][q] == (x + w)[i + q]; }
    }
    SkipQuiet(x, w, key, p);
  }

  lemma {:induction false} FirstOccurrence(s: string, key: string, i: int) returns (first: int)
    requires OccursAt(s, key, i)
    ensures 0 <= first <= i && OccursAt(s, key, first)
    ensures forall j | 0 <= j < first :: !OccursAt(s, key, j)
  {
    first := 0;
    while !OccursAt(s, key, first)
      invariant 0 <= first <= i
      invariant forall j | 0 <= j < first :: !OccursAt(s, key, j)
      decreases i - first
    {
      first := first + 1;
    }
  }

  /** A pass that finds the key changes the text. */
  lemma {:induction false} FoundChanges(s: string, key: string, i: int, p: string)
    requires key != "" && key != p && OccursAt(s, key, i)
    ensures Replace(s, key, p) != s
  {
    var first := FirstOccurrence(s, key, i);
    var x, w := s[..first], s[first..];
    assert s == x + w;
    SkipQuiet(x, w, key, p);
    assert key <= w;
    if |key| == |p| {
      assert Replace(w, key, p)[..|key|] == p && w[..|key|] == key;
    } else {
      GrowsOrShrinks(w[|key|..], key, p);
    }
  }

  lemma {:induction false} GrowsOrShrinks(s: string, key: string, p: string)
    requires key != ""
    ensures |key| < |p| ==> |Replace(s, key, p)| >= |s|
    ensures |key| > |p| ==> |Replace(s, key, p)| <= |s|
  {
    if key <= s {
      GrowsOrShrinks(s[|key|..], key, p);
    } else if s != "" {
      GrowsOrShrinks(s[1..], key, p);
    }
  }

  /** An occurrence of the key before `d` in `key[..d] + key` moves the placement to the left. */
  lemma EarlierPlacement(key: string, d: int, i: int, p: string)
    requires 0 <= i < d && d + |p| <= |key| && Agrees(key, d, p)
    requires OccursAt(key[..d] + key, key, i)
    ensures Agrees(key, i, p)
  {
    var s := key[..d] + key;
    forall j | 0 <= j < |key| && 0 <= j - i < |p| ensures key[j] == p[j - i] {
      var j' := j - i + d;
      assert s[i..i + |key|][j'] == s[i + j'] == key[j' + i - d];
    }
  }

  /**
   * A placement that ends before the key does is turned into a text whose redaction goes wrong when
   * the text is cut between `a` and `b`.
   */
  lemma {:induction false} WrongCut(key: string, d: int, p: string) returns (a: string, b: string)
    requires p != "" && key != p && -|p| < d && d + |p| < |key| && Agrees(key, d, p)
    ensures !CutSafe(a, b, key, p)
    decreases if d > 0 then d else 0
  {
    b := key[d + |p|..];
    if d <= 0 {
      a := key;
      WrongAfterPlaceholder(key, d, p);
    } else {
      a := key[..d] + key;
      assert a[d..] == key;
      var first := FirstOccurrence(a, key, d);
      if first < d {
        EarlierPlacement(key, d, first, p);
        a, b := WrongCut(key, first, p);
      } else {
        WrongInsideKey(key, d, p);
      }
    }
  }

  /** The key, found first at its own place, is the one replacement. */
  lemma OneReplacement(head: string, key: string, tail: string, p: string)
    requires key != "" && |tail| < |key|
    requires forall i | 0 <= i < |head| :: !OccursAt(head + key, key, i)
    ensures Replace(head + (key + tail), key, p) == head + (p + tail)
  {
    var w := key + tail;
    forall i | 0 <= i < |head| ensures !OccursAt(head + w, key, i) {
      assert !OccursAt(head + key, key, i);
      assert (head + w)[i..i + |key|] == (head + key)[i..i + |key|];
    }
    SkipQuiet(head, w, key, p);
    assert w[..|key|] == key && w[|key|..] == tail;
    ShortStays(tail, key, p);
  }

  lemma WrongAfterPlaceholder(key: string, d: int, p: string)
    requires key != p && -|p| < d <= 0 && d + |p| < |key| && Agrees(key, d, p)
    ensures !CutSafe(key, key[d + |p|..], key, p)
  {
    hide Replace;
    var h, b := |key| - 1, key[d + |p|..];
    KeyAlone(key, "", p);
    KeyAlone(key, b, p);
    assert key + "" == key && p + "" == p;
    var w := Kept(p, h) + b;
    KeyEndsCarry(key, d, p);
    FoundChanges(w, key, |w| - |key|, p);
    assert Gone(p, h) + w == p + b;
    SameRest(Gone(p, h), w, Replace(w, key, p));
  }

  lemma KeyAlone(key: string, tail: string, p: string)
    requires |tail| < |key|
    ensures Replace(key + tail, key, p) == p + tail
  {
    ReplaceKey(tail, key, p);
    ShortStays(tail, key, p);
  }

  lemma SameRest(front: string, a: string, b: string)
    ensures front + a == front + b ==> a == b
  {
    assert (front + a)[|front|..] == a && (front + b)[|front|..] == b;
  }

  lemma KeyEndsCarry(key: string, d: int, p: string)
    requires -|p| < d <= 0 && d + |p| < |key| && Agrees(key, d, p)
    ensures var w := Kept(p, |key| - 1) + key[d + |p|..]; OccursAt(w, key, |w| - |key|)
  {
    hide Agrees, OccursAt;
    var head, b := key[..d + |p|], key[d + |p|..];
    Overlap(key, d, p, 0, d + |p|);
    assert head == p[-d..] && key == head + b;
    var front := KeptEnds(p, |key| - 1, -d);
    EndsWith(front, head, b);
  }

  /** What is kept of a text ends with every end of the text that is short enough. */
  lemma KeptEnds(p: string, hold: nat, from: nat) returns (front: string)
    requires from <= |p| && |p| - from <= hold
    ensures Kept(p, hold) == front + p[from..]
  {
    front := if |p| <= hold then p[..from] else p[|p| - hold..from];
  }

  lemma EndsWith(front: string, head: string, b: string)
    ensures var w := front + head + b; OccursAt(w, head + b, |w| - |head + b|)
  {
    assert (front + head + b)[|front|..] == head + b;
  }

  lemma KeyAroundPlaceholder(key: string, d: int, p: string)
    requires 0 < d && d + |p| < |key| && Agrees(key, d, p)
    ensures key[..d] + p + key[d + |p|..] == key
  {
    Overlap(key, d, p, d, d + |p|);
    assert key == key[..d] + key[d..d + |p|] + key[d + |p|..];
  }

  lemma WrongInsideKey(key: string, d: int, p: string)
    requires p != "" && 0 < d && d + |p| < |key| && Agrees(key, d, p) && FirstAt(key, d)
    ensures !CutSafe(key[..d] + key, key[d + |p|..], key, p)
  {
    hide Replace, Agrees, FirstAt;
    var head, b := key[..d], key[d + |p|..];
    KeyAroundPlaceholder(key, d, p);
    FirstAtHead(key, d);
    OneReplacement(head, key, "", p);
    OneReplacement(head, key, b, p);
    OneReplacement("", key, "", p);
    assert head + (key + "") == head + key && head + (p + "") == head + p && "" + (key + "") == key
        && "" + (p + "") == p;
    assert Replace(key, key, p) == p && Replace(head + key, key, p) == head + p;
    assert head + key + b == head + (key + b) && head + (p + b) == head + p + b == key;
    assert Gone(head + p, |key| - 1) == "" && Kept(head + p, |key| - 1) == head + p;
    assert "" + p == p != key;
  }

  lemma FirstAtHead(key: string, d: int)
    requires 0 <= d < |key| && FirstAt(key, d)
    ensures forall i | 0 <= i < |key[..d]| :: !OccursAt(key[..d] + key, key, i)
  {
  }

  /** An occurrence at the front of an output is the text's own, or reaches the first placeholder. */
  lemma {:induction false} FrontOfOutput(s: string, key: string, m: nat, p: string) returns (j: int)
    requires key != "" && m <= |Replace(s, key, p)|
    ensures j == -1 ==> m <= |s| && Replace(s, key, p)[..m] == s[..m]
    ensures j != -1 ==> 0 <= j < m && j + |key| <= |s| && Replace(s, key, p)[..j] == s[..j] && OccursAt(s, key, j)
    ensures j != -1 ==> OccursAt(Replace(s, key, p), p, j) && forall i | 0 <= i < j :: !OccursAt(s, key, i)
  {
    hide Replace;
    if m == 0 {
      j := -1;
    } else if key <= s {
      assert s == key + s[|key|..];
      ReplaceKey(s[|key|..], key, p);
      j := 0;
    } else {
      if s == "" { EmptyStays(key, p); }
      ReplaceChar(s, key, p);
      var out := Replace(s, key, p);
      assert out[1..] == Replace(s[1..], key, p);
      j := FrontOfOutput(s[1..], key, m - 1, p);
      if j == -1 {
        assert out[..m] == [s[0]] + out[1..][..m - 1];
        assert s[..m] == [s[0]] + s[1..][..m - 1];
      } else {
        OccursInTail(s, key, j);
        OccursInTail(out, p, j);
        assert out[..j + 1] == [s[0]] + out[1..][..j];
        assert s[..j + 1] == [s[0]] + s[1..][..j];
        forall i | 0 <= i < j + 1 ensures !OccursAt(s, key, i) {
          if i > 0 { OccursInTail(s, key, i - 1); }
        }
        j := j + 1;
      }
    }
  }

  lemma {:induction false} NeverRegrows(s: string, key: string, i: int, p: string)
    requires key != "" && !Regrows(key, p)
    ensures !OccursAt(Replace(s, key, p), key, i)
  {
    hide Replace, Regrows, OccursAt, Agrees;
    var out := Replace(s, key, p);
    if 0 <= i && i + |key| <= |out| {
      if key <= s {
        var rest := s[|key|..];
        assert s == key + rest;
        ReplaceKey(rest, key, p);
        if i >= |p| {
          NeverRegrows(rest, key, i - |p|, p);
          OccursLater(p, Replace(rest, key, p), key, i);
        } else {
          PlacementClashes(key, -i, p);
          ClashAfter(out, key, i, p);
        }
      } else if i > 0 {
        if s == "" { EmptyStays(key, p); }
        ReplaceChar(s, key, p);
        NeverRegrows(s[1..], key, i - 1, p);
        assert out[1..] == Replace(s[1..], key, p);
        OccursInTail(out, key, i - 1);
      } else {
        NotAtFront(s, key, p);
        AtZero(out, key);
      }
    } else {
      NotInside(out, key, i);
    }
  }

  lemma AtZero(s: string, key: string)
    ensures OccursAt(s, key, 0) == (key <= s)
  {
  }

  lemma NotInside(s: string, key: string, i: int)
    ensures OccursAt(s, key, i) ==> 0 <= i && i + |key| <= |s|
  {
  }

  lemma OccursLater(x: string, y: string, key: string, i: nat)
    requires i >= |x|
    ensures OccursAt(x + y, key, i) == OccursAt(y, key, i - |x|)
  {
    if i + |key| <= |x + y| { assert (x + y)[i..i + |key|] == y[i - |x|..i - |x| + |key|]; }
  }

  /** A placement without an earlier occurrence clashes, when nothing regrows. */
  lemma PlacementClashes(key: string, d: int, p: string)
    requires !Regrows(key, p) && -|p| < d < |key| && (d <= 0 || FirstAt(key, d))
    ensures !Agrees(key, d, p)
  {
    hide Agrees;
    assert FirstAt(key, d);
  }

  lemma ClashAfter(out: string, key: string, i: int, p: string)
    requires p <= out && 0 <= i < |p| && !Agrees(key, -i, p)
    ensures !OccursAt(out, key, i)
  {
    var q :| 0 <= q < |key| && 0 <= q + i < |p| && key[q] != p[q + i];
    assert out[i + q] == p[q + i];
    if i + |key| <= |out| { assert out[i..i + |key|][q] == out[i + q]; }
  }

  lemma ClashBefore(out: string, key: string, d: int, p: string)
    requires OccursAt(out, p, d) && d < |key| && !Agrees(key, d, p)
    ensures !(key <= out)
  {
    var q :| 0 <= q < |key| && 0 <= q - d < |p| && key[q] != p[q - d];
    assert out[d..d + |p|][q - d] == out[q];
  }

  /** The first occurrence in a text that begins like the key is the first at its own place. */
  lemma FirstInText(s: string, key: string, d: int)
    requires 0 <= d < |key| && OccursAt(s, key, d) && s[..d] == key[..d]
    requires forall i | 0 <= i < d :: !OccursAt(s, key, i)
    ensures FirstAt(key, d)
  {
    var x := key[..d] + key;
    assert s[..d + |key|] == s[..d] + s[d..d + |key|];
    assert s[..d + |key|] == x;
    forall i | 0 <= i < d ensures !OccursAt(x, key, i) {
      assert !OccursAt(s, key, i);
      SliceOfPrefix(s, d + |key|, i, i + |key|);
    }
  }

  lemma SliceOfPrefix(s: string, n: nat, i: nat, j: nat)
    requires i <= j <= n <= |s|
    ensures s[..n][i..j] == s[i..j]
  {
  }

  lemma NotAtFront(s: string, key: string, p: string)
    requires key != "" && !Regrows(key, p) && !(key <= s)
    ensures !(key <= Replace(s, key, p))
  {
    hide Replace, Agrees, Regrows, FirstAt;
    var out := Replace(s, key, p);
    if |key| <= |out| {
      var d := FrontOfOutput(s, key, |key|, p);
      if d == -1 {
        assert out[..|key|] == s[..|key|];
      } else if out[..d] == key[..d] {
        AtZero(s, key);
        FirstInText(s, key, d);
        PlacementClashes(key, d, p);
        ClashBefore(out, key, d, p);
      } else {
        assert out[..|key|][..d] == out[..d];
      }
    }
  }

  /** The text that turns such a placement into an output that holds the key. */
  function Regrown(key: string, d: int, p: string): string
    requires -|p| < d < |key|
  {
    Before(key, d) + (key + After(key, d, p))
  }

  function Before(key: string, d: int): string
    requires d < |key|
  {
    if d > 0 then key[..d] else ""
  }

  function After(key: string, d: int, p: string): string
    requires -|p| < d
  {
    if d + |p| < |key| then key[d + |p|..] else ""
  }

  lemma RegrownHoldsKey(key: string, d: int, p: string)
    requires key != "" && -|p| < d < |key| && Agrees(key, d, p) && FirstAt(key, d)
    ensures Contains(Replace(Regrown(key, d, p), key, p), key)
  {
    hide Replace;
    OneReplacement(Before(key, d), key, After(key, d, p), p);
    KeyInRegrown(key, d, p);
  }

  lemma KeyInRegrown(key: string, d: int, p: string)
    requires -|p| < d < |key| && Agrees(key, d, p)
    ensures OccursAt(Before(key, d) + (p + After(key, d, p)), key, if d > 0 then 0 else -d)
  {
    hide Agrees, OccursAt;
    var end := if d + |p| < |key| then d + |p| else |key|;
    var tail := After(key, d, p);
    if d > 0 {
      Overlap(key, d, p, d, end);
      assert key == key[..d] + (p[..end - d] + tail);
      KeyInFront(key[..d], p, end - d, tail);
    } else {
      Overlap(key, d, p, 0, end);
      assert key == p[-d..end - d] + tail;
      assert "" + (p + tail) == p + tail;
      KeyInside(p, -d, end - d, tail);
    }
  }

  lemma KeyInFront(head: string, p: string, n: nat, tail: string)
    requires n <= |p| && (n == |p| || tail == "")
    ensures OccursAt(head + (p + tail), head + (p[..n] + tail), 0)
  {
    assert (p + tail)[..|p[..n] + tail|] == p[..n] + tail;
  }

  lemma KeyInside(p: string, m: nat, n: nat, tail: string)
    requires m <= n <= |p| && (n == |p| || tail == "")
    ensures OccursAt(p + tail, p[m..n] + tail, m)
  {
    assert (p + tail)[m..m + |p[m..n] + tail|] == p[m..n] + tail;
  }

  /** Where they overlap, key and placeholder are the same characters. */
  lemma Overlap(key: string, d: int, p: string, start: nat, end: nat)
    requires Agrees(key, d, p) && d <= start <= end <= |key| && end - d <= |p|
    ensures key[start..end] == p[start - d..end - d]
  {
    assert forall j | start <= j < end :: key[j] == p[j - d];
  }

  lemma InsidePlaceholder(key: string, d: int, p: string)
    requires d <= 0 && |key| - d <= |p|
    ensures Agrees(key, d, p) ==> p[-d..-d + |key|] == key
  {
    if Agrees(key, d, p) {
      assert forall j | 0 <= j < |key| :: key[j] == p[j - d];
    }
  }
}
