/** The JavaScript string operations that several Workers share: `includes`, `split`, `join`, `trim`. */
module JsStrings {

  /** `pattern` occurs in `s` at index `i`. */
  predicate OccursAt(s: string, pattern: string, i: int) {
    0 <= i && i + |pattern| <= |s| && s[i..i + |pattern|] == pattern
  }

  ghost predicate Contains(s: string, pattern: string) {
    exists i :: OccursAt(s, pattern, i)
  }

  lemma OccursInTail(s: string, pattern: string, i: nat)
    requires s != ""
    ensures OccursAt(s[1..], pattern, i) == OccursAt(s, pattern, i + 1)
  {
    if i + |pattern| <= |s| - 1 {
      assert s[1..][i..i + |pattern|] == s[i + 1..i + 1 + |pattern|];
    }
  }

  /** One character occurs exactly where it stands. */
  lemma OccursChar(s: string, c: char, i: nat)
    requires i < |s|
    ensures OccursAt(s, [c], i) == (s[i] == c)
  {
    assert s[i..i + 1] == [s[i]];
  }

  /** `s.indexOf(pattern)`. */
  function IndexOf(s: string, pattern: string): (i: int)
    ensures i == -1 || OccursAt(s, pattern, i)
  {
    if pattern <= s then 0
    else if s == "" then -1
    else
      var tail := IndexOf(s[1..], pattern);
      if tail == -1 then -1
      else
        OccursInTail(s, pattern, tail);
        tail + 1
  }

  /** `indexOf` finds the leftmost occurrence, and finds one whenever there is one. */
  lemma {:induction false} IndexOfIsFirst(s: string, pattern: string, j: nat)
    requires IndexOf(s, pattern) == -1 || j < IndexOf(s, pattern)
    ensures !OccursAt(s, pattern, j)
  {
    if s != "" && j > 0 {
      IndexOfIsFirst(s[1..], pattern, j - 1);
      OccursInTail(s, pattern, j - 1);
    }
  }

  /** `s.split(sep)`: scan left to right, cut at every non-overlapping separator. */
  function Split(s: string, sep: string): (parts: seq<string>)
    requires sep != ""
    ensures parts != []
  {
    if sep <= s then [""] + Split(s[|sep|..], sep)
    else if s == "" then [""]
    else
      var rest := Split(s[1..], sep);
      [[s[0]] + rest[0]] + rest[1..]
  }

  /** `parts.join(glue)`. */
  function Join(parts: seq<string>, glue: string): string {
    if parts == [] then ""
    else if |parts| == 1 then parts[0]
    else parts[0] + glue + Join(parts[1..], glue)
  }

  function Concat(parts: seq<string>): string {
    if parts == [] then "" else parts[0] + Concat(parts[1..])
  }

  /** What `split(pattern).join(glue)` does in one pass: the leftmost occurrences are replaced. */
  function Replace(s: string, pattern: string, glue: string): string
    requires pattern != ""
  {
    if pattern <= s then glue + Replace(s[|pattern|..], pattern, glue)
    else if s == "" then ""
    else [s[0]] + Replace(s[1..], pattern, glue)
  }

  lemma {:induction false} SplitJoinReplaces(s: string, pattern: string, glue: string)
    requires pattern != ""
    ensures Join(Split(s, pattern), glue) == Replace(s, pattern, glue)
  {
    if pattern <= s {
      SplitJoinReplaces(s[|pattern|..], pattern, glue);
      JoinCons("", Split(s[|pattern|..], pattern), glue);
      assert "" + glue == glue;
    } else if s != "" {
      SplitJoinReplaces(s[1..], pattern, glue);
      JoinHead([s[0]], Split(s[1..], pattern), glue);
    }
  }

  lemma JoinCons(head: string, tail: seq<string>, glue: string)
    requires tail != []
    ensures Join([head] + tail, glue) == head + glue + Join(tail, glue)
  {
    assert ([head] + tail)[1..] == tail;
  }

  lemma JoinHead(x: string, parts: seq<string>, glue: string)
    requires parts != []
    ensures Join([x + parts[0]] + parts[1..], glue) == x + Join(parts, glue)
  {
    if |parts| > 1 {
      JoinCons(x + parts[0], parts[1..], glue);
      var rest := Join(parts[1..], glue);
      assert x + parts[0] + glue + rest == x + (parts[0] + glue + rest);
    } else {
      assert [x + parts[0]] + parts[1..] == [x + parts[0]];
    }
  }

  /** Splitting loses nothing: the parts joined with the separator rebuild the text. */
  lemma {:induction false} SplitThenJoin(s: string, sep: string)
    requires sep != ""
    ensures Join(Split(s, sep), sep) == s
  {
    SplitJoinReplaces(s, sep, sep);
    ReplaceBySelf(s, sep);
  }

  lemma {:induction false} ReplaceBySelf(s: string, sep: string)
    requires sep != ""
    ensures Replace(s, sep, sep) == s
  {
    if sep <= s {
      ReplaceBySelf(s[|sep|..], sep);
    } else if s != "" {
      ReplaceBySelf(s[1..], sep);
    }
  }

  /** The first separator of `x + sep + y` ends the first part. */
  lemma {:induction false} SplitAtFirst(x: string, sep: string, y: string)
    requires sep != ""
    requires forall i | 0 <= i < |x| :: !OccursAt(x + sep, sep, i)
    ensures Split(x + sep + y, sep) == [x] + Split(y, sep)
  {
    var s := x + sep + y;
    if x == "" {
      assert s == sep + y && s[|sep|..] == y;
    } else {
      assert s[..|sep|] == (x + sep)[..|sep|];
      assert !OccursAt(x + sep, sep, 0);
      assert s[1..] == x[1..] + sep + y;
      forall i | 0 <= i < |x[1..]| ensures !OccursAt(x[1..] + sep, sep, i) {
        assert !OccursAt(x + sep, sep, i + 1);
        assert (x + sep)[1..] == x[1..] + sep;
        OccursInTail(x + sep, sep, i);
      }
      SplitAtFirst(x[1..], sep, y);
      assert [s[0]] + x[1..] == x;
    }
  }

  /** A text without the separator is its own only part. */
  lemma {:induction false} SplitWithout(s: string, sep: string)
    requires sep != "" && !Contains(s, sep)
    ensures Split(s, sep) == [s]
  {
    assert !OccursAt(s, sep, 0);
    if s != "" {
      forall i ensures !OccursAt(s[1..], sep, i) {
        if i >= 0 { OccursInTail(s, sep, i); }
      }
      SplitWithout(s[1..], sep);
      assert [s[0]] + s[1..] == s;
    }
  }

  /** Parts that do not hold the one-character separator survive `join` and `split`. */
  lemma {:induction false} JoinThenSplit(parts: seq<string>, c: char)
    requires parts != []
    requires forall p | p in parts :: c !in p
    ensures Split(Join(parts, [c]), [c]) == parts
  {
    var x := parts[0];
    assert x in parts;
    if |parts| == 1 {
      forall i ensures !OccursAt(x, [c], i) {
        if 0 <= i < |x| { OccursChar(x, c, i); }
      }
      SplitWithout(x, [c]);
    } else {
      forall i | 0 <= i < |x| ensures !OccursAt(x + [c], [c], i) {
        OccursChar(x + [c], c, i);
      }
      SplitAtFirst(x, [c], Join(parts[1..], [c]));
      JoinThenSplit(parts[1..], c);
    }
  }

  lemma {:induction false} ConcatAppend(a: seq<string>, b: seq<string>)
    ensures Concat(a + b) == Concat(a) + Concat(b)
  {
    if a == [] {
      assert a + b == b;
    } else {
      ConcatAppend(a[1..], b);
      assert (a + b)[1..] == a[1..] + b && (a + b)[0] == a[0];
      assert a[0] + (Concat(a[1..]) + Concat(b)) == a[0] + Concat(a[1..]) + Concat(b);
    }
  }

  /** The characters that `trim` removes: ECMAScript white space and line terminators. */
  predicate IsSpace(c: char) {
    || '\t' <= c <= '\r' || c == ' ' || c == '\U{00A0}' || c == '\U{1680}' || '\U{2000}' <= c <= '\U{200A}'
    || c == '\U{2028}' || c == '\U{2029}' || c == '\U{202F}' || c == '\U{205F}' || c == '\U{3000}' || c == '\U{FEFF}'
  }

  function TrimStart(s: string): string {
    if s != "" && IsSpace(s[0]) then TrimStart(s[1..]) else s
  }

  function TrimEnd(s: string): string {
    if s != "" && IsSpace(s[|s| - 1]) then TrimEnd(s[..|s| - 1]) else s
  }

  /** `s.trim()`. */
  function Trim(s: string): string {
    TrimEnd(TrimStart(s))
  }

  /** Nothing is left to trim at either end. */
  predicate IsTrimmed(s: string) {
    s != "" ==> !IsSpace(s[0]) && !IsSpace(s[|s| - 1])
  }

  lemma {:induction false} TrimStartEnds(s: string)
    ensures TrimStart(s) != "" ==> !IsSpace(TrimStart(s)[0])
  {
    if s != "" && IsSpace(s[0]) { TrimStartEnds(s[1..]); }
  }

  lemma {:induction false} TrimEndEnds(s: string)
    ensures TrimEnd(s) <= s
    ensures TrimEnd(s) != "" ==> !IsSpace(TrimEnd(s)[|TrimEnd(s)| - 1])
  {
    if s != "" && IsSpace(s[|s| - 1]) { TrimEndEnds(s[..|s| - 1]); }
  }

  predicate AllSpace(s: string) {
    forall c | c in s :: IsSpace(c)
  }

  lemma {:induction false} TrimStartDrops(s: string) returns (front: string)
    ensures s == front + TrimStart(s) && AllSpace(front)
  {
    front := "";
    if s != "" && IsSpace(s[0]) {
      var rest := TrimStartDrops(s[1..]);
      front := [s[0]] + rest;
    }
  }

  lemma {:induction false} TrimEndDrops(s: string) returns (back: string)
    ensures s == TrimEnd(s) + back && AllSpace(back)
  {
    back := "";
    if s != "" && IsSpace(s[|s| - 1]) {
      var rest := TrimEndDrops(s[..|s| - 1]);
      back := rest + [s[|s| - 1]];
    }
  }

  /** `trim` drops white space in front and at the end, and nothing else. */
  lemma TrimDropsSpace(s: string) returns (front: string, back: string)
    ensures s == front + Trim(s) + back && AllSpace(front) && AllSpace(back) && IsTrimmed(Trim(s))
  {
    front := TrimStartDrops(s);
    back := TrimEndDrops(TrimStart(s));
    TrimTrims(s);
  }

  /** The 25 characters that count as white space. */
  lemma SpacesAre(c: char)
    ensures IsSpace(c) <==>
            c in {'\U{0009}', '\U{000A}', '\U{000B}', '\U{000C}', '\U{000D}', '\U{0020}', '\U{00A0}', '\U{1680}',
                  '\U{2000}', '\U{2001}', '\U{2002}', '\U{2003}', '\U{2004}', '\U{2005}', '\U{2006}', '\U{2007}',
                  '\U{2008}', '\U{2009}', '\U{200A}', '\U{2028}', '\U{2029}', '\U{202F}', '\U{205F}', '\U{3000}',
                  '\U{FEFF}'}
  {
  }

  /** `trim` leaves a trimmed text, and leaves a trimmed text alone. */
  lemma TrimTrims(s: string)
    ensures IsTrimmed(Trim(s))
    ensures IsTrimmed(s) ==> Trim(s) == s
  {
    TrimStartEnds(s);
    TrimEndEnds(TrimStart(s));
  }
}
