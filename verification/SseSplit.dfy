/** demos/byok-playground/src/worker/stream.ts: cutting a buffer into events and lines. */
module SseSplit {
  import opened JsStrings

  datatype Parts = Parts(events: seq<string>, rest: string)

  // ---------------------------------------------------------------- blank-line terminated events

  /** Where the first event of the buffer ends, or 0 when no event is complete. */
  function EventEnd(buffer: string): (end: nat)
    ensures end <= |buffer|
  {
    var idxN := IndexOf(buffer, "\n\n");
    var idxR := IndexOf(buffer, "\r\n\r\n");
    if idxR != -1 && (idxN == -1 || idxR <= idxN) then idxR + 4
    else if idxN != -1 then idxN + 2
    else 0
  }

  function EventsOf(buffer: string): Parts {
    var end := EventEnd(buffer);
    if end == 0 then Parts([], buffer)
    else
      var tail := EventsOf(buffer[end..]);
      Parts([buffer[..end]] + tail.events, tail.rest)
  }

  method SplitSseEvents(buffer: string) returns (events: seq<string>, rest: string)
    ensures Parts(events, rest) == EventsOf(buffer)
  {
    hide EventsOf;
    events, rest := [], buffer;
    while true
      invariant EventsOf(buffer) == Parts(events + EventsOf(rest).events, EventsOf(rest).rest)
      decreases |rest|
    {
      var idxN := IndexOf(rest, "\n\n");
      var idxR := IndexOf(rest, "\r\n\r\n");
      var idx, sep := -1, 2;
      if idxR != -1 && (idxN == -1 || idxR <= idxN) {
        idx, sep := idxR, 4;
      } else if idxN != -1 {
        idx, sep := idxN, 2;
      }
      if idx == -1 {
        NoEvent(rest);
        break;
      }
      FirstEvent(rest, idx + sep);
      events := events + [rest[..idx + sep]];
      rest := rest[idx + sep..];
    }
  }

  lemma NoEvent(buffer: string)
    requires EventEnd(buffer) == 0
    ensures EventsOf(buffer) == Parts([], buffer)
  {
  }

  lemma FirstEvent(buffer: string, end: nat)
    requires 0 < end == EventEnd(buffer)
    ensures EventsOf(buffer) == Parts([buffer[..end]] + EventsOf(buffer[end..]).events, EventsOf(buffer[end..]).rest)
  {
  }

  /** A separator (`\n\n` or `\r\n\r\n`) ends right before index `i`. */
  predicate SeparatorEndsAt(s: string, i: nat) {
    && i <= |s|
    && ((i >= 2 && s[i - 2..i] == "\n\n") || (i >= 4 && s[i - 4..i] == "\r\n\r\n"))
  }

  /** An event: it ends with a separator and holds no earlier one. */
  ghost predicate IsEvent(e: string) {
    SeparatorEndsAt(e, |e|) && forall i | 0 <= i < |e| :: !SeparatorEndsAt(e, i)
  }

  lemma BlankLineEnds(s: string, i: nat)
    requires i <= |s|
    ensures SeparatorEndsAt(s, i) ==> OccursAt(s, "\n\n", i - 2) || OccursAt(s, "\r\n\r\n", i - 4)
  {
  }

  /** The two searches together find the first separator end. */
  lemma EventEndIsFirst(s: string)
    ensures EventEnd(s) != 0 ==> SeparatorEndsAt(s, EventEnd(s))
    ensures forall i | 0 <= i <= |s| && (EventEnd(s) == 0 || i < EventEnd(s)) :: !SeparatorEndsAt(s, i)
  {
    hide IndexOf;
    var idxN, idxR := IndexOf(s, "\n\n"), IndexOf(s, "\r\n\r\n");
    if idxN != -1 && idxR != -1 { NoCrossing(s, idxN, idxR); }
    forall i | 0 <= i <= |s| && (EventEnd(s) == 0 || i < EventEnd(s)) ensures !SeparatorEndsAt(s, i) {
      BlankLineEnds(s, i);
      if i >= 2 && (idxN == -1 || i - 2 < idxN) { IndexOfIsFirst(s, "\n\n", i - 2); }
      if i >= 4 && (idxR == -1 || i - 4 < idxR) { IndexOfIsFirst(s, "\r\n\r\n", i - 4); }
    }
  }

  /** `\n\n` does not occur inside `\r\n\r\n`. */
  lemma NoCrossing(s: string, n: nat, r: nat)
    requires OccursAt(s, "\n\n", n) && OccursAt(s, "\r\n\r\n", r)
    ensures n < r - 1 || n >= r + 3
  {
    assert s[n..n + 2][0] == s[n] && s[n..n + 2][1] == s[n + 1];
    assert s[r..r + 4][0] == s[r] && s[r..r + 4][2] == s[r + 2];
  }

  lemma SeparatorInPrefix(s: string, n: nat, i: nat)
    requires i <= n <= |s|
    ensures SeparatorEndsAt(s[..n], i) == SeparatorEndsAt(s, i)
  {
    var t := s[..n];
    assert i >= 2 ==> t[i - 2..i] == s[i - 2..i];
    assert i >= 4 ==> t[i - 4..i] == s[i - 4..i];
  }

  /** A complete event stays the first event when the buffer grows. */
  lemma EventEndStays(a: string, b: string)
    requires EventEnd(a) != 0
    ensures EventEnd(a + b) == EventEnd(a)
  {
    EventEndIsFirst(a);
    EventEndIsFirst(a + b);
    assert (a + b)[..|a|] == a;
    forall i | 0 <= i <= |a| ensures SeparatorEndsAt(a, i) == SeparatorEndsAt(a + b, i) {
      SeparatorInPrefix(a + b, |a|, i);
    }
    assert SeparatorEndsAt(a + b, EventEnd(a));
  }

  /** Splitting `a`, then its rest followed by `b`, is splitting `a + b`. */
  lemma {:induction false} SplittingIsIncremental(a: string, b: string)
    ensures var first := EventsOf(a);
            var second := EventsOf(first.rest + b);
            EventsOf(a + b) == Parts(first.events + second.events, second.rest)
  {
    hide EventsOf, EventEnd;
    var end := EventEnd(a);
    if end == 0 {
      NoEvent(a);
    } else {
      EventEndStays(a, b);
      assert (a + b)[end..] == a[end..] + b && (a + b)[..end] == a[..end];
      SplittingIsIncremental(a[end..], b);
      FirstEvent(a, end);
      FirstEvent(a + b, end);
      var first := EventsOf(a[end..]);
      var second := EventsOf(first.rest + b);
      assert [a[..end]] + (first.events + second.events) == [a[..end]] + first.events + second.events;
    }
  }

  /** Nothing is lost; every event holds its only separator at its end, and the rest holds none. */
  lemma {:induction false} EventsPartitionBuffer(buffer: string)
    ensures Concat(EventsOf(buffer).events) + EventsOf(buffer).rest == buffer
    ensures forall e | e in EventsOf(buffer).events :: IsEvent(e)
    ensures forall i | 0 <= i <= |EventsOf(buffer).rest| :: !SeparatorEndsAt(EventsOf(buffer).rest, i)
  {
    hide EventsOf, EventEnd;
    var end := EventEnd(buffer);
    EventEndIsFirst(buffer);
    if end == 0 {
      NoEvent(buffer);
    } else {
      var head, tail := buffer[..end], EventsOf(buffer[end..]);
      EventsPartitionBuffer(buffer[end..]);
      FirstEvent(buffer, end);
      forall i | 0 <= i <= end ensures SeparatorEndsAt(head, i) == SeparatorEndsAt(buffer, i) {
        SeparatorInPrefix(buffer, end, i);
      }
      ConcatFirst(head, tail.events);
      assert head + (Concat(tail.events) + tail.rest) == head + Concat(tail.events) + tail.rest;
    }
  }

  lemma ConcatFirst(head: string, tail: seq<string>)
    ensures Concat([head] + tail) == head + Concat(tail)
  {
    assert ([head] + tail)[1..] == tail;
  }

  // ---------------------------------------------------------------- lines

  predicate IsBreak(c: char) {
    c == '\n' || c == '\r'
  }

  predicate NoBreak(s: string) {
    forall c | c in s :: !IsBreak(c)
  }

  predicate EndsLine(s: string) {
    s != "" && IsBreak(s[|s| - 1])
  }

  /** Where the first line of the buffer ends (CR, LF or CRLF), or 0 when no line is complete. */
  function LineEnd(buffer: string): (end: nat)
    ensures end <= |buffer|
  {
    var idxN := IndexOf(buffer, "\n");
    var idxR := IndexOf(buffer, "\r");
    if idxN == -1 && idxR == -1 then 0
    else if idxR != -1 && (idxN == -1 || idxR < idxN) then
      idxR + (if idxR + 1 < |buffer| && buffer[idxR + 1] == '\n' then 2 else 1)
    else idxN + 1
  }

  lemma LineEndEndsLine(buffer: string)
    ensures LineEnd(buffer) != 0 ==> EndsLine(buffer[..LineEnd(buffer)])
    ensures LineEnd(buffer) == 0 ==> NoBreak(buffer)
  {
    hide IndexOf;
    var idxN, idxR := IndexOf(buffer, "\n"), IndexOf(buffer, "\r");
    if idxN != -1 { OccursChar(buffer, '\n', idxN); }
    if idxR != -1 { OccursChar(buffer, '\r', idxR); }
    if idxN == -1 && idxR == -1 {
      forall i | 0 <= i < |buffer| ensures !IsBreak(buffer[i]) {
        IndexOfIsFirst(buffer, "\n", i);
        IndexOfIsFirst(buffer, "\r", i);
        OccursChar(buffer, '\n', i);
        OccursChar(buffer, '\r', i);
      }
    }
  }

  /** A line: no break before its end, which is LF, CRLF, or a CR that no LF follows. */
  predicate IsLine(line: string, rest: string) {
    || (EndsWithBreak(line, "\r\n") && NoBreak(line[..|line| - 2]))
    || (EndsWithBreak(line, "\n") && NoBreak(line[..|line| - 1]))
    || (EndsWithBreak(line, "\r") && NoBreak(line[..|line| - 1]) && (rest == "" || rest[0] != '\n'))
  }

  predicate EndsWithBreak(s: string, br: string) {
    |br| <= |s| && s[|s| - |br|..] == br
  }

  /** The two searches together find the end of the first line; a CRLF is never cut. */
  lemma LineEndIsFirst(buffer: string)
    ensures LineEnd(buffer) == 0 <==> NoBreak(buffer)
    ensures LineEnd(buffer) != 0 ==> IsLine(buffer[..LineEnd(buffer)], buffer[LineEnd(buffer)..])
  {
    hide IndexOf;
    LineEndEndsLine(buffer);
    var idxN, idxR := IndexOf(buffer, "\n"), IndexOf(buffer, "\r");
    var end := LineEnd(buffer);
    if end != 0 {
      var line, first := buffer[..end], if idxR != -1 && (idxN == -1 || idxR < idxN) then idxR else idxN;
      assert line[end - 1] in buffer;
      forall i | 0 <= i < first ensures !IsBreak(buffer[i]) {
        IndexOfIsFirst(buffer, "\n", i);
        IndexOfIsFirst(buffer, "\r", i);
        OccursChar(buffer, '\n', i);
        OccursChar(buffer, '\r', i);
      }
      OccursChar(buffer, buffer[first], first);
      if idxR == first { OccursChar(buffer, '\r', first); } else { OccursChar(buffer, '\n', first); }
      assert buffer[..first] == line[..first];
      assert end == first + 2 ==> line[first..] == "\r\n";
      assert end == first + 1 ==> line[first..] == [buffer[first]];
    }
  }

  function LinesOf(buffer: string): Parts {
    var end := LineEnd(buffer);
    if end == 0 then Parts([], buffer)
    else
      var tail := LinesOf(buffer[end..]);
      Parts([buffer[..end]] + tail.events, tail.rest)
  }

  method SplitCompleteSseLines(buffer: string) returns (events: seq<string>, rest: string)
    ensures Parts(events, rest) == LinesOf(buffer)
  {
    hide LinesOf;
    events, rest := [], buffer;
    while |rest| > 0
      invariant LinesOf(buffer) == Parts(events + LinesOf(rest).events, LinesOf(rest).rest)
      decreases |rest|
    {
      var idxN := IndexOf(rest, "\n");
      var idxR := IndexOf(rest, "\r");
      var idx, sep := -1, 1;
      if idxN == -1 && idxR == -1 {
        NoLine(rest);
        break;
      }
      if idxR != -1 && (idxN == -1 || idxR < idxN) {
        idx := idxR;
        sep := if idxR + 1 < |rest| && rest[idxR + 1] == '\n' then 2 else 1;
      } else {
        idx, sep := idxN, 1;
      }
      FirstLine(rest, idx + sep);
      events := events + [rest[..idx + sep]];
      rest := rest[idx + sep..];
    }
    if rest == "" { NoLine(rest); }
  }

  lemma NoLine(buffer: string)
    requires buffer == "" || LineEnd(buffer) == 0
    ensures LinesOf(buffer) == Parts([], buffer)
  {
  }

  lemma FirstLine(buffer: string, end: nat)
    requires 0 < end == LineEnd(buffer)
    ensures LinesOf(buffer) == Parts([buffer[..end]] + LinesOf(buffer[end..]).events, LinesOf(buffer[end..]).rest)
  {
  }

  /** Every piece is one line of the text. */
  lemma {:induction false} PiecesAreLines(buffer: string, k: nat)
    requires k < |LinesOf(buffer).events|
    ensures var parts := LinesOf(buffer);
            IsLine(parts.events[k], Concat(parts.events[k + 1..]) + parts.rest)
  {
    hide LinesOf, LineEnd, IsLine;
    LineEndIsFirst(buffer);
    var end := LineEnd(buffer);
    if end == 0 {
      NoLine(buffer);
    } else {
      FirstLine(buffer, end);
      var tail := LinesOf(buffer[end..]);
      if k == 0 {
        LinesPartitionBuffer(buffer[end..]);
        assert LinesOf(buffer).events[1..] == tail.events;
      } else {
        PiecesAreLines(buffer[end..], k - 1);
        assert LinesOf(buffer).events[k + 1..] == tail.events[k..];
      }
    }
  }

  /** Nothing is lost; every piece ends a line, and the rest holds no line break. */
  lemma {:induction false} LinesPartitionBuffer(buffer: string)
    ensures Concat(LinesOf(buffer).events) + LinesOf(buffer).rest == buffer
    ensures forall e | e in LinesOf(buffer).events :: EndsLine(e)
    ensures NoBreak(LinesOf(buffer).rest)
  {
    hide LinesOf, LineEnd;
    var end := LineEnd(buffer);
    LineEndEndsLine(buffer);
    if end == 0 {
      NoLine(buffer);
    } else {
      var head, tail := buffer[..end], LinesOf(buffer[end..]);
      LinesPartitionBuffer(buffer[end..]);
      FirstLine(buffer, end);
      ConcatFirst(head, tail.events);
      assert head + (Concat(tail.events) + tail.rest) == head + Concat(tail.events) + tail.rest;
    }
  }
}
