/**
 * demos/byok-playground/src/worker/proxy.ts: what arrives at the client of `cappedBody`, told without the parts of
 * the loop: the text of an error frame, the byte limit, and how a failed stream splits into events.
 */
module SseClient {
  import opened JsStrings
  import opened Redaction
  import opened SseSplit
  import opened SsePassThrough

  /** The error frame of each trouble, as it goes over the wire. */
  function WireFrame(t: Trouble): string {
    match t
    case OverallCap => "event: error\ndata: {\"message\":\"" + "The stream reached the overall time cap." + "\"}\n\n"
    case Cancelled => "event: error\ndata: {\"message\":\"" + "The stream was cancelled." + "\"}\n\n"
    case Idle =>
      "event: error\ndata: {\"message\":\"" + "The endpoint timed out " + "waiting for the next chunk." + "\"}\n\n"
    case Lost => "event: error\ndata: {\"message\":\"" + "The endpoint connection was lost." + "\"}\n\n"
    case TooLarge => "event: error\ndata: {\"message\":\"" + "The endpoint response was too large." + "\"}\n\n"
  }

  lemma FrameIsWireFrame(t: Trouble)
    ensures ErrorFrame(t) == WireFrame(t)
  {
  }

  /** Whatever the key, a stream that fails at its first read sends the frame of its trouble and nothing else. */
  lemma FailingStreamSendsFrame(secret: string, maxBytes: nat, text: string, t: Trouble)
    ensures Run(secret, maxBytes, START, [Broken(t)]).sent == WireFrame(t)
    ensures Run(secret, maxBytes, START, [Chunk(maxBytes + 1, text)]).sent == WireFrame(TooLarge)
  {
    hide Run, ReceiveAll, Loose, Redacted;
    OneRead(secret, maxBytes, Broken(t));
    OneRead(secret, maxBytes, Chunk(maxBytes + 1, text));
    FailWithoutCarry(secret, START, t);
    FailWithoutCarry(secret, START.(seen := maxBytes + 1), TooLarge);
  }

  lemma FailWithoutCarry(secret: string, b: Body, t: Trouble)
    requires b.carry == "" && b.sent == ""
    ensures Fail(secret, b, t).sent == WireFrame(t)
  {
    hide Redacted, ErrorFrame, WireFrame;
    NoEvent("");
    FrameIsWireFrame(t);
    assert "" + RedactEach(secret, []) + "" + ErrorFrame(t) == ErrorFrame(t);
  }

  // ---------------------------------------------------------------- the byte limit

  predicate OnlyChunks(script: seq<Read>) {
    forall r | r in script :: r.Chunk?
  }

  function BytesOf(script: seq<Read>): nat
    requires OnlyChunks(script)
  {
    if script == [] then 0 else BytesOf(script[..|script| - 1]) + script[|script| - 1].bytes
  }

  function TextOf(script: seq<Read>): string
    requires OnlyChunks(script)
  {
    if script == [] then "" else TextOf(script[..|script| - 1]) + script[|script| - 1].text
  }

  lemma {:induction false} ReceiveSnoc(maxBytes: nat, u: Upstream, script: seq<Read>, r: Read)
    ensures ReceiveAll(maxBytes, u, script + [r]) == Receive(maxBytes, ReceiveAll(maxBytes, u, script), r)
    decreases |script|
  {
    hide Receive;
    if script == [] {
      assert [r][1..] == [] && script + [r] == [r];
    } else {
      assert (script + [r])[1..] == script[1..] + [r];
      ReceiveSnoc(maxBytes, Receive(maxBytes, u, script[0]), script[1..], r);
    }
  }

  /** Chunks whose bytes fit into the limit are all taken, and none of them ends the stream. */
  lemma {:induction false} ChunksWithinLimit(maxBytes: nat, script: seq<Read>)
    requires OnlyChunks(script) && BytesOf(script) <= maxBytes
    ensures ReceiveAll(maxBytes, SILENT, script) == Upstream(TextOf(script), BytesOf(script), Open, Lost)
  {
    if script != [] {
      var front, r := script[..|script| - 1], script[|script| - 1];
      assert front + [r] == script && r in script && forall x | x in front :: x in script;
      ChunksWithinLimit(maxBytes, front);
      ReceiveSnoc(maxBytes, SILENT, front, r);
    }
  }

  /**
   * What a client has received after chunks that fit into the limit: the redacted finished lines while more may
   * come, the redacted whole text if the stream then ends, and the frame of the trouble if it then fails, after a
   * blank separator if a line is unfinished. A chunk that passes the limit is such a failure.
   */
  lemma ClientReceives(secret: string, maxBytes: nat, chunks: seq<Read>, tail: string, t: Trouble,
                       bytes: nat, text: string)
    requires KeyFitsLines(secret) && OnlyChunks(chunks)
    requires BytesOf(chunks) <= maxBytes < BytesOf(chunks) + bytes
    ensures var all := TextOf(chunks);
            var lines := Redacted(Lines(all), [secret]) + if LastLine(all) != "" then "\n\n" else "";
            && Run(secret, maxBytes, START, chunks).sent == Redacted(Lines(all), [secret])
            && Run(secret, maxBytes, START, chunks + [End(tail)]).sent == Redacted(all + tail, [secret])
            && Run(secret, maxBytes, START, chunks + [Broken(t)]).sent == lines + WireFrame(t)
            && Run(secret, maxBytes, START, chunks + [Chunk(bytes, text)]).sent == lines + WireFrame(TooLarge)
  {
    hide Run, ReceiveAll, Redacted, KeyFitsLines, ErrorFrame, WireFrame, Lines, LastLine;
    ChunksWithinLimit(maxBytes, chunks);
    ForwardsWhatItPromised(secret, maxBytes, chunks);
    ForwardsWhatItPromised(secret, maxBytes, chunks + [End(tail)]);
    ForwardsWhatItPromised(secret, maxBytes, chunks + [Broken(t)]);
    ForwardsWhatItPromised(secret, maxBytes, chunks + [Chunk(bytes, text)]);
    ReceiveSnoc(maxBytes, SILENT, chunks, End(tail));
    ReceiveSnoc(maxBytes, SILENT, chunks, Broken(t));
    ReceiveSnoc(maxBytes, SILENT, chunks, Chunk(bytes, text));
    FrameIsWireFrame(t);
    FrameIsWireFrame(TooLarge);
  }

  /** After its end a stream sends nothing more, whatever is read. */
  lemma {:induction false} NothingAfterEnd(secret: string, maxBytes: nat, b: Body, script: seq<Read>)
    requires b.status != Open
    ensures Run(secret, maxBytes, b, script) == b
    decreases |script|
  {
    if script != [] { NothingAfterEnd(secret, maxBytes, b, script[1..]); }
  }

  // ---------------------------------------------------------------- how a failed stream splits into events

  /** A frame holds one separator, at its end, and begins with no line break. */
  lemma FrameIsEvent(t: Trouble)
    ensures IsEvent(WireFrame(t)) && |WireFrame(t)| > 4 && !IsBreak(WireFrame(t)[0])
  {
    hide WireFrame;
    FrameIsWireFrame(t);
    MessageHasNoBreak(t);
    FramedIsEvent(Message(t));
  }

  lemma MessageHasNoBreak(t: Trouble)
    ensures NoBreak(Message(t))
  {
    hide NoBreak;
    OverallCapHasNoBreak();
    CancelledHasNoBreak();
    IdleHasNoBreak();
    LostHasNoBreak();
    TooLargeHasNoBreak();
  }

  lemma OverallCapHasNoBreak()
    ensures NoBreak("The stream reached the overall time cap.")
  {
  }

  lemma CancelledHasNoBreak()
    ensures NoBreak("The stream was cancelled.")
  {
  }

  lemma IdleHasNoBreak()
    ensures NoBreak("The endpoint timed out " + "waiting for the next chunk.")
  {
    assert NoBreak("The endpoint timed out ");
    assert NoBreak("waiting for the next chunk.");
  }

  lemma LostHasNoBreak()
    ensures NoBreak("The endpoint connection was lost.")
  {
  }

  lemma TooLargeHasNoBreak()
    ensures NoBreak("The endpoint response was too large.")
  {
  }

  const HEAD := "event: error\ndata: {\"message\":\""

  /** The only line break of the head is not its last character. */
  lemma HeadBreaks()
    ensures |HEAD| == 31 && HEAD[0] == 'e' && forall i | 0 <= i < |HEAD| && i != 12 :: !IsBreak(HEAD[i])
  {
  }

  lemma FramedIsEvent(message: string)
    requires NoBreak(message)
    ensures var f := HEAD + message + "\"}\n\n"; IsEvent(f) && |f| > 4 && !IsBreak(f[0])
  {
    HeadBreaks();
    var f := HEAD + message + "\"}\n\n";
    var n := |f|;
    assert f[n - 1] == '\n' && f[n - 2] == '\n' && f[n - 2..] == "\n\n";
    forall i | 0 <= i < n - 2 && i != 12 ensures !IsBreak(f[i]) {
      if |HEAD| <= i < |HEAD| + |message| { assert f[i] == message[i - |HEAD|] && f[i] in message; }
    }
    forall i | 0 <= i < n ensures !SeparatorEndsAt(f, i) {
      if i >= 2 { assert f[i - 2..i][0] == f[i - 2] && f[i - 2..i][1] == f[i - 1]; }
      if i >= 4 { assert f[i - 4..i][1] == f[i - 3] && f[i - 4..i][2] == f[i - 2]; }
    }
  }

  /** A separator that ends inside `b` lies in `b` when `b` begins with no line break. */
  lemma SeparatorInTail(a: string, b: string, i: nat)
    requires b != "" && !IsBreak(b[0]) && |a| < i <= |a + b|
    ensures SeparatorEndsAt(a + b, i) == SeparatorEndsAt(b, i - |a|)
  {
    var s, j := a + b, i - |a|;
    assert s[|a|] == b[0];
    if i >= 2 { assert s[i - 2..i][0] == s[i - 2] && s[i - 2..i][1] == s[i - 1]; }
    if i >= 4 {
      assert s[i - 4..i][0] == s[i - 4] && s[i - 4..i][1] == s[i - 3];
      assert s[i - 4..i][2] == s[i - 2] && s[i - 4..i][3] == s[i - 1];
    }
    if j >= 2 { assert s[i - 2..i] == b[j - 2..j]; }
    if j >= 4 { assert s[i - 4..i] == b[j - 4..j]; }
  }

  /** A frame ends the event that is open before it, and that event is the last one. */
  lemma FrameEndsOpenEvent(before: string, t: Trouble)
    ensures EventsOf(before + WireFrame(t)) ==
            Parts(EventsOf(before).events + [EventsOf(before).rest + WireFrame(t)], "")
    ensures IsEvent(EventsOf(before).rest + WireFrame(t))
  {
    hide EventsOf, EventEnd, WireFrame;
    var rest, f := EventsOf(before).rest, WireFrame(t);
    var last := rest + f;
    SplittingIsIncremental(before, f);
    EventsPartitionBuffer(before);
    FrameIsEvent(t);
    EventEndIsFirst(last);
    forall i | 0 <= i <= |last| ensures SeparatorEndsAt(last, i) == (i == |last|) {
      if i <= |rest| {
        SeparatorInPrefix(last, |rest|, i);
        assert last[..|rest|] == rest;
      } else {
        SeparatorInTail(rest, f, i);
      }
    }
    assert SeparatorEndsAt(last, |last|);
    assert SeparatorEndsAt(last, EventEnd(last)) || EventEnd(last) == 0;
    FirstEvent(last, |last|);
    assert last[|last|..] == "" && last[..|last|] == last;
    NothingSplits();
  }

  lemma NothingSplits()
    ensures EventsOf("") == Parts([], "")
  {
    NoEvent("");
  }

  /** What a failed stream has sent before its error frame. */
  function Before(secret: string, u: Upstream): string {
    Redacted(Lines(u.text), [secret]) + if LastLine(u.text) != "" then "\n\n" else ""
  }

  /**
   * Every failed stream splits into complete events and nothing else. The last one ends with the error frame of
   * the trouble; it is the frame alone exactly when no event was open before it.
   */
  lemma FailedStreamEndsWithFrame(secret: string, maxBytes: nat, script: seq<Read>)
    requires KeyFitsLines(secret) && ReceiveAll(maxBytes, SILENT, script).status == Failed
    ensures var u := ReceiveAll(maxBytes, SILENT, script);
            var sent, open := Run(secret, maxBytes, START, script).sent, EventsOf(Before(secret, u)).rest;
            var last := open + WireFrame(u.trouble);
            && sent == Before(secret, u) + WireFrame(u.trouble)
            && EventsOf(sent) == Parts(EventsOf(Before(secret, u)).events + [last], "") && IsEvent(last)
            && (last == WireFrame(u.trouble) <==> open == "")
  {
    hide Run, ReceiveAll, Redacted, KeyFitsLines, ErrorFrame, WireFrame, Lines, LastLine, EventsOf, IsEvent;
    var u := ReceiveAll(maxBytes, SILENT, script);
    ForwardsWhatItPromised(secret, maxBytes, script);
    FrameIsWireFrame(u.trouble);
    FrameEndsOpenEvent(Before(secret, u), u.trouble);
  }

  /** The blank separator closes the open event: at most one more line feed comes before the frame. */
  lemma UnfinishedLineIsClosed(secret: string, u: Upstream)
    requires LastLine(u.text) != ""
    ensures EventsOf(Before(secret, u)).rest in {"", "\n"}
  {
    hide Redacted, EventsOf, Lines, LastLine;
    BlankCloses(Redacted(Lines(u.text), [secret]));
  }

  lemma TwoFeedsSeparate(s: string)
    ensures |s| >= 2 && s[|s| - 2] == s[|s| - 1] == '\n' ==> SeparatorEndsAt(s, |s|)
  {
    if |s| >= 2 && s[|s| - 2] == s[|s| - 1] == '\n' { assert s[|s| - 2..|s|] == "\n\n"; }
  }

  lemma BlankCloses(a: string)
    ensures EventsOf(a + "\n\n").rest in {"", "\n"}
  {
    hide EventsOf;
    var s := a + "\n\n";
    var rest := EventsOf(s).rest;
    EventsPartitionBuffer(s);
    var front := Concat(EventsOf(s).events);
    assert forall i | 0 <= i < |rest| :: rest[i] == s[|front| + i];
    assert s[|s| - 1] == '\n' && s[|s| - 2] == '\n';
    TwoFeedsSeparate(rest);
    assert |rest| == 1 ==> rest == [s[|s| - 1]];
  }

  /**
   * An event is open without an unfinished line when the last line that came was no blank line: then no
   * separator is sent, and the client reads the frame as part of that event.
   */
  lemma FrameJoinsOpenEvent()
    ensures Run("", 100, START, [Chunk(8, "data: x\n"), Broken(Idle)]).sent == "data: x\n" + WireFrame(Idle)
    ensures EventsOf("data: x\n" + WireFrame(Idle)) == Parts(["data: x\n" + WireFrame(Idle)], "")
  {
    hide Run, ReceiveAll, Redacted, WireFrame, EventsOf;
    var text := "data: x\n";
    var chunk := Chunk(8, text);
    assert [chunk][..0] == [] && [chunk] + [Broken(Idle)] == [chunk, Broken(Idle)];
    assert TextOf([chunk]) == "" + text == text && BytesOf([chunk]) == 0 + 8;
    assert Trim("") == "" ;
    LinesOfEnded(text);
    ShortSecretKeeps(text, "");
    ClientReceives("", 100, [chunk], "", Idle, 100, "");
    assert text + "" == text;
    NoBlankLine();
    FrameEndsOpenEvent(text, Idle);
    assert [] + [text + WireFrame(Idle)] == [text + WireFrame(Idle)];
  }

  lemma NoBlankLine()
    ensures EventsOf("data: x\n") == Parts([], "data: x\n")
  {
    hide EventsOf, EventEnd, SeparatorEndsAt;
    var s := "data: x\n";
    EventEndIsFirst(s);
    BreaksAtSeparator(s, EventEnd(s));
    assert forall i | 0 <= i < 7 :: !IsBreak(s[i]);
    NoEvent(s);
  }

  lemma BreaksAtSeparator(s: string, i: nat)
    ensures SeparatorEndsAt(s, i) ==> 2 <= i <= |s| && IsBreak(s[i - 2])
  {
    if SeparatorEndsAt(s, i) {
      assert s[i - 2] == s[i - 2..i][0];
      assert i >= 4 && s[i - 4..i] == "\r\n\r\n" ==> s[i - 4..i][2] == '\r';
    }
  }
}
