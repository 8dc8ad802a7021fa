/** demos/byok-playground/src/worker/proxy.ts: `cappedBody` in its SSE mode. */
module SsePassThrough {
  import opened JsStrings
  import opened Options
  import opened Placeholder
  import opened Redaction
  import opened SseSplit

  /** Why a stream stops before its upstream ends. */
  datatype Trouble = OverallCap | Cancelled | Idle | Lost | TooLarge

  function Message(t: Trouble): string {
    match t
    case OverallCap => "The stream reached the overall time cap."
    case Cancelled => "The stream was cancelled."
    case Idle => "The endpoint timed out " + "waiting for the next chunk."
    case Lost => "The endpoint connection was lost."
    case TooLarge => "The endpoint response was too large."
  }

  /** `encodeSse("error", { message })`. */
  function ErrorFrame(t: Trouble): string {
    "event: error\ndata: {\"message\":\"" + Message(t) + "\"}\n\n"
  }

  /** What one turn of the read loop meets: decoded text, the end with the decoder's tail, or a failure. */
  datatype Read = Chunk(bytes: nat, text: string) | End(tail: string) | Broken(trouble: Trouble)

  datatype Status = Open | Finished | Failed

  /** The variables that the pull loop shares, and the text enqueued so far. */
  datatype Body = Body(seen: nat, carry: string, sent: string, status: Status)

  const START := Body(0, "", "", Open)

  // ---------------------------------------------------------------- what each part of the loop sends

  function RedactEach(secret: string, pieces: seq<string>): string {
    if pieces == [] then "" else Redacted(pieces[0], [secret]) + RedactEach(secret, pieces[1..])
  }

  /** The complete events of the buffer, then the complete lines of what is left. */
  function Loose(buffer: string): Parts {
    var split := EventsOf(buffer);
    var loose := LinesOf(split.rest);
    Parts(split.events + loose.events, loose.rest)
  }

  function Fail(secret: string, b: Body, t: Trouble): Body {
    var split := EventsOf(b.carry);
    var blank := if split.rest != "" then "\n\n" else "";
    Body(b.seen, "", b.sent + RedactEach(secret, split.events) + blank + ErrorFrame(t), Failed)
  }

  function Close(secret: string, b: Body): Body {
    var split := EventsOf(b.carry);
    Body(b.seen, "", b.sent + RedactEach(secret, split.events) + RedactEach(secret, [split.rest]), Finished)
  }

  function Step(secret: string, maxBytes: nat, b: Body, r: Read): Body {
    if b.status != Open then b
    else match r
      case Broken(t) => Fail(secret, b, t)
      case End(tail) =>
        var parts := Loose(b.carry + tail);
        var sent := b.sent + RedactEach(secret, parts.events) + RedactEach(secret, [parts.rest]);
        Close(secret, Body(b.seen, "", sent, Open))
      case Chunk(bytes, text) =>
        var seen := b.seen + bytes;
        if seen > maxBytes then Fail(secret, b.(seen := seen), TooLarge)
        else
          var parts := Loose(b.carry + text);
          Body(seen, parts.rest, b.sent + RedactEach(secret, parts.events), Open)
  }

  function Run(secret: string, maxBytes: nat, b: Body, script: seq<Read>): Body
    decreases |script|
  {
    if script == [] then b else Run(secret, maxBytes, Step(secret, maxBytes, b, script[0]), script[1..])
  }

  /** So far nothing was enqueued, and the stream goes on. */
  predicate StillQuiet(secret: string, maxBytes: nat, b: Body, script: seq<Read>) {
    Run(secret, maxBytes, b, script).sent == b.sent && Run(secret, maxBytes, b, script).status == Open
  }

  class CappedBody {
    const secret: string
    const maxBytes: nat
    var seen: nat
    var stopped: bool
    var carry: string
    var sent: string
    var status: Status

    ghost predicate Valid() reads this { stopped == (status != Open) }

    function View(): Body reads this { Body(seen, carry, sent, status) }

    constructor (secret: string, maxBytes: nat)
      ensures Valid() && View() == START && this.secret == secret && this.maxBytes == maxBytes
    {
      this.secret, this.maxBytes := secret, maxBytes;
      seen, stopped, carry, sent, status := 0, false, "", "", Open;
    }

    method Enqueue(piece: string) returns (emitted: bool)
      modifies this`sent
      ensures sent == old(sent) + Redacted(piece, [secret])
      ensures emitted == (Redacted(piece, [secret]) != "")
    {
      var out := RedactExact(piece, [secret]);
      emitted := out != "";
      if emitted { sent := sent + out; }
    }

    method EnqueueAll(pieces: seq<string>) returns (emitted: bool)
      modifies this`sent
      ensures sent == old(sent) + RedactEach(secret, pieces)
      ensures emitted == (RedactEach(secret, pieces) != "")
    {
      hide Redacted;
      emitted := false;
      for i := 0 to |pieces|
        invariant sent + RedactEach(secret, pieces[i..]) == old(sent) + RedactEach(secret, pieces)
        invariant emitted == (sent != old(sent))
        invariant |sent| >= |old(sent)|
      {
        var e := Enqueue(pieces[i]);
        emitted := emitted || e;
      }
    }

    method FlushCompleteEvents()
      modifies this`sent, this`carry
      ensures sent == old(sent) + RedactEach(secret, EventsOf(old(carry)).events)
      ensures carry == EventsOf(old(carry)).rest
    {
      if carry == "" {
        NoEvent(carry);
        return;
      }
      var events, rest := SplitSseEvents(carry);
      var emitted := EnqueueAll(events);
      carry := rest;
    }

    /** `stop` with a message: flush, at most one blank separator, one error frame. */
    method StopWith(t: Trouble)
      requires Valid() && !stopped
      modifies this
      ensures Valid() && stopped && View() == Fail(secret, old(View()), t)
    {
      hide Redacted, EventsOf, RedactEach, ErrorFrame;
      stopped := true;
      FlushCompleteEvents();
      if carry != "" { sent := sent + "\n\n"; }
      sent := sent + ErrorFrame(t);
      status := Failed;
      carry := "";
    }

    /** `stop` without a message: flush, then send what is still carried. */
    method StopClean()
      requires Valid() && !stopped
      modifies this
      ensures Valid() && View() == Close(secret, old(View()))
    {
      stopped := true;
      FlushCompleteEvents();
      if carry != "" {
        var e := EnqueueAll([carry]);
      } else {
        NothingToRedact(secret);
      }
      status := Finished;
      carry := "";
    }

    method EmitEvents(buffer: string, last: bool) returns (emitted: bool)
      modifies this`sent, this`carry
      ensures sent == old(sent) + RedactEach(secret, Loose(buffer).events)
                      + if last then RedactEach(secret, [Loose(buffer).rest]) else ""
      ensures carry == if last then "" else Loose(buffer).rest
      ensures emitted == (sent != old(sent))
    {
      hide Redacted, EventsOf, LinesOf;
      var events, rest := SplitSseEvents(buffer);
      var lines, unfinished := SplitCompleteSseLines(rest);
      carry := unfinished;
      emitted := EnqueueAll(events + lines);
      if last && carry != "" {
        label before:
        var e := EnqueueAll([carry]);
        carry := "";
        emitted := emitted || e;
      } else if last {
        NothingToRedact(secret);
      }
    }

    /** `pull`: read until something was enqueued or the stream stopped, and no further; `used` reads were consumed. */
    method Pull(script: seq<Read>) returns (used: nat)
      requires Valid()
      modifies this
      ensures Valid() && used <= |script| && View() == Run(secret, maxBytes, old(View()), script[..used])
      ensures used == |script| || stopped || sent != old(sent)
      ensures forall n | 0 <= n < used :: StillQuiet(secret, maxBytes, old(View()), script[..n])
    {
      hide Redacted, EventsOf, LinesOf, RedactEach, Fail;
      used := 0;
      while !stopped && used < |script|
        invariant Valid() && used <= |script|
        invariant View() == Run(secret, maxBytes, old(View()), script[..used])
        invariant stopped || sent == old(sent)
        invariant forall n | 0 <= n < used :: StillQuiet(secret, maxBytes, old(View()), script[..n])
        decreases |script| - used
      {
        RunSnoc(secret, maxBytes, old(View()), script[..used], script[used]);
        assert script[..used] + [script[used]] == script[..used + 1];
        var r := script[used];
        used := used + 1;
        match r
        case Broken(t) => StopWith(t);
        case End(tail) =>
          var emitted := EmitEvents(carry + tail, true);
          StopClean();
        case Chunk(bytes, text) =>
          seen := seen + bytes;
          if seen > maxBytes {
            StopWith(TooLarge);
          } else {
            var emitted := EmitEvents(carry + text, false);
            if emitted { return; }
          }
      }
    }
  }

  lemma NothingToRedact(secret: string)
    ensures RedactEach(secret, [""]) == ""
  {
    assert RedactEach(secret, [""]) == Redacted("", [secret]) + RedactEach(secret, []);
    if |Trim(secret)| >= MIN_SECRET {
      RedactedIsReplace("", secret);
    } else {
      ShortSecretKeeps("", secret);
    }
  }

  lemma {:induction false} RunSnoc(secret: string, maxBytes: nat, b: Body, script: seq<Read>, r: Read)
    ensures Run(secret, maxBytes, b, script + [r]) == Step(secret, maxBytes, Run(secret, maxBytes, b, script), r)
    decreases |script|
  {
    hide Step;
    if script == [] {
      assert ([r])[1..] == [] && script + [r] == [r];
    } else {
      assert (script + [r])[1..] == script[1..] + [r];
      RunSnoc(secret, maxBytes, Step(secret, maxBytes, b, script[0]), script[1..], r);
    }
  }

  // ---------------------------------------------------------------- redaction respects line ends

  /** A key without line breaks is not cut by a line end. */
  lemma {:induction false} ReplaceAtLineEnd(a: string, b: string, key: string, p: string)
    requires key != "" && NoBreak(key) && (a == "" || EndsLine(a))
    ensures Replace(a + b, key, p) == Replace(a, key, p) + Replace(b, key, p)
  {
    hide Replace, NoBreak;
    if a == "" {
      assert a + b == b;
      EmptyStays(key, p);
    } else if key <= a + b {
      KeyBeforeBreak(a, b, key);
      var rest := a[|key|..];
      assert a == key + rest && a + b == key + (rest + b);
      ReplaceKey(rest, key, p);
      ReplaceKey(rest + b, key, p);
      ReplaceAtLineEnd(rest, b, key, p);
    } else {
      assert (a + b)[..|a|] == a && (a + b)[1..] == a[1..] + b;
      ReplaceChar(a + b, key, p);
      ReplaceChar(a, key, p);
      ReplaceAtLineEnd(a[1..], b, key, p);
    }
  }

  lemma KeyBeforeBreak(a: string, b: string, key: string)
    requires NoBreak(key) && EndsLine(a) && key <= a + b
    ensures |key| < |a| && key <= a
  {
    forall i | 0 <= i < |key| ensures !IsBreak((a + b)[i]) {
      assert key[i] in key;
    }
    assert (a + b)[|a| - 1] == a[|a| - 1];
    assert a[..|key|] == (a + b)[..|key|];
  }

  predicate KeyFitsLines(secret: string) {
    |Trim(secret)| < MIN_SECRET || NoBreak(Trim(secret))
  }

  lemma RedactAtLineEnd(a: string, b: string, secret: string)
    requires KeyFitsLines(secret) && (a == "" || EndsLine(a))
    ensures Redacted(a + b, [secret]) == Redacted(a, [secret]) + Redacted(b, [secret])
  {
    hide Redacted, Replace;
    if |Trim(secret)| < MIN_SECRET {
      ShortSecretKeeps(a, secret);
      ShortSecretKeeps(b, secret);
      ShortSecretKeeps(a + b, secret);
    } else {
      RedactedIsReplace(a, secret);
      RedactedIsReplace(b, secret);
      RedactedIsReplace(a + b, secret);
      ReplaceAtLineEnd(a, b, Trim(secret), PLACEHOLDER);
    }
  }

  lemma {:induction false} RedactPieces(secret: string, pieces: seq<string>)
    requires KeyFitsLines(secret) && forall e | e in pieces :: EndsLine(e)
    ensures RedactEach(secret, pieces) == Redacted(Concat(pieces), [secret])
    ensures pieces != [] ==> EndsLine(Concat(pieces))
  {
    hide Redacted;
    if pieces == [] {
      NothingToRedact(secret);
      assert RedactEach(secret, [""]) == Redacted("", [secret]) + RedactEach(secret, []);
    } else {
      RedactPieces(secret, pieces[1..]);
      RedactAtLineEnd(pieces[0], Concat(pieces[1..]), secret);
    }
  }

  // ---------------------------------------------------------------- what a client receives

  /** The text up to and including its last line break. */
  function Lines(text: string): (s: string)
    ensures s <= text && (s == "" || EndsLine(s))
  {
    if text == "" || IsBreak(text[|text| - 1]) then text else Lines(text[..|text| - 1])
  }

  /** The unfinished last line. */
  function LastLine(text: string): string {
    text[|Lines(text)|..]
  }

  lemma {:induction false} LinesAreUnique(a: string, b: string)
    requires (a == "" || EndsLine(a)) && NoBreak(b)
    ensures Lines(a + b) == a && LastLine(a + b) == b
  {
    hide Lines;
    if b == "" {
      assert a + b == a;
      LinesOfEnded(a);
    } else {
      var b', c := b[..|b| - 1], b[|b| - 1];
      assert c in b && forall x | x in b' :: x in b;
      LinesAreUnique(a, b');
      LinesSkip(a + b', c);
      assert a + b' + [c] == a + b;
    }
  }

  lemma LinesOfEnded(a: string)
    requires a == "" || EndsLine(a)
    ensures Lines(a) == a
  {
  }

  lemma LinesSkip(x: string, c: char)
    requires !IsBreak(c)
    ensures Lines(x + [c]) == Lines(x)
  {
    assert (x + [c])[..|x|] == x;
  }

  /** The upstream text decoded so far, and how the stream ended. */
  datatype Upstream = Upstream(text: string, seen: nat, status: Status, trouble: Trouble)

  function Receive(maxBytes: nat, u: Upstream, r: Read): Upstream {
    if u.status != Open then u
    else match r
      case Broken(t) => u.(status := Failed, trouble := t)
      case End(tail) => u.(text := u.text + tail, status := Finished)
      case Chunk(bytes, text) =>
        if u.seen + bytes > maxBytes then u.(seen := u.seen + bytes, status := Failed, trouble := TooLarge)
        else u.(text := u.text + text, seen := u.seen + bytes)
  }

  function ReceiveAll(maxBytes: nat, u: Upstream, script: seq<Read>): Upstream
    decreases |script|
  {
    if script == [] then u else ReceiveAll(maxBytes, Receive(maxBytes, u, script[0]), script[1..])
  }

  const SILENT := Upstream("", 0, Open, Lost)

  /** What the client must have received: a function of the decoded text, not of how it was cut. */
  function Promised(secret: string, u: Upstream): string {
    match u.status
    case Open => Redacted(Lines(u.text), [secret])
    case Finished => Redacted(u.text, [secret])
    case Failed =>
      var blank := if LastLine(u.text) != "" then "\n\n" else "";
      Redacted(Lines(u.text), [secret]) + blank + ErrorFrame(u.trouble)
  }

  ghost predicate InStep(secret: string, b: Body, u: Upstream) {
    && b.status == u.status && b.sent == Promised(secret, u)
    && (b.status == Open ==> b.seen == u.seen && b.carry == LastLine(u.text))
  }

  /** `Loose` sends the finished lines of the buffer and keeps the unfinished one. */
  lemma LooseSendsLines(secret: string, buffer: string)
    requires KeyFitsLines(secret)
    ensures RedactEach(secret, Loose(buffer).events) == Redacted(Lines(buffer), [secret])
    ensures Loose(buffer).rest == LastLine(buffer)
  {
    hide Redacted, EventsOf, LinesOf, Lines;
    var split := EventsOf(buffer);
    var loose := LinesOf(split.rest);
    EventsPartitionBuffer(buffer);
    LinesPartitionBuffer(split.rest);
    var pieces := split.events + loose.events;
    forall e | e in pieces ensures EndsLine(e) {
      if e in split.events { EventEndsLine(e); }
    }
    RedactPieces(secret, pieces);
    ConcatAppend(split.events, loose.events);
    assert Concat(pieces) + loose.rest == buffer;
    LinesAreUnique(Concat(pieces), loose.rest);
  }

  lemma EventEndsLine(e: string)
    requires IsEvent(e)
    ensures EndsLine(e)
  {
    if |e| >= 2 && e[|e| - 2..|e|] == "\n\n" {
      assert e[|e| - 2..|e|][1] == e[|e| - 1];
    } else {
      assert e[|e| - 4..|e|][3] == e[|e| - 1];
    }
  }

  lemma LinesGrow(text: string, more: string)
    ensures Lines(text + more) == Lines(text) + Lines(LastLine(text) + more)
    ensures LastLine(text + more) == LastLine(LastLine(text) + more)
  {
    hide Lines;
    var w := LastLine(text) + more;
    LastLineHasNoBreak(w);
    assert text + more == Lines(text) + w;
    var front := Lines(text) + Lines(w);
    assert text + more == front + LastLine(w);
    LinesAreUnique(front, LastLine(w));
  }

  lemma {:induction false} LastLineHasNoBreak(text: string)
    ensures NoBreak(LastLine(text))
  {
    if text != "" && !IsBreak(text[|text| - 1]) {
      var short := text[..|text| - 1];
      LastLineHasNoBreak(short);
      assert LastLine(text) == LastLine(short) + [text[|text| - 1]];
    }
  }

  lemma UnfinishedHoldsNoEvent(text: string)
    requires NoBreak(text)
    ensures EventsOf(text) == Parts([], text)
  {
    var end := EventEnd(text);
    EventEndIsFirst(text);
    assert forall i | 0 <= i < |text| :: text[i] in text;
    if end != 0 { SeparatorIsBreak(text, end); }
  }

  lemma SeparatorIsBreak(s: string, end: nat)
    requires SeparatorEndsAt(s, end)
    ensures end > 0 && IsBreak(s[end - 1])
  {
    if end >= 2 && s[end - 2..end] == "\n\n" {
      assert s[end - 2..end][1] == s[end - 1];
    } else {
      assert s[end - 4..end][3] == s[end - 1];
    }
  }

  lemma FailKeeps(secret: string, b: Body, u: Upstream, t: Trouble)
    requires KeyFitsLines(secret) && b.carry == LastLine(u.text) && b.sent == Redacted(Lines(u.text), [secret])
    ensures Fail(secret, b, t).sent == Promised(secret, u.(status := Failed, trouble := t))
  {
    hide Redacted, EventsOf, Lines;
    LastLineHasNoBreak(u.text);
    UnfinishedHoldsNoEvent(b.carry);
    assert b.sent + RedactEach(secret, []) == b.sent;
  }

  lemma MoreKeeps(secret: string, u: Upstream, more: string)
    requires KeyFitsLines(secret)
    ensures var parts := Loose(LastLine(u.text) + more);
            && Redacted(Lines(u.text), [secret]) + RedactEach(secret, parts.events) ==
                Redacted(Lines(u.text + more), [secret])
            && parts.rest == LastLine(u.text + more)
  {
    hide Redacted, Lines, Loose, LastLine, RedactEach;
    LinesGrow(u.text, more);
    LooseSendsLines(secret, LastLine(u.text) + more);
    RedactAtLineEnd(Lines(u.text), Lines(LastLine(u.text) + more), secret);
  }

  lemma EndKeeps(secret: string, u: Upstream, tail: string)
    requires KeyFitsLines(secret)
    ensures var parts := Loose(LastLine(u.text) + tail);
            Redacted(Lines(u.text), [secret]) + RedactEach(secret, parts.events) + RedactEach(secret, [parts.rest])
            == Redacted(u.text + tail, [secret])
  {
    hide Redacted, Lines, Loose;
    MoreKeeps(secret, u, tail);
    var all := u.text + tail;
    RedactAtLineEnd(Lines(all), LastLine(all), secret);
    assert Lines(all) + LastLine(all) == all;
    var parts := Loose(LastLine(u.text) + tail);
    assert RedactEach(secret, [parts.rest]) == Redacted(parts.rest, [secret]) + RedactEach(secret, []);
  }

  lemma StepKeeps(secret: string, maxBytes: nat, b: Body, u: Upstream, r: Read)
    requires KeyFitsLines(secret) && InStep(secret, b, u)
    ensures InStep(secret, Step(secret, maxBytes, b, r), Receive(maxBytes, u, r))
  {
    hide Redacted, Lines, LastLine, Loose, RedactEach, Fail, Close;
    if b.status == Open {
      match r
      case Broken(t) => FailIsFailed(secret, b, t); FailKeeps(secret, b, u, t);
      case End(tail) =>
        EndKeeps(secret, u, tail);
        var parts := Loose(b.carry + tail);
        var sent := b.sent + RedactEach(secret, parts.events) + RedactEach(secret, [parts.rest]);
        CloseEmpty(secret, Body(b.seen, "", sent, Open));
      case Chunk(bytes, text) =>
        var b', u' := b.(seen := b.seen + bytes), u.(seen := u.seen + bytes);
        FailIsFailed(secret, b', TooLarge);
        FailKeeps(secret, b', u', TooLarge);
        MoreKeeps(secret, u, text);
    }
  }

  lemma CloseEmpty(secret: string, b: Body)
    requires b.carry == ""
    ensures Close(secret, b) == b.(status := Finished)
  {
    hide Redacted;
    NoEvent("");
    NothingToRedact(secret);
  }

  lemma FailIsFailed(secret: string, b: Body, t: Trouble)
    ensures Fail(secret, b, t).status == Failed
  {
  }

  lemma {:induction false} RunKeeps(secret: string, maxBytes: nat, b: Body, u: Upstream, script: seq<Read>)
    requires KeyFitsLines(secret) && InStep(secret, b, u)
    ensures InStep(secret, Run(secret, maxBytes, b, script), ReceiveAll(maxBytes, u, script))
    decreases |script|
  {
    hide InStep, Step, Receive;
    if script != [] {
      StepKeeps(secret, maxBytes, b, u, script[0]);
      RunKeeps(secret, maxBytes, Step(secret, maxBytes, b, script[0]), Receive(maxBytes, u, script[0]), script[1..]);
    }
  }

  /**
   * At every moment of every stream, what was forwarded depends only on the decoded text and on how the
   * stream ended: while it is open the redacted finished lines, after a clean end the redaction of the
   * whole text, after a failure the redacted finished lines, at most one blank separator, one error frame.
   */
  lemma ForwardsWhatItPromised(secret: string, maxBytes: nat, script: seq<Read>)
    requires KeyFitsLines(secret)
    ensures Run(secret, maxBytes, START, script).sent == Promised(secret, ReceiveAll(maxBytes, SILENT, script))
    ensures Run(secret, maxBytes, START, script).status == ReceiveAll(maxBytes, SILENT, script).status
  {
    assert Lines("") == "" && LastLine("") == "";
    NothingToRedact(secret);
    assert RedactEach(secret, [""]) == Redacted("", [secret]) + RedactEach(secret, []);
    RunKeeps(secret, maxBytes, START, SILENT, script);
  }

  /** The clean-end promise holds for every stream exactly when the key fits on one line. */
  lemma CleanEndIsBatch(secret: string, maxBytes: nat)
    ensures (forall script :: var u := ReceiveAll(maxBytes, SILENT, script);
               u.status == Finished ==> Run(secret, maxBytes, START, script).sent == Redacted(u.text, [secret]))
            <==> KeyFitsLines(secret)
  {
    hide Redacted;
    if KeyFitsLines(secret) {
      forall script ensures var u := ReceiveAll(maxBytes, SILENT, script);
          u.status == Finished ==> Run(secret, maxBytes, START, script).sent == Redacted(u.text, [secret]) {
        ForwardsWhatItPromised(secret, maxBytes, script);
      }
    } else {
      BrokenKeyLeaks(secret, maxBytes);
    }
  }

  // ---------------------------------------------------------------- the keys that the Worker accepts

  /** `ssePassThrough` hands on the key of the request, and that key has no line break. */
  lemma AcceptedKeyFitsLines(raw: string)
    ensures ReadApiKey(raw).Some? ==> KeyFitsLines(ReadApiKey(raw).value) && NoBreak(ReadApiKey(raw).value)
  {
    hide Trim;
    AcceptedKey(raw);
  }

  /** So for every key that the Worker accepts and every stream the client receives what was promised. */
  lemma AcceptedKeysForward(raw: string, maxBytes: nat, script: seq<Read>)
    ensures ReadApiKey(raw).Some? ==>
              Run(ReadApiKey(raw).value, maxBytes, START, script).sent
              == Promised(ReadApiKey(raw).value, ReceiveAll(maxBytes, SILENT, script))
  {
    hide ReadApiKey, Run, Promised, ReceiveAll, KeyFitsLines;
    AcceptedKeyFitsLines(raw);
    if ReadApiKey(raw).Some? { ForwardsWhatItPromised(ReadApiKey(raw).value, maxBytes, script); }
  }

  // ---------------------------------------------------------------- the client never sees the key

  /** An occurrence of a key without line breaks lies on one side of a line end. */
  lemma OneSideOfBreak(a: string, b: string, key: string, i: int)
    requires key != "" && NoBreak(key) && EndsLine(a) && OccursAt(a + b, key, i)
    ensures OccursAt(a, key, i) || OccursAt(b, key, i - |a|)
  {
    var s := a + b;
    forall m | i <= m < i + |key| ensures s[m] in key { assert s[i..i + |key|][m - i] == s[m]; }
    assert s[|a| - 1] == a[|a| - 1];
    if i + |key| <= |a| {
      assert s[i..i + |key|] == a[i..i + |key|];
    } else if i >= |a| {
      assert s[i..i + |key|] == b[i - |a|..i - |a| + |key|];
    }
  }

  lemma NotInEither(a: string, b: string, key: string)
    requires key != "" && NoBreak(key) && (a == "" || EndsLine(a))
    ensures Contains(a + b, key) ==> Contains(a, key) || Contains(b, key)
  {
    if a == "" {
      assert a + b == b;
    } else if i :| OccursAt(a + b, key, i) {
      OneSideOfBreak(a, b, key, i);
    }
  }

  /** Redacted finished lines still end a line. */
  lemma RedactedEndsLine(a: string, secret: string)
    requires |Trim(secret)| >= MIN_SECRET && NoBreak(Trim(secret)) && (a == "" || EndsLine(a))
    ensures Redacted(a, [secret]) == "" || EndsLine(Redacted(a, [secret]))
  {
    hide Redacted, Trim, Replace, NoBreak;
    RedactedIsReplace(a, secret);
    ReplacedEndsLine(a, Trim(secret), PLACEHOLDER);
  }

  lemma {:induction false} ReplacedEndsLine(a: string, key: string, p: string)
    requires key != "" && NoBreak(key) && (a == "" || EndsLine(a))
    ensures Replace(a, key, p) == "" || EndsLine(Replace(a, key, p))
    ensures a != "" ==> EndsLine(Replace(a, key, p))
  {
    hide Replace, NoBreak;
    if a == "" {
      EmptyStays(key, p);
    } else if key <= a {
      assert a + "" == a;
      KeyBeforeBreak(a, "", key);
      assert a == key + a[|key|..];
      ReplaceKey(a[|key|..], key, p);
      ReplacedEndsLine(a[|key|..], key, p);
    } else {
      ReplaceChar(a, key, p);
      if |a| == 1 {
        EmptyStays(key, p);
        assert a[1..] == "" && [a[0]] + "" == [a[0]];
      } else {
        ReplacedEndsLine(a[1..], key, p);
      }
    }
  }

  /** Neither redacted text nor an error frame holds the key. */
  ghost predicate KeyStaysHidden(key: string) {
    !Regrows(key, PLACEHOLDER) && forall t :: !Contains(ErrorFrame(t), key)
  }

  lemma PromisedHidesKey(secret: string, u: Upstream)
    requires |Trim(secret)| >= MIN_SECRET && NoBreak(Trim(secret)) && KeyStaysHidden(Trim(secret))
    ensures !Contains(Promised(secret, u), Trim(secret))
  {
    hide Redacted, Trim, Contains, NoBreak, Regrows, ErrorFrame, Lines, LastLine;
    var key, lines := Trim(secret), Redacted(Lines(u.text), [secret]);
    RedactedHidesKey(secret, Lines(u.text));
    RedactedHidesKey(secret, u.text);
    if u.status == Failed {
      var blank := if LastLine(u.text) != "" then "\n\n" else "";
      RedactedEndsLine(Lines(u.text), secret);
      NotInEither(lines, blank + ErrorFrame(u.trouble), key);
      NotInEither(blank, ErrorFrame(u.trouble), key);
      assert lines + (blank + ErrorFrame(u.trouble)) == lines + blank + ErrorFrame(u.trouble);
      BlankHoldsNoKey(blank, key);
    }
  }

  lemma BlankHoldsNoKey(blank: string, key: string)
    requires key != "" && NoBreak(key) && (blank == "" || blank == "\n\n")
    ensures !Contains(blank, key)
  {
    forall i ensures !OccursAt(blank, key, i) {
      if 0 <= i && i + |key| <= |blank| {
        assert key[0] in key && blank[i..i + |key|][0] == blank[i];
      }
    }
  }

  /** A stream that ends at once with the given trouble. */
  function FailingScript(maxBytes: nat, t: Trouble): seq<Read> {
    if t == TooLarge then [Chunk(maxBytes + 1, "")] else [Broken(t)]
  }

  /**
   * For every key that is long enough to redact and has no line break: no client ever sees the key, whatever
   * the stream and wherever it stops, exactly when the key cannot regrow and no error frame spells it.
   */
  lemma ClientNeverSeesKey(secret: string, maxBytes: nat)
    requires |Trim(secret)| >= MIN_SECRET && NoBreak(Trim(secret))
    ensures (forall script :: !Contains(Run(secret, maxBytes, START, script).sent, Trim(secret)))
            <==> KeyStaysHidden(Trim(secret))
  {
    hide Redacted, Trim, Contains, NoBreak, Regrows, ErrorFrame, Run, ReceiveAll, Promised;
    var key := Trim(secret);
    assert KeyFitsLines(secret);
    if KeyStaysHidden(key) {
      forall script ensures !Contains(Run(secret, maxBytes, START, script).sent, key) {
        ForwardsWhatItPromised(secret, maxBytes, script);
        PromisedHidesKey(secret, ReceiveAll(maxBytes, SILENT, script));
      }
    } else if Regrows(key, PLACEHOLDER) {
      OutputHidesKey(secret);
      var text :| Contains(Redacted(text, [secret]), key);
      WholeText(secret, maxBytes, text);
    } else {
      var t :| Contains(ErrorFrame(t), key);
      OnlyTheFrame(secret, maxBytes, t);
    }
  }

  lemma WholeText(secret: string, maxBytes: nat, text: string)
    requires KeyFitsLines(secret)
    ensures Run(secret, maxBytes, START, [End(text)]).sent == Redacted(text, [secret])
  {
    hide Redacted, Run, ReceiveAll, KeyFitsLines, Receive, Step;
    OneRead(secret, maxBytes, End(text));
    EndAtOnce(secret, maxBytes, text);
    ForwardsWhatItPromised(secret, maxBytes, [End(text)]);
  }

  lemma OnlyTheFrame(secret: string, maxBytes: nat, t: Trouble)
    requires KeyFitsLines(secret)
    ensures Run(secret, maxBytes, START, FailingScript(maxBytes, t)).sent == ErrorFrame(t)
  {
    hide Redacted, Run, ReceiveAll, KeyFitsLines, Step, ErrorFrame, Lines;
    OneRead(secret, maxBytes, FailingScript(maxBytes, t)[0]);
    ForwardsWhatItPromised(secret, maxBytes, FailingScript(maxBytes, t));
    NothingForwarded(secret);
    assert "" + "" + ErrorFrame(t) == ErrorFrame(t);
  }

  lemma NothingForwarded(secret: string)
    ensures Lines("") == "" && LastLine("") == "" && Redacted("", [secret]) == ""
  {
    NothingToRedact(secret);
    assert RedactEach(secret, [""]) == Redacted("", [secret]) + RedactEach(secret, []);
  }

  /** A printable key can be part of every error frame. */
  lemma FrameSpellsKey(t: Trouble)
    ensures PrintableAscii("message") && Contains(ErrorFrame(t), "message")
  {
    assert ErrorFrame(t)[21..28] == "message";
    assert OccursAt(ErrorFrame(t), "message", 21);
  }

  // ---------------------------------------------------------------- keys with a line break

  /** A key with a line break inside, which the Worker never passes, is forwarded as it is. */
  lemma BrokenKeyLeaks(secret: string, maxBytes: nat)
    requires !KeyFitsLines(secret)
    ensures var script := [End(Trim(secret))]; var u := ReceiveAll(maxBytes, SILENT, script);
            u.status == Finished && u.text == Trim(secret)
            && Run(secret, maxBytes, START, script).sent == Trim(secret) != Redacted(u.text, [secret])
  {
    hide Redacted, Trim, Step, Receive, Run, ReceiveAll, Loose, RedactEach, NoBreak;
    var key := Trim(secret);
    OneRead(secret, maxBytes, End(key));
    EndAtOnce(secret, maxBytes, key);
    LooseOfBrokenKey(secret);
    KeyAloneIsRedacted(secret);
    PlaceholderHasNoBreak();
  }

  lemma OneRead(secret: string, maxBytes: nat, r: Read)
    ensures ReceiveAll(maxBytes, SILENT, [r]) == Receive(maxBytes, SILENT, r)
    ensures Run(secret, maxBytes, START, [r]) == Step(secret, maxBytes, START, r)
  {
    hide Step, Receive;
    assert [r][1..] == [];
  }

  lemma PlaceholderHasNoBreak()
    ensures NoBreak(PLACEHOLDER)
  {
    assert forall j | 0 <= j < |PLACEHOLDER| :: !IsBreak(PLACEHOLDER[j]);
  }

  lemma EndAtOnce(secret: string, maxBytes: nat, text: string)
    ensures Receive(maxBytes, SILENT, End(text)) == Upstream(text, 0, Finished, Lost)
    ensures var parts := Loose(text);
            Step(secret, maxBytes, START, End(text)).sent ==
              RedactEach(secret, parts.events) + RedactEach(secret, [parts.rest])
  {
    hide Loose, RedactEach, Close;
    assert "" + text == text;
    var parts := Loose(text);
    var out := RedactEach(secret, parts.events) + RedactEach(secret, [parts.rest]);
    assert "" + RedactEach(secret, parts.events) + RedactEach(secret, [parts.rest]) == out;
    CloseEmpty(secret, Body(0, "", out, Open));
  }

  lemma KeyAloneIsRedacted(secret: string)
    requires |Trim(secret)| >= MIN_SECRET
    ensures Redacted(Trim(secret), [secret]) == PLACEHOLDER
  {
    hide Redacted, Trim, Replace;
    var key := Trim(secret);
    RedactedIsReplace(key, secret);
    KeyAlone(key, "", PLACEHOLDER);
    assert key + "" == key && PLACEHOLDER + "" == PLACEHOLDER;
  }

  /** A trimmed text with a line break inside falls into pieces, none of them the whole text. */
  lemma FallsApart(key: string, pieces: seq<string>, rest: string)
    requires IsTrimmed(key) && !NoBreak(key) && Concat(pieces) + rest == key
    requires NoBreak(rest) && forall e | e in pieces :: EndsLine(e)
    ensures rest != "" && |rest| < |key|
  {
    ConcatEndsLine(pieces);
    assert Concat(pieces) + "" == Concat(pieces);
    assert "" + rest == rest;
  }

  lemma LooseOfBrokenKey(secret: string)
    requires !KeyFitsLines(secret)
    ensures var parts := Loose(Trim(secret));
            RedactEach(secret, parts.events) + RedactEach(secret, [parts.rest]) == Trim(secret)
  {
    hide Redacted, Trim, EventsOf, LinesOf, IsEvent;
    var key := Trim(secret);
    var split := EventsOf(key);
    var loose := LinesOf(split.rest);
    EventsPartitionBuffer(key);
    LinesPartitionBuffer(split.rest);
    TrimTrims(secret);
    var pieces := split.events + loose.events;
    ConcatAppend(split.events, loose.events);
    assert Concat(split.events) + (Concat(loose.events) + loose.rest) == Concat(pieces) + loose.rest;
    forall e | e in pieces ensures EndsLine(e) {
      if e in split.events { EventEndsLine(e); }
    }
    FallsApart(key, pieces, loose.rest);
    ShortPiecesStay(secret, pieces, loose.rest);
    ShortPieceStays(secret, loose.rest);
    assert RedactEach(secret, [loose.rest]) == Redacted(loose.rest, [secret]) + RedactEach(secret, []);
  }

  lemma {:induction false} ConcatEndsLine(pieces: seq<string>)
    requires forall e | e in pieces :: EndsLine(e)
    ensures pieces != [] ==> EndsLine(Concat(pieces))
  {
    if pieces != [] {
      ConcatEndsLine(pieces[1..]);
      assert pieces[0] in pieces;
    }
  }

  lemma ShortPieceStays(secret: string, piece: string)
    requires |Trim(secret)| >= MIN_SECRET && |piece| < |Trim(secret)|
    ensures Redacted(piece, [secret]) == piece
  {
    RedactedIsReplace(piece, secret);
    ShortStays(piece, Trim(secret), PLACEHOLDER);
  }

  lemma {:induction false} ShortPiecesStay(secret: string, pieces: seq<string>, rest: string)
    requires |Trim(secret)| >= MIN_SECRET && rest != "" && |Concat(pieces) + rest| <= |Trim(secret)|
    ensures RedactEach(secret, pieces) == Concat(pieces)
  {
    hide Redacted, Trim;
    if pieces != [] {
      ShortPieceStays(secret, pieces[0]);
      ShortPiecesStay(secret, pieces[1..], rest);
    }
  }
}
