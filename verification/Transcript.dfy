/** demos/apollo-desk/src/worker/apollo.ts: the tool loop of one turn. */
module Transcript {
  import opened Options
  import opened JsStrings

  const MAX_TOOL_ROUNDS := 3
  const MAX_TOOL_CALLS_PER_ROUND := 4
  const TOO_MANY := "{\"error\":\"Too many tool calls\"}"
  const BAD_ARGUMENTS := "{\"error\":\"The tool arguments were not valid JSON.\"}"

  /** `args` is the valid JSON that the history keeps; `usable` says whether the tool may run with it. */
  datatype Call = Call(id: string, name: string, args: string, usable: bool)
  datatype Output = Output(content: string, calls: seq<Call>)
  datatype Message =
    | Text(role: string, content: string)
    | Assistant(content: string, calls: seq<Call>)
    | Tool(id: string, name: string, content: string)

  /**
   * What the world does in each round: the model's output and each tool's result (None when it throws),
   * and whether the turn was aborted by the time the round is over.
   */
  datatype World = World(model: nat -> Option<Output>, tool: (nat, nat) -> Option<string>, aborted: nat -> bool)

  datatype End = Replied(text: string) | Aborted | Threw

  /** What the model is asked with: the messages so far, and whether it may call tools. */
  datatype Prompt = Prompt(messages: seq<Message>, tools: bool)

  /** The messages so far, every prompt the model got, and every call that a tool ran. */
  datatype Turn = Turn(messages: seq<Message>, prompts: seq<Prompt>, runs: seq<Call>)

  function Clip(text: string, max: nat): string {
    if |text| > max then text[..max] + "\U{2026}" else text
  }

  function ReplyText(content: string): string {
    if Trim(content) == "" then "Done." else Trim(content)
  }

  // ---------------------------------------------------------------- what the loop computes

  datatype Batch = Batch(replies: seq<Message>, runs: seq<Call>, threw: bool)

  /** The replies to the first `n` calls of a round. */
  function Replies(w: World, round: nat, calls: seq<Call>, n: nat): Batch
    requires n <= |calls|
  {
    if n == 0 then Batch([], [], false)
    else
      var b, c := Replies(w, round, calls, n - 1), calls[n - 1];
      if b.threw then b
      else if n > MAX_TOOL_CALLS_PER_ROUND then b.(replies := b.replies + [Tool(c.id, c.name, TOO_MANY)])
      else if !c.usable then b.(replies := b.replies + [Tool(c.id, c.name, BAD_ARGUMENTS)])
      else
        match w.tool(round, n - 1)
        case None => Batch(b.replies, b.runs + [c], true)
        case Some(result) => Batch(b.replies + [Tool(c.id, c.name, Clip(result, 4000))], b.runs + [c], false)
  }

  function Answered(t: Turn, out: Output, b: Batch): Turn {
    t.(messages := t.messages + [Assistant(out.content, out.calls)] + b.replies, runs := t.runs + b.runs)
  }

  function Prompted(round: nat, t: Turn): Turn {
    t.(prompts := t.prompts + [Prompt(t.messages, round <= MAX_TOOL_ROUNDS)])
  }

  predicate AnswersInText(round: nat, out: Output) {
    out.calls == [] || round > MAX_TOOL_ROUNDS
  }

  function Rounds(w: World, round: nat, t: Turn): (Turn, End)
    requires 1 <= round <= MAX_TOOL_ROUNDS + 1
    decreases MAX_TOOL_ROUNDS + 1 - round
  {
    var asked := Prompted(round, t);
    match w.model(round)
    case None => (asked, Threw)
    case Some(out) =>
      if AnswersInText(round, out) then (asked, if w.aborted(round) then Aborted else Replied(ReplyText(out.content)))
      else
        var b := Replies(w, round, out.calls, |out.calls|);
        var next := Answered(asked, out, b);
        if b.threw then (next, Threw)
        else if w.aborted(round) then (next, Aborted)
        else Rounds(w, round + 1, next)
  }

  method RunTurn(w: World, initial: seq<Message>) returns (turn: Turn, end: End)
    ensures (turn, end) == Rounds(w, 1, Turn(initial, [], []))
  {
    var messages, prompts, runs := initial, [], [];
    var reply: Option<string> := None;
    var round := 1;
    while round <= MAX_TOOL_ROUNDS + 1
      invariant 1 <= round <= MAX_TOOL_ROUNDS + 1
      invariant Rounds(w, round, Turn(messages, prompts, runs)) == Rounds(w, 1, Turn(initial, [], []))
      decreases MAX_TOOL_ROUNDS + 1 - round
    {
      ghost var t := Turn(messages, prompts, runs);
      var withTools := round <= MAX_TOOL_ROUNDS;
      prompts := prompts + [Prompt(messages, withTools)];
      var answer := w.model(round);
      if answer.None? { return Turn(messages, prompts, runs), Threw; }
      var out := answer.value;
      if out.calls == [] || !withTools {
        end := if w.aborted(round) then Aborted else Replied(ReplyText(out.content));
        return Turn(messages, prompts, runs), end;
      }
      var replies, ran, threw := RunCalls(w, round, out.calls);
      messages := messages + [Assistant(out.content, out.calls)] + replies;
      runs := runs + ran;
      assert Turn(messages, prompts, runs) ==
             Answered(Prompted(round, t), out, Replies(w, round, out.calls, |out.calls|));
      if threw { return Turn(messages, prompts, runs), Threw; }
      if w.aborted(round) { return Turn(messages, prompts, runs), Aborted; }
      round := round + 1;
    }
    assert false;
  }

  /** One round's calls: the kept ones run one after the other, the extra ones are turned down. */
  method RunCalls(w: World, round: nat, calls: seq<Call>) returns (replies: seq<Message>, runs: seq<Call>, threw: bool)
    ensures Batch(replies, runs, threw) == Replies(w, round, calls, |calls|)
  {
    replies, runs, threw := [], [], false;
    var kept := if |calls| < MAX_TOOL_CALLS_PER_ROUND then |calls| else MAX_TOOL_CALLS_PER_ROUND;
    for i := 0 to kept
      invariant !threw && Batch(replies, runs, threw) == Replies(w, round, calls, i)
    {
      var call := calls[i];
      if call.usable {
        runs := runs + [call];
        var result := w.tool(round, i);
        if result.None? {
          ThrewStays(w, round, calls, i + 1, |calls|);
          threw := true;
          return;
        }
        replies := replies + [Tool(call.id, call.name, Clip(result.value, 4000))];
      } else {
        replies := replies + [Tool(call.id, call.name, BAD_ARGUMENTS)];
      }
    }
    for i := kept to |calls|
      invariant !threw && Batch(replies, runs, threw) == Replies(w, round, calls, i)
    {
      replies := replies + [Tool(calls[i].id, calls[i].name, TOO_MANY)];
    }
  }

  lemma {:induction false} ThrewStays(w: World, round: nat, calls: seq<Call>, m: nat, n: nat)
    requires m <= n <= |calls| && Replies(w, round, calls, m).threw
    ensures Replies(w, round, calls, n) == Replies(w, round, calls, m)
  {
    if m < n { ThrewStays(w, round, calls, m, n - 1); }
  }

  // ---------------------------------------------------------------- a transcript the model accepts

  predicate RepliesTo(m: Message, c: Call) {
    m.Tool? && m.id == c.id && m.name == c.name
  }

  /** Every assistant message with calls is followed by exactly their replies, in order; no reply stands alone. */
  predicate Threaded(ms: seq<Message>)
    decreases |ms|
  {
    ms == [] ||
    match ms[0]
    case Text(_, _) => Threaded(ms[1..])
    case Assistant(_, calls) =>
      |ms| > |calls| && (forall j | 0 <= j < |calls| :: RepliesTo(ms[1 + j], calls[j])) && Threaded(ms[1 + |calls|..])
    case Tool(_, _, _) => false
  }

  lemma {:induction false} ThreadedAppend(a: seq<Message>, b: seq<Message>)
    requires Threaded(a) && Threaded(b)
    ensures Threaded(a + b)
    decreases |a|
  {
    if a == [] {
      assert a + b == b;
    } else {
      var k := if a[0].Assistant? then 1 + |a[0].calls| else 1;
      ThreadedAppend(a[k..], b);
      assert (a + b)[k..] == a[k..] + b;
      assert forall j | 0 <= j < k :: (a + b)[j] == a[j];
    }
  }

  /** Each call gets one reply: the tool's, or the reason why it did not run. At most four tools run. */
  lemma {:induction false} RepliesInOrder(w: World, round: nat, calls: seq<Call>, n: nat)
    requires n <= |calls|
    ensures var b := Replies(w, round, calls, n);
            && |b.runs| <= n && |b.runs| <= MAX_TOOL_CALLS_PER_ROUND
            && (!b.threw ==> |b.replies| == n
                             && forall j | 0 <= j < n :: RepliesTo(b.replies[j], calls[j])
                                                         && (j >= MAX_TOOL_CALLS_PER_ROUND
                                                             ==> b.replies[j].content == TOO_MANY))
            && forall c | c in b.runs :: c in calls && c.usable
  {
    if n > 0 { RepliesInOrder(w, round, calls, n - 1); }
  }

  lemma GroupThreads(content: string, calls: seq<Call>, replies: seq<Message>)
    requires |replies| == |calls| && forall j | 0 <= j < |calls| :: RepliesTo(replies[j], calls[j])
    ensures Threaded([Assistant(content, calls)] + replies)
  {
    var group := [Assistant(content, calls)] + replies;
    assert group[1 + |calls|..] == [];
    assert forall j | 0 <= j < |calls| :: group[1 + j] == replies[j];
  }

  lemma AnsweredThreads(w: World, round: nat, t: Turn, out: Output)
    requires Threaded(t.messages) && !Replies(w, round, out.calls, |out.calls|).threw
    ensures Threaded(Answered(t, out, Replies(w, round, out.calls, |out.calls|)).messages)
  {
    hide Replies, Threaded;
    var b := Replies(w, round, out.calls, |out.calls|);
    RepliesInOrder(w, round, out.calls, |out.calls|);
    GroupThreads(out.content, out.calls, b.replies);
    ThreadedAppend(t.messages, [Assistant(out.content, out.calls)] + b.replies);
    assert t.messages + ([Assistant(out.content, out.calls)] + b.replies) == Answered(t, out, b).messages;
  }

  ghost predicate AllThreaded(prompts: seq<Prompt>) {
    forall p | p in prompts :: Threaded(p.messages)
  }

  lemma {:induction false} RoundsKeep(w: World, round: nat, t: Turn)
    requires 1 <= round <= MAX_TOOL_ROUNDS + 1 && Threaded(t.messages) && AllThreaded(t.prompts)
    ensures var (u, end) := Rounds(w, round, t);
            && AllThreaded(u.prompts) && (!end.Threw? ==> Threaded(u.messages))
            && |t.prompts| < |u.prompts| <= |t.prompts| + MAX_TOOL_ROUNDS + 2 - round
            && |u.runs| <= |t.runs| + MAX_TOOL_CALLS_PER_ROUND * (MAX_TOOL_ROUNDS + 1 - round)
            && (end.Replied? ==> var last := |u.prompts| - |t.prompts| + round - 1;
                                 w.model(last).Some? && end.text == ReplyText(w.model(last).value.content))
    decreases MAX_TOOL_ROUNDS + 1 - round
  {
    hide Replies, Threaded, ReplyText;
    var asked := Prompted(round, t);
    if w.model(round).Some? && !AnswersInText(round, w.model(round).value) {
      var out := w.model(round).value;
      RepliesInOrder(w, round, out.calls, |out.calls|);
      var b := Replies(w, round, out.calls, |out.calls|);
      if !b.threw {
        AnsweredThreads(w, round, asked, out);
        if !w.aborted(round) { RoundsKeep(w, round + 1, Answered(asked, out, b)); }
      }
    }
  }

  /**
   * Whatever the model and the tools do: every prompt of the turn, and what it leaves behind unless it
   * threw, pairs calls and replies one to one and in order. A turn asks the model at most 4 times and runs
   * at most 12 tools, and a turn that replies says what the model's last output says.
   */
  lemma TurnIsWellFormed(w: World, initial: seq<Message>)
    requires forall m | m in initial :: m.Text?
    ensures var (u, end) := Rounds(w, 1, Turn(initial, [], []));
            && AllThreaded(u.prompts) && (!end.Threw? ==> Threaded(u.messages))
            && 1 <= |u.prompts| <= 4 && |u.runs| <= 12
            && (end.Replied? ==>
                  w.model(|u.prompts|).Some? && end.text == ReplyText(w.model(|u.prompts|).value.content))
  {
    TextIsThreaded(initial);
    RoundsKeep(w, 1, Turn(initial, [], []));
  }

  lemma {:induction false} TextIsThreaded(ms: seq<Message>)
    requires forall m | m in ms :: m.Text?
    ensures Threaded(ms)
  {
    if ms != [] {
      assert ms[0] in ms;
      TextIsThreaded(ms[1..]);
    }
  }

  // ---------------------------------------------------------------- what each round adds

  /** Whether a tool of the first `n` calls runs and throws; only the first four calls run at all. */
  predicate Throws(w: World, round: nat, calls: seq<Call>, n: nat)
    requires n <= |calls|
  {
    exists j | 0 <= j < n && j < 4 :: calls[j].usable && w.tool(round, j) == None
  }

  function Usable(calls: seq<Call>): seq<Call> {
    if calls == [] then []
    else Usable(calls[..|calls| - 1]) + if calls[|calls| - 1].usable then [calls[|calls| - 1]] else []
  }

  /** The reply to call `j`: what its tool returned, cut after 4000 characters, or why it did not run. */
  predicate ReplyIs(w: World, round: nat, calls: seq<Call>, j: nat, m: Message)
    requires j < |calls|
  {
    && m.Tool? && m.id == calls[j].id && m.name == calls[j].name
    && if j >= 4 then m.content == "{\"error\":\"Too many tool calls\"}"
       else if !calls[j].usable then m.content == "{\"error\":\"The tool arguments were not valid JSON.\"}"
       else
         && w.tool(round, j).Some?
         && var result := w.tool(round, j).value;
            m.content == if |result| <= 4000 then result else result[..4000] + "\U{2026}"
  }

  /** A round without a throwing tool answers every call, and runs the usable ones among the first four. */
  lemma {:induction false} RepliesAre(w: World, round: nat, calls: seq<Call>, n: nat)
    requires n <= |calls|
    ensures var b := Replies(w, round, calls, n);
            && (b.threw <==> Throws(w, round, calls, n))
            && (!b.threw ==> |b.replies| == n && (forall j | 0 <= j < n :: ReplyIs(w, round, calls, j, b.replies[j]))
                             && b.runs == Usable(calls[..if n < 4 then n else 4]))
  {
    if n == 0 {
      assert calls[..0] == [];
    } else {
      RepliesAre(w, round, calls, n - 1);
      if n <= 4 { assert calls[..n][..n - 1] == calls[..n - 1] && calls[..n][n - 1] == calls[n - 1]; }
    }
  }

  /**
   * One of the first three rounds in which the model calls tools, none of them throws and nobody aborts: the
   * calls and all their replies are appended, and the next round asks with them.
   */
  lemma RoundGoesOn(w: World, round: nat, t: Turn)
    requires 1 <= round <= 3 && w.model(round).Some? && w.model(round).value.calls != []
    requires !Throws(w, round, w.model(round).value.calls, |w.model(round).value.calls|) && !w.aborted(round)
    ensures var out := w.model(round).value; var calls := out.calls;
            exists replies ::
              && |replies| == |calls| && (forall j | 0 <= j < |calls| :: ReplyIs(w, round, calls, j, replies[j]))
              && Rounds(w, round, t) ==
                 Rounds(w, round + 1, Turn(t.messages + [Assistant(out.content, calls)] + replies,
                                           t.prompts + [Prompt(t.messages, true)],
                                           t.runs + Usable(calls[..if |calls| < 4 then |calls| else 4])))
  {
    hide Replies, Usable, Throws;
    var out := w.model(round).value;
    var calls := out.calls;
    RepliesAre(w, round, calls, |calls|);
    var next := Answered(Prompted(round, t), out, Replies(w, round, calls, |calls|));
    assert Rounds(w, round, t) == Rounds(w, round + 1, next);
  }

  /**
   * How a turn ends: with the model's text when it calls no tool, and in the fourth round whatever it calls, or
   * with nothing when it was aborted, or when the model or a tool throws.
   */
  lemma RoundEnds(w: World, round: nat, t: Turn)
    requires 1 <= round <= 4
    ensures var asked := t.(prompts := t.prompts + [Prompt(t.messages, round <= 3)]);
            match w.model(round)
            case None => Rounds(w, round, t) == (asked, Threw)
            case Some(out) =>
              if out.calls == [] || round == 4 then
                var text := if Trim(out.content) == "" then "Done." else Trim(out.content);
                Rounds(w, round, t) == (asked, if w.aborted(round) then Aborted else Replied(text))
              else
                && (Throws(w, round, out.calls, |out.calls|) ==> Rounds(w, round, t).1 == Threw)
                && (!Throws(w, round, out.calls, |out.calls|) && w.aborted(round) ==> Rounds(w, round, t).1 == Aborted)
  {
    hide Replies, Throws, Trim;
    if w.model(round).Some? { RepliesAre(w, round, w.model(round).value.calls, |w.model(round).value.calls|); }
  }
}
