/**
 * demos/actor-lab/src/worker/race.ts: what each action of the race does in a reachable state, told by the fields
 * of the state alone. RaceSystem says what never goes wrong; this says that the right thing happens.
 */
module RaceSteps {
  import opened Options
  import opened Race
  import opened RaceSystem

  /** A racer of the armed run that has not read yet; nobody else is let in. */
  predicate MayRun(s: System, runId: string, racer: int) {
    runId == s.race.runId && 0 <= racer < s.race.expected && racer !in Readers(s.race.events)
  }

  /**
   * In every reachable state a step is accepted exactly when its racer belongs to the armed run and did not read
   * yet.
   */
  lemma AcceptedIffMayRun(actions: seq<Action>, runId: string, racer: int)
    requires Legal(actions)
    ensures var s := After(actions);
            var why := Refused(s.race, runId, racer);
            && (why == None <==> MayRun(s, runId, racer))
            && (why == Some(StaleRun) <==> runId != s.race.runId)
            && (why == Some(Invalid) <==> runId == s.race.runId && !(0 <= racer < s.race.expected))
            && (why == Some(Duplicate) <==>
                runId == s.race.runId && 0 <= racer < s.race.expected && racer in Readers(s.race.events))
  {
    hide LogOk, LastWrite, Timely, Serial;
    AlwaysInv(actions);
    var r := After(actions).race;
    BudgetNeverRefuses(r, After(actions).now, runId, racer);
    assert (runId, racer) in r.seen && runId == r.runId ==> racer in Readers(r.events);
    assert Already(r.events, runId, racer) ==> racer in Readers(r.events);
  }

  /** In any state at all: which of the four checks refuses a step, in their order. */
  lemma ChecksInOrder(r: State, runId: string, racer: int)
    ensures var ran := (runId, racer) in r.seen ||
                       exists e | e in r.events :: e.runId == runId && e.racer == racer && e.phase == Read;
            Refused(r, runId, racer) ==
            if runId != r.runId then Some(StaleRun)
            else if !(0 <= racer < r.expected) then Some(Invalid)
            else if ran then Some(Duplicate)
            else if r.budget < 1 then Some(NoBudget)
            else None
  {
  }

  /** A step that begins takes one wait, is remembered as seen, and logs that it read the counter and waits. */
  function AfterOpening(s: System, racer: int): State {
    var r := s.race;
    State(r.counter, r.runId, r.mode, r.expected, r.budget - 1, r.touchedAt, r.seen + {(r.runId, racer)},
          r.events + [Event(r.runId, racer, Read, r.counter, s.now, ""),
                      Event(r.runId, racer, AwaitStart, r.counter, s.now, "")])
  }

  /** A step of a run that is not serialized begins at once; any other step of the armed run joins the queue. */
  lemma StepBeginsOrQueues(actions: seq<Action>, id: nat, runId: string, racer: int)
    requires Legal(actions) && Enabled(After(actions), StepCall(id, runId, racer))
    ensures var s := After(actions); var t := Do(s, StepCall(id, runId, racer));
            if s.race.mode == Serialized && runId == s.race.runId then
              t == s.(queue := s.queue + [StepTask(runId, racer)])
            else if !MayRun(s, runId, racer) then t == s
            else
              && t.race == AfterOpening(s, racer)
              && t.loose == s.loose[id := Waiter(runId, racer, s.race.counter, false, s.epoch)]
              && t.queue == s.queue && t.held == s.held
  {
    AcceptedIffMayRun(actions, runId, racer);
  }

  /** The oldest task of the mailbox runs as soon as none is under way. */
  lemma NextTaskRuns(actions: seq<Action>)
    requires Legal(actions) && After(actions).held == None && After(actions).queue != []
    ensures var s := After(actions); var t := Do(s, NextTask);
            && t.queue == s.queue[1..] && t.loose == s.loose
            && match s.queue[0]
               case ArmTask(runId, mode, expected) =>
                 && t.held == None && t.epoch == s.epoch + 1
                 && t.race == State(0, runId, mode, expected, expected, s.now, {}, [])
               case StepTask(runId, racer) =>
                 if !MayRun(s, runId, racer) then t.held == None && t.race == s.race
                 else
                   && t.held == Some(Waiter(runId, racer, s.race.counter, false, s.epoch))
                   && t.race == AfterOpening(s, racer)
  {
    if s :| s == After(actions).queue[0] && s.StepTask? { AcceptedIffMayRun(actions, s.runId, s.racer); }
  }

  /** A step whose model has answered writes what it read plus one, unless its run is over. */
  predicate Answered(before: State, after: State, w: Waiter, now: int, source: string) {
    if w.runId != before.runId then after == before
    else
      && after.counter == w.observed + 1 && after.touchedAt == now
      && after.events == before.events + [Event(w.runId, w.racer, AwaitEnd, w.observed, now, source),
                                          Event(w.runId, w.racer, Wrote, w.observed + 1, now, source)]
  }

  lemma AnswerEndsStep(s: System, id: nat, source: string)
    ensures Enabled(s, LooseModel(id, source)) ==>
              var t := Do(s, LooseModel(id, source));
              t.loose == s.loose - {id} && Answered(s.race, t.race, s.loose[id], s.now, source)
    ensures Enabled(s, HeldModel(source)) ==>
              var t := Do(s, HeldModel(source));
              t.held == None && Answered(s.race, t.race, s.held.value, s.now, source)
  {
  }

  /** A step that the rate limiter turns away, or whose model throws, leaves no trace; one it lets through waits on. */
  lemma LimitedStepWaitsOrLeaves(s: System, id: nat, ok: bool)
    requires Enabled(s, LooseLimited(id, ok))
    ensures var t := Do(s, LooseLimited(id, ok));
            && t.race == s.race && (id in t.loose <==> ok)
            && (ok ==> t.loose[id] == s.loose[id].(atModel := true))
    ensures var t := Do(s, LooseThrows(id)); t.race == s.race && id !in t.loose
  {
  }

  /** An undisturbed race of one step: armed, fired, answered; the counter is one more. */
  lemma OneStepCounts(actions: seq<Action>, id: nat, racer: int, source: string)
    requires Legal(actions) && id !in After(actions).loose && After(actions).race.mode == Interleaved
    requires MayRun(After(actions), After(actions).race.runId, racer)
    ensures var s := After(actions);
            var begun := Do(s, StepCall(id, s.race.runId, racer));
            && Enabled(begun, LooseLimited(id, true))
            && Enabled(Do(begun, LooseLimited(id, true)), LooseModel(id, source))
            && var t := Do(Do(begun, LooseLimited(id, true)), LooseModel(id, source));
               && t.race.counter == s.race.counter + 1 && |t.race.events| == |s.race.events| + 4
               && t.race.events[|s.race.events| + 3].phase == Wrote && id !in t.loose
  {
    var s := After(actions);
    StepBeginsOrQueues(actions, id, s.race.runId, racer);
  }

  // ---------------------------------------------------------------- the report

  /** What answered the waits: "none" before any wait has ended, a source when it answered them all, else "mixed". */
  lemma SourceTellsWhoAnswered(events: seq<Event>)
    ensures SourceOf(events) == "none" <==> forall e | e in events :: e.phase != AwaitEnd
    ensures SourceOf(events) == "workers-ai" <==>
            (exists e | e in events :: e.phase == AwaitEnd)
            && forall e | e in events && e.phase == AwaitEnd :: e.source == "workers-ai"
    ensures SourceOf(events) == "fallback-delay" <==>
            (exists e | e in events :: e.phase == AwaitEnd)
            && forall e | e in events && e.phase == AwaitEnd :: e.source == "fallback-delay"
    ensures SourceOf(events) in {"none", "workers-ai", "fallback-delay", "mixed"}
  {
    assert "none" != "workers-ai" && "none" != "fallback-delay" && "none" != "mixed" && "workers-ai" != "fallback-delay"
           && "workers-ai" != "mixed" && "fallback-delay" != "mixed" by {
      assert |"none"| == 4 && |"workers-ai"| == 10 && |"fallback-delay"| == 14 && |"mixed"| == 5;
    }
    forall e | e in events && e.phase == AwaitEnd ensures e.source in Sources(events) {}
    forall x | x in Sources(events) ensures exists e | e in events :: e.phase == AwaitEnd && e.source == x {}
  }

  /** The report repeats the armed run as it stands. */
  lemma ReportIsOfArmedRun(s: State)
    ensures var r := ReportOf(s);
            && r.runId == s.runId && r.mode == s.mode && r.expected == s.expected
            && r.actual == s.counter && r.events == s.events
            && r.lost >= 0 && (s.counter <= s.expected ==> r.lost == s.expected - s.counter)
            && (s.counter > s.expected ==> r.lost == 0)
  {
  }
}
