/**
 * demos/actor-lab/src/worker/race.ts: every interleaving of arm, step, model answers, lost isolates and
 * expiry. The mailbox is a queue that runs one task at a time (see Mailbox); the other requests wait in
 * `loose`, each under its own id.
 */
module RaceSystem {
  import opened Options
  import opened Race

  /** A step that waits, first for the rate limiter and then for the model. */
  datatype Waiter = Waiter(runId: string, racer: int, observed: int, atModel: bool, epoch: nat)

  datatype Task = ArmTask(runId: string, mode: Mode, expected: int) | StepTask(runId: string, racer: int)

  /** `used`: run ids that were handed to `arm` so far; `epoch`: how often the actor was armed. */
  datatype System = System(race: State, queue: seq<Task>, held: Option<Waiter>, loose: map<nat, Waiter>,
                           now: int, used: set<string>, epoch: nat)

  const START := System(INITIAL, [], None, map[], 0, {}, 0)

  datatype Action =
    | ArmCall(newId: string, mode: Mode, expected: int)
    | StepCall(id: nat, runId: string, racer: int)
    | NextTask
    | HeldLimited(ok: bool) | HeldModel(source: string) | HeldThrows
    | LooseLimited(id: nat, ok: bool) | LooseModel(id: nat, source: string) | LooseThrows(id: nat)
    | Tick(later: int) | LoseIsolate | Expire

  predicate Enabled(s: System, a: Action) {
    match a
    case ArmCall(newId, _, _) => newId != "" && newId !in s.used
    case StepCall(id, _, _) => id !in s.loose
    case NextTask => s.held.None? && s.queue != []
    case HeldLimited(_) => s.held.Some? && !s.held.value.atModel
    case HeldModel(_) => s.held.Some? && s.held.value.atModel
    case HeldThrows => s.held.Some?
    case LooseLimited(id, _) => id in s.loose && !s.loose[id].atModel
    case LooseModel(id, _) => id in s.loose && s.loose[id].atModel
    case LooseThrows(id) => id in s.loose
    case Tick(later) => later >= s.now
    case LoseIsolate => true
    case Expire => true
  }

  function Wait(s: System, racer: int): Waiter {
    Waiter(s.race.runId, racer, s.race.counter, false, s.epoch)
  }

  function AfterModel(s: System, w: Waiter, source: string): State {
    Finished(s.race, w.runId, w.racer, w.observed, s.now, source)
  }

  function StartTask(s: System): System
    requires s.queue != []
  {
    var rest := s.(queue := s.queue[1..]);
    match s.queue[0]
    case ArmTask(runId, mode, expected) => rest.(race := Armed(runId, mode, expected, s.now), epoch := s.epoch + 1)
    case StepTask(runId, racer) =>
      if Refused(s.race, runId, racer).Some? then rest
      else rest.(race := Begun(s.race, racer, s.now), held := Some(Wait(s, racer)))
  }

  function Do(s: System, a: Action): System
    requires Enabled(s, a)
  {
    match a
    case ArmCall(newId, mode, expected) =>
      s.(queue := s.queue + [ArmTask(newId, mode, expected)], used := s.used + {newId})
    case StepCall(id, runId, racer) =>
      if s.race.mode == Serialized && s.race.runId == runId then s.(queue := s.queue + [StepTask(runId, racer)])
      else if Refused(s.race, runId, racer).Some? then s
      else s.(race := Begun(s.race, racer, s.now), loose := s.loose[id := Wait(s, racer)])
    case NextTask => StartTask(s)
    case HeldLimited(ok) => s.(held := if ok then Some(s.held.value.(atModel := true)) else None)
    case HeldModel(source) => s.(race := AfterModel(s, s.held.value, source), held := None)
    case HeldThrows => s.(held := None)
    case LooseLimited(id, ok) =>
      s.(loose := if ok then s.loose[id := s.loose[id].(atModel := true)] else s.loose - {id})
    case LooseModel(id, source) => s.(race := AfterModel(s, s.loose[id], source), loose := s.loose - {id})
    case LooseThrows(id) => s.(loose := s.loose - {id})
    case Tick(later) => s.(now := later)
    case LoseIsolate => s.(race := s.race.(seen := {}), queue := [], held := None, loose := map[])
    case Expire => s.(race := INITIAL)
  }

  ghost predicate Legal(actions: seq<Action>)
    decreases |actions|, 0
  {
    actions == [] ||
    (Legal(actions[..|actions| - 1]) && Enabled(After(actions[..|actions| - 1]), actions[|actions| - 1]))
  }

  ghost function After(actions: seq<Action>): System
    requires Legal(actions)
    decreases |actions|, 1
  {
    if actions == [] then START else Do(After(actions[..|actions| - 1]), actions[|actions| - 1])
  }

  // ---------------------------------------------------------------- the invariant

  ghost predicate RaceInv(r: State, now: int) {
    && LogOk(r.events) && Timely(r.events)
    && (forall e | e in r.events :: e.runId == r.runId && e.at <= now)
    && r.counter == LastWrite(r.events)
    && (forall racer | racer in Readers(r.events) :: 0 <= racer < r.expected)
    && r.budget + |Readers(r.events)| == r.expected
    && (forall x | x in r.seen && x.0 == r.runId :: x.1 in Readers(r.events))
    && (r.runId == "" ==> r.expected == 0)
    && (r.mode == Serialized ==> Serial(r.events))
  }

  /** A waiter of the armed run has its read in the log, and nothing after it. */
  ghost predicate WaiterOk(s: System, w: Waiter) {
    && w.runId in s.used && w.epoch <= s.epoch
    && (w.runId == s.race.runId ==>
          w.epoch == s.epoch && HasRead(s.race.events, w.racer, w.observed) && !Ended(s.race.events, w.racer))
  }

  ghost predicate Apart(v: Waiter, w: Waiter) {
    v.runId == w.runId ==> v.racer != w.racer
  }

  ghost predicate WaitersInv(s: System) {
    && (s.held.Some? ==> WaiterOk(s, s.held.value))
    && (forall id | id in s.loose :: WaiterOk(s, s.loose[id]))
    && (s.held.Some? ==> forall id | id in s.loose && s.loose[id].runId == s.race.runId ::
        Apart(s.held.value, s.loose[id]))
    && (forall a, b | a in s.loose && b in s.loose && a != b && s.loose[a].runId == s.race.runId ::
        Apart(s.loose[a], s.loose[b]))
  }

  /** A queued arm brings a run id that nobody has yet. */
  ghost predicate QueueInv(s: System) {
    && "" !in s.used && (s.race.runId == "" || s.race.runId in s.used)
    && (forall t | t in s.queue && t.ArmTask? :: t.runId in s.used && Unseen(s, t.runId))
    && (forall i, j | 0 <= i < j < |s.queue| && s.queue[i].ArmTask? && s.queue[j].ArmTask? ::
        s.queue[i].runId != s.queue[j].runId)
  }

  ghost predicate Unseen(s: System, runId: string) {
    && s.race.runId != runId
    && (s.held.Some? ==> s.held.value.runId != runId)
    && (forall id | id in s.loose :: s.loose[id].runId != runId)
  }

  /** In a serialized run only the mailbox task is under way, and nothing was recorded since its read. */
  ghost predicate SerialInv(s: System) {
    s.race.mode == Serialized ==>
      && (forall id | id in s.loose :: s.loose[id].runId != s.race.runId)
      && (s.held.Some? && s.held.value.runId == s.race.runId ==> OpenLast(s.race.events, s.held.value.racer))
  }

  predicate OpenLast(events: seq<Event>, racer: int) {
    |events| >= 2 && ReadAt(events, |events| - 2, racer) && events[|events| - 1].phase == AwaitStart
  }

  ghost predicate Inv(s: System) {
    RaceInv(s.race, s.now) && WaitersInv(s) && QueueInv(s) && SerialInv(s)
  }

  // ---------------------------------------------------------------- the log under the two blocks

  lemma LogSnoc(events: seq<Event>, e: Event)
    requires LogOk(events) && EventOk(events, e)
    ensures LogOk(events + [e])
    ensures LastWrite(events + [e]) == if e.phase == Wrote then e.counter else LastWrite(events)
    ensures Readers(events + [e]) == Readers(events) + if e.phase == Read then {e.racer} else {}
    ensures forall racer ::
              Ended(events + [e], racer) ==
              (Ended(events, racer) || (racer == e.racer && (e.phase == AwaitEnd || e.phase == Wrote)))
    ensures forall racer, v :: HasRead(events, racer, v) ==> HasRead(events + [e], racer, v)
  {
    var after := events + [e];
    assert after[..|events|] == events;
    assert forall x :: x in after <==> x in events || x == e;
    forall racer, v | HasRead(events, racer, v) ensures HasRead(after, racer, v) {
      var i :| ReadAt(events, i, racer) && events[i].counter == v;
      assert ReadAt(after, i, racer) && after[i].counter == v;
    }
  }

  lemma {:induction false} EndedWasRead(events: seq<Event>, racer: int)
    requires LogOk(events) && Ended(events, racer)
    ensures racer in Readers(events)
  {
    var n := |events| - 1;
    var e := events[n];
    if e.racer == racer && e.phase == AwaitEnd {
      var i :| ReadAt(events[..n], i, racer);
      assert events[i] in events;
    } else if e.racer == racer && e.phase == Wrote {
      assert events[..n][n - 1] in events[..n];
      EndedWasRead(events[..n], racer);
      assert forall x | x in events[..n] :: x in events;
    } else {
      var x :| x in events && x.racer == racer && (x.phase == AwaitEnd || x.phase == Wrote);
      assert x in events[..n];
      EndedWasRead(events[..n], racer);
      assert forall y | y in events[..n] :: y in events;
    }
  }

  lemma TimelySnoc(events: seq<Event>, e: Event)
    requires Timely(events) && forall x | x in events :: x.at <= e.at
    ensures Timely(events + [e])
  {
    assert forall i | 0 <= i < |events| :: events[i] in events;
  }

  /** What `Begun` appends. */
  lemma BeginLog(r: State, racer: int, now: int)
    requires LogOk(r.events) && r.counter == LastWrite(r.events) && racer !in Readers(r.events)
    requires Timely(r.events) && forall e | e in r.events :: e.at <= now
    ensures var ev := Begun(r, racer, now).events;
            && LogOk(ev) && Timely(ev) && LastWrite(ev) == LastWrite(r.events)
            && Readers(ev) == Readers(r.events) + {racer}
            && HasRead(ev, racer, r.counter) && !Ended(ev, racer) && OpenLast(ev, racer)
            && (forall x :: Ended(ev, x) == Ended(r.events, x))
            && (forall x, v :: HasRead(r.events, x, v) ==> HasRead(ev, x, v))
            && (forall e | e in ev :: e in r.events || (e.runId == r.runId && e.at == now))
  {
    hide LogOk, Ended, HasRead, Readers, LastWrite, Timely, EventOk;
    var read, open := Event(r.runId, racer, Read, r.counter, now, ""),
      Event(r.runId, racer, AwaitStart, r.counter, now, "");
    var mid := r.events + [read];
    if Ended(r.events, racer) { EndedWasRead(r.events, racer); }
    EventOkRead(r.events, read);
    LogSnoc(r.events, read);
    TimelySnoc(r.events, read);
    assert mid[|mid| - 1] == read;
    EventOkOpen(mid, open);
    LogSnoc(mid, open);
    TimelySnoc(mid, open);
    var ev := mid + [open];
    assert Begun(r, racer, now).events == ev;
    assert ReadAt(ev, |ev| - 2, racer) && ev[|ev| - 2].counter == r.counter;
    HasReadAt(ev, |ev| - 2, racer);
  }

  lemma EventOkRead(events: seq<Event>, e: Event)
    requires e.phase == Read && e.racer !in Readers(events) && e.counter == LastWrite(events)
    ensures EventOk(events, e)
  {
  }

  lemma EventOkOpen(events: seq<Event>, e: Event)
    requires e.phase == AwaitStart && |events| > 0 && events[|events| - 1] == e.(phase := Read)
    ensures EventOk(events, e)
  {
  }

  lemma HasReadAt(events: seq<Event>, i: int, racer: int)
    requires ReadAt(events, i, racer)
    ensures HasRead(events, racer, events[i].counter)
  {
  }

  /** What `Finished` appends. */
  lemma FinishLog(r: State, racer: int, observed: int, now: int, source: string)
    requires LogOk(r.events) && HasRead(r.events, racer, observed) && !Ended(r.events, racer)
    requires Timely(r.events) && forall e | e in r.events :: e.at <= now
    ensures var ev := Finished(r, r.runId, racer, observed, now, source).events;
            && LogOk(ev) && Timely(ev) && LastWrite(ev) == observed + 1
            && Readers(ev) == Readers(r.events)
            && (forall x | x != racer :: Ended(ev, x) == Ended(r.events, x))
            && (forall x, v :: HasRead(r.events, x, v) ==> HasRead(ev, x, v))
            && (forall e | e in ev :: e in r.events || (e.runId == r.runId && e.at == now))
  {
    hide LogOk, Ended, HasRead, Readers, LastWrite, Timely;
    var end := Event(r.runId, racer, AwaitEnd, observed, now, source);
    var write := Event(r.runId, racer, Wrote, observed + 1, now, source);
    var mid := r.events + [end];
    LogSnoc(r.events, end);
    TimelySnoc(r.events, end);
    assert mid[|mid| - 1] == end;
    LogSnoc(mid, write);
    TimelySnoc(mid, write);
    assert Finished(r, r.runId, racer, observed, now, source).events == mid + [write];
  }

  /** Beginning appends no end, so it cannot break the serial form. */
  lemma BeginSerial(r: State, racer: int, now: int)
    requires Serial(r.events)
    ensures Serial(Begun(r, racer, now).events)
  {
    var ev := Begun(r, racer, now).events;
    assert forall i, x | 0 <= i < |r.events| :: ReadAt(ev, i, x) == ReadAt(r.events, i, x);
  }

  /** Finishing right after one's own read keeps it too. */
  lemma FinishSerial(r: State, racer: int, observed: int, now: int, source: string)
    requires LogOk(r.events) && Serial(r.events) && OpenLast(r.events, racer)
    ensures Serial(Finished(r, r.runId, racer, observed, now, source).events)
  {
    var ev, n := Finished(r, r.runId, racer, observed, now, source).events, |r.events|;
    assert forall i, x | 0 <= i < n :: ReadAt(ev, i, x) == ReadAt(r.events, i, x);
    EventOkAt(r.events, n - 1);
    forall i, j, k | 0 <= i < j < k < |ev| && (ev[k].phase == AwaitEnd || ev[k].phase == Wrote)
        && ReadAt(ev, i, ev[k].racer)
      ensures ev[j].racer == ev[k].racer
    {
      if k >= n { OneRead(r.events, i, n - 2, racer); }
    }
  }

  // ---------------------------------------------------------------- admission

  lemma {:induction false} BoundedSet(s: set<int>, n: int)
    requires n >= 0 && forall x | x in s :: 0 <= x < n
    ensures |s| <= n
  {
    if n > 0 {
      BoundedSet(s - {n - 1}, n - 1);
    } else {
      assert forall x :: x !in s;
    }
  }

  /** By pigeonhole, a racer without a read event always finds a wait left. */
  lemma BudgetNeverRefuses(r: State, now: int, runId: string, racer: int)
    requires RaceInv(r, now)
    ensures Refused(r, runId, racer) != Some(NoBudget)
    ensures Refused(r, runId, racer).None? ==> racer !in Readers(r.events) && r.budget > 0
  {
    if runId == r.runId && 0 <= racer < r.expected {
      if racer in Readers(r.events) {
        assert Already(r.events, runId, racer);
      } else {
        var all := Readers(r.events) + {racer};
        BoundedSet(all, r.expected);
        assert |all| == |Readers(r.events)| + 1;
      }
    }
  }

  lemma BeginKeepsRace(r: State, now: int, runId: string, racer: int)
    requires RaceInv(r, now) && Refused(r, runId, racer).None?
    ensures RaceInv(Begun(r, racer, now), now)
  {
    hide LogOk, Readers, LastWrite, Timely, Serial;
    BudgetNeverRefuses(r, now, runId, racer);
    BeginLog(r, racer, now);
    if r.mode == Serialized { BeginSerial(r, racer, now); }
    var before, after := Readers(r.events), Readers(Begun(r, racer, now).events);
    assert after == before + {racer} && |after| == |before| + 1;
  }

  lemma FinishKeepsRace(r: State, racer: int, observed: int, now: int, source: string)
    requires RaceInv(r, now) && HasRead(r.events, racer, observed) && !Ended(r.events, racer)
    requires r.mode == Serialized ==> OpenLast(r.events, racer)
    ensures RaceInv(Finished(r, r.runId, racer, observed, now, source), now)
  {
    hide LogOk, Readers, LastWrite, Timely, Serial, HasRead, Ended;
    FinishLog(r, racer, observed, now, source);
    if r.mode == Serialized { FinishSerial(r, racer, observed, now, source); }
  }

  // ---------------------------------------------------------------- every action keeps the invariant

  lemma ReaderHasRead(events: seq<Event>, racer: int, v: int)
    requires HasRead(events, racer, v)
    ensures racer in Readers(events)
  {
    var i :| ReadAt(events, i, racer) && events[i].counter == v;
    assert events[i] in events;
  }

  /** A waiter that joins the armed run. */
  lemma NewWaiter(s: System, runId: string, racer: int)
    requires Inv(s) && Refused(s.race, runId, racer).None?
    ensures var s' := s.(race := Begun(s.race, racer, s.now));
            && RaceInv(s'.race, s'.now) && WaitersInv(s') && WaiterOk(s', Wait(s, racer))
            && OpenLast(s'.race.events, racer)
            && (s.held.Some? && s.held.value.runId == s.race.runId ==> s.held.value.racer != racer)
            && (forall id | id in s.loose && s.loose[id].runId == s.race.runId :: s.loose[id].racer != racer)
  {
    hide LogOk, Readers, LastWrite, Timely, Serial, HasRead, Ended, OpenLast, Refused, Begun;
    BeginKeepsRace(s.race, s.now, runId, racer);
    BudgetNeverRefuses(s.race, s.now, runId, racer);
    BeginLog(s.race, racer, s.now);
    BegunKeepsRun(s.race, runId, racer, s.now);
    if s.held.Some? && s.held.value.runId == s.race.runId {
      ReaderHasRead(s.race.events, s.held.value.racer, s.held.value.observed);
    }
    forall id | id in s.loose && s.loose[id].runId == s.race.runId ensures s.loose[id].racer in Readers(s.race.events) {
      ReaderHasRead(s.race.events, s.loose[id].racer, s.loose[id].observed);
    }
  }

  lemma BegunKeepsRun(r: State, runId: string, racer: int, now: int)
    requires Refused(r, runId, racer).None?
    ensures r.runId == runId && r.expected > 0 && Begun(r, racer, now).runId == runId
            && Begun(r, racer, now).mode == r.mode
  {
  }

  lemma StepCallKeeps(s: System, id: nat, runId: string, racer: int)
    requires Inv(s) && Enabled(s, StepCall(id, runId, racer))
    ensures Inv(Do(s, StepCall(id, runId, racer)))
  {
    hide RaceInv, HasRead, Ended, Refused, Begun, OpenLast;
    var s' := Do(s, StepCall(id, runId, racer));
    if s.race.mode == Serialized && s.race.runId == runId {
      assert s'.queue == s.queue + [StepTask(runId, racer)];
    } else if Refused(s.race, runId, racer).None? {
      NewWaiter(s, runId, racer);
      BegunKeepsRun(s.race, runId, racer, s.now);
      HeldUnlessNew(s);
    }
  }

  /** The armed run has a name as soon as somebody can join it. */
  lemma HeldUnlessNew(s: System)
    requires Inv(s) && s.race.expected > 0
    ensures s.race.runId != "" && s.race.runId in s.used
  {
    hide LogOk, Readers, LastWrite, Timely, Serial;
  }

  lemma NextTaskKeeps(s: System)
    requires Inv(s) && Enabled(s, NextTask)
    ensures Inv(Do(s, NextTask))
  {
    hide RaceInv, HasRead, Ended, Refused, Begun, OpenLast;
    var s' := Do(s, NextTask);
    var task := s.queue[0];
    assert task in s.queue && forall t | t in s.queue[1..] :: t in s.queue;
    match task
    case ArmTask(runId, mode, expected) =>
      ArmedRaceInv(runId, mode, expected, s.now);
      assert s'.queue == s.queue[1..];
      forall t | t in s'.queue && t.ArmTask? ensures t.runId != runId {
        var j :| 0 < j < |s.queue| && s.queue[j] == t;
      }
    case StepTask(runId, racer) =>
      if Refused(s.race, runId, racer).None? {
        NewWaiter(s, runId, racer);
        BegunKeepsRun(s.race, runId, racer, s.now);
        HeldUnlessNew(s);
      }
  }

  lemma ArmedRaceInv(runId: string, mode: Mode, expected: int, now: int)
    requires runId != ""
    ensures RaceInv(Armed(runId, mode, expected, now), now)
    ensures RaceInv(INITIAL, now)
  {
  }

  /** A model answer: stale steps change nothing, a step of the armed run ends. */
  lemma AnswerKeeps(s: System, w: Waiter, source: string)
    requires Inv(s) && WaiterOk(s, w)
    requires s.race.mode == Serialized && w.runId == s.race.runId ==> OpenLast(s.race.events, w.racer)
    ensures RaceInv(AfterModel(s, w, source), s.now) && AfterModel(s, w, source).runId == s.race.runId
            && AfterModel(s, w, source).mode == s.race.mode
    ensures forall v | WaiterOk(s, v) && Apart(v, w) :: WaiterOk(s.(race := AfterModel(s, w, source)), v)
    ensures w.epoch < s.epoch ==> AfterModel(s, w, source) == s.race
  {
    hide LogOk, Readers, LastWrite, Timely, Serial, HasRead, Ended, OpenLast;
    if w.runId == s.race.runId {
      FinishKeepsRace(s.race, w.racer, w.observed, s.now, source);
      FinishLog(s.race, w.racer, w.observed, s.now, source);
    }
  }

  lemma HeldModelKeeps(s: System, source: string)
    requires Inv(s) && Enabled(s, HeldModel(source))
    ensures Inv(Do(s, HeldModel(source)))
  {
    hide RaceInv, AfterModel, HasRead, Ended, OpenLast;
    var w := s.held.value;
    AnswerKeeps(s, w, source);
    var s' := Do(s, HeldModel(source));
    forall id | id in s'.loose ensures WaiterOk(s', s'.loose[id]) {
      if s.loose[id].runId == s.race.runId { assert Apart(s.loose[id], w); }
      LooseKept(s, s', s.loose[id], w, source);
    }
  }

  /** A waiter other than the one that was answered stays as it was. */
  lemma LooseKept(s: System, s': System, v: Waiter, w: Waiter, source: string)
    requires Inv(s) && WaiterOk(s, v) && (v.runId == s.race.runId ==> Apart(v, w))
    requires WaiterOk(s, w)
    requires s.race.mode == Serialized && w.runId == s.race.runId ==> OpenLast(s.race.events, w.racer)
    requires s'.race == AfterModel(s, w, source) && s'.used == s.used && s'.epoch == s.epoch
    ensures WaiterOk(s', v)
  {
    hide LogOk, Readers, LastWrite, Timely, Serial, HasRead, Ended, OpenLast;
    AnswerKeeps(s, w, source);
    if v.runId == s.race.runId {
      assert WaiterOk(s.(race := AfterModel(s, w, source)), v);
    }
  }

  lemma LooseModelKeeps(s: System, id: nat, source: string)
    requires Inv(s) && Enabled(s, LooseModel(id, source))
    ensures Inv(Do(s, LooseModel(id, source)))
  {
    hide RaceInv, AfterModel, HasRead, Ended, OpenLast;
    var w := s.loose[id];
    AnswerKeeps(s, w, source);
    var s' := Do(s, LooseModel(id, source));
    forall k | k in s'.loose ensures WaiterOk(s', s'.loose[k]) {
      if s.loose[k].runId == s.race.runId { assert Apart(s.loose[k], w); }
      LooseKept(s, s', s.loose[k], w, source);
    }
    if s.held.Some? {
      if s.held.value.runId == s.race.runId && w.runId == s.race.runId { assert Apart(s.held.value, w); }
      LooseKept(s, s', s.held.value, w, source);
    }
    StaleKeepsOpen(s, w, source);
  }

  lemma StaleKeepsOpen(s: System, w: Waiter, source: string)
    ensures w.runId != s.race.runId ==> AfterModel(s, w, source) == s.race
  {
  }

  lemma DoKeepsInv(s: System, a: Action)
    requires Inv(s) && Enabled(s, a)
    ensures Inv(Do(s, a))
  {
    hide Inv;
    match a
    case StepCall(id, runId, racer) => StepCallKeeps(s, id, runId, racer);
    case NextTask => NextTaskKeeps(s);
    case HeldModel(source) => HeldModelKeeps(s, source);
    case LooseModel(id, source) => LooseModelKeeps(s, id, source);
    case Tick(later) => TickKeeps(s, later);
    case ArmCall(newId, mode, expected) => ArmCallKeeps(s, newId, mode, expected);
    case LoseIsolate => LoseKeeps(s);
    case Expire => LoseKeeps(s);
    case _ => LeaveKeeps(s, a);
  }

  lemma TickKeeps(s: System, later: int)
    requires Inv(s) && later >= s.now
    ensures Inv(s.(now := later))
  {
    hide LogOk, Readers, LastWrite, Timely, Serial, HasRead, Ended, OpenLast;
  }

  lemma ArmCallKeeps(s: System, newId: string, mode: Mode, expected: int)
    requires Inv(s) && Enabled(s, ArmCall(newId, mode, expected))
    ensures Inv(Do(s, ArmCall(newId, mode, expected)))
  {
    hide RaceInv, HasRead, Ended, OpenLast;
    assert Do(s, ArmCall(newId, mode, expected)).queue == s.queue + [ArmTask(newId, mode, expected)];
    HeldIsUsed(s);
  }

  lemma LoseKeeps(s: System)
    requires Inv(s)
    ensures Inv(Do(s, LoseIsolate)) && Inv(Do(s, Expire))
  {
    hide LogOk, Readers, LastWrite, Timely, Serial, HasRead, Ended, OpenLast;
    ArmedRaceInv("-", Interleaved, 0, s.now);
  }

  /** A step that leaves the queue of waiters without recording anything. */
  lemma LeaveKeeps(s: System, a: Action)
    requires Inv(s) && Enabled(s, a) && (a.HeldLimited? || a.HeldThrows? || a.LooseLimited? || a.LooseThrows?)
    ensures Inv(Do(s, a))
  {
    hide RaceInv, HasRead, Ended, OpenLast;
  }

  lemma HeldIsUsed(s: System)
    requires Inv(s)
    ensures s.held.Some? ==> s.held.value.runId in s.used
    ensures forall id | id in s.loose :: s.loose[id].runId in s.used
  {
  }

  lemma {:induction false} AlwaysInv(actions: seq<Action>)
    requires Legal(actions)
    ensures Inv(After(actions))
  {
    if actions == [] {
      ArmedRaceInv("-", Interleaved, 0, 0);
    } else {
      AlwaysInv(actions[..|actions| - 1]);
      DoKeepsInv(After(actions[..|actions| - 1]), actions[|actions| - 1]);
    }
  }

  // ---------------------------------------------------------------- the theorems

  /**
   * In every interleaving a serialized run loses nothing: the counter equals the number of writes, the
   * written values count 1, 2, 3, … in log order, only the mailbox task can be under way, and its waits
   * do not overlap.
   */
  lemma SerializedRunIsSafe(actions: seq<Action>)
    requires Legal(actions) && After(actions).race.mode == Serialized
    ensures var s := After(actions);
            && s.race.counter == Writes(s.race.events)
            && (forall k | 0 <= k < |s.race.events| && s.race.events[k].phase == Wrote ::
                s.race.events[k].counter == Writes(s.race.events[..k]) + 1)
            && (forall id | id in s.loose :: s.loose[id].runId != s.race.runId)
            && !Overlapping(s.race.events)
  {
    hide LogOk, Readers, LastWrite, Timely, Serial, HasRead, Ended, OpenLast, Writes, Overlapping;
    AlwaysInv(actions);
    var ev := After(actions).race.events;
    SerialHasNoWriteInside(ev);
    NothingLostIff(ev);
    SerialDoesNotOverlap(ev);
    forall k | 0 <= k < |ev| && ev[k].phase == Wrote ensures ev[k].counter == Writes(ev[..k]) + 1 {
      SerialWritesCount(ev, k);
    }
  }

  /**
   * In every interleaving, of either mode: the counter is between 1 and the number of writes once there
   * is one, and no update is lost exactly when no writer's read falls into another writer's window.
   */
  lemma CounterMeetsLog(actions: seq<Action>)
    requires Legal(actions)
    ensures var s := After(actions);
            && 0 <= s.race.counter <= Writes(s.race.events)
            && (Writes(s.race.events) > 0 ==> s.race.counter >= 1)
            && (s.race.counter == Writes(s.race.events) <==> NoReadInside(s.race.events))
  {
    hide LogOk, Readers, LastWrite, Timely, Serial, HasRead, Ended, OpenLast, Writes, NoReadInside, NoWriteInside;
    AlwaysInv(actions);
    var ev := After(actions).race.events;
    CounterBounds(ev);
    NothingLostIff(ev);
    ReadsOrWritesInside(ev);
  }

  /**
   * The counter never passes the size of the run, so what `result` calls lost is exactly the racers that
   * never wrote and the writes that were overwritten; in a serialized run it is the first alone. (The
   * worker arms runs of positive size only.)
   */
  lemma LostAddsUp(actions: seq<Action>)
    requires Legal(actions) && After(actions).race.expected >= 0
    ensures var r := After(actions).race; var report := ReportOf(r);
            && r.counter <= Writes(r.events) == |Writers(r.events)| <= r.expected
            && report.lost == (r.expected - |Writers(r.events)|) + (Writes(r.events) - r.counter)
            && (r.mode == Serialized ==> report.lost == r.expected - |Writers(r.events)| && !report.overlapped)
  {
    hide LogOk, LastWrite, Timely, Serial, Writes, Overlapping, Readers, Writers, HasRead, Ended;
    AlwaysInv(actions);
    var r := After(actions).race;
    CounterBounds(r.events);
    WritesAreRacers(r.events);
    Fewer(Writers(r.events), Readers(r.events));
    BudgetLeft(r, After(actions).now);
    if r.mode == Serialized { SerializedRunIsSafe(actions); }
  }

  lemma Fewer(a: set<int>, b: set<int>)
    requires a <= b
    ensures |a| <= |b|
  {
    assert b == a + (b - a);
  }

  lemma BudgetLeft(r: State, now: int)
    requires RaceInv(r, now) && r.expected >= 0
    ensures r.budget >= 0 && |Readers(r.events)| <= r.expected
  {
    hide LogOk, LastWrite, Timely, Serial;
    BoundedSet(Readers(r.events), r.expected);
  }

  /** In every interleaving `overlaps` tells the truth about the armed run: it is true exactly when waits crossed. */
  lemma OverlapsTellsTheTruth(actions: seq<Action>)
    requires Legal(actions)
    ensures ReportOf(After(actions).race).overlapped <==> WaitsCross(After(actions).race.events)
  {
    hide LogOk, LastWrite, Timely, Serial, Readers, Overlapping, WaitsCross;
    AlwaysInv(actions);
    OverlapsIffWaitsCross(After(actions).race.events);
  }

  /** A step left waiting from an earlier run never changes the armed run. */
  lemma StaleStepIsHarmless(actions: seq<Action>, id: nat, source: string)
    requires Legal(actions)
    ensures var s := After(actions);
            && (id in s.loose && s.loose[id].epoch < s.epoch ==> AfterModel(s, s.loose[id], source) == s.race)
            && (s.held.Some? && s.held.value.epoch < s.epoch ==> AfterModel(s, s.held.value, source) == s.race)
  {
    hide LogOk, Readers, LastWrite, Timely, Serial, HasRead, Ended, OpenLast;
    AlwaysInv(actions);
  }

  /**
   * The waits left and the racers that read always add up to the size of the run, also after a lost
   * isolate emptied `seen`; so no step is ever refused for want of a wait, and none is accepted twice.
   */
  lemma AdmissionByPigeonhole(actions: seq<Action>, runId: string, racer: int)
    requires Legal(actions)
    ensures var r := After(actions).race;
            && r.budget + |Readers(r.events)| == r.expected
            && Refused(r, runId, racer) != Some(NoBudget)
            && (racer in Readers(r.events) ==> Refused(r, runId, racer).Some?)
  {
    hide LogOk, LastWrite, Timely, Serial;
    AlwaysInv(actions);
    var r := After(actions).race;
    BudgetNeverRefuses(r, After(actions).now, runId, racer);
  }
}
