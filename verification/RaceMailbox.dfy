/**
 * demos/actor-lab/src/worker/race.ts over demos/actor-lab/src/worker/actor.ts: the race with its real mailbox,
 * the chain of promises. Any number of its calls could be under way; that it is at most one, and that the
 * chain behaves like the queue of RaceSystem, is proved here.
 */
module RaceMailbox {
  import opened Options
  import opened Race
  import Mailbox
  import RaceSystem

  /** `tasks`: the task of every call of the chain; `steps`: what the calls that are under way wait for. */
  datatype Actor = Actor(race: State, chain: Mailbox.Chain, tasks: seq<RaceSystem.Task>,
                         steps: map<nat, RaceSystem.Waiter>, loose: map<nat, RaceSystem.Waiter>,
                         now: int, used: set<string>, epoch: nat)

  const START := Actor(INITIAL, Mailbox.EMPTY, [], map[], map[], 0, {}, 0)

  datatype Action =
    | ArmCall(newId: string, mode: Mode, expected: int)
    | StepCall(id: nat, runId: string, racer: int)
    | StartTask(i: nat)
    | StepLimited(i: nat, ok: bool) | StepModel(i: nat, source: string) | StepThrows(i: nat)
    | LooseLimited(id: nat, ok: bool) | LooseModel(id: nat, source: string) | LooseThrows(id: nat)
    | Tick(later: int) | LoseIsolate | Expire

  predicate Enabled(c: Actor, a: Action) {
    match a
    case ArmCall(newId, _, _) => newId != "" && newId !in c.used
    case StepCall(id, _, _) => id !in c.loose
    case StartTask(i) => Mailbox.Enabled(c.chain, Mailbox.Start(i)) && i < |c.tasks|
    case StepLimited(i, _) => Running(c, i) && !c.steps[i].atModel
    case StepModel(i, _) => Running(c, i) && c.steps[i].atModel
    case StepThrows(i) => Running(c, i)
    case LooseLimited(id, _) => id in c.loose && !c.loose[id].atModel
    case LooseModel(id, _) => id in c.loose && c.loose[id].atModel
    case LooseThrows(id) => id in c.loose
    case Tick(later) => later >= c.now
    case LoseIsolate => true
    case Expire => true
  }

  predicate Running(c: Actor, i: nat) {
    i in c.steps && Mailbox.Enabled(c.chain, Mailbox.Finish(i))
  }

  /** A call of `mailbox`. */
  function Posted(c: Actor, task: RaceSystem.Task): Actor {
    c.(chain := Mailbox.Do(c.chain, Mailbox.Post), tasks := c.tasks + [task])
  }

  /** The promise of call `i` is resolved. */
  function Released(c: Actor, i: nat): Actor
    requires Mailbox.Enabled(c.chain, Mailbox.Finish(i))
  {
    c.(chain := Mailbox.Do(c.chain, Mailbox.Finish(i)), steps := c.steps - {i})
  }

  function Wait(c: Actor, racer: int): RaceSystem.Waiter {
    RaceSystem.Waiter(c.race.runId, racer, c.race.counter, false, c.epoch)
  }

  function Answer(c: Actor, w: RaceSystem.Waiter, source: string): State {
    Finished(c.race, w.runId, w.racer, w.observed, c.now, source)
  }

  /** The synchronous part of a task whose turn has come. */
  function RunTask(c: Actor, i: nat): Actor
    requires Enabled(c, StartTask(i))
  {
    var begun := c.(chain := Mailbox.Do(c.chain, Mailbox.Start(i)));
    match c.tasks[i]
    case ArmTask(runId, mode, expected) =>
      Released(begun.(race := Armed(runId, mode, expected, c.now), epoch := c.epoch + 1), i)
    case StepTask(runId, racer) =>
      if Refused(c.race, runId, racer).Some? then Released(begun, i)
      else begun.(race := Begun(c.race, racer, c.now), steps := c.steps[i := Wait(c, racer)])
  }

  function Do(c: Actor, a: Action): Actor
    requires Enabled(c, a)
  {
    match a
    case ArmCall(newId, mode, expected) =>
      Posted(c, RaceSystem.ArmTask(newId, mode, expected)).(used := c.used + {newId})
    case StepCall(id, runId, racer) =>
      if c.race.mode == Serialized && c.race.runId == runId then Posted(c, RaceSystem.StepTask(runId, racer))
      else if Refused(c.race, runId, racer).Some? then c
      else c.(race := Begun(c.race, racer, c.now), loose := c.loose[id := Wait(c, racer)])
    case StartTask(i) => RunTask(c, i)
    case StepLimited(i, ok) => if ok then c.(steps := c.steps[i := c.steps[i].(atModel := true)]) else Released(c, i)
    case StepModel(i, source) => Released(c.(race := Answer(c, c.steps[i], source)), i)
    case StepThrows(i) => Released(c, i)
    case LooseLimited(id, ok) =>
      c.(loose := if ok then c.loose[id := c.loose[id].(atModel := true)] else c.loose - {id})
    case LooseModel(id, source) => c.(race := Answer(c, c.loose[id], source), loose := c.loose - {id})
    case LooseThrows(id) => c.(loose := c.loose - {id})
    case Tick(later) => c.(now := later)
    case LoseIsolate =>
      c.(race := c.race.(seen := {}), chain := Mailbox.EMPTY, tasks := [], steps := map[], loose := map[])
    case Expire => c.(race := INITIAL)
  }

  ghost predicate Legal(actions: seq<Action>)
    decreases |actions|, 0
  {
    actions == [] ||
    (Legal(actions[..|actions| - 1]) && Enabled(After(actions[..|actions| - 1]), actions[|actions| - 1]))
  }

  ghost function After(actions: seq<Action>): Actor
    requires Legal(actions)
    decreases |actions|, 1
  {
    if actions == [] then START else Do(After(actions[..|actions| - 1]), actions[|actions| - 1])
  }

  // ---------------------------------------------------------------- the queue behind the chain

  /** How many calls at the front of the chain have ended. */
  function EndedCount(jobs: seq<Mailbox.Job>): (n: nat)
    ensures n <= |jobs|
  {
    if jobs == [] || !jobs[0].phase.Done? then 0 else 1 + EndedCount(jobs[1..])
  }

  /** The step under way is the one held, and the tasks after the ended ones are the queue. */
  function Queued(c: Actor): RaceSystem.System {
    var n := EndedCount(c.chain.jobs);
    var held := if n in c.steps then Some(c.steps[n]) else None;
    var from := if held.Some? then n + 1 else n;
    RaceSystem.System(c.race, if from <= |c.tasks| then c.tasks[from..] else [], held, c.loose, c.now, c.used, c.epoch)
  }

  function Image(a: Action): RaceSystem.Action {
    match a
    case ArmCall(newId, mode, expected) => RaceSystem.ArmCall(newId, mode, expected)
    case StepCall(id, runId, racer) => RaceSystem.StepCall(id, runId, racer)
    case StartTask(_) => RaceSystem.NextTask
    case StepLimited(_, ok) => RaceSystem.HeldLimited(ok)
    case StepModel(_, source) => RaceSystem.HeldModel(source)
    case StepThrows(_) => RaceSystem.HeldThrows
    case LooseLimited(id, ok) => RaceSystem.LooseLimited(id, ok)
    case LooseModel(id, source) => RaceSystem.LooseModel(id, source)
    case LooseThrows(id) => RaceSystem.LooseThrows(id)
    case Tick(later) => RaceSystem.Tick(later)
    case LoseIsolate => RaceSystem.LoseIsolate
    case Expire => RaceSystem.Expire
  }

  function Images(actions: seq<Action>): (images: seq<RaceSystem.Action>)
    ensures |images| == |actions| && forall i | 0 <= i < |images| :: images[i] == Image(actions[i])
  {
    seq(|actions|, i requires 0 <= i < |actions| => Image(actions[i]))
  }

  predicate UnderWay(jobs: seq<Mailbox.Job>, i: nat) {
    i < |jobs| && jobs[i].phase.Running?
  }

  ghost predicate ChainInv(c: Actor) {
    && Mailbox.IsQueue(c.chain) && |c.tasks| == |c.chain.jobs|
    && forall i: nat :: i in c.steps <==> UnderWay(c.chain.jobs, i)
  }

  lemma {:induction false} EndedIs(jobs: seq<Mailbox.Job>, n: nat)
    requires n <= |jobs| && (forall k | 0 <= k < n :: jobs[k].phase.Done?) && (n < |jobs| ==> !jobs[n].phase.Done?)
    ensures EndedCount(jobs) == n
  {
    if n > 0 { EndedIs(jobs[1..], n - 1); }
  }

  lemma {:induction false} EndedAre(jobs: seq<Mailbox.Job>)
    ensures forall k | 0 <= k < EndedCount(jobs) :: jobs[k].phase.Done?
    ensures EndedCount(jobs) < |jobs| ==> !jobs[EndedCount(jobs)].phase.Done?
  {
    if jobs != [] && jobs[0].phase.Done? { EndedAre(jobs[1..]); }
  }

  /** The only call that can start, or that is under way, is the first that has not ended. */
  lemma FirstInLine(c: Actor, i: nat)
    requires ChainInv(c)
    ensures Mailbox.Enabled(c.chain, Mailbox.Start(i)) || i in c.steps ==> i == EndedCount(c.chain.jobs)
    ensures Mailbox.Enabled(c.chain, Mailbox.Start(i)) ==> i !in c.steps
  {
    if Mailbox.Enabled(c.chain, Mailbox.Start(i)) {
      Mailbox.DoKeepsQueue(c.chain, Mailbox.Start(i));
      var after := Mailbox.Do(c.chain, Mailbox.Start(i)).jobs;
      assert forall k | 0 <= k < i :: after[k] == c.chain.jobs[k] && after[k].phase.Done?;
      EndedIs(c.chain.jobs, i);
    } else if i in c.steps {
      EndedIs(c.chain.jobs, i);
    }
  }

  /** When call `n` ends, one more has ended. */
  lemma ReleaseCounts(c: Actor, n: nat)
    requires ChainInv(c) && Running(c, n)
    ensures n == EndedCount(c.chain.jobs) && EndedCount(Released(c, n).chain.jobs) == n + 1
    ensures ChainInv(Released(c, n)) && n + 1 !in Released(c, n).steps
  {
    FirstInLine(c, n);
    EndedAre(c.chain.jobs);
    Mailbox.DoKeepsQueue(c.chain, Mailbox.Finish(n));
    EndedIs(Released(c, n).chain.jobs, n + 1);
  }

  lemma PostCounts(c: Actor, task: RaceSystem.Task)
    requires ChainInv(c)
    ensures ChainInv(Posted(c, task)) && EndedCount(Posted(c, task).chain.jobs) == EndedCount(c.chain.jobs)
  {
    EndedAre(c.chain.jobs);
    Mailbox.DoKeepsQueue(c.chain, Mailbox.Post);
    EndedIs(Posted(c, task).chain.jobs, EndedCount(c.chain.jobs));
  }

  lemma PostQueues(c: Actor, task: RaceSystem.Task)
    requires ChainInv(c)
    ensures ChainInv(Posted(c, task)) && Queued(Posted(c, task)) == Queued(c).(queue := Queued(c).queue + [task])
  {
    hide EndedCount, Mailbox.IsQueue, Mailbox.Do;
    PostCounts(c, task);
    var n := EndedCount(c.chain.jobs);
    var from := if n in c.steps then n + 1 else n;
    assert from <= |c.tasks| ==> (c.tasks + [task])[from..] == c.tasks[from..] + [task];
  }

  /** A call that starts is under way, and nothing else changes. */
  lemma StartCounts(c: Actor, i: nat, w: RaceSystem.Waiter)
    requires ChainInv(c) && Enabled(c, StartTask(i))
    ensures i == EndedCount(c.chain.jobs) && i !in c.steps && Queued(c).queue == c.tasks[i..] && Queued(c).held.None?
    ensures var t := c.(chain := Mailbox.Do(c.chain, Mailbox.Start(i)), steps := c.steps[i := w]);
            ChainInv(t) && Running(t, i) && EndedCount(t.chain.jobs) == i
  {
    FirstInLine(c, i);
    EndedAre(c.chain.jobs);
    Mailbox.DoKeepsQueue(c.chain, Mailbox.Start(i));
    EndedIs(Mailbox.Do(c.chain, Mailbox.Start(i)).jobs, i);
  }

  // ---------------------------------------------------------------- the refinement

  lemma StartSimulates(c: Actor, i: nat)
    requires ChainInv(c) && Enabled(c, StartTask(i))
    ensures ChainInv(Do(c, StartTask(i)))
    ensures RaceSystem.Enabled(Queued(c), RaceSystem.NextTask)
    ensures Queued(Do(c, StartTask(i))) == RaceSystem.Do(Queued(c), RaceSystem.NextTask)
  {
    hide Refused, Begun, ChainInv, EndedCount;
    var w := Wait(c, match c.tasks[i] case StepTask(_, racer) => racer case _ => 0);
    StartCounts(c, i, w);
    assert c.tasks[i..][1..] == c.tasks[i + 1..] && c.tasks[i..][0] == c.tasks[i];
    var t := c.(chain := Mailbox.Do(c.chain, Mailbox.Start(i)), steps := c.steps[i := w]);
    if c.tasks[i].ArmTask? || Refused(c.race, c.tasks[i].runId, c.tasks[i].racer).Some? {
      ReleaseCounts(t, i);
      assert c.steps[i := w] - {i} == c.steps - {i};
      RaceDoesNotMatter(Released(t, i), Do(c, StartTask(i)));
    } else {
      RaceDoesNotMatter(t, Do(c, StartTask(i)));
    }
  }

  lemma RaceDoesNotMatter(c: Actor, d: Actor)
    requires ChainInv(c) && d.chain == c.chain && d.tasks == c.tasks && d.steps.Keys == c.steps.Keys
    ensures ChainInv(d)
  {
    assert forall i :: i in d.steps <==> i in d.steps.Keys;
  }

  lemma StepSimulates(c: Actor, i: nat, a: Action)
    requires ChainInv(c) && Enabled(c, a) && (a.StepLimited? || a.StepModel? || a.StepThrows?) && a.i == i
    ensures ChainInv(Do(c, a)) && RaceSystem.Enabled(Queued(c), Image(a))
    ensures Queued(Do(c, a)) == RaceSystem.Do(Queued(c), Image(a))
  {
    hide Finished, ChainInv, EndedCount;
    ReleaseCounts(c, i);
    RunningIsTask(c, i);
    if a.StepLimited? && a.ok {
      RaceDoesNotMatter(c, Do(c, a));
    } else {
      RaceDoesNotMatter(Released(c, i), Do(c, a));
    }
  }

  lemma RunningIsTask(c: Actor, i: nat)
    requires ChainInv(c) && i in c.steps
    ensures i < |c.tasks|
  {
  }

  /** An action that leaves the mailbox alone. */
  lemma OtherSimulates(c: Actor, a: Action)
    requires ChainInv(c) && Enabled(c, a)
    requires a.LooseLimited? || a.LooseModel? || a.LooseThrows? || a.Tick? || a.Expire?
    ensures ChainInv(Do(c, a)) && RaceSystem.Enabled(Queued(c), Image(a))
    ensures Queued(Do(c, a)) == RaceSystem.Do(Queued(c), Image(a))
  {
    hide Finished, EndedCount, ChainInv;
    RaceDoesNotMatter(c, Do(c, a));
  }

  lemma CallSimulates(c: Actor, a: Action)
    requires ChainInv(c) && Enabled(c, a) && (a.ArmCall? || a.StepCall?)
    ensures ChainInv(Do(c, a)) && RaceSystem.Enabled(Queued(c), Image(a))
    ensures Queued(Do(c, a)) == RaceSystem.Do(Queued(c), Image(a))
  {
    hide Refused, Begun, EndedCount, ChainInv;
    var task := match a case ArmCall(newId, mode, n) => RaceSystem.ArmTask(newId, mode, n)
                        case StepCall(_, runId, racer) => RaceSystem.StepTask(runId, racer)
                        case _ => RaceSystem.StepTask("", 0);
    PostQueues(c, task);
    if a.ArmCall? {
      RaceDoesNotMatter(Posted(c, task), Do(c, a));
    } else if Do(c, a) != Posted(c, task) {
      RaceDoesNotMatter(c, Do(c, a));
    }
  }

  lemma LoseSimulates(c: Actor)
    ensures ChainInv(Do(c, LoseIsolate)) && Queued(Do(c, LoseIsolate)) ==
            RaceSystem.Do(Queued(c), RaceSystem.LoseIsolate)
  {
    NobodyEnded();
  }

  lemma DoSimulates(c: Actor, a: Action)
    requires ChainInv(c) && Enabled(c, a)
    ensures ChainInv(Do(c, a)) && RaceSystem.Enabled(Queued(c), Image(a))
    ensures Queued(Do(c, a)) == RaceSystem.Do(Queued(c), Image(a))
  {
    hide Do, RaceSystem.Do, ChainInv, Queued;
    match a
    case ArmCall(_, _, _) => CallSimulates(c, a);
    case StepCall(_, _, _) => CallSimulates(c, a);
    case StartTask(i) => StartSimulates(c, i);
    case StepLimited(i, _) => StepSimulates(c, i, a);
    case StepModel(i, _) => StepSimulates(c, i, a);
    case StepThrows(i) => StepSimulates(c, i, a);
    case LoseIsolate => LoseSimulates(c);
    case _ => OtherSimulates(c, a);
  }

  lemma NobodyEnded()
    ensures EndedCount([]) == 0
  {
  }

  /** Every run of the race over the chain of promises is a run of the race over a queue. */
  lemma {:induction false} ChainRefinesQueue(actions: seq<Action>)
    requires Legal(actions)
    ensures ChainInv(After(actions)) && RaceSystem.Legal(Images(actions))
    ensures RaceSystem.After(Images(actions)) == Queued(After(actions))
  {
    hide ChainInv, Do, RaceSystem.Do, Queued;
    if actions == [] {
      StartIsQueue();
    } else {
      var front := actions[..|actions| - 1];
      ChainRefinesQueue(front);
      DoSimulates(After(front), actions[|actions| - 1]);
      assert Images(actions)[..|actions| - 1] == Images(front);
    }
  }

  lemma StartIsQueue()
    ensures ChainInv(START) && Queued(START) == RaceSystem.START
  {
  }

  /** At most one step that went through the mailbox is under way. */
  lemma OneStepInFlight(actions: seq<Action>, i: nat, j: nat)
    requires Legal(actions) && i in After(actions).steps && j in After(actions).steps
    ensures i == j
  {
    ChainRefinesQueue(actions);
    FirstInLine(After(actions), i);
    FirstInLine(After(actions), j);
  }

  /**
   * So in every interleaving over the chain a serialized run loses nothing: its counter is the number of its
   * writes, which count up in log order, at most one of its steps is in flight, and its waits do not overlap.
   */
  lemma SerializedRunIsSafe(actions: seq<Action>, i: nat, j: nat, id: nat)
    requires Legal(actions) && After(actions).race.mode == Serialized
    ensures var c := After(actions); var r := c.race;
            && r.counter == Writes(r.events)
            && (forall k | 0 <= k < |r.events| && r.events[k].phase == Wrote ::
                r.events[k].counter == Writes(r.events[..k]) + 1)
            && (i in c.steps && j in c.steps ==> i == j)
            && (id in c.loose ==> c.loose[id].runId != r.runId)
            && !Overlapping(r.events)
  {
    hide Writes, Overlapping;
    ChainRefinesQueue(actions);
    RaceSystem.SerializedRunIsSafe(Images(actions));
    if i in After(actions).steps && j in After(actions).steps { OneStepInFlight(actions, i, j); }
  }
}
