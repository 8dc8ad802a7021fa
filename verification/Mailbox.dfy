/** demos/actor-lab/src/worker/actor.ts: `mailbox`, a queue made of a chain of promises. */
module Mailbox {

  datatype Phase = Waiting | Running | Done

  /** One call: the promise it waits for, the promise it resolves when its task has ended, and how far it is. */
  datatype Job = Job(waitsFor: nat, releases: nat, phase: Phase)

  /** `tail` is the promise that the next call will wait for; promise 0 is resolved from the start. */
  datatype Chain = Chain(tail: nat, jobs: seq<Job>)

  const EMPTY := Chain(0, [])

  datatype Action = Post | Start(i: nat) | Finish(i: nat)

  predicate Resolved(c: Chain, promise: nat) {
    promise == 0 || exists j | j in c.jobs :: j.releases == promise && j.phase.Done?
  }

  predicate Enabled(c: Chain, a: Action) {
    match a
    case Post => true
    case Start(i) => i < |c.jobs| && c.jobs[i].phase.Waiting? && Resolved(c, c.jobs[i].waitsFor)
    case Finish(i) => i < |c.jobs| && c.jobs[i].phase.Running?
  }

  /** `Post` is the synchronous part of `mailbox`; a task that throws finishes like one that returns. */
  function Do(c: Chain, a: Action): Chain
    requires Enabled(c, a)
  {
    match a
    case Post => var own := |c.jobs| + 1; Chain(own, c.jobs + [Job(c.tail, own, Waiting)])
    case Start(i) => c.(jobs := c.jobs[i := c.jobs[i].(phase := Running)])
    case Finish(i) => c.(jobs := c.jobs[i := c.jobs[i].(phase := Done)])
  }

  class MailboxActor {
    var tail: nat
    var jobs: seq<Job>

    function View(): Chain reads this { Chain(tail, jobs) }

    constructor ()
      ensures View() == EMPTY
    {
      tail, jobs := 0, [];
    }

    /** `mailbox`: a fresh promise becomes the tail, and the call waits for the tail that was there. */
    method Enqueue() returns (i: nat)
      modifies this
      ensures i == |old(jobs)| && View() == Do(old(View()), Post)
    {
      i := |jobs|;
      var previous := tail;
      tail := |jobs| + 1;
      jobs := jobs + [Job(previous, tail, Waiting)];
    }

    /** `then(task)`: runs the call once the promise it waits for is resolved. */
    method Run(i: nat) returns (started: bool)
      modifies this
      ensures started == Enabled(old(View()), Start(i))
      ensures View() == if started then Do(old(View()), Start(i)) else old(View())
    {
      started := i < |jobs| && jobs[i].phase.Waiting? && Resolved(View(), jobs[i].waitsFor);
      if started { jobs := jobs[i := jobs[i].(phase := Running)]; }
    }

    /** `finally(release)`. */
    method Release(i: nat)
      requires Enabled(View(), Finish(i))
      modifies this
      ensures View() == Do(old(View()), Finish(i))
    {
      jobs := jobs[i := jobs[i].(phase := Done)];
    }
  }

  ghost predicate Legal(actions: seq<Action>)
    decreases |actions|, 0
  {
    actions == [] ||
    (Legal(actions[..|actions| - 1]) && Enabled(After(actions[..|actions| - 1]), actions[|actions| - 1]))
  }

  ghost function After(actions: seq<Action>): Chain
    requires Legal(actions)
    decreases |actions|, 1
  {
    if actions == [] then EMPTY else Do(After(actions[..|actions| - 1]), actions[|actions| - 1])
  }

  /** The chain as a queue: finished calls, at most one running call, waiting calls, in order of arrival. */
  ghost predicate IsQueue(c: Chain) {
    && c.tail == |c.jobs|
    && (forall i | 0 <= i < |c.jobs| :: c.jobs[i].waitsFor == i && c.jobs[i].releases == i + 1)
    && (forall i, j | 0 <= i < j < |c.jobs| && !c.jobs[j].phase.Waiting? :: c.jobs[i].phase.Done?)
  }

  lemma DoKeepsQueue(c: Chain, a: Action)
    requires IsQueue(c) && Enabled(c, a)
    ensures IsQueue(Do(c, a))
  {
    if a.Start? && a.i > 0 {
      var j :| j in c.jobs && j.releases == c.jobs[a.i].waitsFor && j.phase.Done?;
      var k :| 0 <= k < |c.jobs| && c.jobs[k] == j;
      assert k == a.i - 1;
    }
  }

  /** In every reachable chain a call runs only after every earlier call has ended: one at a time, in order. */
  lemma {:induction false} OneAtATimeInOrder(actions: seq<Action>)
    requires Legal(actions)
    ensures IsQueue(After(actions))
    ensures forall i, j | 0 <= i < j < |After(actions).jobs| && !After(actions).jobs[j].phase.Waiting? ::
            After(actions).jobs[i].phase.Done?
  {
    if actions != [] {
      OneAtATimeInOrder(actions[..|actions| - 1]);
      DoKeepsQueue(After(actions[..|actions| - 1]), actions[|actions| - 1]);
    }
  }

  /** The oldest call that has not ended can always be started or is running: nobody waits for ever. */
  lemma OldestCanMove(actions: seq<Action>, i: nat)
    requires Legal(actions) && i < |After(actions).jobs| && !After(actions).jobs[i].phase.Done?
    requires forall k | 0 <= k < i :: After(actions).jobs[k].phase.Done?
    ensures Enabled(After(actions), Start(i)) || Enabled(After(actions), Finish(i))
  {
    OneAtATimeInOrder(actions);
    var c := After(actions);
    if i > 0 { assert c.jobs[i - 1] in c.jobs; }
  }

  // ---------------------------------------------------------------- every call is there

  function Count(actions: seq<Action>, a: Action): nat {
    if actions == [] then 0 else Count(actions[..|actions| - 1], a) + if actions[|actions| - 1] == a then 1 else 0
  }

  /**
   * There is a job for every call, and its phase says whether it was started and whether it has ended, each at
   * most once.
   */
  lemma {:induction false} JobsAreCalls(actions: seq<Action>, i: nat)
    requires Legal(actions)
    ensures |After(actions).jobs| == Count(actions, Post)
    ensures i < |After(actions).jobs| ==>
              match After(actions).jobs[i].phase
              case Waiting => Count(actions, Start(i)) == 0 && Count(actions, Finish(i)) == 0
              case Running => Count(actions, Start(i)) == 1 && Count(actions, Finish(i)) == 0
              case Done => Count(actions, Start(i)) == 1 && Count(actions, Finish(i)) == 1
    ensures i >= |After(actions).jobs| ==> Count(actions, Start(i)) == 0 && Count(actions, Finish(i)) == 0
  {
    if actions != [] {
      JobsAreCalls(actions[..|actions| - 1], i);
    }
  }
}
