/**
 * demos/apollo-desk/src/worker/apollo.ts: what each synchronous block does in a reachable state, told by the
 * fields of the state alone. Desk says what never goes wrong; this says that the right thing happens.
 */
module DeskSteps {
  import opened Options
  import opened Desk

  /** The only row is what an answer takes, as long as it is in time. */
  lemma PendingOfOne(row: Row, now: int)
    ensures Pending([row], now) == if now <= row.expiresAt then Some(row) else None
    ensures Pending([], now) == None && Without([row], row.id) == []
  {
    assert [row][1..] == [] && Newest([]) == None && Newest([row]) == Some(row);
    assert Without([], row.id) == [];
  }

  /** Of several rows an answer takes the one that expires last. */
  lemma {:induction false} NewestExpiresLast(rows: seq<Row>)
    ensures Newest(rows).None? <==> rows == []
    ensures Newest(rows).Some? ==>
              Newest(rows).value in rows && forall r | r in rows :: r.expiresAt <= Newest(rows).value.expiresAt
  {
    if rows != [] {
      NewestExpiresLast(rows[1..]);
      assert forall r :: r in rows <==> r == rows[0] || r in rows[1..];
    }
  }

  /** The desk as an answer that takes its only request leaves it. */
  function Taken(s: System, pid: nat, row: Row, ok: bool): System {
    s.(desk := Desk(true, s.desk.idleWaiters, []), procs := s.procs[pid := Closing(row, ok)],
       past := s.past.(answered := s.past.answered[row.id := Reply(ok, s.now)]))
  }

  /**
   * A Yes or No on an idle desk: in time it takes the request at once, at the last millisecond too; too late,
   * or without a request, it changes nothing. On a busy desk it waits, and is on the list of the next release.
   */
  lemma PressAnswers(actions: seq<Action>, pid: nat, ok: bool)
    requires Legal(actions) && pid !in After(actions).procs
    ensures var s := After(actions); var t := Do(s, Press(pid, ok));
            if s.desk.busy then
              t == s.(procs := s.procs[pid := Asleep(Answer(ok))],
                      desk := s.desk.(idleWaiters := s.desk.idleWaiters + [pid]))
            else if s.desk.rows != [] && s.now <= s.desk.rows[0].expiresAt then t == Taken(s, pid, s.desk.rows[0], ok)
            else t == s
  {
    OneRequest(actions);
    var s := After(actions);
    assert s.procs - {pid} == s.procs;
    if s.desk.rows != [] {
      assert s.desk.rows == [s.desk.rows[0]];
      PendingOfOne(s.desk.rows[0], s.now);
    } else {
      PendingOfOne(Row("", "", 0), s.now);
    }
  }

  /** An answer that was waiting and is awake does the same once the desk is idle. */
  lemma WokenAnswers(actions: seq<Action>, pid: nat, ok: bool)
    requires Legal(actions) && pid in After(actions).procs && After(actions).procs[pid] == Woken(Answer(ok))
    ensures var s := After(actions); var t := Do(s, Resume(pid));
            if s.desk.busy then
              t == s.(procs := s.procs[pid := Asleep(Answer(ok))],
                      desk := s.desk.(idleWaiters := s.desk.idleWaiters + [pid]))
            else if s.desk.rows != [] && s.now <= s.desk.rows[0].expiresAt then t == Taken(s, pid, s.desk.rows[0], ok)
            else t == s.(procs := s.procs - {pid})
  {
    OneRequest(actions);
    var s := After(actions);
    if s.desk.rows != [] {
      assert s.desk.rows == [s.desk.rows[0]];
      PendingOfOne(s.desk.rows[0], s.now);
    } else {
      PendingOfOne(Row("", "", 0), s.now);
    }
  }

  /** A Yes that took a request closes it as accepted and runs its call, for the first time; a No only closes it. */
  lemma AnswerCloses(actions: seq<Action>, pid: nat)
    requires Legal(actions) && pid in After(actions).procs && After(actions).procs[pid].Closing?
    ensures var s := After(actions); var p := s.procs[pid]; var t := Do(s, Closed(pid));
            && t.past.closed == s.past.closed + multiset{(p.row.id, if p.ok then Accepted else Declined)}
            && t.past.closed[(p.row.id, Accepted)] == (if p.ok then 1 else 0)
            && t.past.closed[(p.row.id, Declined)] == (if p.ok then 0 else 1)
            && t.past.ran[p.row] == (if p.ok then 1 else 0) && t.desk == s.desk
            && t.procs == s.procs[pid := if p.ok then Handling(p.row) else Speaking]
  {
    AlwaysInv(actions);
    var s := After(actions);
    var p := s.procs[pid];
    assert ProcessOk(s.past, s.desk.rows, p);
    assert RanOk(s.past, p.row);
  }

  /** From an idle desk with a request in time to its handler: a Yes, and the end of its wait. */
  lemma YesRunsTheCall(actions: seq<Action>, pid: nat)
    requires Legal(actions) && pid !in After(actions).procs && !After(actions).desk.busy
    requires After(actions).desk.rows != [] && After(actions).now <= After(actions).desk.rows[0].expiresAt
    ensures var s := After(actions); var row := s.desk.rows[0];
            var pressed := Do(s, Press(pid, true));
            && Enabled(pressed, Closed(pid))
            && var t := Do(pressed, Closed(pid));
               t.past.ran[row] == 1 && t.past.closed[(row.id, Accepted)] == 1 && t.procs[pid] == Handling(row)
  {
    PressAnswers(actions, pid, true);
    Extend(actions, Press(pid, true));
    AnswerCloses(actions + [Press(pid, true)], pid);
  }

  // ---------------------------------------------------------------- asking

  /** An unsafe call draws a request that expires 30 seconds later, and waits. */
  lemma AskDrawsRequest(s: System, pid: nat, id: string, call: string)
    requires Enabled(s, Ask(pid, id, call))
    ensures var t := Do(s, Ask(pid, id, call)); var row := Row(id, call, s.now + 30000);
            && t.past == s.past.(asked := s.past.asked[id := row]) && t.desk == s.desk
            && t.procs == s.procs[pid := if s.desk.rows == [] then Scheduling(row) else Clearing(row, s.desk.rows)]
  {
  }

  /** When the old request is told and gone, the new one is scheduled; then it is the one on the desk. */
  lemma RequestIsStored(actions: seq<Action>, pid: nat)
    requires Legal(actions) && pid in After(actions).procs
    ensures var s := After(actions); var p := s.procs[pid];
            && (p.Clearing? ==>
                  && Enabled(s, Cleared(pid))
                  && var t := Do(s, Cleared(pid));
                     && t.procs == s.procs[pid := Scheduling(p.row)] && t.desk == s.desk.(rows := [])
                     && t.past.closed == s.past.closed + multiset{(p.left[0].id, Expired)})
            && (p.Scheduling? ==>
                  && Enabled(s, Stored(pid))
                  && var t := Do(s, Stored(pid));
                     t.procs == s.procs[pid := Turn] && t.desk == s.desk.(rows := [p.row]) && t.past == s.past)
  {
    AlwaysInv(actions);
    var s := After(actions);
    assert ProcessOk(s.past, s.desk.rows, s.procs[pid]);
  }

  // ---------------------------------------------------------------- turns, reminders, ends

  /** A turn and a reminder take an idle desk; on a busy one the turn is refused and the reminder waits. */
  lemma TurnOrReminderTakesDesk(s: System, pid: nat)
    requires pid !in s.procs
    ensures Do(s, StartTurn(pid)) ==
            if s.desk.busy then s else s.(desk := s.desk.(busy := true), procs := s.procs[pid := Turn])
    ensures Do(s, FireReminder(pid)) ==
            if s.desk.busy then
              s.(desk := s.desk.(idleWaiters := s.desk.idleWaiters + [pid]), procs := s.procs[pid := Asleep(Remind)])
            else s.(desk := s.desk.(busy := true), procs := s.procs[pid := Speaking])
  {
  }

  /** The end of a process frees the desk, wakes everyone, and leaves the request as it is. */
  lemma FinishFreesDesk(actions: seq<Action>, pid: nat, p: nat)
    requires Legal(actions) && Enabled(After(actions), Finish(pid))
    ensures var s := After(actions); var t := Do(s, Finish(pid));
            && t.desk == Desk(false, [], s.desk.rows) && t.past == s.past
            && (p in t.procs <==> p in s.procs && p != pid)
            && (p in t.procs ==> t.procs[p].Woken? && s.procs[p] in {Asleep(t.procs[p].why), Woken(t.procs[p].why)})
  {
    AlwaysInv(actions);
    ReleaseKeepsLock(After(actions), pid);
  }

  /** The handler of an accepted call takes every request off the desk. */
  lemma HandlerForgetsRequests(s: System, pid: nat)
    requires Enabled(s, Handled(pid))
    ensures Do(s, Handled(pid)) == s.(desk := s.desk.(rows := []), procs := s.procs[pid := Speaking])
  {
  }

  /** An expiry takes its own request off the desk and tells so; for any other id it does nothing. */
  lemma ExpiryTakesRequest(actions: seq<Action>, id: string)
    requires Legal(actions)
    ensures var s := After(actions); var t := Do(s, Expire(id));
            if s.desk.rows != [] && s.desk.rows[0].id == id then
              && t.desk == s.desk.(rows := []) && t.procs == s.procs
              && t.past == s.past.(closed := s.past.closed + multiset{(id, Expired)})
              && t.past.closed[(id, Expired)] == 1
            else t == s
  {
    OneRequest(actions);
    var s := After(actions);
    if s.desk.rows != [] {
      assert s.desk.rows == [s.desk.rows[0]] && s.desk.rows[0] in s.desk.rows;
      PendingOfOne(s.desk.rows[0], s.now);
    }
  }

  /** A lost isolate takes every process with it; the request stays on the desk. */
  lemma LostIsolateKeepsRequest(s: System)
    ensures Do(s, LoseIsolate) == s.(desk := Desk(false, [], s.desk.rows), procs := map[])
  {
  }
}
