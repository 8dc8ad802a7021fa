/**
 * demos/apollo-desk/src/worker/apollo.ts: the busy lock of one desk, its sleeping waiters, and the Yes/No
 * request of an unsafe tool. Every action below is one synchronous block between two waits.
 */
module Desk {
  import opened Options

  /** A row of `pending_confirmations`; `call` is the tool with its stored arguments. */
  datatype Row = Row(id: string, call: string, expiresAt: int)

  const CONFIRM_TTL_MS := 30000

  datatype Desk = Desk(busy: bool, idleWaiters: seq<nat>, rows: seq<Row>)

  const IDLE := Desk(false, [], [])

  // ---------------------------------------------------------------- the table

  function Without(rows: seq<Row>, id: string): seq<Row> {
    if rows == [] then []
    else if rows[0].id == id then Without(rows[1..], id)
    else [rows[0]] + Without(rows[1..], id)
  }

  /** The row that expires last. */
  function Newest(rows: seq<Row>): Option<Row> {
    if rows == [] then None
    else
      match Newest(rows[1..])
      case None => Some(rows[0])
      case Some(r) => Some(if r.expiresAt > rows[0].expiresAt then r else rows[0])
  }

  /** The row that an answer at time `now` would take, if it is still in time. */
  function Pending(rows: seq<Row>, now: int): Option<Row> {
    match Newest(rows)
    case None => None
    case Some(r) => if r.expiresAt < now then None else Some(r)
  }

  predicate Has(rows: seq<Row>, id: string) {
    exists r | r in rows :: r.id == id
  }

  function Grabbed(d: Desk): Desk { d.(busy := true) }

  function Queued(d: Desk, pid: nat): Desk { d.(idleWaiters := d.idleWaiters + [pid]) }

  function Freed(d: Desk): Desk { Desk(false, [], d.rows) }

  function Answering(d: Desk, row: Row): Desk { Grabbed(d).(rows := Without(d.rows, row.id)) }

  class DeskActor {
    var busy: bool
    var idleWaiters: seq<nat>
    var rows: seq<Row>

    function View(): Desk reads this { Desk(busy, idleWaiters, rows) }

    constructor ()
      ensures View() == IDLE
    {
      busy, idleWaiters, rows := false, [], [];
    }

    /** Frees the desk and wakes everyone who waited for that. */
    method Release() returns (woken: seq<nat>)
      modifies this
      ensures View() == Freed(old(View())) && woken == old(idleWaiters)
    {
      busy := false;
      woken := idleWaiters;
      idleWaiters := [];
    }

    method WhenIdle(pid: nat) returns (sleeps: bool)
      modifies this
      ensures sleeps == old(busy)
      ensures View() == if sleeps then Queued(old(View()), pid) else old(View())
    {
      if busy { idleWaiters := idleWaiters + [pid]; }
      sleeps := busy;
    }

    /** The first lines of a text or voice turn. */
    method StartTurn() returns (ok: bool)
      modifies this
      ensures ok == !old(busy) && View() == Grabbed(old(View()))
    {
      ok := !busy;
      if busy { return; }
      busy := true;
    }

    /** `#confirm` from the end of its wait to the deletion of the row. */
    method TakeAnswer(now: int) returns (taken: Option<Row>)
      modifies this
      ensures taken == if old(busy) then None else Pending(old(rows), now)
      ensures View() == if taken.None? then old(View()) else Answering(old(View()), taken.value)
    {
      taken := Newest(rows);
      if taken.None? || taken.value.expiresAt < now || busy { return None; }
      busy := true;
      rows := Without(rows, taken.value.id);
    }

    method ExpireConfirm(id: string) returns (deleted: bool)
      modifies this`rows
      ensures deleted == Has(old(rows), id) && rows == Without(old(rows), id)
    {
      WithoutShrinks(rows, id);
      deleted := |Without(rows, id)| < |rows|;
      rows := Without(rows, id);
    }
  }

  lemma {:induction false} WithoutShrinks(rows: seq<Row>, id: string)
    ensures |Without(rows, id)| <= |rows|
    ensures |Without(rows, id)| < |rows| <==> Has(rows, id)
    ensures !Has(rows, id) ==> Without(rows, id) == rows
    ensures forall r :: r in Without(rows, id) <==> r in rows && r.id != id
  {
    if rows != [] {
      WithoutShrinks(rows[1..], id);
      assert forall r :: r in rows <==> r == rows[0] || r in rows[1..];
    }
  }

  // ---------------------------------------------------------------- the desk with everything that runs on it

  /** Why a process waits for the desk. */
  datatype Why = Answer(ok: bool) | Remind

  datatype Process =
    | Asleep(why: Why)
    | Woken(why: Why)
    | Turn                                   // a turn that waits for a model, a safe tool or its own speech
    | Clearing(row: Row, left: seq<Row>)     // an unsafe tool that cancels the schedules of the rows in `left`
    | Scheduling(row: Row)                   // an unsafe tool that schedules the expiry of its request
    | Closing(row: Row, ok: bool)            // an answer that cancels the schedule of its request
    | Handling(row: Row)                     // an accepted answer whose handler is under way
    | Speaking                               // an answer or a reminder that speaks

  predicate Holds(p: Process) {
    !p.Asleep? && !p.Woken?
  }

  predicate InTurn(p: Process) {
    p.Turn? || p.Clearing? || p.Scheduling?
  }

  datatype Reason = Accepted | Declined | Expired

  datatype Reply = Reply(ok: bool, at: int)

  /**
   * `asked`: every request so far, by id; `answered`: the request that an answer took, with the time;
   * `closed`: the close messages sent; `ran`: the handler runs.
   */
  datatype History = History(asked: map<string, Row>, answered: map<string, Reply>,
                             closed: multiset<(string, Reason)>, ran: multiset<Row>)

  datatype System = System(desk: Desk, procs: map<nat, Process>, now: int, past: History)

  const START := System(IDLE, map[], 0, History(map[], map[], multiset{}, multiset{}))

  datatype Action =
    | StartTurn(pid: nat) | Press(pid: nat, ok: bool) | FireReminder(pid: nat) | Resume(pid: nat)
    | Ask(pid: nat, id: string, call: string) | Cleared(pid: nat) | Stored(pid: nat)
    | Closed(pid: nat) | Handled(pid: nat) | Finish(pid: nat)
    | Expire(id: string) | Tick(later: int) | LoseIsolate

  predicate Enabled(s: System, a: Action) {
    match a
    case StartTurn(pid) => pid !in s.procs
    case Press(pid, _) => pid !in s.procs
    case FireReminder(pid) => pid !in s.procs
    case Resume(pid) => pid in s.procs && s.procs[pid].Woken?
    case Ask(pid, id, _) => pid in s.procs && s.procs[pid].Turn? && id !in s.past.asked
    case Cleared(pid) => pid in s.procs && s.procs[pid].Clearing? && s.procs[pid].left != []
    case Stored(pid) => pid in s.procs && s.procs[pid].Scheduling?
    case Closed(pid) => pid in s.procs && s.procs[pid].Closing?
    case Handled(pid) => pid in s.procs && s.procs[pid].Handling?
    case Finish(pid) => pid in s.procs && Holds(s.procs[pid])
    case Expire(_) => true
    case Tick(later) => later >= s.now
    case LoseIsolate => true
  }

  function Move(s: System, pid: nat, p: Process): System {
    s.(procs := s.procs[pid := p])
  }

  function Hold(s: System, pid: nat, p: Process): System {
    Move(s, pid, p).(desk := Grabbed(s.desk))
  }

  /** `#whenIdle` of a process that found the desk busy. */
  function Sleep(s: System, pid: nat, why: Why): System {
    Move(s, pid, Asleep(why)).(desk := Queued(s.desk, pid))
  }

  function WakeAll(procs: map<nat, Process>, waiters: seq<nat>): map<nat, Process> {
    map p | p in procs :: if p in waiters && procs[p].Asleep? then Woken(procs[p].why) else procs[p]
  }

  /** `#release` at the end of process `pid`. */
  function Release(s: System, pid: nat): System {
    s.(desk := Freed(s.desk), procs := WakeAll(s.procs - {pid}, s.desk.idleWaiters))
  }

  /** What a process does once it found the desk idle. */
  function Enter(s: System, pid: nat, why: Why): System {
    match why
    case Remind => Hold(s, pid, Speaking)
    case Answer(ok) =>
      match Pending(s.desk.rows, s.now)
      case None => s.(procs := s.procs - {pid})
      case Some(row) =>
        Hold(s, pid, Closing(row, ok)).(desk := Answering(s.desk, row),
                                        past := s.past.(answered := s.past.answered[row.id := Reply(ok, s.now)]))
  }

  function WaitOrEnter(s: System, pid: nat, why: Why): System {
    if s.desk.busy then Sleep(s, pid, why) else Enter(s, pid, why)
  }

  function Close(s: System, id: string, reason: Reason): System {
    s.(past := s.past.(closed := s.past.closed + multiset{(id, reason)}))
  }

  function Do(s: System, a: Action): System
    requires Enabled(s, a)
  {
    match a
    case StartTurn(pid) => if s.desk.busy then s else Hold(s, pid, Turn)
    case Press(pid, ok) => WaitOrEnter(s, pid, Answer(ok))
    case FireReminder(pid) => WaitOrEnter(s, pid, Remind)
    case Resume(pid) => WaitOrEnter(s, pid, s.procs[pid].why)
    case Ask(pid, id, call) =>
      var row := Row(id, call, s.now + CONFIRM_TTL_MS);
      var next := if s.desk.rows == [] then Scheduling(row) else Clearing(row, s.desk.rows);
      Move(s, pid, next).(past := s.past.(asked := s.past.asked[id := row]))
    case Cleared(pid) =>
      var p := s.procs[pid];
      var told := Close(s, p.left[0].id, Expired);
      if |p.left| > 1 then Move(told, pid, Clearing(p.row, p.left[1..]))
      else Move(told, pid, Scheduling(p.row)).(desk := s.desk.(rows := []))
    case Stored(pid) => Move(s, pid, Turn).(desk := s.desk.(rows := s.desk.rows + [s.procs[pid].row]))
    case Closed(pid) =>
      var p := s.procs[pid];
      var told := Close(s, p.row.id, if p.ok then Accepted else Declined);
      if p.ok then Move(told, pid, Handling(p.row)).(past := told.past.(ran := s.past.ran + multiset{p.row}))
      else Move(told, pid, Speaking)
    case Handled(pid) => Move(s, pid, Speaking).(desk := s.desk.(rows := []))
    case Finish(pid) => Release(s, pid)
    case Expire(id) =>
      if Has(s.desk.rows, id) then Close(s, id, Expired).(desk := s.desk.(rows := Without(s.desk.rows, id))) else s
    case Tick(later) => s.(now := later)
    case LoseIsolate => s.(desk := Freed(s.desk), procs := map[])
  }

  ghost predicate Legal(actions: seq<Action>)
    decreases |actions|, 0
  {
    actions == [] ||
    (Legal(actions[..|actions| - 1]) && Enabled(After(actions[..|actions| - 1]), actions[|actions| - 1]))
  }

  ghost function After(actions: seq<Action>): System
    requires Legal(actions)
    decreases |actions|, 1
  {
    if actions == [] then START else Do(After(actions[..|actions| - 1]), actions[|actions| - 1])
  }

  // ---------------------------------------------------------------- the invariant of the lock

  ghost predicate Someone(procs: map<nat, Process>) {
    exists p :: p in procs && Holds(procs[p])
  }

  ghost predicate LockInv(s: System) {
    && (forall p, q | p in s.procs && q in s.procs && Holds(s.procs[p]) && Holds(s.procs[q]) :: p == q)
    && (s.desk.busy <==> Someone(s.procs))
    && (forall p :: p in s.desk.idleWaiters <==> p in s.procs && s.procs[p].Asleep?)
    && (!s.desk.busy ==> s.desk.idleWaiters == [])
  }

  lemma HoldKeepsLock(s: System, pid: nat, p: Process)
    requires LockInv(s) && !s.desk.busy && Holds(p) && (pid in s.procs ==> !s.procs[pid].Asleep?)
    ensures LockInv(Hold(s, pid, p))
  {
    var t := Hold(s, pid, p);
    assert pid in t.procs && Holds(t.procs[pid]);
    assert forall q | q in t.procs && q != pid :: q in s.procs && t.procs[q] == s.procs[q];
  }

  lemma MoveKeepsLock(s: System, pid: nat, p: Process)
    requires LockInv(s) && pid in s.procs && Holds(s.procs[pid]) && Holds(p)
    ensures LockInv(Move(s, pid, p))
  {
    var t := Move(s, pid, p);
    assert pid in t.procs && Holds(t.procs[pid]);
    assert forall q | q in t.procs && q != pid :: q in s.procs && t.procs[q] == s.procs[q];
  }

  lemma SleepKeepsLock(s: System, pid: nat, why: Why)
    requires LockInv(s) && s.desk.busy && (pid in s.procs ==> s.procs[pid].Woken?)
    ensures LockInv(Sleep(s, pid, why))
  {
    var t := Sleep(s, pid, why);
    var h :| h in s.procs && Holds(s.procs[h]);
    assert h in t.procs && Holds(t.procs[h]);
    assert forall q | q in t.procs && Holds(t.procs[q]) :: q in s.procs && Holds(s.procs[q]);
    assert forall q :: q in t.desk.idleWaiters <==> q in s.desk.idleWaiters || q == pid;
  }

  lemma ReleaseKeepsLock(s: System, pid: nat)
    requires LockInv(s) && pid in s.procs && Holds(s.procs[pid])
    ensures LockInv(Release(s, pid)) && forall p | p in Release(s, pid).procs :: !Holds(Release(s, pid).procs[p])
  {
    var t := Release(s, pid);
    assert forall q | q in t.procs :: q in s.procs && q != pid;
  }

  lemma LeaveKeepsLock(s: System, pid: nat)
    requires LockInv(s) && !s.desk.busy && (pid in s.procs ==> s.procs[pid].Woken?)
    ensures LockInv(s.(procs := s.procs - {pid}))
  {
    var t := s.(procs := s.procs - {pid});
    assert forall q | q in t.procs && Holds(t.procs[q]) :: q in s.procs && Holds(s.procs[q]);
    assert forall q :: q !in s.desk.idleWaiters;
  }

  // ---------------------------------------------------------------- the invariant of the requests

  predicate Unclosed(h: History, id: string) {
    h.closed[(id, Accepted)] == 0 && h.closed[(id, Declined)] == 0 && h.closed[(id, Expired)] == 0
  }

  predicate Asked(h: History, row: Row) {
    row.id in h.asked && h.asked[row.id] == row
  }

  /** A request that nobody answered or closed yet. */
  predicate Open(h: History, row: Row) {
    Asked(h, row) && row.id !in h.answered && Unclosed(h, row.id)
  }

  predicate ProcessOk(h: History, rows: seq<Row>, p: Process) {
    match p
    case Clearing(row, left) =>
      && Open(h, row) && !Has(rows, row.id)
      && |left| == 1 && left[0].id != row.id && left[0].id in h.asked && left[0].id !in h.answered
      && h.closed[(left[0].id, Expired)] == if Has(rows, left[0].id) then 0 else 1
    case Scheduling(row) => Open(h, row) && rows == []
    case Closing(row, ok) => Asked(h, row) && row.id in h.answered && h.answered[row.id].ok == ok && Unclosed(h, row.id)
    case _ => true
  }

  /** What holds of one request id. */
  predicate IdOk(h: History, id: string) {
    && (id in h.answered ==>
          && id in h.asked && h.answered[id].at <= h.asked[id].expiresAt && h.closed[(id, Expired)] == 0
          && h.closed[(id, if h.answered[id].ok then Accepted else Declined)] <= 1
          && h.closed[(id, if h.answered[id].ok then Declined else Accepted)] == 0)
    && (id !in h.answered ==> h.closed[(id, Accepted)] == 0 && h.closed[(id, Declined)] == 0)
    && (id !in h.asked ==> h.closed[(id, Expired)] == 0)
    && h.closed[(id, Expired)] <= 2
  }

  /** A request runs as often as its acceptance was announced; nothing else runs. */
  predicate RanOk(h: History, row: Row) {
    h.ran[row] == if Asked(h, row) then h.closed[(row.id, Accepted)] else 0
  }

  ghost predicate HistoryInv(h: History) {
    (forall id :: IdOk(h, id)) && (forall row :: RanOk(h, row))
  }

  ghost predicate RequestInv(s: System) {
    && |s.desk.rows| <= 1
    && (forall r | r in s.desk.rows :: Open(s.past, r))
    && (forall p | p in s.procs :: ProcessOk(s.past, s.desk.rows, s.procs[p]))
    && HistoryInv(s.past)
  }

  /** The processes that do not hold the desk do not matter to the requests. */
  lemma OnlyHolder(s: System, t: System, pid: nat)
    requires LockInv(s) && RequestInv(s) && LockInv(t)
    requires pid in t.procs && Holds(t.procs[pid]) && ProcessOk(t.past, t.desk.rows, t.procs[pid])
    ensures forall p | p in t.procs :: ProcessOk(t.past, t.desk.rows, t.procs[p])
  {
    forall p | p in t.procs ensures ProcessOk(t.past, t.desk.rows, t.procs[p]) {
      if Holds(t.procs[p]) { assert p == pid; }
    }
  }

  lemma NoHolder(t: System)
    requires forall p | p in t.procs :: !Holds(t.procs[p])
    ensures forall p | p in t.procs :: ProcessOk(t.past, t.desk.rows, t.procs[p])
  {
  }

  ghost predicate Inv(s: System) {
    LockInv(s) && RequestInv(s)
  }

  // ---------------------------------------------------------------- every action keeps it

  lemma PendingIsRow(s: System)
    requires RequestInv(s)
    ensures match Pending(s.desk.rows, s.now)
            case None => true
            case Some(row) =>
              && s.desk.rows == [row] && s.now <= row.expiresAt
              && Open(s.past, row) && Without(s.desk.rows, row.id) == []
  {
    var rows := s.desk.rows;
    if rows != [] {
      assert rows == [rows[0]] && rows[0] in rows && rows[1..] == [];
      assert Newest(rows[1..]).None? && Newest(rows) == Some(rows[0]);
      assert Without(rows[1..], rows[0].id) == [] && Without(rows, rows[0].id) == [];
    }
  }

  lemma LockSame(s: System, t: System)
    requires LockInv(s) && t.procs == s.procs && t.desk.busy == s.desk.busy && t.desk.idleWaiters == s.desk.idleWaiters
    ensures LockInv(t)
  {
  }

  /** An answer takes the only row. */
  lemma AnswerKeeps(s: System, pid: nat, ok: bool)
    requires Inv(s) && !s.desk.busy && (pid in s.procs ==> s.procs[pid].Woken?) && Pending(s.desk.rows, s.now).Some?
    ensures Inv(Enter(s, pid, Answer(ok)))
  {
    hide LockInv, Pending, Without, ProcessOk, HistoryInv;
    PendingIsRow(s);
    var row := Pending(s.desk.rows, s.now).value;
    var t := Enter(s, pid, Answer(ok));
    HoldKeepsLock(s, pid, Closing(row, ok));
    LockSame(Hold(s, pid, Closing(row, ok)), t);
    AnsweredHistory(s.past, row, ok, s.now);
    OnlyHolder(s, t, pid);
  }

  lemma AnsweredHistory(h: History, row: Row, ok: bool, now: int)
    requires HistoryInv(h) && Open(h, row) && now <= row.expiresAt
    ensures var g := h.(answered := h.answered[row.id := Reply(ok, now)]);
            HistoryInv(g) && ProcessOk(g, [], Closing(row, ok))
  {
    var g := h.(answered := h.answered[row.id := Reply(ok, now)]);
    forall id ensures IdOk(g, id) { assert IdOk(h, id); }
    forall r ensures RanOk(g, r) { assert RanOk(h, r); }
  }

  lemma AskedHistory(h: History, row: Row)
    requires HistoryInv(h) && row.id !in h.asked
    ensures var g := h.(asked := h.asked[row.id := row]);
            HistoryInv(g) && Open(g, row) && forall r | Open(h, r) :: Open(g, r) && r.id != row.id
  {
    var g := h.(asked := h.asked[row.id := row]);
    assert IdOk(h, row.id);
    forall id ensures IdOk(g, id) { assert IdOk(h, id); }
    forall r ensures RanOk(g, r) { assert RanOk(h, r); }
  }

  lemma ExpiredHistory(h: History, id: string)
    requires HistoryInv(h) && id in h.asked && id !in h.answered && h.closed[(id, Expired)] <= 1
    ensures var g := h.(closed := h.closed + multiset{(id, Expired)});
            HistoryInv(g) && forall r | Open(h, r) && r.id != id :: Open(g, r)
  {
    var g := h.(closed := h.closed + multiset{(id, Expired)});
    forall x ensures IdOk(g, x) { assert IdOk(h, x); }
    forall r ensures RanOk(g, r) { assert RanOk(h, r); }
  }

  /** The close message of an answer, together with the run of its handler if it was a Yes. */
  lemma ClosedHistory(h: History, row: Row, ok: bool)
    requires HistoryInv(h) && ProcessOk(h, [], Closing(row, ok))
    ensures var g := h.(closed := h.closed + multiset{(row.id, if ok then Accepted else Declined)},
                        ran := if ok then h.ran + multiset{row} else h.ran);
            HistoryInv(g) && forall r | Open(h, r) :: Open(g, r)
  {
    var g := h.(closed := h.closed + multiset{(row.id, if ok then Accepted else Declined)},
                ran := if ok then h.ran + multiset{row} else h.ran);
    forall x ensures IdOk(g, x) { assert IdOk(h, x); }
    forall r ensures RanOk(g, r) { assert RanOk(h, r); }
  }

  lemma EnterKeeps(s: System, pid: nat, why: Why)
    requires Inv(s) && !s.desk.busy && (pid in s.procs ==> s.procs[pid].Woken?)
    ensures Inv(Enter(s, pid, why))
  {
    hide LockInv, Pending, Without, HistoryInv, Open;
    if why.Remind? {
      HoldKeepsLock(s, pid, Speaking);
    } else if Pending(s.desk.rows, s.now).Some? {
      AnswerKeeps(s, pid, why.ok);
    } else {
      LeaveKeepsLock(s, pid);
      assert Enter(s, pid, why) == s.(procs := s.procs - {pid});
    }
  }

  lemma WaitOrEnterKeeps(s: System, pid: nat, why: Why)
    requires Inv(s) && (pid in s.procs ==> s.procs[pid].Woken?)
    ensures Inv(WaitOrEnter(s, pid, why))
  {
    hide LockInv, HistoryInv, Open, Pending;
    if s.desk.busy { SleepKeepsLock(s, pid, why); } else { EnterKeeps(s, pid, why); }
  }

  lemma OpenIs(h: History)
    ensures forall r | Open(h, r) :: r.id in h.asked && r.id !in h.answered && h.closed[(r.id, Expired)] == 0
  {
  }

  lemma AskKeeps(s: System, pid: nat, id: string, call: string)
    requires Inv(s) && Enabled(s, Ask(pid, id, call))
    ensures Inv(Do(s, Ask(pid, id, call)))
  {
    hide LockInv, HistoryInv, Unclosed, Open;
    var t := Do(s, Ask(pid, id, call));
    var p := t.procs[pid];
    MoveKeepsLock(s, pid, p);
    LockSame(Move(s, pid, p), t);
    AskedHistory(s.past, p.row);
    OpenIs(t.past);
    if s.desk.rows != [] { assert s.desk.rows == [s.desk.rows[0]] && s.desk.rows[0] in s.desk.rows; }
    OnlyHolder(s, t, pid);
  }

  lemma ClearedKeeps(s: System, pid: nat)
    requires Inv(s) && Enabled(s, Cleared(pid))
    ensures Inv(Do(s, Cleared(pid)))
  {
    hide LockInv, HistoryInv;
    var t, p := Do(s, Cleared(pid)), s.procs[pid];
    assert ProcessOk(s.past, s.desk.rows, p);
    ExpiredHistory(s.past, p.left[0].id);
    MoveKeepsLock(s, pid, Scheduling(p.row));
    LockSame(Move(s, pid, Scheduling(p.row)), t);
    OnlyHolder(s, t, pid);
  }

  lemma StoredKeeps(s: System, pid: nat)
    requires Inv(s) && Enabled(s, Stored(pid))
    ensures Inv(Do(s, Stored(pid)))
  {
    hide LockInv, HistoryInv, Open;
    var t := Do(s, Stored(pid));
    assert ProcessOk(s.past, s.desk.rows, s.procs[pid]);
    MoveKeepsLock(s, pid, Turn);
    LockSame(Move(s, pid, Turn), t);
    OnlyHolder(s, t, pid);
  }

  lemma ClosedKeeps(s: System, pid: nat)
    requires Inv(s) && Enabled(s, Closed(pid))
    ensures Inv(Do(s, Closed(pid)))
  {
    hide LockInv, HistoryInv, Open;
    var t, p := Do(s, Closed(pid)), s.procs[pid];
    assert ProcessOk(s.past, s.desk.rows, p);
    ClosedHistory(s.past, p.row, p.ok);
    MoveKeepsLock(s, pid, t.procs[pid]);
    LockSame(Move(s, pid, t.procs[pid]), t);
    OnlyHolder(s, t, pid);
  }

  lemma HandledKeeps(s: System, pid: nat)
    requires Inv(s) && Enabled(s, Handled(pid))
    ensures Inv(Do(s, Handled(pid)))
  {
    hide LockInv, HistoryInv, Open;
    var t := Do(s, Handled(pid));
    MoveKeepsLock(s, pid, Speaking);
    LockSame(Move(s, pid, Speaking), t);
    OnlyHolder(s, t, pid);
  }

  lemma FinishKeeps(s: System, pid: nat)
    requires Inv(s) && Enabled(s, Finish(pid))
    ensures Inv(Do(s, Finish(pid)))
  {
    hide LockInv, HistoryInv;
    ReleaseKeepsLock(s, pid);
    NoHolder(Do(s, Finish(pid)));
  }

  lemma ExpireKeeps(s: System, id: string)
    requires Inv(s)
    ensures Inv(Do(s, Expire(id)))
  {
    hide LockInv, HistoryInv;
    var t := Do(s, Expire(id));
    if Has(s.desk.rows, id) {
      WithoutShrinks(s.desk.rows, id);
      LockSame(s, t);
      assert s.desk.rows == [s.desk.rows[0]] && s.desk.rows[0] in s.desk.rows && s.desk.rows[0].id == id
          && t.desk.rows == [];
      ExpiredHistory(s.past, id);
      forall p | p in t.procs ensures ProcessOk(t.past, t.desk.rows, t.procs[p]) {
        assert ProcessOk(s.past, s.desk.rows, s.procs[p]);
      }
    }
  }

  lemma DoKeepsInv(s: System, a: Action)
    requires Inv(s) && Enabled(s, a)
    ensures Inv(Do(s, a))
  {
    hide LockInv, RequestInv;
    match a
    case StartTurn(pid) => StartKeeps(s, pid);
    case Press(pid, ok) => WaitOrEnterKeeps(s, pid, Answer(ok));
    case FireReminder(pid) => WaitOrEnterKeeps(s, pid, Remind);
    case Resume(pid) => WaitOrEnterKeeps(s, pid, s.procs[pid].why);
    case Ask(pid, id, call) => AskKeeps(s, pid, id, call);
    case Cleared(pid) => ClearedKeeps(s, pid);
    case Stored(pid) => StoredKeeps(s, pid);
    case Closed(pid) => ClosedKeeps(s, pid);
    case Handled(pid) => HandledKeeps(s, pid);
    case Finish(pid) => FinishKeeps(s, pid);
    case Expire(id) => ExpireKeeps(s, id);
    case _ => OtherKeeps(s, a);
  }

  lemma StartKeeps(s: System, pid: nat)
    requires Inv(s) && Enabled(s, StartTurn(pid))
    ensures Inv(Do(s, StartTurn(pid)))
  {
    hide LockInv;
    if !s.desk.busy { HoldKeepsLock(s, pid, Turn); }
  }

  lemma OtherKeeps(s: System, a: Action)
    requires Inv(s) && Enabled(s, a) && (a.Tick? || a.LoseIsolate?)
    ensures Inv(Do(s, a))
  {
    if a.LoseIsolate? {
      NoHolder(Do(s, a));
    } else {
      LockSame(s, Do(s, a));
    }
  }

  lemma {:induction false} AlwaysInv(actions: seq<Action>)
    requires Legal(actions)
    ensures Inv(After(actions))
  {
    hide LockInv, RequestInv, Do;
    if actions == [] {
      StartInv();
    } else {
      AlwaysInv(actions[..|actions| - 1]);
      DoKeepsInv(After(actions[..|actions| - 1]), actions[|actions| - 1]);
    }
  }

  lemma StartInv()
    ensures Inv(START)
  {
  }

  // ---------------------------------------------------------------- the theorems

  /**
   * In every interleaving, turns, answers and reminders never hold the desk together: it is busy exactly
   * while one process holds it. A process sleeps only while the desk is busy, and it is on the list that
   * the next release wakes, so no waiter is left asleep.
   */
  lemma LockIsExclusive(actions: seq<Action>, p: nat, q: nat)
    requires Legal(actions)
    ensures var s := After(actions);
            && (p in s.procs && q in s.procs && Holds(s.procs[p]) && Holds(s.procs[q]) ==> p == q)
            && (s.desk.busy <==> Someone(s.procs))
            && (p in s.procs && s.procs[p].Asleep? ==> s.desk.busy && p in s.desk.idleWaiters)
  {
    AlwaysInv(actions);
  }

  /** After a release everyone is awake. */
  lemma ReleaseWakesAll(actions: seq<Action>, pid: nat, p: nat)
    requires Legal(actions) && Enabled(After(actions), Finish(pid))
    ensures var t := Do(After(actions), Finish(pid)); p in t.procs ==> t.procs[p].Woken?
  {
    AlwaysInv(actions);
    ReleaseKeepsLock(After(actions), pid);
  }

  /** There is at most one request on the desk, and it is still unanswered and open. */
  lemma OneRequest(actions: seq<Action>)
    requires Legal(actions)
    ensures var s := After(actions); |s.desk.rows| <= 1 && forall r | r in s.desk.rows :: Open(s.past, r)
  {
    AlwaysInv(actions);
  }

  /**
   * What ran is a request exactly as it was stored, it ran once, and it was taken by a Yes no later than
   * its expiry. A No never runs anything.
   */
  lemma HandlerRunsOnce(actions: seq<Action>, row: Row)
    requires Legal(actions)
    ensures var h := After(actions).past;
            && h.ran[row] <= 1
            && (row in h.ran ==> && Asked(h, row) && row.id in h.answered && h.answered[row.id].ok
                                 && h.answered[row.id].at <= row.expiresAt && h.closed[(row.id, Accepted)] == 1)
  {
    AlwaysInv(actions);
    var h := After(actions).past;
    assert RanOk(h, row) && IdOk(h, row.id);
  }

  /** No request closes both as accepted and as expired, nor as accepted and declined. */
  lemma ClosesOneWay(actions: seq<Action>, id: string)
    requires Legal(actions)
    ensures var h := After(actions).past;
            && h.closed[(id, Accepted)] + h.closed[(id, Declined)] <= 1
            && (h.closed[(id, Accepted)] + h.closed[(id, Declined)] > 0 ==> h.closed[(id, Expired)] == 0)
            && h.closed[(id, Expired)] <= 2
  {
    AlwaysInv(actions);
    assert IdOk(After(actions).past, id);
  }

  /** While a handler or the answer before it is under way, no turn is, so not the one that asked either. */
  lemma HandlerOutsideTurns(actions: seq<Action>, p: nat, q: nat)
    requires Legal(actions) && p in After(actions).procs && q in After(actions).procs
    requires After(actions).procs[p].Closing? || After(actions).procs[p].Handling?
    ensures !InTurn(After(actions).procs[q])
  {
    AlwaysInv(actions);
  }

  // ---------------------------------------------------------------- how often an expiry is told

  /** `Cleared(pid)` tells the expiry of `id`, and an expiry callback took the row while it waited. */
  predicate TellsAgain(s: System, a: Action, id: string)
    requires Enabled(s, a)
  {
    a.Cleared? && s.procs[a.pid].left[0].id == id && !Has(s.desk.rows, id)
  }

  ghost predicate ToldAgain(actions: seq<Action>, id: string)
    requires Legal(actions)
  {
    actions != [] &&
    var front, a := actions[..|actions| - 1], actions[|actions| - 1];
    ToldAgain(front, id) || TellsAgain(After(front), a, id)
  }

  /** An unsafe tool that replaces a request tells its expiry for the first time exactly when the row is still there. */
  lemma ClearingTells(s: System, pid: nat)
    requires Inv(s) && Enabled(s, Cleared(pid))
    ensures var id := s.procs[pid].left[0].id;
            Do(s, Cleared(pid)).past.closed[(id, Expired)] == if Has(s.desk.rows, id) then 1 else 2
  {
    hide LockInv, HistoryInv;
    assert ProcessOk(s.past, s.desk.rows, s.procs[pid]);
  }

  lemma ExpiryCount(s: System, a: Action, id: string)
    requires Inv(s) && Enabled(s, a)
    ensures Do(s, a).past.closed[(id, Expired)] == 2 <==> s.past.closed[(id, Expired)] == 2 || TellsAgain(s, a, id)
  {
    hide LockInv, HistoryInv, Pending, Without;
    if a.Cleared? {
      ClearingTells(s, a.pid);
      assert ProcessOk(s.past, s.desk.rows, s.procs[a.pid]);
    } else if a.Expire? && Has(s.desk.rows, a.id) {
      assert exists r | r in s.desk.rows :: r.id == a.id && Open(s.past, r);
    }
  }

  /**
   * The expiry of a request is told twice exactly when some unsafe tool, back from cancelling the schedule
   * of that request, found its row already gone.
   */
  lemma {:induction false} ToldTwiceIff(actions: seq<Action>, id: string)
    requires Legal(actions)
    ensures After(actions).past.closed[(id, Expired)] == 2 <==> ToldAgain(actions, id)
  {
    hide Inv, Do, TellsAgain;
    if actions == [] {
      NothingTold(id);
    } else {
      var front, a := actions[..|actions| - 1], actions[|actions| - 1];
      ToldTwiceIff(front, id);
      AlwaysInv(front);
      ExpiryCount(After(front), a, id);
    }
  }

  lemma NothingTold(id: string)
    ensures START.past.closed[(id, Expired)] == 0
  {
  }

  /** An expiry callback that runs while an unsafe tool cancels the schedule of its request. */
  predicate Overtakes(s: System, a: Action) {
    a.Expire? && exists p | p in s.procs ::
      s.procs[p].Clearing? && s.procs[p].left != [] && s.procs[p].left[0].id == a.id
  }

  /** No callback is let in while the cancellation of its own schedule is awaited. */
  ghost predicate NoneOvertakes(actions: seq<Action>)
    requires Legal(actions)
  {
    actions == [] ||
    var front, a := actions[..|actions| - 1], actions[|actions| - 1];
    NoneOvertakes(front) && !Overtakes(After(front), a)
  }

  ghost predicate RowsWait(s: System) {
    forall p | p in s.procs && s.procs[p].Clearing? :: s.procs[p].left != [] && Has(s.desk.rows, s.procs[p].left[0].id)
  }

  lemma RowsKeepWaiting(s: System, a: Action)
    requires Inv(s) && RowsWait(s) && Enabled(s, a) && !Overtakes(s, a)
    ensures RowsWait(Do(s, a))
  {
    hide HistoryInv, Pending, Without, Open;
    if a.Expire? {
      WithoutShrinks(s.desk.rows, a.id);
    } else if a.Cleared? {
      assert ProcessOk(s.past, s.desk.rows, s.procs[a.pid]);
    }
  }

  lemma {:induction false} RowsAlwaysWait(actions: seq<Action>)
    requires Legal(actions) && NoneOvertakes(actions)
    ensures RowsWait(After(actions))
  {
    hide Inv, Do, RowsWait, Overtakes;
    if actions == [] {
      NobodyClears();
    } else {
      var front, a := actions[..|actions| - 1], actions[|actions| - 1];
      RowsAlwaysWait(front);
      AlwaysInv(front);
      RowsKeepWaiting(After(front), a);
    }
  }

  lemma NobodyClears()
    ensures RowsWait(START)
  {
  }

  /**
   * If the library lets no callback in while `cancelSchedule` is awaited, every request is closed at most
   * once, whatever the reason.
   */
  lemma {:induction false} ClosesOnce(actions: seq<Action>, id: string)
    requires Legal(actions) && NoneOvertakes(actions)
    ensures var h := After(actions).past;
            h.closed[(id, Accepted)] + h.closed[(id, Declined)] + h.closed[(id, Expired)] <= 1
  {
    NeverToldAgain(actions, id);
    ToldTwiceIff(actions, id);
    ClosesOneWay(actions, id);
  }

  lemma {:induction false} NeverToldAgain(actions: seq<Action>, id: string)
    requires Legal(actions) && NoneOvertakes(actions)
    ensures !ToldAgain(actions, id)
  {
    hide Do, Overtakes;
    if actions != [] {
      var front := actions[..|actions| - 1];
      NeverToldAgain(front, id);
      RowsAlwaysWait(front);
    }
  }

  lemma Extend(actions: seq<Action>, a: Action)
    requires Legal(actions) && Enabled(After(actions), a)
    ensures Legal(actions + [a]) && After(actions + [a]) == Do(After(actions), a)
  {
    assert (actions + [a])[..|actions|] == actions;
  }

  lemma AskedOnce() returns (actions: seq<Action>)
    ensures Legal(actions)
    ensures var r := Row("a", "forget", CONFIRM_TTL_MS);
            After(actions) == System(Desk(true, [], [r]), map[0 := Turn], 0,
              History(map["a" := r], map[], multiset{}, multiset{}))
  {
    hide After, Legal;
    EmptyRun();
    Extend([], StartTurn(0));
    Extend([StartTurn(0)], Ask(0, "a", "forget"));
    actions := [StartTurn(0)] + [Ask(0, "a", "forget")];
    assert After(actions).procs[0] == Scheduling(Row("a", "forget", CONFIRM_TTL_MS));
    Extend(actions, Stored(0));
    actions := actions + [Stored(0)];
    assert After(actions).procs == map[0 := Turn];
  }

  lemma EmptyRun()
    ensures Legal([]) && After([]) == START
  {
  }

  /** Such a run: the callback of request `a` runs while request `b` waits for `a`'s schedule to be cancelled. */
  lemma ExpiredTwice() returns (actions: seq<Action>)
    ensures Legal(actions) && After(actions).past.closed[("a", Expired)] == 2
  {
    hide After, Legal;
    actions := AskedOnce();
    var r, ask := Row("a", "forget", CONFIRM_TTL_MS), Ask(0, "b", "forget");
    Extend(actions, ask);
    actions := actions + [ask];
    assert After(actions).procs[0] == Clearing(Row("b", "forget", CONFIRM_TTL_MS), [r])
        && r in After(actions).desk.rows;
    Extend(actions, Expire("a"));
    actions := actions + [Expire("a")];
    Extend(actions, Cleared(0));
    actions := actions + [Cleared(0)];
  }
}
