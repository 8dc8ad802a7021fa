/** demos/actor-lab/src/worker/race.ts: the counter race, one synchronous block at a time. */
module Race {
  import opened Options

  datatype Mode = Serialized | Interleaved
  datatype Phase = Read | AwaitStart | AwaitEnd | Wrote
  datatype Event = Event(runId: string, racer: int, phase: Phase, counter: int, at: int, source: string)

  datatype State = State(counter: int, runId: string, mode: Mode, expected: int, budget: int, touchedAt: int,
                         seen: set<(string, int)>, events: seq<Event>)

  const INITIAL := State(0, "", Interleaved, 0, 0, 0, {}, [])

  datatype Refusal = StaleRun | Invalid | Duplicate | NoBudget

  // ---------------------------------------------------------------- the synchronous blocks

  function Armed(runId: string, mode: Mode, expected: int, now: int): State {
    State(0, runId, mode, expected, expected, now, {}, [])
  }

  predicate Already(events: seq<Event>, runId: string, racer: int) {
    exists e | e in events :: e.runId == runId && e.racer == racer && e.phase == Read
  }

  /** Why a step is refused, or None. */
  function Refused(s: State, runId: string, racer: int): Option<Refusal> {
    if runId != s.runId then Some(StaleRun)
    else if racer < 0 || racer >= s.expected then Some(Invalid)
    else if (runId, racer) in s.seen || Already(s.events, runId, racer) then Some(Duplicate)
    else if s.budget <= 0 then Some(NoBudget)
    else None
  }

  /** The synchronous prefix of an accepted step. */
  function Begun(s: State, racer: int, now: int): State {
    s.(budget := s.budget - 1, seen := s.seen + {(s.runId, racer)},
       events := s.events + [Event(s.runId, racer, Read, s.counter, now, ""),
                             Event(s.runId, racer, AwaitStart, s.counter, now, "")])
  }

  /** What a step does when the model has answered; `source` says what answered. */
  function Finished(s: State, runId: string, racer: int, observed: int, now: int, source: string): State {
    if s.runId != runId then s
    else s.(counter := observed + 1, touchedAt := now,
            events := s.events + [Event(runId, racer, AwaitEnd, observed, now, source),
                                  Event(runId, racer, Wrote, observed + 1, now, source)])
  }

  class RaceActor {
    var counter: int
    var runId: string
    var mode: Mode
    var expected: int
    var budget: int
    var touchedAt: int
    var seen: set<(string, int)>
    var events: seq<Event>

    function View(): State reads this {
      State(counter, runId, mode, expected, budget, touchedAt, seen, events)
    }

    constructor ()
      ensures View() == INITIAL
    {
      counter, runId, mode, expected, budget, touchedAt, seen, events := 0, "", Interleaved, 0, 0, 0, {}, [];
    }

    method Arm(runId: string, mode: Mode, expected: int, now: int)
      modifies this
      ensures View() == Armed(runId, mode, expected, now)
    {
      seen := {};
      counter := 0;
      this.runId := runId;
      this.mode := mode;
      this.expected := expected;
      budget := expected;
      touchedAt := now;
      events := [];
    }

    method Record(racer: int, phase: Phase, value: int, now: int, source: string)
      modifies this`events
      ensures events == old(events) + [Event(runId, racer, phase, value, now, source)]
    {
      events := events + [Event(runId, racer, phase, value, now, source)];
    }

    /** `#apply` up to its first wait. */
    method Begin(runId: string, racer: int, now: int) returns (refusal: Option<Refusal>, observed: int)
      modifies this
      ensures refusal == Refused(old(View()), runId, racer)
      ensures refusal.Some? ==> View() == old(View())
      ensures refusal.None? ==> View() == Begun(old(View()), racer, now) && observed == old(counter)
    {
      observed := counter;
      if runId != this.runId { return Some(StaleRun), observed; }
      if racer < 0 || racer >= expected { return Some(Invalid), observed; }
      if (runId, racer) in seen || Already(events, runId, racer) { return Some(Duplicate), observed; }
      if budget <= 0 { return Some(NoBudget), observed; }
      budget := budget - 1;
      seen := seen + {(runId, racer)};
      observed := counter;
      Record(racer, Read, observed, now, "");
      Record(racer, AwaitStart, observed, now, "");
      refusal := None;
    }

    /** `#apply` after the model wait. */
    method Finish(runId: string, racer: int, observed: int, now: int, source: string) returns (stale: bool)
      modifies this
      ensures View() == Finished(old(View()), runId, racer, observed, now, source)
      ensures stale == (old(this.runId) != runId)
    {
      if this.runId != runId { return true; }
      Record(racer, AwaitEnd, observed, now, source);
      var wrote := observed + 1;
      counter := wrote;
      touchedAt := now;
      Record(racer, Wrote, wrote, now, source);
      stale := false;
    }

    /** What `result` reports about the armed run. */
    method Result(runId: string) returns (report: Option<Report>)
      ensures report == if runId == "" || runId != this.runId then None else Some(ReportOf(View()))
    {
      if runId == "" || runId != this.runId { return None; }
      var overlapped := Overlaps(events);
      var lost := if expected - counter > 0 then expected - counter else 0;
      report := Some(Report(runId, mode, expected, counter, lost, overlapped, SourceOf(events), events));
    }
  }

  datatype Report = Report(runId: string, mode: Mode, expected: int, actual: int, lost: int, overlapped: bool,
                           awaitSource: string, events: seq<Event>)

  /** The sources of the waits that ended. */
  function Sources(events: seq<Event>): set<string> {
    set e | e in events && e.phase == AwaitEnd :: e.source
  }

  /** `awaitSource`: what answered the waits of the run, if it was always the same. */
  function SourceOf(events: seq<Event>): string {
    var sources := Sources(events);
    if sources == {} then "none"
    else if sources == {"workers-ai"} then "workers-ai"
    else if sources == {"fallback-delay"} then "fallback-delay"
    else "mixed"
  }

  function ReportOf(s: State): Report {
    var lost := if s.expected > s.counter then s.expected - s.counter else 0;
    Report(s.runId, s.mode, s.expected, s.counter, lost, Overlapping(s.events), SourceOf(s.events), s.events)
  }

  // ---------------------------------------------------------------- overlaps

  datatype Span = Span(start: int, end: int)

  /** The last start of every racer's wait. */
  function OpenAt(events: seq<Event>): map<int, int> {
    if events == [] then map[]
    else
      var e := events[|events| - 1];
      if e.phase == AwaitStart then OpenAt(events[..|events| - 1])[e.racer := e.at] else OpenAt(events[..|events| - 1])
  }

  function Spans(events: seq<Event>): seq<Span> {
    if events == [] then []
    else
      var front, e := events[..|events| - 1], events[|events| - 1];
      if e.phase == AwaitEnd && e.racer in OpenAt(front) then Spans(front) + [Span(OpenAt(front)[e.racer], e.at)]
      else Spans(front)
  }

  predicate Crossing(a: Span, b: Span) {
    a.start < b.end && b.start < a.end
  }

  predicate Overlapping(events: seq<Event>) {
    exists i, j | 0 <= i < j < |Spans(events)| :: Crossing(Spans(events)[i], Spans(events)[j])
  }

  method Overlaps(events: seq<Event>) returns (r: bool)
    ensures r == Overlapping(events)
  {
    var open: map<int, int> := map[];
    var spans: seq<Span> := [];
    for n := 0 to |events|
      invariant open == OpenAt(events[..n]) && spans == Spans(events[..n])
    {
      assert events[..n + 1][..n] == events[..n];
      var event := events[n];
      if event.phase == AwaitEnd && event.racer in open { spans := spans + [Span(open[event.racer], event.at)]; }
      if event.phase == AwaitStart { open := open[event.racer := event.at]; }
    }
    assert events[..|events|] == events;
    for i := 0 to |spans|
      invariant forall a, b | 0 <= a < i && a < b < |spans| :: !Crossing(spans[a], spans[b])
    {
      for j := i + 1 to |spans|
        invariant forall b | i < b < j :: !Crossing(spans[i], spans[b])
      {
        if Crossing(spans[i], spans[j]) { return true; }
      }
    }
    return false;
  }

  // ---------------------------------------------------------------- what a log says

  function LastWrite(events: seq<Event>): int {
    if events == [] then 0
    else if events[|events| - 1].phase == Wrote then events[|events| - 1].counter
    else LastWrite(events[..|events| - 1])
  }

  function Writes(events: seq<Event>): nat {
    if events == [] then 0
    else Writes(events[..|events| - 1]) + if events[|events| - 1].phase == Wrote then 1 else 0
  }

  function Readers(events: seq<Event>): set<int> {
    set e | e in events && e.phase == Read :: e.racer
  }

  function Writers(events: seq<Event>): set<int> {
    set e | e in events && e.phase == Wrote :: e.racer
  }

  predicate ReadAt(events: seq<Event>, i: int, racer: int) {
    0 <= i < |events| && events[i].phase == Read && events[i].racer == racer
  }

  /** The racer read the counter and got `value`. */
  ghost predicate HasRead(events: seq<Event>, racer: int, value: int) {
    exists i :: ReadAt(events, i, racer) && events[i].counter == value
  }

  predicate Ended(events: seq<Event>, racer: int) {
    exists e | e in events :: e.racer == racer && (e.phase == AwaitEnd || e.phase == Wrote)
  }

  /** What holds of an event, given the log before it. */
  ghost predicate EventOk(before: seq<Event>, e: Event) {
    match e.phase
    case Read => e.racer !in Readers(before) && e.counter == LastWrite(before)
    case AwaitStart => |before| > 0 && before[|before| - 1] == e.(phase := Read)
    case AwaitEnd => !Ended(before, e.racer) && HasRead(before, e.racer, e.counter)
    case Wrote => |before| > 0 && before[|before| - 1] == e.(phase := AwaitEnd, counter := e.counter - 1)
  }

  ghost predicate LogOk(events: seq<Event>) {
    events == [] || (LogOk(events[..|events| - 1]) && EventOk(events[..|events| - 1], events[|events| - 1]))
  }

  /** No write of one racer lands between another's read and write (its own write ends the window). */
  ghost predicate NoWriteInside(events: seq<Event>) {
    forall i, j, k | 0 <= i < j < k < |events| && events[j].phase == Wrote && events[k].phase == Wrote ::
      !ReadAt(events, i, events[k].racer)
  }

  lemma {:induction false} LogOkPrefix(events: seq<Event>, n: nat)
    requires LogOk(events) && n <= |events|
    ensures LogOk(events[..n])
  {
    if n < |events| {
      LogOkPrefix(events[..|events| - 1], n);
      assert events[..|events| - 1][..n] == events[..n];
    } else {
      assert events[..n] == events;
    }
  }

  lemma EventOkAt(events: seq<Event>, k: nat)
    requires LogOk(events) && k < |events|
    ensures EventOk(events[..k], events[k])
  {
    LogOkPrefix(events, k + 1);
    assert events[..k + 1][..k] == events[..k];
  }

  lemma OneRead(events: seq<Event>, i: int, j: int, racer: int)
    requires LogOk(events) && ReadAt(events, i, racer) && ReadAt(events, j, racer)
    ensures i == j
  {
    var lo, hi := if i < j then i else j, if i < j then j else i;
    EventOkAt(events, hi);
    assert forall x | 0 <= x < hi :: events[..hi][x] in events[..hi];
  }

  /** The event right before a write is the end of the same wait. */
  lemma EndBeforeWrite(events: seq<Event>, k: nat)
    requires LogOk(events) && k < |events| && events[k].phase == Wrote
    ensures k > 0 && events[k - 1] == events[k].(phase := AwaitEnd, counter := events[k].counter - 1)
  {
    EventOkAt(events, k);
  }

  lemma OneAwaitEnd(events: seq<Event>, i: int, j: int)
    requires LogOk(events) && 0 <= i < j < |events| && events[i].racer == events[j].racer
    requires events[i].phase == AwaitEnd || events[i].phase == Wrote
    ensures events[j].phase != AwaitEnd
  {
    EventOkAt(events, j);
    var before := events[..j];
    assert before[i] in before;
    assert Ended(before, events[j].racer);
  }

  /** A racer ends at most once, and writes right after it. */
  lemma OneEnd(events: seq<Event>, i: int, j: int)
    requires LogOk(events) && 0 <= i < j < |events| && events[i].racer == events[j].racer
    requires events[i].phase == AwaitEnd || events[i].phase == Wrote
    ensures events[j].phase != AwaitEnd
    ensures events[j].phase == Wrote ==> i == j - 1 && events[i].phase == AwaitEnd
  {
    hide LogOk, EventOk, Ended;
    OneAwaitEnd(events, i, j);
    if events[j].phase == Wrote {
      EndBeforeWrite(events, j);
      if i < j - 1 { OneAwaitEnd(events, i, j - 1); }
    }
  }

  /** The read that a write answers. */
  lemma ReadOfWrite(events: seq<Event>, k: nat) returns (i: int)
    requires LogOk(events) && k < |events| && events[k].phase == Wrote
    ensures ReadAt(events, i, events[k].racer) && i < k - 1 && events[k].counter == events[i].counter + 1
    ensures events[i].counter == LastWrite(events[..i])
  {
    EventOkAt(events, k);
    assert events[..k][k - 1] == events[k - 1];
    EventOkAt(events, k - 1);
    i :| ReadAt(events[..k - 1], i, events[k - 1].racer) && events[..k - 1][i].counter == events[k - 1].counter;
    EventOkAt(events, i);
  }

  /** Every write is another racer's, and every writer has read. */
  lemma {:induction false} WritesAreRacers(events: seq<Event>)
    requires LogOk(events)
    ensures Writes(events) == |Writers(events)| && Writers(events) <= Readers(events)
  {
    if events != [] {
      var n := |events| - 1;
      var front, e := events[..n], events[n];
      WritesAreRacers(front);
      assert forall x :: x in events <==> x in front || x == e;
      if e.phase == Wrote {
        NewWriter(events);
        var i := ReadOfWrite(events, n);
        assert events[i] in events;
        assert Writers(events) == Writers(front) + {e.racer};
      } else {
        assert Writers(events) == Writers(front);
      }
    }
  }

  lemma NewWriter(events: seq<Event>)
    requires LogOk(events) && |events| > 0 && events[|events| - 1].phase == Wrote
    ensures events[|events| - 1].racer !in Writers(events[..|events| - 1])
  {
    hide LogOk;
    var n := |events| - 1;
    forall i | 0 <= i < n && events[i].racer == events[n].racer ensures events[i].phase != Wrote {
      if events[i].phase == Wrote { OneEnd(events, i, n); }
    }
  }

  lemma {:induction false} WritesBetween(events: seq<Event>, m: nat, n: nat)
    requires m <= n <= |events|
    ensures Writes(events[..m]) <= Writes(events[..n])
    ensures Writes(events[..m]) == Writes(events[..n]) <==> forall j | m <= j < n :: events[j].phase != Wrote
    decreases n - m
  {
    if m < n {
      assert events[..n][..n - 1] == events[..n - 1];
      WritesBetween(events, m, n - 1);
    }
  }

  /** The counter never exceeds the number of writes, and once there is a write it is at least 1. */
  lemma {:induction false} CounterBounds(events: seq<Event>)
    requires LogOk(events)
    ensures 0 <= LastWrite(events) <= Writes(events)
    ensures Writes(events) > 0 ==> LastWrite(events) >= 1
    decreases |events|
  {
    if events != [] {
      var n := |events| - 1;
      CounterBounds(events[..n]);
      if events[n].phase == Wrote {
        var i := ReadOfWrite(events, n);
        LogOkPrefix(events, i);
        CounterBounds(events[..i]);
        WritesBetween(events, i, n);
      }
    }
  }

  /** The counter equals the number of writes exactly when no write landed in another racer's window. */
  lemma {:induction false} NothingLostIff(events: seq<Event>)
    requires LogOk(events)
    ensures LastWrite(events) == Writes(events) <==> NoWriteInside(events)
    decreases |events|
  {
    if events != [] {
      var n := |events| - 1;
      var front := events[..n];
      NothingLostIff(front);
      if events[n].phase != Wrote {
        SameWindows(events, n);
      } else {
        var i := ReadOfWrite(events, n);
        LogOkPrefix(events, i);
        NothingLostIff(events[..i]);
        CounterBounds(events[..i]);
        WritesBetween(events, i, n);
        LastWindow(events, i);
      }
    }
  }

  lemma SameWindows(events: seq<Event>, n: nat)
    requires n <= |events| && forall j | n <= j < |events| :: events[j].phase != Wrote
    ensures NoWriteInside(events) <==> NoWriteInside(events[..n])
  {
    var front := events[..n];
    assert forall i | 0 <= i < n :: front[i] == events[i];
    assert forall i, racer | 0 <= i < n :: ReadAt(front, i, racer) == ReadAt(events, i, racer);
  }

  lemma PrefixWindows(events: seq<Event>, n: nat)
    requires n <= |events|
    ensures NoWriteInside(events) ==> NoWriteInside(events[..n])
  {
    var front := events[..n];
    assert forall i | 0 <= i < n :: front[i] == events[i];
    assert forall i, racer | 0 <= i < n :: ReadAt(front, i, racer) == ReadAt(events, i, racer);
  }

  /** Writing last into an empty window breaks no other window. */
  lemma LastWindowEmpty(events: seq<Event>, i: int)
    requires LogOk(events) && |events| > 0 && ReadAt(events, i, events[|events| - 1].racer) && i < |events| - 1
    requires NoWriteInside(events[..|events| - 1]) && forall j | i <= j < |events| - 1 :: events[j].phase != Wrote
    ensures NoWriteInside(events)
  {
    hide LogOk;
    var n := |events| - 1;
    var front := events[..n];
    forall x, j, k | 0 <= x < j < k <= n && events[j].phase == Wrote && events[k].phase == Wrote
      ensures !ReadAt(events, x, events[k].racer)
    {
      if k < n {
        assert front[x] == events[x] && front[j] == events[j] && front[k] == events[k];
        assert !ReadAt(front, x, front[k].racer);
      } else if ReadAt(events, x, events[k].racer) {
        OneRead(events, x, i, events[k].racer);
      }
    }
  }

  /** What a last write adds: its own window must be empty of writes. */
  lemma LastWindow(events: seq<Event>, i: int)
    requires LogOk(events) && |events| > 0 && events[|events| - 1].phase == Wrote
    requires ReadAt(events, i, events[|events| - 1].racer) && i < |events| - 1
    ensures NoWriteInside(events) <==>
            NoWriteInside(events[..i]) && forall j | i <= j < |events| - 1 :: events[j].phase != Wrote
  {
    hide LogOk;
    var n := |events| - 1;
    PrefixWindows(events, i);
    if forall j | i <= j < n :: events[j].phase != Wrote {
      SameWindows(events[..n], i);
      assert events[..n][..i] == events[..i];
      if NoWriteInside(events[..i]) { LastWindowEmpty(events, i); }
    }
  }

  predicate Writer(events: seq<Event>, racer: int) {
    exists e | e in events :: e.racer == racer && e.phase == Wrote
  }

  /** No writer's read falls between another writer's read and write. */
  ghost predicate NoReadInside(events: seq<Event>) {
    forall i, j, k | 0 <= i < j < k < |events| && events[k].phase == Wrote && ReadAt(events, i, events[k].racer) ::
      !(events[j].phase == Read && Writer(events, events[j].racer))
  }

  /** Looking at the reads or at the writes inside a window comes to the same. */
  lemma ReadsOrWritesInside(events: seq<Event>)
    requires LogOk(events)
    ensures NoReadInside(events) <==> NoWriteInside(events)
  {
    if !NoWriteInside(events) {
      var i, j, k :| 0 <= i < j < k < |events| && events[j].phase == Wrote && events[k].phase == Wrote
        && ReadAt(events, i, events[k].racer);
      var p := ReadOfWrite(events, j);
      assert events[j] in events && events[k] in events;
      if events[j].racer == events[k].racer {
        OneEnd(events, j, k);
      } else if p > i {
        assert events[p].phase == Read && Writer(events, events[p].racer);
      } else {
        assert events[i].phase == Read && Writer(events, events[i].racer);
      }
    }
    if !NoReadInside(events) {
      var i, j, k :| 0 <= i < j < k < |events| && events[k].phase == Wrote && ReadAt(events, i, events[k].racer)
                     && events[j].phase == Read && Writer(events, events[j].racer);
      var e :| e in events && e.racer == events[j].racer && e.phase == Wrote;
      var m :| 0 <= m < |events| && events[m] == e;
      var p := ReadOfWrite(events, m);
      OneRead(events, p, j, e.racer);
      if m == k { OneRead(events, i, j, e.racer); }
    }
  }

  // ---------------------------------------------------------------- one racer at a time

  /** Between a racer's read and its end no other racer records anything. */
  ghost predicate Serial(events: seq<Event>) {
    forall i, j, k | 0 <= i < j < k < |events| && (events[k].phase == AwaitEnd || events[k].phase == Wrote)
                     && ReadAt(events, i, events[k].racer) :: events[j].racer == events[k].racer
  }

  lemma SerialHasNoWriteInside(events: seq<Event>)
    requires LogOk(events) && Serial(events)
    ensures NoWriteInside(events)
  {
    forall i, j, k | 0 <= i < j < k < |events| && events[j].phase == Wrote && events[k].phase == Wrote
      ensures !ReadAt(events, i, events[k].racer)
    {
      if events[j].racer == events[k].racer { OneEnd(events, j, k); }
    }
  }

  /** Written values count 1, 2, 3, … in log order. */
  lemma SerialWritesCount(events: seq<Event>, k: nat)
    requires LogOk(events) && Serial(events) && k < |events| && events[k].phase == Wrote
    ensures events[k].counter == Writes(events[..k]) + 1
  {
    var front := events[..k + 1];
    LogOkPrefix(events, k + 1);
    assert Serial(front) by {
      assert forall i, racer | 0 <= i <= k :: ReadAt(front, i, racer) == ReadAt(events, i, racer);
    }
    SerialHasNoWriteInside(front);
    NothingLostIff(front);
    assert front[..k] == events[..k];
  }

  ghost predicate Timely(events: seq<Event>) {
    forall i, j | 0 <= i <= j < |events| :: events[i].at <= events[j].at
  }

  /** Every span ends where some wait ends. */
  lemma {:induction false} SpanEnd(events: seq<Event>, s: int) returns (q: int)
    requires 0 <= s < |Spans(events)|
    ensures 0 <= q < |events| && events[q].phase == AwaitEnd && Spans(events)[s].end == events[q].at
  {
    var front := events[..|events| - 1];
    if s < |Spans(front)| {
      q := SpanEnd(front, s);
    } else {
      q := |events| - 1;
    }
  }

  lemma {:induction false} OpenIndex(events: seq<Event>, racer: int) returns (q: int)
    requires racer in OpenAt(events)
    ensures 0 <= q < |events| && events[q].phase == AwaitStart && events[q].racer == racer
            && OpenAt(events)[racer] == events[q].at
  {
    var n := |events| - 1;
    if events[n].phase == AwaitStart && events[n].racer == racer {
      q := n;
    } else {
      q := OpenIndex(events[..n], racer);
    }
  }

  /** With a clock that does not go back, the waits of a serial log lie one after the other. */
  lemma {:induction false} SerialSpansInOrder(events: seq<Event>)
    requires LogOk(events) && Serial(events) && Timely(events)
    ensures forall a, b | 0 <= a < b < |Spans(events)| :: Spans(events)[a].end <= Spans(events)[b].start
    decreases |events|
  {
    if events != [] {
      var n := |events| - 1;
      var front := events[..n];
      assert Serial(front) by {
        assert forall i, racer | 0 <= i < n :: ReadAt(front, i, racer) == ReadAt(events, i, racer);
      }
      SerialSpansInOrder(front);
      var e := events[n];
      if e.phase == AwaitEnd && e.racer in OpenAt(front) {
        var s := OpenIndex(front, e.racer);
        EventOkAt(events, s);
        assert events[..s][s - 1] == events[s - 1];
        assert ReadAt(events, s - 1, e.racer);
        forall a | 0 <= a < |Spans(front)| ensures Spans(front)[a].end <= events[s].at {
          var q := SpanEnd(front, a);
          if q > s { OneEnd(events, q, n); }
        }
      }
    }
  }

  lemma SerialDoesNotOverlap(events: seq<Event>)
    requires LogOk(events) && Serial(events) && Timely(events)
    ensures !Overlapping(events)
  {
    SerialSpansInOrder(events);
  }

  // ---------------------------------------------------------------- when waits overlap

  /** A wait of a racer: it starts at event `b` and ends at event `e`. */
  predicate IsWait(events: seq<Event>, b: int, e: int) {
    && 0 <= b < e < |events| && events[b].racer == events[e].racer
    && events[b].phase == AwaitStart && events[e].phase == AwaitEnd
  }

  /** Two waits of different racers, each of which starts before the other ends. */
  predicate CrossAt(events: seq<Event>, b: int, e: int, c: int, f: int) {
    && IsWait(events, b, e) && IsWait(events, c, f) && events[e].racer != events[f].racer
    && events[b].at < events[f].at && events[c].at < events[e].at
  }

  ghost predicate WaitsCross(events: seq<Event>) {
    exists b, e, c, f :: CrossAt(events, b, e, c, f)
  }

  /** A racer starts to wait at most once. */
  lemma OneStart(events: seq<Event>, i: int, j: int)
    requires LogOk(events) && 0 <= i < |events| && 0 <= j < |events| && events[i].racer == events[j].racer
    requires events[i].phase == AwaitStart && events[j].phase == AwaitStart
    ensures i == j
  {
    hide LogOk;
    EventOkAt(events, i);
    EventOkAt(events, j);
    assert i > 0 ==> events[..i][i - 1] == events[i - 1];
    assert j > 0 ==> events[..j][j - 1] == events[j - 1];
    OneRead(events, i - 1, j - 1, events[i].racer);
  }

  lemma {:induction false} SpansGrow(events: seq<Event>, n: nat)
    requires n <= |events|
    ensures Spans(events[..n]) <= Spans(events)
    decreases |events|
  {
    if n < |events| {
      SpansGrow(events[..|events| - 1], n);
      assert events[..|events| - 1][..n] == events[..n];
    } else {
      assert events[..n] == events;
    }
  }

  lemma {:induction false} StartIsOpen(events: seq<Event>, b: int)
    requires 0 <= b < |events| && events[b].phase == AwaitStart
    ensures events[b].racer in OpenAt(events)
    decreases |events|
  {
    var front := events[..|events| - 1];
    if b < |events| - 1 { StartIsOpen(front, b); }
  }

  /** Every wait has its span: the one that the end of the wait adds. */
  lemma WaitHasSpan(events: seq<Event>, b: int, e: int) returns (k: int)
    requires LogOk(events) && IsWait(events, b, e)
    ensures k == |Spans(events[..e])| < |Spans(events)| && Spans(events)[k] == Span(events[b].at, events[e].at)
  {
    hide LogOk;
    var front := events[..e];
    k := |Spans(front)|;
    StartIsOpen(front, b);
    var q := OpenIndex(front, events[e].racer);
    OneStart(events, q, b);
    assert events[..e + 1][..e] == front && events[..e + 1][e] == events[e];
    SpansGrow(events, e + 1);
  }

  /** And every span has its wait. */
  lemma {:induction false} SpanHasWait(events: seq<Event>, k: int) returns (b: int, e: int)
    requires 0 <= k < |Spans(events)|
    ensures IsWait(events, b, e) && |Spans(events[..e])| == k && Spans(events)[k] == Span(events[b].at, events[e].at)
    decreases |events|
  {
    var n := |events| - 1;
    var front := events[..n];
    if k < |Spans(front)| {
      b, e := SpanHasWait(front, k);
      assert front[..e] == events[..e];
    } else {
      e := n;
      b := OpenIndex(front, events[n].racer);
    }
  }

  /**
   * `overlaps` answers true exactly when two different racers waited at the same time: the start of each wait is
   * earlier than the end of the other.
   */
  lemma OverlapsIffWaitsCross(events: seq<Event>)
    requires LogOk(events)
    ensures Overlapping(events) <==> WaitsCross(events)
  {
    hide LogOk, Spans;
    if Overlapping(events) {
      var i, j :| 0 <= i < j < |Spans(events)| && Crossing(Spans(events)[i], Spans(events)[j]);
      var b, e := SpanHasWait(events, i);
      var c, f := SpanHasWait(events, j);
      if events[e].racer == events[f].racer {
        if e < f { OneEnd(events, e, f); }
        if f < e { OneEnd(events, f, e); }
      }
      assert CrossAt(events, b, e, c, f);
    }
    if WaitsCross(events) {
      var b, e, c, f :| CrossAt(events, b, e, c, f);
      var i := WaitHasSpan(events, b, e);
      var j := WaitHasSpan(events, c, f);
      SpansApart(events, e, f);
      var x, y := if i < j then i else j, if i < j then j else i;
      assert Crossing(Spans(events)[x], Spans(events)[y]);
    }
  }

  /** Two ended waits add two spans. */
  lemma SpansApart(events: seq<Event>, e: int, f: int)
    requires LogOk(events) && (exists b :: IsWait(events, b, e)) && (exists c :: IsWait(events, c, f)) && e != f
    ensures |Spans(events[..e])| != |Spans(events[..f])|
  {
    hide LogOk;
    var lo, hi := if e < f then e else f, if e < f then f else e;
    var b :| IsWait(events, b, lo);
    LogOkPrefix(events, lo + 1);
    assert events[..lo + 1][..lo] == events[..lo];
    assert IsWait(events[..lo + 1], b, lo);
    var k := WaitHasSpan(events[..lo + 1], b, lo);
    SpansGrow(events[..hi], lo + 1);
    assert events[..hi][..lo + 1] == events[..lo + 1];
  }
}
