/** demos/actor-lab/src/shared/guards.ts: sliding-window admission. */
module Windows {

  const FRAME_WINDOW_MS := 10_000
  const FRAME_MAX := 60
  const SAYS_PER_MINUTE := 30
  const SAY_WINDOW_MS := 60_000
  const SCRATCH_SOCKET_MAX := 12
  const SCRATCH_SOCKET_WINDOW_MS := 10_000

  datatype Admission = Admission(ok: bool, times: seq<int>)

  /** `times.filter((at) => now - at < window)`. */
  function Recent(times: seq<int>, now: int, window: int): seq<int> {
    if times == [] then []
    else
      var front, last := times[..|times| - 1], times[|times| - 1];
      Recent(front, now, window) + if now - last < window then [last] else []
  }

  function AdmitFrame(frames: seq<int>, now: int): Admission {
    var next := Recent(frames, now, FRAME_WINDOW_MS) + [now];
    Admission(|next| <= FRAME_MAX, next)
  }

  function AdmitSay(says: seq<int>, now: int): Admission {
    Capped(says, now, SAY_WINDOW_MS, SAYS_PER_MINUTE)
  }

  function AdmitScratch(frames: seq<int>, now: int): Admission {
    Capped(frames, now, SCRATCH_SOCKET_WINDOW_MS, SCRATCH_SOCKET_MAX)
  }

  function Capped(times: seq<int>, now: int, window: int, max: nat): Admission {
    var next := Recent(times, now, window);
    if |next| >= max then Admission(false, next) else Admission(true, next + [now])
  }

  // ---------------------------------------------------------------- whole runs

  /** The stored list, the moments of all calls, and the moments of the admitted ones. */
  datatype Log = Log(times: seq<int>, asked: seq<int>, admitted: seq<int>)

  const EMPTY := Log([], [], [])

  function Record(l: Log, now: int, a: Admission): Log {
    Log(a.times, l.asked + [now], if a.ok then l.admitted + [now] else l.admitted)
  }

  /** A run of calls, one for every moment in `nows`; `admit` is one of the admission functions. */
  function Run(admit: (seq<int>, int) -> Admission, nows: seq<int>): Log {
    if nows == [] then EMPTY
    else
      var l := Run(admit, nows[..|nows| - 1]);
      Record(l, nows[|nows| - 1], admit(l.times, nows[|nows| - 1]))
  }

  predicate NonDecreasing(s: seq<int>) {
    forall i, j | 0 <= i <= j < |s| :: s[i] <= s[j]
  }

  /** The moments in the half-open interval from `start`, of the length of the window. */
  function Within(times: seq<int>, start: int, window: int): seq<int> {
    if times == [] then []
    else
      var front, last := times[..|times| - 1], times[|times| - 1];
      Within(front, start, window) + if start <= last < start + window then [last] else []
  }

  lemma RecentSnoc(times: seq<int>, x: int, now: int, window: int)
    ensures Recent(times + [x], now, window) == Recent(times, now, window) + if now - x < window then [x] else []
  {
    assert (times + [x])[..|times|] == times;
  }

  lemma WithinSnoc(times: seq<int>, x: int, start: int, window: int)
    ensures Within(times + [x], start, window) ==
            Within(times, start, window) + if start <= x < start + window then [x] else []
  {
    assert (times + [x])[..|times|] == times;
  }

  /** Filtering at an earlier moment first makes no difference. */
  lemma {:induction false} RecentTwice(times: seq<int>, earlier: int, now: int, window: int)
    requires earlier <= now
    ensures Recent(Recent(times, earlier, window), now, window) == Recent(times, now, window)
  {
    if times != [] {
      var front, last := times[..|times| - 1], times[|times| - 1];
      RecentTwice(front, earlier, now, window);
      var kept := Recent(front, earlier, window);
      assert kept + [] == kept && Recent(front, now, window) + [] == Recent(front, now, window);
      if earlier - last < window { RecentSnoc(kept, last, now, window); }
    }
  }

  /** An interval that reaches the present holds no more than the recent moments. */
  lemma {:induction false} WithinIsRecent(times: seq<int>, start: int, now: int, window: int)
    requires now < start + window
    ensures |Within(times, start, window)| <= |Recent(times, now, window)|
  {
    if times != [] { WithinIsRecent(times[..|times| - 1], start, now, window); }
  }

  // ---------------------------------------------------------------- say and scratch

  lemma Sorted(front: seq<int>, last: int, now: int)
    requires NonDecreasing(front + [last] + [now])
    ensures NonDecreasing(front + [last]) && last <= now
  {
    var all := front + [last] + [now];
    assert all[|front|] == last && all[|front| + 1] == now;
    assert forall i | 0 <= i < |front| + 1 :: all[i] == (front + [last])[i];
  }

  lemma CappedStep(times: seq<int>, admitted: seq<int>, last: int, now: int, window: int, max: nat)
    requires last <= now && Recent(times, last, window) == Recent(admitted, last, window)
    ensures var a := Capped(times, last, window, max);
            Recent(a.times, now, window) == Recent(if a.ok then admitted + [last] else admitted, now, window)
  {
    RecentTwice(times, last, now, window);
    RecentTwice(admitted, last, now, window);
    RecentSnoc(Recent(times, last, window), last, now, window);
    RecentSnoc(admitted, last, now, window);
  }

  /** The stored list is exactly the recent part of the admitted moments. */
  lemma {:induction false} CappedListIsRecent(window: int, max: nat, nows: seq<int>, now: int)
    requires window > 0 && NonDecreasing(nows + [now])
    ensures var l := Run((t, n) => Capped(t, n, window, max), nows);
            Recent(l.times, now, window) == Recent(l.admitted, now, window)
  {
    hide Recent, Capped, NonDecreasing;
    if nows != [] {
      var front, last := nows[..|nows| - 1], nows[|nows| - 1];
      assert front + [last] == nows;
      Sorted(front, last, now);
      CappedListIsRecent(window, max, front, last);
      var l := Run((t, n) => Capped(t, n, window, max), front);
      CappedStep(l.times, l.admitted, last, now, window, max);
    }
  }

  /** At most `max` admitted calls lie in any half-open interval of the window's length. */
  lemma {:induction false} CappedWindow(window: int, max: nat, nows: seq<int>, start: int)
    requires window > 0 && NonDecreasing(nows)
    ensures |Within(Run((t, n) => Capped(t, n, window, max), nows).admitted, start, window)| <= max
  {
    if nows != [] {
      var front, last := nows[..|nows| - 1], nows[|nows| - 1];
      CappedWindow(window, max, front, start);
      var l := Run((t, n) => Capped(t, n, window, max), front);
      assert front + [last] == nows;
      CappedListIsRecent(window, max, front, last);
      var a := Capped(l.times, last, window, max);
      if a.ok && start <= last < start + window {
        WithinIsRecent(l.admitted, start, last, window);
        WithinSnoc(l.admitted, last, start, window);
      } else if a.ok {
        WithinSnoc(l.admitted, last, start, window);
      }
    }
  }

  /** No minute holds more than 30 admitted says. */
  lemma SayWindow(nows: seq<int>, start: int)
    requires NonDecreasing(nows)
    ensures |Within(Run(AdmitSay, nows).admitted, start, SAY_WINDOW_MS)| <= SAYS_PER_MINUTE
  {
    CappedWindow(SAY_WINDOW_MS, SAYS_PER_MINUTE, nows, start);
    SameRun(AdmitSay, (t, n) => Capped(t, n, SAY_WINDOW_MS, SAYS_PER_MINUTE), nows);
  }

  /** No ten seconds hold more than 12 admitted scratch frames of one socket. */
  lemma ScratchWindow(nows: seq<int>, start: int)
    requires NonDecreasing(nows)
    ensures |Within(Run(AdmitScratch, nows).admitted, start, SCRATCH_SOCKET_WINDOW_MS)| <= SCRATCH_SOCKET_MAX
  {
    CappedWindow(SCRATCH_SOCKET_WINDOW_MS, SCRATCH_SOCKET_MAX, nows, start);
    SameRun(AdmitScratch, (t, n) => Capped(t, n, SCRATCH_SOCKET_WINDOW_MS, SCRATCH_SOCKET_MAX), nows);
  }

  lemma {:induction false} SameRun(f: (seq<int>, int) -> Admission, g: (seq<int>, int) -> Admission, nows: seq<int>)
    requires forall t, n :: f(t, n) == g(t, n)
    ensures Run(f, nows) == Run(g, nows)
  {
    if nows != [] { SameRun(f, g, nows[..|nows| - 1]); }
  }

  // ---------------------------------------------------------------- frames

  /** The frame list keeps refused frames too: it is the recent part of everything that was asked. */
  lemma {:induction false} FrameListIsRecent(nows: seq<int>, now: int)
    requires NonDecreasing(nows + [now])
    ensures Recent(Run(AdmitFrame, nows).times, now, FRAME_WINDOW_MS) ==
            Recent(Run(AdmitFrame, nows).asked, now, FRAME_WINDOW_MS)
  {
    if nows != [] {
      var front, last := nows[..|nows| - 1], nows[|nows| - 1];
      assert front + [last] == nows;
      Sorted(front, last, now);
      FrameListIsRecent(front, last);
      var l := Run(AdmitFrame, front);
      RecentTwice(l.times, last, now, FRAME_WINDOW_MS);
      RecentTwice(l.asked, last, now, FRAME_WINDOW_MS);
      RecentSnoc(Recent(l.times, last, FRAME_WINDOW_MS), last, now, FRAME_WINDOW_MS);
      RecentSnoc(l.asked, last, now, FRAME_WINDOW_MS);
    }
  }

  lemma {:induction false} AdmittedAmongAsked(nows: seq<int>, start: int)
    ensures |Within(Run(AdmitFrame, nows).admitted, start, FRAME_WINDOW_MS)|
            <= |Within(Run(AdmitFrame, nows).asked, start, FRAME_WINDOW_MS)|
  {
    if nows != [] {
      var front, last := nows[..|nows| - 1], nows[|nows| - 1];
      AdmittedAmongAsked(front, start);
      var l := Run(AdmitFrame, front);
      WithinSnoc(l.admitted, last, start, FRAME_WINDOW_MS);
      WithinSnoc(l.asked, last, start, FRAME_WINDOW_MS);
    }
  }

  /** No ten seconds hold more than 60 accepted frames of one socket. */
  lemma {:induction false} FrameWindow(nows: seq<int>, start: int)
    requires NonDecreasing(nows)
    ensures |Within(Run(AdmitFrame, nows).admitted, start, FRAME_WINDOW_MS)| <= FRAME_MAX
  {
    if nows != [] {
      var front, last := nows[..|nows| - 1], nows[|nows| - 1];
      FrameWindow(front, start);
      var l := Run(AdmitFrame, front);
      WithinSnoc(l.admitted, last, start, FRAME_WINDOW_MS);
      if AdmitFrame(l.times, last).ok && start <= last < start + FRAME_WINDOW_MS {
        assert front + [last] == nows;
        FrameListIsRecent(front, last);
        AdmittedAmongAsked(front, start);
        WithinIsRecent(l.asked, start, last, FRAME_WINDOW_MS);
      }
    }
  }

  // ---------------------------------------------------------------- who is admitted

  /** Of moments up to now, the recent ones are those of the window that ends now. */
  lemma {:induction false} RecentIsWithin(times: seq<int>, now: int, window: int)
    requires forall t | t in times :: t <= now
    ensures Recent(times, now, window) == Within(times, now - window + 1, window)
  {
    if times != [] {
      var front, last := times[..|times| - 1], times[|times| - 1];
      assert last in times && forall t | t in front :: t in times;
      RecentIsWithin(front, now, window);
    }
  }

  /** A run asks at exactly its moments, and admits only some of them. */
  lemma {:induction false} AskedAre(admit: (seq<int>, int) -> Admission, nows: seq<int>)
    ensures Run(admit, nows).asked == nows && forall t | t in Run(admit, nows).admitted :: t in nows
  {
    if nows != [] {
      var front, last := nows[..|nows| - 1], nows[|nows| - 1];
      AskedAre(admit, front);
      assert front + [last] == nows;
    }
  }

  lemma AllBefore(nows: seq<int>, now: int)
    requires NonDecreasing(nows + [now])
    ensures forall t | t in nows :: t <= now
  {
    var all := nows + [now];
    forall t | t in nows ensures t <= now {
      var i :| 0 <= i < |nows| && nows[i] == t;
      assert all[i] <= all[|nows|];
    }
  }

  lemma CappedAdmits(window: int, max: nat, nows: seq<int>, now: int)
    requires window > 0 && NonDecreasing(nows + [now])
    ensures var l := Run((t, n) => Capped(t, n, window, max), nows);
            Capped(l.times, now, window, max).ok <==> |Within(l.admitted, now - window + 1, window)| < max
  {
    var l := Run((t, n) => Capped(t, n, window, max), nows);
    CappedListIsRecent(window, max, nows, now);
    AskedAre((t, n) => Capped(t, n, window, max), nows);
    AllBefore(nows, now);
    RecentIsWithin(l.admitted, now, window);
  }

  lemma NextLog(admit: (seq<int>, int) -> Admission, nows: seq<int>, now: int)
    ensures Run(admit, nows + [now]).admitted ==
            Run(admit, nows).admitted + if admit(Run(admit, nows).times, now).ok then [now] else []
  {
    assert (nows + [now])[..|nows|] == nows;
  }

  /** A say is admitted exactly when fewer than 30 were admitted in the 60 seconds that end with it. */
  lemma SayAdmittedIff(nows: seq<int>, now: int)
    requires NonDecreasing(nows + [now])
    ensures var admitted := Run(AdmitSay, nows).admitted;
            Run(AdmitSay, nows + [now]).admitted ==
            admitted + if |Within(admitted, now - 59_999, 60_000)| < 30 then [now] else []
  {
    CappedAdmits(60_000, 30, nows, now);
    SameRun(AdmitSay, (t, n) => Capped(t, n, 60_000, 30), nows);
    NextLog(AdmitSay, nows, now);
  }

  /** A scratch frame is admitted exactly when fewer than 12 were admitted in the 10 seconds that end with it. */
  lemma ScratchAdmittedIff(nows: seq<int>, now: int)
    requires NonDecreasing(nows + [now])
    ensures var admitted := Run(AdmitScratch, nows).admitted;
            Run(AdmitScratch, nows + [now]).admitted ==
            admitted + if |Within(admitted, now - 9_999, 10_000)| < 12 then [now] else []
  {
    CappedAdmits(10_000, 12, nows, now);
    SameRun(AdmitScratch, (t, n) => Capped(t, n, 10_000, 12), nows);
    NextLog(AdmitScratch, nows, now);
  }

  /** A frame is accepted exactly when fewer than 60 came, accepted or not, in the 10 seconds that end with it. */
  lemma FrameAcceptedIff(nows: seq<int>, now: int)
    requires NonDecreasing(nows + [now])
    ensures Run(AdmitFrame, nows + [now]).admitted ==
            Run(AdmitFrame, nows).admitted + if |Within(nows, now - 9_999, 10_000)| < 60 then [now] else []
  {
    FrameListIsRecent(nows, now);
    AskedAre(AdmitFrame, nows);
    AllBefore(nows, now);
    RecentIsWithin(nows, now, 10_000);
    NextLog(AdmitFrame, nows, now);
  }
}
