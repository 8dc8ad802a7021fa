/**
 * demos/ask-the-hub/src/worker/cap.ts and api.ts: what each step of a request does, told by the fields of the
 * state alone. AskCap says that nobody slips in; this says that whoever may come in does.
 */
module AskCapSteps {
  import opened Options
  import opened AskCap

  predicate Stands(s: System, i: nat, stage: Stage) {
    i < |s.requests| && s.requests[i].stage == stage
  }

  /** Request `i` moves to `stage`, and nothing else changes. */
  predicate OnlyMoves(s: System, t: System, i: nat, stage: Stage) {
    i < |s.requests| && t == s.(requests := s.requests[i := s.requests[i].(stage := stage)])
  }

  /** Request `i` is let in by the row of its token that expires at `exp`. */
  predicate LetIn(s: System, t: System, i: nat, exp: int) {
    && i < |s.requests| && t.counts == s.counts && t.now == s.now
    && t.requests == s.requests[i := s.requests[i].(stage := Claiming, entry := Some(Admission(exp, s.now)))]
  }

  /**
   * A token with a row that was used less than twice and has not expired lets the request in and counts one use
   * more; a token with any other row is turned away; a token without a row goes on to siteverify the first time.
   */
  lemma TakeDecides(s: System, i: nat, ok: bool)
    requires Stands(s, i, Taking) || Stands(s, i, TakingAgain)
    ensures var hash := s.requests[i].hash; var t := Do(s, Step(i, ok));
            if hash !in s.tokens then
              OnlyMoves(s, t, i, if s.requests[i].stage == Taking then Verifying else Rejected)
            else if s.tokens[hash].uses < 2 && s.now < s.tokens[hash].exp then
              && LetIn(s, t, i, s.tokens[hash].exp)
              && t.tokens == s.tokens[hash := Token(s.tokens[hash].exp, s.tokens[hash].uses + 1)]
            else OnlyMoves(s, t, i, Rejected)
  {
  }

  /** A token that siteverify accepts goes on to be stored, any other is turned away. */
  lemma VerdictDecides(s: System, i: nat, ok: bool)
    requires Stands(s, i, Verifying) || Stands(s, i, VerifyingDummy)
    ensures OnlyMoves(s, Do(s, Step(i, ok)), i,
                      if !ok then Rejected else if s.requests[i].stage == Verifying then Remembering else Claiming)
  {
  }

  /**
   * Storing an unknown token lets the request in with two minutes and one use on the row; a known one is tried
   * again. Other rows are dropped when they have expired.
   */
  lemma RememberStores(s: System, i: nat, ok: bool)
    requires Stands(s, i, Remembering)
    ensures var hash := s.requests[i].hash; var t := Do(s, Step(i, ok));
            && (hash !in s.tokens ==>
                  && LetIn(s, t, i, s.now + 120000)
                  && hash in t.tokens && t.tokens[hash] == Token(s.now + 120000, 1))
            && (hash in s.tokens ==>
                  && OnlyMoves(s, t.(tokens := s.tokens), i, TakingAgain)
                  && (hash in t.tokens <==> s.now < s.tokens[hash].exp))
            && forall h | h != hash :: (h in t.tokens <==> h in s.tokens && s.now < s.tokens[h].exp)
                                       && (h in t.tokens ==> t.tokens[h] == s.tokens[h])
  {
  }

  /**
   * A visitor with a fresh token and nobody else at the token: the request is taken, verified and let in, with
   * one use and two minutes on the row.
   */
  lemma FreshTokenGetsIn(s: System, i: nat, verified: int, stored: int)
    requires Stands(s, i, Taking) && s.requests[i].hash !in s.tokens && s.now <= verified <= stored
    ensures var asked := Do(s, Step(i, true));
            && Enabled(asked, Tick(verified)) && Enabled(Do(asked, Tick(verified)), Step(i, true))
            && var passed := Do(Do(asked, Tick(verified)), Step(i, true));
               && Enabled(passed, Tick(stored)) && Enabled(Do(passed, Tick(stored)), Step(i, true))
               && var t := Do(Do(passed, Tick(stored)), Step(i, true));
                  && Stands(t, i, Claiming) && s.requests[i].hash in t.tokens
                  && t.tokens[s.requests[i].hash] == Token(stored + 120000, 1)
  {
    var asked := Do(s, Step(i, true)).(now := verified);
    var passed := Do(asked, Step(i, true)).(now := stored);
    TakeDecides(s, i, true);
    VerdictDecides(asked, i, true);
    RememberStores(passed, i, true);
  }

  /** The same token lets a second request in before its two minutes are over, and never a third. */
  lemma SecondUseIsLast(s: System, i: nat, j: nat, later: int)
    requires Stands(s, i, Taking) && Stands(s, j, Taking) && i != j
    requires s.requests[i].hash == s.requests[j].hash && s.requests[i].hash in s.tokens
    requires s.tokens[s.requests[i].hash].uses == 1 && s.now < s.tokens[s.requests[i].hash].exp && s.now <= later
    ensures var t := Do(s, Step(i, true));
            && Stands(t, i, Claiming) && Enabled(Do(t, Tick(later)), Step(j, true))
            && Stands(Do(Do(t, Tick(later)), Step(j, true)), j, Rejected)
  {
    TakeDecides(s, i, true);
    TakeDecides(Do(s, Step(i, true)).(now := later), j, true);
  }

  // ---------------------------------------------------------------- slots

  function StoredCount(s: System, table: CapTable): int {
    if table in s.counts then s.counts[table] else 0
  }

  /** The counts change for one table only. */
  predicate OnlyCounts(s: System, t: System, table: CapTable, count: int) {
    StoredCount(t, table) == count && forall other | other != table :: StoredCount(t, other) == StoredCount(s, other)
  }

  /** A request that is let in gets a slot exactly while fewer than 200 questions or 1000 searches were claimed. */
  lemma ClaimTakesSlot(s: System, i: nat, ok: bool)
    requires Stands(s, i, Claiming)
    ensures var table := s.requests[i].table; var t := Do(s, Step(i, ok));
            var free := StoredCount(s, table) < (if table == Asks then 200 else 1000);
            && OnlyMoves(s, t.(counts := s.counts), i, if free then Searching else Capped)
            && OnlyCounts(s, t, table, StoredCount(s, table) + if free then 1 else 0)
  {
  }

  /** A search that fails gives its slot back, unless the refund fails too; one that works keeps it. */
  lemma FailedSearchGivesSlotBack(actions: seq<Action>, i: nat, ok: bool)
    requires Legal(actions)
    ensures Stands(After(actions), i, Searching) ==>
              OnlyMoves(After(actions), Do(After(actions), Step(i, ok)), i, if ok then Served else Refunding)
    ensures Stands(After(actions), i, Refunding) ==>
              var s := After(actions); var table := s.requests[i].table; var t := Do(s, Step(i, ok));
              && OnlyMoves(s, t.(counts := s.counts), i, if ok then Refunded else KeptSlot)
              && OnlyCounts(s, t, table, StoredCount(s, table) - if ok then 1 else 0)
  {
    if Stands(After(actions), i, Refunding) { RefundFindsItsSlot(actions, i); }
  }

  /** In any state at all: a refund takes one off, but nothing from an empty count. */
  lemma RefundStopsAtZero(counts: map<CapTable, int>, table: CapTable)
    requires UsedOf(counts, table) >= 0
    ensures var used := UsedOf(counts, table);
            UsedOf(GivenBack(counts, table), table) == if used > 0 then used - 1 else 0
  {
  }

  /** A request starts at its token, or at siteverify when it brings the local dummy token. */
  lemma ArrivalStarts(s: System, hash: string, table: CapTable, dummy: bool)
    ensures var t := Do(s, Arrive(hash, table, dummy));
            t == s.(requests := s.requests +
                                [Request(hash, table, dummy, if dummy then VerifyingDummy else Taking, None)])
  {
  }
}
