/**
 * demos/ask-the-hub/src/worker/cap.ts and api.ts: token uses and daily caps, with any number of requests
 * whose calls to the one AskCap object interleave. One UTC day.
 */
module AskCap {
  import opened Options

  const DAILY_CAP := 200
  const SEARCH_DAILY_CAP := 1000
  const TOKEN_TTL_MS := 120000
  const TOKEN_USE_LIMIT := 2

  datatype CapTable = Asks | Searches

  function CapOf(table: CapTable): nat {
    if table.Asks? then DAILY_CAP else SEARCH_DAILY_CAP
  }

  datatype Token = Token(exp: int, uses: int)

  datatype TokenDecision = Absent | Replay | Spent

  // ---------------------------------------------------------------- the SQL statements

  function UsedOf(counts: map<CapTable, int>, table: CapTable): int {
    if table in counts then counts[table] else 0
  }

  predicate Spendable(tokens: map<string, Token>, hash: string, now: int) {
    hash in tokens && tokens[hash].uses < TOKEN_USE_LIMIT && tokens[hash].exp > now
  }

  function Spend(tokens: map<string, Token>, hash: string, now: int): map<string, Token> {
    if Spendable(tokens, hash, now) then tokens[hash := tokens[hash].(uses := tokens[hash].uses + 1)] else tokens
  }

  function Decision(tokens: map<string, Token>, hash: string, now: int): TokenDecision {
    if Spendable(tokens, hash, now) then Replay else if hash in tokens then Spent else Absent
  }

  function Inserted(tokens: map<string, Token>, hash: string, now: int): map<string, Token> {
    if hash in tokens then tokens else tokens[hash := Token(now + TOKEN_TTL_MS, 1)]
  }

  function Purged(tokens: map<string, Token>, now: int): map<string, Token> {
    map h | h in tokens && tokens[h].exp > now :: tokens[h]
  }

  /** The counts after a claim, which adds a slot while the cap allows it. */
  function Claimed(counts: map<CapTable, int>, table: CapTable): map<CapTable, int> {
    if UsedOf(counts, table) < CapOf(table) then counts[table := UsedOf(counts, table) + 1] else counts
  }

  /** The counts after a refund, which never go below zero. */
  function GivenBack(counts: map<CapTable, int>, table: CapTable): map<CapTable, int> {
    if UsedOf(counts, table) <= 0 then counts else counts[table := UsedOf(counts, table) - 1]
  }

  class AskCapActor {
    var tokens: map<string, Token>
    var counts: map<CapTable, int>

    constructor ()
      ensures tokens == map[] && counts == map[]
    {
      tokens, counts := map[], map[];
    }

    method Claim(table: CapTable) returns (ok: bool, used: int, remaining: int)
      modifies this`counts
      ensures ok == (UsedOf(old(counts), table) < CapOf(table))
      ensures used == UsedOf(counts, table)
      ensures counts == Claimed(old(counts), table)
      ensures remaining == if ok then CapOf(table) - used else 0
    {
      used := UsedOf(counts, table);
      if used >= CapOf(table) { return false, used, 0; }
      var next := used + 1;
      counts := counts[table := next];
      return true, next, CapOf(table) - next;
    }

    method Refund(table: CapTable)
      modifies this`counts
      ensures counts == GivenBack(old(counts), table)
    {
      var used := UsedOf(counts, table);
      if used <= 0 { return; }
      counts := counts[table := used - 1];
    }

    method RememberToken(hash: string, now: int) returns (inserted: bool)
      modifies this`tokens
      ensures inserted == (hash !in old(tokens)) && tokens == Purged(Inserted(old(tokens), hash, now), now)
    {
      inserted := hash !in tokens;
      if inserted { tokens := tokens[hash := Token(now + TOKEN_TTL_MS, 1)]; }
      tokens := map h | h in tokens && tokens[h].exp > now :: tokens[h];
    }

    method TakeToken(hash: string, now: int) returns (decision: TokenDecision)
      modifies this`tokens
      ensures decision == Decision(old(tokens), hash, now) && tokens == Spend(old(tokens), hash, now)
    {
      if hash in tokens && tokens[hash].uses < TOKEN_USE_LIMIT && tokens[hash].exp > now {
        tokens := tokens[hash := tokens[hash].(uses := tokens[hash].uses + 1)];
        return Replay;
      }
      return if hash !in tokens then Absent else Spent;
    }
  }

  // ---------------------------------------------------------------- requests

  datatype Stage =
    | VerifyingDummy | Taking | Verifying | Remembering | TakingAgain | Rejected
    | Claiming | Capped | Searching | Served | Refunding | Refunded | KeptSlot

  /** When a row let a request in, and the expiry of the row that did. */
  datatype Admission = Admission(exp: int, at: int)

  /** `dummy`: a local check with the dummy token, which `admit` verifies each time and never stores. */
  datatype Request = Request(hash: string, table: CapTable, dummy: bool, stage: Stage, entry: Option<Admission>)

  datatype System = System(tokens: map<string, Token>, counts: map<CapTable, int>, requests: seq<Request>, now: int)

  const START := System(map[], map[], [], 0)

  /** `ok` is what the outside world answers: the siteverify, the search or the refund call succeeds. */
  datatype Action = Arrive(hash: string, table: CapTable, dummy: bool) | Step(request: nat, ok: bool) | Tick(later: int)

  predicate Done(stage: Stage) {
    stage.Rejected? || stage.Capped? || stage.Served? || stage.Refunded? || stage.KeptSlot?
  }

  predicate Enabled(s: System, a: Action) {
    match a
    case Arrive(_, _, _) => true
    case Step(i, _) => i < |s.requests| && !Done(s.requests[i].stage)
    case Tick(later) => later >= s.now
  }

  function At(s: System, i: nat, stage: Stage): System
    requires i < |s.requests|
  {
    s.(requests := s.requests[i := s.requests[i].(stage := stage)])
  }

  /** The token lets the request in; `tokens` is the table after that. */
  function Admit(s: System, i: nat, tokens: map<string, Token>): System
    requires i < |s.requests| && s.requests[i].hash in tokens
  {
    var r := s.requests[i];
    var entry := Some(Admission(tokens[r.hash].exp, s.now));
    s.(tokens := tokens, requests := s.requests[i := r.(stage := Claiming, entry := entry)])
  }

  /** `admit` takes a token; without one, the request goes on at stage `absent`. */
  function Take(s: System, i: nat, absent: Stage): System
    requires i < |s.requests|
  {
    var hash := s.requests[i].hash;
    match Decision(s.tokens, hash, s.now)
    case Replay => Admit(s, i, Spend(s.tokens, hash, s.now))
    case Spent => At(s, i, Rejected)
    case Absent => At(s, i, absent)
  }

  function Remember(s: System, i: nat): System
    requires i < |s.requests|
  {
    var hash := s.requests[i].hash;
    var tokens := Purged(Inserted(s.tokens, hash, s.now), s.now);
    if hash !in s.tokens then Admit(s, i, tokens) else At(s, i, TakingAgain).(tokens := tokens)
  }

  function ClaimSlot(s: System, i: nat): System
    requires i < |s.requests|
  {
    var table := s.requests[i].table;
    At(s, i, if UsedOf(s.counts, table) < CapOf(table) then Searching else Capped).(counts := Claimed(s.counts, table))
  }

  function RefundSlot(s: System, i: nat): System
    requires i < |s.requests|
  {
    At(s, i, Refunded).(counts := GivenBack(s.counts, s.requests[i].table))
  }

  function Arrival(hash: string, table: CapTable, dummy: bool): Request {
    Request(hash, table, dummy, if dummy then VerifyingDummy else Taking, None)
  }

  function Do(s: System, a: Action): System
    requires Enabled(s, a)
  {
    match a
    case Arrive(hash, table, dummy) => s.(requests := s.requests + [Arrival(hash, table, dummy)])
    case Tick(later) => s.(now := later)
    case Step(i, ok) =>
      match s.requests[i].stage
      case VerifyingDummy => At(s, i, if ok then Claiming else Rejected)
      case Taking => Take(s, i, Verifying)
      case Verifying => At(s, i, if ok then Remembering else Rejected)
      case Remembering => Remember(s, i)
      case TakingAgain => Take(s, i, Rejected)
      case Claiming => ClaimSlot(s, i)
      case Searching => At(s, i, if ok then Served else Refunding)
      case Refunding => if ok then RefundSlot(s, i) else At(s, i, KeptSlot)
      case _ => s
  }

  ghost predicate Legal(actions: seq<Action>)
    decreases |actions|, 0
  {
    actions == [] ||
    (Legal(actions[..|actions| - 1]) && Enabled(After(actions[..|actions| - 1]), actions[|actions| - 1]))
  }

  ghost function After(actions: seq<Action>): System
    requires Legal(actions)
    decreases |actions|, 1
  {
    if actions == [] then START else Do(After(actions[..|actions| - 1]), actions[|actions| - 1])
  }

  // ---------------------------------------------------------------- counting requests

  function Count(requests: seq<Request>, p: Request -> bool): nat {
    if requests == [] then 0
    else Count(requests[..|requests| - 1], p) + if p(requests[|requests| - 1]) then 1 else 0
  }

  /** The requests that the row of `hash` with expiry `exp` let in. */
  function LetInBy(hash: string, exp: int): Request -> bool {
    (r: Request) => r.hash == hash && r.entry.Some? && r.entry.value.exp == exp
  }

  /** The requests that hold a slot of the day: claimed and not given back. */
  function HoldsSlot(table: CapTable): Request -> bool {
    (r: Request) =>
      r.table == table && (r.stage.Searching? || r.stage.Served? || r.stage.Refunding? || r.stage.KeptSlot?)
  }

  lemma CountSnoc(requests: seq<Request>, r: Request, p: Request -> bool)
    ensures Count(requests + [r], p) == Count(requests, p) + if p(r) then 1 else 0
  {
    assert (requests + [r])[..|requests|] == requests;
  }

  lemma {:induction false} CountUpdate(requests: seq<Request>, i: nat, r: Request, p: Request -> bool)
    requires i < |requests|
    ensures Count(requests[i := r], p) == Count(requests, p) - (if p(requests[i]) then 1 else 0) + if p(r) then 1 else 0
    ensures p(requests[i]) ==> Count(requests, p) > 0
  {
    var n := |requests| - 1;
    if i == n {
      assert requests[i := r][..n] == requests[..n];
    } else {
      assert requests[i := r][..n] == requests[..n][i := r];
      CountUpdate(requests[..n], i, r, p);
    }
  }

  lemma {:induction false} CountedIs(requests: seq<Request>, p: Request -> bool)
    ensures Count(requests, p) > 0 <==> exists r | r in requests :: p(r)
  {
    if requests != [] {
      var n := |requests| - 1;
      CountedIs(requests[..n], p);
      assert forall r :: r in requests <==> r in requests[..n] || r == requests[n];
    }
  }

  // ---------------------------------------------------------------- tokens

  predicate EntryOk(r: Request, now: int) {
    r.entry.Some? ==>
      r.entry.value.exp - TOKEN_TTL_MS <= r.entry.value.at < r.entry.value.exp && r.entry.value.at <= now
  }

  /** Whether the row of `hash` with expiry `exp` is still there. */
  predicate Live(tokens: map<string, Token>, hash: string, exp: int) {
    hash in tokens && tokens[hash].exp == exp
  }

  /** A row counts its admissions; a row that is gone let in two at most and expired. */
  predicate LifeOk(s: System, hash: string, exp: int) {
    var n := Count(s.requests, LetInBy(hash, exp));
    if Live(s.tokens, hash, exp) then n == s.tokens[hash].uses && 1 <= n <= TOKEN_USE_LIMIT
        && exp <= s.now + TOKEN_TTL_MS
    else n <= TOKEN_USE_LIMIT && (n > 0 ==> exp <= s.now)
  }

  /** Two rows of one token never let in during the same time. */
  predicate Disjoint(q: Request, r: Request) {
    q.hash == r.hash && q.entry.Some? && r.entry.Some? && q.entry.value.exp < r.entry.value.exp ==>
      q.entry.value.exp <= r.entry.value.exp - TOKEN_TTL_MS
  }

  predicate EarlyStage(r: Request) {
    r.stage.VerifyingDummy? || r.stage.Taking? || r.stage.Verifying? || r.stage.Remembering? || r.stage.TakingAgain?
  }

  /** Past `admit`. */
  predicate Inside(r: Request) {
    !EarlyStage(r) && !r.stage.Rejected?
  }

  /** Some row let the request in exactly when it is past `admit` with a token of its own. */
  predicate EntryFits(r: Request) {
    (r.entry.Some? <==> Inside(r) && !r.dummy) && (r.stage.VerifyingDummy? ==> r.dummy)
    && (EarlyStage(r) && !r.stage.VerifyingDummy? ==> !r.dummy)
  }

  ghost predicate TokenInv(s: System) {
    && (forall r | r in s.requests :: EntryOk(r, s.now) && EntryFits(r))
    && (forall hash, exp :: LifeOk(s, hash, exp))
    && (forall q, r | q in s.requests && r in s.requests :: Disjoint(q, r))
  }

  /** A step that lets nobody in and leaves the table alone. */
  lemma StageKeepsTokens(s: System, i: nat, stage: Stage)
    requires TokenInv(s) && i < |s.requests| && EntryFits(s.requests[i].(stage := stage))
    ensures TokenInv(At(s, i, stage))
  {
    var t := At(s, i, stage);
    assert s.requests[i] in s.requests;
    assert forall r | r in t.requests :: r in s.requests || r == t.requests[i];
    forall hash, exp ensures LifeOk(t, hash, exp) {
      assert LifeOk(s, hash, exp);
      CountUpdate(s.requests, i, t.requests[i], LetInBy(hash, exp));
    }
  }

  /** The token table moves on: rows only go once they expired, and nobody enters. */
  lemma PurgeKeepsTokens(s: System)
    requires TokenInv(s)
    ensures TokenInv(s.(tokens := Purged(s.tokens, s.now)))
  {
    var t := s.(tokens := Purged(s.tokens, s.now));
    forall hash, exp ensures LifeOk(t, hash, exp) { assert LifeOk(s, hash, exp); }
  }

  /** Letting request `i` in adds one admission to the life of its row and to no other. */
  lemma AdmitCounts(s: System, i: nat, tokens: map<string, Token>, hash: string, exp: int)
    requires i < |s.requests| && s.requests[i].hash in tokens && s.requests[i].entry.None?
    ensures var r := s.requests[i];
            Count(Admit(s, i, tokens).requests, LetInBy(hash, exp))
            == Count(s.requests, LetInBy(hash, exp)) + if hash == r.hash && exp == tokens[r.hash].exp then 1 else 0
  {
    CountUpdate(s.requests, i, Admit(s, i, tokens).requests[i], LetInBy(hash, exp));
  }

  lemma ReplayKeepsTokens(s: System, i: nat)
    requires TokenInv(s) && i < |s.requests| && EarlyStage(s.requests[i]) && !s.requests[i].dummy
    requires Spendable(s.tokens, s.requests[i].hash, s.now)
    ensures TokenInv(Admit(s, i, Spend(s.tokens, s.requests[i].hash, s.now)))
  {
    var r := s.requests[i];
    var tokens := Spend(s.tokens, r.hash, s.now);
    var t := Admit(s, i, tokens);
    assert r in s.requests;
    assert LifeOk(s, r.hash, s.tokens[r.hash].exp);
    forall hash, exp ensures LifeOk(t, hash, exp) {
      assert LifeOk(s, hash, exp);
      AdmitCounts(s, i, tokens, hash, exp);
    }
    EntriesKept(s, i, tokens);
  }

  lemma InsertKeepsTokens(s: System, i: nat)
    requires TokenInv(s) && i < |s.requests| && EarlyStage(s.requests[i]) && !s.requests[i].dummy
        && s.requests[i].hash !in s.tokens
    ensures TokenInv(Admit(s, i, Inserted(s.tokens, s.requests[i].hash, s.now)))
  {
    var r := s.requests[i];
    var tokens := Inserted(s.tokens, r.hash, s.now);
    var t := Admit(s, i, tokens);
    assert r in s.requests;
    forall hash, exp ensures LifeOk(t, hash, exp) {
      assert LifeOk(s, hash, exp);
      AdmitCounts(s, i, tokens, hash, exp);
    }
    EntriesKept(s, i, tokens);
  }

  lemma LiveHasEntry(s: System, hash: string)
    requires TokenInv(s)
    ensures hash in s.tokens ==> exists r | r in s.requests :: LetInBy(hash, s.tokens[hash].exp)(r)
  {
    if hash in s.tokens {
      assert LifeOk(s, hash, s.tokens[hash].exp);
      CountedIs(s.requests, LetInBy(hash, s.tokens[hash].exp));
    }
  }

  /** The new entry lies in its row's time, and apart from the token's earlier rows. */
  lemma EntriesKept(s: System, i: nat, tokens: map<string, Token>)
    requires TokenInv(s) && i < |s.requests| && EarlyStage(s.requests[i]) && !s.requests[i].dummy
        && s.requests[i].hash in tokens
    requires var exp := tokens[s.requests[i].hash].exp;
             && exp - TOKEN_TTL_MS <= s.now < exp
             && (Live(s.tokens, s.requests[i].hash, exp)
                 || (exp == s.now + TOKEN_TTL_MS && s.requests[i].hash !in s.tokens))
    ensures var t := Admit(s, i, tokens);
            && (forall r | r in t.requests :: EntryOk(r, t.now) && EntryFits(r))
            && (forall q, r | q in t.requests && r in t.requests :: Disjoint(q, r))
  {
    var t := Admit(s, i, tokens);
    var mine := t.requests[i];
    assert forall r | r in t.requests :: r in s.requests || r == mine;
    LiveHasEntry(s, mine.hash);
    forall q | q in s.requests ensures Disjoint(q, mine) && Disjoint(mine, q) {
      if q.hash == mine.hash && q.entry.Some? {
        CountedIs(s.requests, LetInBy(q.hash, q.entry.value.exp));
        assert LifeOk(s, q.hash, q.entry.value.exp);
      }
    }
  }

  lemma FitsAt(s: System, i: nat)
    requires TokenInv(s) && i < |s.requests|
    ensures EntryFits(s.requests[i])
  {
    assert s.requests[i] in s.requests;
  }

  lemma RememberKeepsTokens(s: System, i: nat)
    requires TokenInv(s) && i < |s.requests| && s.requests[i].stage.Remembering?
    ensures TokenInv(Remember(s, i))
  {
    hide TokenInv;
    FitsAt(s, i);
    var hash := s.requests[i].hash;
    if hash !in s.tokens {
      InsertKeepsTokens(s, i);
      var t := Admit(s, i, Inserted(s.tokens, hash, s.now));
      PurgeKeepsTokens(t);
      assert Remember(s, i) == t.(tokens := Purged(t.tokens, t.now));
    } else {
      StageKeepsTokens(s, i, TakingAgain);
      PurgeKeepsTokens(At(s, i, TakingAgain));
    }
  }

  lemma TakeKeepsTokens(s: System, i: nat, absent: Stage)
    requires TokenInv(s) && i < |s.requests| && EarlyStage(s.requests[i]) && !s.requests[i].dummy
        && (absent.Verifying? || absent.Rejected?)
    ensures TokenInv(Take(s, i, absent))
  {
    hide TokenInv;
    FitsAt(s, i);
    var hash := s.requests[i].hash;
    match Decision(s.tokens, hash, s.now)
    case Replay => ReplayKeepsTokens(s, i);
    case Spent => StageKeepsTokens(s, i, Rejected);
    case Absent => StageKeepsTokens(s, i, absent);
  }

  lemma CountsDoNotMatter(s: System, counts: map<CapTable, int>)
    requires TokenInv(s)
    ensures TokenInv(s.(counts := counts))
  {
    forall hash, exp ensures LifeOk(s.(counts := counts), hash, exp) { assert LifeOk(s, hash, exp); }
  }

  lemma ArriveKeepsTokens(s: System, hash: string, table: CapTable, dummy: bool)
    requires TokenInv(s)
    ensures TokenInv(Do(s, Arrive(hash, table, dummy)))
  {
    var t := Do(s, Arrive(hash, table, dummy));
    var mine := Arrival(hash, table, dummy);
    assert forall r | r in t.requests :: r in s.requests || r == mine;
    forall h, exp ensures LifeOk(t, h, exp) {
      assert LifeOk(s, h, exp);
      CountSnoc(s.requests, mine, LetInBy(h, exp));
    }
  }

  lemma TickKeepsTokens(s: System, later: int)
    requires TokenInv(s) && later >= s.now
    ensures TokenInv(s.(now := later))
  {
    forall hash, exp ensures LifeOk(s.(now := later), hash, exp) { assert LifeOk(s, hash, exp); }
  }

  lemma DoKeepsTokens(s: System, a: Action)
    requires TokenInv(s) && Enabled(s, a)
    ensures TokenInv(Do(s, a))
  {
    hide TokenInv, Take, Remember;
    match a
    case Arrive(hash, table, dummy) => ArriveKeepsTokens(s, hash, table, dummy);
    case Tick(later) => TickKeepsTokens(s, later);
    case Step(i, ok) =>
      FitsAt(s, i);
      match s.requests[i].stage
      case VerifyingDummy => StageKeepsTokens(s, i, if ok then Claiming else Rejected);
      case Taking => TakeKeepsTokens(s, i, Verifying);
      case Verifying => StageKeepsTokens(s, i, if ok then Remembering else Rejected);
      case Remembering => RememberKeepsTokens(s, i);
      case TakingAgain => TakeKeepsTokens(s, i, Rejected);
      case Claiming =>
        var next := if UsedOf(s.counts, s.requests[i].table) < CapOf(s.requests[i].table) then Searching else Capped;
        StageKeepsTokens(s, i, next);
        CountsDoNotMatter(At(s, i, next), Do(s, a).counts);
      case Searching => StageKeepsTokens(s, i, if ok then Served else Refunding);
      case Refunding =>
        StageKeepsTokens(s, i, if ok then Refunded else KeptSlot);
        CountsDoNotMatter(At(s, i, if ok then Refunded else KeptSlot), Do(s, a).counts);
      case _ =>
  }

  // ---------------------------------------------------------------- slots

  predicate SlotsOk(s: System, table: CapTable) {
    UsedOf(s.counts, table) == Count(s.requests, HoldsSlot(table)) <= CapOf(table)
  }

  ghost predicate SlotInv(s: System) {
    forall table :: SlotsOk(s, table)
  }

  function Slot(r: Request): int {
    if HoldsSlot(r.table)(r) then 1 else 0
  }

  /** One request moves on, and its table's count with it. */
  lemma StageKeepsSlots(s: System, t: System, i: nat)
    requires SlotInv(s) && i < |s.requests| == |t.requests| && t.requests == s.requests[i := t.requests[i]]
    requires t.requests[i].table == s.requests[i].table
    requires forall table :: UsedOf(t.counts, table) == UsedOf(s.counts, table)
                             + if table == s.requests[i].table then Slot(t.requests[i]) - Slot(s.requests[i]) else 0
    requires UsedOf(t.counts, s.requests[i].table) <= CapOf(s.requests[i].table)
    ensures SlotInv(t)
  {
    forall table ensures SlotsOk(t, table) {
      assert SlotsOk(s, table);
      CountUpdate(s.requests, i, t.requests[i], HoldsSlot(table));
    }
  }

  lemma StepKeepsSlots(s: System, i: nat, ok: bool)
    requires SlotInv(s) && Enabled(s, Step(i, ok))
    ensures SlotInv(Do(s, Step(i, ok)))
  {
    hide SlotInv, Take, Remember;
    EarlyKeepsSlots(s, i);
    var t, table := Do(s, Step(i, ok)), s.requests[i].table;
    SlotsBounded(s, i);
    if s.requests[i].stage.Refunding? { RefundHasSlot(s, i); }
    StageKeepsSlots(s, t, i);
  }

  predicate KeepsSlot(s: System, t: System, i: nat) {
    && i < |s.requests| == |t.requests| && t.counts == s.counts && t.requests == s.requests[i := t.requests[i]]
    && t.requests[i].table == s.requests[i].table && Slot(t.requests[i]) == Slot(s.requests[i])
  }

  /** Before `admit` is through, no slot is at stake. */
  lemma EarlyKeepsSlots(s: System, i: nat)
    requires i < |s.requests|
    ensures EarlyStage(s.requests[i]) ==>
              && KeepsSlot(s, Take(s, i, Verifying), i) && KeepsSlot(s, Take(s, i, Rejected), i)
              && KeepsSlot(s, Remember(s, i), i)
  {
    hide Decision, Spend, Inserted, Purged;
  }

  lemma SlotsBounded(s: System, i: nat)
    requires SlotInv(s) && i < |s.requests|
    ensures UsedOf(s.counts, s.requests[i].table) <= CapOf(s.requests[i].table)
  {
    assert SlotsOk(s, s.requests[i].table);
  }

  lemma RefundHasSlot(s: System, i: nat)
    requires SlotInv(s) && i < |s.requests| && s.requests[i].stage.Refunding?
    ensures UsedOf(s.counts, s.requests[i].table) > 0
  {
    assert SlotsOk(s, s.requests[i].table);
    CountUpdate(s.requests, i, s.requests[i], HoldsSlot(s.requests[i].table));
  }

  lemma DoKeepsSlots(s: System, a: Action)
    requires SlotInv(s) && Enabled(s, a)
    ensures SlotInv(Do(s, a))
  {
    if a.Step? {
      StepKeepsSlots(s, a.request, a.ok);
    } else {
      var t := Do(s, a);
      forall table ensures SlotsOk(t, table) {
        assert SlotsOk(s, table);
        if a.Arrive? { CountSnoc(s.requests, t.requests[|s.requests|], HoldsSlot(table)); }
      }
    }
  }

  lemma {:induction false} AlwaysInv(actions: seq<Action>)
    requires Legal(actions)
    ensures TokenInv(After(actions)) && SlotInv(After(actions))
  {
    if actions != [] {
      hide TokenInv, SlotInv, Do;
      AlwaysInv(actions[..|actions| - 1]);
      DoKeepsTokens(After(actions[..|actions| - 1]), actions[|actions| - 1]);
      DoKeepsSlots(After(actions[..|actions| - 1]), actions[|actions| - 1]);
    }
  }

  // ---------------------------------------------------------------- the theorems

  /**
   * In every interleaving, a row lets in at most two requests, and while it is there its `uses` is exactly
   * their number.
   */
  lemma UsesAreAdmissions(actions: seq<Action>, hash: string, exp: int)
    requires Legal(actions)
    ensures var s := After(actions);
            && Count(s.requests, LetInBy(hash, exp)) <= 2
            && (Live(s.tokens, hash, exp) ==> 1 <= s.tokens[hash].uses == Count(s.requests, LetInBy(hash, exp)))
  {
    AlwaysInv(actions);
    assert LifeOk(After(actions), hash, exp);
  }

  /** Nobody is past `admit` without an admission by some row, apart from local checks with the dummy token. */
  lemma InsideMeansAdmitted(actions: seq<Action>, r: Request)
    requires Legal(actions) && r in After(actions).requests
    ensures r.entry.Some? <==> Inside(r) && !r.dummy
  {
    AlwaysInv(actions);
  }

  /**
   * Every admission falls into the two minutes that end at its row's expiry, and different rows of one
   * token have two minutes that do not meet; so no expiry ever moves.
   */
  lemma AdmissionsAreInTime(actions: seq<Action>, q: Request, r: Request)
    requires Legal(actions) && q in After(actions).requests && r in After(actions).requests
    requires q.entry.Some? && r.entry.Some?
    ensures q.entry.value.exp - TOKEN_TTL_MS <= q.entry.value.at < q.entry.value.exp
    ensures q.hash == r.hash && q.entry.value.exp < r.entry.value.exp ==> q.entry.value.at < r.entry.value.at
    ensures q.hash == r.hash && q.entry.value.exp < r.entry.value.exp
            ==> q.entry.value.exp + TOKEN_TTL_MS <= r.entry.value.exp
  {
    AlwaysInv(actions);
    assert Disjoint(q, r) && EntryOk(q, After(actions).now) && EntryOk(r, After(actions).now);
  }

  /** The stored count is the number of slots claimed and not given back, and it never passes the cap. */
  lemma CountIsSlotsHeld(actions: seq<Action>, table: CapTable)
    requires Legal(actions)
    ensures var s := After(actions); UsedOf(s.counts, table) == Count(s.requests, HoldsSlot(table)) <= CapOf(table)
  {
    AlwaysInv(actions);
    assert SlotsOk(After(actions), table);
  }

  /** A refund always finds its slot in the count, so it never meets the guard at zero. */
  lemma RefundFindsItsSlot(actions: seq<Action>, i: nat)
    requires Legal(actions) && i < |After(actions).requests| && After(actions).requests[i].stage.Refunding?
    ensures var s := After(actions); UsedOf(s.counts, s.requests[i].table) > 0
  {
    AlwaysInv(actions);
    RefundHasSlot(After(actions), i);
  }
}
