/** demos/apollo-desk/src/worker/meter.ts: one day of the shared AI budget, with any number of callers. */
module Meter {
  import opened Options
  import NetworkKeys

  const VISITOR_BUDGET_SHARE := 0.15

  datatype Reason = Budget | Visitor

  /** The day's counters: the whole demo's, and one for each network. */
  datatype Ledger = Ledger(spent: real, visitors: map<string, real>)

  const EMPTY := Ledger(0.0, map[])

  function Positive(x: real): real {
    if x > 0.0 then x else 0.0
  }

  function VisitorSpent(l: Ledger, net: string): real {
    if net in l.visitors then l.visitors[net] else 0.0
  }

  function VisitorCap(budget: real): real {
    budget * VISITOR_BUDGET_SHARE
  }

  /** The network that a caller names, if it names one. */
  function NetworkOf(ip: string): Option<string> {
    if ip == "" then None else Some(NetworkKeys.DeskKey(ip))
  }

  function Charged(l: Ledger, net: Option<string>, amount: real): Ledger {
    match net
    case None => l.(spent := l.spent + amount)
    case Some(n) => Ledger(l.spent + amount, l.visitors[n := VisitorSpent(l, n) + amount])
  }

  /** The check of a reservation: the demo's budget first, then the network's share. */
  function RefusedFor(l: Ledger, budget: real, usd: real, net: Option<string>): Option<Reason> {
    if l.spent + Positive(usd) > budget then Some(Budget)
    else if net.Some? && VisitorSpent(l, net.value) + Positive(usd) > VisitorCap(budget) then Some(Visitor)
    else None
  }

  /** The correction of a settlement, each counter cut off at zero. */
  function Corrected(l: Ledger, net: Option<string>, delta: real): Ledger {
    match net
    case None => l.(spent := Positive(l.spent + delta))
    case Some(n) => Ledger(Positive(l.spent + delta), l.visitors[n := Positive(VisitorSpent(l, n) + delta)])
  }

  class MeterActor {
    const budget: real
    var spent: real
    var visitors: map<string, real>

    function View(): Ledger reads this { Ledger(spent, visitors) }

    constructor (budget: real)
      ensures this.budget == budget && View() == EMPTY
    {
      this.budget := budget;
      spent, visitors := 0.0, map[];
    }

    method Reserve(usd: real, ip: string) returns (refusal: Option<Reason>)
      modifies this
      ensures refusal == RefusedFor(old(View()), budget, usd, NetworkOf(ip))
      ensures View() == if refusal.Some? then old(View()) else Charged(old(View()), NetworkOf(ip), Positive(usd))
    {
      hide NetworkKeys.DeskKey;
      var add := Positive(usd);
      if spent + add > budget { return Some(Budget); }
      if ip != "" {
        var key := NetworkKeys.DeskKey(ip);
        var visitorSpent := VisitorSpent(View(), key);
        if visitorSpent + add > VisitorCap(budget) { return Some(Visitor); }
        visitors := visitors[key := visitorSpent + add];
      }
      spent := spent + add;
      refusal := None;
    }

    method Settle(reserved: real, actual: real, ip: string)
      modifies this
      ensures View() == Corrected(old(View()), NetworkOf(ip), Positive(actual) - Positive(reserved))
    {
      hide NetworkKeys.DeskKey;
      var delta := -Positive(reserved) + Positive(actual);
      spent := Positive(spent + delta);
      if ip != "" {
        var key := NetworkKeys.DeskKey(ip);
        visitors := visitors[key := Positive(VisitorSpent(View(), key) + delta)];
      }
    }

    /**
     * `metered` with nobody else calling: `actual` is the real cost, or None when the model throws. A
     * refused call leaves no trace; any other call ends up charged with its real cost.
     */
    method Metered(usd: real, actual: Option<real>, ip: string) returns (refusal: Option<Reason>)
      requires spent >= 0.0 && forall n | n in visitors :: visitors[n] >= 0.0
      modifies this
      ensures refusal == RefusedFor(old(View()), budget, usd, NetworkOf(ip))
      ensures View() == if refusal.Some? then old(View())
                        else Charged(old(View()), NetworkOf(ip), if actual.Some? then Positive(actual.value) else 0.0)
    {
      hide NetworkOf, Charged, Corrected, RefusedFor;
      refusal := Reserve(usd, ip);
      if refusal.Some? { return; }
      SettledToCost(old(View()), NetworkOf(ip), Positive(usd), if actual.Some? then Positive(actual.value) else 0.0);
      if actual.None? {
        Settle(usd, 0.0, ip);
        return;
      }
      Settle(usd, actual.value, ip);
    }
  }

  /** Reserving and then correcting by the difference charges the real cost. */
  lemma SettledToCost(l: Ledger, net: Option<string>, reserve: real, cost: real)
    requires l.spent >= 0.0 && forall n | n in l.visitors :: l.visitors[n] >= 0.0
    requires reserve >= 0.0 && cost >= 0.0
    ensures Corrected(Charged(l, net, reserve), net, cost - reserve) == Charged(l, net, cost)
  {
    var r := Corrected(Charged(l, net, reserve), net, cost - reserve);
    assert r.spent == l.spent + cost;
    if net.Some? { assert r.visitors == l.visitors[net.value := VisitorSpent(l, net.value) + cost]; }
  }

  // ---------------------------------------------------------------- many callers

  /**
   * How far a `metered` call with a reservation is: its run is awaited; it waits in one of the two settle
   * calls; it has thrown or returned; or its caller was lost on the way.
   */
  datatype Stage = Running | Catching | Returning(cost: real) | Thrown | Returned(cost: real) | Lost

  datatype Call = Denied | Call(reserve: real, net: Option<string>, stage: Stage)

  /** What the ledger holds for a call: its reservation until it settles, its real cost after. */
  function Held(c: Call): real {
    if c.Denied? || c.stage.Thrown? then 0.0
    else if c.stage.Returned? then Positive(c.stage.cost)
    else Positive(c.reserve)
  }

  /** By how much a call that returned cost more than it reserved. */
  function Overrun(c: Call): real {
    if !c.Denied? && c.stage.Returned? then Positive(Positive(c.stage.cost) - Positive(c.reserve)) else 0.0
  }

  predicate Names(c: Call, net: string) {
    !c.Denied? && c.net == Some(net)
  }

  function Total(calls: seq<Call>, f: Call -> real): real {
    if calls == [] then 0.0 else Total(calls[..|calls| - 1], f) + f(calls[|calls| - 1])
  }

  function HeldBy(net: string): Call -> real {
    (c: Call) => if Names(c, net) then Held(c) else 0.0
  }

  function OverrunBy(net: string): Call -> real {
    (c: Call) => if Names(c, net) then Overrun(c) else 0.0
  }

  datatype System = System(ledger: Ledger, calls: seq<Call>)

  /** `Run` ends the awaited run: `cost` is None when it throws. */
  datatype Action =
    | Reserve(usd: real, ip: string)
    | Run(call: nat, cost: Option<real>)
    | Settle(call: nat)
    | Lose(call: nat)

  /** The call waits in one of the two settle calls. */
  predicate Settling(c: Call) {
    !c.Denied? && (c.stage.Catching? || c.stage.Returning?)
  }

  /** The reservation is still out, and the caller can still settle it. */
  predicate Outstanding(c: Call) {
    !c.Denied? && (c.stage.Running? || c.stage.Catching? || c.stage.Returning?)
  }

  predicate Enabled(s: System, a: Action) {
    match a
    case Reserve(_, _) => true
    case Run(i, _) => i < |s.calls| && !s.calls[i].Denied? && s.calls[i].stage.Running?
    case Settle(i) => i < |s.calls| && Settling(s.calls[i])
    case Lose(i) => i < |s.calls| && Outstanding(s.calls[i])
  }

  function At(s: System, i: nat, stage: Stage): System
    requires i < |s.calls| && !s.calls[i].Denied?
  {
    s.(calls := s.calls[i := s.calls[i].(stage := stage)])
  }

  /** The amount that a settling call reports: nothing from the catch block, its cost otherwise. */
  function Actual(c: Call): real
    requires Settling(c)
  {
    if c.stage.Catching? then 0.0 else c.stage.cost
  }

  function Do(s: System, budget: real, a: Action): System
    requires Enabled(s, a)
  {
    match a
    case Reserve(usd, ip) =>
      var net := NetworkOf(ip);
      if RefusedFor(s.ledger, budget, usd, net).Some? then s.(calls := s.calls + [Denied])
      else System(Charged(s.ledger, net, Positive(usd)), s.calls + [Call(usd, net, Running)])
    case Run(i, cost) => At(s, i, if cost.None? then Catching else Returning(cost.value))
    case Settle(i) =>
      var c := s.calls[i];
      At(s, i, if c.stage.Catching? then Thrown else Returned(c.stage.cost))
        .(ledger := Corrected(s.ledger, c.net, Positive(Actual(c)) - Positive(c.reserve)))
    case Lose(i) => At(s, i, Lost)
  }

  ghost predicate Legal(budget: real, actions: seq<Action>)
    decreases |actions|, 0
  {
    actions == [] || (Legal(budget, actions[..|actions| - 1])
                      && Enabled(After(budget, actions[..|actions| - 1]), actions[|actions| - 1]))
  }

  ghost function After(budget: real, actions: seq<Action>): System
    requires Legal(budget, actions)
    decreases |actions|, 1
  {
    if actions == [] then System(EMPTY, [])
    else Do(After(budget, actions[..|actions| - 1]), budget, actions[|actions| - 1])
  }

  // ---------------------------------------------------------------- sums

  lemma TotalSnoc(calls: seq<Call>, c: Call, f: Call -> real)
    ensures Total(calls + [c], f) == Total(calls, f) + f(c)
  {
    assert (calls + [c])[..|calls|] == calls;
  }

  lemma {:induction false} TotalUpdate(calls: seq<Call>, i: nat, c: Call, f: Call -> real)
    requires i < |calls|
    ensures Total(calls[i := c], f) == Total(calls, f) - f(calls[i]) + f(c)
  {
    var n := |calls| - 1;
    if i == n {
      assert calls[i := c][..n] == calls[..n];
    } else {
      assert calls[i := c][..n] == calls[..n][i := c];
      TotalUpdate(calls[..n], i, c, f);
    }
  }

  lemma {:induction false} TotalAtLeast(calls: seq<Call>, i: nat, f: Call -> real)
    requires i < |calls| && forall c :: f(c) >= 0.0
    ensures Total(calls, f) >= f(calls[i])
  {
    var n := |calls| - 1;
    if i < n { TotalAtLeast(calls[..n], i, f); }
    else if n > 0 { TotalAtLeast(calls[..n], 0, f); }
  }

  // ---------------------------------------------------------------- the invariant

  predicate NetworkConserved(s: System, net: string) {
    VisitorSpent(s.ledger, net) == Total(s.calls, HeldBy(net))
  }

  predicate NetworkBounded(s: System, budget: real, net: string) {
    VisitorSpent(s.ledger, net) <= VisitorCap(budget) + Total(s.calls, OverrunBy(net))
  }

  ghost predicate Conserved(s: System) {
    s.ledger.spent == Total(s.calls, Held) && forall net :: NetworkConserved(s, net)
  }

  ghost predicate Bounded(s: System, budget: real) {
    s.ledger.spent <= budget + Total(s.calls, Overrun) && forall net :: NetworkBounded(s, budget, net)
  }

  lemma ChargedVisitor(l: Ledger, n: Option<string>, amount: real, net: string)
    ensures VisitorSpent(Charged(l, n, amount), net) == VisitorSpent(l, net) + if n == Some(net) then amount else 0.0
  {
  }

  lemma AcceptedFits(l: Ledger, budget: real, usd: real, n: Option<string>)
    requires RefusedFor(l, budget, usd, n).None?
    ensures n.Some? ==> VisitorSpent(l, n.value) + Positive(usd) <= VisitorCap(budget)
  {
  }

  lemma ReserveKeepsNetwork(s: System, budget: real, usd: real, ip: string, net: string)
    requires NetworkConserved(s, net) && NetworkBounded(s, budget, net)
    ensures var t := Do(s, budget, Reserve(usd, ip)); NetworkConserved(t, net) && NetworkBounded(t, budget, net)
  {
    hide NetworkOf, VisitorCap, RefusedFor, Charged, VisitorSpent, Total;
    var t, n := Do(s, budget, Reserve(usd, ip)), NetworkOf(ip);
    var c := t.calls[|s.calls|];
    TotalSnoc(s.calls, c, HeldBy(net));
    TotalSnoc(s.calls, c, OverrunBy(net));
    NoDebt(t.calls, net);
    if RefusedFor(s.ledger, budget, usd, n).None? {
      ChargedVisitor(s.ledger, n, Positive(usd), net);
      AcceptedFits(s.ledger, budget, usd, n);
    }
  }

  lemma ReserveKeeps(s: System, budget: real, usd: real, ip: string)
    requires Conserved(s) && Bounded(s, budget)
    ensures var t := Do(s, budget, Reserve(usd, ip)); Conserved(t) && Bounded(t, budget)
  {
    hide NetworkOf, VisitorCap, NetworkConserved, NetworkBounded;
    var t := Do(s, budget, Reserve(usd, ip));
    var c := t.calls[|s.calls|];
    TotalSnoc(s.calls, c, Held);
    TotalSnoc(s.calls, c, Overrun);
    NoDebt(t.calls, "");
    forall net ensures NetworkConserved(t, net) && NetworkBounded(t, budget, net) {
      ReserveKeepsNetwork(s, budget, usd, ip, net);
    }
  }

  lemma {:induction false} NoDebt(calls: seq<Call>, net: string)
    ensures Total(calls, Overrun) >= 0.0 && Total(calls, OverrunBy(net)) >= 0.0
  {
    if calls != [] { NoDebt(calls[..|calls| - 1], net); }
  }

  /** Neither cut-off at zero ever changes a counter. */
  lemma NoClamp(s: System, i: nat, actual: real)
    requires Conserved(s) && i < |s.calls| && Outstanding(s.calls[i])
    ensures var c := s.calls[i]; var delta := Positive(actual) - Positive(c.reserve);
            && s.ledger.spent + delta >= 0.0
            && (c.net.Some? ==> VisitorSpent(s.ledger, c.net.value) + delta >= 0.0)
            && Corrected(s.ledger, c.net, delta) == Charged(s.ledger, c.net, delta)
  {
    var c := s.calls[i];
    TotalAtLeast(s.calls, i, Held);
    if c.net.Some? {
      assert NetworkConserved(s, c.net.value);
      TotalAtLeast(s.calls, i, HeldBy(c.net.value));
    }
  }

  /** A call moves on, and the ledger with it. */
  lemma CallMoves(s: System, t: System, budget: real, i: nat, delta: real)
    requires Conserved(s) && Bounded(s, budget) && i < |s.calls| == |t.calls| && t.calls == s.calls[i := t.calls[i]]
    requires Outstanding(s.calls[i]) && !t.calls[i].Denied? && t.calls[i].net == s.calls[i].net
    requires Held(t.calls[i]) - Held(s.calls[i]) == delta <= Overrun(t.calls[i])
    requires t.ledger == Charged(s.ledger, s.calls[i].net, delta) || (delta == 0.0 && t.ledger == s.ledger)
    ensures Conserved(t) && Bounded(t, budget)
  {
    hide VisitorCap;
    TotalUpdate(s.calls, i, t.calls[i], Held);
    TotalUpdate(s.calls, i, t.calls[i], Overrun);
    forall net ensures NetworkConserved(t, net) && NetworkBounded(t, budget, net) {
      assert NetworkConserved(s, net) && NetworkBounded(s, budget, net);
      TotalUpdate(s.calls, i, t.calls[i], HeldBy(net));
      TotalUpdate(s.calls, i, t.calls[i], OverrunBy(net));
    }
  }

  lemma SettleKeeps(s: System, budget: real, i: nat)
    requires Conserved(s) && Bounded(s, budget) && Enabled(s, Settle(i))
    ensures var t := Do(s, budget, Settle(i)); Conserved(t) && Bounded(t, budget)
  {
    hide Conserved, Bounded, Charged, Corrected;
    var c := s.calls[i];
    NoClamp(s, i, Actual(c));
    CallMoves(s, Do(s, budget, Settle(i)), budget, i, Positive(Actual(c)) - Positive(c.reserve));
  }

  /** Neither the end of a run nor the loss of a caller moves money. */
  lemma StageKeeps(s: System, budget: real, i: nat, stage: Stage)
    requires Conserved(s) && Bounded(s, budget) && i < |s.calls| && Outstanding(s.calls[i])
    requires stage.Catching? || stage.Returning? || stage.Lost?
    ensures Conserved(At(s, i, stage)) && Bounded(At(s, i, stage), budget)
  {
    hide Conserved, Bounded, Charged;
    CallMoves(s, At(s, i, stage), budget, i, 0.0);
  }

  lemma EmptyInv(budget: real)
    requires budget > 0.0
    ensures Conserved(System(EMPTY, [])) && Bounded(System(EMPTY, []), budget)
  {
  }

  lemma {:induction false} AlwaysInv(budget: real, actions: seq<Action>)
    requires budget > 0.0 && Legal(budget, actions)
    ensures Conserved(After(budget, actions)) && Bounded(After(budget, actions), budget)
  {
    hide Conserved, Bounded, Charged, Corrected, NetworkOf;
    if actions == [] {
      EmptyInv(budget);
    } else {
      var front, a := actions[..|actions| - 1], actions[|actions| - 1];
      AlwaysInv(budget, front);
      match a
      case Reserve(usd, ip) => ReserveKeeps(After(budget, front), budget, usd, ip);
      case Run(i, cost) =>
        StageKeeps(After(budget, front), budget, i, if cost.None? then Catching else Returning(cost.value));
      case Settle(i) => SettleKeeps(After(budget, front), budget, i);
      case Lose(i) => StageKeeps(After(budget, front), budget, i, Lost);
    }
  }

  // ---------------------------------------------------------------- the theorems

  /**
   * In every interleaving the demo's counter is the sum of the settled costs and of the reservations that
   * are still out, and each network's counter is that sum over the calls that named it.
   */
  lemma SpentIsConserved(budget: real, actions: seq<Action>, net: string)
    requires budget > 0.0 && Legal(budget, actions)
    ensures var s := After(budget, actions);
            && s.ledger.spent == Total(s.calls, Held)
            && VisitorSpent(s.ledger, net) == Total(s.calls, HeldBy(net))
  {
    hide Do;
    AlwaysInv(budget, actions);
    assert NetworkConserved(After(budget, actions), net);
  }

  /** A settlement never meets its cut-off at zero. */
  lemma ClampNeverFires(budget: real, actions: seq<Action>, i: nat, actual: real)
    requires budget > 0.0 && Legal(budget, actions)
    requires i < |After(budget, actions).calls| && Outstanding(After(budget, actions).calls[i])
    ensures var s := After(budget, actions);
            Corrected(s.ledger, s.calls[i].net, Positive(actual) - Positive(s.calls[i].reserve))
            == Charged(s.ledger, s.calls[i].net, Positive(actual) - Positive(s.calls[i].reserve))
  {
    hide Corrected, Charged, Conserved, Bounded, Do, NetworkOf;
    AlwaysInv(budget, actions);
    NoClamp(After(budget, actions), i, actual);
  }

  /**
   * Spending passes the budget, and a network's share of 15 percent of it, by no more than what calls
   * cost above their reservations.
   */
  lemma OverspendIsOverrun(budget: real, actions: seq<Action>, net: string)
    requires budget > 0.0 && Legal(budget, actions)
    ensures var s := After(budget, actions);
            && s.ledger.spent <= budget + Total(s.calls, Overrun)
            && VisitorSpent(s.ledger, net) <= 0.15 * budget + Total(s.calls, OverrunBy(net))
  {
    hide Do;
    AlwaysInv(budget, actions);
    assert NetworkBounded(After(budget, actions), budget, net);
  }

  /** If no call costs more than it reserved, both limits hold. */
  lemma WithinBudget(budget: real, actions: seq<Action>, net: string)
    requires budget > 0.0 && Legal(budget, actions)
    requires forall c | c in After(budget, actions).calls && !c.Denied? && c.stage.Returned? ::
               Positive(c.stage.cost) <= Positive(c.reserve)
    ensures After(budget, actions).ledger.spent <= budget
    ensures VisitorSpent(After(budget, actions).ledger, net) <= 0.15 * budget
  {
    hide Do;
    OverspendIsOverrun(budget, actions, net);
    NoOverrun(After(budget, actions).calls, net);
  }

  lemma {:induction false} NoOverrun(calls: seq<Call>, net: string)
    requires forall c | c in calls && !c.Denied? && c.stage.Returned? :: Positive(c.stage.cost) <= Positive(c.reserve)
    ensures Total(calls, Overrun) == 0.0 && Total(calls, OverrunBy(net)) == 0.0
  {
    if calls != [] {
      assert calls[|calls| - 1] in calls;
      NoOverrun(calls[..|calls| - 1], net);
    }
  }

  // ---------------------------------------------------------------- the networks add up

  function SumOver(l: Ledger, nets: seq<string>): real {
    if nets == [] then 0.0 else SumOver(l, nets[..|nets| - 1]) + VisitorSpent(l, nets[|nets| - 1])
  }

  function HeldByAny(nets: seq<string>): Call -> real {
    (c: Call) => if !c.Denied? && c.net.Some? && c.net.value in nets then Held(c) else 0.0
  }

  lemma {:induction false} TotalSplits(calls: seq<Call>, front: seq<string>, net: string)
    requires net !in front
    ensures Total(calls, HeldByAny(front + [net])) == Total(calls, HeldByAny(front)) + Total(calls, HeldBy(net))
  {
    if calls != [] { TotalSplits(calls[..|calls| - 1], front, net); }
  }

  lemma {:induction false} TotalZero(calls: seq<Call>)
    ensures Total(calls, HeldByAny([])) == 0.0
  {
    if calls != [] { TotalZero(calls[..|calls| - 1]); }
  }

  lemma {:induction false} SumIsTotal(s: System, nets: seq<string>)
    requires Conserved(s) && forall i, j | 0 <= i < j < |nets| :: nets[i] != nets[j]
    ensures SumOver(s.ledger, nets) == Total(s.calls, HeldByAny(nets))
  {
    if nets == [] {
      TotalZero(s.calls);
    } else {
      var n := |nets| - 1;
      SumIsTotal(s, nets[..n]);
      TotalSplits(s.calls, nets[..n], nets[n]);
      assert NetworkConserved(s, nets[n]);
      assert nets[..n] + [nets[n]] == nets;
    }
  }

  lemma {:induction false} AllNamed(calls: seq<Call>, nets: seq<string>)
    requires forall c | c in calls && !c.Denied? :: c.net.Some? && c.net.value in nets
    ensures Total(calls, HeldByAny(nets)) == Total(calls, Held)
  {
    if calls != [] {
      assert calls[|calls| - 1] in calls;
      AllNamed(calls[..|calls| - 1], nets);
    }
  }

  /** When every accepted call names a network, the networks' counters add up to the demo's. */
  lemma NetworksAddUp(budget: real, actions: seq<Action>, nets: seq<string>)
    requires budget > 0.0 && Legal(budget, actions)
    requires forall i, j | 0 <= i < j < |nets| :: nets[i] != nets[j]
    requires forall c | c in After(budget, actions).calls && !c.Denied? :: c.net.Some? && c.net.value in nets
    ensures SumOver(After(budget, actions).ledger, nets) == After(budget, actions).ledger.spent
  {
    hide Do;
    AlwaysInv(budget, actions);
    SumIsTotal(After(budget, actions), nets);
    AllNamed(After(budget, actions).calls, nets);
  }

  // ---------------------------------------------------------------- every call settles once

  /** How often the ledger was told to settle call `i`. */
  function Settlements(actions: seq<Action>, i: nat): nat {
    if actions == [] then 0
    else Settlements(actions[..|actions| - 1], i) + if actions[|actions| - 1] == Settle(i) then 1 else 0
  }

  /** How the runs of call `i` ended, in order. */
  function Outcomes(actions: seq<Action>, i: nat): seq<Option<real>> {
    if actions == [] then []
    else
      var a := actions[|actions| - 1];
      Outcomes(actions[..|actions| - 1], i) + if a.Run? && a.call == i then [a.cost] else []
  }

  /** What a call's stage says of its past. */
  predicate PastOk(calls: seq<Call>, i: nat, settlements: nat, outcomes: seq<Option<real>>) {
    if i >= |calls| || calls[i].Denied? then settlements == 0 && outcomes == []
    else
      match calls[i].stage
      case Running => settlements == 0 && outcomes == []
      case Catching => settlements == 0 && outcomes == [None]
      case Returning(cost) => settlements == 0 && outcomes == [Some(cost)]
      case Thrown => settlements == 1 && outcomes == [None]
      case Returned(cost) => settlements == 1 && outcomes == [Some(cost)]
      case Lost => settlements == 0 && |outcomes| <= 1
  }

  /**
   * A call that threw or returned has settled exactly once, with nothing after a run that threw and with
   * the run's cost otherwise; every other call has not settled at all.
   */
  lemma {:induction false} SettlesOnce(budget: real, actions: seq<Action>, i: nat)
    requires Legal(budget, actions)
    ensures PastOk(After(budget, actions).calls, i, Settlements(actions, i), Outcomes(actions, i))
  {
    hide NetworkOf, RefusedFor, Charged, Corrected;
    if actions != [] {
      SettlesOnce(budget, actions[..|actions| - 1], i);
    }
  }

  // ---------------------------------------------------------------- what each step does

  /** The network whose share a call with this address uses. */
  lemma NetworkIsDeskKey(ip: string)
    ensures NetworkOf(ip) == if ip == "" then None else Some(NetworkKeys.DeskKey(ip))
  {
  }

  /**
   * A reservation is accepted exactly when the budget and, for a caller with an address, 15 percent of it for
   * the caller's network leave room for it; then both counters grow by it and nothing else changes.
   */
  lemma ReserveDecides(s: System, budget: real, usd: real, ip: string, net: string)
    ensures var add := if usd > 0.0 then usd else 0.0;
            var own := if ip != "" && net == NetworkKeys.DeskKey(ip) then add else 0.0;
            var t := Do(s, budget, Reserve(usd, ip));
            var room := s.ledger.spent + add <= budget
                        && (ip != "" ==> VisitorSpent(s.ledger, NetworkKeys.DeskKey(ip)) + add <= 0.15 * budget);
            if room then
              && t.calls == s.calls + [Call(usd, NetworkOf(ip), Running)] && t.ledger.spent == s.ledger.spent + add
              && VisitorSpent(t.ledger, net) == VisitorSpent(s.ledger, net) + own
            else t == s.(calls := s.calls + [Denied])
  {
    hide NetworkKeys.DeskKey;
  }

  /** Which of the two limits a refusal names: the budget first. */
  lemma RefusalNamesLimit(l: Ledger, budget: real, usd: real, net: string)
    requires usd >= 0.0
    ensures RefusedFor(l, budget, usd, Some(net)) == Some(Budget) <==> l.spent + usd > budget
    ensures RefusedFor(l, budget, usd, Some(net)) == Some(Visitor) <==>
            l.spent + usd <= budget && VisitorSpent(l, net) + usd > 0.15 * budget
  {
  }

  /** A settlement replaces the reservation by the real cost, in both counters, and ends the call. */
  lemma SettleReplaces(budget: real, actions: seq<Action>, i: nat, net: string)
    requires budget > 0.0 && Legal(budget, actions) && Enabled(After(budget, actions), Settle(i))
    ensures var s := After(budget, actions); var c := s.calls[i]; var t := Do(s, budget, Settle(i));
            var cost := if c.stage.Catching? then 0.0 else c.stage.cost;
            var delta := (if cost > 0.0 then cost else 0.0) - if c.reserve > 0.0 then c.reserve else 0.0;
            && t.ledger.spent == s.ledger.spent + delta
            && VisitorSpent(t.ledger, net) == VisitorSpent(s.ledger, net) + (if c.net == Some(net) then delta else 0.0)
            && t.calls == s.calls[i := c.(stage := if c.stage.Catching? then Thrown else Returned(cost))]
  {
    hide Conserved, Bounded, NetworkOf, Charged, Corrected;
    AlwaysInv(budget, actions);
    var s := After(budget, actions);
    var c := s.calls[i];
    NoClamp(s, i, Actual(c));
    ChargedCounters(s.ledger, c.net, Positive(Actual(c)) - Positive(c.reserve), net);
  }

  lemma ChargedCounters(l: Ledger, n: Option<string>, amount: real, net: string)
    ensures Charged(l, n, amount).spent == l.spent + amount
    ensures VisitorSpent(Charged(l, n, amount), net) == VisitorSpent(l, net) + if n == Some(net) then amount else 0.0
  {
  }

  /** The end of a run moves no money: it only decides which of the two settle calls follows. */
  lemma RunDecidesSettle(s: System, budget: real, i: nat, cost: Option<real>)
    requires Enabled(s, Run(i, cost))
    ensures var t := Do(s, budget, Run(i, cost));
            && t.ledger == s.ledger && Enabled(t, Settle(i))
            && t.calls == s.calls[i := s.calls[i].(stage := if cost.None? then Catching else Returning(cost.value))]
  {
  }
}
