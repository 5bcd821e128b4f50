/**
 * The worker as a transition system: price ticks that may launch an execution and reports that
 * answer orders, with what every run of it keeps.
 */
module Runs {
  import opened PreciseNumber
  import opened Sizing
  import opened Ledger
  import opened Confluence

  // ----- price ticks -----

  // An opportunity as one tick sees it.
  datatype View = View(path: Path, relativeValue: nat, commission: nat)

  predicate Funded(v: View, s: State) {
    v.path != [] && v.path[0].usedAsset in s.balance && s.balance[v.path[0].usedAsset] > 0
  }

  function PlanOf(v: View, s: State): (qtys: seq<int>)
    requires Funded(v, s)
    ensures |qtys| == |v.path|
  {
    Plan(v.path, s.balance[v.path[0].usedAsset])
  }

  function ProfitOf(v: View, s: State): int
    requires Funded(v, s)
  {
    Profit(v.path, PlanOf(v, s), v.relativeValue, v.commission)
  }

  predicate Eligible(v: View, s: State) {
    Funded(v, s) && ProfitOf(v, s) > 0 && forall l :: l in v.path ==> l.symbol !in s.reserved
  }

  function FreezeLeg(l: Leg, qty: int): StaticTrade {
    StaticTrade(l.symbol, l.position, qty, l.price, l.usedAsset, l.recvAsset)
  }

  function Freeze(path: Path, qtys: seq<int>, profit: int): (x: Execution)
    requires |qtys| == |path| > 0
    ensures |x.trades| == |path|
    ensures forall i :: 0 <= i < |path| ==> x.trades[i] == FreezeLeg(path[i], qtys[i])
  {
    Execution(path[0].usedAsset, profit, Capacity(path, qtys),
              seq(|path|, i requires 0 <= i < |path| => FreezeLeg(path[i], qtys[i])))
  }

  function FreezeView(v: View, s: State): Execution
    requires Funded(v, s)
  {
    Freeze(v.path, PlanOf(v, s), ProfitOf(v, s))
  }

  // The views that a price change of `symbol` concerns, by brute force.
  ghost function Concerned(views: seq<View>, symbol: string): set<nat> {
    set i: nat | i < |views| && exists l :: l in views[i].path && l.symbol == symbol
  }

  ghost predicate Best(views: seq<View>, visited: set<nat>, s: State, i: nat) {
    && i in visited && i < |views| && Eligible(views[i], s)
    && forall j :: j in visited && j < |views| && Eligible(views[j], s) ==>
         ProfitOf(views[j], s) <= ProfitOf(views[i], s)
  }

  // A tick launches a most profitable eligible opportunity among those concerned, or nothing.
  ghost predicate Tick(s: State, views: seq<View>, symbol: string, execId: Id, ids: seq<Id>, s': State) {
    var visited := Concerned(views, symbol);
    if forall i :: i in visited ==> !Eligible(views[i], s) then s' == s
    else exists i: nat :: Best(views, visited, s, i) && Launches(s, views[i], execId, ids, s')
  }

  // s' is s with the view's plan launched under the generated ids.
  ghost predicate Launches(s: State, v: View, execId: Id, ids: seq<Id>, s': State)
    requires Eligible(v, s)
  {
    |v.path| <= |ids| && s' == Launch(s, FreezeView(v, s), execId, ids[..|v.path|])
  }

  // The plan behind any launch: affordable, covered leg by leg, returning more of the starting
  // asset than it takes, and accepted by the exchange except for LONG orders above price 1 that
  // are cut to an offer off the step.
  lemma EligiblePlanIsSound(v: View, s: State)
    requires Eligible(v, s)
    ensures var qtys, n := PlanOf(v, s), |v.path|;
      && 0 <= FreezeView(v, s).capacity <= s.balance[v.path[0].usedAsset]
      && v.path[n - 1].Recv(qtys[n - 1]) > Capacity(v.path, qtys)
      && v.path[n - 1].Recv(qtys[n - 1]) * (K - n * v.commission) > Capacity(v.path, qtys) * K
      && Covered(v.path, qtys, s.balance[v.path[0].usedAsset])
      && (forall i: nat :: i < n ==> Placed(v.path[i], qtys[i]))
      && (forall i: nat :: i < n ==>
            (WithinFilters(v.path[i], qtys[i]) <==> !OffStepAt(v.path, s.balance[v.path[0].usedAsset], i)))
  {
    hide Profit, Plan, Capacity, Covered, Placed, WithinFilters, OffStepAt;
    ProfitablePlanIsSound(v.path, s.balance[v.path[0].usedAsset], v.relativeValue, v.commission);
  }

  // What the view's plan gains of the starting asset, and that gain in the common value unit.
  ghost function GainOf(v: View, s: State): int
    requires Funded(v, s)
  {
    NetGain(v.path, PlanOf(v, s), v.commission)
  }

  ghost function WorthOf(v: View, s: State): int
    requires Funded(v, s)
  {
    GainOf(v, s) * v.relativeValue / K
  }

  lemma PlanAmounts(v: View, s: State)
    requires Funded(v, s)
    ensures var qtys, n := PlanOf(v, s), |v.path|;
      v.path[n - 1].Recv(qtys[n - 1]) >= 0 && v.path[0].Used(qtys[0]) >= 0
  {
    var budget := s.balance[v.path[0].usedAsset];
    var start := Backward(v.path, Forward(v.path, budget));
    BudgetSoundness(v.path, budget);
    SizedCoveredAt(v.path, start, 0);
    SizedCoveredAt(v.path, start, |v.path| - 1);
    hide Mul, Backward, Forward, Sized, Leg.Used, Leg.Recv;
  }

  lemma AtLeastOneUnit(g: int, value: nat)
    ensures g >= 0 ==> (g * value / K > 0 <==> g * value >= K)
    ensures g < 0 ==> g * value < K
  {
    if g >= 0 {
      QuotientUnique(g * value, K, 1);
      QuotientUnique(g * value, K, 0);
    } else {
      ScaleMonotone(g, 0, value);
    }
  }

  // A view may be launched exactly when the starting asset is in the balance, the commissions leave
  // something, the net gain is worth at least one smallest unit, and no symbol is reserved. The
  // profit it is ranked by is then that worth.
  lemma EligibleExactly(v: View, s: State)
    ensures Eligible(v, s) <==>
      && Funded(v, s) && |v.path| * v.commission <= K && GainOf(v, s) * v.relativeValue >= K
      && forall l :: l in v.path ==> l.symbol !in s.reserved
    ensures Eligible(v, s) ==> GainOf(v, s) > 0 && ProfitOf(v, s) == WorthOf(v, s) > 0
  {
    hide Plan, Profit, NetGain;
    if Funded(v, s) {
      PlanAmounts(v, s);
      ProfitIsValue(v.path, PlanOf(v, s), v.relativeValue, v.commission);
      AtLeastOneUnit(GainOf(v, s), v.relativeValue);
    }
  }

  // The best view is worth at least as much as any other that could be launched.
  lemma BestIsWorthMost(views: seq<View>, visited: set<nat>, s: State, i: nat, j: nat)
    requires Best(views, visited, s, i) && j in visited && j < |views| && Eligible(views[j], s)
    ensures WorthOf(views[j], s) <= WorthOf(views[i], s)
  {
    EligibleExactly(views[i], s);
    EligibleExactly(views[j], s);
    hide ProfitOf, WorthOf, Funded;
  }

  // A tick that changes the books launches a view of which no concerned one that could be launched
  // is worth more.
  lemma TickLaunchesWorthiest(s: State, views: seq<View>, symbol: string, execId: Id, ids: seq<Id>, s': State)
    returns (i: nat)
    requires Tick(s, views, symbol, execId, ids, s') && s' != s
    ensures i < |views| && (exists l :: l in views[i].path && l.symbol == symbol)
    ensures Eligible(views[i], s) && Launches(s, views[i], execId, ids, s')
    ensures forall j: nat :: j < |views| && (exists l :: l in views[j].path && l.symbol == symbol) && Eligible(views[j], s) ==>
      WorthOf(views[j], s) <= WorthOf(views[i], s)
  {
    i := TickCases(s, views, symbol, execId, ids, s');
    hide Tick, Launches, Eligible, WorthOf, ProfitOf;
    forall j: nat | j < |views| && (exists l :: l in views[j].path && l.symbol == symbol) && Eligible(views[j], s)
      ensures WorthOf(views[j], s) <= WorthOf(views[i], s)
    {
      BestIsWorthMost(views, Concerned(views, symbol), s, i, j);
    }
  }

  lemma FrozenSymbols(v: View, s: State)
    requires Eligible(v, s)
    ensures SymbolsOf(FreezeView(v, s).trades) !! s.reserved
  {
    var x := FreezeView(v, s);
    forall t | t in x.trades
      ensures t.symbol !in s.reserved
    {
      var i :| 0 <= i < |x.trades| && x.trades[i] == t;
      assert t.symbol == v.path[i].symbol && v.path[i] in v.path;
    }
  }

  // A launch debits the starting asset only, by what the first order spends, and never below zero.
  lemma LaunchNeverOverdraws(s: State, v: View, execId: Id, ids: seq<Id>, s': State)
    requires Eligible(v, s) && Launches(s, v, execId, ids, s')
    ensures Get(s'.balance, v.path[0].usedAsset) == Get(s.balance, v.path[0].usedAsset) - v.path[0].Used(PlanOf(v, s)[0])
    ensures 0 <= Get(s'.balance, v.path[0].usedAsset) <= Get(s.balance, v.path[0].usedAsset)
    ensures forall a :: a != v.path[0].usedAsset ==> Get(s'.balance, a) == Get(s.balance, a)
  {
    EligiblePlanIsSound(v, s);
    assert FreezeView(v, s).capacity == v.path[0].Used(PlanOf(v, s)[0]);
    hide Eligible, ProfitOf, PlanOf, Capacity, Covered, Placed, WithinFilters, OffStepAt;
  }

  // What a tick may do: nothing, or a launch of a best eligible view.
  lemma TickCases(s: State, views: seq<View>, symbol: string, execId: Id, ids: seq<Id>, s': State) returns (i: nat)
    requires Tick(s, views, symbol, execId, ids, s')
    ensures s' == s || (Best(views, Concerned(views, symbol), s, i) && Launches(s, views[i], execId, ids, s'))
  {
    hide Eligible;
    i := 0;
    if exists j :: j in Concerned(views, symbol) && Eligible(views[j], s) {
      i :| Best(views, Concerned(views, symbol), s, i) && Launches(s, views[i], execId, ids, s');
    }
  }

  // In any tick an asset's balance either stays or falls to a value that is still nonnegative.
  lemma TickNeverOverdraws(s: State, views: seq<View>, symbol: string, execId: Id, ids: seq<Id>, s': State, a: string)
    requires Tick(s, views, symbol, execId, ids, s')
    ensures Get(s'.balance, a) == Get(s.balance, a) || 0 <= Get(s'.balance, a) <= Get(s.balance, a)
  {
    var i := TickCases(s, views, symbol, execId, ids, s');
    hide Tick, Eligible, Launches;
    if s' != s {
      LaunchNeverOverdraws(s, views[i], execId, ids, s');
    }
  }

  // ----- conservation -----

  // What the open executions still hold or owe of an asset.
  ghost function Outstanding(executions: map<Id, Entry>, a: string): int
    decreases |executions|
  {
    if executions == map[] then 0
    else
      var e :| e in executions;
      Get(executions[e].delta, a) + Outstanding(executions - {e}, a)
  }

  lemma RemovedSize<V>(m: map<Id, V>, e: Id)
    requires e in m
    ensures |m - {e}| == |m| - 1
  {
    assert m.Keys == (m - {e}).Keys + {e};
  }

  lemma {:induction false} OutstandingWithout(m: map<Id, Entry>, e: Id, a: string)
    requires e in m
    ensures Outstanding(m, a) == Get(m[e].delta, a) + Outstanding(m - {e}, a)
    decreases |m|
  {
    var f :| f in m && Outstanding(m, a) == Get(m[f].delta, a) + Outstanding(m - {f}, a);
    if f != e {
      RemovedSize(m, f);
      RemovedSize(m, e);
      OutstandingWithout(m - {f}, e, a);
      OutstandingWithout(m - {e}, f, a);
      assert m - {f} - {e} == m - {e} - {f};
    }
  }

  ghost function Wealth(s: State, a: string): int { Get(s.balance, a) + Outstanding(s.executions, a) }

  // What a full fill brings in of an asset: the fee delta, less what was used, plus what was received.
  function FillAmount(t: StaticTrade, r: Report, a: string): int {
    Get(r.fees, a) - (if a == t.usedAsset then r.usedQty else 0) + (if a == t.recvAsset then r.recvQty else 0)
  }

  // What a report brings in of an asset: something only for a known order filled in full.
  function Booked(s: State, r: Report, a: string): int {
    if r.id in s.orders && r.status.Filled? && !Partial(s.orders[r.id].trade, r) then FillAmount(s.orders[r.id].trade, r, a)
    else 0
  }

  lemma BookedIsNet(s: State, r: Report, a: string)
    requires Inv(s)
    ensures Booked(s, r, a) == var v := VerdictOn(s, r); if v.Ignored? then 0 else Get(v.net, a)
  {
    hide ReservationsAgree;
  }

  lemma OutstandingUpdated(m: map<Id, Entry>, e: Id, entry: Entry, a: string)
    requires e in m
    ensures Outstanding(m[e := entry], a) == Outstanding(m, a) - Get(m[e].delta, a) + Get(entry.delta, a)
  {
    OutstandingWithout(m, e, a);
    OutstandingWithout(m[e := entry], e, a);
    assert m[e := entry] - {e} == m - {e};
  }

  lemma ReportConserves(s: State, r: Report, a: string)
    requires Inv(s)
    ensures Wealth(ReportStep(s, r), a) == Wealth(s, a) + Booked(s, r, a)
  {
    BookedIsNet(s, r, a);
    var v := VerdictOn(s, r);
    if v.Answered? {
      var e := s.orders[r.id].execId;
      var mid := Answer(s, r.id, e, v.net, v.failed);
      hide AddAll, Judge, Inv, Booked;
      AddAllGets(s.executions[e].delta, v.net, a);
      OutstandingUpdated(s.executions, e, mid.executions[e], a);
      OutstandingWithout(mid.executions, e, a);
      AddAllGets(mid.balance, mid.executions[e].delta, a);
    }
  }

  lemma LaunchConserves(s: State, x: Execution, execId: Id, ids: seq<Id>, a: string)
    requires |ids| == |x.trades| && execId !in s.executions
    ensures Wealth(Launch(s, x, execId, ids), a) == Wealth(s, a)
  {
    var s' := Launch(s, x, execId, ids);
    OutstandingWithout(s'.executions, execId, a);
    assert s'.executions - {execId} == s.executions;
  }

  // ----- runs -----

  datatype Event = Priced(views: seq<View>, symbol: string, execId: Id, ids: seq<Id>) | Reported(report: Report)

  // Prices may be anything at each tick. Generated ids are fresh.
  ghost predicate Next(s: State, e: Event, s': State) {
    match e
    case Priced(views, symbol, execId, ids) => Fresh(s, execId, ids) && Tick(s, views, symbol, execId, ids, s')
    case Reported(r) => s' == ReportStep(s, r)
  }

  ghost predicate IsRun(states: seq<State>, events: seq<Event>) {
    && |states| == |events| + 1
    && forall i :: 0 <= i < |events| ==> Next(states[i], events[i], states[i + 1])
  }

  // Sum of what the accepted reports of the run's first k events moved.
  ghost function Moved(states: seq<State>, events: seq<Event>, a: string, k: nat): int
    requires k <= |events| < |states|
  {
    if k == 0 then 0
    else Moved(states, events, a, k - 1)
         + if events[k - 1].Reported? then Booked(states[k - 1], events[k - 1].report, a) else 0
  }

  lemma FreshPrefix(s: State, execId: Id, ids: seq<Id>, n: nat)
    requires Fresh(s, execId, ids) && n <= |ids|
    ensures Fresh(s, execId, ids[..n])
  {
  }

  lemma StepKeeps(s: State, e: Event, s': State, a: string)
    requires Inv(s) && Next(s, e, s')
    ensures Inv(s')
    ensures Wealth(s', a) == Wealth(s, a) + if e.Reported? then Booked(s, e.report, a) else 0
  {
    match e
    case Reported(r) =>
      ReportKeepsInv(s, r);
      ReportConserves(s, r, a);
    case Priced(views, symbol, execId, ids) =>
      var i := TickCases(s, views, symbol, execId, ids, s');
      if s' != s {
        LaunchStepKeeps(s, views[i], execId, ids, s', a);
      }
  }

  lemma LaunchStepKeeps(s: State, v: View, execId: Id, ids: seq<Id>, s': State, a: string)
    requires Inv(s) && Fresh(s, execId, ids) && Eligible(v, s) && Launches(s, v, execId, ids, s')
    ensures Inv(s') && Wealth(s', a) == Wealth(s, a)
  {
    var x, used := FreezeView(v, s), ids[..|v.path|];
    FreshPrefix(s, execId, ids, |v.path|);
    FrozenSymbols(v, s);
    LaunchKeepsInvExactly(s, x, execId, used);
    assert execId !in s.executions;
    hide Eligible, Inv, Fresh, SymbolsOf;
    LaunchConserves(s, x, execId, used, a);
  }

  lemma {:induction false} RunKeeps(states: seq<State>, events: seq<Event>, a: string, k: nat)
    requires IsRun(states, events) && Inv(states[0]) && k <= |events|
    ensures Inv(states[k])
    ensures Wealth(states[k], a) == Wealth(states[0], a) + Moved(states, events, a, k)
  {
    hide Next, Inv, Wealth, Booked, Get;
    if k > 0 {
      RunKeeps(states, events, a, k - 1);
      StepKeeps(states[k - 1], events[k - 1], states[k], a);
    }
  }

  lemma IdleKeepsInv(s: State)
    requires Idle(s)
    ensures Inv(s)
  {
    assert forall e :: e !in s.executions;
  }

  // Over every run from an empty book: the books stay consistent, no report lookup fails, balance
  // plus what is open equals the initial balance plus what the accepted fills moved, and with
  // nothing open the balance is exactly that.
  lemma EveryRunConserves(states: seq<State>, events: seq<Event>, a: string, k: nat)
    requires IsRun(states, events) && Idle(states[0]) && k <= |events|
    ensures Inv(states[k])
    ensures forall r :: Throws(states[k], r) ==> r.status.Unknown?
    ensures Get(states[k].balance, a) + Outstanding(states[k].executions, a)
         == Get(states[0].balance, a) + Moved(states, events, a, k)
    ensures states[k].orders == map[] ==>
      Idle(states[k]) && Get(states[k].balance, a) == Get(states[0].balance, a) + Moved(states, events, a, k)
  {
    IdleKeepsInv(states[0]);
    RunKeeps(states, events, a, k);
    forall r | Throws(states[k], r)
      ensures r.status.Unknown?
    {
      ReportKeepsInv(states[k], r);
    }
    if states[k].orders == map[] {
      NoOrdersMeansIdle(states[k]);
    }
  }

  // ----- a launch and its answers undo each other -----

  // Reports that end the execution's orders, one each, in order.
  ghost predicate Answers(x: Execution, ids: seq<Id>, rs: seq<Report>) {
    |ids| == |rs| == |x.trades|
    && forall i :: 0 <= i < |rs| ==> rs[i].id == ids[i] && Judge(x.trades[i], rs[i]).Answered?
  }

  function DeltaAfter(x: Execution, rs: seq<Report>, k: nat): Amounts
    requires k <= |rs| == |x.trades| && forall i :: 0 <= i < |rs| ==> Judge(x.trades[i], rs[i]).Answered?
  {
    if k == 0 then map[x.startingAsset := x.capacity]
    else AddAll(DeltaAfter(x, rs, k - 1), Judge(x.trades[k - 1], rs[k - 1]).net)
  }

  predicate FailedBefore(x: Execution, rs: seq<Report>, k: nat)
    requires k <= |rs| == |x.trades| && forall i :: 0 <= i < |rs| ==> Judge(x.trades[i], rs[i]).Answered?
  {
    k > 0 && (FailedBefore(x, rs, k - 1) || Judge(x.trades[k - 1], rs[k - 1]).failed)
  }

  // The books with one execution open on top of s.
  function Open(s: State, x: Execution, execId: Id, orders: map<Id, Order>, delta: Amounts, count: int, failed: bool): State {
    State(Credit(s.balance, x.startingAsset, -x.capacity), s.reserved + SymbolsOf(x.trades),
          s.executions[execId := Entry(x, delta)], orders, s.pending[execId := count],
          if failed then s.failed + {execId} else s.failed)
  }

  lemma OpenAnswer(s: State, x: Execution, execId: Id, orders: map<Id, Order>, delta: Amounts, count: int, failed: bool,
                   o: Id, net: Amounts, refused: bool)
    ensures Answer(Open(s, x, execId, orders, delta, count, failed), o, execId, net, refused)
         == Open(s, x, execId, orders - {o}, AddAll(delta, net), count - 1, failed || refused)
  {
    hide AddAll, Credit, SymbolsOf;
  }

  lemma OpenSettle(s: State, x: Execution, execId: Id, delta: Amounts, failed: bool)
    requires CountsAgree(s) && execId !in s.executions && SymbolsOf(x.trades) !! s.reserved
    ensures Settle(Open(s, x, execId, s.orders, delta, 0, failed), execId)
         == s.(balance := AddAll(Credit(s.balance, x.startingAsset, -x.capacity), delta))
  {
    hide AddAll, Credit, SymbolsOf;
    var l := Settle(Open(s, x, execId, s.orders, delta, 0, failed), execId);
    assert execId !in s.pending && execId !in s.failed;
    assert l.executions == s.executions;
    assert l.pending == s.pending;
    assert l.failed == s.failed;
    assert l.reserved == s.reserved;
  }

  // The launched orders not among the first k.
  function Left(s: State, x: Execution, execId: Id, ids: seq<Id>, k: nat): map<Id, Order>
    requires k <= |ids| == |x.trades|
  {
    if k == 0 then EmplaceOrders(s.orders, x.trades, ids, execId, |ids|)
    else Left(s, x, execId, ids, k - 1) - {ids[k - 1]}
  }

  lemma {:induction false} LeftHas(s: State, x: Execution, execId: Id, ids: seq<Id>, k: nat)
    requires k <= |ids| == |x.trades| && Fresh(s, execId, ids)
    ensures forall i :: k <= i < |ids| ==>
      ids[i] in Left(s, x, execId, ids, k) && Left(s, x, execId, ids, k)[ids[i]] == Order(x.trades[i], execId)
  {
    if k == 0 {
      EmplacedFresh(s.orders, x.trades, ids, execId, |ids|);
    } else {
      LeftHas(s, x, execId, ids, k - 1);
    }
  }

  lemma {:induction false} LeftIs(s: State, x: Execution, execId: Id, ids: seq<Id>, k: nat)
    requires k <= |ids| == |x.trades| && Fresh(s, execId, ids)
    ensures Left(s, x, execId, ids, k)
         == EmplaceOrders(s.orders, x.trades, ids, execId, |ids|) - (set i | 0 <= i < k :: ids[i])
  {
    var gone := set i | 0 <= i < k :: ids[i];
    if k == 0 {
      assert gone == {};
    } else {
      LeftIs(s, x, execId, ids, k - 1);
      assert gone == (set i | 0 <= i < k - 1 :: ids[i]) + {ids[k - 1]};
    }
  }

  lemma NoneLeft(s: State, x: Execution, execId: Id, ids: seq<Id>)
    requires |ids| == |x.trades| && Fresh(s, execId, ids)
    ensures Left(s, x, execId, ids, |ids|) == s.orders
  {
    LeftIs(s, x, execId, ids, |ids|);
    EmplacedKeys(s.orders, x.trades, ids, execId, |ids|);
  }

  // The launched books with the first k of the execution's orders answered and not yet settled.
  function Midway(s: State, x: Execution, execId: Id, ids: seq<Id>, rs: seq<Report>, k: nat): State
    requires k <= |ids| == |rs| == |x.trades| && forall i :: 0 <= i < |rs| ==> Judge(x.trades[i], rs[i]).Answered?
  {
    Open(s, x, execId, Left(s, x, execId, ids, k), DeltaAfter(x, rs, k), |ids| - k, FailedBefore(x, rs, k))
  }

  // The books as they were, with the reservation taken and everything returned.
  function Completed(s: State, x: Execution, rs: seq<Report>): State
    requires |rs| == |x.trades| && forall i :: 0 <= i < |rs| ==> Judge(x.trades[i], rs[i]).Answered?
  {
    s.(balance := AddAll(Credit(s.balance, x.startingAsset, -x.capacity), DeltaAfter(x, rs, |rs|)))
  }

  lemma MidwayVerdict(s: State, x: Execution, execId: Id, ids: seq<Id>, rs: seq<Report>, k: nat)
    requires Fresh(s, execId, ids) && Answers(x, ids, rs) && k < |ids|
    ensures var m := Midway(s, x, execId, ids, rs, k);
      VerdictOn(m, rs[k]) == Judge(x.trades[k], rs[k]) && m.orders[rs[k].id].execId == execId && execId in m.executions
  {
    LeftHas(s, x, execId, ids, k);
    hide Judge, Left, DeltaAfter, FailedBefore, Credit, SymbolsOf, Fresh;
  }

  lemma MidwayAnswer(s: State, x: Execution, execId: Id, ids: seq<Id>, rs: seq<Report>, k: nat)
    requires Answers(x, ids, rs) && k < |ids|
    ensures var v, next := Judge(x.trades[k], rs[k]), Midway(s, x, execId, ids, rs, k + 1);
      && Answer(Midway(s, x, execId, ids, rs, k), ids[k], execId, v.net, v.failed) == next
      && execId in next.pending && next.pending[execId] == |ids| - (k + 1)
  {
    hide Judge, AddAll, Answer, Credit, SymbolsOf;
    var v := Judge(x.trades[k], rs[k]);
    OpenAnswer(s, x, execId, Left(s, x, execId, ids, k), DeltaAfter(x, rs, k), |ids| - k, FailedBefore(x, rs, k),
               ids[k], v.net, v.failed);
  }

  lemma MidwayDone(s: State, x: Execution, execId: Id, ids: seq<Id>, rs: seq<Report>)
    requires Fresh(s, execId, ids) && |ids| == |rs| == |x.trades|
    requires forall i :: 0 <= i < |rs| ==> Judge(x.trades[i], rs[i]).Answered?
    ensures execId !in s.executions
    ensures Midway(s, x, execId, ids, rs, |ids|)
         == Open(s, x, execId, s.orders, DeltaAfter(x, rs, |ids|), 0, FailedBefore(x, rs, |ids|))
  {
    assert execId !in s.executions;
    hide Judge, Open, DeltaAfter, FailedBefore, Left, Fresh;
    NoneLeft(s, x, execId, ids);
  }

  lemma MidwaySettle(s: State, x: Execution, execId: Id, ids: seq<Id>, rs: seq<Report>)
    requires CountsAgree(s) && Fresh(s, execId, ids) && Answers(x, ids, rs)
    requires SymbolsOf(x.trades) !! s.reserved
    ensures var m := Midway(s, x, execId, ids, rs, |ids|);
      execId in m.executions && Settle(m, execId) == Completed(s, x, rs)
  {
    hide Judge, Left, DeltaAfter, FailedBefore, AddAll, Credit, Settle, CountsAgree, Fresh, SymbolsOf, Midway;
    MidwayDone(s, x, execId, ids, rs);
    OpenSettle(s, x, execId, DeltaAfter(x, rs, |ids|), FailedBefore(x, rs, |ids|));
  }

  lemma MidwayStep(s: State, x: Execution, execId: Id, ids: seq<Id>, rs: seq<Report>, k: nat)
    requires CountsAgree(s) && Fresh(s, execId, ids) && Answers(x, ids, rs) && k < |ids|
    requires SymbolsOf(x.trades) !! s.reserved
    ensures ReportStep(Midway(s, x, execId, ids, rs, k), rs[k])
         == if k + 1 == |ids| then Completed(s, x, rs) else Midway(s, x, execId, ids, rs, k + 1)
  {
    hide Judge, VerdictOn, Answer, Settle, Midway, Completed, CountsAgree, Fresh, SymbolsOf;
    MidwayVerdict(s, x, execId, ids, rs, k);
    MidwayAnswer(s, x, execId, ids, rs, k);
    if k + 1 == |ids| {
      MidwaySettle(s, x, execId, ids, rs);
    }
  }

  lemma {:induction false} AnswersComplete(s: State, x: Execution, execId: Id, ids: seq<Id>, rs: seq<Report>, k: nat)
    requires CountsAgree(s) && Fresh(s, execId, ids) && Answers(x, ids, rs) && k < |ids|
    requires SymbolsOf(x.trades) !! s.reserved
    ensures ReportRun(Midway(s, x, execId, ids, rs, k), rs[k..]) == Completed(s, x, rs)
    decreases |ids| - k
  {
    MidwayStep(s, x, execId, ids, rs, k);
    hide CountsAgree, Fresh, Midway, Completed, ReportStep;
    assert rs[k..][0] == rs[k] && rs[k..][1..] == rs[k + 1..];
    if k + 1 < |ids| {
      AnswersComplete(s, x, execId, ids, rs, k + 1);
    }
  }

  // Launching an execution and then answering all its orders amounts to moving the balance by the
  // net fills: every map and the reserved set are as if it had never been launched. The answers may
  // come in any order and repeatedly, among acknowledgements, partial fills and whatever reports
  // the orders of other executions get.
  lemma LaunchThenAnswers(s: State, x: Execution, execId: Id, ids: seq<Id>, rs: seq<Report>, delivered: seq<Report>)
    requires Inv(s) && Fresh(s, execId, ids) && Answers(x, ids, rs) && |ids| > 0
    requires SymbolsOf(x.trades) !! s.reserved
    requires forall r :: r in rs ==> r in delivered
    requires forall r :: r in delivered && r.id in ids && VerdictOn(Launch(s, x, execId, ids), r).Answered? ==> r in rs
    ensures ReportRun(Launch(s, x, execId, ids), delivered) == ReportRun(Completed(s, x, rs), delivered)
  {
    LaunchKeepsInvExactly(s, x, execId, ids);
    AnswersComplete(s, x, execId, ids, rs, 0);
    assert rs[0..] == rs;
    assert Launch(s, x, execId, ids) == Midway(s, x, execId, ids, rs, 0);
    assert Distinct(ids);
    hide Inv, Fresh, Launch, Midway, Completed, VerdictOn;
    AnswersOnePerOrder(x, ids, rs);
    assert forall r :: r in rs ==> r.id in ids;
    hide Answers;
    DeliverEarly(Launch(s, x, execId, ids), rs, delivered);
  }

  // The balance has no say in what a report does, and moves by the same amounts whatever it was.
  lemma StepIgnoresBalance(s: State, b: Amounts, r: Report, a: string)
    ensures var s', t' := ReportStep(s, r), ReportStep(s.(balance := b), r);
      t' == s'.(balance := t'.balance) && Get(t'.balance, a) - Get(b, a) == Get(s'.balance, a) - Get(s.balance, a)
  {
    var t, v := s.(balance := b), VerdictOn(s, r);
    assert VerdictOn(t, r) == v;
    if v.Answered? {
      var e := s.orders[r.id].execId;
      var mid := Answer(s, r.id, e, v.net, v.failed);
      AddAllGets(s.balance, mid.executions[e].delta, a);
      AddAllGets(b, mid.executions[e].delta, a);
      hide AddAll, Judge, SymbolsOf;
    }
  }

  lemma {:induction false} RunIgnoresBalance(s: State, b: Amounts, rs: seq<Report>, a: string)
    ensures var s', t' := ReportRun(s, rs), ReportRun(s.(balance := b), rs);
      t' == s'.(balance := t'.balance) && Get(t'.balance, a) - Get(b, a) == Get(s'.balance, a) - Get(s.balance, a)
    decreases |rs|
  {
    hide ReportStep, Get;
    if rs != [] {
      StepIgnoresBalance(s, b, rs[0], a);
      RunIgnoresBalance(ReportStep(s, rs[0]), ReportStep(s.(balance := b), rs[0]).balance, rs[1..], a);
    }
  }

  lemma AnswersOnePerOrder(x: Execution, ids: seq<Id>, rs: seq<Report>)
    requires Answers(x, ids, rs) && Distinct(ids)
    ensures forall r1, r2 :: r1 in rs && r2 in rs && r1.id == r2.id ==> r1 == r2
  {
    hide Judge;
  }

  // Reports that end one order differently do matter: the first one delivered decides, so two
  // answers that move different amounts of some asset leave different books in the two orders.
  lemma ConflictingAnswersMatter(s: State, r1: Report, r2: Report, a: string)
    requires Inv(s) && r1.id == r2.id && VerdictOn(s, r1).Answered? && VerdictOn(s, r2).Answered?
    requires Booked(s, r1, a) != Booked(s, r2, a)
    ensures ReportStep(ReportStep(s, r1), r2) == ReportStep(s, r1)
    ensures ReportStep(ReportStep(s, r1), r2) != ReportStep(ReportStep(s, r2), r1)
  {
    AnsweredIsIgnored(s, r1, r2);
    AnsweredIsIgnored(s, r2, r1);
    IgnoredStep(ReportStep(s, r1), r2);
    IgnoredStep(ReportStep(s, r2), r1);
    ReportConserves(s, r1, a);
    ReportConserves(s, r2, a);
    hide Inv, ReportStep, Wealth, Booked, VerdictOn;
  }
}
