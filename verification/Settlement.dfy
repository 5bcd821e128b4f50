/**
 * One execution among many: what it takes from its launch to its settlement, in any run of the
 * worker, whatever other executions are launched, answered and settled in between.
 */
module Settlement {
  import opened PreciseNumber
  import opened Sizing
  import opened Ledger
  import opened Confluence
  import opened Runs
  import opened Gains

  // ----- every execution settles its own -----

  // The report ends an order of execution e.
  predicate EndsOrderOf(s: State, r: Report, e: Id) {
    VerdictOn(s, r).Answered? && s.orders[r.id].execId == e
  }

  // What the event moves for execution e.
  function OwnNet(s: State, ev: Event, e: Id, a: string): int {
    if ev.Reported? && ev.report.id in s.orders && s.orders[ev.report.id].execId == e then Booked(s, ev.report, a) else 0
  }

  lemma FinishOnExecution(s: State, o: Id, f: Id, net: Amounts, failed: bool, e: Id, a: string)
    requires e in s.executions && f in s.executions
    ensures var s' := Finish(s, o, f, net, failed);
      && (e in s'.executions ==>
            && s'.executions[e].execution == s.executions[e].execution
            && Get(s'.executions[e].delta, a) == Get(s.executions[e].delta, a) + if e == f then Get(net, a) else 0)
      && (e !in s'.executions ==>
            e == f && Get(s'.balance, a) == Get(s.balance, a) + Get(s.executions[e].delta, a) + Get(net, a))
  {
    var mid := Answer(s, o, f, net, failed);
    AddAllGets(s.executions[f].delta, net, a);
    AddAllGets(s.balance, mid.executions[f].delta, a);
    hide AddAll, SymbolsOf;
  }

  lemma LaunchOnExecution(s: State, x: Execution, execId: Id, ids: seq<Id>, e: Id)
    requires |ids| == |x.trades| && e in s.executions && execId !in s.executions
    ensures var s' := Launch(s, x, execId, ids); e in s'.executions && s'.executions[e] == s.executions[e]
  {
    hide EmplaceOrders, SymbolsOf;
  }

  lemma ReportOnExecution(s: State, r: Report, e: Id, a: string)
    requires Inv(s) && e in s.executions
    ensures var s' := ReportStep(s, r);
      && (e in s'.executions ==>
            && s'.executions[e].execution == s.executions[e].execution
            && Get(s'.executions[e].delta, a) == Get(s.executions[e].delta, a) + OwnNet(s, Reported(r), e, a))
      && (e !in s'.executions ==>
            Get(s'.balance, a) == Get(s.balance, a) + Get(s.executions[e].delta, a) + OwnNet(s, Reported(r), e, a))
  {
    hide Judge, Finish, Inv, Booked;
    BookedIsNet(s, r, a);
    var v := VerdictOn(s, r);
    if v.Answered? {
      FinishOnExecution(s, r.id, s.orders[r.id].execId, v.net, v.failed, e, a);
    }
  }

  // An event moves an open execution's delta by what it moves for that execution and nothing else,
  // or settles it and pays the whole into the balance.
  lemma StepOnExecution(s: State, ev: Event, s': State, e: Id, a: string)
    requires Inv(s) && Next(s, ev, s') && e in s.executions
    ensures e in s'.executions ==>
      && s'.executions[e].execution == s.executions[e].execution
      && Get(s'.executions[e].delta, a) == Get(s.executions[e].delta, a) + OwnNet(s, ev, e, a)
    ensures e !in s'.executions ==>
      Get(s'.balance, a) == Get(s.balance, a) + Get(s.executions[e].delta, a) + OwnNet(s, ev, e, a)
  {
    hide Tick, ProfitOf, Concerned, Launch, Inv, ReportStep, Booked;
    match ev
    case Reported(r) =>
      ReportOnExecution(s, r, e, a);
    case Priced(views, symbol, execId, ids) =>
      var i := TickCases(s, views, symbol, execId, ids, s');
      if s' != s {
        LaunchOnExecution(s, FreezeView(views[i], s), execId, ids[..|views[i].path|], e);
      }
  }

  // What the events from step j up to step k moved for execution e.
  ghost function OwnMoved(states: seq<State>, events: seq<Event>, e: Id, a: string, j: nat, k: nat): int
    requires j <= k <= |events| < |states|
  {
    if j == k then 0 else OwnMoved(states, events, e, a, j, k - 1) + OwnNet(states[k - 1], events[k - 1], e, a)
  }

  ghost predicate OpenFrom(states: seq<State>, e: Id, j: nat, k: nat)
    requires j <= k < |states|
  {
    forall i :: j <= i <= k ==> e in states[i].executions
  }

  lemma {:induction false} OpenKeepsItsOwn(states: seq<State>, events: seq<Event>, e: Id, a: string, j: nat, k: nat)
    requires IsRun(states, events) && Inv(states[0]) && j <= k <= |events| && OpenFrom(states, e, j, k)
    ensures states[k].executions[e].execution == states[j].executions[e].execution
    ensures Get(states[k].executions[e].delta, a) == Get(states[j].executions[e].delta, a) + OwnMoved(states, events, e, a, j, k)
  {
    hide Inv, Next, OwnNet, Get;
    if j < k {
      OpenKeepsItsOwn(states, events, e, a, j, k - 1);
      RunKeeps(states, events, a, k - 1);
      StepOnExecution(states[k - 1], events[k - 1], states[k], e, a);
    }
  }

  // Conservation execution by execution: in every run, an execution that is open from step j and
  // settles in step m pays into the balance exactly what it held at j and what its own reports
  // moved since, in every asset, whatever became of the others.
  lemma EachSettlesItsOwn(states: seq<State>, events: seq<Event>, e: Id, a: string, j: nat, m: nat)
    requires IsRun(states, events) && Idle(states[0]) && j <= m < |events|
    requires OpenFrom(states, e, j, m) && e !in states[m + 1].executions
    ensures Get(states[m + 1].balance, a) - Get(states[m].balance, a)
         == Get(states[j].executions[e].delta, a) + OwnMoved(states, events, e, a, j, m + 1)
  {
    IdleKeepsInv(states[0]);
    hide Inv, Idle, Next, OwnNet, Get;
    RunKeeps(states, events, a, m);
    OpenKeepsItsOwn(states, events, e, a, j, m);
    StepOnExecution(states[m], events[m], states[m + 1], e, a);
  }

  // ----- orders filled as planned -----

  function PlannedUsed(t: StaticTrade): int { if t.position.Long? then Mul(t.orderQty, t.orderPrice) else t.orderQty }

  function PlannedRecv(t: StaticTrade): int { if t.position.Long? then t.orderQty else Mul(t.orderQty, t.orderPrice) }

  // The report of an order filled at its planned amounts without fees.
  predicate AsPlanned(t: StaticTrade, r: Report) {
    r.status.Filled? && r.usedQty == PlannedUsed(t) && r.recvQty == PlannedRecv(t) && r.fees == map[]
  }

  function TradeNet(t: StaticTrade, a: string): int {
    (if a == t.recvAsset then PlannedRecv(t) else 0) - (if a == t.usedAsset then PlannedUsed(t) else 0)
  }

  lemma PlannedNet(t: StaticTrade, r: Report, a: string)
    requires AsPlanned(t, r) && Judge(t, r).Answered?
    ensures Get(Judge(t, r).net, a) == TradeNet(t, a)
  {
    hide Mul;
  }

  // What the first n trades do to an asset, leaving out those whose order is still open.
  ghost function DoneNet(trades: seq<StaticTrade>, ids: seq<Id>, open: set<Id>, a: string, n: nat): int
    requires n <= |trades| == |ids|
  {
    if n == 0 then 0
    else DoneNet(trades, ids, open, a, n - 1) + if ids[n - 1] in open then 0 else TradeNet(trades[n - 1], a)
  }

  lemma {:induction false} OneMoreDone(trades: seq<StaticTrade>, ids: seq<Id>, open: set<Id>, a: string, n: nat, i: nat)
    requires n <= |trades| == |ids| && i < |ids| && Distinct(ids) && ids[i] in open
    ensures DoneNet(trades, ids, open - {ids[i]}, a, n)
         == DoneNet(trades, ids, open, a, n) + if i < n then TradeNet(trades[i], a) else 0
  {
    hide TradeNet;
    if n > 0 {
      OneMoreDone(trades, ids, open, a, n - 1, i);
    }
  }

  lemma {:induction false} NoneDone(trades: seq<StaticTrade>, ids: seq<Id>, open: set<Id>, a: string, n: nat)
    requires n <= |trades| == |ids| && forall i :: 0 <= i < |ids| ==> ids[i] in open
    ensures DoneNet(trades, ids, open, a, n) == 0
  {
    if n > 0 {
      NoneDone(trades, ids, open, a, n - 1);
    }
  }

  function Reservation(x: Execution, a: string): int { if a == x.startingAsset then x.capacity else 0 }

  // Every order still open for e is the execution's own order under that id.
  ghost predicate OwnOrders(s: State, e: Id, x: Execution, ids: seq<Id>) {
    && e in s.executions && s.executions[e].execution == x && |ids| == |x.trades| && Distinct(ids)
    && (forall o :: o in OrdersOf(s.orders, e) ==> o in ids)
    && forall i :: 0 <= i < |ids| && ids[i] in OrdersOf(s.orders, e) ==> s.orders[ids[i]].trade == x.trades[i]
  }

  // So far e has gone as planned: its delta is the reservation and the nets of the answered orders.
  ghost predicate OnPlan(s: State, e: Id, x: Execution, ids: seq<Id>, a: string) {
    && OwnOrders(s, e, x, ids)
    && Get(s.executions[e].delta, a) == Reservation(x, a) + DoneNet(x.trades, ids, OrdersOf(s.orders, e), a, |ids|)
  }

  lemma LaunchIsOnPlan(s: State, x: Execution, execId: Id, ids: seq<Id>, a: string)
    requires CountsAgree(s) && |ids| == |x.trades| && Fresh(s, execId, ids)
    ensures OnPlan(Launch(s, x, execId, ids), execId, x, ids, a)
  {
    var s' := Launch(s, x, execId, ids);
    LaunchedOrders(s, x, execId, ids);
    EmplacedFresh(s.orders, x.trades, ids, execId, |ids|);
    assert s'.executions[execId] == Entry(x, map[x.startingAsset := x.capacity]);
    assert forall i :: 0 <= i < |ids| ==> ids[i] in OrdersOf(s'.orders, execId);
    NoneDone(x.trades, ids, OrdersOf(s'.orders, execId), a, |ids|);
    hide DoneNet, EmplaceOrders, CountsAgree;
  }

  lemma ReportOnOrders(s: State, r: Report, e: Id)
    ensures var open, left := OrdersOf(s.orders, e), ReportStep(s, r).orders;
      && OrdersOf(left, e) == open - (if EndsOrderOf(s, r, e) then {r.id} else {})
      && forall o :: o in OrdersOf(left, e) ==> left[o] == s.orders[o]
  {
    ReportTakesOneOrder(s, r);
    hide ReportStep, Judge;
  }

  lemma LaunchOnOrders(s: State, x: Execution, execId: Id, ids: seq<Id>, e: Id)
    requires |ids| == |x.trades| && CountsAgree(s) && e in s.executions && execId !in s.executions
    ensures var after := Launch(s, x, execId, ids).orders;
      OrdersOf(after, e) == OrdersOf(s.orders, e) && forall o :: o in OrdersOf(after, e) ==> after[o] == s.orders[o]
  {
    LaunchedOrders(s, x, execId, ids);
    EmplacedKeys(s.orders, x.trades, ids, execId, |ids|);
    hide EmplaceOrders, CountsAgree, SymbolsOf;
  }

  // Which of e's orders an event takes off the books.
  lemma StepOnOrders(s: State, ev: Event, s': State, e: Id)
    requires Inv(s) && Next(s, ev, s') && e in s.executions
    ensures OrdersOf(s'.orders, e)
         == OrdersOf(s.orders, e) - (if ev.Reported? && EndsOrderOf(s, ev.report, e) then {ev.report.id} else {})
    ensures forall o :: o in OrdersOf(s'.orders, e) ==> s'.orders[o] == s.orders[o]
  {
    assert CountsAgree(s);
    hide OrdersOf, Tick, Eligible, Launch, ReportStep, EndsOrderOf, CountsAgree, Inv;
    match ev
    case Reported(r) =>
      ReportOnOrders(s, r, e);
    case Priced(views, symbol, execId, ids) =>
      var i := TickCases(s, views, symbol, execId, ids, s');
      if s' != s {
        LaunchOnOrders(s, FreezeView(views[i], s), execId, ids[..|views[i].path|], e);
      }
  }

  // The event does not answer an order of e otherwise than planned.
  ghost predicate GoesToPlan(s: State, ev: Event, e: Id) {
    ev.Reported? && EndsOrderOf(s, ev.report, e) ==> AsPlanned(s.orders[ev.report.id].trade, ev.report)
  }

  lemma PlannedAnswerSums(s: State, r: Report, e: Id, x: Execution, ids: seq<Id>, a: string)
    requires OwnOrders(s, e, x, ids) && EndsOrderOf(s, r, e) && AsPlanned(s.orders[r.id].trade, r)
    ensures DoneNet(x.trades, ids, OrdersOf(s.orders, e) - {r.id}, a, |ids|)
         == DoneNet(x.trades, ids, OrdersOf(s.orders, e), a, |ids|) + Get(VerdictOn(s, r).net, a)
  {
    assert r.id in OrdersOf(s.orders, e);
    hide DoneNet, TradeNet, AsPlanned, Judge, OrdersOf;
    var i :| 0 <= i < |ids| && ids[i] == r.id;
    PlannedNet(s.orders[r.id].trade, r, a);
    OneMoreDone(x.trades, ids, OrdersOf(s.orders, e), a, |ids|, i);
  }

  lemma PlannedStepSums(s: State, ev: Event, s': State, e: Id, x: Execution, ids: seq<Id>, a: string)
    requires Inv(s) && Next(s, ev, s') && OwnOrders(s, e, x, ids) && GoesToPlan(s, ev, e)
    ensures DoneNet(x.trades, ids, OrdersOf(s'.orders, e), a, |ids|)
         == DoneNet(x.trades, ids, OrdersOf(s.orders, e), a, |ids|) + OwnNet(s, ev, e, a)
  {
    hide Inv, Next, DoneNet;
    StepOnOrders(s, ev, s', e);
    if ev.Reported? && EndsOrderOf(s, ev.report, e) {
      PlannedAnswerSums(s, ev.report, e, x, ids, a);
    } else {
      assert OrdersOf(s.orders, e) - {} == OrdersOf(s.orders, e);
    }
  }

  lemma OwnOrdersStep(s: State, ev: Event, s': State, e: Id, x: Execution, ids: seq<Id>)
    requires Inv(s) && Next(s, ev, s') && OwnOrders(s, e, x, ids) && e in s'.executions
    ensures OwnOrders(s', e, x, ids)
  {
    hide Inv, Next, OrdersOf, EndsOrderOf;
    StepOnOrders(s, ev, s', e);
    StepOnExecution(s, ev, s', e, "");
  }

  lemma SettledHasNoOrders(s: State, e: Id)
    requires Inv(s) && e !in s.executions
    ensures OrdersOf(s.orders, e) == {}
  {
  }

  // An event that keeps e on plan leaves it on plan, or settles it with the net of all its trades.
  lemma PlannedStep(s: State, ev: Event, s': State, e: Id, x: Execution, ids: seq<Id>, a: string)
    requires Inv(s) && Next(s, ev, s') && OnPlan(s, e, x, ids, a) && GoesToPlan(s, ev, e)
    ensures e in s'.executions ==> OnPlan(s', e, x, ids, a)
    ensures e !in s'.executions ==>
      Get(s'.balance, a) - Get(s.balance, a) == Reservation(x, a) + DoneNet(x.trades, ids, {}, a, |ids|)
  {
    StepKeeps(s, ev, s', a);
    hide Inv, Next, DoneNet, Reservation, OwnNet, GoesToPlan, Get, OrdersOf;
    StepOnExecution(s, ev, s', e, a);
    PlannedStepSums(s, ev, s', e, x, ids, a);
    if e in s'.executions {
      OwnOrdersStep(s, ev, s', e, x, ids);
    } else {
      SettledHasNoOrders(s', e);
    }
  }

  lemma {:induction false} OnPlanThroughRun(states: seq<State>, events: seq<Event>, e: Id, x: Execution, ids: seq<Id>,
                                            a: string, j: nat, k: nat)
    requires IsRun(states, events) && Inv(states[0]) && j <= k <= |events| && OpenFrom(states, e, j, k)
    requires OnPlan(states[j], e, x, ids, a)
    requires forall i :: j <= i < k ==> GoesToPlan(states[i], events[i], e)
    ensures OnPlan(states[k], e, x, ids, a)
  {
    hide Inv, Next, OnPlan, GoesToPlan;
    if j < k {
      OnPlanThroughRun(states, events, e, x, ids, a, j, k - 1);
      RunKeeps(states, events, a, k - 1);
      PlannedStep(states[k - 1], events[k - 1], states[k], e, x, ids, a);
    }
  }

  // ----- a launched execution never plans a loss -----

  // Filled as planned, the execution returns at least its reservation in every asset and more in
  // the starting one.
  ghost predicate Gainful(x: Execution, ids: seq<Id>, a: string)
    requires |ids| == |x.trades|
  {
    var net := DoneNet(x.trades, ids, {}, a, |ids|);
    net >= 0 && (a == x.startingAsset ==> net > 0)
  }

  lemma FrozenNet(l: Leg, qty: int, a: string)
    ensures TradeNet(FreezeLeg(l, qty), a) == LegNet(l, qty, a)
  {
    hide Mul;
  }

  lemma {:induction false} AllDoneIsPlanNet(path: Path, qtys: seq<int>, profit: int, ids: seq<Id>, a: string, n: nat)
    requires n <= |path| == |qtys| == |ids| && |path| > 0
    ensures DoneNet(Freeze(path, qtys, profit).trades, ids, {}, a, n) == PlanNet(path, qtys, a, n)
  {
    hide TradeNet, LegNet, FreezeLeg, Capacity;
    if n > 0 {
      AllDoneIsPlanNet(path, qtys, profit, ids, a, n - 1);
      FrozenNet(path[n - 1], qtys[n - 1], a);
    }
  }

  lemma EligibleIsGainful(v: View, s: State, ids: seq<Id>, a: string)
    requires Eligible(v, s) && ClosedChain(v.path) && |ids| == |v.path|
    ensures Gainful(FreezeView(v, s), ids, a)
  {
    EligiblePlanIsSound(v, s);
    var qtys := PlanOf(v, s);
    hide Eligible, PlanOf, ProfitOf, Placed, WithinFilters, OffStepAt, PlanNet, DoneNet, Covered, ClosedChain;
    ChainGains(v.path, qtys, s.balance[v.path[0].usedAsset], a);
    AllDoneIsPlanNet(v.path, qtys, ProfitOf(v, s), ids, a, |ids|);
  }

  lemma LaunchedOnPlan(s: State, v: View, execId: Id, ids: seq<Id>, s': State, a: string)
    requires Inv(s) && Fresh(s, execId, ids) && Eligible(v, s) && ClosedChain(v.path) && Launches(s, v, execId, ids, s')
    ensures var x, used := FreezeView(v, s), ids[..|v.path|];
      OnPlan(s', execId, x, used, a) && Gainful(x, used, a)
  {
    var x, used := FreezeView(v, s), ids[..|v.path|];
    FreshPrefix(s, execId, ids, |v.path|);
    hide Eligible, Fresh, ClosedChain, Gainful, OnPlan, CountsAgree, ReservationsAgree;
    EligibleIsGainful(v, s, used, a);
    LaunchIsOnPlan(s, x, execId, used, a);
  }

  // In a run from empty books, step j launches v and step m settles it; in between its orders are
  // answered as planned, and anything may happen to other executions.
  ghost predicate LaunchedAndSettled(states: seq<State>, events: seq<Event>, j: nat, m: nat, v: View) {
    && IsRun(states, events) && Idle(states[0]) && j < m < |events|
    && events[j].Priced? && Eligible(v, states[j])
    && Launches(states[j], v, events[j].execId, events[j].ids, states[j + 1])
    && OpenFrom(states, events[j].execId, j + 1, m) && events[j].execId !in states[m + 1].executions
    && forall i :: j < i <= m ==> GoesToPlan(states[i], events[i], events[j].execId)
  }

  // In every run, however many other executions are launched, answered and settled meanwhile: an
  // eligible opportunity on a closed chain that is launched in step j, whose orders fill as planned,
  // and that settles in step m pays back no less than it reserved in any asset, and more than it
  // reserved in the starting asset.
  lemma LaunchNeverLoses(states: seq<State>, events: seq<Event>, j: nat, m: nat, v: View, a: string)
    requires LaunchedAndSettled(states, events, j, m, v) && ClosedChain(v.path)
    ensures var x := FreezeView(v, states[j]);
      var paid := Get(states[m + 1].balance, a) - Get(states[m].balance, a);
      paid >= Reservation(x, a) && (a == x.startingAsset ==> paid > Reservation(x, a))
  {
    hide Inv, Idle, Next, ProfitOf, FreezeView, Launch, ClosedChain, OnPlan, GoesToPlan, Get, Reservation;
    var e, x, ids := events[j].execId, FreezeView(v, states[j]), events[j].ids[..|v.path|];
    IdleKeepsInv(states[0]);
    RunKeeps(states, events, a, m);
    LaunchedInRun(states, events, j, v, a);
    OnPlanThroughRun(states, events, e, x, ids, a, j + 1, m);
    PlannedStep(states[m], events[m], states[m + 1], e, x, ids, a);
  }

  lemma LaunchedInRun(states: seq<State>, events: seq<Event>, j: nat, v: View, a: string)
    requires IsRun(states, events) && Inv(states[0]) && j < |events|
    requires events[j].Priced? && Eligible(v, states[j]) && ClosedChain(v.path)
    requires Launches(states[j], v, events[j].execId, events[j].ids, states[j + 1])
    ensures var x, used := FreezeView(v, states[j]), events[j].ids[..|v.path|];
      OnPlan(states[j + 1], events[j].execId, x, used, a) && Gainful(x, used, a)
  {
    hide Inv, Fresh, Tick, Eligible, ClosedChain, Gainful, OnPlan;
    RunKeeps(states, events, a, j);
    assert Next(states[j], events[j], states[j + 1]);
    LaunchedOnPlan(states[j], v, events[j].execId, events[j].ids, states[j + 1], a);
  }

  // ----- no run makes any asset poorer -----

  // What the open executions have reserved of an asset.
  ghost function Reserved(executions: map<Id, Entry>, a: string): int {
    Outstanding(map e | e in executions :: AtLaunch(executions[e].execution), a)
  }

  function AtLaunch(x: Execution): Entry { Entry(x, map[x.startingAsset := x.capacity]) }

  lemma ReservedWithout(m: map<Id, Entry>, e: Id, a: string)
    requires e in m
    ensures Reserved(m, a) == Reservation(m[e].execution, a) + Reserved(m - {e}, a)
  {
    var launched := map f | f in m :: AtLaunch(m[f].execution);
    OutstandingWithout(launched, e, a);
    assert launched - {e} == map f | f in m - {e} :: AtLaunch((m - {e})[f].execution);
  }

  lemma NothingReserved(m: map<Id, Entry>, a: string)
    requires m == map[]
    ensures Reserved(m, a) == 0
  {
    assert (map e | e in m :: AtLaunch(m[e].execution)).Keys == {};
  }

  lemma ReservedSame(m: map<Id, Entry>, n: map<Id, Entry>, a: string)
    requires m.Keys == n.Keys && forall e :: e in m ==> m[e].execution == n[e].execution
    ensures Reserved(m, a) == Reserved(n, a)
  {
    assert (map e | e in m :: AtLaunch(m[e].execution)) == map e | e in n :: AtLaunch(n[e].execution);
  }

  // Views are closed chains and orders fill as planned.
  ghost predicate ToPlan(s: State, ev: Event) {
    match ev
    case Priced(views, _, _, _) => forall i :: 0 <= i < |views| ==> ClosedChain(views[i].path)
    case Reported(r) => VerdictOn(s, r).Answered? ==> AsPlanned(s.orders[r.id].trade, r)
  }

  // Every open execution is on plan and gainful; plans names the order ids of each.
  ghost predicate AllOnPlan(s: State, plans: map<Id, seq<Id>>, a: string) {
    && plans.Keys == s.executions.Keys
    && forall e :: e in plans ==> PlanHeld(s, e, plans[e], a)
  }

  ghost predicate PlanHeld(s: State, e: Id, ids: seq<Id>, a: string) {
    && e in s.executions && OnPlan(s, e, s.executions[e].execution, ids, a)
    && Gainful(s.executions[e].execution, ids, a)
  }

  // One if the step settles an execution that started in the asset.
  ghost function Settles(s: State, s': State, a: string): nat {
    if exists e :: e in s.executions && e !in s'.executions && s.executions[e].execution.startingAsset == a then 1 else 0
  }

  lemma HeldStep(s: State, ev: Event, s': State, e: Id, ids: seq<Id>, a: string)
    requires Inv(s) && Next(s, ev, s') && PlanHeld(s, e, ids, a) && ToPlan(s, ev)
    ensures e in s'.executions ==>
      s'.executions[e].execution == s.executions[e].execution && PlanHeld(s', e, ids, a)
    ensures e !in s'.executions ==> var x := s.executions[e].execution;
      Get(s'.balance, a) - Get(s.balance, a) >= Reservation(x, a) + if a == x.startingAsset then 1 else 0
  {
    hide Inv, Next, OnPlan, Get, Reservation, AsPlanned, VerdictOn, ClosedChain;
    StepOnExecution(s, ev, s', e, a);
    PlannedStep(s, ev, s', e, s.executions[e].execution, ids, a);
  }

  // The balance with what is reserved never falls, and rises by the gain of what settles.
  ghost predicate NotPoorer(s: State, s': State, a: string) {
    Get(s'.balance, a) + Reserved(s'.executions, a) >= Get(s.balance, a) + Reserved(s.executions, a) + Settles(s, s', a)
  }

  lemma KeptNotPoorer(s: State, s': State, a: string)
    requires s'.executions.Keys == s.executions.Keys && s'.balance == s.balance
    requires forall e :: e in s.executions ==> s'.executions[e].execution == s.executions[e].execution
    ensures NotPoorer(s, s', a)
  {
    ReservedSame(s.executions, s'.executions, a);
    hide Reserved;
  }

  lemma SettledNotPoorer(s: State, s': State, f: Id, a: string)
    requires f in s.executions && s'.executions == s.executions - {f}
    requires var x := s.executions[f].execution;
      Get(s'.balance, a) - Get(s.balance, a) >= Reservation(x, a) + if a == x.startingAsset then 1 else 0
    ensures NotPoorer(s, s', a)
  {
    ReservedWithout(s.executions, f, a);
    hide Reserved, Reservation, Get;
  }

  lemma ReportedNotPoorer(s: State, r: Report, plans: map<Id, seq<Id>>, a: string)
    requires Inv(s) && AllOnPlan(s, plans, a) && ToPlan(s, Reported(r))
    ensures NotPoorer(s, ReportStep(s, r), a)
  {
    hide Inv, Reserved, PlanHeld, ToPlan, Reservation, NotPoorer, Finish, Judge, Get;
    var s' := ReportStep(s, r);
    if VerdictOn(s, r).Answered? {
      var f := s.orders[r.id].execId;
      AnsweredExecutions(s, r);
      HeldStep(s, Reported(r), s', f, plans[f], a);
      if f in s'.executions {
        KeptNotPoorer(s, s', a);
      } else {
        SettledNotPoorer(s, s', f, a);
      }
    } else {
      KeptNotPoorer(s, s, a);
    }
  }

  // Answering an order either keeps all executions, or settles its own and touches no other.
  lemma AnsweredExecutions(s: State, r: Report)
    requires Inv(s) && VerdictOn(s, r).Answered?
    ensures var f, s' := s.orders[r.id].execId, ReportStep(s, r);
      && f in s.executions
      && if f in s'.executions then
           && s'.executions.Keys == s.executions.Keys && s'.balance == s.balance
           && forall e :: e in s.executions ==> s'.executions[e].execution == s.executions[e].execution
         else s'.executions == s.executions - {f}
  {
    hide AddAll, SymbolsOf, Judge, Inv;
  }

  lemma LaunchedNotPoorer(s: State, x: Execution, execId: Id, ids: seq<Id>, a: string)
    requires |ids| == |x.trades| && execId !in s.executions
    ensures NotPoorer(s, Launch(s, x, execId, ids), a)
  {
    var s' := Launch(s, x, execId, ids);
    hide EmplaceOrders, SymbolsOf, Reserved;
    assert s'.executions - {execId} == s.executions;
    ReservedWithout(s'.executions, execId, a);
  }

  lemma TickNotPoorer(s: State, views: seq<View>, symbol: string, execId: Id, ids: seq<Id>, s': State, a: string)
    requires execId !in s.executions && Tick(s, views, symbol, execId, ids, s')
    ensures NotPoorer(s, s', a)
  {
    hide NotPoorer, Tick, Concerned, ProfitOf, Launch;
    var i := TickCases(s, views, symbol, execId, ids, s');
    if s' == s {
      KeptNotPoorer(s, s, a);
    } else {
      LaunchedNotPoorer(s, FreezeView(views[i], s), execId, ids[..|views[i].path|], a);
    }
  }

  lemma StepNotPoorer(s: State, ev: Event, s': State, plans: map<Id, seq<Id>>, a: string)
    requires Inv(s) && Next(s, ev, s') && AllOnPlan(s, plans, a) && ToPlan(s, ev)
    ensures NotPoorer(s, s', a)
  {
    hide Inv, AllOnPlan, ToPlan, NotPoorer, ReportStep, Tick, Distinct;
    match ev
    case Reported(r) =>
      ReportedNotPoorer(s, r, plans, a);
    case Priced(views, symbol, execId, ids) =>
      TickNotPoorer(s, views, symbol, execId, ids, s', a);
  }

  // An execution opened by the step is on plan under the ids generated for it.
  lemma OpenedOnPlan(s: State, ev: Event, s': State, e: Id, a: string) returns (ids: seq<Id>)
    requires Inv(s) && Next(s, ev, s') && ToPlan(s, ev) && e !in s.executions && e in s'.executions
    ensures PlanHeld(s', e, ids, a)
  {
    match ev
    case Reported(r) =>
      NoneOpened(s, r, e);
      assert false;
    case Priced(views, symbol, execId, generated) =>
      var i := TickCases(s, views, symbol, execId, generated, s');
      var x := FreezeView(views[i], s);
      ids := generated[..|views[i].path|];
      assert s'.executions == s.executions[execId := AtLaunch(x)];
      LaunchedOnPlan(s, views[i], execId, generated, s', a);
      hide Inv, Next, Tick, Eligible, Launch, OnPlan, Gainful;
  }

  lemma NoneOpened(s: State, r: Report, e: Id)
    requires e !in s.executions
    ensures e !in ReportStep(s, r).executions
  {
  }

  lemma PlansStep(s: State, ev: Event, s': State, plans: map<Id, seq<Id>>, a: string) returns (plans': map<Id, seq<Id>>)
    requires Inv(s) && Next(s, ev, s') && AllOnPlan(s, plans, a) && ToPlan(s, ev)
    ensures AllOnPlan(s', plans', a)
  {
    hide Inv, Next, ToPlan, PlanHeld;
    forall e | e in s'.executions
      ensures exists ids :: PlanHeld(s', e, ids, a)
    {
      if e in s.executions {
        HeldStep(s, ev, s', e, plans[e], a);
      } else {
        var ids := OpenedOnPlan(s, ev, s', e, a);
      }
    }
    plans' := map e | e in s'.executions :: var ids :| PlanHeld(s', e, ids, a); ids;
  }

  // The number of executions started in the asset that settled in the first k steps.
  ghost function Settled(states: seq<State>, a: string, k: nat): nat
    requires k < |states|
  {
    if k == 0 then 0 else Settled(states, a, k - 1) + Settles(states[k - 1], states[k], a)
  }

  lemma {:induction false} RunNotPoorer(states: seq<State>, events: seq<Event>, a: string, k: nat)
    returns (plans: map<Id, seq<Id>>)
    requires IsRun(states, events) && Idle(states[0]) && k <= |events|
    requires forall i :: 0 <= i < |events| ==> ToPlan(states[i], events[i])
    ensures AllOnPlan(states[k], plans, a)
    ensures Get(states[k].balance, a) + Reserved(states[k].executions, a) >= Get(states[0].balance, a) + Settled(states, a, k)
  {
    hide Inv, Idle, Next, ToPlan, AllOnPlan, Get, Reserved, Settles;
    if k == 0 {
      plans := map[];
      IdleOnPlan(states[0], a);
    } else {
      IdleKeepsInv(states[0]);
      var before := RunNotPoorer(states, events, a, k - 1);
      RunKeeps(states, events, a, k - 1);
      StepNotPoorer(states[k - 1], events[k - 1], states[k], before, a);
      plans := PlansStep(states[k - 1], events[k - 1], states[k], before, a);
    }
  }

  lemma IdleOnPlan(s: State, a: string)
    requires Idle(s)
    ensures AllOnPlan(s, map[], a) && Reserved(s.executions, a) == 0
  {
    NothingReserved(s.executions, a);
  }

  // Over every run of closed-chain opportunities whose orders fill as planned, with any number of
  // executions in flight: balance and reservations together never fall below the initial balance,
  // in any asset, and have grown by at least one unit for every settled execution started in it.
  // With no order outstanding that is the balance alone.
  lemma NoRunGetsPoorer(states: seq<State>, events: seq<Event>, a: string, k: nat)
    requires IsRun(states, events) && Idle(states[0]) && k <= |events|
    requires forall i :: 0 <= i < |events| ==> ToPlan(states[i], events[i])
    ensures Get(states[k].balance, a) + Reserved(states[k].executions, a) >= Get(states[0].balance, a) + Settled(states, a, k)
    ensures states[k].orders == map[] ==> Get(states[k].balance, a) >= Get(states[0].balance, a) + Settled(states, a, k)
  {
    hide ToPlan, Settled, Get, Next;
    var plans := RunNotPoorer(states, events, a, k);
    if states[k].orders == map[] {
      EveryRunConserves(states, events, a, k);
      NothingReserved(states[k].executions, a);
    }
  }
}
