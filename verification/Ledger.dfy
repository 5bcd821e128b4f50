/**
 * The worker's books as a value: balance, reserved symbols, open executions, outstanding orders,
 * pending counts and failed executions, with the two transitions that change them.
 */
module Ledger {
  import opened Sizing

  type Id = string
  type Amounts = map<string, int>

  // ----- amounts per asset: reading an absent asset gives zero, writing creates it -----

  function Get(m: Amounts, a: string): int { if a in m then m[a] else 0 }

  function Credit(m: Amounts, a: string, v: int): Amounts { m[a := Get(m, a) + v] }

  function AddAll(m: Amounts, d: Amounts): Amounts {
    map a | a in m.Keys + d.Keys :: Get(m, a) + Get(d, a)
  }

  // ----- records -----

  datatype StaticTrade = StaticTrade(symbol: string, position: Position, orderQty: int, orderPrice: int,
                                     usedAsset: string, recvAsset: string)

  datatype Execution = Execution(startingAsset: string, totalProfit: int, capacity: int, trades: seq<StaticTrade>)

  datatype Status = New | Filled | Expired | Rejected | Unknown

  datatype Report = Report(id: Id, status: Status, usedQty: int, recvQty: int, fees: Amounts)

  datatype Entry = Entry(execution: Execution, delta: Amounts)

  datatype Order = Order(trade: StaticTrade, execId: Id)

  datatype State = State(balance: Amounts, reserved: set<string>, executions: map<Id, Entry>,
                         orders: map<Id, Order>, pending: map<Id, int>, failed: set<Id>)

  function SymbolsOf(trades: seq<StaticTrade>): set<string> { set t | t in trades :: t.symbol }

  // ----- launching an execution -----

  // `emplace`: an existing key keeps its value.
  function Emplace<V>(m: map<Id, V>, k: Id, v: V): map<Id, V> { if k in m then m else m[k := v] }

  function EmplaceOrders(orders: map<Id, Order>, trades: seq<StaticTrade>, ids: seq<Id>, execId: Id, n: nat): map<Id, Order>
    requires n <= |ids| && n <= |trades|
  {
    if n == 0 then orders
    else Emplace(EmplaceOrders(orders, trades, ids, execId, n - 1), ids[n - 1], Order(trades[n - 1], execId))
  }

  function Launch(s: State, x: Execution, execId: Id, ids: seq<Id>): State
    requires |ids| == |x.trades|
  {
    State(
      Credit(s.balance, x.startingAsset, -x.capacity),
      s.reserved + SymbolsOf(x.trades),
      Emplace(s.executions, execId, Entry(x, map[x.startingAsset := x.capacity])),
      EmplaceOrders(s.orders, x.trades, ids, execId, |ids|),
      s.pending[execId := |x.trades|],
      s.failed)
  }

  // ----- processing a report -----

  // What a full fill changes: the fees, the amount used and the amount received.
  function NetOf(t: StaticTrade, r: Report): Amounts {
    Credit(Credit(r.fees, t.usedAsset, -r.usedQty), t.recvAsset, r.recvQty)
  }

  datatype Verdict = Ignored | Answered(net: Amounts, failed: bool)

  // A report either ends its order or changes nothing; a partial fill changes nothing.
  function Judge(t: StaticTrade, r: Report): Verdict {
    match r.status
    case New => Ignored
    case Unknown => Ignored
    case Rejected => Answered(map[], true)
    case Expired => Answered(map[], true)
    case Filled =>
      if (if t.position.Long? then r.recvQty else r.usedQty) < t.orderQty then Ignored
      else Answered(NetOf(t, r), false)
  }

  function Settle(s: State, execId: Id): State
    requires execId in s.executions
  {
    var entry := s.executions[execId];
    s.(executions := s.executions - {execId}, pending := s.pending - {execId}, failed := s.failed - {execId},
       balance := AddAll(s.balance, entry.delta), reserved := s.reserved - SymbolsOf(entry.execution.trades))
  }

  function PendingOf(s: State, execId: Id): int { if execId in s.pending then s.pending[execId] else 0 }

  // The order leaves the books and its execution is one answer closer to settling.
  function Answer(s: State, orderId: Id, execId: Id, net: Amounts, failed: bool): State
    requires execId in s.executions
  {
    var entry := s.executions[execId];
    s.(executions := s.executions[execId := Entry(entry.execution, AddAll(entry.delta, net))],
       failed := if failed then s.failed + {execId} else s.failed,
       orders := s.orders - {orderId},
       pending := s.pending[execId := PendingOf(s, execId) - 1])
  }

  function Finish(s: State, orderId: Id, execId: Id, net: Amounts, failed: bool): State
    requires execId in s.executions
  {
    var s' := Answer(s, orderId, execId, net, failed);
    if s'.pending[execId] == 0 then Settle(s', execId) else s'
  }

  // True when `processReport` ends in an exception: a known order whose execution is missing, or
  // one reported with an unknown status.
  predicate Throws(s: State, r: Report) {
    r.id in s.orders && (s.orders[r.id].execId !in s.executions || r.status.Unknown?)
  }

  function VerdictOn(s: State, r: Report): Verdict {
    if r.id !in s.orders || s.orders[r.id].execId !in s.executions then Ignored
    else Judge(s.orders[r.id].trade, r)
  }

  function ReportStep(s: State, r: Report): State {
    var v := VerdictOn(s, r);
    if v.Ignored? then s else Finish(s, r.id, s.orders[r.id].execId, v.net, v.failed)
  }

  function ReportRun(s: State, rs: seq<Report>): State
    decreases |rs|
  {
    if rs == [] then s else ReportRun(ReportStep(s, rs[0]), rs[1..])
  }

  // ----- the invariant -----

  ghost function OrdersOf(orders: map<Id, Order>, execId: Id): set<Id> {
    set o | o in orders && orders[o].execId == execId
  }

  ghost predicate CountsAgree(s: State) {
    && s.pending.Keys == s.executions.Keys
    && s.failed <= s.executions.Keys
    && (forall o :: o in s.orders ==> s.orders[o].execId in s.executions)
    && (forall e :: e in s.executions ==> s.pending[e] == |OrdersOf(s.orders, e)| > 0)
  }

  ghost function Holds(s: State, e: Id): set<string>
    requires e in s.executions
  {
    SymbolsOf(s.executions[e].execution.trades)
  }

  // The reserved symbols are those of the open executions, each held by exactly one of them.
  ghost predicate ReservationsAgree(s: State) {
    && (forall sym :: sym in s.reserved <==> exists e :: e in s.executions && sym in Holds(s, e))
    && (forall e, f :: e in s.executions && f in s.executions && e != f ==> Holds(s, e) !! Holds(s, f))
  }

  ghost predicate Inv(s: State) { CountsAgree(s) && ReservationsAgree(s) }

  ghost predicate Idle(s: State) {
    s.executions == map[] && s.orders == map[] && s.pending == map[] && s.failed == {} && s.reserved == {}
  }

  // ----- launches keep the invariant exactly when the generated ids are fresh -----

  ghost predicate Distinct<T>(xs: seq<T>) { forall i, j :: 0 <= i < j < |xs| ==> xs[i] != xs[j] }

  ghost predicate Fresh(s: State, execId: Id, ids: seq<Id>) {
    execId !in s.executions && Distinct(ids) && forall i :: 0 <= i < |ids| ==> ids[i] !in s.orders
  }

  lemma {:induction false} EmplacedKeys(orders: map<Id, Order>, trades: seq<StaticTrade>, ids: seq<Id>, execId: Id, n: nat)
    requires n <= |ids| && n <= |trades|
    ensures var m := EmplaceOrders(orders, trades, ids, execId, n);
      && m.Keys == orders.Keys + (set i | 0 <= i < n :: ids[i])
      && (forall o :: o in orders ==> m[o] == orders[o])
      && (forall o :: o in m && o !in orders ==> m[o].execId == execId)
  {
    if n > 0 {
      EmplacedKeys(orders, trades, ids, execId, n - 1);
      assert (set i | 0 <= i < n :: ids[i]) == (set i | 0 <= i < n - 1 :: ids[i]) + {ids[n - 1]};
    }
  }

  lemma {:induction false} EmplacedFresh(orders: map<Id, Order>, trades: seq<StaticTrade>, ids: seq<Id>, execId: Id, n: nat)
    requires n <= |ids| && n <= |trades| && Distinct(ids)
    requires forall i :: 0 <= i < |ids| ==> ids[i] !in orders
    ensures forall i :: 0 <= i < n ==>
      ids[i] in EmplaceOrders(orders, trades, ids, execId, n)
      && EmplaceOrders(orders, trades, ids, execId, n)[ids[i]] == Order(trades[i], execId)
  {
    if n > 0 {
      EmplacedFresh(orders, trades, ids, execId, n - 1);
      EmplacedKeys(orders, trades, ids, execId, n - 1);
    }
  }

  // A prefix has as many distinct elements as positions exactly when it repeats none.
  lemma {:induction false} DistinctCount<T>(xs: seq<T>, n: nat)
    requires n <= |xs|
    ensures |set i | 0 <= i < n :: xs[i]| <= n
    ensures |set i | 0 <= i < n :: xs[i]| == n <==> forall i, j :: 0 <= i < j < n ==> xs[i] != xs[j]
  {
    if n > 0 {
      DistinctCount(xs, n - 1);
      var before := set i | 0 <= i < n - 1 :: xs[i];
      assert (set i | 0 <= i < n :: xs[i]) == before + {xs[n - 1]};
    }
  }

  lemma SubsetSmaller<T>(a: set<T>, b: set<T>)
    requires a <= b
    ensures |a| <= |b| && (|a| == |b| ==> a == b)
  {
    assert b == a + (b - a);
  }

  lemma LaunchedOrders(s: State, x: Execution, execId: Id, ids: seq<Id>)
    requires CountsAgree(s) && |ids| == |x.trades| && execId !in s.executions
    ensures var s' := Launch(s, x, execId, ids);
      && OrdersOf(s'.orders, execId) == (set i | 0 <= i < |ids| :: ids[i]) - s.orders.Keys
      && forall e :: e in s.executions ==> OrdersOf(s'.orders, e) == OrdersOf(s.orders, e)
  {
    EmplacedKeys(s.orders, x.trades, ids, execId, |ids|);
  }

  lemma LaunchCounts(s: State, x: Execution, execId: Id, ids: seq<Id>)
    requires CountsAgree(s) && |ids| == |x.trades| && execId !in s.executions
    ensures |OrdersOf(Launch(s, x, execId, ids).orders, execId)| <= |ids|
    ensures |OrdersOf(Launch(s, x, execId, ids).orders, execId)| == |ids| <==> Fresh(s, execId, ids)
  {
    LaunchedOrders(s, x, execId, ids);
    FreshCount(s.orders.Keys, ids);
  }

  lemma FreshCount(taken: set<Id>, ids: seq<Id>)
    ensures |(set i | 0 <= i < |ids| :: ids[i]) - taken| <= |ids|
    ensures |(set i | 0 <= i < |ids| :: ids[i]) - taken| == |ids|
       <==> Distinct(ids) && forall i :: 0 <= i < |ids| ==> ids[i] !in taken
  {
    var elems := set i | 0 <= i < |ids| :: ids[i];
    DistinctCount(ids, |ids|);
    SubsetSmaller(elems - taken, elems);
    assert elems - taken == elems <==> forall i :: 0 <= i < |ids| ==> ids[i] !in taken;
  }

  lemma LaunchCountAt(s: State, x: Execution, execId: Id, ids: seq<Id>, e: Id)
    requires CountsAgree(s) && |ids| == |x.trades| > 0 && Fresh(s, execId, ids)
    requires e == execId || e in s.executions
    ensures Launch(s, x, execId, ids).pending[e] == |OrdersOf(Launch(s, x, execId, ids).orders, e)| > 0
  {
    LaunchCounts(s, x, execId, ids);
    LaunchedOrders(s, x, execId, ids);
  }

  lemma LaunchCountsAgree(s: State, x: Execution, execId: Id, ids: seq<Id>)
    requires CountsAgree(s) && |ids| == |x.trades| > 0 && Fresh(s, execId, ids)
    ensures CountsAgree(Launch(s, x, execId, ids))
  {
    hide Fresh, OrdersOf;
    var s' := Launch(s, x, execId, ids);
    assert s'.executions.Keys == s.executions.Keys + {execId};
    EmplacedKeys(s.orders, x.trades, ids, execId, |ids|);
    forall e | e in s'.executions
      ensures s'.pending[e] == |OrdersOf(s'.orders, e)| > 0
    {
      LaunchCountAt(s, x, execId, ids, e);
    }
  }

  // A repeated execution id keeps the old entry, so the new symbols belong to no execution.
  lemma LaunchOnOpenExecution(s: State, x: Execution, execId: Id, ids: seq<Id>)
    requires Inv(s) && |ids| == |x.trades| > 0 && SymbolsOf(x.trades) !! s.reserved && execId in s.executions
    ensures !ReservationsAgree(Launch(s, x, execId, ids))
  {
    var s', sym := Launch(s, x, execId, ids), x.trades[0].symbol;
    assert sym in SymbolsOf(x.trades);
    assert s'.executions == s.executions;
    assert forall e :: e in s.executions ==> Holds(s', e) == Holds(s, e);
    assert sym in s'.reserved && sym !in s.reserved;
  }

  // A launch on unreserved symbols keeps the books consistent if and only if every generated id is
  // fresh. (`emplace` keeps old entries, so a repeated id loses an order or an execution.)
  lemma LaunchKeepsInvExactly(s: State, x: Execution, execId: Id, ids: seq<Id>)
    requires Inv(s) && |ids| == |x.trades| > 0 && SymbolsOf(x.trades) !! s.reserved
    ensures Inv(Launch(s, x, execId, ids)) <==> Fresh(s, execId, ids)
  {
    if execId in s.executions {
      LaunchOnOpenExecution(s, x, execId, ids);
    } else if Fresh(s, execId, ids) {
      LaunchCountsAgree(s, x, execId, ids);
      LaunchReserves(s, x, execId, ids);
    } else {
      LaunchCounts(s, x, execId, ids);
      assert execId in Launch(s, x, execId, ids).executions;
    }
  }

  lemma LaunchReserves(s: State, x: Execution, execId: Id, ids: seq<Id>)
    requires ReservationsAgree(s) && |ids| == |x.trades| && SymbolsOf(x.trades) !! s.reserved
    requires execId !in s.executions
    ensures ReservationsAgree(Launch(s, x, execId, ids))
  {
    var s' := Launch(s, x, execId, ids);
    assert Holds(s', execId) == SymbolsOf(x.trades);
    assert forall e :: e in s.executions ==> e in s'.executions && Holds(s', e) == Holds(s, e);
    assert forall e :: e in s'.executions ==> e == execId || e in s.executions;
    forall e | e in s.executions
      ensures Holds(s, e) <= s.reserved
    {
    }
  }

  // ----- reports keep the invariant -----

  lemma FinishCounts(s: State, o: Id, net: Amounts, failed: bool)
    requires CountsAgree(s) && o in s.orders
    ensures var e := s.orders[o].execId; var s' := Answer(s, o, e, net, failed);
      && OrdersOf(s'.orders, e) == OrdersOf(s.orders, e) - {o}
      && s'.pending[e] == |OrdersOf(s'.orders, e)|
      && forall f :: f in s.executions && f != e ==> OrdersOf(s'.orders, f) == OrdersOf(s.orders, f)
  {
    var e := s.orders[o].execId;
    var s' := Answer(s, o, e, net, failed);
    assert o in OrdersOf(s.orders, e);
    assert OrdersOf(s'.orders, e) == OrdersOf(s.orders, e) - {o};
    forall f | f in s.executions && f != e
      ensures OrdersOf(s'.orders, f) == OrdersOf(s.orders, f)
    {
    }
  }

  lemma AnswerReserves(s: State, o: Id, e: Id, net: Amounts, failed: bool)
    requires ReservationsAgree(s) && e in s.executions
    ensures ReservationsAgree(Answer(s, o, e, net, failed))
  {
    var s' := Answer(s, o, e, net, failed);
    assert forall f :: f in s.executions <==> f in s'.executions;
    assert forall f :: f in s.executions ==> Holds(s', f) == Holds(s, f);
  }

  // Settling frees the execution's own symbols and no other's.
  lemma SettleReserves(s: State, e: Id)
    requires ReservationsAgree(s) && e in s.executions
    ensures ReservationsAgree(Settle(s, e))
    ensures forall f :: f in s.executions && f != e ==> Holds(s, f) <= Settle(s, e).reserved
  {
    var s' := Settle(s, e);
    assert forall f :: f in s'.executions <==> f in s.executions && f != e;
    assert forall f :: f in s'.executions ==> Holds(s', f) == Holds(s, f);
    forall f | f in s.executions && f != e
      ensures Holds(s, f) <= s'.reserved
    {
      assert Holds(s, e) !! Holds(s, f);
    }
    forall sym | sym in s'.reserved
      ensures exists f :: f in s'.executions && sym in Holds(s', f)
    {
      var f :| f in s.executions && sym in Holds(s, f);
      assert f in s'.executions && sym in Holds(s', f);
    }
  }

  lemma SettleCounts(s: State, mid: State, e: Id)
    requires CountsAgree(s) && e in s.executions && OrdersOf(mid.orders, e) == {}
    requires mid.executions.Keys == mid.pending.Keys == s.executions.Keys && mid.failed <= s.executions.Keys
    requires forall p :: p in mid.orders ==> p in s.orders && mid.orders[p] == s.orders[p]
    requires forall f :: f in s.executions && f != e ==>
      OrdersOf(mid.orders, f) == OrdersOf(s.orders, f) && mid.pending[f] == s.pending[f]
    ensures CountsAgree(Settle(mid, e))
  {
    var s' := Settle(mid, e);
    hide SymbolsOf, AddAll;
    forall p | p in s'.orders
      ensures s'.orders[p].execId in s'.executions
    {
      assert p !in OrdersOf(mid.orders, e);
    }
    hide OrdersOf;
    forall f | f in s'.executions
      ensures s'.pending[f] == |OrdersOf(s'.orders, f)| > 0
    {
      assert f in s.executions && f != e;
    }
  }

  lemma AnswerCounts(s: State, o: Id, net: Amounts, failed: bool)
    requires CountsAgree(s) && o in s.orders
    requires Answer(s, o, s.orders[o].execId, net, failed).pending[s.orders[o].execId] != 0
    ensures CountsAgree(Answer(s, o, s.orders[o].execId, net, failed))
  {
    hide AddAll;
    FinishCounts(s, o, net, failed);
    var e := s.orders[o].execId;
    var mid := Answer(s, o, e, net, failed);
    assert mid.executions.Keys == s.executions.Keys;
  }

  lemma FinishKeepsInv(s: State, o: Id, net: Amounts, failed: bool)
    requires Inv(s) && o in s.orders
    ensures Inv(Finish(s, o, s.orders[o].execId, net, failed))
  {
    var e := s.orders[o].execId;
    var mid := Answer(s, o, e, net, failed);
    assert s.pending.Keys == s.executions.Keys && s.failed <= s.executions.Keys;
    AnswerReserves(s, o, e, net, failed);
    hide ReservationsAgree, AddAll, CountsAgree;
    if mid.pending[e] == 0 {
      FinishCounts(s, o, net, failed);
      SettleReserves(mid, e);
      SettleCounts(s, mid, e);
    } else {
      AnswerCounts(s, o, net, failed);
    }
  }

  lemma ReportKeepsInv(s: State, r: Report)
    requires Inv(s)
    ensures Inv(ReportStep(s, r))
    ensures Throws(s, r) <==> r.id in s.orders && r.status.Unknown?
  {
    var v := VerdictOn(s, r);
    if v.Answered? {
      FinishKeepsInv(s, r.id, v.net, v.failed);
    }
  }

  lemma {:induction false} ReportRunKeepsInv(s: State, rs: seq<Report>)
    requires Inv(s)
    ensures Inv(ReportRun(s, rs))
    decreases |rs|
  {
    if rs != [] {
      ReportKeepsInv(s, rs[0]);
      ReportRunKeepsInv(ReportStep(s, rs[0]), rs[1..]);
    }
  }

  // ----- drain -----

  // A terminal report for a known order takes exactly that order off the books.
  lemma ReportTakesOneOrder(s: State, r: Report)
    ensures ReportStep(s, r).orders == if VerdictOn(s, r).Answered? then s.orders - {r.id} else s.orders
    ensures VerdictOn(s, r).Answered? ==> |ReportStep(s, r).orders| == |s.orders| - 1
  {
    if VerdictOn(s, r).Answered? {
      assert s.orders.Keys == (s.orders - {r.id}).Keys + {r.id};
    }
  }

  // A fill short of the order: by the base quantity received for LONG and the base quantity used
  // for SHORT.
  predicate Partial(t: StaticTrade, r: Report) {
    || (t.position.Long? && r.recvQty < t.orderQty)
    || (t.position.Short? && r.usedQty < t.orderQty)
  }

  // The reports that leave no trace: those for no known order, acknowledgements, unknown statuses
  // and fills short of the order quantity, whatever fees these carry.
  lemma TracelessExactly(s: State, r: Report)
    requires Inv(s)
    ensures ReportStep(s, r) == s <==>
      (r.id in s.orders ==>
         r.status.New? || r.status.Unknown? || (r.status.Filled? && Partial(s.orders[r.id].trade, r)))
  {
    ReportTakesOneOrder(s, r);
    hide Finish, NetOf, ReservationsAgree;
  }

  // A refusal or an expiry ends the order and marks the execution failed until it settles; a fill
  // never does.
  lemma FailuresNoted(s: State, r: Report)
    requires Inv(s) && r.id in s.orders
    ensures var e, s' := s.orders[r.id].execId, ReportStep(s, r);
      && (r.status.Rejected? || r.status.Expired? ==> r.id !in s'.orders && (e in s'.executions ==> e in s'.failed))
      && (r.status.Filled? && e in s'.executions ==> (e in s'.failed <==> e in s.failed))
      && forall f :: f != e ==> (f in s'.failed <==> f in s.failed)
  {
    var v := VerdictOn(s, r);
    ReportTakesOneOrder(s, r);
    if v.Answered? {
      FinishFailed(s, r.id, s.orders[r.id].execId, v.net, v.failed);
    }
    hide Finish, NetOf, Inv;
  }

  lemma FinishFailed(s: State, o: Id, e: Id, net: Amounts, failed: bool)
    requires e in s.executions
    ensures var s' := Finish(s, o, e, net, failed);
      && (e in s'.executions ==> (e in s'.failed <==> failed || e in s.failed))
      && forall f :: f != e ==> (f in s'.failed <==> f in s.failed)
  {
    hide AddAll, SymbolsOf;
  }

  // A first fill of 4 out of 10 that was charged a fee, in books where that order is open: the fee
  // is never booked.
  lemma PartialFillDropsFee(s: State, o: Id)
    requires o in s.orders && s.orders[o].trade.orderQty == 10
    ensures var r := Report(o, Filled, 4, 4, map["BNB" := -1]); Get(r.fees, "BNB") == -1 && ReportStep(s, r) == s
  {
  }

  // No outstanding order means nothing is open at all.
  lemma NoOrdersMeansIdle(s: State)
    requires Inv(s) && s.orders == map[]
    ensures Idle(s)
  {
    assert forall e :: OrdersOf(s.orders, e) == {};
    assert s.executions.Keys == {} && s.pending.Keys == {};
  }

  // Some report in rs ends order o.
  ghost predicate AnsweredBy(s: State, o: Id, rs: seq<Report>)
    requires o in s.orders
  {
    exists i :: 0 <= i < |rs| && rs[i].id == o && Judge(s.orders[o].trade, rs[i]).Answered?
  }

  ghost predicate AllAnswered(s: State, rs: seq<Report>) {
    forall o :: o in s.orders ==> AnsweredBy(s, o, rs)
  }

  lemma AnsweredByRest(s: State, s': State, o: Id, rs: seq<Report>)
    requires o in s.orders && o in s'.orders && s'.orders[o] == s.orders[o]
    requires rs != [] && AnsweredBy(s, o, rs)
    requires rs[0].id == o ==> Judge(s.orders[o].trade, rs[0]).Ignored?
    ensures AnsweredBy(s', o, rs[1..])
  {
    hide Judge;
    var i :| 0 <= i < |rs| && rs[i].id == o && Judge(s.orders[o].trade, rs[i]).Answered?;
    assert rs[1..][i - 1] == rs[i];
  }

  lemma AnsweredLater(s: State, rs: seq<Report>)
    requires Inv(s) && rs != [] && AllAnswered(s, rs)
    ensures AllAnswered(ReportStep(s, rs[0]), rs[1..])
  {
    var s' := ReportStep(s, rs[0]);
    ReportTakesOneOrder(s, rs[0]);
    hide Judge, ReportStep, AnsweredBy, ReservationsAgree;
    forall o | o in s'.orders
      ensures AnsweredBy(s', o, rs[1..])
    {
      AnsweredByRest(s, s', o, rs);
    }
  }

  lemma NoReportsAnswerNothing(s: State)
    ensures forall o :: o in s.orders ==> !AnsweredBy(s, o, [])
  {
  }

  // Once every outstanding order has been answered the books are empty.
  lemma {:induction false} DrainEmptiesBooks(s: State, rs: seq<Report>)
    requires Inv(s) && AllAnswered(s, rs)
    ensures Idle(ReportRun(s, rs))
    decreases |rs|
  {
    if rs == [] {
      NoReportsAnswerNothing(s);
      assert s.orders.Keys == {};
      NoOrdersMeansIdle(s);
    } else {
      ReportKeepsInv(s, rs[0]);
      AnsweredLater(s, rs);
      DrainEmptiesBooks(ReportStep(s, rs[0]), rs[1..]);
    }
  }

  // ----- a lost order -----

  // The execution waits for more answers than it has orders listed.
  ghost predicate Overcounted(s: State, e: Id) {
    e in s.executions && e in s.pending && s.pending[e] > |OrdersOf(s.orders, e)|
  }

  lemma ReportKeepsOvercount(s: State, r: Report, e: Id)
    requires Overcounted(s, e)
    ensures Overcounted(ReportStep(s, r), e)
  {
    var v := VerdictOn(s, r);
    if v.Answered? {
      hide AddAll, SymbolsOf, Judge;
      var f, left := s.orders[r.id].execId, s.orders - {r.id};
      if f == e {
        assert r.id in OrdersOf(s.orders, e);
        assert OrdersOf(left, e) == OrdersOf(s.orders, e) - {r.id};
      } else {
        assert OrdersOf(left, e) == OrdersOf(s.orders, e);
      }
    }
  }

  lemma {:induction false} RunKeepsOvercount(s: State, rs: seq<Report>, e: Id)
    requires Overcounted(s, e)
    ensures Overcounted(ReportRun(s, rs), e)
    decreases |rs|
  {
    hide Overcounted, ReportStep;
    if rs != [] {
      ReportKeepsOvercount(s, rs[0], e);
      RunKeepsOvercount(ReportStep(s, rs[0]), rs[1..], e);
    }
  }

  // A repeated order id leaves an execution that no reports whatever can settle: the drain loop
  // then never ends.
  lemma RepeatedOrderIdNeverDrains(s: State, x: Execution, execId: Id, ids: seq<Id>, rs: seq<Report>)
    requires Inv(s) && |ids| == |x.trades| > 0 && execId !in s.executions && !Fresh(s, execId, ids)
    ensures execId in ReportRun(Launch(s, x, execId, ids), rs).executions
  {
    LaunchCounts(s, x, execId, ids);
    assert Overcounted(Launch(s, x, execId, ids), execId);
    RunKeepsOvercount(Launch(s, x, execId, ids), rs, execId);
    hide ReportRun, Launch, Fresh, Inv;
  }
}
