/**
 * The worker, its balance and its reserved symbols as mutable objects, proved against the books
 * and transitions of `Ledger` and `Runs`.
 */
module Workers {
  import opened PreciseNumber
  import opened Sizing
  import opened Trading
  import opened Ledger
  import opened Confluence
  import opened Runs

  class Balance {
    var balanceMap: Amounts

    constructor (initial: Amounts)
      ensures balanceMap == initial
    {
      balanceMap := initial;
    }

    method UpdateOne(currency: string, amount: int)
      modifies this
      ensures balanceMap == Credit(old(balanceMap), currency, amount)
    {
      balanceMap := balanceMap[currency := Get(balanceMap, currency) + amount];
    }

    method UpdateAll(assetDelta: Amounts)
      modifies this
      ensures balanceMap == AddAll(old(balanceMap), assetDelta)
    {
      hide AddAll;
      var left := assetDelta.Keys;
      NothingAdded(balanceMap, assetDelta);
      while left != {}
        invariant left <= assetDelta.Keys
        invariant balanceMap == AddAll(old(balanceMap), assetDelta - left)
        decreases |left|
      {
        var currency :| currency in left;
        OneMoreAdded(old(balanceMap), assetDelta, left, currency);
        balanceMap := balanceMap[currency := Get(balanceMap, currency) + assetDelta[currency]];
        left := left - {currency};
      }
      assert assetDelta - {} == assetDelta;
    }
  }

  lemma NothingAdded(m: Amounts, d: Amounts)
    ensures AddAll(m, d - d.Keys) == m
  {
  }

  lemma OneMoreAdded(m: Amounts, d: Amounts, left: set<string>, c: string)
    requires c in left && left <= d.Keys
    ensures Credit(AddAll(m, d - left), c, d[c]) == AddAll(m, d - (left - {c}))
  {
    var l, r := Credit(AddAll(m, d - left), c, d[c]), AddAll(m, d - (left - {c}));
    assert l.Keys == r.Keys;
    assert forall a :: a in l ==> l[a] == r[a];
  }

  ghost function NamesOf(trades: seq<Trade>): set<string> { set t | t in trades :: t.symbol.name }

  class ReservedTrades {
    var symbols: set<string>

    constructor ()
      ensures symbols == {}
    {
      symbols := {};
    }

    method ReserveAll(trades: seq<Trade>)
      modifies this
      ensures symbols == old(symbols) + NamesOf(trades)
    {
      for i := 0 to |trades|
        invariant symbols == old(symbols) + NamesOf(trades[..i])
      {
        assert trades[..i + 1] == trades[..i] + [trades[i]];
        symbols := symbols + {trades[i].symbol.name};
      }
      assert trades[..|trades|] == trades;
    }

    method ReleaseAll(trades: seq<StaticTrade>)
      modifies this
      ensures symbols == old(symbols) - SymbolsOf(trades)
    {
      for i := 0 to |trades|
        invariant symbols == old(symbols) - SymbolsOf(trades[..i])
      {
        assert trades[..i + 1] == trades[..i] + [trades[i]];
        symbols := symbols - {trades[i].symbol};
      }
      assert trades[..|trades|] == trades;
    }
  }

  // An order handed to the exchange session.
  datatype Submission = Submission(id: Id, symbol: string, qty: int, price: int, position: Position)

  function Submissions(trades: seq<StaticTrade>, ids: seq<Id>): (r: seq<Submission>)
    requires |trades| <= |ids|
    ensures |r| == |trades|
  {
    seq(|trades|, i requires 0 <= i < |trades| =>
      Submission(ids[i], trades[i].symbol, trades[i].orderQty, trades[i].orderPrice, trades[i].position))
  }

  datatype PriceUpdate = PriceUpdate(symbol: Symbol, bidPrice: nat, askPrice: nat, bidQty: nat, askQty: nat)

  // The leg is priced from the update: LONG at the ask, SHORT at the bid.
  ghost predicate PricedFrom(l: Leg, update: PriceUpdate) {
    && (l.position.Long? ==> l.price == update.askPrice && l.offer == update.askQty)
    && (l.position.Short? ==> l.price == update.bidPrice && l.offer == update.bidQty)
  }

  // Every leg on the symbol is.
  ghost predicate AllPricedFrom(views: seq<View>, update: PriceUpdate) {
    forall i, k :: 0 <= i < |views| && 0 <= k < |views[i].path| && views[i].path[k].symbol == update.symbol.name ==>
      PricedFrom(views[i].path[k], update)
  }

  // The fee loop of `processReport`: add every amount to a copy of the delta.
  method AddAmounts(m: Amounts, d: Amounts) returns (sum: Amounts)
    ensures sum == AddAll(m, d)
  {
    hide AddAll;
    sum := m;
    var left := d.Keys;
    NothingAdded(m, d);
    while left != {}
      invariant left <= d.Keys
      invariant sum == AddAll(m, d - left)
      decreases |left|
    {
      var currency :| currency in left;
      OneMoreAdded(m, d, left, currency);
      sum := sum[currency := Get(sum, currency) + d[currency]];
      left := left - {currency};
    }
    assert d - {} == d;
  }

  // The filled case of `processReport`: fees first, then, if the order is complete, its amounts.
  method FillDelta(trade: StaticTrade, report: Report, delta: Amounts) returns (full: bool, after: Amounts)
    requires report.status.Filled?
    ensures full == Judge(trade, report).Answered?
    ensures full ==> after == AddAll(delta, Judge(trade, report).net) && !Judge(trade, report).failed
    ensures full <==> !Partial(trade, report)
    ensures full ==> forall a :: Get(after, a) == Get(delta, a) + FillAmount(trade, report, a)
  {
    NetInFields(delta, trade, report);
    hide AddAll, NetOf, Get, FillAmount;
    after := AddAmounts(delta, report.fees);
    var compareQty := if trade.position.Long? then report.recvQty else report.usedQty;
    if compareQty < trade.orderQty {
      return false, after;
    }
    NetIsAdded(delta, trade, report);
    after := after[trade.usedAsset := Get(after, trade.usedAsset) - report.usedQty];
    after := after[trade.recvAsset := Get(after, trade.recvAsset) + report.recvQty];
    full := true;
  }

  lemma NetInFields(delta: Amounts, t: StaticTrade, r: Report)
    ensures forall a :: Get(AddAll(delta, NetOf(t, r)), a) == Get(delta, a) + FillAmount(t, r, a)
  {
    forall a
      ensures Get(AddAll(delta, NetOf(t, r)), a) == Get(delta, a) + FillAmount(t, r, a)
    {
      AddAllGets(delta, NetOf(t, r), a);
    }
  }

  // The books with a terminal report's amounts and failure noted, its order still listed.
  ghost function Noted(s: State, execId: Id, net: Amounts, failed: bool): State
    requires execId in s.executions
  {
    var entry := s.executions[execId];
    s.(executions := s.executions[execId := Entry(entry.execution, AddAll(entry.delta, net))],
       failed := if failed then s.failed + {execId} else s.failed)
  }

  lemma NothingMoved(m: map<Id, Entry>, e: Id)
    requires e in m
    ensures m[e := Entry(m[e].execution, AddAll(m[e].delta, map[]))] == m
  {
    assert AddAll(m[e].delta, map[]) == m[e].delta;
  }

  lemma NetIsAdded(delta: Amounts, t: StaticTrade, r: Report)
    ensures Credit(Credit(AddAll(delta, r.fees), t.usedAsset, -r.usedQty), t.recvAsset, r.recvQty)
         == AddAll(delta, NetOf(t, r))
  {
    CreditAdded(delta, r.fees, t.usedAsset, -r.usedQty);
    CreditAdded(delta, Credit(r.fees, t.usedAsset, -r.usedQty), t.recvAsset, r.recvQty);
    hide AddAll;
  }

  lemma CreditAdded(m: Amounts, d: Amounts, a: string, v: int)
    ensures Credit(AddAll(m, d), a, v) == AddAll(m, Credit(d, a, v))
  {
    var l, r := Credit(AddAll(m, d), a, v), AddAll(m, Credit(d, a, v));
    assert l.Keys == r.Keys;
    assert forall b :: b in l ==> l[b] == r[b];
  }

  // Reading an asset without a relative value gives zero.
  function ValueIn(relativeValues: map<string, nat>, asset: string): nat {
    if asset in relativeValues then relativeValues[asset] else 0
  }

  ghost predicate Uses(opp: Opportunity, symbol: string) {
    exists t :: t in opp.trades && t.symbol.name == symbol
  }

  ghost predicate TradesIn(opp: Opportunity, trades: set<Trade>) { forall t :: t in opp.trades ==> t in trades }

  ghost predicate OwnsTrades(path: seq<Trade>) {
    path != [] && forall i, j :: 0 <= i < j < |path| ==> path[i] != path[j]
  }

  ghost predicate NoSharedTrade(p: seq<Trade>, q: seq<Trade>) { forall t :: t in p ==> t !in q }

  ghost predicate OneSymbolPerName(p: seq<Trade>, q: seq<Trade>) {
    forall t, u :: t in p && u in q && t.symbol.name == u.symbol.name ==> t.symbol == u.symbol
  }

  ghost predicate Listed(index: map<string, seq<nat>>, symbol: string, i: nat) {
    symbol in index && i in index[symbol]
  }

  ghost predicate IndexAgrees(index: map<string, seq<nat>>, opps: seq<Opportunity>) {
    forall symbol, i: nat :: Listed(index, symbol, i) <==> i < |opps| && Uses(opps[i], symbol)
  }

  ghost function ViewOf(opp: Opportunity): View
    reads opp.Symbols()
  {
    View(opp.Legs(), opp.relativeValue, opp.commission)
  }

  // The inner loop of the worker's constructor: list the new path under each of its symbols.
  method Indexed(index: map<string, seq<nat>>, opps: seq<Opportunity>, opp: Opportunity) returns (r: map<string, seq<nat>>)
    requires IndexAgrees(index, opps)
    ensures IndexAgrees(r, opps + [opp])
  {
    r := index;
    var n := |opps|;
    for k := 0 to |opp.trades|
      invariant forall symbol, i: nat :: Listed(r, symbol, i) <==>
        (i < n && Uses(opps[i], symbol)) || (i == n && exists t :: t in opp.trades[..k] && t.symbol.name == symbol)
    {
      var name := opp.trades[k].symbol.name;
      ghost var before := r;
      r := r[name := (if name in r then r[name] else []) + [n]];
      assert forall symbol, i: nat :: Listed(r, symbol, i) <==> Listed(before, symbol, i) || (symbol == name && i == n);
      assert opp.trades[..k + 1] == opp.trades[..k] + [opp.trades[k]];
    }
    assert opp.trades[..|opp.trades|] == opp.trades;
  }

  method FreezeOpportunity(opp: Opportunity) returns (x: Execution)
    requires opp.Valid()
    ensures x == Freeze(opp.Legs(), opp.Quantities(), opp.totalProfit)
  {
    var frozen: seq<StaticTrade> := [];
    for i := 0 to |opp.trades|
      invariant |frozen| == i
      invariant forall j :: 0 <= j < i ==> frozen[j] == FreezeLeg(opp.Legs()[j], opp.Quantities()[j])
    {
      var t := opp.trades[i];
      frozen := frozen + [StaticTrade(t.symbol.name, t.position, t.orderQty, t.OrderPrice(), t.usedCurrency, t.recvCurrency)];
    }
    x := Execution(opp.startingAsset, opp.totalProfit, opp.GetCapacity(), frozen);
    assert x.trades == Freeze(opp.Legs(), opp.Quantities(), opp.totalProfit).trades;
  }

  // The books with an execution's budget and symbols set aside.
  function Reserved(s: State, x: Execution): State {
    s.(balance := Credit(s.balance, x.startingAsset, -x.capacity), reserved := s.reserved + SymbolsOf(x.trades))
  }

  lemma FreezeFacts(opp: Opportunity)
    requires opp.Valid()
    ensures var x := Freeze(opp.Legs(), opp.Quantities(), opp.totalProfit);
      x.startingAsset == opp.startingAsset && x.capacity == opp.GetCapacity() && |x.trades| == |opp.trades|
    ensures SymbolsOf(Freeze(opp.Legs(), opp.Quantities(), opp.totalProfit).trades)
         == NamesOf(opp.trades)
  {
    var x := Freeze(opp.Legs(), opp.Quantities(), opp.totalProfit);
    forall i | 0 <= i < |opp.trades|
      ensures x.trades[i].symbol == opp.trades[i].symbol.name
    {
    }
    assert forall t :: t in opp.trades ==> exists i :: 0 <= i < |opp.trades| && opp.trades[i] == t;
    forall t | t in opp.trades
      ensures t.symbol.name in SymbolsOf(x.trades)
    {
      var i :| 0 <= i < |opp.trades| && opp.trades[i] == t;
      assert x.trades[i] in x.trades;
    }
  }

  lemma UsesIsConcern(opp: Opportunity, name: string)
    ensures Uses(opp, name) <==> exists l :: l in ViewOf(opp).path && l.symbol == name
  {
    var path := opp.Legs();
    if Uses(opp, name) {
      var t :| t in opp.trades && t.symbol.name == name;
      var k :| 0 <= k < |opp.trades| && opp.trades[k] == t;
      assert path[k] in path;
    }
    if l :| l in path && l.symbol == name {
      var k :| 0 <= k < |path| && path[k] == l;
      assert opp.trades[k] in opp.trades;
    }
  }

  // View j offers no more than the one at `best` (-1 when there is none).
  ghost predicate AtMost(views: seq<View>, s: State, j: nat, best: int) {
    j < |views| && Eligible(views[j], s) ==>
      0 <= best < |views| && Eligible(views[best], s) && ProfitOf(views[j], s) <= ProfitOf(views[best], s)
  }

  lemma AtMostTransitive(views: seq<View>, s: State, j: nat, best: int, better: int)
    requires AtMost(views, s, j, best) && (best >= 0 ==> AtMost(views, s, best, better))
    ensures AtMost(views, s, j, better)
  {
    hide ProfitOf, Eligible;
  }

  lemma SearchedAll(views: seq<View>, s: State, visited: set<nat>, affected: seq<nat>, best: int)
    requires forall i: nat :: i in visited <==> i in affected
    requires forall m :: 0 <= m < |affected| ==> AtMost(views, s, affected[m], best)
    requires best >= 0 ==> best in affected && best < |views| && Eligible(views[best], s)
    requires best < |views|
    ensures best < 0 ==> forall i :: i in visited && i < |views| ==> !Eligible(views[i], s)
    ensures best >= 0 ==> Best(views, visited, s, best)
  {
    hide ProfitOf, Funded;
    assert forall i :: i in affected ==> AtMost(views, s, i, best);
  }

  // A tick together with the orders it sends out.
  ghost predicate Outcome(s: State, views: seq<View>, symbol: string, execId: Id, ids: seq<Id>, s': State,
                          submitted: seq<Submission>)
  {
    var visited := Concerned(views, symbol);
    if forall i :: i in visited ==> !Eligible(views[i], s) then s' == s && submitted == []
    else exists i: nat :: Best(views, visited, s, i) && Launches(s, views[i], execId, ids, s')
                          && Sends(views[i], s, execId, ids, s', submitted)
  }

  // The orders sent out for the view: one per leg under the generated ids, at the leg's price and
  // for the planned quantity, which the exchange has on offer and which is worth the minimum
  // notional. Under fresh ids the books remember each as it was sent.
  ghost predicate Sends(v: View, s: State, execId: Id, ids: seq<Id>, s': State, submitted: seq<Submission>)
    requires Eligible(v, s)
  {
    && |submitted| == |v.path| <= |ids|
    && forall k :: 0 <= k < |v.path| ==> SentAs(v.path[k], PlanOf(v, s)[k], ids[k], submitted[k])
                                         && (Fresh(s, execId, ids) ==> Remembered(s', execId, v.path[k], submitted[k]))
  }

  ghost predicate SentAs(l: Leg, qty: int, id: Id, o: Submission) {
    && o.id == id && o.symbol == l.symbol && o.position == l.position && o.price == l.price && o.qty == qty
    && Placed(l, o.qty) && Mul(o.qty, o.price) >= l.minNotional
  }

  ghost predicate Remembered(s: State, execId: Id, l: Leg, o: Submission) {
    && o.id in s.orders && s.orders[o.id].execId == execId
    && var t := s.orders[o.id].trade;
       && t.symbol == o.symbol && t.position == o.position && t.orderQty == o.qty && t.orderPrice == o.price
       && t.usedAsset == l.usedAsset && t.recvAsset == l.recvAsset
  }

  lemma LaunchSends(v: View, s: State, execId: Id, ids: seq<Id>, s': State)
    requires Eligible(v, s) && Launches(s, v, execId, ids, s')
    ensures Sends(v, s, execId, ids, s', Submissions(FreezeView(v, s).trades, ids))
  {
    var x, used := FreezeView(v, s), ids[..|v.path|];
    EligiblePlanIsSound(v, s);
    if Fresh(s, execId, ids) {
      FreshPrefix(s, execId, ids, |v.path|);
      EmplacedFresh(s.orders, x.trades, used, execId, |used|);
    }
    hide Eligible, ProfitOf, PlanOf, Covered, Placed, WithinFilters, OffStepAt, Fresh, EmplaceOrders, Mul, Capacity;
    assert forall k :: 0 <= k < |used| ==> used[k] == ids[k];
    forall k | 0 <= k < |v.path|
      ensures SentAs(v.path[k], PlanOf(v, s)[k], ids[k], Submissions(x.trades, ids)[k])
      ensures Fresh(s, execId, ids) ==> Remembered(s', execId, v.path[k], Submissions(x.trades, ids)[k])
    {
    }
  }

  lemma OutcomeIsTick(s: State, views: seq<View>, symbol: string, execId: Id, ids: seq<Id>, s': State,
                      submitted: seq<Submission>)
    requires Outcome(s, views, symbol, execId, ids, s', submitted)
    ensures Tick(s, views, symbol, execId, ids, s')
  {
    hide Eligible, Best, Launches;
  }

  // Paths own their trades, a symbol name stands for one symbol, and the index lists under each
  // symbol exactly the paths that trade it.
  ghost predicate Wired(opps: seq<Opportunity>, index: map<string, seq<nat>>, trades: set<Trade>, symbols: set<Symbol>) {
    && (forall i :: 0 <= i < |opps| ==> opps[i].Valid() && TradesIn(opps[i], trades) && opps[i].Symbols() <= symbols)
    && (forall i, j :: 0 <= i < |opps| && 0 <= j < |opps| && i != j ==>
          opps[i] != opps[j] && NoSharedTrade(opps[i].trades, opps[j].trades))
    && (forall i, j :: 0 <= i < |opps| && 0 <= j < |opps| ==> OneSymbolPerName(opps[i].trades, opps[j].trades))
    && IndexAgrees(index, opps)
  }

  lemma Apart(opps: seq<Opportunity>, index: map<string, seq<nat>>, trades: set<Trade>, symbols: set<Symbol>, i: nat, j: nat)
    requires Wired(opps, index, trades, symbols) && i < |opps| && j < |opps|
    ensures opps[i].Valid() && opps[j].Valid()
    ensures i != j ==> opps[i] != opps[j] && NoSharedTrade(opps[i].trades, opps[j].trades)
  {
  }

  lemma OutcomeOfNone(s: State, views: seq<View>, symbol: string, execId: Id, ids: seq<Id>)
    requires forall i :: i in Concerned(views, symbol) ==> !Eligible(views[i], s)
    ensures Outcome(s, views, symbol, execId, ids, s, [])
  {
    hide Eligible;
  }

  lemma OutcomeOfLaunch(s: State, views: seq<View>, symbol: string, execId: Id, ids: seq<Id>, i: nat, s': State,
                        submitted: seq<Submission>)
    requires Best(views, Concerned(views, symbol), s, i) && Launches(s, views[i], execId, ids, s')
    requires submitted == Submissions(FreezeView(views[i], s).trades, ids)
    ensures Outcome(s, views, symbol, execId, ids, s', submitted)
  {
    hide ProfitOf, Launches, FreezeView, Funded, Sends, Submissions;
    LaunchSends(views[i], s, execId, ids, s');
  }

  class Worker {
    var opportunityList: seq<Opportunity>
    var index: map<string, seq<nat>>
    const balance: Balance
    const reservedTrades: ReservedTrades
    var executions: map<Id, Entry>
    var executionIds: map<Id, Order>
    var pendingOrders: map<Id, int>
    var failedExecutions: set<Id>
    ghost var allTrades: set<Trade>
    ghost var allSymbols: set<Symbol>

    ghost function Books(): State
      reads this, balance, reservedTrades
    {
      State(balance.balanceMap, reservedTrades.symbols, executions, executionIds, pendingOrders, failedExecutions)
    }

    ghost predicate Valid()
      reads this
    {
      Wired(opportunityList, index, allTrades, allSymbols)
    }

    ghost function Views(): (views: seq<View>)
      requires Valid()
      reads this, allSymbols
      ensures |views| == |opportunityList|
      ensures forall i :: 0 <= i < |views| ==> views[i] == ViewOf(opportunityList[i])
    {
      seq(|opportunityList|, i requires 0 <= i < |opportunityList| && opportunityList[i].Symbols() <= allSymbols
        reads this, allSymbols => ViewOf(opportunityList[i]))
    }

    constructor (tradingPaths: seq<seq<Trade>>, relativeValues: map<string, nat>, balance: Balance, commission: nat)
      requires forall i :: 0 <= i < |tradingPaths| ==> OwnsTrades(tradingPaths[i])
      requires forall i, j :: 0 <= i < j < |tradingPaths| ==> NoSharedTrade(tradingPaths[i], tradingPaths[j])
      requires forall i, j :: 0 <= i < |tradingPaths| && 0 <= j < |tradingPaths| ==>
        OneSymbolPerName(tradingPaths[i], tradingPaths[j])
      ensures Valid() && this.balance == balance && fresh(reservedTrades) && fresh(opportunityList)
      ensures |opportunityList| == |tradingPaths|
      ensures forall i :: 0 <= i < |tradingPaths| ==>
        && opportunityList[i].trades == tradingPaths[i]
        && opportunityList[i].commission == commission
        && var start := tradingPaths[i][0].usedCurrency;
           opportunityList[i].relativeValue == if start in relativeValues then relativeValues[start] else 0
      ensures Books() == State(balance.balanceMap, {}, map[], map[], map[], {})
    {
      var opps: seq<Opportunity> := [];
      var idx: map<string, seq<nat>> := map[];
      for n := 0 to |tradingPaths|
        invariant |opps| == n && fresh(opps)
        invariant forall i :: 0 <= i < n ==>
          && opps[i].Valid() && opps[i].trades == tradingPaths[i] && opps[i].commission == commission
          && opps[i].relativeValue == ValueIn(relativeValues, tradingPaths[i][0].usedCurrency)
        invariant forall i, j :: 0 <= i < j < n ==> opps[i] != opps[j]
        invariant IndexAgrees(idx, opps)
      {
        var path := tradingPaths[n];
        var startingAsset := path[0].usedCurrency;
        var opp := new Opportunity(path, ValueIn(relativeValues, startingAsset), commission);
        idx := Indexed(idx, opps, opp);
        opps := opps + [opp];
      }
      opportunityList, index, this.balance := opps, idx, balance;
      reservedTrades := new ReservedTrades();
      executions, executionIds, pendingOrders, failedExecutions := map[], map[], map[], {};
      allTrades := set i, k | 0 <= i < |opps| && 0 <= k < |opps[i].trades| :: opps[i].trades[k];
      allSymbols := set i, k | 0 <= i < |opps| && 0 <= k < |opps[i].trades| :: opps[i].trades[k].symbol;
    }

    // ----- price updates -----

    // Submit the orders one after another, remembering which execution each belongs to.
    method SubmitAll(trades: seq<StaticTrade>, executionId: Id, ids: seq<Id>) returns (submitted: seq<Submission>)
      requires |trades| <= |ids|
      modifies this`executionIds
      ensures executionIds == EmplaceOrders(old(executionIds), trades, ids[..|trades|], executionId, |trades|)
      ensures submitted == Submissions(trades, ids)
      ensures forall i :: 0 <= i < |trades| ==> var o, t := submitted[i], trades[i];
        o.id == ids[i] && o.symbol == t.symbol && o.position == t.position && o.qty == t.orderQty && o.price == t.orderPrice
    {
      submitted := [];
      for i := 0 to |trades|
        invariant executionIds == EmplaceOrders(old(executionIds), trades, ids[..|trades|], executionId, i)
        invariant submitted == Submissions(trades, ids)[..i]
      {
        var trade, orderId := trades[i], ids[i];
        executionIds := if orderId in executionIds then executionIds
                        else executionIds[orderId := Order(trade, executionId)];
        submitted := submitted + [Submission(orderId, trade.symbol, trade.orderQty, trade.orderPrice, trade.position)];
      }
    }

    method ReserveBudgetAndSymbols(opp: Opportunity)
      requires opp.Valid()
      modifies balance, reservedTrades
      ensures Books() == Reserved(old(Books()), Freeze(old(opp.Legs()), old(opp.Quantities()), old(opp.totalProfit)))
    {
      FreezeFacts(opp);
      var capacity := opp.GetCapacity();
      MulMinusOne(capacity);
      hide Mul, Freeze;
      reservedTrades.ReserveAll(opp.trades);
      balance.UpdateOne(opp.startingAsset, Mul(capacity, -K));
    }

    // Submit the execution's orders and store it with its reservation as the opening delta.
    method SubmitExecution(execution: Execution, executionId: Id, ids: seq<Id>, ghost s: State)
      returns (submitted: seq<Submission>)
      requires |execution.trades| <= |ids| && Books() == Reserved(s, execution)
      modifies this`executions, this`executionIds, this`pendingOrders
      ensures Books() == Launch(s, execution, executionId, ids[..|execution.trades|])
      ensures submitted == Submissions(execution.trades, ids)
    {
      var delta := map[execution.startingAsset := execution.capacity];
      submitted := SubmitAll(execution.trades, executionId, ids);
      hide Submissions, EmplaceOrders, SymbolsOf, Credit;
      executions := if executionId in executions then executions else executions[executionId := Entry(execution, delta)];
      pendingOrders := pendingOrders[executionId := |execution.trades|];
    }

    // Reserve, freeze and submit the chosen opportunity.
    method LaunchBest(opp: Opportunity, executionId: Id, ids: seq<Id>) returns (submitted: seq<Submission>)
      requires opp.Valid() && |opp.trades| <= |ids|
      modifies this`executions, this`executionIds, this`pendingOrders, balance, reservedTrades
      ensures var x := Freeze(old(opp.Legs()), old(opp.Quantities()), old(opp.totalProfit));
        && Books() == Launch(old(Books()), x, executionId, ids[..|opp.trades|])
        && submitted == Submissions(x.trades, ids)
    {
      assert opp.trades != [];
      ghost var s := Books();
      ReserveBudgetAndSymbols(opp);
      ghost var reserved := Books();
      assert opp.Legs() == old(opp.Legs()) && opp.Quantities() == old(opp.Quantities());
      var execution := FreezeOpportunity(opp);
      assert Books() == reserved;
      assert execution == Freeze(old(opp.Legs()), old(opp.Quantities()), old(opp.totalProfit));
      submitted := SubmitExecution(execution, executionId, ids, s);
    }

    // Whether the loop of `processPriceUpdate` may consider the opportunity: it is funded, its
    // refreshed plan is profitable, and none of its symbols is reserved.
    method Consider(opp: Opportunity) returns (eligible: bool)
      requires opp.Valid()
      modifies opp, opp.trades
      ensures eligible == Eligible(ViewOf(opp), Books())
      ensures eligible ==> opp.Quantities() == PlanOf(ViewOf(opp), Books()) && opp.totalProfit == ProfitOf(ViewOf(opp), Books())
    {
      hide Plan, Profit;
      var start := opp.startingAsset;
      ghost var v, s := ViewOf(opp), Books();
      assert v.path[0] == opp.trades[0].AsLeg();
      hide Opportunity.Legs, Opportunity.Valid;
      if start !in balance.balanceMap || 0 >= balance.balanceMap[start] {
        return false;
      }
      opp.Update(balance.balanceMap[start]);
      assert ViewOf(opp) == v && Books() == s;
      assert opp.Quantities() == PlanOf(v, s) && opp.totalProfit == ProfitOf(v, s);
      hide PlanOf, ProfitOf;
      if 0 >= opp.totalProfit {
        return false;
      }
      var reserved := AnyReserved(opp);
      assert ViewOf(opp) == v;
      return !reserved;
    }

    method AnyReserved(opp: Opportunity) returns (reserved: bool)
      ensures reserved == exists l :: l in opp.Legs() && l.symbol in reservedTrades.symbols
    {
      ghost var path := opp.Legs();
      for i := 0 to |opp.trades|
        invariant forall j :: 0 <= j < i ==> path[j].symbol !in reservedTrades.symbols
      {
        if opp.trades[i].symbol.name in reservedTrades.symbols {
          assert path[i] in path;
          return true;
        }
      }
      return false;
    }

    // What a chosen opportunity holds while the loop goes on.
    ghost predicate Chosen(views: seq<View>, s: State, best: nat)
      requires best < |opportunityList| == |views|
      reads this, opportunityList[best], opportunityList[best].trades
    {
      && Eligible(views[best], s)
      && opportunityList[best].Quantities() == PlanOf(views[best], s)
      && opportunityList[best].totalProfit == ProfitOf(views[best], s)
    }

    // Refreshing one opportunity leaves the plan of any other alone.
    method ConsiderBeside(opp: Opportunity, ghost other: Opportunity) returns (eligible: bool)
      requires opp.Valid() && (other == opp || NoSharedTrade(other.trades, opp.trades))
      modifies opp, opp.trades
      ensures eligible == Eligible(ViewOf(opp), Books())
      ensures eligible ==> opp.Quantities() == PlanOf(ViewOf(opp), Books()) && opp.totalProfit == ProfitOf(ViewOf(opp), Books())
      ensures other != opp ==> other.Quantities() == old(other.Quantities()) && other.totalProfit == old(other.totalProfit)
    {
      hide Eligible, PlanOf, ProfitOf, Funded, Opportunity.Valid, Opportunity.Legs, Opportunity.Quantities;
      ghost var kept := other.Quantities();
      assert forall j :: 0 <= j < |other.trades| ==> other.trades[j].orderQty == kept[j];
      assert other != opp ==> forall j :: 0 <= j < |other.trades| ==> other.trades[j] !in opp.trades;
      eligible := Consider(opp);
      if other != opp {
        assert forall j :: 0 <= j < |other.trades| ==> other.trades[j].orderQty == kept[j];
        assert other.Quantities() == kept;
      }
    }

    // Refreshing opportunity i leaves prices, books and a plan chosen before alone.
    method RefreshOne(i: nat, best: int, ghost views: seq<View>, ghost s: State) returns (eligible: bool)
      requires Valid() && i < |opportunityList| && Views() == views && Books() == s
      requires -1 <= best < |opportunityList| && (best >= 0 ==> Chosen(views, s, best))
      modifies opportunityList[i], opportunityList[i].trades
      ensures Views() == views && Books() == s
      ensures eligible == Eligible(views[i], s)
      ensures eligible ==> Chosen(views, s, i)
      ensures best >= 0 ==> Chosen(views, s, best)
    {
      hide ProfitOf, PlanOf, Funded, Wired, Eligible, NoSharedTrade, Opportunity.Valid, Opportunity.Legs, Opportunity.Quantities;
      var opp := opportunityList[i];
      ghost var other := if best >= 0 then opportunityList[best] else opp;
      Apart(opportunityList, index, allTrades, allSymbols, if best >= 0 then best else i, i);
      eligible := ConsiderBeside(opp, other);
      assert Views() == views && Books() == s;
    }

    // One round of the search loop: refresh opportunity i and keep the better of it and `best`.
    method KeepBetter(i: nat, best: int, ghost views: seq<View>, ghost s: State) returns (better: int)
      requires Valid() && i < |opportunityList| && Views() == views && Books() == s
      requires -1 <= best < |opportunityList| && (best >= 0 ==> Chosen(views, s, best))
      modifies opportunityList[i], opportunityList[i].trades
      ensures Views() == views && Books() == s
      ensures better == best || better == i
      ensures better >= 0 ==> Chosen(views, s, better)
      ensures AtMost(views, s, i, better) && (best >= 0 ==> AtMost(views, s, best, better))
    {
      hide ProfitOf, PlanOf, Funded, Wired, Eligible;
      var eligible := RefreshOne(i, best, views, s);
      better := best;
      if eligible && (best < 0 || opportunityList[i].totalProfit > opportunityList[best].totalProfit) {
        better := i;
      }
    }

    // The search loop: refresh every listed opportunity, keep the first best one.
    method Search(affected: seq<nat>, ghost views: seq<View>, ghost s: State) returns (best: int)
      requires Valid() && Views() == views && Books() == s
      requires forall m :: 0 <= m < |affected| ==> affected[m] < |opportunityList|
      modifies opportunityList, allTrades
      ensures Views() == views && Books() == s
      ensures -1 <= best < |opportunityList|
      ensures best >= 0 ==> best in affected && Chosen(views, s, best)
      ensures forall m :: 0 <= m < |affected| ==> AtMost(views, s, affected[m], best)
    {
      hide ProfitOf, PlanOf, AtMost, IndexAgrees, OneSymbolPerName, NoSharedTrade, Chosen, Opportunity.Valid;
      best := -1;
      ghost var at := 0;
      for k := 0 to |affected|
        invariant Views() == views && Books() == s
        invariant -1 <= best < |opportunityList|
        invariant best >= 0 ==> 0 <= at < k && best == affected[at] && Chosen(views, s, best)
        invariant forall m :: 0 <= m < k ==> AtMost(views, s, affected[m], best)
      {
        ghost var before := best;
        best := KeepBetter(affected[k], best, views, s);
        at := if best == before then at else k;
        forall m | 0 <= m < k
          ensures AtMost(views, s, affected[m], best)
        {
          AtMostTransitive(views, s, affected[m], before, best);
        }
      }
    }

    // The best eligible opportunity among those listed under the symbol, if any.
    method FindBest(name: string) returns (best: int)
      requires Valid()
      modifies opportunityList, allTrades
      ensures Views() == old(Views()) && Books() == old(Books())
      ensures -1 <= best < |opportunityList|
      ensures best < 0 ==> forall i :: i in Concerned(Views(), name) ==> !Eligible(Views()[i], Books())
      ensures best >= 0 ==> Chosen(Views(), Books(), best) && Best(Views(), Concerned(Views(), name), Books(), best)
    {
      ghost var views, s := Views(), Books();
      var affected := if name in index then index[name] else [];
      ConcernedIsListed(views, name);
      assert forall i :: i in Concerned(views, name) ==> i < |views|;
      hide ProfitOf, PlanOf, Funded, AtMost, Best, IndexAgrees, Concerned;
      forall m | 0 <= m < |affected|
        ensures affected[m] < |opportunityList|
      {
        assert affected[m] in affected;
        assert affected[m] in Concerned(views, name);
      }
      best := Search(affected, views, s);
      SearchedAll(views, s, Concerned(views, name), affected, best);
    }

    lemma ConcernedIsListed(views: seq<View>, name: string)
      requires Valid() && views == Views()
      ensures forall i: nat :: i in Concerned(views, name) <==> name in index && i in index[name]
    {
      forall i: nat
        ensures i in Concerned(views, name) <==> Listed(index, name, i)
      {
        if i < |opportunityList| {
          UsesIsConcern(opportunityList[i], name);
        }
      }
    }

    lemma ChosenIsFrozen(views: seq<View>, s: State, best: nat)
      requires Valid() && views == Views() && best < |opportunityList| && Chosen(views, s, best)
      ensures Eligible(views[best], s)
      ensures var opp := opportunityList[best];
        Freeze(opp.Legs(), opp.Quantities(), opp.totalProfit) == FreezeView(views[best], s)
    {
      hide Freeze;
    }

    // The body of `processPriceUpdate` after the prices are stored.
    method React(name: string, executionId: Id, ids: seq<Id>) returns (submitted: seq<Submission>)
      requires Valid()
      requires forall i :: 0 <= i < |opportunityList| ==> |opportunityList[i].trades| <= |ids|
      modifies this`executions, this`executionIds, this`pendingOrders, balance, reservedTrades,
               opportunityList, allTrades
      ensures Valid() && Views() == old(Views())
      ensures Outcome(old(Books()), Views(), name, executionId, ids, Books(), submitted)
    {
      hide Outcome, Best, Eligible, Concerned, PlanOf, ProfitOf, Submissions, Launch, Freeze, FreezeView, Chosen, Wired,
        Opportunity.Valid, Opportunity.Legs;
      ghost var views, s := Views(), Books();
      var best := FindBest(name);
      assert Views() == views && Books() == s;
      if best < 0 {
        OutcomeOfNone(s, views, name, executionId, ids);
        return [];
      }
      var opp := opportunityList[best];
      ChosenIsFrozen(views, s, best);
      Apart(opportunityList, index, allTrades, allSymbols, best, best);
      assert |views[best].path| == |opp.trades|;
      submitted := LaunchBest(opp, executionId, ids);
      assert Valid() && Views() == views;
      assert Launches(s, views[best], executionId, ids, Books());
      OutcomeOfLaunch(s, views, name, executionId, ids, best, Books(), submitted);
    }

    // A price update rewrites the symbol's prices and launches a best eligible opportunity among
    // exactly the paths that trade the symbol; every other path still sees the same prices.
    method ProcessPriceUpdate(update: PriceUpdate, executionId: Id, ids: seq<Id>) returns (submitted: seq<Submission>)
      requires Valid()
      requires forall sym :: sym in allSymbols && sym.name == update.symbol.name ==> sym == update.symbol
      requires forall i :: 0 <= i < |opportunityList| ==> |opportunityList[i].trades| <= |ids|
      modifies this`executions, this`executionIds, this`pendingOrders, balance, reservedTrades,
               update.symbol, opportunityList, allTrades
      ensures Valid()
      ensures update.symbol.askPrice == update.askPrice && update.symbol.bidPrice == update.bidPrice
      ensures update.symbol.askQty == update.askQty && update.symbol.bidQty == update.bidQty
      ensures forall i: nat :: i < |opportunityList| && i !in Concerned(Views(), update.symbol.name) ==>
        Views()[i] == old(Views()[i])
      ensures AllPricedFrom(Views(), update)
      ensures Outcome(old(Books()), Views(), update.symbol.name, executionId, ids, Books(), submitted)
    {
      StorePrices(update);
      ghost var views := Views();
      assert AllPricedFrom(views, update);
      assert forall i: nat :: i < |opportunityList| && i !in Concerned(views, update.symbol.name) ==> views[i] == old(Views()[i]);
      hide *;
      submitted := React(update.symbol.name, executionId, ids);
    }

    method StorePrices(update: PriceUpdate)
      requires Valid()
      requires forall sym :: sym in allSymbols && sym.name == update.symbol.name ==> sym == update.symbol
      modifies update.symbol
      ensures Books() == old(Books())
      ensures update.symbol.askPrice == update.askPrice && update.symbol.bidPrice == update.bidPrice
      ensures update.symbol.askQty == update.askQty && update.symbol.bidQty == update.bidQty
      ensures forall i: nat :: i < |opportunityList| && i !in Concerned(Views(), update.symbol.name) ==>
        Views()[i] == old(Views()[i])
      ensures AllPricedFrom(Views(), update)
    {
      hide Wired, Concerned, PricedFrom;
      var symbol := update.symbol;
      symbol.askPrice := update.askPrice;
      symbol.bidPrice := update.bidPrice;
      symbol.askQty := update.askQty;
      symbol.bidQty := update.bidQty;
      UnconcernedSeeNoChange(symbol);
      PricesSeen(update);
    }

    lemma PricesSeen(update: PriceUpdate)
      requires Valid()
      requires forall sym :: sym in allSymbols && sym.name == update.symbol.name ==> sym == update.symbol
      requires update.symbol.askPrice == update.askPrice && update.symbol.bidPrice == update.bidPrice
      requires update.symbol.askQty == update.askQty && update.symbol.bidQty == update.bidQty
      ensures AllPricedFrom(Views(), update)
    {
      var views := Views();
      forall i, k | 0 <= i < |views| && 0 <= k < |views[i].path| && views[i].path[k].symbol == update.symbol.name
        ensures PricedFrom(views[i].path[k], update)
      {
        var opp := opportunityList[i];
        Apart(opportunityList, index, allTrades, allSymbols, i, i);
        assert views[i].path[k] == opp.trades[k].AsLeg();
        assert opp.trades[k].symbol in opp.Symbols();
        opp.trades[k].Quoted();
      }
    }

    twostate lemma UnconcernedSeeNoChange(symbol: Symbol)
      requires Valid() && old(Valid()) && unchanged(this) && unchanged(allSymbols - {symbol})
      requires forall sym :: sym in allSymbols && sym.name == symbol.name ==> sym == symbol
      ensures forall i: nat :: i < |opportunityList| && i !in Concerned(Views(), symbol.name) ==>
        Views()[i] == old(Views()[i])
    {
      forall i: nat | i < |opportunityList| && i !in Concerned(Views(), symbol.name)
        ensures Views()[i] == old(Views()[i])
      {
        var opp, path := opportunityList[i], Views()[i].path;
        forall k | 0 <= k < |opp.trades|
          ensures path[k] == old(opp.trades[k].AsLeg())
        {
          assert path[k] in path;
          assert opp.trades[k].symbol in opp.Symbols();
          assert opp.trades[k].symbol != symbol;
        }
        assert path == old(opp.Legs());
      }
    }

    // ----- reports -----

    // True when the source throws; then nothing has changed.
    method ProcessReport(report: Report) returns (threw: bool)
      modifies this`executions, this`executionIds, this`pendingOrders, this`failedExecutions, balance, reservedTrades
      ensures threw == Throws(old(Books()), report)
      ensures Books() == ReportStep(old(Books()), report)
    {
      ghost var s := Books();
      var orderId := report.id;
      if orderId !in executionIds {
        return false;
      }
      var Order(oldTrade, executionId) := executionIds[orderId];
      if executionId !in executions {
        return true;
      }
      var Entry(execution, delta) := executions[executionId];
      ghost var v := Judge(oldTrade, report);
      match report.status {
        case New =>
          return false;
        case Rejected =>
          failedExecutions := failedExecutions + {executionId};
          NothingMoved(executions, executionId);
        case Expired =>
          failedExecutions := failedExecutions + {executionId};
          NothingMoved(executions, executionId);
        case Filled =>
          var full;
          full, delta := FillDelta(oldTrade, report, delta);
          if !full {
            return false;
          }
          executions := executions[executionId := Entry(execution, delta)];
        case Unknown =>
          return true;
      }
      assert Books() == Noted(s, executionId, v.net, v.failed);
      hide Judge, AddAll;
      CompleteOrder(orderId, executionId, execution, delta, s, v.net, v.failed);
      threw := false;
    }

    // The tail of `processReport`: drop the order, and settle when it was the last one.
    method CompleteOrder(orderId: Id, executionId: Id, execution: Execution, delta: Amounts,
                         ghost s: State, ghost net: Amounts, ghost failed: bool)
      requires executionId in s.executions && Books() == Noted(s, executionId, net, failed)
      requires executions[executionId] == Entry(execution, delta)
      modifies this`executions, this`executionIds, this`pendingOrders, this`failedExecutions, balance, reservedTrades
      ensures Books() == Finish(s, orderId, executionId, net, failed)
    {
      hide AddAll;
      executionIds := executionIds - {orderId};
      pendingOrders := pendingOrders[executionId :=
        (if executionId in pendingOrders then pendingOrders[executionId] else 0) - 1];
      assert Books() == Answer(s, orderId, executionId, net, failed);
      if pendingOrders[executionId] == 0 {
        executions := executions - {executionId};
        pendingOrders := pendingOrders - {executionId};
        failedExecutions := failedExecutions - {executionId};
        balance.UpdateAll(delta);
        reservedTrades.ReleaseAll(execution.trades);
      }
    }

    // The drain loop of `run`, over the reports still to come: it stops when nothing is open.
    method Drain(queue: seq<Report>) returns (rest: seq<Report>, threw: bool)
      modifies this`executions, this`executionIds, this`pendingOrders, this`failedExecutions, balance, reservedTrades
      ensures rest == [] || executions == map[] || threw
      ensures |rest| <= |queue| && rest == queue[|queue| - |rest|..]
      ensures Books() == ReportRun(old(Books()), queue[..|queue| - |rest|])
      ensures Inv(old(Books())) && AllAnswered(old(Books()), queue) && !threw ==> Idle(Books())
      ensures Inv(old(Books())) && (forall r :: r in queue ==> !r.status.Unknown?) ==> !threw
    {
      hide ReportRun, ReportStep, Inv, AllAnswered, Throws, Idle;
      ghost var s := Books();
      rest, threw := queue, false;
      ghost var k := 0;
      EmptyRun(s, queue);
      while executions != map[] && rest != [] && !threw
        invariant k == |queue| - |rest| >= 0 && rest == queue[k..]
        invariant Books() == ReportRun(s, queue[..k])
        invariant threw ==> k > 0 && Throws(ReportRun(s, queue[..k - 1]), queue[k - 1])
        decreases |rest|
      {
        ghost var before := Books();
        RunSnoc(s, queue, k);
        threw := ProcessReport(rest[0]);
        rest, k := rest[1..], k + 1;
      }
      if Inv(s) {
        DrainOutcome(s, queue, k, threw);
      }
    }
  }

  lemma EmptyRun(s: State, rs: seq<Report>)
    ensures ReportRun(s, rs[..0]) == s
  {
  }

  lemma RunSnoc(s: State, rs: seq<Report>, k: nat)
    requires k < |rs|
    ensures ReportRun(s, rs[..k + 1]) == ReportStep(ReportRun(s, rs[..k]), rs[k])
  {
    hide ReportStep;
    assert rs[..k + 1] == rs[..k] + [rs[k]];
    RunConcat(s, rs[..k], [rs[k]]);
    var t := ReportRun(s, rs[..k]);
    assert ReportRun(t, [rs[k]]) == ReportRun(ReportStep(t, rs[k]), []);
  }

  lemma {:induction false} AnsweredAfterPrefix(s: State, rs: seq<Report>, k: nat)
    requires Inv(s) && AllAnswered(s, rs) && k <= |rs|
    ensures Inv(ReportRun(s, rs[..k])) && AllAnswered(ReportRun(s, rs[..k]), rs[k..])
  {
    hide ReportRun, ReportStep, Inv, AllAnswered;
    if k == 0 {
      EmptyRun(s, rs);
      assert rs[0..] == rs;
    } else {
      AnsweredAfterPrefix(s, rs, k - 1);
      var t, tail := ReportRun(s, rs[..k - 1]), rs[k - 1..];
      assert tail[0] == rs[k - 1] && tail[1..] == rs[k..];
      ReportKeepsInv(t, tail[0]);
      AnsweredLater(t, tail);
      RunSnoc(s, rs, k - 1);
    }
  }

  // What stopping after k reports tells.
  lemma DrainOutcome(s: State, queue: seq<Report>, k: nat, threw: bool)
    requires Inv(s) && k <= |queue|
    requires threw ==> k > 0 && Throws(ReportRun(s, queue[..k - 1]), queue[k - 1])
    ensures threw ==> queue[k - 1].status.Unknown? && queue[k - 1] in queue
    ensures AllAnswered(s, queue) && (k == |queue| || ReportRun(s, queue[..k]).executions == map[]) ==>
      Idle(ReportRun(s, queue[..k]))
  {
    hide ReportRun, Inv, AllAnswered, Idle;
    if threw {
      ReportRunKeepsInv(s, queue[..k - 1]);
      ReportKeepsInv(ReportRun(s, queue[..k - 1]), queue[k - 1]);
    }
    if AllAnswered(s, queue) {
      AnsweredAfterPrefix(s, queue, k);
      var t := ReportRun(s, queue[..k]);
      if k == |queue| {
        assert queue[k..][..0] == queue[k..];
        EmptyRun(t, queue[k..]);
        DrainEmptiesBooks(t, queue[k..]);
      } else if t.executions == map[] {
        NoExecutionsMeansIdle(t);
      }
    }
  }

  lemma NoExecutionsMeansIdle(s: State)
    requires Inv(s) && s.executions == map[]
    ensures Idle(s)
  {
    assert s.orders.Keys == {};
    NoOrdersMeansIdle(s);
  }
}
