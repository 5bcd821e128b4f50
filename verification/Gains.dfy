/**
 * What a plan on a simple closed path brings: filled as planned, it leaves every asset at least as
 * it was and the starting asset strictly richer.
 */
module Gains {
  import opened PreciseNumber
  import opened Sizing
  import opened Ledger
  import opened Confluence
  import opened Runs

  // Each leg receives what the next one spends, around the cycle, and no asset is spent twice.
  ghost predicate ClosedChain(path: Path) {
    && path != []
    && (forall i :: 0 <= i < |path| - 1 ==> path[i].recvAsset == path[i + 1].usedAsset)
    && path[|path| - 1].recvAsset == path[0].usedAsset
    && forall i, j :: 0 <= i < j < |path| ==> path[i].usedAsset != path[j].usedAsset
  }

  // The report of an order filled exactly as planned, without fees.
  function PlannedFill(l: Leg, qty: int, id: Id): Report {
    Report(id, Filled, l.Used(qty), l.Recv(qty), map[])
  }

  function PlannedFills(path: Path, qtys: seq<int>, ids: seq<Id>): (rs: seq<Report>)
    requires |path| == |qtys| == |ids|
    ensures |rs| == |path|
    ensures forall i :: 0 <= i < |path| ==> rs[i] == PlannedFill(path[i], qtys[i], ids[i])
  {
    seq(|path|, i requires 0 <= i < |path| => PlannedFill(path[i], qtys[i], ids[i]))
  }

  // What the plan's first k legs do to an asset.
  ghost function LegNet(l: Leg, qty: int, a: string): int {
    (if a == l.recvAsset then l.Recv(qty) else 0) - (if a == l.usedAsset then l.Used(qty) else 0)
  }

  ghost function PlanNet(path: Path, qtys: seq<int>, a: string, k: nat): int
    requires k <= |path| == |qtys|
  {
    if k == 0 then 0 else PlanNet(path, qtys, a, k - 1) + LegNet(path[k - 1], qtys[k - 1], a)
  }

  lemma PlannedFillAccepted(l: Leg, qty: int, id: Id, a: string)
    ensures var v := Judge(FreezeLeg(l, qty), PlannedFill(l, qty, id));
      v.Answered? && !v.failed && Get(v.net, a) == LegNet(l, qty, a)
  {
    hide Mul;
  }

  lemma FillsAreAnswers(path: Path, qtys: seq<int>, profit: int, ids: seq<Id>)
    requires |path| == |qtys| == |ids| > 0
    ensures Answers(Freeze(path, qtys, profit), ids, PlannedFills(path, qtys, ids))
  {
    forall i | 0 <= i < |path|
      ensures Judge(Freeze(path, qtys, profit).trades[i], PlannedFills(path, qtys, ids)[i]).Answered?
    {
      PlannedFillAccepted(path[i], qtys[i], ids[i], "");
    }
  }

  lemma FillNet(path: Path, qtys: seq<int>, profit: int, ids: seq<Id>, a: string, i: nat)
    requires i < |path| == |qtys| == |ids|
    ensures var v := Judge(Freeze(path, qtys, profit).trades[i], PlannedFills(path, qtys, ids)[i]);
      v.Answered? && Get(v.net, a) == LegNet(path[i], qtys[i], a)
  {
    PlannedFillAccepted(path[i], qtys[i], ids[i], a);
    hide Judge, LegNet, Capacity, Leg.Used, Leg.Recv;
  }

  // What the first k answers move of an asset.
  ghost function NetSum(x: Execution, rs: seq<Report>, a: string, k: nat): int
    requires k <= |rs| == |x.trades| && forall i :: 0 <= i < |rs| ==> Judge(x.trades[i], rs[i]).Answered?
  {
    if k == 0 then 0 else NetSum(x, rs, a, k - 1) + Get(Judge(x.trades[k - 1], rs[k - 1]).net, a)
  }

  lemma {:induction false} DeltaIsSum(x: Execution, rs: seq<Report>, a: string, k: nat)
    requires k <= |rs| == |x.trades| && forall i :: 0 <= i < |rs| ==> Judge(x.trades[i], rs[i]).Answered?
    ensures Get(DeltaAfter(x, rs, k), a) == (if a == x.startingAsset then x.capacity else 0) + NetSum(x, rs, a, k)
  {
    hide Judge, AddAll;
    if k > 0 {
      DeltaIsSum(x, rs, a, k - 1);
      AddAllGets(DeltaAfter(x, rs, k - 1), Judge(x.trades[k - 1], rs[k - 1]).net, a);
    }
  }

  lemma {:induction false} NetSumOfFills(path: Path, qtys: seq<int>, profit: int, ids: seq<Id>, a: string, k: nat)
    requires k <= |path| == |qtys| == |ids| && |path| > 0
    requires Answers(Freeze(path, qtys, profit), ids, PlannedFills(path, qtys, ids))
    ensures NetSum(Freeze(path, qtys, profit), PlannedFills(path, qtys, ids), a, k) == PlanNet(path, qtys, a, k)
  {
    hide Judge, LegNet, FreezeLeg, PlannedFill;
    if k > 0 {
      NetSumOfFills(path, qtys, profit, ids, a, k - 1);
      FillNet(path, qtys, profit, ids, a, k - 1);
    }
  }

  // Up to leg k the chain has spent the first asset, holds the k-th, and keeps the change of those between.
  lemma {:induction false} ChainNet(path: Path, qtys: seq<int>, j: nat, k: nat)
    requires ClosedChain(path) && |qtys| == |path| && k < |path| && j < |path|
    ensures PlanNet(path, qtys, path[j].usedAsset, k)
         == (if 0 < j <= k then path[j - 1].Recv(qtys[j - 1]) else 0) - (if j < k then path[j].Used(qtys[j]) else 0)
  {
    hide Mul, Leg.Used, Leg.Recv;
    if k > 0 {
      ChainNet(path, qtys, j, k - 1);
      assert path[k - 1].recvAsset == path[k].usedAsset;
      assert j < k ==> path[j].usedAsset != path[k].usedAsset;
      assert k < j ==> path[k].usedAsset != path[j].usedAsset;
      assert j < k - 1 ==> path[j].usedAsset != path[k - 1].usedAsset;
      assert k - 1 < j ==> path[k - 1].usedAsset != path[j].usedAsset;
    }
  }

  lemma WholeChainNet(path: Path, qtys: seq<int>, j: nat)
    requires ClosedChain(path) && |qtys| == |path| && j < |path|
    ensures PlanNet(path, qtys, path[j].usedAsset, |path|)
         == path[if j == 0 then |path| - 1 else j - 1].Recv(qtys[if j == 0 then |path| - 1 else j - 1])
            - path[j].Used(qtys[j])
  {
    hide Mul, Leg.Used, Leg.Recv;
    var n := |path|;
    ChainNet(path, qtys, j, n - 1);
    assert 0 < j ==> path[0].usedAsset != path[j].usedAsset;
    assert j < n - 1 ==> path[j].usedAsset != path[n - 1].usedAsset;
  }

  lemma {:induction false} OffChainNet(path: Path, qtys: seq<int>, a: string, k: nat)
    requires ClosedChain(path) && k <= |path| == |qtys|
    requires forall j :: 0 <= j < |path| ==> path[j].usedAsset != a
    ensures PlanNet(path, qtys, a, k) == 0
  {
    hide Mul, Leg.Used, Leg.Recv;
    if k > 0 {
      OffChainNet(path, qtys, a, k - 1);
      assert path[k - 1].recvAsset == path[if k == |path| then 0 else k].usedAsset;
    }
  }

  lemma ChainGains(path: Path, qtys: seq<int>, budget: int, a: string)
    requires ClosedChain(path) && |qtys| == |path| && Covered(path, qtys, budget)
    requires path[|path| - 1].Recv(qtys[|path| - 1]) > Capacity(path, qtys)
    ensures PlanNet(path, qtys, a, |path|) >= 0
    ensures a == path[0].usedAsset ==> PlanNet(path, qtys, a, |path|) > 0
  {
    hide Mul, Leg.Used, Leg.Recv;
    if j: nat :| j < |path| && path[j].usedAsset == a {
      WholeChainNet(path, qtys, j);
      assert CoveredAt(path, qtys, budget, j);
      assert 0 < j ==> path[0].usedAsset != path[j].usedAsset;
    } else {
      OffChainNet(path, qtys, a, |path|);
    }
  }

  // All planned fills arrive, and nothing else that ends an order of the execution.
  ghost predicate DeliversPlan(v: View, s: State, execId: Id, ids: seq<Id>, delivered: seq<Report>)
    requires Funded(v, s) && |ids| == |v.path|
  {
    var fills, launched := PlannedFills(v.path, PlanOf(v, s), ids), Launch(s, FreezeView(v, s), execId, ids);
    && (forall r :: r in fills ==> r in delivered)
    && forall r :: r in delivered && r.id in ids && VerdictOn(launched, r).Answered? ==> r in fills
  }

  // Launching against not launching: after an eligible opportunity on a closed chain and the
  // delivery of its planned fills, in any order with any repetition, among acknowledgements, partial
  // fills and the reports of other executions, the books are those the same delivery leaves without
  // the launch, except that no asset is poorer and the starting asset is richer.
  lemma PlannedExecutionGains(s: State, v: View, execId: Id, ids: seq<Id>, delivered: seq<Report>)
    requires Inv(s) && Eligible(v, s) && ClosedChain(v.path)
    requires |ids| == |v.path| && Fresh(s, execId, ids)
    requires DeliversPlan(v, s, execId, ids, delivered)
    ensures var after, without := ReportRun(Launch(s, FreezeView(v, s), execId, ids), delivered), ReportRun(s, delivered);
      && after == without.(balance := after.balance)
      && (forall a :: Get(after.balance, a) >= Get(without.balance, a))
      && Get(after.balance, v.path[0].usedAsset) > Get(without.balance, v.path[0].usedAsset)
  {
    var x, qtys := FreezeView(v, s), PlanOf(v, s);
    var rs := PlannedFills(v.path, qtys, ids);
    FrozenSymbols(v, s);
    FillsAreAnswers(v.path, qtys, ProfitOf(v, s), ids);
    LaunchThenAnswers(s, x, execId, ids, rs, delivered);
    var b := Completed(s, x, rs).balance;
    assert Completed(s, x, rs) == s.(balance := b);
    hide Inv, Fresh, DeliversPlan, Launch, ReportRun, ClosedChain, PlanOf, ProfitOf, Answers, Completed, Get;
    RunIgnoresBalance(s, b, delivered, x.startingAsset);
    forall a
      ensures Get(b, a) >= Get(s.balance, a)
      ensures a == x.startingAsset ==> Get(b, a) > Get(s.balance, a)
      ensures Get(ReportRun(s.(balance := b), delivered).balance, a) - Get(b, a)
           == Get(ReportRun(s, delivered).balance, a) - Get(s.balance, a)
    {
      CompletedGains(s, v, ids, a);
      RunIgnoresBalance(s, b, delivered, a);
    }
  }

  lemma CompletedGains(s: State, v: View, ids: seq<Id>, a: string)
    requires Eligible(v, s) && ClosedChain(v.path) && |ids| == |v.path|
    requires Answers(FreezeView(v, s), ids, PlannedFills(v.path, PlanOf(v, s), ids))
    ensures var after := Completed(s, FreezeView(v, s), PlannedFills(v.path, PlanOf(v, s), ids));
      && Get(after.balance, a) >= Get(s.balance, a)
      && (a == v.path[0].usedAsset ==> Get(after.balance, a) > Get(s.balance, a))
  {
    var qtys := PlanOf(v, s);
    var x, rs := FreezeView(v, s), PlannedFills(v.path, qtys, ids);
    EligiblePlanIsSound(v, s);
    hide Eligible, Mul;
    ChainGains(v.path, qtys, s.balance[v.path[0].usedAsset], a);
    NetSumOfFills(v.path, qtys, ProfitOf(v, s), ids, a, |v.path|);
    DeltaIsSum(x, rs, a, |rs|);
    AddAllGets(Credit(s.balance, x.startingAsset, -x.capacity), DeltaAfter(x, rs, |rs|), a);
    hide PlanNet, DeltaAfter, AddAll, Covered, Placed, WithinFilters, OffStepAt, Capacity, Leg.Used, Leg.Recv, ClosedChain,
      ProfitOf, PlanOf;
  }

  // The step size is the one filter a launch can miss: an eligible closed chain whose first order
  // the exchange refuses.
  lemma EligibleCanMissStep(s: State, v: View)
    requires s.reserved == {} && s.balance == map["A" := 100] && v == View(OddOffer(), K, 0)
    ensures Eligible(v, s) && ClosedChain(v.path)
    ensures Placed(v.path[0], PlanOf(v, s)[0]) && !WithinFilters(v.path[0], PlanOf(v, s)[0])
  {
    PlanCanMissStep();
    hide Plan, Profit;
  }
}
