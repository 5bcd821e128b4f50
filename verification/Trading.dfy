/**
 * `Symbol`, `Trade` and `Opportunity` as the mutable objects they are, proved against the
 * value-level sizing.
 */
module Trading {
  import opened PreciseNumber
  import opened Sizing

  class Symbol {
    const name: string
    const baseAsset: string
    const quoteAsset: string
    const minNotional: nat
    const baseAssetIncrement: nat
    var bidPrice: nat
    var askPrice: nat
    var bidQty: nat
    var askQty: nat

    constructor (name: string, baseAsset: string, quoteAsset: string, minNotional: nat, baseAssetIncrement: nat)
      ensures this.name == name && this.baseAsset == baseAsset && this.quoteAsset == quoteAsset
      ensures this.minNotional == minNotional && this.baseAssetIncrement == baseAssetIncrement
      ensures bidPrice == askPrice == bidQty == askQty == 0
    {
      this.name, this.baseAsset, this.quoteAsset := name, baseAsset, quoteAsset;
      this.minNotional, this.baseAssetIncrement := minNotional, baseAssetIncrement;
      bidPrice, askPrice, bidQty, askQty := 0, 0, 0, 0;
    }
  }

  class Trade {
    const symbol: Symbol
    const position: Position
    const usedCurrency: string
    const recvCurrency: string
    var orderQty: int

    // A LONG trade spends the quote asset for the base asset, a SHORT trade the reverse.
    constructor (symbol: Symbol, position: Position)
      ensures this.symbol == symbol && this.position == position && Paired()
      ensures position.Long? ==>
        usedCurrency == symbol.quoteAsset && recvCurrency == symbol.baseAsset && orderQty == symbol.askQty
      ensures position.Short? ==>
        usedCurrency == symbol.baseAsset && recvCurrency == symbol.quoteAsset && orderQty == symbol.bidQty
    {
      this.symbol, this.position := symbol, position;
      orderQty := if position.Long? then symbol.askQty else symbol.bidQty;
      recvCurrency := if position.Long? then symbol.baseAsset else symbol.quoteAsset;
      usedCurrency := if position.Long? then symbol.quoteAsset else symbol.baseAsset;
    }

    ghost predicate Paired() {
      if position.Long? then usedCurrency == symbol.quoteAsset && recvCurrency == symbol.baseAsset
      else usedCurrency == symbol.baseAsset && recvCurrency == symbol.quoteAsset
    }

    function OrderPrice(): nat
      reads symbol
    {
      if position.Long? then symbol.askPrice else symbol.bidPrice
    }

    function OfferQty(): nat
      reads symbol
    {
      if position.Long? then symbol.askQty else symbol.bidQty
    }

    // The trade as a leg of the snapshot it currently sees.
    ghost function AsLeg(): Leg
      reads symbol
    {
      Leg(symbol.name, position, OrderPrice(), OfferQty(), symbol.baseAssetIncrement, symbol.minNotional,
          usedCurrency, recvCurrency)
    }

    // A LONG trade buys at the ask, up to the quantity asked; a SHORT trade sells at the bid, up to
    // the quantity bid for.
    lemma Quoted()
      ensures position.Long? ==> AsLeg().price == symbol.askPrice && AsLeg().offer == symbol.askQty
      ensures position.Short? ==> AsLeg().price == symbol.bidPrice && AsLeg().offer == symbol.bidQty
      ensures AsLeg().position == position && AsLeg().symbol == symbol.name
      ensures AsLeg().step == symbol.baseAssetIncrement && AsLeg().minNotional == symbol.minNotional
      ensures AsLeg().usedAsset == usedCurrency && AsLeg().recvAsset == recvCurrency
    {
    }

    function UsedQty(): (r: int)
      reads this, symbol
      ensures r == AsLeg().Used(orderQty)
    {
      if position.Long? then Mul(orderQty, OrderPrice()) else orderQty
    }

    function RecvQty(): (r: int)
      reads this, symbol
      ensures r == AsLeg().Recv(orderQty)
    {
      if position.Long? then orderQty else Mul(orderQty, OrderPrice())
    }

    method ResetOrderQty()
      modifies this
      ensures orderQty == AsLeg().offer
    {
      orderQty := OfferQty();
    }

    method RecalculateOrderQty(budget: int)
      modifies this
      ensures orderQty == AsLeg().OrderQty(budget)
    {
      var budgetOrderQty := if position.Long? then Div(budget, OrderPrice()) else budget;
      budgetOrderQty := budgetOrderQty - Fmod(budgetOrderQty, symbol.baseAssetIncrement);
      var maxOrderQty := Min(budgetOrderQty, OfferQty());
      if Mul(maxOrderQty, OrderPrice()) < symbol.minNotional {
        orderQty := 0;
      } else {
        orderQty := maxOrderQty;
      }
    }
  }

  // ----- facts connecting the loops with the recursive passes -----

  lemma {:induction false} BackwardConcat(path: Path, k: nat, acc: int)
    requires k <= |path|
    ensures Backward(path[..k], Backward(path[k..], acc)) == Backward(path, acc)
  {
    if k == 0 {
      assert path[0..] == path;
    } else {
      assert path[1..][..k - 1] == path[..k][1..] && path[1..][k - 1..] == path[k..];
      BackwardConcat(path[1..], k - 1, acc);
    }
  }

  lemma SizedStep(path: Path, i: nat, acc: int)
    requires i < |path|
    ensures Sized(path[i..], acc)[0] == path[i].OrderQty(acc)
    ensures Sized(path[i..], acc)[1..] == Sized(path[i + 1..], path[i].Recv(path[i].OrderQty(acc)))
  {
    assert path[i..][1..] == path[i + 1..];
  }

  lemma PlanUnfolds(path: Path, budget: int)
    ensures Plan(path, budget) == Sized(path, Backward(path, Forward(path, budget)))
  {
  }

  class Opportunity {
    const trades: seq<Trade>
    const startingAsset: string
    const commission: nat
    const relativeValue: nat
    var totalProfit: int

    ghost predicate Valid() {
      && trades != []
      && (forall i, j :: 0 <= i < j < |trades| ==> trades[i] != trades[j])
      && startingAsset == trades[0].usedCurrency
    }

    ghost function Symbols(): set<Symbol> { set i | 0 <= i < |trades| :: trades[i].symbol }

    ghost function Legs(): (path: Path)
      reads Symbols()
      ensures |path| == |trades|
      ensures forall i :: 0 <= i < |trades| ==> path[i] == trades[i].AsLeg()
    {
      seq(|trades|, i requires 0 <= i < |trades| reads Symbols() => trades[i].AsLeg())
    }

    ghost function Quantities(): (qtys: seq<int>)
      reads trades
      ensures |qtys| == |trades|
      ensures forall i :: 0 <= i < |trades| ==> qtys[i] == trades[i].orderQty
    {
      seq(|trades|, i requires 0 <= i < |trades| reads trades => trades[i].orderQty)
    }

    constructor (trades: seq<Trade>, relativeValue: nat, commission: nat)
      requires trades != []
      requires forall i, j :: 0 <= i < j < |trades| ==> trades[i] != trades[j]
      ensures Valid() && this.trades == trades && totalProfit == 0
      ensures this.relativeValue == relativeValue && this.commission == commission
    {
      this.trades, startingAsset := trades, trades[0].usedCurrency;
      this.relativeValue, this.commission, totalProfit := relativeValue, commission, 0;
    }

    method MaxQtyAfterTrades(budget: int) returns (acc: int)
      requires Valid()
      modifies trades
      ensures acc == Forward(Legs(), budget)
    {
      acc := budget;
      ghost var path := Legs();
      for i := 0 to |trades|
        invariant Legs() == path
        invariant Forward(path[i..], acc) == Forward(path, budget)
      {
        var trade := trades[i];
        assert path[i..][0] == trade.AsLeg() && path[i..][1..] == path[i + 1..];
        trade.ResetOrderQty();
        assert Legs() == path;
        if trade.position.Long? {
          if trade.OrderPrice() == 0 {
            return 0;
          }
          acc := Div(Min(acc, Mul(trade.UsedQty(), trade.OrderPrice())), trade.OrderPrice());
        } else {
          acc := Mul(Min(acc, trade.UsedQty()), trade.OrderPrice());
        }
      }
      assert path[|trades|..] == [];
    }

    method StartingAssetQty(qtyAfterTrades: int) returns (acc: int)
      requires Valid()
      ensures acc == Backward(Legs(), qtyAfterTrades)
    {
      acc := qtyAfterTrades;
      ghost var path := Legs();
      assert path[..|trades|] == path;
      for i := |trades| downto 0
        invariant acc == Backward(path[i..], qtyAfterTrades)
      {
        var trade := trades[i];
        assert path[i..][0] == trade.AsLeg() && path[i..][1..] == path[i + 1..];
        if trade.position.Long? {
          acc := Mul(acc, trade.OrderPrice());
        } else {
          if trade.OrderPrice() == 0 {
            BackwardConcat(path, i, qtyAfterTrades);
            BackwardOfZero(path[..i]);
            return 0;
          }
          acc := DivAssign(acc, trade.OrderPrice());
        }
      }
      assert path[0..] == path;
    }

    // The sizing loop of `update`: each trade gets what the one before it receives.
    method SizeTrades(startingAssetQty: int)
      requires Valid()
      modifies trades
      ensures Quantities() == Sized(Legs(), startingAssetQty)
    {
      assert forall i, j :: 0 <= i < j < |trades| ==> trades[i] != trades[j];
      hide *;
      ghost var path := Legs();
      ghost var sizes := Sized(path, startingAssetQty);
      var acc := startingAssetQty;
      assert path[0..] == path;
      for i := 0 to |trades|
        invariant Legs() == path
        invariant sizes[i..] == Sized(path[i..], acc)
        invariant forall j :: 0 <= j < i ==> trades[j].orderQty == sizes[j]
      {
        SizedStep(path, i, acc);
        trades[i].RecalculateOrderQty(acc);
        acc := trades[i].RecvQty();
        assert Legs() == path;
        assert sizes[i..][1..] == sizes[i + 1..];
      }
    }

    method PlannedProfit() returns (profit: int)
      requires Valid()
      ensures profit == Profit(Legs(), Quantities(), relativeValue, commission)
    {
      hide Mul;
      var n := |trades|;
      var recvQty := trades[n - 1].RecvQty();
      var usedQty := trades[0].UsedQty();
      profit := Mul(Mul(recvQty, K - Mul(commission, n * K)) - usedQty, relativeValue);
    }

    // The new quantities are the plan for the budget, the new profit the plan's profit.
    method Update(budget: int)
      requires Valid()
      modifies this, trades
      ensures Quantities() == Plan(Legs(), budget)
      ensures totalProfit == Profit(Legs(), Plan(Legs(), budget), relativeValue, commission)
    {
      ghost var path := Legs();
      hide *;
      PlanUnfolds(path, budget);
      var maxQty := MaxQtyAfterTrades(budget);
      assert Legs() == path;
      var startingAssetQty := StartingAssetQty(maxQty);
      assert Legs() == path;
      SizeTrades(startingAssetQty);
      ghost var qtys := Quantities();
      assert Legs() == path && qtys == Plan(path, budget);
      var profit := PlannedProfit();
      assert Legs() == path && Quantities() == qtys;
      totalProfit := profit;
      assert Legs() == path && Quantities() == qtys;
    }

    function GetCapacity(): (r: int)
      requires Valid()
      reads trades, trades[0].symbol
      ensures r == trades[0].AsLeg().Used(trades[0].orderQty)
    {
      trades[0].UsedQty()
    }
  }
}
