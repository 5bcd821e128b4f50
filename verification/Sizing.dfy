/**
 * Path sizing on values: what `Opportunity::update` computes for one snapshot of the order books.
 * A leg is a trade together with the prices it sees; amounts are in smallest units.
 */
module Sizing {
  import opened PreciseNumber

  datatype Position = Long | Short

  datatype Leg = Leg(symbol: string, position: Position, price: nat, offer: nat,
                     step: nat, minNotional: nat, usedAsset: string, recvAsset: string)
  {
    function Used(qty: int): int { if position.Long? then Mul(qty, price) else qty }

    function Recv(qty: int): int { if position.Long? then qty else Mul(qty, price) }

    // Bound the forward pass puts on the amount entering the leg. For LONG it is the cost of the
    // whole offer multiplied by the price once more, as the source has it.
    function Cap(): int { if position.Long? then Mul(Mul(offer, price), price) else offer }

    function Forward(acc: int): int {
      if position.Long? then Div(Min(acc, Cap()), price) else Mul(Min(acc, Cap()), price)
    }

    // A SHORT leg without a price stops the backward pass at zero.
    function Backward(acc: int): int {
      if position.Long? then Mul(acc, price)
      else if price == 0 then 0
      else DivAssign(acc, price)
    }

    // The order size the budget allows, cut to the step but not yet to the offer.
    function Stepped(budget: int): int {
      var raw := if position.Long? then Div(budget, price) else budget;
      raw - Fmod(raw, step)
    }

    function OrderQty(budget: int): int {
      var qty := Min(Stepped(budget), offer);
      if Mul(qty, price) < minNotional then 0 else qty
    }
  }

  type Path = seq<Leg>

  // A LONG leg without a price makes the whole forward pass zero.
  function Forward(path: Path, acc: int): int {
    if path == [] then acc
    else if path[0].position.Long? && path[0].price == 0 then 0
    else Forward(path[1..], path[0].Forward(acc))
  }

  function Backward(path: Path, acc: int): int {
    if path == [] then acc else path[0].Backward(Backward(path[1..], acc))
  }

  function Sized(path: Path, budget: int): (qtys: seq<int>)
    ensures |qtys| == |path|
  {
    if path == [] then []
    else
      var qty := path[0].OrderQty(budget);
      [qty] + Sized(path[1..], path[0].Recv(qty))
  }

  function Plan(path: Path, budget: int): (qtys: seq<int>)
    ensures |qtys| == |path|
  {
    Sized(path, Backward(path, Forward(path, budget)))
  }

  // Profit in the common value unit, after commission on every leg.
  function Profit(path: Path, qtys: seq<int>, relativeValue: int, commission: int): int
    requires |qtys| == |path| > 0
  {
    var n := |path|;
    var received := path[n - 1].Recv(qtys[n - 1]);
    var spent := path[0].Used(qtys[0]);
    Mul(Mul(received, K - Mul(commission, n * K)) - spent, relativeValue)
  }

  // What the first leg spends: the amount debited at launch.
  function Capacity(path: Path, qtys: seq<int>): int
    requires |qtys| == |path| > 0
  {
    path[0].Used(qtys[0])
  }

  // ----- one leg -----

  lemma LegBackwardMonotone(l: Leg, a: int, b: int)
    requires 0 <= a <= b
    ensures 0 <= l.Backward(a) <= l.Backward(b)
  {
    if l.position.Long? {
      MulMonotone(a, b, l.price);
    } else if l.price > 0 {
      DivMonotone(a, b, l.price);
      DivBounds(a, l.price);
      DivBounds(b, l.price);
    }
  }

  lemma LegRoundTripNeverGrows(l: Leg, acc: int)
    requires 0 <= acc
    requires l.position.Long? ==> l.price > 0
    ensures 0 <= l.Forward(acc)
    ensures 0 <= l.Backward(l.Forward(acc)) <= acc
  {
    MulBounds(l.offer, l.price);
    MulBounds(Mul(l.offer, l.price), l.price);
    var x := Min(acc, l.Cap());
    if l.position.Long? {
      DivBounds(x, l.price);
      MulAfterDiv(x, l.price);
    } else {
      MulBounds(x, l.price);
      if l.price > 0 {
        DivAfterMul(x, l.price);
        DivBounds(Mul(x, l.price), l.price);
      }
    }
  }

  // Sizing a leg spends at most its budget, stays within the offer and meets the minimum notional.
  lemma OrderWithinBudget(l: Leg, budget: int)
    requires 0 <= budget
    ensures 0 <= l.OrderQty(budget) <= l.offer
    ensures 0 <= l.Used(l.OrderQty(budget)) <= budget
    ensures 0 <= l.Recv(l.OrderQty(budget))
    ensures budget == 0 ==> l.OrderQty(budget) == 0
    ensures l.OrderQty(budget) > 0 ==> Mul(l.OrderQty(budget), l.price) >= l.minNotional
  {
    var raw := if l.position.Long? then Div(budget, l.price) else budget;
    if l.position.Long? && l.price > 0 {
      DivBounds(budget, l.price);
    }
    FmodOfNonnegative(raw, l.step);
    var qty := l.OrderQty(budget);
    assert 0 <= qty <= raw;
    MulBounds(qty, l.price);
    if l.position.Long? {
      MulMonotone(qty, raw, l.price);
      if l.price > 0 {
        MulAfterDiv(budget, l.price);
      }
    }
  }

  // The leg in plain integers: what an order of some quantity spends and receives, and where the
  // two passes take an amount, with every truncation downward.
  lemma LegInPlainIntegers(l: Leg, qty: nat, acc: nat)
    ensures l.position.Long? ==> l.Used(qty) == qty * l.price / K && l.Recv(qty) == qty
    ensures l.position.Short? ==> l.Used(qty) == qty && l.Recv(qty) == qty * l.price / K
    ensures l.position.Long? && l.price > 0 ==>
      var cap := l.offer * l.price / K * l.price / K;
      l.Forward(acc) == (if acc <= cap then acc else cap) * K / l.price
    ensures l.position.Short? ==> l.Forward(acc) == (if acc <= l.offer then acc else l.offer) * l.price / K
    ensures l.position.Long? ==> l.Backward(acc) == acc * l.price / K
    ensures l.position.Short? ==> l.Backward(acc) == if l.price == 0 then 0 else acc * K / l.price
  {
    MulIsPlain(qty, l.price);
    MulIsPlain(l.offer, l.price);
    MulIsPlain(Mul(l.offer, l.price), l.price);
    MulIsPlain(acc, l.price);
    var x := Min(acc, l.Cap());
    MulIsPlain(x, l.price);
    if l.price > 0 {
      DivIsPlain(x, l.price);
      DivIsPlain(acc, l.price);
    }
    hide Mul, Div, DivAssign;
  }

  lemma MulIsPlain(a: nat, b: nat)
    ensures Mul(a, b) == a * b / K >= 0
  {
    MulBounds(a, b);
    QuotientUnique(a * b, K, Mul(a, b));
  }

  lemma DivIsPlain(a: nat, b: nat)
    requires b > 0
    ensures Div(a, b) == DivAssign(a, b) == a * K / b
  {
    DivBounds(a, b);
    QuotientUnique(a * K, b, Div(a, b));
  }

  // The quantity costs at most the budget.
  ghost predicate Affordable(l: Leg, qty: int, budget: int) {
    if l.position.Long? then qty * l.price <= budget * K else qty <= budget
  }

  lemma StepMultipleBelow(q: int, raw: int, step: nat)
    requires step > 0 && 0 <= q <= raw && q % step == 0
    ensures q <= raw - raw % step
  {
    var n := q / step;
    assert q == n * step;
    QuotientUnique(raw, step, n);
    assert raw - raw % step == raw / step * step;
    ScaleMonotone(n, raw / step, step);
  }

  // No step multiple that the budget pays for and the exchange would take is larger than the order:
  // an order is zero only when there is none.
  lemma OrderIsLargest(l: Leg, budget: int, q: int)
    requires 0 <= budget && (l.position.Long? ==> l.price > 0)
    requires Placed(l, q) && OnStep(l, q) && Affordable(l, q, budget)
    ensures q <= l.OrderQty(budget)
  {
    var raw := if l.position.Long? then Div(budget, l.price) else budget;
    if l.position.Long? {
      DivIsPlain(budget, l.price);
      QuotientUnique(budget * K, l.price, q);
    }
    assert q <= raw;
    FmodOfNonnegative(raw, l.step);
    if l.step > 0 {
      StepMultipleBelow(q, raw, l.step);
    }
    assert q <= l.Stepped(budget);
    MulMonotone(q, Min(l.Stepped(budget), l.offer), l.price);
    hide Mul, Div, Fmod;
  }

  // ----- whole paths -----

  lemma {:induction false} BackwardOfZero(path: Path)
    ensures Backward(path, 0) == 0
  {
    if path != [] {
      BackwardOfZero(path[1..]);
      if path[0].position.Short? && path[0].price > 0 {
        DivBounds(0, path[0].price);
        QuotientUnique(0, path[0].price, 0);
      }
    }
  }

  // A path with a missing price is not traded: a LONG leg without one makes the forward pass zero, a
  // SHORT leg without one the backward pass, and then every order is zero.
  lemma {:induction false} UnpricedLongStops(path: Path, acc: int, i: nat)
    requires i < |path| && path[i].position.Long? && path[i].price == 0
    ensures Forward(path, acc) == 0
  {
    if i > 0 {
      UnpricedLongStops(path[1..], path[0].Forward(acc), i - 1);
    }
  }

  lemma {:induction false} UnpricedShortStops(path: Path, acc: int, i: nat)
    requires i < |path| && path[i].position.Short? && path[i].price == 0
    ensures Backward(path, acc) == 0
  {
    if i > 0 {
      UnpricedShortStops(path[1..], acc, i - 1);
      BackwardOfZero(path[..1]);
      assert path[..1][0] == path[0] && path[..1][1..] == [];
    }
  }

  lemma UnpricedPlansNothing(path: Path, budget: int, i: nat)
    requires i < |path| && path[i].price == 0
    ensures forall k :: 0 <= k < |path| ==> Plan(path, budget)[k] == 0
  {
    if path[i].position.Long? {
      UnpricedLongStops(path, budget, i);
      BackwardOfZero(path);
    } else {
      UnpricedShortStops(path, Forward(path, budget), i);
    }
    SizedFromZero(path);
    hide Sized, Forward, Backward;
  }

  // Pushing a budget through the path and pulling the outcome back never asks for more than the
  // budget, whatever the truncations, caps and missing prices on the way.
  lemma {:induction false} BudgetSoundness(path: Path, budget: int)
    requires 0 <= budget
    ensures 0 <= Backward(path, Forward(path, budget)) <= budget
  {
    if path == [] {
    } else if path[0].position.Long? && path[0].price == 0 {
      BackwardOfZero(path);
    } else {
      var l, acc := path[0], path[0].Forward(budget);
      LegRoundTripNeverGrows(l, budget);
      BudgetSoundness(path[1..], acc);
      LegBackwardMonotone(l, Backward(path[1..], Forward(path[1..], acc)), acc);
    }
  }

  // What leg i may spend: the starting amount, or what the leg before it receives.
  function Arriving(path: Path, qtys: seq<int>, start: int, i: nat): int
    requires |qtys| == |path| && i < |path|
  {
    if i == 0 then start else path[i - 1].Recv(qtys[i - 1])
  }

  // Order i is paid for by the budget (first leg) or by what the leg before it receives.
  ghost predicate CoveredAt(path: Path, qtys: seq<int>, budget: int, i: nat)
    requires |qtys| == |path| && i < |path|
  {
    0 <= path[i].Used(qtys[i]) <= Arriving(path, qtys, budget, i)
  }

  ghost predicate Covered(path: Path, qtys: seq<int>, budget: int)
    requires |qtys| == |path|
  {
    forall i: nat :: i < |path| ==> CoveredAt(path, qtys, budget, i)
  }

  // What the exchange wants of one order: a positive quantity on offer, worth at least the minimum
  // notional, and a multiple of the step where there is one.
  ghost predicate Placed(l: Leg, qty: int) { 0 < qty <= l.offer && Mul(qty, l.price) >= l.minNotional }

  ghost predicate OnStep(l: Leg, qty: int) { l.step > 0 ==> qty % l.step == 0 }

  ghost predicate WithinFilters(l: Leg, qty: int) { Placed(l, qty) && OnStep(l, qty) }

  // The stepped amount is cut to an offer that is not a multiple of the step.
  ghost predicate CutOffStep(l: Leg, budget: int) { l.offer < l.Stepped(budget) && !OnStep(l, l.offer) }

  lemma {:induction false} SizedCoveredAt(path: Path, budget: int, i: nat)
    requires 0 <= budget && i < |path|
    ensures CoveredAt(path, Sized(path, budget), budget, i)
    ensures 0 <= path[i].Recv(Sized(path, budget)[i])
  {
    OrderWithinBudget(path[0], budget);
    if i > 0 {
      SizedCoveredAt(path[1..], path[0].Recv(path[0].OrderQty(budget)), i - 1);
    }
  }

  lemma SizedIsCovered(path: Path, budget: int)
    requires 0 <= budget
    ensures Covered(path, Sized(path, budget), budget)
  {
    forall i: nat | i < |path|
      ensures CoveredAt(path, Sized(path, budget), budget, i)
    {
      SizedCoveredAt(path, budget, i);
    }
  }

  lemma {:induction false} SizedFromZero(path: Path)
    ensures forall i :: 0 <= i < |path| ==> Sized(path, 0)[i] == 0
  {
    if path != [] {
      OrderWithinBudget(path[0], 0);
      SizedFromZero(path[1..]);
    }
  }

  // Backward induction: money arriving at the end means every order was placed.
  lemma {:induction false} PositiveOutcomeMeansEveryOrderPlaced(path: Path, budget: int)
    requires 0 <= budget && path != []
    requires path[|path| - 1].Recv(Sized(path, budget)[|path| - 1]) > 0
    ensures forall i :: 0 <= i < |path| ==> Placed(path[i], Sized(path, budget)[i])
  {
    var qty, qtys := path[0].OrderQty(budget), Sized(path, budget);
    OrderWithinBudget(path[0], budget);
    var got := path[0].Recv(qty);
    if |path| == 1 {
      assert qty > 0;
    } else {
      var rest := path[1..];
      assert rest[|rest| - 1] == path[|path| - 1];
      if got == 0 {
        SizedFromZero(rest);
      }
      PositiveOutcomeMeansEveryOrderPlaced(rest, got);
      assert forall i :: 1 <= i < |path| ==> path[i] == rest[i - 1] && qtys[i] == Sized(rest, got)[i - 1];
    }
  }

  // ----- the plan of an opportunity -----

  // A positive profit means that what comes back, less the commission once per leg, exceeds what
  // was spent.
  lemma ProfitMeansGain(received: int, spent: int, legs: nat, relativeValue: int, commission: int)
    requires 0 <= received && 0 <= spent && 0 <= relativeValue && 0 <= commission
    requires Mul(Mul(received, K - Mul(commission, legs * K)) - spent, relativeValue) > 0
    ensures received > spent
    ensures received * (K - legs * commission) > spent * K
  {
    CommissionExact(commission, legs);
    var factor := K - Mul(commission, legs * K);
    NetBelow(received, factor, spent);
    hide Mul;
    MulAtMostOne(received, factor);
    MulPositive(Mul(received, factor) - spent, relativeValue);
  }

  // What the plan gains of the starting asset after one commission per leg, in plain integers.
  ghost function NetGain(path: Path, qtys: seq<int>, commission: int): int
    requires |qtys| == |path| > 0
  {
    var n := |path|;
    path[n - 1].Recv(qtys[n - 1]) * (K - n * commission) / K - path[0].Used(qtys[0])
  }

  // The profit is the value of the net gain at the relative value of the starting asset, rounded
  // down: nothing if that asset has no value, and not positive if there is no gain.
  lemma ProfitIsValue(path: Path, qtys: seq<int>, relativeValue: nat, commission: nat)
    requires |qtys| == |path| > 0
    requires path[|path| - 1].Recv(qtys[|path| - 1]) >= 0 && path[0].Used(qtys[0]) >= 0
    ensures var g, p := NetGain(path, qtys, commission), Profit(path, qtys, relativeValue, commission);
      && (g >= 0 && |path| * commission <= K ==>
            p == g * relativeValue / K && p * K <= g * relativeValue < p * K + K)
      && (g < 0 || |path| * commission > K ==> p <= 0)
      && (relativeValue == 0 ==> p == 0)
  {
    var n := |path|;
    var received, spent := path[n - 1].Recv(qtys[n - 1]), path[0].Used(qtys[0]);
    CommissionExact(commission, n);
    var factor := K - n * commission;
    if factor >= 0 {
      MulIsPlain(received, factor);
    } else {
      MulOfNegative(received, factor);
    }
    var gain := Mul(received, factor) - spent;
    MulByZero(gain);
    if gain >= 0 {
      MulIsPlain(gain, relativeValue);
      QuotientBounds(gain * relativeValue, K);
    } else {
      MulOfNegative(relativeValue, gain);
      assert gain * relativeValue == relativeValue * gain;
    }
    hide Leg.Used, Leg.Recv;
  }

  lemma MulOfNegative(a: nat, b: int)
    requires b < 0
    ensures Mul(a, b) <= 0
  {
    assert a * b <= 0;
  }

  lemma MulByZero(a: int)
    ensures Mul(a, 0) == 0
  {
  }

  lemma CommissionExact(commission: nat, legs: nat)
    ensures Mul(commission, legs * K) == legs * commission
  {
    var n := legs * commission;
    assert commission * (legs * K) == n * K;
    QuotientUnique(n * K, K, n);
  }

  lemma NetBelow(received: int, factor: int, spent: int)
    requires 0 <= received && 0 <= spent
    ensures Mul(received, factor) > spent ==> received * factor > spent * K
  {
    if factor >= 0 {
      MulBounds(received, factor);
    } else {
      ScaleMonotone(factor, 0, received);
    }
  }

  // An opportunity whose planned profit is positive returns more of the starting asset than it
  // spends, even net of commission on every leg, spends no more than the budget, covers every
  // later leg from the leg before it, and passes every filter of the exchange on each order, save
  // the step size where a LONG order above price 1 is cut to an offer off the step.
  lemma ProfitablePlanIsSound(path: Path, budget: int, relativeValue: int, commission: int)
    requires 0 <= budget && path != [] && 0 <= relativeValue && 0 <= commission
    requires Profit(path, Plan(path, budget), relativeValue, commission) > 0
    ensures var qtys, n := Plan(path, budget), |path|;
      && 0 <= Capacity(path, qtys) <= budget
      && path[n - 1].Recv(qtys[n - 1]) > Capacity(path, qtys)
      && path[n - 1].Recv(qtys[n - 1]) * (K - n * commission) > Capacity(path, qtys) * K
      && Covered(path, qtys, budget)
      && (forall i: nat :: i < n ==> Placed(path[i], qtys[i]))
      && (forall i: nat :: i < n ==> (WithinFilters(path[i], qtys[i]) <==> !OffStepAt(path, budget, i)))
  {
    hide Mul, OnStep, OffStepAt;
    var qtys, n := Plan(path, budget), |path|;
    var start := Backward(path, Forward(path, budget));
    BudgetSoundness(path, budget);
    SizedIsCovered(path, start);
    SizedCoveredAt(path, start, 0);
    SizedCoveredAt(path, start, n - 1);
    forall i: nat | i < n
      ensures CoveredAt(path, qtys, budget, i)
    {
      assert CoveredAt(path, qtys, start, i);
    }
    ProfitMeansGain(path[n - 1].Recv(qtys[n - 1]), Capacity(path, qtys), n, relativeValue, commission);
    PositiveOutcomeMeansEveryOrderPlaced(path, start);
    forall i: nat | i < n
      ensures WithinFilters(path[i], qtys[i]) <==> !OffStepAt(path, budget, i)
    {
      PlanOffStepExactly(path, budget, i);
    }
  }

  // ----- step size -----

  // `recalculateOrderQty` is documented to give a multiple of the step. A placed order is one
  // exactly when it was not cut to an offer that is none.
  lemma StepMultipleExactly(l: Leg, budget: int)
    requires 0 <= budget && l.OrderQty(budget) > 0
    ensures OnStep(l, l.OrderQty(budget)) <==> !CutOffStep(l, budget)
  {
    var raw := if l.position.Long? then Div(budget, l.price) else budget;
    if l.position.Long? && l.price > 0 {
      DivBounds(budget, l.price);
    }
    FmodOfNonnegative(raw, l.step);
    if l.step > 0 {
      FmodOfNonnegative(l.Stepped(budget), l.step);
    }
  }

  // The most the plan can step an order up to before the offer cuts it.
  function StepLimit(l: Leg): int { if l.position.Long? then Mul(l.offer, l.price) else l.offer }

  // A leg given no more than the backward pass asks of it, for an outcome the forward pass allows,
  // is stepped within its limit and hands on no more than that outcome.
  lemma LegSteppedWithin(l: Leg, f: int, outcome: int, acc: int)
    requires 0 <= f && 0 <= outcome <= l.Forward(f) && 0 <= acc <= l.Backward(outcome)
    requires l.position.Long? ==> l.price > 0
    ensures l.Stepped(acc) <= StepLimit(l)
    ensures 0 <= l.Recv(l.OrderQty(acc)) <= outcome
  {
    OrderWithinBudget(l, acc);
    if l.position.Long? {
      LongSteppedWithin(l, f, outcome, acc);
    } else if l.price > 0 {
      ShortSteppedWithin(l, f, outcome, acc);
    }
  }

  lemma LongSteppedWithin(l: Leg, f: int, outcome: int, acc: int)
    requires l.position.Long? && l.price > 0
    requires 0 <= f && 0 <= outcome <= l.Forward(f) && 0 <= acc <= l.Backward(outcome)
    ensures l.Stepped(acc) <= StepLimit(l) && l.OrderQty(acc) <= outcome
  {
    var p, cost := l.price, Mul(l.offer, l.price);
    MulBounds(l.offer, p);
    MulBounds(cost, p);
    DivBounds(acc, p);
    FmodOfNonnegative(Div(acc, p), l.step);
    DivMonotone(acc, Mul(outcome, p), p);
    DivAfterMul(outcome, p);
    DivMonotone(Min(f, l.Cap()), Mul(cost, p), p);
    DivAfterMul(cost, p);
    hide Mul, Div, Fmod;
  }

  lemma ShortSteppedWithin(l: Leg, f: int, outcome: int, acc: int)
    requires l.position.Short? && l.price > 0
    requires 0 <= f && 0 <= outcome <= l.Forward(f) && 0 <= acc <= l.Backward(outcome)
    ensures l.Stepped(acc) <= StepLimit(l) && l.Recv(l.OrderQty(acc)) <= outcome
  {
    var p, x := l.price, Min(f, l.offer);
    DivBounds(outcome, p);
    FmodOfNonnegative(acc, l.step);
    DivMonotone(outcome, Mul(x, p), p);
    DivAfterMul(x, p);
    OrderWithinBudget(l, acc);
    MulMonotone(l.OrderQty(acc), Div(outcome, p), p);
    MulAfterDiv(outcome, p);
    hide Mul, Div, Fmod;
  }

  // Along a whole path no leg is asked to step above its limit.
  lemma {:induction false} SteppedWithin(path: Path, f: int, acc: int, i: nat)
    requires i < |path| && 0 <= f && 0 <= acc <= Backward(path, Forward(path, f))
    ensures path[i].Stepped(Arriving(path, Sized(path, acc), acc, i)) <= StepLimit(path[i])
  {
    var l, rest := path[0], path[1..];
    MulBounds(l.offer, l.price);
    if l.position.Long? && l.price == 0 {
      BackwardOfZero(path);
      OrderWithinBudget(l, acc);
      if i > 0 {
        BudgetSoundness(rest, 0);
        SteppedWithin(rest, 0, 0, i - 1);
      }
    } else {
      LegRoundTripNeverGrows(l, f);
      BudgetSoundness(rest, l.Forward(f));
      LegSteppedWithin(l, f, Backward(rest, Forward(rest, l.Forward(f))), acc);
      if i > 0 {
        SteppedWithin(rest, l.Forward(f), l.Recv(l.OrderQty(acc)), i - 1);
      }
    }
  }

  // Order i of the plan is cut to an offer off the step and is still worth placing.
  ghost predicate OffStepAt(path: Path, budget: int, i: nat)
    requires i < |path|
  {
    var l, start := path[i], Backward(path, Forward(path, budget));
    && l.position.Long? && l.price > K
    && CutOffStep(l, Arriving(path, Plan(path, budget), start, i))
    && Mul(l.offer, l.price) >= l.minNotional
  }

  lemma {:induction false} SizedAt(path: Path, acc: int, i: nat)
    requires i < |path|
    ensures Sized(path, acc)[i] == path[i].OrderQty(Arriving(path, Sized(path, acc), acc, i))
  {
    if i > 0 {
      SizedAt(path[1..], path[0].Recv(path[0].OrderQty(acc)), i - 1);
    }
  }

  // A planned order misses its step exactly there: SHORT orders and LONG orders priced at most 1
  // are always on step, whatever the offer.
  lemma PlanOffStepExactly(path: Path, budget: int, i: nat)
    requires 0 <= budget && i < |path|
    ensures !OnStep(path[i], Plan(path, budget)[i]) <==> OffStepAt(path, budget, i)
  {
    var l, start := path[i], Backward(path, Forward(path, budget));
    BudgetSoundness(path, budget);
    SizedAt(path, start, i);
    SizedCoveredAt(path, start, i);
    SteppedWithin(path, budget, start, i);
    var arriving := Arriving(path, Plan(path, budget), start, i);
    OrderWithinBudget(l, arriving);
    if l.OrderQty(arriving) > 0 {
      StepMultipleExactly(l, arriving);
    }
    if l.price <= K {
      MulAtMostOne(l.offer, l.price);
    }
    hide Mul, Backward, Forward, Plan, Arriving;
  }

  // Three legs, from A to B to C and back. The first offers 3 where the step is 2.
  function OddOffer(): Path {
    [Leg("BA", Long, 2 * K, 3, 2, 0, "A", "B"),
     Leg("BC", Short, 10 * K, 100, 1, 0, "B", "C"),
     Leg("CA", Short, K, 100, 1, 0, "C", "A")]
  }

  lemma OddOfferPasses()
    ensures Forward(OddOffer(), 100) == 60 && Backward(OddOffer(), 60) == 12
  {
    var p := OddOffer();
    assert p[1..] == [p[1], p[2]] && p[2..] == [p[2]] && p[3..] == [];
    assert p[0].Forward(100) == 6 && p[1].Forward(6) == 60 && p[2].Forward(60) == 60;
    assert p[2].Backward(60) == 60 && p[1].Backward(60) == 6 && p[0].Backward(6) == 12;
    assert Forward(p[2..], 60) == 60 && Forward(p[1..], 6) == 60;
    assert Backward(p[2..], 60) == 60 && Backward(p[1..], 60) == 6;
  }

  lemma OddOfferSized()
    ensures Sized(OddOffer(), 12) == [3, 3, 30]
  {
    var p := OddOffer();
    assert p[1..] == [p[1], p[2]] && p[2..] == [p[2]] && p[3..] == [];
    assert p[0].OrderQty(12) == 3 && p[1].OrderQty(3) == 3 && p[2].OrderQty(30) == 30;
    assert p[0].Recv(3) == 3 && p[1].Recv(3) == 30;
    hide Leg.OrderQty, Leg.Recv;
    assert Sized(p[2..], 30) == [30] && Sized(p[1..], 3) == [3, 30];
  }

  // A profitable plan that buys the 3 on offer, which is no multiple of 2.
  lemma PlanCanMissStep()
    ensures Plan(OddOffer(), 100) == [3, 3, 30] && Profit(OddOffer(), [3, 3, 30], K, 0) == 24
    ensures !OnStep(OddOffer()[0], 3)
  {
    OddOfferPasses();
    OddOfferSized();
    hide Forward, Backward, Sized;
  }

  // ----- truncation loss -----

  // Bound on what one leg loses when its output is pulled back.
  function LegLoss(l: Leg): nat
    requires l.price > 0
  {
    if l.position.Long? then CeilDiv(l.price - 1, K) else CeilDiv(K - 1, l.price)
  }

  // A shortfall at a leg's output, pulled back to its input and rounded up.
  function PullBackUp(l: Leg, loss: nat): nat
    requires l.price > 0
  {
    if l.position.Long? then CeilDiv(loss * l.price, K) else CeilDiv(loss * K, l.price)
  }

  ghost predicate Priced(path: Path) { forall l :: l in path ==> l.price > 0 }

  ghost predicate NoCapBinds(path: Path, acc: int)
    requires Priced(path)
  {
    path != [] ==> acc <= path[0].Cap() && NoCapBinds(path[1..], path[0].Forward(acc))
  }

  function PathLoss(path: Path): nat
    requires Priced(path)
  {
    if path == [] then 0 else LegLoss(path[0]) + PullBackUp(path[0], PathLoss(path[1..]))
  }

  lemma CeilDivBound(a: nat, b: nat)
    requires b > 0
    ensures a <= CeilDiv(a, b) * b
  {
    QuotientBounds(a + b - 1, b);
  }

  // With x at most c units of d, floor((n*d - x)/d) is at least n - c.
  lemma FloorLosesAtMost(v: int, n: int, x: nat, d: int, c: nat)
    requires d > 0 && v >= n * d - x && x <= c * d
    ensures v / d >= n - c
  {
    assert (n - c) * d == n * d - c * d;
    QuotientUnique(v, d, n - c);
  }

  lemma LegLossBound(l: Leg, acc: int)
    requires l.price > 0 && 0 <= acc <= l.Cap()
    ensures acc - LegLoss(l) <= l.Backward(l.Forward(acc))
    ensures l.position.Long? ==> LegLoss(l) == (l.price - 1 + K - 1) / K
    ensures l.position.Short? ==> LegLoss(l) == (K - 1 + l.price - 1) / l.price
  {
    var p, y := l.price, l.Forward(acc);
    if l.position.Long? {
      DivBounds(acc, p);
      CeilDivBound(p - 1, K);
      FloorLosesAtMost(y * p, acc, p - 1, K, LegLoss(l));
    } else {
      MulBounds(acc, p);
      DivBounds(y, p);
      CeilDivBound(K - 1, p);
      FloorLosesAtMost(y * K, acc, K - 1, p, LegLoss(l));
    }
  }

  lemma LegBackwardLipschitz(l: Leg, y: int, loss: nat, z: int)
    requires l.price > 0 && 0 <= z && 0 <= y && y - loss <= z
    ensures l.Backward(y) - PullBackUp(l, loss) <= l.Backward(z)
  {
    var p, c := l.price, PullBackUp(l, loss);
    if l.position.Long? {
      MulBounds(y, p);
      CeilDivBound(loss * p, K);
      ScaleMonotone(y - loss, z, p);
      FloorLosesAtMost(z * p, l.Backward(y), loss * p, K, c);
      assert z * p >= y * p - loss * p;
    } else {
      DivBounds(y, p);
      DivBounds(z, p);
      CeilDivBound(loss * K, p);
      FloorLosesAtMost(z * K, l.Backward(y), loss * K, p, c);
    }
  }

  // Forward then backward over a whole path loses at most the legs' losses, each pulled back
  // through the legs before it.
  lemma {:induction false} TruncationLossBound(path: Path, acc: int)
    requires Priced(path) && 0 <= acc && NoCapBinds(path, acc)
    ensures acc - PathLoss(path) <= Backward(path, Forward(path, acc)) <= acc
  {
    BudgetSoundness(path, acc);
    if path != [] {
      var l, y := path[0], path[0].Forward(acc);
      LegRoundTripNeverGrows(l, acc);
      TruncationLossBound(path[1..], y);
      LegLossBound(l, acc);
      var z := Backward(path[1..], Forward(path[1..], y));
      BudgetSoundness(path[1..], y);
      LegBackwardLipschitz(l, y, PathLoss(path[1..]), z);
    }
  }
}
