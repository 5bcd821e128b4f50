/**
 * `parsePriceUpdateFromMarketDataIncrementalRefresh` over the message's list of entries.
 */
module Refresh {

  datatype Optional<T> = Unset | Set(value: T)

  datatype Side = Bid | Offer | OtherType

  datatype Action = New | Change | OtherAction

  datatype Entry = Entry(symbol: Optional<string>, side: Optional<Side>, action: Optional<Action>,
                         price: Optional<int>, size: Optional<int>)

  datatype Quote = Quote(price: int, qty: int)

  datatype PriceUpdate = PriceUpdate(symbol: string, bid: Quote, ask: Quote)

  // A symbol the venue never listed, or a field missing where it is read, is an exception.
  datatype Outcome = Threw | Updates(updates: seq<PriceUpdate>)

  // ----- what the message means -----

  // An entry without a symbol belongs to the symbol of the entry before it.
  function SymbolAt(es: seq<Entry>, i: nat): string
    requires i < |es|
  {
    if es[i].symbol.Set? then es[i].symbol.value else if i == 0 then "" else SymbolAt(es, i - 1)
  }

  predicate Active(e: Entry) { e.action == Set(New) || e.action == Set(Change) }

  // Every field that is read unconditionally is there, and the price where it is read.
  predicate Complete(e: Entry) { e.side.Set? && e.action.Set? && (Active(e) ==> e.price.Set?) }

  predicate Faulty(es: seq<Entry>, known: set<string>, i: nat)
    requires i < |es|
  {
    || SymbolAt(es, i) !in known || es[i].side.Unset? || es[i].action.Unset?
    || ((es[i].action == Set(New) || es[i].action == Set(Change)) && es[i].price.Unset?)
  }

  // The symbols of the first n entries, in order of first appearance.
  function Firsts(es: seq<Entry>, n: nat): seq<string>
    requires n <= |es|
  {
    if n == 0 then []
    else
      var before, s := Firsts(es, n - 1), SymbolAt(es, n - 1);
      if s in before then before else before + [s]
  }

  // Entry i sets this side of this symbol.
  predicate Sets(es: seq<Entry>, i: nat, symbol: string, side: Side)
    requires i < |es|
  {
    SymbolAt(es, i) == symbol && es[i].side == Set(side) && Active(es[i]) && es[i].size.Set? && es[i].price.Set?
  }

  // The last of the first n entries that sets the side, or zeros.
  function LastQuote(es: seq<Entry>, n: nat, symbol: string, side: Side): Quote
    requires n <= |es|
  {
    if n == 0 then Quote(0, 0)
    else if Sets(es, n - 1, symbol, side) then Quote(es[n - 1].price.value, es[n - 1].size.value)
    else LastQuote(es, n - 1, symbol, side)
  }

  // The update that holds a symbol's last quotes.
  function UpdateFor(es: seq<Entry>, n: nat, symbol: string): PriceUpdate
    requires n <= |es|
  {
    PriceUpdate(symbol, LastQuote(es, n, symbol, Bid), LastQuote(es, n, symbol, Offer))
  }

  // The fold as a whole: one update per symbol, holding the last quote of each side.
  ghost predicate Folds(es: seq<Entry>, n: nat, updates: seq<PriceUpdate>)
    requires n <= |es|
  {
    && |updates| == |Firsts(es, n)|
    && forall k :: 0 <= k < |updates| ==>
         updates[k] == UpdateFor(es, n, Firsts(es, n)[k])
  }

  ghost predicate Appears(es: seq<Entry>, n: nat, symbol: string)
    requires n <= |es|
  {
    exists i: nat :: i < n && SymbolAt(es, i) == symbol
  }

  lemma AppearsStep(es: seq<Entry>, n: nat, symbol: string)
    requires 0 < n <= |es|
    ensures Appears(es, n, symbol) <==> Appears(es, n - 1, symbol) || SymbolAt(es, n - 1) == symbol
  {
    hide SymbolAt;
    if Appears(es, n - 1, symbol) {
      var i: nat :| i < n - 1 && SymbolAt(es, i) == symbol;
      assert i < n;
    }
  }

  lemma {:induction false} FirstsExactly(es: seq<Entry>, n: nat)
    requires n <= |es|
    ensures forall j, k :: 0 <= j < k < |Firsts(es, n)| ==> Firsts(es, n)[j] != Firsts(es, n)[k]
    ensures forall s :: s in Firsts(es, n) <==> Appears(es, n, s)
  {
    if n > 0 {
      FirstsExactly(es, n - 1);
      hide Appears, SymbolAt;
      forall s
        ensures s in Firsts(es, n) <==> Appears(es, n, s)
      {
        AppearsStep(es, n, s);
      }
    }
  }

  // First-appearance order: where a symbol occurs, every symbol listed before it has occurred.
  lemma {:induction false} FirstsInOrder(es: seq<Entry>, n: nat, j: nat, k: nat, i: nat)
    requires n <= |es| && j < k < |Firsts(es, n)| && i < n && SymbolAt(es, i) == Firsts(es, n)[k]
    ensures Appears(es, i, Firsts(es, n)[j])
  {
    var before := Firsts(es, n - 1);
    FirstsExactly(es, n - 1);
    hide SymbolAt;
    if i < n - 1 {
      assert Appears(es, n - 1, SymbolAt(es, i));
      FirstsExactly(es, n);
      FirstsInOrder(es, n - 1, j, k, i);
    } else {
      assert before[j] in before;
    }
  }

  // A side that no entry sets is zero, also for a symbol that occurs.
  lemma {:induction false} UnseenIsZero(es: seq<Entry>, n: nat, symbol: string, side: Side)
    requires n <= |es| && forall i: nat :: i < n ==> !Sets(es, i, symbol, side)
    ensures LastQuote(es, n, symbol, side) == Quote(0, 0)
  {
    if n > 0 {
      UnseenIsZero(es, n - 1, symbol, side);
    }
  }

  // The quote kept is the one no later entry replaces.
  lemma {:induction false} LastQuoteIsLast(es: seq<Entry>, n: nat, symbol: string, side: Side, i: nat)
    requires i < n <= |es| && Sets(es, i, symbol, side)
    requires forall j: nat :: i < j < n ==> !Sets(es, j, symbol, side)
    ensures LastQuote(es, n, symbol, side) == Quote(es[i].price.value, es[i].size.value)
  {
    if i < n - 1 {
      LastQuoteIsLast(es, n - 1, symbol, side, i);
    }
  }

  // ----- what the updates hold, entry by entry -----

  // Entry i is a new or changed quote with a size for this side of this symbol.
  ghost predicate Quotes(es: seq<Entry>, i: nat, symbol: string, side: Side)
    requires i < |es|
  {
    && SymbolAt(es, i) == symbol && es[i].side == Set(side) && es[i].size.Set?
    && (es[i].action == Set(New) || es[i].action == Set(Change))
  }

  ghost predicate LastQuotes(es: seq<Entry>, i: nat, symbol: string, side: Side) {
    i < |es| && Quotes(es, i, symbol, side) && forall j: nat :: i < j < |es| ==> !Quotes(es, j, symbol, side)
  }

  // The side holds the price and size of the last such entry, or zeros when there is none.
  ghost predicate Holds(es: seq<Entry>, symbol: string, side: Side, q: Quote) {
    && (forall i: nat :: LastQuotes(es, i, symbol, side) ==> es[i].price == Set(q.price) && es[i].size == Set(q.qty))
    && ((forall i: nat :: i < |es| ==> !Quotes(es, i, symbol, side)) ==> q == Quote(0, 0))
  }

  // The bid holds bids and the ask holds offers, for each symbol that occurs, once.
  ghost predicate Faithful(es: seq<Entry>, updates: seq<PriceUpdate>) {
    && (forall k :: 0 <= k < |updates| ==>
          Holds(es, updates[k].symbol, Bid, updates[k].bid) && Holds(es, updates[k].symbol, Offer, updates[k].ask))
    && (forall j, k :: 0 <= j < k < |updates| ==> updates[j].symbol != updates[k].symbol)
    && forall i: nat :: i < |es| ==> exists k :: 0 <= k < |updates| && updates[k].symbol == SymbolAt(es, i)
  }

  lemma QuoteHeld(es: seq<Entry>, known: set<string>, symbol: string, side: Side)
    requires forall i: nat :: i < |es| ==> !Faulty(es, known, i)
    ensures Holds(es, symbol, side, LastQuote(es, |es|, symbol, side))
  {
    assert forall i: nat :: i < |es| ==> (Quotes(es, i, symbol, side) <==> Sets(es, i, symbol, side)) by {
      forall i: nat | i < |es|
        ensures Quotes(es, i, symbol, side) <==> Sets(es, i, symbol, side)
      {
        assert !Faulty(es, known, i);
      }
    }
    hide Faulty, Quotes, Sets, SymbolAt, LastQuote;
    forall i: nat | LastQuotes(es, i, symbol, side)
      ensures var q := LastQuote(es, |es|, symbol, side); es[i].price == Set(q.price) && es[i].size == Set(q.qty)
    {
      LastQuoteIsLast(es, |es|, symbol, side, i);
      SetsHasBoth(es, i, symbol, side);
    }
    if forall i: nat :: i < |es| ==> !Quotes(es, i, symbol, side) {
      UnseenIsZero(es, |es|, symbol, side);
    }
  }

  lemma SetsHasBoth(es: seq<Entry>, i: nat, symbol: string, side: Side)
    requires i < |es| && Sets(es, i, symbol, side)
    ensures es[i].price.Set? && es[i].size.Set?
  {
  }

  lemma FoldIsFaithful(es: seq<Entry>, known: set<string>, updates: seq<PriceUpdate>)
    requires Folds(es, |es|, updates) && forall i: nat :: i < |es| ==> !Faulty(es, known, i)
    ensures Faithful(es, updates)
  {
    FirstsExactly(es, |es|);
    hide Faulty, SymbolAt, LastQuote, Firsts, Holds;
    forall k | 0 <= k < |updates|
      ensures Holds(es, updates[k].symbol, Bid, updates[k].bid) && Holds(es, updates[k].symbol, Offer, updates[k].ask)
    {
      QuoteHeld(es, known, updates[k].symbol, Bid);
      QuoteHeld(es, known, updates[k].symbol, Offer);
    }
    forall i: nat | i < |es|
      ensures exists k :: 0 <= k < |updates| && updates[k].symbol == SymbolAt(es, i)
    {
      assert Appears(es, |es|, SymbolAt(es, i));
      var k :| 0 <= k < |updates| && Firsts(es, |es|)[k] == SymbolAt(es, i);
      assert updates[k].symbol == SymbolAt(es, i);
    }
  }

  // The symbol of an entry is the one named last, up to and including the entry.
  lemma {:induction false} SymbolIsLastNamed(es: seq<Entry>, i: nat, j: nat)
    requires j <= i < |es| && es[j].symbol.Set?
    requires forall k :: j < k <= i ==> es[k].symbol.Unset?
    ensures SymbolAt(es, i) == es[j].symbol.value
  {
    if j < i {
      SymbolIsLastNamed(es, i - 1, j);
    }
  }

  // ----- the loop -----

  // The index map names each update's position.
  ghost predicate Indexed(index: map<string, nat>, updates: seq<PriceUpdate>) {
    && (forall s :: s in index ==> index[s] < |updates| && updates[index[s]].symbol == s)
    && forall k :: 0 <= k < |updates| ==> updates[k].symbol in index && index[updates[k].symbol] == k
  }

  function Refreshed(u: PriceUpdate, e: Entry): PriceUpdate {
    if Active(e) && e.price.Set? && e.size.Set? then
      match e.side
      case Set(Bid) => u.(bid := Quote(e.price.value, e.size.value))
      case Set(Offer) => u.(ask := Quote(e.price.value, e.size.value))
      case _ => u
    else u
  }

  // An entry leaves the quotes of other symbols alone.
  lemma OtherSymbolKept(es: seq<Entry>, n: nat, symbol: string, side: Side)
    requires n < |es| && SymbolAt(es, n) != symbol
    ensures LastQuote(es, n + 1, symbol, side) == LastQuote(es, n, symbol, side)
  {
  }

  lemma RefreshedIsNext(es: seq<Entry>, n: nat)
    requires n < |es|
    ensures var s := SymbolAt(es, n); Refreshed(UpdateFor(es, n, s), es[n]) == UpdateFor(es, n + 1, s)
  {
    hide SymbolAt;
  }

  lemma UnseenUpdate(es: seq<Entry>, n: nat, symbol: string)
    requires n <= |es| && symbol !in Firsts(es, n)
    ensures UpdateFor(es, n, symbol) == PriceUpdate(symbol, Quote(0, 0), Quote(0, 0))
  {
    FirstsExactly(es, n);
    assert !Appears(es, n, symbol);
    assert forall i: nat :: i < n ==> SymbolAt(es, i) != symbol;
    hide SymbolAt, Firsts, LastQuote;
    UnseenIsZero(es, n, symbol, Bid);
    UnseenIsZero(es, n, symbol, Offer);
  }

  lemma OneMoreFirst(es: seq<Entry>, n: nat)
    requires n < |es|
    ensures var s, before := SymbolAt(es, n), Firsts(es, n);
      Firsts(es, n + 1) == if s in before then before else before + [s]
  {
  }

  lemma FoldsNew(es: seq<Entry>, n: nat, updates: seq<PriceUpdate>)
    requires n < |es| && Folds(es, n, updates) && SymbolAt(es, n) !in Firsts(es, n)
    ensures var s := SymbolAt(es, n);
      Folds(es, n + 1, updates + [Refreshed(PriceUpdate(s, Quote(0, 0), Quote(0, 0)), es[n])])
  {
    hide SymbolAt, Firsts, LastQuote, Refreshed;
    var s, before := SymbolAt(es, n), Firsts(es, n);
    UnseenUpdate(es, n, s);
    RefreshedIsNext(es, n);
    OneMoreFirst(es, n);
    forall k | 0 <= k < |updates|
      ensures UpdateFor(es, n + 1, before[k]) == UpdateFor(es, n, before[k])
    {
      OtherSymbolKept(es, n, before[k], Bid);
      OtherSymbolKept(es, n, before[k], Offer);
    }
  }

  lemma FoldsOld(es: seq<Entry>, n: nat, updates: seq<PriceUpdate>, k: nat)
    requires n < |es| && Folds(es, n, updates) && k < |updates| && updates[k].symbol == SymbolAt(es, n)
    ensures Folds(es, n + 1, updates[k := Refreshed(updates[k], es[n])])
  {
    var before := Firsts(es, n);
    FirstsExactly(es, n);
    RefreshedIsNext(es, n);
    assert before[k] == SymbolAt(es, n) && before[k] in before;
    assert Firsts(es, n + 1) == before;
    hide SymbolAt, Firsts, LastQuote, Refreshed, Appears;
    forall j | 0 <= j < |updates| && j != k
      ensures UpdateFor(es, n + 1, before[j]) == UpdateFor(es, n, before[j])
    {
      assert before[j] != before[k];
      OtherSymbolKept(es, n, before[j], Bid);
      OtherSymbolKept(es, n, before[j], Offer);
    }
  }

  // One update per distinct symbol in order of first appearance, each side holding the last
  // effective entry; an exception exactly when some entry is faulty.
  method ParseIncrementalRefresh(es: seq<Entry>, known: set<string>) returns (r: Outcome)
    ensures r.Threw? <==> exists i: nat :: i < |es| && Faulty(es, known, i)
    ensures r.Updates? ==> Folds(es, |es|, r.updates) && Faithful(es, r.updates)
  {
    hide Faulty, Folds, Faithful, SymbolAt;
    r := FoldEntries(es, known);
    if r.Updates? {
      FoldIsFaithful(es, known, r.updates);
    }
  }

  // The loop over the entries.
  method FoldEntries(es: seq<Entry>, known: set<string>) returns (r: Outcome)
    ensures r.Threw? <==> exists i: nat :: i < |es| && Faulty(es, known, i)
    ensures r.Updates? ==> Folds(es, |es|, r.updates)
  {
    var updates: seq<PriceUpdate> := [];
    var index: map<string, nat> := map[];
    var symbol := "";
    assert Folds(es, 0, updates) && Indexed(index, updates);
    hide Folds, Indexed, Faulty, SymbolAt;
    for n := 0 to |es|
      invariant symbol == if n == 0 then "" else SymbolAt(es, n - 1)
      invariant forall i: nat :: i < n ==> !Faulty(es, known, i)
      invariant Folds(es, n, updates) && Indexed(index, updates)
    {
      EntryAt(es, n, known);
      if es[n].side.Unset? {
        return Threw;
      }
      if es[n].symbol.Set? {
        symbol := es[n].symbol.value;
      }
      var threw;
      threw, updates, index := FoldEntry(es, n, known, symbol, updates, index);
      if threw {
        return Threw;
      }
    }
    r := Updates(updates);
  }

  // One entry: find or create the symbol's update, then set its side if the entry is effective.
  method FoldEntry(es: seq<Entry>, n: nat, known: set<string>, symbol: string,
                   updates: seq<PriceUpdate>, index: map<string, nat>)
    returns (threw: bool, after: seq<PriceUpdate>, index': map<string, nat>)
    requires n < |es| && symbol == SymbolAt(es, n) && es[n].side.Set?
    requires Folds(es, n, updates) && Indexed(index, updates) && forall i: nat :: i < n ==> !Faulty(es, known, i)
    ensures threw <==> Faulty(es, known, n)
    ensures !threw ==> Folds(es, n + 1, after) && Indexed(index', after)
  {
    hide Folds, Indexed, Refreshed, Faulty, SymbolAt;
    EntryAt(es, n, known);
    var e := es[n];
    threw, after, index' := true, updates, index;
    if symbol in index {
      KeepsOld(es, n, known, updates, index);
    } else if symbol !in known {
      return;
    }
    if e.action.Unset? || (Active(e) && e.price.Unset?) {
      return;
    }
    threw := false;
    if symbol in index {
      var k := index[symbol];
      after := updates[k := Refreshed(updates[k], e)];
    } else {
      KeepsNew(es, n, updates, index);
      after := updates + [Refreshed(PriceUpdate(symbol, Quote(0, 0), Quote(0, 0)), e)];
      index' := index[symbol := |after| - 1];
    }
  }

  lemma EntryAt(es: seq<Entry>, n: nat, known: set<string>)
    requires n < |es|
    ensures SymbolAt(es, n) == if es[n].symbol.Set? then es[n].symbol.value else if n == 0 then "" else SymbolAt(es, n - 1)
    ensures Faulty(es, known, n) <==> SymbolAt(es, n) !in known || !Complete(es[n])
  {
  }

  lemma KeepsOld(es: seq<Entry>, n: nat, known: set<string>, updates: seq<PriceUpdate>, index: map<string, nat>)
    requires n < |es| && Folds(es, n, updates) && Indexed(index, updates) && SymbolAt(es, n) in index
    requires forall i: nat :: i < n ==> !Faulty(es, known, i)
    ensures SymbolAt(es, n) in known && index[SymbolAt(es, n)] < |updates|
    ensures var k := index[SymbolAt(es, n)]; var next := updates[k := Refreshed(updates[k], es[n])];
      Folds(es, n + 1, next) && Indexed(index, next)
  {
    hide Folds, Faulty, SymbolAt;
    var k := index[SymbolAt(es, n)];
    NotFaultySoFar(es, n, known, updates, k);
    FoldsOld(es, n, updates, k);
    assert Refreshed(updates[k], es[n]).symbol == updates[k].symbol;
    hide Refreshed;
  }

  lemma KeepsNew(es: seq<Entry>, n: nat, updates: seq<PriceUpdate>, index: map<string, nat>)
    requires n < |es| && Folds(es, n, updates) && Indexed(index, updates) && SymbolAt(es, n) !in index
    ensures var s := SymbolAt(es, n);
      var next := updates + [Refreshed(PriceUpdate(s, Quote(0, 0), Quote(0, 0)), es[n])];
      Folds(es, n + 1, next) && Indexed(index[s := |updates|], next)
  {
    hide Folds, SymbolAt;
    var s := SymbolAt(es, n);
    NewSymbol(es, n, updates, index, s);
    FoldsNew(es, n, updates);
    assert Refreshed(PriceUpdate(s, Quote(0, 0), Quote(0, 0)), es[n]).symbol == s;
    hide Refreshed;
  }

  lemma NotFaultySoFar(es: seq<Entry>, n: nat, known: set<string>, updates: seq<PriceUpdate>, k: nat)
    requires n < |es| && Folds(es, n, updates) && k < |updates| && updates[k].symbol == SymbolAt(es, n)
    requires forall i: nat :: i < n ==> !Faulty(es, known, i)
    ensures SymbolAt(es, n) in known
  {
    FirstsExactly(es, n);
    var s := Firsts(es, n)[k];
    assert Appears(es, n, s);
    var i: nat :| i < n && SymbolAt(es, i) == s;
    assert !Faulty(es, known, i);
  }

  lemma NewSymbol(es: seq<Entry>, n: nat, updates: seq<PriceUpdate>, index: map<string, nat>, symbol: string)
    requires n < |es| && Folds(es, n, updates) && Indexed(index, updates) && symbol !in index
    ensures symbol !in Firsts(es, n)
  {
    forall k | 0 <= k < |updates|
      ensures Firsts(es, n)[k] != symbol
    {
      assert updates[k].symbol in index;
    }
  }
}
