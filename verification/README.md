# Harjus: verified model of the trading worker and the FIX kernels

Harjus is a triangular-arbitrage bot. Price updates reach a worker, which sizes every trading path
through the changed symbol in truncating fixed-point arithmetic, launches the most profitable one it
can pay for (reserving its symbols and debiting the starting asset), sends one order per leg, and
books the execution reports that come back until the execution settles. The FIX engine beside it
supplies dates, integer and timestamp text, sorted field vectors and a recursive spin mutex.

The project models both halves in Dafny. Objects that the source mutates (`Symbol`, `Trade`,
`Opportunity`, `Balance`, `ReservedTrades`, `Worker`, `FieldMap`) are classes whose methods are proved
against value-level functions; loops over buffers keep their arrays; what holds over whole paths,
whole runs and all interleavings is proved about those functions.

| file | contents |
|---|---|
| `PreciseNumber.dfy` | scaled-integer arithmetic with GMP's truncating division |
| `Sizing.dfy` | a path's forward, backward and sizing passes on values; soundness and loss bounds |
| `Trading.dfy` | `Symbol`, `Trade` and `Opportunity` objects, proved against `Sizing` |
| `Ledger.dfy` | the worker's books as a value, launch and report transitions, their invariant, drain |
| `Confluence.dfy` | reports commute; the first answer of each order decides the outcome |
| `Runs.dfy` | price ticks, runs, conservation, launch followed by answers |
| `Gains.dfy` | a planned execution on a closed chain gains; one whose order misses the step |
| `Settlement.dfy` | one execution among many, from launch to settlement in any run; no run gets poorer |
| `Worker.dfy` | `Balance`, `ReservedTrades` and `Worker` objects, proved against `Ledger` and `Runs` |
| `Arbmapper.dfy` | currency graph, cycle rotations and what they pay back, asset filter |
| `Mutex.dfy` | the recursive spin mutex, any number of threads, all interleavings |
| `Calendar.dfy` | Julian day numbers, Gregorian dates, weekday |
| `IntText.dfy`, `IntParse.dfy` | integer printer and overflow-checked parser |
| `Timestamp.dfy` | UTCTimestamp text of FIX 4.4 |
| `FieldVector.dfy` | field comparators and the sorted field vector as a map |
| `Refresh.dfy` | incremental market-data refresh |

`dafny verify dfyconfig.toml` checks everything.

Reading conventions: amounts are integers in units of 10^-10. Prices, quantities, steps, commission
and relative values are nonnegative. A symbol name stands for one symbol object and each trading path
owns its trades. Ids drawn at random by the source are parameters; what happens when one repeats is
modelled (`emplace` keeps the old entry) and `Ledger.LaunchKeepsInvExactly` says exactly what that
costs. Where the source throws, the model returns a value saying so.

Results that differ from what the code's own comments say or a caller would expect:

- `include/Trade.h:75` promises a quantity that is a multiple of the step, but the code cuts to the offer
  after stepping. `Sizing.PlanOffStepExactly` says exactly which planned orders miss the step (only LONG
  orders above price 1 can), and `Gains.EligibleCanMissStep` is a launch that does.
- `getWeekDay` is right exactly when the March-based year is 0 or later or a leap year
  (`Calendar.WeekDayExactly`); 28 February of year 0 is a date it gets wrong.
- A partial fill changes no state: its fees are added to a copy of the delta that is dropped
  (`Ledger.TracelessExactly`, `Ledger.PartialFillDropsFee`). The conservation law therefore counts
  full-quantity fills only.
- The timestamp printer accepts years before 0 and times past midnight that its own parser refuses
  (`Timestamp.ReadsBackExactly`, `Timestamp.MidnightUnreadable`), and the parser accepts texts that print
  as something else (`Timestamp.PrintOfParseExactly`, `Timestamp.InexactTextsAccepted`).
- `Worker.h` speaks of launching two opportunities per price update; the code launches at most one.

## Model

| member | source | states |
|---|---|---|
| `PreciseNumber.TruncDivExactly` | src/PreciseNumber.cpp:53-91 | the quotient is the only one whose remainder is smaller than the divisor and on the dividend's side of zero, for all signs |
| `PreciseNumber.MulExactly` | src/PreciseNumber.cpp:53-66 | the product of two scaled numbers is the exact product over K, truncated toward zero |
| `PreciseNumber.DivExactly` | src/PreciseNumber.cpp:68-91 | the quotient of two scaled numbers is exact up to truncation toward zero; a zero divisor gives zero to one operator and leaves the number alone in the other |
| `PreciseNumber.MulAfterDiv` | src/PreciseNumber.cpp:53-79 | dividing and multiplying back by the same price never exceeds the start, through truncation |
| `PreciseNumber.DivAfterMul` | src/PreciseNumber.cpp:53-91 | multiplying and dividing back by the same price never exceeds the start, through truncation |
| `PreciseNumber.MulMinusOne` | src/PreciseNumber.cpp:53-60 | multiplying by PreciseNumber{"-1"} is exact negation, also for negative numbers |
| `PreciseNumber.FmodOfNonnegative` | src/PreciseNumber.cpp:93-103 | subtracting fmod leaves a nonnegative multiple of the divisor; a zero divisor subtracts nothing |
| `Sizing.OrderWithinBudget` | src/Trade.cpp:28-74 | a sized order is within the offer, spends at most its budget, meets the minimum notional when nonzero, and is zero on a zero budget |
| `Sizing.OrderIsLargest` | src/Trade.cpp:28-50 | no step multiple that the budget pays for and the exchange would take is larger than the order, so an order is zero only when there is none |
| `Sizing.LegInPlainIntegers` | src/Opportunity.cpp:34-70 | what an order spends and receives and what either pass does to an amount over one leg, written in plain integers with each rounding |
| `Sizing.UnpricedPlansNothing` | src/Opportunity.cpp:35-39 | a path with a missing price on any leg is planned with zero orders |
| `Sizing.BudgetSoundness` | src/Opportunity.cpp:23-73 | for every path and nonnegative budget, the backward pass of the forward pass asks for at most the budget, whatever caps, missing prices and truncations occur |
| `Sizing.SizedIsCovered` | src/Opportunity.cpp:84-89 | every leg of a sized path spends at most what the leg before it receives, the first at most the starting quantity |
| `Sizing.PositiveOutcomeMeansEveryOrderPlaced` | src/Opportunity.cpp:84-93 | if the last leg receives anything, every leg's order is positive, within its offer and at least the minimum notional |
| `Sizing.ProfitMeansGain` | src/Opportunity.cpp:91-99 | positive profit means the amount received, less one commission per leg, exceeds the amount spent |
| `Sizing.ProfitIsValue` | src/Opportunity.cpp:91-99 | the profit is the net gain times the relative value of the starting asset, rounded down to a unit; zero without a relative value, not positive without a gain |
| `Sizing.ProfitablePlanIsSound` | src/Opportunity.cpp:75-100 | a plan with positive profit is affordable, covered leg by leg, returns more than it takes even net of commission, and each order is positive, on offer and worth the minimum notional; it passes the step filter too if and only if it is not a LONG order above price 1 cut to an offer off the step |
| `Sizing.StepMultipleExactly` | src/Trade.cpp:28-50 | an order placed for any budget is a multiple of the step if and only if it was not cut to an offer that is none |
| `Sizing.SteppedWithin` | src/Opportunity.cpp:23-89 | on every path and budget no SHORT leg is asked to step above its offer, and no LONG leg above the cost of its offer |
| `Sizing.PlanOffStepExactly` | src/Opportunity.cpp:75-89 | for every path and budget, order i of the plan misses its step if and only if its leg is LONG, priced above 1, its stepped budget exceeds an offer that is no multiple, and that offer is worth the minimum notional; all other orders are on step whatever the offer |
| `Sizing.PlanCanMissStep` | src/Trade.cpp:34-39 | a profitable plan of three legs whose first order buys 3 where the step is 2 |
| `Sizing.LegLossBound` | src/Opportunity.cpp:34-44 | forward then backward over one uncapped leg loses at most ceil((p-1)/K) units for LONG and ceil((K-1)/p) for SHORT |
| `Sizing.TruncationLossBound` | src/Opportunity.cpp:23-73 | over a whole uncapped path the loss is at most the legs' losses, each pulled back through the earlier legs and rounded up |
| `Trading.Trade.constructor` | src/Trade.cpp:3-8 | LONG spends the quote asset for the base asset and starts at the quantity asked; SHORT the reverse, at the quantity bid for |
| `Trading.Trade.Quoted` | src/Trade.cpp:16-24 | a LONG trade is priced at the ask and limited by the quantity asked, a SHORT trade at the bid and by the quantity bid for; step and minimum notional are the symbol's |
| `Trading.Trade.RecalculateOrderQty` | src/Trade.cpp:28-50 | the new order quantity is the sizing of the leg the trade currently sees |
| `Trading.Opportunity.MaxQtyAfterTrades` | src/Opportunity.cpp:23-47 | the loop with its early return computes the forward pass of the current snapshot |
| `Trading.Opportunity.StartingAssetQty` | src/Opportunity.cpp:49-73 | the reverse loop with its early return computes the backward pass of the current snapshot |
| `Trading.Opportunity.SizeTrades` | src/Opportunity.cpp:84-89 | the sizing loop leaves every trade with its place in the sized path |
| `Trading.Opportunity.Update` | src/Opportunity.cpp:75-100 | the trades hold the plan for the budget and the profit is the plan's profit |
| `Ledger.LaunchKeepsInvExactly` | src/Worker.cpp:126-159 | a launch on unreserved symbols keeps the books consistent if and only if the execution id and all order ids are fresh and distinct |
| `Ledger.RepeatedOrderIdNeverDrains` | src/Worker.cpp:146-159 | after a launch with a repeated order id, no sequence of reports ever settles the execution |
| `Ledger.LaunchReserves` | src/Worker.cpp:48-53 | after a launch the reserved set is still the disjoint union of the open executions' symbols |
| `Ledger.SettleReserves` | src/Worker.cpp:283-286 | settling frees an execution's own symbols and none held by another |
| `Ledger.ReportKeepsInv` | src/Worker.cpp:162-288 | every report keeps pending counts equal to outstanding orders, failed ids open and reservations exact; the execution lookup never fails and only an unknown status throws |
| `Ledger.ReportTakesOneOrder` | src/Worker.cpp:258-262 | a terminal report for a known order removes exactly that order; any other report removes none |
| `Ledger.TracelessExactly` | src/Worker.cpp:162-243 | in consistent books a report changes nothing if and only if its order is unknown, its status is NEW or unknown, or it is a fill that received less than the order quantity (LONG) or used less than it (SHORT) |
| `Ledger.FailuresNoted` | src/Worker.cpp:194-211 | a refusal or expiry ends its order and marks the execution failed while it stays open; a fill never does, and no other execution is touched |
| `Ledger.PartialFillDropsFee` | src/Worker.cpp:213-237 | a fill of 4 out of 10 that carries a fee leaves the books as they were |
| `Ledger.NoOrdersMeansIdle` | src/Worker.cpp:264-287 | with no outstanding order every map and the reserved set are empty |
| `Ledger.DrainEmptiesBooks` | src/Worker.cpp:315-324 | once every outstanding order has been answered nothing is open |
| `Confluence.ReportsCommute` | src/Worker.cpp:162-288 | two reports commute in every consistent state, whatever their status and executions, unless both end the same order and differ in how |
| `Confluence.ReplayAfterRun` | src/Worker.cpp:171-177 | a report already delivered, among any others, changes nothing when delivered again |
| `Confluence.FirstAnswersDecide` | src/Worker.cpp:162-288 | two deliveries in which every order gets the same first answer end in the same balances, reservations and maps, whatever else they hold and in whatever order |
| `Confluence.DeliveryOrderIrrelevant` | src/Worker.cpp:162-288 | two deliveries with the same order-ending reports, in any order with any repetition and any acknowledgements and partial fills between, end in the same balances, reservations and maps, provided no two of those reports end one order differently |
| `Runs.EligiblePlanIsSound` | src/Worker.cpp:95-113 | an opportunity the worker may launch is affordable, covered, gains net of commission, and each order is positive, on offer and worth the minimum notional; it is on step too if and only if it is not a LONG order above price 1 cut to an offer off the step |
| `Runs.EligibleExactly` | src/Worker.cpp:95-113 | a path may be launched if and only if the starting asset is in the balance, the commissions leave something, the net gain is worth at least one unit and no symbol is reserved; its rank is that worth |
| `Runs.TickLaunchesWorthiest` | src/Worker.cpp:86-126 | a tick that launches launches a path through the symbol whose gain is worth at least as much as that of any other such path that could be launched |
| `Runs.LaunchNeverOverdraws` | src/Worker.cpp:48-53 | a launch takes exactly what the first order spends from the starting asset, leaves it nonnegative, and touches no other balance |
| `Runs.TickNeverOverdraws` | src/Worker.cpp:72-126 | no price update makes any balance negative: it stays or falls to a nonnegative value |
| `Runs.ReportConserves` | src/Worker.cpp:213-287 | balance plus open deltas changes, in every asset, by the fee less the amount used plus the amount received of a full fill, and by nothing for any other report |
| `Runs.LaunchConserves` | src/Worker.cpp:48-53 | a launch moves value between balance and open delta and creates none |
| `Runs.EveryRunConserves` | src/Worker.cpp:290-327 | over every run of ticks and reports the books stay consistent, and balance plus open deltas equals the initial balance plus, for every full fill, fee less used plus received; with no order outstanding the balance is exactly that |
| `Runs.LaunchThenAnswers` | src/Worker.cpp:126-159 | a launch followed by one answer per order, in any order with repetition, among acknowledgements, partial fills and any reports for other executions, leaves the books that the same delivery leaves without the launch, with the balance moved by the net fills |
| `Runs.RunIgnoresBalance` | src/Worker.cpp:162-288 | what reports do to maps and reservations does not depend on the balance, and they move the balance by the same amounts whatever it was |
| `Runs.ConflictingAnswersMatter` | src/Worker.cpp:162-288 | of two reports that end one order the first delivered decides, and if they move different amounts of some asset the two orders of delivery end in different books |
| `Gains.PlannedExecutionGains` | src/Worker.cpp:107-126 | on a simple closed path, an eligible opportunity whose orders fill as planned without fees, among acknowledgements, partial fills and any reports for other executions, ends in the books the same delivery leaves without the launch, except that no asset is poorer and the starting asset is richer |
| `Gains.EligibleCanMissStep` | src/Worker.cpp:95-126 | an eligible opportunity on a closed chain whose first order the step filter refuses |
| `Settlement.StepOnExecution` | src/Worker.cpp:72-288 | any event moves an open execution's delta by exactly what it moves for that execution, or settles it and pays the whole delta into the balance |
| `Settlement.EachSettlesItsOwn` | src/Worker.cpp:213-287 | in every run, an execution that settles pays into the balance exactly what it held and what its own reports moved, in every asset, whatever other executions do meanwhile |
| `Settlement.PlannedStep` | src/Worker.cpp:213-287 | an execution whose answered orders all filled as planned keeps its delta at the reservation plus their nets through any event, and settles with the net of all its trades |
| `Settlement.LaunchNeverLoses` | src/Worker.cpp:107-159 | in every run, with any number of other executions launched, answered and settled meanwhile, an eligible opportunity on a closed path whose own orders fill as planned pays back at settlement no less than its reservation in any asset and more in the starting asset |
| `Settlement.NoRunGetsPoorer` | src/Worker.cpp:290-327 | over every run on closed paths whose orders fill as planned, balance plus reservations never falls below the initial balance in any asset and grows by at least one unit per settled execution started in it; with no order outstanding the balance alone does |
| `Workers.Balance.UpdateOne` | src/Balance.cpp:4-7 | the one asset changes by the amount, created at zero if absent |
| `Workers.Balance.UpdateAll` | src/Balance.cpp:9-14 | the loop over the delta map adds it asset by asset, in whatever order it is visited |
| `Workers.ReservedTrades.ReserveAll` | src/ReservedTrades.cpp:5-9 | exactly the trades' symbols join the reserved set |
| `Workers.ReservedTrades.ReleaseAll` | src/ReservedTrades.cpp:11-16 | exactly the trades' symbols leave the reserved set |
| `Workers.Worker.constructor` | src/Worker.cpp:17-46 | one opportunity per path with its relative value, and an index listing under each symbol exactly the paths that trade it |
| `Workers.Indexed` | src/Worker.cpp:40-44 | listing a path under each of its symbols keeps the index exact |
| `Workers.Worker.ReserveBudgetAndSymbols` | src/Worker.cpp:48-53 | the capacity is debited and the path's symbols reserved |
| `Workers.Worker.SubmitAll` | src/Worker.cpp:138-152 | one order per trade is submitted with the trade's symbol, side, quantity and price and recorded under its id, an existing id keeping its entry |
| `Workers.Worker.LaunchBest` | src/Worker.cpp:126-159 | reserving, freezing, submitting and storing amount to the launch transition on the frozen plan |
| `Workers.Worker.Consider` | src/Worker.cpp:93-113 | an opportunity passes exactly when it is funded, its refreshed plan is profitable and none of its symbols is reserved |
| `Workers.Worker.FindBest` | src/Worker.cpp:86-121 | the search over the index range returns an eligible opportunity of maximal profit among all paths trading the symbol, or none if there is none |
| `Workers.Worker.ConcernedIsListed` | src/Worker.cpp:89-93 | the index range of a symbol is the same as a brute-force scan of all paths for it |
| `Workers.Worker.UnconcernedSeeNoChange` | src/Worker.cpp:74-90 | a path not trading the updated symbol sees the same prices before and after |
| `Workers.Worker.ProcessPriceUpdate` | src/Worker.cpp:72-160 | every LONG leg on the symbol is priced at the new ask and every SHORT leg at the new bid; a most profitable eligible path among those trading the symbol is launched, one order per leg is sent under its id at the leg's price and planned quantity, within offer and minimum notional, and remembered as sent under fresh ids; or nothing happens |
| `Workers.OutcomeIsTick` | src/Worker.cpp:72-160 | what a price update does is a tick of the transition system the run theorems are about |
| `Workers.LaunchSends` | src/Worker.cpp:138-152 | the orders sent for a launch carry the legs' symbols, sides and prices and quantities the exchange accepts; under fresh ids the books hold each as sent |
| `Workers.FillDelta` | src/Worker.cpp:213-243 | a fill is full when a LONG order received, or a SHORT order used, at least its quantity; then every asset's delta changes by the fee less the amount used plus the amount received |
| `Workers.Worker.ProcessReport` | src/Worker.cpp:162-288 | the books change by the report transition, and the method throws exactly on a known order with an unknown status or a missing execution |
| `Workers.Worker.Drain` | src/Worker.cpp:313-324 | the loop stops when nothing is open; given answers to all orders it ends with empty books, and without unknown statuses it never throws |
| `Arbmapper.BuildGraph` | src/Arbmapper.cpp:26-67 | one vertex per asset of the symbols and no others; each symbol gives one LONG and one SHORT edge, each from the asset it spends to the asset it receives, and there are no others |
| `Arbmapper.RotateCopy` | src/Arbmapper.cpp:69-90 | the two copy loops produce the rotation |
| `Arbmapper.VisitCycle` | src/Arbmapper.cpp:92-127 | all rotations of the collected trades are appended in order; on a simple cycle leg i joins vertex i to the next |
| `Arbmapper.EveryRotationCloses` | src/Arbmapper.cpp:100-126 | rotation k starts in the asset of vertex k, each leg receives what the next spends around the cycle, and no asset is spent twice |
| `Arbmapper.ClosedHopsPriceToClosedChain` | src/Trade.cpp:3-8 | any priced snapshot of an emitted path is a closed chain as the gains theorem needs it |
| `Arbmapper.RotationIsClosedChain` | src/Arbmapper.cpp:92-127 | an opportunity whose trades follow rotation k of a simple cycle is a closed chain starting in the asset of vertex k, whatever prices its symbols show |
| `Arbmapper.RotationNeverLoses` | src/Arbmapper.cpp:92-127 | in every run, such an opportunity, launched once eligible, filled as planned and settled, pays back no less than its reservation in any asset and more in the asset of vertex k |
| `Arbmapper.FilterCycles` | src/Arbmapper.cpp:164-182 | the filter keeps the admitted cycles in order |
| `Arbmapper.KeptExactly` | src/Arbmapper.cpp:164-182 | a cycle is kept if and only if the asset list is empty or names all its assets |
| `Arbmapper.KeptConcat` | src/Arbmapper.cpp:164-182 | the filter treats a list of cycles piece by piece, so it keeps their order |
| `Arbmapper.KeptAsOften` | src/Arbmapper.cpp:164-182 | an admitted cycle is kept as often as it occurs, any other never |
| `Mutex.StepKeepsInv` | flashfix/include/Mutex.h:23-64 | every atomic step of any thread keeps what each thread relies on at its program point |
| `Mutex.MutualExclusion` | flashfix/include/Mutex.h:23-64 | in every state of every interleaving at most one thread holds the mutex, only the owner is about to touch the counter, and between operations ownership means a positive depth equal to the counter |
| `Mutex.AcquireAndRelease` | flashfix/include/Mutex.h:57-64 | a lock completes only while no other thread holds the mutex, and the owner is cleared exactly when the depth has returned to zero |
| `Mutex.LockCompletes` | flashfix/include/Mutex.h:23-55 | a lock completes on the thread's own steps when nobody or the thread itself holds the mutex, leaving it owner one level deeper |
| `Mutex.UnlockCompletes` | flashfix/include/Mutex.h:57-64 | an unlock completes on the thread's own steps, one level up, and frees the mutex at the outermost level only |
| `Mutex.LockThenUnlock` | flashfix/include/Mutex.h:87-100 | a bracketed lock and unlock restores owner and depths |
| `Calendar.DateRoundTrip` | flashfix/include/FieldTypes.h:477-498 | every valid date from 1 March -4800 on survives conversion to a Julian day number and back |
| `Calendar.JulianRoundTrip` | flashfix/include/FieldTypes.h:477-498 | every day number from -32044 on converts to a valid date and back to itself |
| `Calendar.NextDay` | flashfix/include/FieldTypes.h:486-498 | every day number converts to the calendar day after the one before it |
| `Calendar.StartOf1970` | flashfix/include/FieldTypes.h:477-498 | day 2440588 is 1 January 1970 |
| `Calendar.WeekDayExactly` | flashfix/include/FieldTypes.h:216-227 | the weekday is 1 plus the day count modulo 7 if and only if the March-based year is 0 or later or a leap year |
| `Calendar.WeekDayWrongBeforeYearZero` | flashfix/include/FieldTypes.h:216-227 | 28 February of year 0 is given a wrong weekday |
| `IntText.PairAt` | flashfix/include/FieldConvertors.h:105-114 | the pair table holds the two decimal digits of every number below 100 |
| `IntText.NumberOfSymbolsIn` | flashfix/include/FieldConvertors.h:59-103 | the four-at-a-time count is the length of the decimal text, sign included |
| `IntText.IntegerToString` | flashfix/include/FieldConvertors.h:116-149 | the buffer ends with exactly the decimal text and nothing else in it changes |
| `IntText.IntegerToStringPadded` | flashfix/include/FieldConvertors.h:151-160 | the field holds the text right-aligned behind the padding and nothing else changes |
| `IntText.ValueOfDecimal` | flashfix/include/FieldConvertors.h:116-149 | the decimal text has the number as its value |
| `IntText.DecimalCanonical` | flashfix/include/FieldConvertors.h:116-149 | the decimal text has no leading zero |
| `IntText.PaddedOfValue` | flashfix/include/FieldConvertors.h:151-160 | every digit string is the zero-padded text of its value |
| `IntParse.ParseDigits` | flashfix/include/FieldConvertors.h:257-274 | the wrapping accumulation returns the true value, and refuses digits only when their value fits the type with neither sign |
| `IntParse.Parse` | flashfix/include/FieldConvertors.h:233-297 | accepts exactly digit strings, with a minus only for signed types, whose value fits the type |
| `IntParse.MeaningExactly` | flashfix/include/FieldConvertors.h:233-297 | a text is read as v if and only if v fits the type and the text is v's decimal text behind any number of zeros, with a minus in front for a negative or zero v of a signed type |
| `IntParse.Ranges` | flashfix/include/FieldConvertors.h:213-222 | the three types have the ranges of 32-bit and 64-bit signed and 64-bit unsigned integers |
| `IntParse.ParsePrint` | flashfix/include/FieldConvertors.h:224-297 | parsing the printed text of any value of the type gives the value |
| `IntParse.PrintParseExactly` | flashfix/include/FieldConvertors.h:224-297 | printing the value of an accepted text gives the text back if and only if it has no leading zero and is not a negative zero |
| `IntParse.BufferSuffices` | flashfix/include/FieldConvertors.h:226-230 | digits10 + 2 characters hold every value of the type |
| `IntParse.Convert` | flashfix/include/FieldConvertors.h:224-231 | the string returned is the decimal text |
| `Timestamp.Print` | flashfix/include/FieldConvertors.h:570-597 | whenever every part fits its field, the text is the padded date, clock and fraction at the clamped precision |
| `Timestamp.PartsStand` | flashfix/include/FieldConvertors.h:580-594 | where year, month, day, hour, minute, second, fraction and separators stand in the text |
| `Timestamp.SampleText` | flashfix/include/FieldConvertors.h:570-597 | 15 March 2024, 13:45:56.789 prints as 20240315-13:45:56.789 |
| `Timestamp.Parse` | flashfix/include/FieldConvertors.h:599-726 | returns the timestamp the text's digit groups mean, and an error exactly when a character or range is wrong |
| `Timestamp.PrintableExactly` | flashfix/include/FieldConvertors.h:570-597 | every part fits its field, at every precision, if and only if the year is -999 to 9999 and the time below 100 hours |
| `Timestamp.ClockBounds` | flashfix/include/FieldTypes.h:205-214 | hour, minute, second and fraction are in range and recombine to the time cut to the precision |
| `Timestamp.ParseOfPrint` | flashfix/include/FieldConvertors.h:567-727 | for years 0 to 9999 and times within the day, parsing the printed text gives the timestamp truncated to the printed precision |
| `Timestamp.ReadsBackExactly` | flashfix/include/FieldConvertors.h:567-727 | of everything that can be printed, exactly the stamps from year 0 on with a time within the day read back as themselves, truncated; the others are refused |
| `Timestamp.MidnightUnreadable` | flashfix/include/FieldConvertors.h:570-673 | the stamp of 1 January 1970 with a time of one whole day prints and is refused by the parser |
| `Timestamp.PrintOfParseExactly` | flashfix/include/FieldConvertors.h:567-727 | printing the stamp of an accepted text at its own number of fraction digits gives the text back if and only if the day is within its month, the second at most 59 and the text does not end in a bare point |
| `Timestamp.InexactTextsAccepted` | flashfix/include/FieldConvertors.h:599-726 | 30 February, second 60 and a bare trailing point are accepted texts that fail that condition; day 32 and second 61 are refused |
| `Timestamp.NinthDigitIsExact` | flashfix/include/FieldTypes.h:368-425 | truncating to nine digits is the identity |
| `FieldVector.LessIsKeyOrder` | flashfix/include/MessageSorters.h:39-214 | each comparator is the lexicographic order of an injective key |
| `FieldVector.StrictTotalOrder` | flashfix/include/MessageSorters.h:39-214 | each comparator is irreflexive, asymmetric, transitive and total on tags |
| `FieldVector.StandardOrder` | flashfix/include/MessageSorters.h:40-135 | headers start with tags 8, 9, 35, trailers start with 93, 89 and end with 10, and all other tags follow their numbers |
| `FieldVector.SetOrder` | flashfix/src/MessageSorters.cpp:94-114 | the table places every listed tag, no two tags share a place |
| `FieldVector.GroupOrderFollowsList` | flashfix/src/MessageSorters.cpp:94-114 | listed tags compare in listed order and before all unlisted ones |
| `FieldVector.FieldMap.FindTag` | flashfix/include/FieldMap.h:305-330 | scan and binary search both return the first field with the tag, or the end when there is none, repeated tags allowed; with distinct tags that is the map's entry |
| `FieldVector.FieldMap.FindPositionFor` | flashfix/include/FieldMap.h:332-346 | the position separates the fields not after the tag from those after it |
| `FieldVector.FieldMap.AddField` | flashfix/include/FieldMap.h:271-282 | the field is inserted behind everything not after it and nothing else moves, so the vector stays in order; a new tag extends the map |
| `FieldVector.FieldMap.SetField` | flashfix/include/FieldMap.h:114-132 | rewrites exactly the first field with the tag or inserts a new one, and the vector stays in order, repeated tags allowed; as a map it changes at exactly this tag |
| `FieldVector.FieldMap.GetField` | flashfix/include/FieldMap.h:171-179 | returns the first field with the tag, or not found exactly when there is none, repeated tags allowed; with distinct tags that is the map's value |
| `FieldVector.VectorIsCanonical` | flashfix/include/FieldMap.h:40-45 | two sorted vectors with the same entries are equal, so the wire order does not depend on the order of setting |
| `Refresh.ParseIncrementalRefresh` | src/HarjusApplication.cpp:448-524 | one update per symbol that occurs, its bid the price and size of the last new or changed BID entry with a size for it and its ask that of the last such OFFER entry, zeros where there is none; an exception exactly when a symbol is unknown or an entry type, update action or needed price is missing |
| `Refresh.SymbolIsLastNamed` | src/HarjusApplication.cpp:472-480 | an entry without a symbol belongs to the symbol named last before it |
| `Refresh.FirstsExactly` | src/HarjusApplication.cpp:482-488 | one update per symbol that occurs, none repeated |
| `Refresh.FirstsInOrder` | src/HarjusApplication.cpp:482-488 | wherever a symbol occurs, every symbol listed before it has already occurred |
| `Refresh.LastQuoteIsLast` | src/HarjusApplication.cpp:494-520 | each side holds the last new or changed entry with a size |
| `Refresh.UnseenIsZero` | src/HarjusApplication.cpp:486-487 | a side that no entry sets is zero, also for a symbol whose other side is set |

## Left out

- Decimal strings of `PreciseNumber`: construction from text and `toString` go through a 50-digit decimal float.
- `getRelativeValues` and the REST exchange client: relative values are any nonnegative numbers here.
- The cycle search of the graph library: any simple cycle it may report is covered, which cycles it reports is not.
- The outer loop of `Worker::run` and its stop token: a run is any interleaving of ticks and reports.
- The order in which a hash map yields equal keys: the search is proved for every order the index may hold, so ties in profit are broken arbitrarily.
- Parsing of FIX execution reports and full-refresh messages: field extraction without logic of its own.
- Fixed-width overflow of `int` in dates beyond about 500 million days and in the mutex's recursion counter.
- Double rounding in `int(2.6*m-0.2)`: read as (13m-1)/5, with which it agrees for the twelve months.
- Memory ordering of the mutex's atomics: steps interleave sequentially consistently; waiting and yielding are a step that changes nothing.
- Group positions for tags that are zero or negative: FIX tags are positive.
- Timestamp.Print: years outside -999..9999 and times of 100 hours and more, for which the source writes before its fixed-width fields, and negative times.
- Field removal, repeating groups, message sessions, stores, transports and dictionary loading.
- Logging, random id generation, signals and configuration.
