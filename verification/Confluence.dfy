/**
 * Execution reports may arrive in any order: the books they leave behind depend only on the first
 * answer each order got.
 */
module Confluence {
  import opened Ledger

  lemma AddAllGets(m: Amounts, d: Amounts, a: string)
    ensures Get(AddAll(m, d), a) == Get(m, a) + Get(d, a)
  {
  }

  lemma AddAllExchange(m: Amounts, c: Amounts, d: Amounts)
    ensures AddAll(AddAll(m, c), d) == AddAll(AddAll(m, d), c)
  {
    var l, r := AddAll(AddAll(m, c), d), AddAll(AddAll(m, d), c);
    assert l.Keys == r.Keys;
    forall a | a in l
      ensures l[a] == r[a]
    {
      AddAllGets(m, c, a);
      AddAllGets(m, d, a);
    }
  }

  lemma UpdatesCommute<V>(m: map<Id, V>, a: Id, x: V, b: Id, y: V)
    requires a != b
    ensures m[a := x][b := y] == m[b := y][a := x]
  {
  }

  lemma AnswerTwice(s: State, e: Id, o1: Id, n1: Amounts, f1: bool, o2: Id, n2: Amounts, f2: bool)
    requires e in s.executions && e in s.pending
    ensures var entry := s.executions[e];
      Answer(Answer(s, o1, e, n1, f1), o2, e, n2, f2)
      == s.(executions := s.executions[e := Entry(entry.execution, AddAll(AddAll(entry.delta, n1), n2))],
            failed := if f1 || f2 then s.failed + {e} else s.failed,
            orders := s.orders - {o1, o2}, pending := s.pending[e := s.pending[e] - 2])
  {
    hide AddAll;
    assert s.orders - {o1} - {o2} == s.orders - {o1, o2};
  }

  lemma AnswersOfOneExecutionCommute(s: State, e: Id, o1: Id, n1: Amounts, f1: bool, o2: Id, n2: Amounts, f2: bool)
    requires e in s.executions && e in s.pending
    ensures Answer(Answer(s, o1, e, n1, f1), o2, e, n2, f2) == Answer(Answer(s, o2, e, n2, f2), o1, e, n1, f1)
  {
    AnswerTwice(s, e, o1, n1, f1, o2, n2, f2);
    AnswerTwice(s, e, o2, n2, f2, o1, n1, f1);
    AddAllExchange(s.executions[e].delta, n1, n2);
    assert {o1, o2} == {o2, o1};
    hide AddAll, Answer;
  }

  // Two answers to different executions, written out.
  lemma AnswerBoth(s: State, o1: Id, e1: Id, n1: Amounts, f1: bool, o2: Id, e2: Id, n2: Amounts, f2: bool)
    requires e1 != e2 && e1 in s.executions && e2 in s.executions && e1 in s.pending && e2 in s.pending
    ensures var x1, x2 := s.executions[e1], s.executions[e2];
      Answer(Answer(s, o1, e1, n1, f1), o2, e2, n2, f2)
      == s.(executions := s.executions[e1 := Entry(x1.execution, AddAll(x1.delta, n1))]
                                     [e2 := Entry(x2.execution, AddAll(x2.delta, n2))],
            failed := s.failed + (if f1 then {e1} else {}) + (if f2 then {e2} else {}),
            orders := s.orders - {o1, o2}, pending := s.pending[e1 := s.pending[e1] - 1][e2 := s.pending[e2] - 1])
  {
    hide AddAll;
    assert s.orders - {o1} - {o2} == s.orders - {o1, o2};
  }

  lemma AnswersCommute(s: State, o1: Id, e1: Id, n1: Amounts, f1: bool, o2: Id, e2: Id, n2: Amounts, f2: bool)
    requires e1 != e2 && e1 in s.executions && e2 in s.executions && e1 in s.pending && e2 in s.pending
    ensures Answer(Answer(s, o1, e1, n1, f1), o2, e2, n2, f2) == Answer(Answer(s, o2, e2, n2, f2), o1, e1, n1, f1)
  {
    AnswerBoth(s, o1, e1, n1, f1, o2, e2, n2, f2);
    AnswerBoth(s, o2, e2, n2, f2, o1, e1, n1, f1);
    var m, d1, d2 := s.executions, s.executions[e1], s.executions[e2];
    UpdatesCommute(m, e1, Entry(d1.execution, AddAll(d1.delta, n1)), e2, Entry(d2.execution, AddAll(d2.delta, n2)));
    UpdatesCommute(s.pending, e1, s.pending[e1] - 1, e2, s.pending[e2] - 1);
    assert {o1, o2} == {o2, o1};
    assert s.failed + (if f1 then {e1} else {}) + (if f2 then {e2} else {})
        == s.failed + (if f2 then {e2} else {}) + (if f1 then {e1} else {});
    hide AddAll, Answer;
  }

  lemma UpdateRemoveCommute<V>(m: map<Id, V>, a: Id, x: V, b: Id)
    requires a != b
    ensures m[a := x] - {b} == (m - {b})[a := x]
  {
  }

  lemma AnswerSettleCommute(s: State, o1: Id, e1: Id, n1: Amounts, f1: bool, e2: Id)
    requires e1 != e2 && e1 in s.executions && e2 in s.executions && e1 in s.pending
    ensures Settle(Answer(s, o1, e1, n1, f1), e2) == Answer(Settle(s, e2), o1, e1, n1, f1)
  {
    hide AddAll, SymbolsOf;
    var l, r := Settle(Answer(s, o1, e1, n1, f1), e2), Answer(Settle(s, e2), o1, e1, n1, f1);
    var d1 := s.executions[e1];
    UpdateRemoveCommute(s.executions, e1, Entry(d1.execution, AddAll(d1.delta, n1)), e2);
    UpdateRemoveCommute(s.pending, e1, s.pending[e1] - 1, e2);
    assert l.failed == r.failed;
  }

  lemma SettlesCommute(s: State, e1: Id, e2: Id)
    requires e1 != e2 && e1 in s.executions && e2 in s.executions
    ensures Settle(Settle(s, e1), e2) == Settle(Settle(s, e2), e1)
  {
    var l, r := Settle(Settle(s, e1), e2), Settle(Settle(s, e2), e1);
    AddAllExchange(s.balance, s.executions[e1].delta, s.executions[e2].delta);
    assert l.executions == r.executions;
    assert l.pending == r.pending;
    assert l.failed == r.failed;
    assert l.reserved == r.reserved;
  }

  lemma FinishesOfDifferentExecutionsCommute(s: State, o1: Id, e1: Id, n1: Amounts, f1: bool,
                                             o2: Id, e2: Id, n2: Amounts, f2: bool)
    requires e1 != e2 && e1 in s.executions && e2 in s.executions && e1 in s.pending && e2 in s.pending
    ensures e2 in Finish(s, o1, e1, n1, f1).executions && e1 in Finish(s, o2, e2, n2, f2).executions
    ensures Finish(Finish(s, o1, e1, n1, f1), o2, e2, n2, f2) == Finish(Finish(s, o2, e2, n2, f2), o1, e1, n1, f1)
  {
    var s1, s2 := Answer(s, o1, e1, n1, f1), Answer(s, o2, e2, n2, f2);
    AnswersCommute(s, o1, e1, n1, f1, o2, e2, n2, f2);
    var both := Answer(s1, o2, e2, n2, f2);
    AnswerSettleCommute(s1, o2, e2, n2, f2, e1);
    AnswerSettleCommute(s2, o1, e1, n1, f1, e2);
    SettlesCommute(both, e1, e2);
    assert both.pending[e1] == s1.pending[e1] && both.pending[e2] == s2.pending[e2];
  }

  lemma TwoPending(s: State, o1: Id, o2: Id)
    requires Inv(s) && o1 != o2 && o1 in s.orders && o2 in s.orders && s.orders[o1].execId == s.orders[o2].execId
    ensures s.pending[s.orders[o1].execId] >= 2
  {
    var mine := OrdersOf(s.orders, s.orders[o1].execId);
    assert {o1, o2} <= mine;
    SubsetSmaller({o1, o2}, mine);
  }

  lemma FinishesOfOneExecutionCommute(s: State, e: Id, o1: Id, n1: Amounts, f1: bool, o2: Id, n2: Amounts, f2: bool)
    requires e in s.executions && e in s.pending && s.pending[e] >= 2
    ensures e in Finish(s, o1, e, n1, f1).executions && e in Finish(s, o2, e, n2, f2).executions
    ensures Finish(Finish(s, o1, e, n1, f1), o2, e, n2, f2) == Finish(Finish(s, o2, e, n2, f2), o1, e, n1, f1)
  {
    AnswersOfOneExecutionCommute(s, e, o1, n1, f1, o2, n2, f2);
    hide Settle;
  }

  lemma ReportsOfAnsweredOrdersCommute(s: State, r1: Report, r2: Report)
    requires Inv(s) && r1.id != r2.id && VerdictOn(s, r1).Answered? && VerdictOn(s, r2).Answered?
    ensures ReportStep(ReportStep(s, r1), r2) == ReportStep(ReportStep(s, r2), r1)
  {
    var v1, v2 := VerdictOn(s, r1), VerdictOn(s, r2);
    var e1, e2 := s.orders[r1.id].execId, s.orders[r2.id].execId;
    VerdictStable(s, r1, r2);
    VerdictStable(s, r2, r1);
    ReportTakesOneOrder(s, r1);
    ReportTakesOneOrder(s, r2);
    assert e1 in s.pending && e2 in s.pending;
    if e1 == e2 {
      TwoPending(s, r1.id, r2.id);
      FinishesOfOneExecutionCommute(s, e1, r1.id, v1.net, v1.failed, r2.id, v2.net, v2.failed);
    } else {
      FinishesOfDifferentExecutionsCommute(s, r1.id, e1, v1.net, v1.failed, r2.id, e2, v2.net, v2.failed);
    }
    hide Finish, VerdictOn, Inv;
  }

  // A report never changes how a report for another order is judged.
  lemma VerdictStable(s: State, r: Report, other: Report)
    requires Inv(s) && r.id != other.id
    ensures VerdictOn(ReportStep(s, other), r) == VerdictOn(s, r)
  {
    ReportTakesOneOrder(s, other);
    ReportKeepsInv(s, other);
  }

  // Acknowledgements, partial fills and reports for unknown orders commute with everything, and
  // answers to different orders commute with each other.
  lemma ReportsCommute(s: State, r1: Report, r2: Report)
    requires Inv(s)
    requires r1.id == r2.id && VerdictOn(s, r1).Answered? && VerdictOn(s, r2).Answered? ==> VerdictOn(s, r1) == VerdictOn(s, r2)
    ensures ReportStep(ReportStep(s, r1), r2) == ReportStep(ReportStep(s, r2), r1)
  {
    if VerdictOn(s, r1).Ignored? {
      StaysIgnored(s, r1, r2);
    } else if VerdictOn(s, r2).Ignored? {
      StaysIgnored(s, r2, r1);
    } else if r1.id != r2.id {
      ReportsOfAnsweredOrdersCommute(s, r1, r2);
    } else {
      AnsweredIsIgnored(s, r1, r2);
      AnsweredIsIgnored(s, r2, r1);
    }
  }

  // Once an order has its answer, whatever else is reported of it is ignored.
  lemma AnsweredIsIgnored(s: State, r: Report, later: Report)
    requires VerdictOn(s, r).Answered? && later.id == r.id
    ensures VerdictOn(ReportStep(s, r), later).Ignored?
  {
    ReportTakesOneOrder(s, r);
    hide Judge, Finish;
  }

  // A report that is ignored now is ignored after any other.
  lemma StaysIgnored(s: State, r: Report, other: Report)
    requires Inv(s) && VerdictOn(s, r).Ignored?
    ensures VerdictOn(ReportStep(s, other), r).Ignored?
  {
    if VerdictOn(s, other).Answered? {
      if r.id == other.id {
        AnsweredIsIgnored(s, other, r);
      } else {
        VerdictStable(s, r, other);
      }
    }
  }

  lemma {:induction false} StaysIgnoredThroughRun(s: State, r: Report, rs: seq<Report>)
    requires Inv(s) && VerdictOn(s, r).Ignored?
    ensures VerdictOn(ReportRun(s, rs), r).Ignored?
    decreases |rs|
  {
    hide Inv, VerdictOn, ReportStep;
    if rs != [] {
      StaysIgnored(s, r, rs[0]);
      ReportKeepsInv(s, rs[0]);
      StaysIgnoredThroughRun(ReportStep(s, rs[0]), r, rs[1..]);
    }
  }

  // Once processed, a report is ignored.
  lemma ReplayIsIgnored(s: State, r: Report)
    requires Inv(s)
    ensures VerdictOn(ReportStep(s, r), r).Ignored?
  {
    if VerdictOn(s, r).Answered? {
      AnsweredIsIgnored(s, r, r);
    }
  }

  // A report already delivered, among whatever others, changes nothing when delivered again.
  lemma {:induction false} ReplayAfterRun(s: State, r: Report, rs: seq<Report>)
    requires Inv(s) && r in rs
    ensures ReportStep(ReportRun(s, rs), r) == ReportRun(s, rs)
    decreases |rs|
  {
    ReportKeepsInv(s, rs[0]);
    if r == rs[0] {
      ReplayIsIgnored(s, r);
      StaysIgnoredThroughRun(ReportStep(s, r), r, rs[1..]);
    } else {
      ReplayAfterRun(ReportStep(s, rs[0]), r, rs[1..]);
    }
    hide Inv, VerdictOn, Finish;
  }

  lemma {:induction false} RunConcat(s: State, xs: seq<Report>, ys: seq<Report>)
    ensures ReportRun(s, xs + ys) == ReportRun(ReportRun(s, xs), ys)
    decreases |xs|
  {
    if xs == [] {
      assert xs + ys == ys;
    } else {
      assert (xs + ys)[1..] == xs[1..] + ys;
      RunConcat(ReportStep(s, xs[0]), xs[1..], ys);
    }
  }

  // ----- the first answers decide -----

  // For each order that rs ends, how the first report to end it does so.
  function FirstAnswers(s: State, rs: seq<Report>): map<Id, Verdict>
    decreases |rs|
  {
    if rs == [] then map[]
    else
      var rest, v := FirstAnswers(s, rs[1..]), VerdictOn(s, rs[0]);
      if v.Answered? then rest[rs[0].id := v] else rest
  }

  // Answering one order takes it out of what is still to be decided and changes nothing else.
  lemma {:induction false} AnswersLeft(s: State, r: Report, rs: seq<Report>)
    requires Inv(s) && VerdictOn(s, r).Answered?
    ensures FirstAnswers(ReportStep(s, r), rs) == FirstAnswers(s, rs) - {r.id}
    decreases |rs|
  {
    hide Inv, VerdictOn, ReportStep;
    if rs != [] {
      AnswersLeft(s, r, rs[1..]);
      if rs[0].id == r.id {
        AnsweredIsIgnored(s, r, rs[0]);
      } else {
        VerdictStable(s, rs[0], r);
      }
    }
  }

  // Only the order and the verdict matter to a step.
  lemma SameVerdictSameStep(s: State, r1: Report, r2: Report)
    requires r1.id == r2.id && VerdictOn(s, r1) == VerdictOn(s, r2)
    ensures ReportStep(s, r1) == ReportStep(s, r2)
  {
    hide Judge, Finish;
  }

  // The answer an order will get may as well be delivered first.
  lemma {:induction false} AnswerFirst(s: State, r: Report, rs: seq<Report>)
    requires Inv(s) && VerdictOn(s, r).Answered?
    requires r.id in FirstAnswers(s, rs) && FirstAnswers(s, rs)[r.id] == VerdictOn(s, r)
    ensures ReportRun(ReportStep(s, r), rs) == ReportRun(s, rs)
    decreases |rs|
  {
    hide Inv, VerdictOn, ReportStep;
    var q, rest := rs[0], rs[1..];
    if VerdictOn(s, q).Ignored? {
      StaysIgnored(s, q, r);
      IgnoredStep(s, q);
      IgnoredStep(ReportStep(s, r), q);
      AnswerFirst(s, r, rest);
    } else if q.id == r.id {
      SameVerdictSameStep(s, q, r);
      AnsweredIsIgnored(s, r, q);
      IgnoredStep(ReportStep(s, r), q);
    } else {
      ReportsCommute(s, r, q);
      ReportKeepsInv(s, q);
      VerdictStable(s, r, q);
      AnswersLeft(s, q, rest);
      AnswerFirst(ReportStep(s, q), r, rest);
    }
  }

  lemma IgnoredStep(s: State, r: Report)
    requires VerdictOn(s, r).Ignored?
    ensures ReportStep(s, r) == s
  {
  }

  lemma {:induction false} NothingAnswered(s: State, rs: seq<Report>)
    requires FirstAnswers(s, rs) == map[]
    ensures ReportRun(s, rs) == s
    decreases |rs|
  {
    hide VerdictOn, ReportStep;
    if rs != [] {
      assert rs[0].id !in FirstAnswers(s, rs);
      IgnoredStep(s, rs[0]);
      NothingAnswered(s, rs[1..]);
    }
  }

  // Two deliveries in which every order gets the same first answer leave the same balances,
  // reservations and maps, whatever else they contain and in whatever order.
  lemma {:induction false} FirstAnswersDecide(s: State, xs: seq<Report>, ys: seq<Report>)
    requires Inv(s) && FirstAnswers(s, xs) == FirstAnswers(s, ys)
    ensures ReportRun(s, xs) == ReportRun(s, ys)
    decreases |xs|
  {
    hide Inv, VerdictOn, ReportStep;
    if xs == [] {
      NothingAnswered(s, ys);
    } else {
      var r, rest := xs[0], xs[1..];
      if VerdictOn(s, r).Ignored? {
        IgnoredStep(s, r);
        FirstAnswersDecide(s, rest, ys);
      } else {
        ReportKeepsInv(s, r);
        AnswersLeft(s, r, rest);
        AnswersLeft(s, r, ys);
        FirstAnswersDecide(ReportStep(s, r), rest, ys);
        AnswerFirst(s, r, ys);
      }
    }
  }

  lemma {:induction false} FirstAnswersConcat(s: State, xs: seq<Report>, ys: seq<Report>)
    ensures FirstAnswers(s, xs + ys) == FirstAnswers(s, ys) + FirstAnswers(s, xs)
    decreases |xs|
  {
    hide VerdictOn;
    if xs == [] {
      assert xs + ys == ys;
    } else {
      assert (xs + ys)[1..] == xs[1..] + ys;
      FirstAnswersConcat(s, xs[1..], ys);
    }
  }

  // Reports that a delivery holds, and does not contradict, may as well be delivered before it.
  lemma DeliverEarly(s: State, rs: seq<Report>, delivered: seq<Report>)
    requires Inv(s) && forall r :: r in rs ==> r in delivered
    requires forall r, q :: r in rs && q in delivered && r.id == q.id ==>
      VerdictOn(s, r).Ignored? || VerdictOn(s, q).Ignored? || VerdictOn(s, r) == VerdictOn(s, q)
    ensures ReportRun(s, delivered) == ReportRun(ReportRun(s, rs), delivered)
  {
    hide Inv, VerdictOn, ReportRun, FirstAnswers;
    var early, all := FirstAnswers(s, rs), FirstAnswers(s, delivered);
    forall o | o in early
      ensures o in all && all[o] == early[o]
    {
      FirstAnswerIsOne(s, rs, o);
      FirstAnswerIsOne(s, delivered, o);
    }
    FirstAnswersConcat(s, rs, delivered);
    assert all + early == all;
    FirstAnswersDecide(s, delivered, rs + delivered);
    RunConcat(s, rs, delivered);
  }

  // ----- sets of reports -----

  // The reports that end an order of s agree how; acknowledgements and partial fills are free.
  ghost predicate AnswersAgree(s: State, rs: seq<Report>) {
    forall r1, r2 :: r1 in rs && r2 in rs && r1.id == r2.id && VerdictOn(s, r1).Answered? && VerdictOn(s, r2).Answered? ==>
      VerdictOn(s, r1) == VerdictOn(s, r2)
  }

  lemma {:induction false} FirstAnswerIsOne(s: State, rs: seq<Report>, o: Id)
    ensures o in FirstAnswers(s, rs) ==>
      exists r :: r in rs && r.id == o && VerdictOn(s, r).Answered? && FirstAnswers(s, rs)[o] == VerdictOn(s, r)
    ensures o !in FirstAnswers(s, rs) ==> forall r :: r in rs && r.id == o ==> VerdictOn(s, r).Ignored?
    decreases |rs|
  {
    hide VerdictOn;
    if rs != [] {
      FirstAnswerIsOne(s, rs[1..], o);
      assert rs[0] in rs && forall r :: r in rs <==> r == rs[0] || r in rs[1..];
    }
  }

  lemma AnswersOfSubset(s: State, xs: seq<Report>, ys: seq<Report>, o: Id)
    requires AnswersAgree(s, ys) && o in FirstAnswers(s, xs)
    requires forall r :: r in xs && VerdictOn(s, r).Answered? ==> r in ys
    ensures o in FirstAnswers(s, ys) && FirstAnswers(s, ys)[o] == FirstAnswers(s, xs)[o]
  {
    hide VerdictOn, FirstAnswers;
    FirstAnswerIsOne(s, xs, o);
    FirstAnswerIsOne(s, ys, o);
  }

  // Confluence: two deliveries with the same reports that end an order, in any order, with any
  // repetition and any acknowledgements and partial fills between them, leave the same books, as
  // long as no two of those reports disagree about an order.
  lemma DeliveryOrderIrrelevant(s: State, xs: seq<Report>, ys: seq<Report>)
    requires Inv(s) && AnswersAgree(s, xs)
    requires forall r :: VerdictOn(s, r).Answered? ==> (r in xs <==> r in ys)
    ensures ReportRun(s, xs) == ReportRun(s, ys)
  {
    hide VerdictOn, Inv, ReportRun, FirstAnswers;
    assert AnswersAgree(s, ys);
    forall o
      ensures o in FirstAnswers(s, xs) ==> o in FirstAnswers(s, ys) && FirstAnswers(s, ys)[o] == FirstAnswers(s, xs)[o]
      ensures o in FirstAnswers(s, ys) ==> o in FirstAnswers(s, xs)
    {
      if o in FirstAnswers(s, xs) {
        AnswersOfSubset(s, xs, ys, o);
      }
      if o in FirstAnswers(s, ys) {
        AnswersOfSubset(s, ys, xs, o);
      }
    }
    assert FirstAnswers(s, xs) == FirstAnswers(s, ys);
    FirstAnswersDecide(s, xs, ys);
  }
}
