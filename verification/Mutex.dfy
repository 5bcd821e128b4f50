/**
 * The recursive spin mutex as a transition system: any number of threads, each step one atomic
 * access to `m_owner` or one plain read or write of `m_recursion`, interleaved arbitrarily.
 */
module Mutex {

  // Where a thread is. Between operations it is Idle.
  datatype Pc =
    | Idle
    | TestOwner            // lock: load m_owner
    | IncRead              // lock by the owner: read m_recursion
    | IncWrite(seen: int)  //                    write it back plus one
    | Swap                 // lock: compare-and-swap m_owner from null
    | SetOne               // lock: first hold, m_recursion = 1
    | DecRead              // unlock: read m_recursion
    | DecWrite(seen: int)  //         write it back minus one
    | TestZero             //         read it again
    | Clear                //         store null into m_owner

  // depth: locks completed minus unlocks that have written their decrement.
  datatype Thread = Thread(pc: Pc, depth: nat)

  datatype Owner = Nobody | Owned(tid: nat)

  datatype State = State(owner: Owner, recursion: int, threads: seq<Thread>)

  ghost predicate Init(s: State) {
    s.owner == Nobody && s.recursion == 0 && forall t :: 0 <= t < |s.threads| ==> s.threads[t] == Thread(Idle, 0)
  }

  function At(s: State, t: nat, thread: Thread): State
    requires t < |s.threads|
  {
    s.(threads := s.threads[t := thread])
  }

  // One atomic step of thread t. A thread unlocks only what it holds; a swap may fail spuriously.
  ghost predicate Step(s: State, t: nat, s': State) {
    t < |s.threads| &&
    var th := s.threads[t];
    match th.pc
    case Idle =>
      || s' == At(s, t, th.(pc := TestOwner))
      || (th.depth > 0 && s' == At(s, t, th.(pc := DecRead)))
    case TestOwner => s' == At(s, t, th.(pc := if s.owner == Owned(t) then IncRead else Swap))
    case IncRead => s' == At(s, t, th.(pc := IncWrite(s.recursion)))
    case IncWrite(seen) => s' == At(s.(recursion := seen + 1), t, Thread(Idle, th.depth + 1))
    case Swap =>
      || s' == s
      || (s.owner == Nobody && s' == At(s.(owner := Owned(t)), t, th.(pc := SetOne)))
    case SetOne => s' == At(s.(recursion := 1), t, Thread(Idle, th.depth + 1))
    case DecRead => s' == At(s, t, th.(pc := DecWrite(s.recursion)))
    case DecWrite(seen) =>
      th.depth > 0 && s' == At(s.(recursion := seen - 1), t, Thread(TestZero, th.depth - 1))
    case TestZero => s' == At(s, t, th.(pc := if s.recursion == 0 then Clear else Idle))
    case Clear => s' == At(s.(owner := Nobody), t, th.(pc := Idle))
  }

  // The next step of the thread reads or writes m_recursion.
  predicate TouchesRecursion(pc: Pc) {
    pc.IncRead? || pc.IncWrite? || pc.SetOne? || pc.DecRead? || pc.DecWrite? || pc.TestZero?
  }

  // What a thread at each point may rely on.
  ghost predicate ThreadOk(s: State, t: nat)
    requires t < |s.threads|
  {
    var th, mine := s.threads[t], s.owner == Owned(t);
    match th.pc
    case Idle => (mine <==> th.depth > 0) && (mine ==> s.recursion == th.depth)
    case TestOwner => (mine <==> th.depth > 0) && (mine ==> s.recursion == th.depth)
    case IncRead => mine && s.recursion == th.depth > 0
    case IncWrite(seen) => mine && seen == s.recursion == th.depth > 0
    case Swap => !mine && th.depth == 0
    case SetOne => mine && th.depth == 0
    case DecRead => mine && s.recursion == th.depth > 0
    case DecWrite(seen) => mine && seen == s.recursion == th.depth > 0
    case TestZero => mine && s.recursion == th.depth
    case Clear => mine && s.recursion == th.depth == 0
  }

  ghost predicate Inv(s: State) {
    && (s.owner.Owned? ==> s.owner.tid < |s.threads|)
    && forall t: nat :: t < |s.threads| ==> ThreadOk(s, t)
  }

  // A step of one thread leaves what every other thread relies on.
  lemma StepSparesOthers(s: State, t: nat, s': State, u: nat)
    requires Inv(s) && Step(s, t, s') && u < |s.threads| && u != t
    ensures |s'.threads| == |s.threads| && s'.threads[u] == s.threads[u] && ThreadOk(s', u)
  {
    assert ThreadOk(s, t) && ThreadOk(s, u);
  }

  lemma StepKeepsInv(s: State, t: nat, s': State)
    requires Inv(s) && Step(s, t, s')
    ensures Inv(s') && |s'.threads| == |s.threads|
  {
    assert ThreadOk(s, t);
    forall u: nat | u < |s'.threads|
      ensures ThreadOk(s', u)
    {
      if u != t {
        StepSparesOthers(s, t, s', u);
      }
    }
  }

  // Runs: any thread may move at any point.
  ghost predicate IsRun(states: seq<State>, movers: seq<nat>) {
    |states| == |movers| + 1 && forall i :: 0 <= i < |movers| ==> Step(states[i], movers[i], states[i + 1])
  }

  lemma {:induction false} RunKeepsInv(states: seq<State>, movers: seq<nat>, k: nat)
    requires IsRun(states, movers) && Init(states[0]) && k <= |movers|
    ensures Inv(states[k])
  {
    hide Step, Inv;
    if k > 0 {
      RunKeepsInv(states, movers, k - 1);
      StepKeepsInv(states[k - 1], movers[k - 1], states[k]);
    } else {
      InitOk(states[0]);
    }
  }

  lemma InitOk(s: State)
    requires Init(s)
    ensures Inv(s)
  {
  }

  // In every state of every interleaving: two threads never hold the mutex at once, only the owner
  // is about to touch m_recursion (so no two threads race on it), and a thread between operations
  // owns the mutex exactly when its nesting depth is positive, which is then what m_recursion says.
  lemma MutualExclusion(states: seq<State>, movers: seq<nat>, k: nat, t: nat, u: nat)
    requires IsRun(states, movers) && Init(states[0]) && k <= |movers|
    requires t < |states[k].threads| && u < |states[k].threads| && t != u
    ensures var s := states[k];
      && !(s.threads[t].depth > 0 && s.threads[u].depth > 0)
      && (TouchesRecursion(s.threads[t].pc) ==> s.owner == Owned(t) && !TouchesRecursion(s.threads[u].pc))
      && (s.threads[t].pc.Idle? ==>
            (s.owner == Owned(t) <==> s.threads[t].depth > 0)
            && (s.owner == Owned(t) ==> s.recursion == s.threads[t].depth))
  {
    RunKeepsInv(states, movers, k);
    assert ThreadOk(states[k], t) && ThreadOk(states[k], u);
  }

  // A lock completes only while nobody else holds the mutex, and the owner is cleared exactly when
  // an unlock has brought the nesting depth back to zero.
  lemma AcquireAndRelease(states: seq<State>, movers: seq<nat>, k: nat)
    requires IsRun(states, movers) && Init(states[0]) && k < |movers|
    ensures var s, s', t := states[k], states[k + 1], movers[k];
      && |s'.threads| == |s.threads| && t < |s.threads|
      && (s'.threads[t].depth > s.threads[t].depth ==>
            s.owner == Owned(t) && forall u :: 0 <= u < |s.threads| && u != t ==> s.threads[u].depth == 0)
      && (s.owner.Owned? && s'.owner.Nobody? <==> s.threads[t].pc.Clear?)
      && (s.threads[t].pc.TestZero? ==> (s'.threads[t].pc.Clear? <==> s.threads[t].depth == 0))
      && (s.threads[t].pc.Clear? ==> s.owner == Owned(t) && s.threads[t].depth == 0)
  {
    var s, t := states[k], movers[k];
    RunKeepsInv(states, movers, k);
    assert Step(s, t, states[k + 1]);
    assert ThreadOk(s, t);
    forall u: nat | u < |s.threads| && u != t && s.owner == Owned(t)
      ensures s.threads[u].depth == 0
    {
      assert ThreadOk(s, u);
    }
  }

  // ----- progress -----

  // A run in which only thread t moves.
  ghost predicate SoloRun(states: seq<State>, t: nat) {
    states != [] && forall i :: 0 <= i < |states| - 1 ==> Step(states[i], t, states[i + 1])
  }

  // What a thread's completed lock leaves behind, seen from the state in which it started.
  ghost predicate Locked(s: State, t: nat, s': State)
    requires t < |s.threads|
  {
    s' == State(Owned(t), s.threads[t].depth + 1, s.threads[t := Thread(Idle, s.threads[t].depth + 1)])
  }

  // A lock completes: the owner's on its own steps alone, anyone's while nobody holds the mutex. It
  // leaves the thread owner one level deeper.
  lemma LockCompletes(s: State, t: nat) returns (states: seq<State>)
    requires Inv(s) && t < |s.threads| && s.threads[t].pc.Idle? && (s.owner == Nobody || s.owner == Owned(t))
    ensures SoloRun(states, t) && states[0] == s && Locked(s, t, states[|states| - 1])
  {
    assert ThreadOk(s, t);
    var th := s.threads[t];
    var s1 := At(s, t, th.(pc := TestOwner));
    if s.owner == Owned(t) {
      var s2 := At(s1, t, th.(pc := IncRead));
      var s3 := At(s2, t, th.(pc := IncWrite(s.recursion)));
      var s4 := At(s3.(recursion := s.recursion + 1), t, Thread(Idle, th.depth + 1));
      states := [s, s1, s2, s3, s4];
      assert s4.threads == s.threads[t := Thread(Idle, th.depth + 1)];
    } else {
      var s2 := At(s1, t, th.(pc := Swap));
      var s3 := At(s2.(owner := Owned(t)), t, th.(pc := SetOne));
      var s4 := At(s3.(recursion := 1), t, Thread(Idle, th.depth + 1));
      states := [s, s1, s2, s3, s4];
      assert s4.threads == s.threads[t := Thread(Idle, th.depth + 1)];
    }
  }

  ghost predicate Unlocked(s: State, t: nat, s': State)
    requires t < |s.threads|
  {
    var depth := s.threads[t].depth - 1;
    depth >= 0 && s' == State(if depth == 0 then Nobody else Owned(t), depth, s.threads[t := Thread(Idle, depth)])
  }

  // An unlock always completes on the thread's own steps, one level up, and frees the mutex at the
  // outermost level only.
  lemma UnlockCompletes(s: State, t: nat) returns (states: seq<State>)
    requires Inv(s) && t < |s.threads| && s.threads[t].pc.Idle? && s.threads[t].depth > 0
    ensures SoloRun(states, t) && states[0] == s && Unlocked(s, t, states[|states| - 1])
  {
    assert ThreadOk(s, t);
    var th := s.threads[t];
    var depth := th.depth - 1;
    var s1 := At(s, t, th.(pc := DecRead));
    var s2 := At(s1, t, th.(pc := DecWrite(s.recursion)));
    var s3 := At(s2.(recursion := depth), t, Thread(TestZero, depth));
    if depth == 0 {
      var s4 := At(s3, t, Thread(Clear, 0));
      var s5 := At(s4.(owner := Nobody), t, Thread(Idle, 0));
      states := [s, s1, s2, s3, s4, s5];
      assert s5.threads == s.threads[t := Thread(Idle, 0)];
    } else {
      var s4 := At(s3, t, Thread(Idle, depth));
      states := [s, s1, s2, s3, s4];
      assert s4.threads == s.threads[t := Thread(Idle, depth)];
    }
  }

  // Locking and unlocking again puts everything back but the counter of a free mutex.
  lemma LockThenUnlock(s: State, t: nat, mid: State, s': State)
    requires Inv(s) && t < |s.threads| && s.threads[t].pc.Idle? && Locked(s, t, mid) && Unlocked(mid, t, s')
    requires s.owner == Nobody || s.owner == Owned(t)
    ensures s'.owner == s.owner && s'.threads == s.threads && (s.owner == Owned(t) ==> s'.recursion == s.recursion)
  {
    assert ThreadOk(s, t);
    assert s.threads[t] == Thread(Idle, s.threads[t].depth);
  }
}
