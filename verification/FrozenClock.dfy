/** Calls that all read the same clock value: what is granted does not depend on the interleaving. */
module FrozenClock {
  import opened Limits
  import opened ZeroTime
  import opened History
  import opened LockFree
  import opened Spans
  import opened Borrowing

  /** Every call of the run is a `consume` or `try_consume` at clock reading `now`. */
  ghost predicate AllConsumeAt(actions: seq<Action>, now: real) {
    forall k | 0 <= k < |actions| && actions[k].Begin? ::
      actions[k].request.Whole() && actions[k].now == now
  }

  /** The tokens requested by the calls that begin in a run. */
  function Demand(actions: seq<Action>): real {
    if actions == [] then 0.0
    else (if actions[0].Begin? then actions[0].request.n else 0.0) + Demand(actions[1..])
  }

  function Wanted(t: Thread): real {
    if t.Starting? || t.Trying? then t.remaining else 0.0
  }

  /** The tokens requested by the calls in flight. */
  function InFlight(threads: seq<Thread>): real {
    if threads == [] then 0.0 else InFlight(threads[..|threads| - 1]) + Wanted(threads[|threads| - 1])
  }

  lemma {:induction false} InFlightAfterUpdate(threads: seq<Thread>, i: nat, t: Thread)
    requires i < |threads|
    ensures InFlight(threads[i := t]) == InFlight(threads) - Wanted(threads[i]) + Wanted(t)
    decreases |threads|
  {
    var init := threads[..|threads| - 1];
    if i < |init| {
      assert threads[i := t][..|threads| - 1] == init[i := t];
      InFlightAfterUpdate(init, i, t);
    } else {
      assert threads[i := t][..|threads| - 1] == init;
    }
  }

  lemma {:induction false} WantedAtMostInFlight(threads: seq<Thread>, i: nat)
    ensures 0.0 <= InFlight(threads)
    ensures i < |threads| ==> Wanted(threads[i]) <= InFlight(threads)
    decreases |threads|
  {
    if threads != [] {
      WantedAtMostInFlight(threads[..|threads| - 1], i);
    }
  }

  lemma {:induction false} DemandNotNegative(actions: seq<Action>)
    ensures 0.0 <= Demand(actions)
  {
    if actions != [] {
      DemandNotNegative(actions[1..]);
    }
  }

  /** Thread `t` runs or has completed a `consume` or `try_consume` at `now`, and was not refused. */
  ghost predicate Served(cell: real, t: Thread, now: real) {
    match t
    case Idle => true
    case Starting(c, _, _, _) => c.request.Whole() && c.now == now
    case Trying(c, _, _, _, seen, _) => c.request.Whole() && c.now == now && seen <= cell
    case Finished(c, reply, _) => c.request.Whole() && reply.Granted?
    case _ => false
  }

  /** With `demand` still to come, the bucket covers everything in flight. */
  ghost predicate Covered(l: Limit, s: State, now: real, demand: real) {
    && InFlight(s.threads) + demand <= Balance(l, s.cell, now)
    && forall i | 0 <= i < |s.threads| :: Served(s.cell, s.threads[i], now)
  }

  lemma OlderHoldsMore(l: Limit, older: real, z: real, now: real)
    requires older <= z
    ensures Balance(l, z, now) <= Balance(l, older, now)
  {
    BalanceInSeconds(l, z, now);
    BalanceInSeconds(l, older, now);
    SecondsOrder(l, Balance(l, older, now), Balance(l, z, now));
  }

  /** Taking `consumed` tokens at `now` lowers the balance at `now` by exactly that much. */
  lemma TakeLowersBalance(l: Limit, z: real, now: real, consumed: Positive)
    ensures Balance(l, AfterTake(l, z, now, consumed), now) == Balance(l, z, now) - consumed
  {
    TakeAdvancesClampedZeroTime(l, z, now, consumed);
    BalanceInSeconds(l, z, now);
    var z' := AfterTake(l, z, now, consumed);
    BalanceInSeconds(l, z', now);
    SecondsOrder(l, 0.0, consumed);
    SecondsAdd(l, 0.0, 0.0);
    SecondsAdd(l, Balance(l, z, now), consumed);
    SecondsOrder(l, Balance(l, z', now), Balance(l, z, now) - consumed);
  }

  lemma StepCovered(l: Limit, s: State, i: nat, spurious: bool, now: real, demand: real)
    requires Covered(l, s, now, demand) && i < |s.threads| && s.threads[i].Busy() && 0.0 <= demand
    ensures var s' := Step(l, s, i, spurious);
            Covered(l, s', now, demand)
            && Debited(s'.log) + Balance(l, s'.cell, now) == Debited(s.log) + Balance(l, s.cell, now)
            && Debited(s'.log) + InFlight(s'.threads) == Debited(s.log) + InFlight(s.threads)
  {
    hide Balance, InFlight, AfterTake, Debited;
    var t, s' := s.threads[i], Step(l, s, i, spurious);
    assert Served(s.cell, t, now);
    InFlightAfterUpdate(s.threads, i, s'.threads[i]);
    WantedAtMostInFlight(s.threads, i);
    if t.Trying? {
      OlderHoldsMore(l, t.seen, s.cell, now);
      if t.seen == s.cell && !spurious {
        var e := TakeEvent(t, t.remaining);
        TakeLowersBalance(l, s.cell, now, t.remaining);
        Append(l, 0.0, s.log, e);
        CommitMoves(l, s.cell, e);
      }
    }
  }

  lemma BeginCovered(l: Limit, s: State, a: Action, now: real, demand: real)
    requires Enabled(s, a) && a.Begin? && a.request.Whole() && a.now == now
    requires Covered(l, s, now, a.request.n + demand)
    ensures Covered(l, Next(l, s, a), now, demand)
    ensures InFlight(Next(l, s, a).threads) == InFlight(s.threads) + a.request.n
  {
    hide Balance, InFlight;
    assert Served(s.cell, s.threads[a.thread], now);
    InFlightAfterUpdate(s.threads, a.thread, Enter(l, s, a.request, now));
  }

  lemma {:induction false} RunCovered(l: Limit, s: State, actions: seq<Action>, now: real)
    requires Runs(l, s, actions) && AllConsumeAt(actions, now)
    requires Covered(l, s, now, Demand(actions))
    ensures var s' := Run(l, s, actions);
            Covered(l, s', now, 0.0)
            && Debited(s'.log) + Balance(l, s'.cell, now) == Debited(s.log) + Balance(l, s.cell, now)
            && Debited(s'.log) + InFlight(s'.threads) == Debited(s.log) + InFlight(s.threads) + Demand(actions)
    decreases |actions|
  {
    hide Balance, InFlight, Debited, Covered, Next, Step;
    if actions != [] {
      var a, s' := actions[0], Next(l, s, actions[0]);
      DemandNotNegative(actions[1..]);
      if a.Begin? {
        BeginCovered(l, s, a, now, Demand(actions[1..]));
        BeginWritesNothing(l, s, a);
      } else {
        StepCovered(l, s, a.thread, a.spurious, now, Demand(actions[1..]));
        AdvanceIsStep(l, s, a);
      }
      RunCovered(l, s', actions[1..], now);
    }
  }

  lemma BeginWritesNothing(l: Limit, s: State, a: Action)
    requires Enabled(s, a) && a.Begin?
    ensures Next(l, s, a).cell == s.cell && Next(l, s, a).log == s.log
  {
  }

  lemma AdvanceIsStep(l: Limit, s: State, a: Action)
    requires Enabled(s, a) && a.Advance?
    ensures Next(l, s, a) == Step(l, s, a.thread, a.spurious)
  {
  }

  /**
   * Confluence at a frozen clock. When the requests together do not exceed what is available, no call is
   * refused in any interleaving, however many compare-and-swaps fail; what has been debited and what is in
   * flight add up to the requests, and the balance is what was available less what has been debited. Once
   * all threads rest, the balance is the same in every interleaving.
   */
  lemma Confluence(l: Limit, z0: real, n: nat, actions: seq<Action>, s: State, now: real)
    requires Reached(l, z0, n, actions, s) && AllConsumeAt(actions, now)
    requires Demand(actions) <= Balance(l, z0, now)
    ensures forall i | 0 <= i < |s.threads| && s.threads[i].Finished? :: s.threads[i].reply.Granted?
    ensures Debited(s.log) + InFlight(s.threads) == Demand(actions)
    ensures Balance(l, s.cell, now) == Balance(l, z0, now) - Debited(s.log)
    ensures (forall i | 0 <= i < |s.threads| :: !s.threads[i].Busy()) ==>
              Balance(l, s.cell, now) == Balance(l, z0, now) - Demand(actions)
  {
    hide Balance, Runs, Run;
    NoneInFlight(Initial(z0, n).threads);
    RunCovered(l, Initial(z0, n), actions, now);
    assert forall i | 0 <= i < |s.threads| :: Served(s.cell, s.threads[i], now);
    if forall i | 0 <= i < |s.threads| :: !s.threads[i].Busy() {
      NoneInFlight(s.threads);
    }
  }

  lemma {:induction false} NoneInFlight(threads: seq<Thread>)
    requires forall i | 0 <= i < |threads| :: !threads[i].Busy()
    ensures InFlight(threads) == 0.0
  {
    if threads != [] {
      NoneInFlight(threads[..|threads| - 1]);
    }
  }

  // ----- Every kind of call but returns -----

  /** Every call of the run reads the clock value `now`. */
  ghost predicate AllAt(actions: seq<Action>, now: real) {
    forall k | 0 <= k < |actions| && actions[k].Begin? :: actions[k].now == now
  }

  ghost predicate Frozen(s: State, now: real) {
    && (forall i | 0 <= i < |s.threads| && !s.threads[i].Idle? :: s.threads[i].call.now == now)
    && (forall k | 0 <= k < |s.log| :: s.log[k].now == now)
  }

  lemma {:induction false} RunFrozen(l: Limit, s: State, actions: seq<Action>, now: real)
    requires Runs(l, s, actions) && AllAt(actions, now) && Frozen(s, now)
    ensures Frozen(Run(l, s, actions), now)
    decreases |actions|
  {
    if actions != [] {
      NextFrozen(l, s, actions[0], now);
      RunFrozen(l, Next(l, s, actions[0]), actions[1..], now);
    }
  }

  lemma NextFrozen(l: Limit, s: State, a: Action, now: real)
    requires Enabled(s, a) && Frozen(s, now) && (a.Begin? ==> a.now == now)
    ensures Frozen(Next(l, s, a), now)
  {
    hide Balance, Commit, Ask, Asked;
  }

  /**
   * Without returns, calls of any kind that all read one clock value leave a zero time that depends only on
   * how much they committed together, not on the interleaving nor on how the amount was cut into pieces.
   */
  lemma SameTotalSameZeroTime(l: Limit, z0: real, n: nat, actions: seq<Action>, s: State, now: real)
    requires Reached(l, z0, n, actions, s) && AllAt(actions, now) && OnlyDebits(s.log)
    ensures s.cell == if s.log == [] then z0 else Charged(l, z0, now, Debited(s.log))
  {
    hide FullAt, Seconds, Earned, Debited;
    ReachedInv(l, z0, n, actions, s);
    RunFrozen(l, Initial(z0, n), actions, now);
    if s.log == [] {
      EmptyHistory(l, z0, []);
    } else {
      OneClampThenSum(l, z0, s.log, 0, now);
      EmptyHistory(l, z0, s.log);
      assert s.log[0..] == s.log;
    }
  }
}
