/** Runs of the lock-free bucket looked at over time: which stretch of a run is a call's, and how often it failed. */
module Spans {
  import opened Limits
  import opened ZeroTime
  import opened History
  import opened LockFree

  /** A state reached by a run of `n` initially idle threads from zero time `z0`. */
  ghost predicate Reached(l: Limit, z0: real, n: nat, actions: seq<Action>, s: State) {
    Runs(l, Initial(z0, n), actions) && s == Run(l, Initial(z0, n), actions)
  }

  lemma ReachedInv(l: Limit, z0: real, n: nat, actions: seq<Action>, s: State)
    requires Reached(l, z0, n, actions, s)
    ensures Inv(l, z0, s)
  {
    hide Inv;
    InitialInv(l, z0, n);
    RunKeeps(l, z0, Initial(z0, n), actions);
  }

  lemma NotStarted(l: Limit, z0: real, n: nat)
    ensures Reached(l, z0, n, [], Initial(z0, n))
  {
  }

  lemma {:induction false} RunOn(l: Limit, s: State, actions: seq<Action>, a: Action)
    requires Runs(l, s, actions) && Enabled(Run(l, s, actions), a)
    ensures Runs(l, s, actions + [a]) && Run(l, s, actions + [a]) == Next(l, Run(l, s, actions), a)
    decreases |actions|
  {
    if actions == [] {
      assert (actions + [a])[1..] == [];
    } else {
      RunOn(l, Next(l, s, actions[0]), actions[1..], a);
      assert (actions + [a])[1..] == actions[1..] + [a];
    }
  }

  lemma ReachOn(l: Limit, z0: real, n: nat, actions: seq<Action>, s: State, a: Action)
    requires Reached(l, z0, n, actions, s) && Enabled(s, a)
    ensures Reached(l, z0, n, actions + [a], Next(l, s, a))
  {
    RunOn(l, Initial(z0, n), actions, a);
  }

  /** A run continued by another. */
  lemma {:induction false} ReachAll(l: Limit, z0: real, n: nat, actions: seq<Action>, s: State, more: seq<Action>)
    requires Reached(l, z0, n, actions, s) && Runs(l, s, more)
    ensures Reached(l, z0, n, actions + more, Run(l, s, more))
    decreases |more|
  {
    hide Next, Enabled, Reached;
    if more == [] {
      assert actions + more == actions;
    } else {
      ReachOn(l, z0, n, actions, s, more[0]);
      ReachAll(l, z0, n, actions + [more[0]], Next(l, s, more[0]), more[1..]);
      assert actions + [more[0]] + more[1..] == actions + more;
    }
  }

  // ----- When a call begins and ends -----

  /** The state before action `k` of a run. */
  function StateAt(l: Limit, s: State, actions: seq<Action>, k: nat): State
    requires Runs(l, s, actions) && k <= |actions|
    decreases k
  {
    if k == 0 then s else StateAt(l, Next(l, s, actions[0]), actions[1..], k - 1)
  }

  lemma {:induction false} StateStep(l: Limit, s: State, actions: seq<Action>, k: nat)
    requires Runs(l, s, actions) && k < |actions|
    ensures Enabled(StateAt(l, s, actions, k), actions[k])
    ensures StateAt(l, s, actions, k + 1) == Next(l, StateAt(l, s, actions, k), actions[k])
    decreases k
  {
    hide Next, Enabled;
    if k > 0 {
      StateStep(l, Next(l, s, actions[0]), actions[1..], k - 1);
    }
  }

  lemma {:induction false} StateAtEnd(l: Limit, s: State, actions: seq<Action>)
    requires Runs(l, s, actions)
    ensures StateAt(l, s, actions, |actions|) == Run(l, s, actions)
    decreases |actions|
  {
    hide Next, Enabled;
    if actions != [] {
      StateAtEnd(l, Next(l, s, actions[0]), actions[1..]);
    }
  }

  /** A step that finishes a call records how many commits have been made by then. */
  lemma StepEnds(l: Limit, s: State, i: nat, spurious: bool)
    requires i < |s.threads| && s.threads[i].Busy()
    ensures var s' := Step(l, s, i, spurious);
            |s'.threads| == |s.threads| && (s'.threads[i].Finished? ==> s'.threads[i].done == |s'.log|)
  {
    hide Balance, Commit, Ask;
  }

  /** Before action `m` thread `i` is in the middle of call `c`. */
  ghost predicate InCall(l: Limit, s0: State, actions: seq<Action>, i: nat, c: Call, m: nat)
    requires Runs(l, s0, actions) && m <= |actions|
  {
    var s := StateAt(l, s0, actions, m);
    i < |s.threads| && s.threads[i].Busy() && s.threads[i].call == c
  }

  /** Action `end - 1` is a step of thread `i` that leaves it as `t`, after `done` commits. */
  ghost predicate EndsWith(l: Limit, s0: State, actions: seq<Action>, i: nat, t: Thread, end: nat)
    requires Runs(l, s0, actions) && 0 < end <= |actions| && t.Finished?
  {
    var s := StateAt(l, s0, actions, end);
    actions[end - 1].thread == i && i < |s.threads| && s.threads[i] == t && t.done == |s.log|
  }

  /**
   * The call that thread `i` is in, or has last finished, before action `k`: it begins with action `start`, when
   * `begun` commits have been made. It runs until `end`, which is when it finishes, with `done` commits made.
   */
  ghost predicate Span(l: Limit, s0: State, actions: seq<Action>, k: nat, i: nat, t: Thread, start: nat, end: nat)
    requires Runs(l, s0, actions) && k <= |actions| && !t.Idle?
  {
    && start < end <= k
    && actions[start] == Begin(i, t.call.request, t.call.now)
    && t.call.begun == |StateAt(l, s0, actions, start).log|
    && (forall m | start < m < end :: InCall(l, s0, actions, i, t.call, m))
    && if t.Finished? then EndsWith(l, s0, actions, i, t, end) else end == k
  }

  lemma {:induction false} SpanBefore(l: Limit, s0: State, actions: seq<Action>, k: nat, i: nat)
    returns (start: nat, end: nat)
    requires Runs(l, s0, actions) && k <= |actions|
    requires forall j | 0 <= j < |s0.threads| :: s0.threads[j].Idle?
    requires i < |StateAt(l, s0, actions, k).threads| && !StateAt(l, s0, actions, k).threads[i].Idle?
    ensures Span(l, s0, actions, k, i, StateAt(l, s0, actions, k).threads[i], start, end)
    decreases k
  {
    hide Next, Enabled, Runs;
    assert k > 0;
    var s1, s, a := StateAt(l, s0, actions, k - 1), StateAt(l, s0, actions, k), actions[k - 1];
    StateStep(l, s0, actions, k - 1);
    ActionSpans(l, s1, a);
    if a.thread == i && a.Begin? {
      start, end := k - 1, k;
    } else {
      start, end := SpanBefore(l, s0, actions, k - 1, i);
      if s1.threads[i].Busy() {
        assert InCall(l, s0, actions, i, s1.threads[i].call, k - 1);
        end := k;
      }
    }
  }

  /** What one action does to the threads, as far as spans are concerned. */
  lemma ActionSpans(l: Limit, s: State, a: Action)
    requires Enabled(s, a)
    ensures var s', i := Next(l, s, a), a.thread;
            && i < |s.threads| == |s'.threads| && !s'.threads[i].Idle?
            && (forall j | 0 <= j < |s.threads| && j != i :: s'.threads[j] == s.threads[j])
            && (s'.threads[i].Finished? ==> s'.threads[i].done == |s'.log|)
            && if a.Begin? then s'.threads[i].call == Call(s.calls, a.request, a.now, |s.log|)
               else s.threads[i].Busy() && s'.threads[i].call == s.threads[i].call
  {
    hide Step;
    if a.Begin? {
      BeginGrows(l, s, a.thread, a.request, a.now);
    } else {
      AdvanceGrows(l, s, a.thread, a.spurious);
      StepEnds(l, s, a.thread, a.spurious);
    }
  }

  /** The call of thread `i` spans the stretch of the run that its start and its end say. */
  ghost predicate Spanned(l: Limit, z0: real, n: nat, actions: seq<Action>, s: State, i: nat)
    requires Reached(l, z0, n, actions, s) && i < |s.threads| && !s.threads[i].Idle?
  {
    exists start: nat, end: nat ::
      Span(l, Initial(z0, n), actions, |actions|, i, s.threads[i], start, end)
  }

  /**
   * In every run a call begins at the action that starts it, with as many commits made as it records, and a
   * finished call has ended at the step that produced its reply, with as many commits made as it records.
   */
  lemma SpanOfCall(l: Limit, z0: real, n: nat, actions: seq<Action>, s: State, i: nat)
    requires Reached(l, z0, n, actions, s) && i < |s.threads| && !s.threads[i].Idle?
    ensures Spanned(l, z0, n, actions, s, i)
  {
    hide Runs, Run, Span;
    StateAtEnd(l, Initial(z0, n), actions);
    var start, end := SpanBefore(l, Initial(z0, n), actions, |actions|, i);
  }

  /** The first commits of a history are those made by any earlier moment, and the cell was their replay then. */
  lemma {:induction false} HistoryAt(l: Limit, z0: real, s0: State, actions: seq<Action>, k: nat)
    requires Inv(l, z0, s0) && Runs(l, s0, actions) && k <= |actions|
    ensures var past, log := StateAt(l, s0, actions, k), Run(l, s0, actions).log;
            |past.log| <= |log| && past.log == log[..|past.log|] && past.cell == ZeroTimeAfter(l, z0, past.log)
    decreases |actions|
  {
    hide Inv, Next, Enabled;
    if actions == [] || k == 0 {
      CellIsReplay(l, z0, s0);
      LogGrows(l, s0, actions);
    } else {
      NextKeeps(l, z0, s0, actions[0]);
      HistoryAt(l, z0, Next(l, s0, actions[0]), actions[1..], k - 1);
    }
  }

  lemma CellIsReplay(l: Limit, z0: real, s: State)
    requires Inv(l, z0, s)
    ensures s.cell == ZeroTimeAfter(l, z0, s.log)
  {
  }

  lemma {:induction false} LogGrows(l: Limit, s: State, actions: seq<Action>)
    requires Runs(l, s, actions)
    ensures var log := Run(l, s, actions).log; |s.log| <= |log| && s.log == log[..|s.log|]
    decreases |actions|
  {
    hide Next;
    if actions != [] {
      if actions[0].Begin? {
        BeginGrows(l, s, actions[0].thread, actions[0].request, actions[0].now);
      } else {
        AdvanceGrows(l, s, actions[0].thread, actions[0].spurious);
      }
      LogGrows(l, Next(l, s, actions[0]), actions[1..]);
    }
  }

  // ----- What a run does, counted from its actions -----

  /** The calls that begin in a run. */
  function Begins(actions: seq<Action>): nat {
    if actions == [] then 0 else Begins(actions[1..]) + if actions[0].Begin? then 1 else 0
  }

  /** The steps of a run at which a compare-and-swap may fail for no reason. */
  function SpuriousSteps(actions: seq<Action>): nat {
    if actions == [] then 0
    else SpuriousSteps(actions[1..]) + if actions[0].Advance? && actions[0].spurious then 1 else 0
  }

  /** The step attempts a compare-and-swap: it is not a load, and the thread has something to commit. */
  predicate Attempts(l: Limit, s: State, a: Action) {
    && a.Advance? && Enabled(s, a)
    && match s.threads[a.thread]
       case Posting(_, _, _, _, _, _) => true
       case Trying(c, _, _, remaining, seen, _) => Ask(c.request, remaining, Balance(l, seen, c.now)) != 0.0
       case _ => false
  }

  /** The compare-and-swaps of a run that find the cell changed. */
  function Contended(l: Limit, s: State, actions: seq<Action>): nat
    requires Runs(l, s, actions)
    decreases |actions|
  {
    if actions == [] then 0
    else
      Contended(l, Next(l, s, actions[0]), actions[1..])
      + if Attempts(l, s, actions[0]) && s.threads[actions[0].thread].seen != s.cell then 1 else 0
  }

  /** The compare-and-swaps of a run that fail on an unchanged cell. */
  function FailedSpuriously(l: Limit, s: State, actions: seq<Action>): nat
    requires Runs(l, s, actions)
    decreases |actions|
  {
    if actions == [] then 0
    else
      FailedSpuriously(l, Next(l, s, actions[0]), actions[1..])
      + if Attempts(l, s, actions[0]) && s.threads[actions[0].thread].seen == s.cell && actions[0].spurious
        then 1 else 0
  }

  /** Every attempt fails on a changed cell, fails spuriously, or commits, and is counted as what it is. */
  lemma AttemptsCount(l: Limit, s: State, a: Action)
    requires Enabled(s, a)
    ensures var s' := Next(l, s, a);
            var seen := if Attempts(l, s, a) then s.threads[a.thread].seen else 0.0;
            && s'.calls == s.calls + (if a.Begin? then 1 else 0)
            && s'.failures == s.failures + (if Attempts(l, s, a) && seen != s.cell then 1 else 0)
            && s'.spurious == s.spurious + (if Attempts(l, s, a) && seen == s.cell && a.spurious then 1 else 0)
            && |s'.log| == |s.log| + (if Attempts(l, s, a) && seen == s.cell && !a.spurious then 1 else 0)
  {
    hide Balance, Commit, Asked;
  }

  /** In every run the counters of the state count what happened. */
  lemma {:induction false} RunCounts(l: Limit, s: State, actions: seq<Action>)
    requires Runs(l, s, actions)
    ensures var s' := Run(l, s, actions);
            && s'.calls == s.calls + Begins(actions)
            && s'.failures == s.failures + Contended(l, s, actions)
            && s'.spurious == s.spurious + FailedSpuriously(l, s, actions)
            && FailedSpuriously(l, s, actions) <= SpuriousSteps(actions)
    decreases |actions|
  {
    hide Next, Enabled, Attempts;
    if actions != [] {
      AttemptsCount(l, s, actions[0]);
      AttemptIsStep(l, s, actions[0]);
      RunCounts(l, Next(l, s, actions[0]), actions[1..]);
    }
  }

  lemma AttemptIsStep(l: Limit, s: State, a: Action)
    ensures Attempts(l, s, a) ==> a.Advance?
  {
  }
}
