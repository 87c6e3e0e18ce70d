/** Amortised lock-freedom: a compare-and-swap fails for a reason only when another thread has committed. */
module Progress {
  import opened Limits
  import opened ZeroTime
  import opened History
  import opened LockFree
  import opened Spans
  import opened Borrowing

  /** Thread `t` holds a value loaded before the latest of `commits` commits. */
  predicate HoldsStale(t: Thread, commits: nat) {
    (t.Trying? || t.Posting?) && t.at < commits
  }

  function Stale(threads: seq<Thread>, commits: nat): nat {
    if threads == [] then 0
    else Stale(threads[..|threads| - 1], commits) + if HoldsStale(threads[|threads| - 1], commits) then 1 else 0
  }

  lemma {:induction false} StaleAfterUpdate(threads: seq<Thread>, i: nat, t: Thread, commits: nat)
    requires i < |threads|
    ensures Stale(threads[i := t], commits) ==
            Stale(threads, commits) - (if HoldsStale(threads[i], commits) then 1 else 0)
            + if HoldsStale(t, commits) then 1 else 0
    decreases |threads|
  {
    var init, last := threads[..|threads| - 1], threads[|threads| - 1];
    var updated := threads[i := t];
    if i < |init| {
      assert updated[..|threads| - 1] == init[i := t];
      StaleAfterUpdate(init, i, t, commits);
    } else {
      assert updated[..|threads| - 1] == init;
    }
  }

  lemma {:induction false} StaleAtMost(threads: seq<Thread>, commits: nat)
    ensures Stale(threads, commits) <= |threads|
  {
    if threads != [] {
      StaleAtMost(threads[..|threads| - 1], commits);
    }
  }

  lemma {:induction false} StaleExceptOne(threads: seq<Thread>, i: nat, commits: nat)
    requires i < |threads| && !HoldsStale(threads[i], commits)
    ensures Stale(threads, commits) <= |threads| - 1
    decreases |threads|
  {
    var init := threads[..|threads| - 1];
    if i < |init| {
      StaleExceptOne(init, i, commits);
    } else {
      StaleAtMost(init, commits);
    }
  }

  /** Failures already suffered and failures that can still be caused are paid for by the other threads' commits. */
  ghost predicate Budgeted(s: State) {
    s.failures + Stale(s.threads, |s.log|) <= (|s.threads| - 1) * |s.log|
  }

  lemma InitialBudgeted(z0: real, n: nat)
    ensures Budgeted(Initial(z0, n))
  {
    NoneStale(Initial(z0, n).threads);
  }

  lemma {:induction false} NoneStale(threads: seq<Thread>)
    ensures Stale(threads, 0) == 0
  {
    if threads != [] {
      NoneStale(threads[..|threads| - 1]);
    }
  }

  /** A failure that is not spurious finds a cell written since the thread's load. */
  lemma FailsOnlyIfStale(l: Limit, z0: real, s: State, i: nat)
    requires Inv(l, z0, s) && i < |s.threads| && (s.threads[i].Trying? || s.threads[i].Posting?)
    requires s.threads[i].seen != s.cell
    ensures HoldsStale(s.threads[i], |s.log|)
  {
    assert Consistent(l, z0, s.log, s.calls, s.threads[i]);
    assert s.log[..|s.log|] == s.log;
  }

  lemma StepGrows(l: Limit, s: State, i: nat, spurious: bool)
    requires i < |s.threads| && s.threads[i].Busy()
    ensures var s' := Step(l, s, i, spurious); Grows(s, s', i) && s'.calls == s.calls
  {
    hide Step;
    AdvanceGrows(l, s, i, spurious);
  }

  /** A failure reloads, a commit leaves its own thread with nothing stale, and no other step makes anything stale. */
  lemma OwnFailure(l: Limit, z0: real, s: State, i: nat, spurious: bool)
    requires Inv(l, z0, s) && i < |s.threads| && s.threads[i].Busy()
    ensures var s' := Step(l, s, i, spurious);
            var before, after := HoldsStale(s.threads[i], |s.log|), HoldsStale(s'.threads[i], |s'.log|);
            && s.failures <= s'.failures <= s.failures + 1
            && (after ==> before)
            && (s'.log != s.log ==> s'.failures == s.failures && !after)
            && (s'.failures > s.failures ==> before && !after)
  {
    hide Inv, Balance, Commit, Ask, Asked;
    if (s.threads[i].Trying? || s.threads[i].Posting?) && s.threads[i].seen != s.cell {
      FailsOnlyIfStale(l, z0, s, i);
    }
  }

  lemma StepBudgeted(l: Limit, z0: real, s: State, i: nat, spurious: bool)
    requires Inv(l, z0, s) && Budgeted(s) && i < |s.threads| && s.threads[i].Busy()
    ensures Budgeted(Step(l, s, i, spurious))
  {
    hide Inv, Stale, Step, HoldsStale;
    var s' := Step(l, s, i, spurious);
    StepGrows(l, s, i, spurious);
    var t := s'.threads[i];
    OwnFailure(l, z0, s, i, spurious);
    assert s'.threads == s.threads[i := t];
    StaleAfterUpdate(s.threads, i, t, |s.log|);
    if s'.log != s.log {
      StaleExceptOne(s'.threads, i, |s'.log|);
      assert (|s.threads| - 1) * |s'.log| == (|s.threads| - 1) * |s.log| + (|s.threads| - 1);
    }
  }

  lemma BeginBudgeted(l: Limit, s: State, a: Action)
    requires Budgeted(s) && Enabled(s, a) && a.Begin?
    ensures Budgeted(Next(l, s, a))
  {
    hide Stale, Asked;
    StaleAfterUpdate(s.threads, a.thread, Enter(l, s, a.request, a.now), |s.log|);
  }

  lemma NextBudgeted(l: Limit, z0: real, s: State, a: Action)
    requires Inv(l, z0, s) && Budgeted(s) && Enabled(s, a)
    ensures Budgeted(Next(l, s, a)) && |Next(l, s, a).threads| == |s.threads|
  {
    hide Inv, Budgeted, Step;
    if a.Begin? {
      BeginBudgeted(l, s, a);
    } else {
      StepBudgeted(l, z0, s, a.thread, a.spurious);
      StepGrows(l, s, a.thread, a.spurious);
    }
  }

  lemma {:induction false} RunBudgeted(l: Limit, z0: real, s: State, actions: seq<Action>)
    requires Inv(l, z0, s) && Budgeted(s) && Runs(l, s, actions)
    ensures Budgeted(Run(l, s, actions)) && |Run(l, s, actions).threads| == |s.threads|
    decreases |actions|
  {
    hide Inv, Budgeted, Next;
    if actions != [] {
      NextKeeps(l, z0, s, actions[0]);
      NextBudgeted(l, z0, s, actions[0]);
      RunBudgeted(l, z0, Next(l, s, actions[0]), actions[1..]);
    }
  }

  /**
   * With `n` threads the compare-and-swaps of a run that find the cell changed never exceed `n - 1` times
   * the commits: retries are finite once commits and spurious failures are.
   */
  lemma AmortisedLockFreedom(l: Limit, z0: real, n: nat, actions: seq<Action>, s: State)
    requires Reached(l, z0, n, actions, s)
    ensures Contended(l, Initial(z0, n), actions) <= (n - 1) * |s.log|
  {
    hide Inv, Next, Contended, FailedSpuriously, SpuriousSteps, Stale, Runs, Run;
    InitialInv(l, z0, n);
    InitialBudgeted(z0, n);
    RunBudgeted(l, z0, Initial(z0, n), actions);
    RunCounts(l, Initial(z0, n), actions);
  }

  // ----- Bounded work -----

  datatype Measure = OfSteps | OfCommits

  /** The number of returns committed after the first `i` commits. */
  function ReturnsAfter(log: seq<Event>, i: nat): nat {
    if i <= |log| then ReturnCount(log[i..]) else 0
  }

  /**
   * What a thread can still do in its call: the steps it takes if no compare-and-swap of it fails, and the
   * commits. After the first round each further round needs a return.
   */
  function Left(log: seq<Event>, t: Thread, m: Measure): nat {
    match t
    case Starting(_, round, since, _) =>
      if m.OfSteps? then (if round == 1 then 7 else 5 + 2 * ReturnsAfter(log, since))
      else if round == 1 then 2 else 1 + ReturnsAfter(log, since)
    case Trying(_, round, since, _, _, _) =>
      if m.OfSteps? then (if round == 1 then 6 else 4 + 2 * ReturnsAfter(log, since))
      else if round == 1 then 2 else 1 + ReturnsAfter(log, since)
    case Owing(_, _, _, _) => if m.OfSteps? then 3 else 1
    case Posting(_, _, _, _, _, _) => if m.OfSteps? then 2 else 1
    case ReadingDebt(_, _) => if m.OfSteps? then 1 else 0
    case _ => 0
  }

  function Total(log: seq<Event>, threads: seq<Thread>, m: Measure): nat {
    if threads == [] then 0 else Total(log, threads[..|threads| - 1], m) + Left(log, threads[|threads| - 1], m)
  }

  lemma {:induction false} TotalAfterUpdate(log: seq<Event>, threads: seq<Thread>, i: nat, t: Thread, m: Measure)
    requires i < |threads|
    ensures Total(log, threads[i := t], m) == Total(log, threads, m) - Left(log, threads[i], m) + Left(log, t, m)
    decreases |threads|
  {
    hide Left;
    var init := threads[..|threads| - 1];
    if i < |init| {
      assert threads[i := t][..|threads| - 1] == init[i := t];
      TotalAfterUpdate(log, init, i, t, m);
    } else {
      assert threads[i := t][..|threads| - 1] == init;
    }
  }

  /** What the commit `e` adds to what `n` threads can still do: nothing, unless it is a return. */
  function Reopened(e: Event, m: Measure, n: nat): nat {
    if !e.kind.Return? then 0 else if m.OfSteps? then 2 * n else n
  }

  lemma LeftAfterCommit(log: seq<Event>, e: Event, t: Thread, m: Measure)
    ensures Left(log + [e], t, m) <= Left(log, t, m) + Reopened(e, m, 1)
  {
    hide ReturnCount;
    if t.Starting? || t.Trying? {
      if t.since <= |log| {
        assert (log + [e])[t.since..] == log[t.since..] + [e];
        CountReturn(log[t.since..], e);
      } else if t.since == |log| + 1 {
        assert (log + [e])[t.since..] == [];
        NoReturnYet();
      }
    }
  }

  lemma CountReturn(log: seq<Event>, e: Event)
    ensures ReturnCount(log + [e]) == ReturnCount(log) + if e.kind.Return? then 1 else 0
  {
    assert (log + [e])[..|log|] == log;
  }

  lemma NoReturnYet()
    ensures ReturnCount([]) == 0
  {
  }

  lemma {:induction false} TotalAfterCommit(log: seq<Event>, e: Event, threads: seq<Thread>, m: Measure)
    ensures Total(log + [e], threads, m) <= Total(log, threads, m) + Reopened(e, m, |threads|)
  {
    hide Left;
    if threads != [] {
      TotalAfterCommit(log, e, threads[..|threads| - 1], m);
      LeftAfterCommit(log, e, threads[|threads| - 1], m);
    }
  }

  /** A thread pays for its own steps and commits, unless a compare-and-swap of it fails. */
  lemma OwnStep(l: Limit, z0: real, s: State, i: nat, spurious: bool)
    requires Inv(l, z0, s) && i < |s.threads| && s.threads[i].Busy()
    ensures var t, s' := s.threads[i], Step(l, s, i, spurious);
            && Left(s'.log, s'.threads[i], OfSteps) + 1
               <= Left(s.log, t, OfSteps) + s'.failures - s.failures + s'.spurious - s.spurious
            && Left(s'.log, s'.threads[i], OfCommits) + |s'.log| - |s.log| <= Left(s.log, t, OfCommits)
  {
    hide Balance, ZeroTimeAfter, Commit, Pieces, Admissible, DistinctCalls, ReturnCount, CommitCount, Within;
    var t, s' := s.threads[i], Step(l, s, i, spurious);
    assert Consistent(l, z0, s.log, s.calls, t);
    if t.Trying? && |s'.log| > |s.log| {
      if t.round >= 2 {
        EmptyIff(l, s.cell, t.call.now);
        TakeNeedsReturn(l, z0, s.log, t.call, t.since);
        ReturnsBetween(s.log, t.since);
      }
      assert s'.log[|s.log| + 1..] == [];
      NoReturnYet();
    }
  }

  /** After `taken` steps: every step was paid for by a call, a return, a failure, or a spurious failure. */
  ghost predicate Paced(s: State, taken: nat) {
    var n, returned := |s.threads|, ReturnCount(s.log);
    && taken + Total(s.log, s.threads, OfSteps) <= 8 * s.calls + s.failures + s.spurious + 2 * n * returned
    && |s.log| + Total(s.log, s.threads, OfCommits) <= 2 * s.calls + n * returned
  }

  lemma {:induction false} NothingLeft(log: seq<Event>, threads: seq<Thread>, m: Measure)
    requires forall i | 0 <= i < |threads| :: threads[i].Idle?
    ensures Total(log, threads, m) == 0
  {
    if threads != [] {
      NothingLeft(log, threads[..|threads| - 1], m);
    }
  }

  lemma BeginPaced(l: Limit, s: State, a: Action, taken: nat)
    requires Paced(s, taken) && Enabled(s, a) && a.Begin?
    ensures Paced(Next(l, s, a), taken + 1)
  {
    hide Total, Asked, ReturnCount;
    var t := Enter(l, s, a.request, a.now);
    TotalAfterUpdate(s.log, s.threads, a.thread, t, OfSteps);
    TotalAfterUpdate(s.log, s.threads, a.thread, t, OfCommits);
  }

  /** Thread `i` becomes `t` while committing `e`. */
  lemma TotalAfterStep(log: seq<Event>, e: Event, threads: seq<Thread>, i: nat, t: Thread, m: Measure)
    requires i < |threads|
    ensures Total(log + [e], threads[i := t], m) <=
            Total(log, threads, m) - Left(log, threads[i], m) + Left(log + [e], t, m) + Reopened(e, m, |threads|)
  {
    hide Total, Left, Reopened;
    var others := threads[i := Idle];
    TotalAfterUpdate(log, threads, i, Idle, m);
    TotalAfterCommit(log, e, others, m);
    TotalAfterUpdate(log + [e], others, i, t, m);
    assert others[i := t] == threads[i := t];
    NothingToDo(log, m);
    NothingToDo(log + [e], m);
  }

  lemma NothingToDo(log: seq<Event>, m: Measure)
    ensures Left(log, Idle, m) == 0
  {
  }

  lemma OneMore(n: nat, k: nat)
    ensures n * (k + 1) == n * k + n
    ensures 2 * n * (k + 1) == 2 * n * k + 2 * n
  {
  }

  lemma QuietPaced(l: Limit, z0: real, s: State, i: nat, spurious: bool, taken: nat)
    requires Inv(l, z0, s) && Paced(s, taken) && i < |s.threads| && s.threads[i].Busy()
    requires Step(l, s, i, spurious).log == s.log
    ensures Paced(Step(l, s, i, spurious), taken + 1)
  {
    hide Inv, Total, Left, Step, Commits, ReturnCount;
    var s' := Step(l, s, i, spurious);
    StepGrows(l, s, i, spurious);
    OwnStep(l, z0, s, i, spurious);
    assert s'.threads == s.threads[i := s'.threads[i]];
    TotalAfterUpdate(s.log, s.threads, i, s'.threads[i], OfSteps);
    TotalAfterUpdate(s.log, s.threads, i, s'.threads[i], OfCommits);
  }

  lemma CommitPaced(l: Limit, z0: real, s: State, i: nat, spurious: bool, taken: nat)
    requires Inv(l, z0, s) && Paced(s, taken) && i < |s.threads| && s.threads[i].Busy()
    requires Step(l, s, i, spurious).log != s.log
    ensures Paced(Step(l, s, i, spurious), taken + 1)
  {
    hide Inv, Total, Left, Step, Commits, ReturnCount;
    var s' := Step(l, s, i, spurious);
    StepGrows(l, s, i, spurious);
    OwnStep(l, z0, s, i, spurious);
    var e, t := s'.log[|s.log|], s'.threads[i];
    assert s'.threads == s.threads[i := t] && s'.log == s.log + [e];
    CountReturn(s.log, e);
    TotalAfterStep(s.log, e, s.threads, i, t, OfSteps);
    TotalAfterStep(s.log, e, s.threads, i, t, OfCommits);
    OneMore(|s.threads|, ReturnCount(s.log));
  }

  lemma NextPaced(l: Limit, z0: real, s: State, a: Action, taken: nat)
    requires Inv(l, z0, s) && Paced(s, taken) && Enabled(s, a)
    ensures Paced(Next(l, s, a), taken + 1)
  {
    hide Inv, Paced, Step;
    if a.Begin? {
      BeginPaced(l, s, a, taken);
    } else if Step(l, s, a.thread, a.spurious).log == s.log {
      QuietPaced(l, z0, s, a.thread, a.spurious, taken);
    } else {
      CommitPaced(l, z0, s, a.thread, a.spurious, taken);
    }
  }

  lemma {:induction false} RunPaced(l: Limit, z0: real, s: State, actions: seq<Action>, taken: nat)
    requires Inv(l, z0, s) && Paced(s, taken) && Runs(l, s, actions)
    ensures Paced(Run(l, s, actions), taken + |actions|)
    decreases |actions|
  {
    hide Inv, Paced, Next;
    if actions != [] {
      NextKeeps(l, z0, s, actions[0]);
      NextPaced(l, z0, s, actions[0], taken);
      RunPaced(l, z0, Next(l, s, actions[0]), actions[1..], taken + 1);
    }
  }

  lemma InitialPaced(z0: real, n: nat)
    ensures Paced(Initial(z0, n), 0)
  {
    NothingLeft([], Initial(z0, n).threads, OfSteps);
    NothingLeft([], Initial(z0, n).threads, OfCommits);
  }

  lemma ReachedPaced(l: Limit, z0: real, n: nat, actions: seq<Action>, s: State)
    requires Reached(l, z0, n, actions, s)
    ensures var calls, returned := Begins(actions), ReturnCount(s.log);
            var failures := Contended(l, Initial(z0, n), actions);
            && |actions| <= 8 * calls + failures + SpuriousSteps(actions) + 2 * n * returned
            && |s.log| <= 2 * calls + n * returned
            && failures <= (n - 1) * |s.log|
  {
    hide Inv, Next, Total, Budgeted, ReturnCount, Contended, FailedSpuriously, SpuriousSteps, Begins, Runs, Run;
    InitialInv(l, z0, n);
    InitialPaced(z0, n);
    InitialBudgeted(z0, n);
    RunBudgeted(l, z0, Initial(z0, n), actions);
    RunPaced(l, z0, Initial(z0, n), actions, 0);
    AmortisedLockFreedom(l, z0, n, actions, s);
    RunCounts(l, Initial(z0, n), actions);
  }

  lemma WorkAddsUp(n: nat, steps: nat, commits: nat, calls: nat, failures: nat, spurious: nat, returned: nat)
    requires n > 0 && commits <= 2 * calls + n * returned && failures <= (n - 1) * commits
    requires steps <= 8 * calls + failures + spurious + 2 * n * returned
    ensures steps <= (2 * n + 6) * calls + spurious + (n * n + n) * returned
  {
    Scale(n - 1, commits, 2 * calls + n * returned);
    Regroup(n - 1, calls, returned);
  }

  lemma {:induction false} Scale(k: nat, a: nat, b: nat)
    requires a <= b
    ensures k * a <= k * b
  {
    if k > 0 {
      Scale(k - 1, a, b);
    }
  }

  lemma Regroup(m: nat, calls: nat, returned: nat)
    ensures (2 * (m + 1) + 6) * calls == 8 * calls + m * (2 * calls)
    ensures m * (2 * calls + (m + 1) * returned) == m * (2 * calls) + m * ((m + 1) * returned)
    ensures ((m + 1) * (m + 1) + (m + 1)) * returned == m * ((m + 1) * returned) + 2 * (m + 1) * returned
  {
  }

  lemma ReachedRuns(l: Limit, z0: real, n: nat, actions: seq<Action>, s: State)
    requires Reached(l, z0, n, actions, s)
    ensures Runs(l, Initial(z0, n), actions)
  {
  }

  /**
   * Termination. In every interleaving of `n` threads the commits and the steps of the whole run are bounded by
   * the number of calls, of returns and of steps that may fail spuriously. Without returns that is two commits
   * and `2n + 6` steps for each call.
   */
  lemma BoundedWork(l: Limit, z0: real, n: nat, actions: seq<Action>, s: State)
    requires n > 0 && Reached(l, z0, n, actions, s)
    ensures |s.log| <= 2 * Begins(actions) + n * ReturnCount(s.log)
    ensures |actions| <=
            (2 * n + 6) * Begins(actions) + SpuriousSteps(actions) + (n * n + n) * ReturnCount(s.log)
  {
    hide *;
    ReachedPaced(l, z0, n, actions, s);
    var calls, returned := Begins(actions), ReturnCount(s.log);
    assert Runs(l, Initial(z0, n), actions) by { ReachedRuns(l, z0, n, actions, s); }
    var failures := Contended(l, Initial(z0, n), actions);
    WorkAddsUp(n, |actions|, |s.log|, calls, failures, SpuriousSteps(actions), returned);
  }

  // ----- A thread that runs alone -----

  /** Only thread `i` takes steps, and none of its compare-and-swaps fails spuriously. */
  ghost predicate Alone(actions: seq<Action>, i: nat) {
    forall k | 0 <= k < |actions| :: actions[k] == Advance(i, false)
  }

  /** Between `s` and `s'` only thread `i` has committed, and the other threads are as they were. */
  ghost predicate Solo(s: State, s': State, i: nat)
    requires i < |s.threads| && !s.threads[i].Idle?
  {
    && |s'.threads| == |s.threads| && s'.calls == s.calls
    && (forall j | 0 <= j < |s.threads| && j != i :: s'.threads[j] == s.threads[j])
    && |s.log| <= |s'.log| && s.log == s'.log[..|s.log|]
    && forall k | |s.log| <= k < |s'.log| :: s'.log[k].call == s.threads[i].call.id
  }

  lemma OneSoloStep(l: Limit, s: State, i: nat, s': State)
    requires i < |s.threads| && s.threads[i].Busy()
    requires i < |Step(l, s, i, false).threads| && !Step(l, s, i, false).threads[i].Idle?
    requires Solo(Step(l, s, i, false), s', i)
    ensures Solo(s, s', i)
  {
    hide Step;
    AdvanceGrows(l, s, i, false);
    var s1 := Step(l, s, i, false);
    forall k | |s.log| <= k < |s'.log| ensures s'.log[k].call == s.threads[i].call.id {
      if k < |s1.log| {
        assert s'.log[k] == s1.log[k];
      }
    }
  }

  /**
   * Obstruction freedom: a thread in the middle of a call that from now on runs alone finishes the call, after at
   * most one failed compare-and-swap.
   */
  lemma {:induction false} FinishesAlone(l: Limit, z0: real, s: State, i: nat) returns (actions: seq<Action>)
    requires Inv(l, z0, s) && i < |s.threads| && s.threads[i].Busy()
    ensures Alone(actions, i) && Runs(l, s, actions)
    ensures |actions| <= Left(s.log, s.threads[i], OfSteps) + if HoldsStale(s.threads[i], |s.log|) then 1 else 0
    ensures var s' := Run(l, s, actions);
            && Inv(l, z0, s') && Solo(s, s', i)
            && s'.threads[i].Finished? && s'.threads[i].call == s.threads[i].call
            && s'.threads[i].done == |s'.log|
    decreases Left(s.log, s.threads[i], OfSteps) + if HoldsStale(s.threads[i], |s.log|) then 1 else 0
  {
    hide Inv, Left, HoldsStale, Step;
    var s1 := Step(l, s, i, false);
    OwnStep(l, z0, s, i, false);
    OwnFailure(l, z0, s, i, false);
    NoSpuriousFailure(l, s, i);
    StepEnds(l, s, i, false);
    AdvanceGrows(l, s, i, false);
    StepKeeps(l, z0, s, i, false);
    assert Next(l, s, Advance(i, false)) == s1;
    var rest: seq<Action> := [];
    if s1.threads[i].Busy() {
      rest := FinishesAlone(l, z0, s1, i);
    }
    actions := [Advance(i, false)] + rest;
    assert actions[1..] == rest;
    OneSoloStep(l, s, i, Run(l, s1, rest));
  }

  lemma NoSpuriousFailure(l: Limit, s: State, i: nat)
    requires i < |s.threads| && s.threads[i].Busy()
    ensures Step(l, s, i, false).spurious == s.spurious
  {
    hide Balance, Commit, Ask;
  }
}
