/** Theorems about every interleaving of the lock-free bucket, with tokens given back at any time. */
module Borrowing {
  import opened Limits
  import opened ZeroTime
  import opened History
  import opened LockFree
  import opened Spans

  lemma FinishedFacts(l: Limit, z0: real, s: State, i: nat)
    requires Inv(l, z0, s) && i < |s.threads| && s.threads[i].Finished?
    ensures var t := s.threads[i];
            && t.call.id < s.calls && t.call.begun <= t.done <= |s.log| && Within(s.log, t.call, t.done)
            && (t.reply.Paid? ==> OnlyTakes(s.log, t.call.id) && 0 < t.done && s.log[t.done - 1].call == t.call.id)
            && (t.reply.Owed? ==> OwnBorrow(s.log, t.call, t.reply.posted) && t.reply.posted < t.done)
            && (t.reply.Owed? ==> t.reply.nap == Max(ZeroTimeAfter(l, z0, s.log[..t.done]) - t.call.now, 0.0))
  {
    hide ZeroTimeAfter, Admissible, FewCommits, Pieces, Balance;
    assert Consistent(l, z0, s.log, s.calls, s.threads[i]);
  }

  /** The read that led a finished call to borrow: it lies within the call and found the bucket empty. */
  lemma FoundEmpty(l: Limit, z0: real, s: State, i: nat)
    requires Inv(l, z0, s) && i < |s.threads| && s.threads[i].Finished? && s.threads[i].reply.Owed?
    ensures var t := s.threads[i];
            && t.reply.posted < t.done <= |s.log|
            && t.call.begun <= s.log[t.reply.posted].read <= t.reply.posted
            && t.call.now <= ZeroTimeAfter(l, z0, s.log[..s.log[t.reply.posted].read])
  {
    hide ZeroTimeAfter, Balance;
    FinishedFacts(l, z0, s, i);
    assert AdmissibleAt(l, z0, s.log, s.threads[i].reply.posted);
  }

  /** The zero time left by the commit at position `k`. */
  function LeftBy(l: Limit, z0: real, log: seq<Event>, k: nat): real
    requires k < |log|
  {
    ZeroTimeAfter(l, z0, log[..k + 1])
  }

  // ----- Borrowing calls -----

  /**
   * While a borrow is pending, what the bucket holds at the caller's clock reading is at most what was given
   * back since the failed read, which lies within the call; in particular it is empty if nothing was. Rounds
   * of the outer loop beyond two need returns during the call.
   */
  lemma BorrowsFromEmptyBucket(l: Limit, z0: real, n: nat, actions: seq<Action>, s: State, i: nat)
    requires Reached(l, z0, n, actions, s) && i < |s.threads|
    ensures var t := s.threads[i];
            && ((t.Owing? || t.Posting?) && t.call.request.Borrows() ==>
                  && t.call.begun <= t.found <= |s.log|
                  && Balance(l, s.cell, t.call.now) <= Returned(s.log[t.found..]))
            && (t.Starting? || t.Trying? || t.Owing? || t.Posting? ==>
                  t.call.begun <= |s.log| && t.round <= 2 + ReturnCount(s.log[t.call.begun..]))
  {
    hide ZeroTimeAfter, Balance, ReturnCount, Returned, Debited, Seconds, Earned, Admissible, Pieces;
    ReachedInv(l, z0, n, actions, s);
    var t := s.threads[i];
    assert Consistent(l, z0, s.log, s.calls, t);
    if (t.Owing? || t.Posting?) && t.call.request.Borrows() {
      FallsOnlyByReturns(l, z0, s.log, t.found);
      HoldsAtMost(l, s.cell, t.call.now, Debited(s.log[t.found..]), Returned(s.log[t.found..]));
    }
    if t.Busy() {
      ReturnsBetween(s.log, t.call.begun);
      if t.Starting? || t.Trying? {
        LaterReturns(s.log, t.since);
      }
    }
  }

  lemma HoldsAtMost(l: Limit, z: real, now: real, debited: real, returned: real)
    requires 0.0 <= debited && now + Seconds(l, debited - returned) <= z
    ensures Balance(l, z, now) <= returned
  {
    hide Seconds, Earned, Balance;
    BalanceInSeconds(l, z, now);
    SecondsOrder(l, returned, Balance(l, z, now));
    SecondsAdd(l, debited, returned);
    SecondsOrder(l, debited, 0.0);
    SecondsAdd(l, 0.0, 0.0);
  }

  /** Whatever the others do, a finished borrowing call has committed exactly what it asked for. */
  lemma PiecesSumToRequest(l: Limit, z0: real, n: nat, actions: seq<Action>, s: State, i: nat)
    requires Reached(l, z0, n, actions, s) && i < |s.threads|
    requires s.threads[i].Finished? && s.threads[i].call.request.Borrows()
    ensures var c, reply := s.threads[i].call, s.threads[i].reply;
            && (reply.ExceededBurst? <==> c.request.ConsumeWithBorrow? && l.burst < c.request.n)
            && Pieces(s.log, c.id) ==
               if reply.ExceededBurst? then 0.0
               else if c.request.SaturatingConsumeWithBorrow? then Min(c.request.n, l.burst) else c.request.n
  {
    ReachedInv(l, z0, n, actions, s);
    FinishedPieces(l, z0, s, i);
  }

  lemma FinishedPieces(l: Limit, z0: real, s: State, i: nat)
    requires Inv(l, z0, s) && i < |s.threads|
    requires s.threads[i].Finished? && s.threads[i].call.request.Borrows()
    ensures var c, reply := s.threads[i].call, s.threads[i].reply;
            && (reply.ExceededBurst? <==> c.request.ConsumeWithBorrow? && l.burst < c.request.n)
            && (reply.ExceededBurst? || reply.Paid? || reply.Owed?)
            && Pieces(s.log, c.id) == if reply.ExceededBurst? then 0.0 else Asked(l, c.request)
  {
    hide ZeroTimeAfter, Balance, Pieces, Admissible, FewCommits, Within;
    assert Consistent(l, z0, s.log, s.calls, s.threads[i]);
  }

  /** In every run no call makes more commits than two and one for each return made during the call. */
  lemma FewCommitsPerCall(l: Limit, z0: real, n: nat, actions: seq<Action>, s: State, i: nat)
    requires Reached(l, z0, n, actions, s) && i < |s.threads| && !s.threads[i].Idle?
    ensures var c, end := s.threads[i].call, Horizon(s.log, s.threads[i]);
            && c.begun <= end <= |s.log|
            && CommitCount(s.log, c.id) <= 2 + ReturnCount(s.log[c.begun..end])
  {
    hide ZeroTimeAfter, Balance, Pieces, Admissible, CommitCount, ReturnCount, Position;
    ReachedInv(l, z0, n, actions, s);
    var c, end := s.threads[i].call, Horizon(s.log, s.threads[i]);
    assert Consistent(l, z0, s.log, s.calls, s.threads[i]);
    ReturnsBetween(s.log[..end], c.begun);
    assert s.log[..end][..c.begun] == s.log[..c.begun] && s.log[..end][c.begun..] == s.log[c.begun..end];
  }

  /**
   * Sound waits. The wait a borrowing call returns reaches the zero time left by each of its own commits,
   * except for the time worth of tokens given back between that commit and the end of the call. A call that
   * did not borrow need not wait at all.
   */
  lemma WaitsCoverOwnCommits(l: Limit, z0: real, n: nat, actions: seq<Action>, s: State, i: nat, k: nat)
    requires Reached(l, z0, n, actions, s) && i < |s.threads| && k < |s.log|
    requires s.threads[i].Finished? && s.log[k].call == s.threads[i].call.id
    ensures Spanned(l, z0, n, actions, s, i)
    ensures s.threads[i].call.begun <= k < s.threads[i].done <= |s.log|
    ensures s.threads[i].reply.Paid? ==> LeftBy(l, z0, s.log, k) <= s.threads[i].call.now
    ensures s.threads[i].reply.Owed? ==>
              LeftBy(l, z0, s.log, k) <=
              s.threads[i].call.now + s.threads[i].reply.nap + Seconds(l, Returned(s.log[k + 1..s.threads[i].done]))
  {
    hide Spanned, Seconds, Earned, Balance, ZeroTimeAfter, Debited, Returned, Consistent, DistinctCalls, Reached;
    ReachedInv(l, z0, n, actions, s);
    SpanOfCall(l, z0, n, actions, s, i);
    FinishedFacts(l, z0, s, i);
    var t := s.threads[i];
    if t.reply.Paid? {
      TakeEndsBefore(l, z0, s.log, k);
    }
    if t.reply.Owed? {
      FallsBetween(l, z0, s.log, k + 1, t.done);
    }
  }

  /** Between two moments the zero time falls by no more than the time worth of what is given back. */
  lemma FallsBetween(l: Limit, z0: real, log: seq<Event>, i: nat, j: nat)
    requires i <= j <= |log|
    ensures ZeroTimeAfter(l, z0, log[..i]) <= ZeroTimeAfter(l, z0, log[..j]) + Seconds(l, Returned(log[i..j]))
    ensures OnlyDebits(log[i..j]) ==> ZeroTimeAfter(l, z0, log[..i]) <= ZeroTimeAfter(l, z0, log[..j])
  {
    hide Seconds, Earned, ZeroTimeAfter, Debited, Returned;
    var upTo := log[..j];
    assert upTo[..i] == log[..i] && upTo[i..] == log[i..j];
    FallsOnlyByReturns(l, z0, upTo, i);
    SecondsAdd(l, Debited(log[i..j]), Returned(log[i..j]));
    SecondsOrder(l, Debited(log[i..j]), 0.0);
    SecondsAdd(l, 0.0, 0.0);
    if OnlyDebits(log[i..j]) {
      NothingReturned(log[i..j]);
    }
  }

  lemma OnlyDebitsWithin(log: seq<Event>, from: nat, i: nat, to: nat)
    requires from <= i <= to <= |log| && OnlyDebits(log[from..to])
    ensures OnlyDebits(log[i..to])
  {
    assert log[from..to][i - from..] == log[i..to];
  }

  /**
   * When nothing is given back during the call the wait is not cut short: a call that borrowed returns a
   * positive wait, and `now` plus the wait is not before the zero time left by any of the call's own commits.
   */
  lemma SoundWaits(l: Limit, z0: real, n: nat, actions: seq<Action>, s: State, i: nat)
    requires Reached(l, z0, n, actions, s) && i < |s.threads|
    requires s.threads[i].Finished? && s.threads[i].reply.Owed?
    requires s.threads[i].call.begun <= s.threads[i].done <= |s.log|
    requires OnlyDebits(s.log[s.threads[i].call.begun..s.threads[i].done])
    ensures Spanned(l, z0, n, actions, s, i)
    ensures s.threads[i].reply.nap > 0.0
    ensures forall k | 0 <= k < |s.log| && s.log[k].call == s.threads[i].call.id ::
              LeftBy(l, z0, s.log, k) <= s.threads[i].call.now + s.threads[i].reply.nap
  {
    hide Spanned, Seconds, Earned, ZeroTimeAfter, Debited, Returned, Inv, Reached;
    ReachedInv(l, z0, n, actions, s);
    SpanOfCall(l, z0, n, actions, s, i);
    FoundEmpty(l, z0, s, i);
    FinishedFacts(l, z0, s, i);
    var t := s.threads[i];
    var p, found := t.reply.posted, s.log[t.reply.posted].read;
    OnlyDebitsWithin(s.log, t.call.begun, found, t.done);
    NothingReturned(s.log[found..t.done]);
    BorrowReportsDebt(l, z0, n, actions, s, i);
    forall k | 0 <= k < |s.log| && s.log[k].call == t.call.id
      ensures LeftBy(l, z0, s.log, k) <= t.call.now + t.reply.nap
    {
      assert t.call.begun <= k < t.done;
      OnlyDebitsWithin(s.log, t.call.begun, k + 1, t.done);
      FallsBetween(l, z0, s.log, k + 1, t.done);
    }
  }

  /**
   * What returns must do to hide a debt. In every run a call that borrowed reports a wait unless, between the
   * read that found the bucket empty and the end of the call, at least as much was given back as it borrowed.
   */
  lemma BorrowReportsDebt(l: Limit, z0: real, n: nat, actions: seq<Action>, s: State, i: nat)
    requires Reached(l, z0, n, actions, s) && i < |s.threads|
    requires s.threads[i].Finished? && s.threads[i].reply.Owed?
    ensures Spanned(l, z0, n, actions, s, i)
    ensures var t := s.threads[i];
            && t.reply.posted < t.done <= |s.log|
            && var borrow := s.log[t.reply.posted];
               && t.call.begun <= borrow.read <= t.reply.posted
               && (Returned(s.log[borrow.read..t.done]) < borrow.amount ==> t.reply.nap > 0.0)
  {
    hide Spanned, ZeroTimeAfter, Debited, Returned, Inv, Reached;
    ReachedInv(l, z0, n, actions, s);
    SpanOfCall(l, z0, n, actions, s, i);
    DebtReported(l, z0, s, i);
  }

  lemma DebtReported(l: Limit, z0: real, s: State, i: nat)
    requires Inv(l, z0, s) && i < |s.threads|
    requires s.threads[i].Finished? && s.threads[i].reply.Owed?
    ensures var t := s.threads[i];
            && t.reply.posted < t.done <= |s.log|
            && var borrow := s.log[t.reply.posted];
               && t.call.begun <= borrow.read <= t.reply.posted
               && (Returned(s.log[borrow.read..t.done]) < borrow.amount ==> t.reply.nap > 0.0)
  {
    hide Seconds, Earned, ZeroTimeAfter, Debited, Returned, Inv;
    FoundEmpty(l, z0, s, i);
    FinishedFacts(l, z0, s, i);
    var t := s.threads[i];
    var p, found := t.reply.posted, s.log[t.reply.posted].read;
    var upTo := s.log[..t.done];
    assert upTo[..found] == s.log[..found] && upTo[found..] == s.log[found..t.done];
    FallsOnlyByReturns(l, z0, upTo, found);
    DebitsInclude(s.log[found..t.done], p - found);
    SecondsOrder(l, 0.0, Debited(s.log[found..t.done]) - Returned(s.log[found..t.done]));
    SecondsAdd(l, 0.0, 0.0);
  }

  /** Replaying the rest of a history from where its beginning ends. */
  lemma {:induction false} ReplayFrom(l: Limit, z0: real, log: seq<Event>, i: nat)
    requires i <= |log|
    ensures ZeroTimeAfter(l, ZeroTimeAfter(l, z0, log[..i]), log[i..]) == ZeroTimeAfter(l, z0, log)
    decreases |log|
  {
    hide Commit;
    if i == |log| {
      assert log[..i] == log;
    } else {
      var init := log[..|log| - 1];
      ReplayFrom(l, z0, init, i);
      assert init[..i] == log[..i] && log[i..][..|log[i..]| - 1] == init[i..];
    }
  }

  /**
   * The exact ledger. A call that borrowed reports a wait exactly when what was given back, from the read that
   * found the bucket empty to the end of the call, is less than the debt found by that read, what all callers
   * debited since, and what the cap spilled since.
   */
  lemma ReportsDebtIff(l: Limit, z0: real, n: nat, actions: seq<Action>, s: State, i: nat)
    requires Reached(l, z0, n, actions, s) && i < |s.threads|
    requires s.threads[i].Finished? && s.threads[i].reply.Owed?
    ensures Spanned(l, z0, n, actions, s, i)
    ensures var t := s.threads[i];
            && t.reply.posted < t.done <= |s.log|
            && var found := s.log[t.reply.posted].read;
               && t.call.begun <= found <= t.reply.posted
               && var zf, since := ZeroTimeAfter(l, z0, s.log[..found]), s.log[found..t.done];
                  && 0.0 <= 0.0 - Balance(l, zf, t.call.now)
                  && (t.reply.nap > 0.0 <==>
                        Returned(since) < 0.0 - Balance(l, zf, t.call.now) + Debited(since) + Spilled(l, zf, since))
  {
    hide Spanned, Seconds, Earned, ZeroTimeAfter, Debited, Returned, Spilled, Inv, Reached, Balance;
    ReachedInv(l, z0, n, actions, s);
    SpanOfCall(l, z0, n, actions, s, i);
    FoundEmpty(l, z0, s, i);
    FinishedFacts(l, z0, s, i);
    var t := s.threads[i];
    var found := s.log[t.reply.posted].read;
    var zf, since, upTo := ZeroTimeAfter(l, z0, s.log[..found]), s.log[found..t.done], s.log[..t.done];
    assert upTo[..found] == s.log[..found] && upTo[found..] == since;
    ReplayFrom(l, z0, upTo, found);
    Conservation(l, zf, since);
    EarnedAdd(l, ZeroTimeAfter(l, z0, upTo) - zf, zf - t.call.now);
    DebtInTokens(l, zf, t.call.now);
    EarnedSign(l, ZeroTimeAfter(l, z0, upTo) - t.call.now);
  }

  lemma DebtInTokens(l: Limit, z: real, now: real)
    requires now <= z
    ensures Balance(l, z, now) == 0.0 - Earned(l, z - now) <= 0.0
  {
    EmptyIff(l, z, now);
    assert Earned(l, now - z) == 0.0 - Earned(l, z - now);
  }

  lemma EarnedSign(l: Limit, t: real)
    ensures t > 0.0 <==> Earned(l, t) > 0.0
  {
  }

  // ----- What is committed, in every run -----

  /**
   * The window bound over every run: tokens committed from debit `j` to commit `k`. What was given back
   * meanwhile counts; for a window that starts with a borrow, from that borrow's failed read within its call.
   */
  lemma ConcurrentWindowBound(l: Limit, z0: real, n: nat, actions: seq<Action>, s: State, j: nat, k: nat)
    requires Reached(l, z0, n, actions, s) && j <= k < |s.log| && !s.log[j].kind.Return?
    ensures var from := CountedFrom(s.log, j);
            && s.log[j].begun <= from <= j
            && var given := Returned(s.log[from..k + 1]);
               && Debited(s.log[j..k + 1]) <= l.burst + Earned(l, LeftBy(l, z0, s.log, k) - s.log[j].now) + given
               && (s.log[k].kind.Take? ==>
                     Debited(s.log[j..k + 1]) <= l.burst + Earned(l, s.log[k].now - s.log[j].now) + given)
  {
    hide Seconds, Earned, Commit, Balance, Consistent, ZeroTimeAfter, Debited, Returned, Reached, DistinctCalls;
    ReachedInv(l, z0, n, actions, s);
    var log := s.log[..k + 1];
    assert AdmissibleAt(l, z0, s.log, j);
    var from := CountedFrom(s.log, j);
    assert log[j..] == s.log[j..k + 1] && log[from..] == s.log[from..k + 1];
    InitAdmissible(l, z0, s.log, k + 1);
    WindowBound(l, z0, log, j);
  }

  /**
   * No wait is longer than needed, in every run: until the wait of a call that borrowed is over, what had been
   * committed when the call ended overdraws the initial state or some window, and from then on it does not.
   */
  lemma ShortestWaits(l: Limit, z0: real, n: nat, actions: seq<Action>, s: State, i: nat)
    requires Reached(l, z0, n, actions, s) && i < |s.threads|
    requires s.threads[i].Finished? && s.threads[i].reply.Owed?
    ensures Spanned(l, z0, n, actions, s, i)
    ensures s.threads[i].done <= |s.log|
    ensures forall t: real | s.threads[i].call.now <= t ::
              t < s.threads[i].call.now + s.threads[i].reply.nap <==>
              Overdraws(l, z0, s.log[..s.threads[i].done], t, 0.0)
  {
    hide Spanned, Inv, Reached, ZeroTimeAfter, Overdraws, Seconds;
    ReachedInv(l, z0, n, actions, s);
    SpanOfCall(l, z0, n, actions, s, i);
    FinishedFacts(l, z0, s, i);
    SecondsAdd(l, 0.0, 0.0);
    forall t: real | s.threads[i].call.now <= t
      ensures t < s.threads[i].call.now + s.threads[i].reply.nap <==>
              Overdraws(l, z0, s.log[..s.threads[i].done], t, 0.0)
    {
      PastIffOverdraws(l, z0, s.log[..s.threads[i].done], t, 0.0);
    }
  }

  /** The position in the history at which a `consume` is decided: its commit, or the read that refused it. */
  function DecidedAt(reply: Reply): nat
    requires reply.Granted? || reply.Refused? || reply.RateLimited?
  {
    if reply.Granted? then reply.posted else reply.at
  }

  /**
   * No over-throttling and no over-granting, in every run: a `consume` or `try_consume` of at most the burst is
   * decided at a moment within the call, and it is refused exactly when granting it at that moment would
   * overdraw the initial state or some window of what had been committed.
   */
  lemma DecidedByWindows(l: Limit, z0: real, n: nat, actions: seq<Action>, s: State, i: nat)
    requires Reached(l, z0, n, actions, s) && i < |s.threads|
    requires s.threads[i].Finished? && s.threads[i].call.request.Whole()
    requires s.threads[i].call.request.n <= l.burst
    ensures Spanned(l, z0, n, actions, s, i)
    ensures var t := s.threads[i];
            && (t.reply.Granted? || t.reply.Refused? || t.reply.RateLimited?)
            && t.call.begun <= DecidedAt(t.reply) <= t.done <= |s.log|
            && (!t.reply.Granted? <==>
                  Overdraws(l, z0, s.log[..DecidedAt(t.reply)], t.call.now, t.call.request.n))
  {
    hide Spanned, Seconds, Earned, Balance, ZeroTimeAfter, Debited, Overdraws, Commit, Pieces, Admissible;
    hide DistinctCalls;
    ReachedInv(l, z0, n, actions, s);
    SpanOfCall(l, z0, n, actions, s, i);
    var t := s.threads[i];
    assert Consistent(l, z0, s.log, s.calls, t);
    RefusedIffOverdraws(l, z0, s.log[..DecidedAt(t.reply)], t.call.now, t.call.request.n);
  }

  /**
   * A `saturating_consume` gets as much as the windows allow, in every run: up to its request and the burst, an
   * amount would overdraw the initial state or some window exactly when it exceeds what the call was granted.
   */
  lemma GrantsAllTheWindowsAllow(l: Limit, z0: real, n: nat, actions: seq<Action>, s: State, i: nat, m: Positive)
    requires Reached(l, z0, n, actions, s) && i < |s.threads|
    requires s.threads[i].Finished? && s.threads[i].call.request.SaturatingConsume?
    requires m <= s.threads[i].call.request.n && m <= l.burst
    ensures Spanned(l, z0, n, actions, s, i)
    ensures var t := s.threads[i];
            && (t.reply.Granted? || t.reply.Refused?)
            && t.call.begun <= DecidedAt(t.reply) <= t.done <= |s.log|
            && (Overdraws(l, z0, s.log[..DecidedAt(t.reply)], t.call.now, m) <==>
                  m > if t.reply.Granted? then t.reply.amount else 0.0)
  {
    hide Spanned, Seconds, Earned, Balance, ZeroTimeAfter, Debited, Overdraws, Commit, Pieces, Admissible;
    hide DistinctCalls;
    ReachedInv(l, z0, n, actions, s);
    SpanOfCall(l, z0, n, actions, s, i);
    var t := s.threads[i];
    assert Consistent(l, z0, s.log, s.calls, t);
    RefusedIffOverdraws(l, z0, s.log[..DecidedAt(t.reply)], t.call.now, m);
  }

  /** The conservation ledger of every run: what the zero time moved pays for what was committed. */
  lemma RunConserves(l: Limit, z0: real, n: nat, actions: seq<Action>, s: State)
    requires Reached(l, z0, n, actions, s)
    ensures Earned(l, s.cell - z0) == Debited(s.log) - Returned(s.log) + Spilled(l, z0, s.log)
    ensures Spilled(l, z0, s.log) >= 0.0
  {
    hide Earned, ZeroTimeAfter, Debited, Returned, Spilled;
    ReachedInv(l, z0, n, actions, s);
    Conservation(l, z0, s.log);
  }
}
