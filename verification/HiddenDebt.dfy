/** One borrow and one return side by side: exactly when the borrower is not told of its debt. */
module HiddenDebt {
  import opened Limits
  import opened ZeroTime
  import opened History
  import opened LockFree
  import opened Spans
  import opened Borrowing

  /** What the two threads do: one borrows `n` tokens at clock reading `now`, the other gives back `m`. */
  datatype Pair = Pair(n: Positive, now: real, m: Positive)

  /** Thread 0 may still borrow if `borrow`, thread 1 may still give back if `giveBack`; each does so at most once. */
  ghost predicate Duet(p: Pair, actions: seq<Action>, borrow: bool, giveBack: bool)
    decreases |actions|
  {
    actions == [] ||
    match actions[0]
    case Advance(_, _) => Duet(p, actions[1..], borrow, giveBack)
    case Begin(i, r, now) =>
      if i == 0 then borrow && r == ConsumeWithBorrow(p.n) && now == p.now && Duet(p, actions[1..], false, giveBack)
      else i == 1 && giveBack && r == AddTokens(p.m) && Duet(p, actions[1..], borrow, false)
  }

  /** An interleaving of the two calls in which the borrower borrows and reports that there is nothing to wait for. */
  ghost predicate Hides(l: Limit, z: real, p: Pair, actions: seq<Action>, s: State) {
    && Reached(l, z, 2, actions, s) && Duet(p, actions, true, true)
    && |s.threads| == 2 && s.threads[0].Finished? && s.threads[0].reply.Owed? && s.threads[0].reply.nap == 0.0
  }

  // ----- No other interleaving hides the debt -----

  /** Every commit was made by one of the two calls. */
  ghost predicate TwoCalls(p: Pair, s: State) {
    && |s.threads| == 2
    && (s.threads[0].Idle? || (s.threads[0].call.request == ConsumeWithBorrow(p.n) && s.threads[0].call.now == p.now))
    && (s.threads[1].Idle? || s.threads[1].call.request == AddTokens(p.m))
    && forall k | 0 <= k < |s.log| :: ByOneOf(p, s, s.log[k])
  }

  ghost predicate ByOneOf(p: Pair, s: State, e: Event)
    requires |s.threads| == 2
  {
    if e.kind.Return? then !s.threads[1].Idle? && e.call == s.threads[1].call.id
    else !s.threads[0].Idle? && e.call == s.threads[0].call.id && e.now == p.now
  }

  lemma NextTwoCalls(l: Limit, z: real, p: Pair, s: State, a: Action)
    requires Inv(l, z, s) && TwoCalls(p, s) && Enabled(s, a)
    requires a.Begin? ==> s.threads[a.thread].Idle?
    requires a.Begin? && a.thread == 0 ==> a.request == ConsumeWithBorrow(p.n) && a.now == p.now
    requires a.Begin? && a.thread == 1 ==> a.request == AddTokens(p.m)
    ensures TwoCalls(p, Next(l, s, a))
    ensures forall i | 0 <= i < 2 && i != a.thread :: Next(l, s, a).threads[i] == s.threads[i]
  {
    hide Next, ZeroTimeAfter, Pieces, Admissible, Within, FewCommits, Balance, Rounds;
    var s' := Next(l, s, a);
    if a.Begin? {
      BeginGrows(l, s, a.thread, a.request, a.now);
    } else {
      AdvanceGrows(l, s, a.thread, a.spurious);
      assert Consistent(l, z, s.log, s.calls, s.threads[a.thread]);
    }
    forall k | 0 <= k < |s'.log| ensures ByOneOf(p, s', s'.log[k]) {
      if k < |s.log| {
        assert s'.log[k] == s.log[k] && ByOneOf(p, s, s.log[k]);
      }
    }
  }

  lemma {:induction false} RunTwoCalls(l: Limit, z: real, p: Pair, s: State, actions: seq<Action>, b: bool, g: bool)
    requires Inv(l, z, s) && TwoCalls(p, s) && Runs(l, s, actions) && Duet(p, actions, b, g)
    requires (b ==> s.threads[0].Idle?) && (g ==> s.threads[1].Idle?)
    ensures TwoCalls(p, Run(l, s, actions))
    decreases |actions|
  {
    hide Inv, TwoCalls, Next;
    if actions != [] {
      var a := actions[0];
      ThreadCount(p, s);
      NextKeeps(l, z, s, a);
      NextTwoCalls(l, z, p, s, a);
      var b', g' := b && !(a.Begin? && a.thread == 0), g && !(a.Begin? && a.thread == 1);
      RunTwoCalls(l, z, p, Next(l, s, a), actions[1..], b', g');
    }
  }

  lemma ThreadCount(p: Pair, s: State)
    requires TwoCalls(p, s)
    ensures |s.threads| == 2
  {
  }

  /** What the other has given back. */
  lemma {:induction false} ReturnedByCall(log: seq<Event>, call: nat)
    requires forall k | 0 <= k < |log| && log[k].kind.Return? :: log[k].call == call
    ensures Returned(log) <= Pieces(log, call)
  {
    if log != [] {
      ReturnedByCall(log[..|log| - 1], call);
    }
  }

  lemma SettledBy(log: seq<Event>, call: nat, done: nat)
    requires done <= |log| && forall k | done <= k < |log| :: log[k].call != call
    ensures Pieces(log[..done], call) == Pieces(log, call)
  {
    hide Pieces;
    PiecesSplit(log, call, done);
    NoPieces(log[done..], call);
  }

  /** Debits at one clock reading move the zero time at most as far as if nothing had been given back. */
  lemma {:induction false} AtMostCharged(l: Limit, z: real, log: seq<Event>, now: real)
    requires forall k | 0 <= k < |log| && !log[k].kind.Return? :: log[k].now == now
    ensures ZeroTimeAfter(l, z, log) <= Charged(l, z, now, Debited(log))
  {
    hide Seconds, Earned, Commit, FullAt;
    SecondsAdd(l, 0.0, 0.0);
    if log != [] {
      var init, e := log[..|log| - 1], log[|log| - 1];
      AtMostCharged(l, z, init, now);
      CommitMoves(l, ZeroTimeAfter(l, z, init), e);
      SecondsAdd(l, Debited(init), e.amount);
      DebitedGrows(init, 0, |init|);
      assert init[0..] == init;
      SecondsOrder(l, Debited(init), 0.0);
    }
  }

  /** And at least as far as after giving everything back. */
  lemma AtLeastCharged(l: Limit, z: real, log: seq<Event>, now: real)
    requires Admissible(l, z, log) && Debited(log) > 0.0
    requires forall k | 0 <= k < |log| && !log[k].kind.Return? :: log[k].now == now
    ensures Charged(l, z, now, Debited(log) - Returned(log)) <= ZeroTimeAfter(l, z, log)
  {
    hide Seconds, Earned, ZeroTimeAfter, FullAt, Debited, Returned;
    var j := FirstDebit(log);
    assert AdmissibleAt(l, z, log, j);
    var from := CountedFrom(log, j);
    if log[j].kind.Borrow? {
      BorrowFloor(l, z, log, j);
      FullBefore(l, now);
    } else {
      TakeFloor(l, z, log, j);
    }
    DebitedGrows(log, from, j);
    DebitedGrows(log, 0, from);
    assert log[0..] == log;
    SecondsOrder(l, Debited(log[from..]) - Returned(log[from..]), Debited(log) - Returned(log));
    FallsOnlyByReturns(l, z, log, 0);
    EmptyHistory(l, z, log);
  }

  /** The history up to the end of the borrowing call. */
  lemma BorrowersHistory(l: Limit, z: real, p: Pair, s: State)
    requires Inv(l, z, s) && TwoCalls(p, s) && p.n <= l.burst
    requires s.threads[0].Finished? && s.threads[0].reply.Owed? && s.threads[0].reply.nap == 0.0
    ensures var t := s.threads[0];
            && t.reply.posted < t.done <= |s.log|
            && var log := s.log[..t.done];
               && Admissible(l, z, log)
               && Debited(log) == p.n && Returned(log) <= p.m
               && ZeroTimeAfter(l, z, log) <= p.now
               && (forall k | 0 <= k < |log| && !log[k].kind.Return? :: log[k].now == p.now)
               && log[t.reply.posted].kind.Borrow? && log[t.reply.posted].read <= t.reply.posted
               && p.now <= ZeroTimeAfter(l, z, log[..log[t.reply.posted].read])
  {
    hide ZeroTimeAfter, Balance, Pieces, Debited, Returned, Asked, Commit;
    var t, u := s.threads[0], s.threads[1];
    FoundEmpty(l, z, s, 0);
    FinishedFacts(l, z, s, 0);
    assert Consistent(l, z, s.log, s.calls, t) && Consistent(l, z, s.log, s.calls, u);
    var log := s.log[..t.done];
    InitAdmissible(l, z, s.log, t.done);
    assert forall k | 0 <= k < |s.log| :: ByOneOf(p, s, s.log[k]);
    SettledBy(s.log, t.call.id, t.done);
    SplitByCall(log, t.call.id);
    AskedInFull(l, p);
    DebitSplit(s.log, t.done);
    DebitedGrows(s.log, 0, t.done);
    if u.Idle? {
      NothingReturned(log);
    } else {
      ReturnedByCall(s.log, u.call.id);
    }
    var borrow := s.log[t.reply.posted];
    assert log[..borrow.read] == s.log[..borrow.read];
  }

  lemma AskedInFull(l: Limit, p: Pair)
    ensures Asked(l, ConsumeWithBorrow(p.n)) == p.n && Asked(l, AddTokens(p.m)) == p.m
  {
  }

  /** If the debt stays hidden, the request exceeded the balance, and the return covered the rest. */
  lemma HidingNeedsCover(l: Limit, z: real, p: Pair, actions: seq<Action>, s: State)
    requires Hides(l, z, p, actions, s) && p.n <= l.burst
    ensures 0.0 < p.n - Balance(l, z, p.now) <= p.m
  {
    hide ZeroTimeAfter, Balance, Debited, Returned, Seconds, Earned, Inv, TwoCalls, FullAt;
    ReachedInv(l, z, 2, actions, s);
    InitialInv(l, z, 2);
    assert TwoCalls(p, Initial(z, 2)) by { InitialTwoCalls(z, p); }
    RunTwoCalls(l, z, p, Initial(z, 2), actions, true, true);
    BorrowersHistory(l, z, p, s);
    var t := s.threads[0];
    var log := s.log[..t.done];
    var found := log[t.reply.posted].read;
    BalanceInSeconds(l, z, p.now);
    AtMostCharged(l, z, log[..found], p.now);
    DebitSplit(log, found);
    DebitsInclude(log[found..], t.reply.posted - found);
    SecondsOrder(l, Debited(log[..found]), p.n);
    SecondsOrder(l, Balance(l, z, p.now), p.n);
    SecondsOrder(l, Balance(l, z, p.now), Debited(log[..found]));
    AtLeastCharged(l, z, log, p.now);
    SecondsOrder(l, Balance(l, z, p.now), Debited(log) - Returned(log));
  }

  lemma InitialTwoCalls(z: real, p: Pair)
    ensures TwoCalls(p, Initial(z, 2)) && Initial(z, 2).threads == [Idle, Idle]
  {
  }

  // ----- An interleaving that hides it -----

  ghost predicate Plays(l: Limit, p: Pair, s: State, actions: seq<Action>, s': State, b: bool, g: bool) {
    Runs(l, s, actions) && Run(l, s, actions) == s' && Duet(p, actions, b, g)
  }

  lemma Stop(l: Limit, p: Pair, s: State, b: bool, g: bool)
    ensures Plays(l, p, s, [], s, b, g)
  {
  }

  /** One more step in front. */
  lemma Proceed(l: Limit, p: Pair, s: State, i: nat, rest: seq<Action>, s': State, b: bool, g: bool)
    requires Enabled(s, Advance(i, false)) && Plays(l, p, Next(l, s, Advance(i, false)), rest, s', b, g)
    ensures Plays(l, p, s, [Advance(i, false)] + rest, s', b, g)
  {
    hide Next, Enabled;
    var actions := [Advance(i, false)] + rest;
    assert actions[1..] == rest;
  }

  /** The borrower, with the bucket at `s.cell`, borrows what remains and reads its debt. */
  lemma BorrowAlone(l: Limit, p: Pair, s: State) returns (actions: seq<Action>, s': State)
    requires |s.threads| == 2 && s.threads[0].Owing? && s.threads[0].call.request == ConsumeWithBorrow(p.n)
    ensures Plays(l, p, s, actions, s', false, false) && |s'.threads| == 2
    ensures s'.threads[0].Finished? && s'.threads[0].reply.Owed?
    ensures s'.threads[0].reply.nap ==
            Max(s.cell + Seconds(l, s.threads[0].remaining) - s.threads[0].call.now, 0.0)
  {
    hide Plays, Seconds, Earned, Commit;
    var s1 := Next(l, s, Advance(0, false));
    var s2 := Next(l, s1, Advance(0, false));
    s' := Next(l, s2, Advance(0, false));
    CommitMoves(l, s.cell, PostEvent(s1.threads[0]));
    Stop(l, p, s', false, false);
    Proceed(l, p, s2, 0, [], s', false, false);
    Proceed(l, p, s1, 0, [Advance(0, false)] + [], s', false, false);
    Proceed(l, p, s, 0, [Advance(0, false)] + ([Advance(0, false)] + []), s', false, false);
    actions := [Advance(0, false)] + ([Advance(0, false)] + ([Advance(0, false)] + []));
  }

  /** The other thread gives back its tokens first. */
  lemma GiveBackThenBorrow(l: Limit, p: Pair, s: State) returns (actions: seq<Action>, s': State)
    requires |s.threads| == 2 && s.threads[0].Owing? && s.threads[0].call.request == ConsumeWithBorrow(p.n)
    requires s.threads[1].Idle?
    ensures Plays(l, p, s, actions, s', false, true) && |s'.threads| == 2
    ensures s'.threads[0].Finished? && s'.threads[0].reply.Owed?
    ensures s'.threads[0].reply.nap ==
            Max(s.cell - Seconds(l, p.m) + Seconds(l, s.threads[0].remaining) - s.threads[0].call.now, 0.0)
  {
    hide Plays, Seconds, Earned, Commit;
    var start := Begin(1, AddTokens(p.m), p.now);
    var s1 := Next(l, s, start);
    var s2 := Next(l, s1, Advance(1, false));
    var s3 := Next(l, s2, Advance(1, false));
    CommitMoves(l, s.cell, PostEvent(s2.threads[1]));
    var rest;
    rest, s' := BorrowAlone(l, p, s3);
    Proceed(l, p, s2, 1, rest, s', false, false);
    Proceed(l, p, s1, 1, [Advance(1, false)] + rest, s', false, false);
    rest := [Advance(1, false)] + ([Advance(1, false)] + rest);
    actions := [start] + rest;
    GiveBackFirst(l, p, s, rest, s');
  }

  lemma GiveBackFirst(l: Limit, p: Pair, s: State, rest: seq<Action>, s': State)
    requires Enabled(s, Begin(1, AddTokens(p.m), p.now))
    requires Plays(l, p, Next(l, s, Begin(1, AddTokens(p.m), p.now)), rest, s', false, false)
    ensures Plays(l, p, s, [Begin(1, AddTokens(p.m), p.now)] + rest, s', false, true)
  {
    hide Next, Enabled;
    var actions := [Begin(1, AddTokens(p.m), p.now)] + rest;
    assert actions[1..] == rest;
  }

  lemma BorrowFirst(l: Limit, p: Pair, s: State, rest: seq<Action>, s': State)
    requires Enabled(s, Begin(0, ConsumeWithBorrow(p.n), p.now))
    requires Plays(l, p, Next(l, s, Begin(0, ConsumeWithBorrow(p.n), p.now)), rest, s', false, true)
    ensures Plays(l, p, s, [Begin(0, ConsumeWithBorrow(p.n), p.now)] + rest, s', true, true)
  {
    hide Next, Enabled;
    var actions := [Begin(0, ConsumeWithBorrow(p.n), p.now)] + rest;
    assert actions[1..] == rest;
  }

  /** A borrower that finds nothing goes on to owe; then the other gives back. */
  lemma FailThenGiveBack(l: Limit, p: Pair, s: State) returns (actions: seq<Action>, s': State)
    requires |s.threads| == 2 && s.threads[0].Starting? && s.threads[0].call.request == ConsumeWithBorrow(p.n)
    requires s.threads[1].Idle? && s.threads[0].call.now <= s.cell
    ensures Plays(l, p, s, actions, s', false, true) && |s'.threads| == 2
    ensures s'.threads[0].Finished? && s'.threads[0].reply.Owed?
    ensures s'.threads[0].reply.nap ==
            Max(s.cell - Seconds(l, p.m) + Seconds(l, s.threads[0].remaining) - s.threads[0].call.now, 0.0)
  {
    hide Plays, Seconds, Earned, Commit, Balance;
    var s1 := Next(l, s, Advance(0, false));
    EmptyIff(l, s.cell, s.threads[0].call.now);
    var s2 := Next(l, s1, Advance(0, false));
    var rest;
    rest, s' := GiveBackThenBorrow(l, p, s2);
    Proceed(l, p, s1, 0, rest, s', false, true);
    Proceed(l, p, s, 0, [Advance(0, false)] + rest, s', false, true);
    actions := [Advance(0, false)] + ([Advance(0, false)] + rest);
  }

  /** A borrower that finds some of its tokens takes them first. */
  lemma TakeThenFail(l: Limit, p: Pair, s: State) returns (actions: seq<Action>, s': State)
    requires |s.threads| == 2 && s.threads[0].Starting? && s.threads[0].call.request == ConsumeWithBorrow(p.n)
    requires s.threads[1].Idle?
    requires 0.0 < Balance(l, s.cell, s.threads[0].call.now) < s.threads[0].remaining
    ensures Plays(l, p, s, actions, s', false, true) && |s'.threads| == 2
    ensures s'.threads[0].Finished? && s'.threads[0].reply.Owed?
    ensures s'.threads[0].reply.nap ==
            Max(Seconds(l, s.threads[0].remaining - Balance(l, s.cell, s.threads[0].call.now)) - Seconds(l, p.m), 0.0)
  {
    hide Plays, Seconds, Earned, Commit, Balance;
    var s1 := Next(l, s, Advance(0, false));
    var s2 := Next(l, s1, Advance(0, false));
    var t := s1.threads[0];
    PartialTakeDrains(l, s.cell, t.call.request, t.call.now, t.remaining, TakeEvent(t, Balance(l, s.cell, t.call.now)));
    var rest;
    rest, s' := FailThenGiveBack(l, p, s2);
    Proceed(l, p, s1, 0, rest, s', false, true);
    Proceed(l, p, s, 0, [Advance(0, false)] + rest, s', false, true);
    actions := [Advance(0, false)] + ([Advance(0, false)] + rest);
  }

  lemma CoverHides(l: Limit, z: real, p: Pair) returns (actions: seq<Action>, s: State)
    requires p.n <= l.burst && 0.0 < p.n - Balance(l, z, p.now) <= p.m
    ensures Hides(l, z, p, actions, s)
  {
    hide Plays, Seconds, Earned, Balance, Runs, Run;
    var s0 := Initial(z, 2);
    var start := Begin(0, ConsumeWithBorrow(p.n), p.now);
    InitialTwoCalls(z, p);
    var s1 := Next(l, s0, start);
    var bal := Balance(l, z, p.now);
    var rest;
    EmptyIff(l, z, p.now);
    SecondsOrder(l, p.m, p.n - bal);
    if bal > 0.0 {
      rest, s := TakeThenFail(l, p, s1);
    } else {
      rest, s := FailThenGiveBack(l, p, s1);
      DebtInSeconds(l, z, p.now);
      SecondsAdd(l, p.n, bal);
    }
    actions := [start] + rest;
    BorrowFirst(l, p, s0, rest, s);
    PlayedOut(l, p, s0, actions, s);
  }

  lemma PlayedOut(l: Limit, p: Pair, s: State, actions: seq<Action>, s': State)
    requires Plays(l, p, s, actions, s', true, true)
    ensures Runs(l, s, actions) && Run(l, s, actions) == s' && Duet(p, actions, true, true)
  {
  }

  lemma DebtInSeconds(l: Limit, z: real, now: real)
    requires now <= z
    ensures Seconds(l, Balance(l, z, now)) == now - z
  {
    BalanceInSeconds(l, z, now);
    FullBefore(l, now);
  }

  /**
   * One borrow of `n` and one return of `m`: some interleaving borrows and reports nothing to wait for exactly
   * when the request exceeds the balance and the return covers the rest.
   */
  lemma ReturnHidesDebtIff(l: Limit, z: real, p: Pair)
    requires p.n <= l.burst
    ensures (exists actions: seq<Action>, s: State :: Hides(l, z, p, actions, s)) <==>
            0.0 < p.n - Balance(l, z, p.now) <= p.m
  {
    hide Hides, Balance;
    if 0.0 < p.n - Balance(l, z, p.now) <= p.m {
      var actions, s := CoverHides(l, z, p);
    }
    forall actions: seq<Action>, s: State | Hides(l, z, p, actions, s)
      ensures 0.0 < p.n - Balance(l, z, p.now) <= p.m
    {
      HidingNeedsCover(l, z, p, actions, s);
    }
  }

  /** A concrete instance: 5 tokens borrowed from an empty bucket while another thread gives back 8. */
  lemma ReturnHidesDebt() returns (actions: seq<Action>, s: State)
    ensures Hides(RawLimit(1.0, 10.0), 0.0, Pair(5.0, 0.0, 8.0), actions, s)
  {
    hide Hides;
    EmptyIff(RawLimit(1.0, 10.0), 0.0, 0.0);
    assert Balance(RawLimit(1.0, 10.0), 0.0, 0.0) == 0.0;
    actions, s := CoverHides(RawLimit(1.0, 10.0), 0.0, Pair(5.0, 0.0, 8.0));
  }
}
