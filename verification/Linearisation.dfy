/**
 * The lock-free bucket against the sequential one: which calls take effect at one moment between their start
 * and their end.
 */
module Linearisation {
  import opened Limits
  import opened ZeroTime
  import opened History
  import opened LockFree
  import opened Spans
  import opened Borrowing
  import opened Progress
  import Sequential

  /** The sequential bucket after the first `k` commits. */
  function BucketAt(l: Limit, z0: real, log: seq<Event>, k: nat): Sequential.Bucket
    requires k <= |log|
  {
    Sequential.Bucket(ZeroTimeAfter(l, z0, log[..k]), l)
  }

  function SequentialOp(r: Request): Sequential.Op {
    match r
    case Consume(n) => Sequential.Consume(n)
    case TryConsume(n) => Sequential.TryConsume(n)
    case SaturatingConsume(n) => Sequential.SaturatingConsume(n)
    case ConsumeWithBorrow(n) => Sequential.ConsumeWithBorrow(n)
    case SaturatingConsumeWithBorrow(n) => Sequential.SaturatingConsumeWithBorrow(n)
    case AddTokens(n) => Sequential.AddTokens(n)
  }

  /** What a reply tells the caller of `r`. */
  function Told(l: Limit, r: Request, reply: Reply): Sequential.Outcome {
    match reply
    case Granted(amount, _) => if r.TryConsume? then Sequential.Tried(Ok(amount)) else Sequential.Tokens(Some(amount))
    case Refused(_) => Sequential.Tokens(None)
    case RateLimited(wait, _) => Sequential.Tried(Err(wait))
    case Added => Sequential.Nothing
    case ExceededBurst => Sequential.Borrowed(Err(Sequential.ExceededBurstCapacity))
    case Paid =>
      if r.SaturatingConsumeWithBorrow? then Sequential.BorrowedUpTo(None, 0.0) else Sequential.Borrowed(Ok(None))
    case Owed(nap, _) =>
      if r.SaturatingConsumeWithBorrow? then Sequential.BorrowedUpTo(Some(Asked(l, r)), nap)
      else Sequential.Borrowed(Ok(if nap > 0.0 then Some(nap) else None))
  }

  predicate Writes(reply: Reply) {
    reply.Granted? || reply.Added? || reply.Paid? || reply.Owed?
  }

  /** At `at` the sequential bucket gives the answer of the finished call and makes the same change of state. */
  ghost predicate TakesEffectAt(l: Limit, z0: real, log: seq<Event>, t: Thread, at: nat)
    requires t.Finished? && at <= |log|
  {
    var (b', o) := Sequential.Apply(BucketAt(l, z0, log, at), SequentialOp(t.call.request), t.call.now);
    && o == Told(l, t.call.request, t.reply)
    && if Writes(t.reply) then CommittedAt(l, z0, log, t, at, b') else b' == BucketAt(l, z0, log, at)
  }

  /** The commit at `at` is the call's own and leaves the bucket `b`. */
  ghost predicate CommittedAt(l: Limit, z0: real, log: seq<Event>, t: Thread, at: nat, b: Sequential.Bucket)
    requires t.Finished?
  {
    at < |log| && log[at].call == t.call.id && b == BucketAt(l, z0, log, at + 1)
  }

  lemma AskIsSequential(l: Limit, r: Request, z: real, now: real)
    requires !r.Borrows() && !r.AddTokens?
    ensures var c := Ask(r, Asked(l, r), Balance(l, z, now));
            var b := Sequential.Bucket(z, l);
            Sequential.Apply(b, SequentialOp(r), now) ==
            if c != 0.0 then (Sequential.Debit(b, c, now), Told(l, r, Granted(c, 0)))
            else if r.TryConsume? then (b, Sequential.Tried(Err(z - now + Seconds(l, r.n))))
            else (b, Sequential.Tokens(None))
  {
  }

  /**
   * One commit is one sequential transition: a take is a debit at the caller's clock reading, a return adds its
   * tokens. A borrow lowers what an uncapped bucket would hold by its amount; that is a debit exactly when the
   * zero time is not before that of a bucket full at the caller's reading.
   */
  lemma CommitsAreSequential(l: Limit, z0: real, log: seq<Event>, k: nat)
    requires k < |log|
    ensures var e, b, b' := log[k], BucketAt(l, z0, log, k), BucketAt(l, z0, log, k + 1);
            match e.kind
            case Take => b' == Sequential.Debit(b, e.amount, e.now)
            case Return => b' == Sequential.Apply(b, Sequential.AddTokens(e.amount), e.now).0
            case Borrow =>
              && Earned(l, e.now - b'.zeroTime) == Earned(l, e.now - b.zeroTime) - e.amount
              && (b' == Sequential.Debit(b, e.amount, e.now) <==> FullAt(l, e.now) <= b.zeroTime)
  {
    hide Seconds, Earned, Commit, ZeroTimeAfter, FullAt;
    var e, z := log[k], ZeroTimeAfter(l, z0, log[..k]);
    assert log[..k + 1] == log[..k] + [e];
    Append(l, z0, log[..k], e);
    CommitMoves(l, z, e);
    EarnedAdd(l, e.now - z, Seconds(l, e.amount));
    EarnedInSeconds(l, e.amount);
  }

  /** The moment at which a finished call that does not borrow takes effect. */
  function EffectAt(t: Thread): nat
    requires t.Finished? && !t.reply.Paid? && !t.reply.Owed? && !t.reply.ExceededBurst?
    requires t.reply.Added? ==> 0 < t.done
  {
    if t.reply.Added? then t.done - 1 else DecidedAt(t.reply)
  }

  /** The facts a finished call that does not borrow leaves behind. */
  lemma EffectFacts(l: Limit, z0: real, s: State, i: nat)
    requires Inv(l, z0, s) && i < |s.threads| && s.threads[i].Finished? && !s.threads[i].call.request.Borrows()
    ensures var t := s.threads[i];
            && Answered(l, z0, s.log, t.call, t.reply, t.done)
            && (t.reply.Granted? || t.reply.Refused? || t.reply.RateLimited? || t.reply.Added?)
            && (t.reply.Added? ==> 0 < t.done)
            && t.call.begun <= EffectAt(t) <= t.done <= |s.log| && Within(s.log, t.call, t.done)
            && if Writes(t.reply) then
                 && EffectAt(t) < |s.log| && s.log[EffectAt(t)].now == t.call.now
                 && s.log[EffectAt(t)].call == t.call.id && s.log[EffectAt(t)].amount == Pieces(s.log, t.call.id)
               else Pieces(s.log, t.call.id) == 0.0
  {
    hide Balance, ZeroTimeAfter, Ask, Admissible, DistinctCalls, Pieces, FewCommits;
    assert Consistent(l, z0, s.log, s.calls, s.threads[i]);
  }

  lemma ErrorFacts(l: Limit, z0: real, s: State, i: nat)
    requires Inv(l, z0, s) && i < |s.threads| && s.threads[i].Finished? && s.threads[i].reply.ExceededBurst?
    ensures var t := s.threads[i];
            && t.call.request.ConsumeWithBorrow? && l.burst < t.call.request.n
            && t.call.begun <= t.done <= |s.log|
  {
    hide Balance, ZeroTimeAfter, Ask, Asked, Admissible, DistinctCalls, Pieces, FewCommits;
    assert Consistent(l, z0, s.log, s.calls, s.threads[i]);
  }

  lemma AddsSilently(b: Sequential.Bucket, n: Positive, now: real)
    ensures Sequential.Apply(b, Sequential.AddTokens(n), now).1 == Sequential.Nothing
  {
  }

  /**
   * In every interleaving, even when the cell returned to an earlier value in between, each finished `consume`,
   * `try_consume`, `saturating_consume` and `add_tokens`, and each borrowing call that exceeded the burst, takes
   * effect at one moment of the history between its start and its end.
   */
  lemma CallsLinearise(l: Limit, z0: real, n: nat, actions: seq<Action>, s: State, i: nat)
    requires Reached(l, z0, n, actions, s) && i < |s.threads|
    requires s.threads[i].Finished?
    requires s.threads[i].reply.ExceededBurst? || !s.threads[i].call.request.Borrows()
    ensures Spanned(l, z0, n, actions, s, i)
    ensures s.threads[i].call.begun <= s.threads[i].done <= |s.log|
    ensures exists at: nat | s.threads[i].call.begun <= at <= s.threads[i].done ::
              TakesEffectAt(l, z0, s.log, s.threads[i], at)
  {
    hide Spanned, Balance, ZeroTimeAfter, Inv, Reached, TakesEffectAt;
    ReachedInv(l, z0, n, actions, s);
    SpanOfCall(l, z0, n, actions, s, i);
    var t := s.threads[i];
    if t.reply.ExceededBurst? {
      hide *;
      ErrorEffect(l, z0, s, i);
    } else {
      EffectFacts(l, z0, s, i);
      Effect(l, z0, s, i);
    }
  }

  lemma ErrorEffect(l: Limit, z0: real, s: State, i: nat)
    requires Inv(l, z0, s) && i < |s.threads| && s.threads[i].Finished? && s.threads[i].reply.ExceededBurst?
    ensures s.threads[i].call.begun <= s.threads[i].done <= |s.log|
    ensures TakesEffectAt(l, z0, s.log, s.threads[i], s.threads[i].done)
  {
    hide Balance, ZeroTimeAfter, Asked, Inv, Sequential.Apply;
    var t := s.threads[i];
    ErrorFacts(l, z0, s, i);
    ErrorAtOnce(l, t.call.request, ZeroTimeAfter(l, z0, s.log[..t.done]), t.call.now);
  }

  lemma Effect(l: Limit, z0: real, s: State, i: nat)
    requires Inv(l, z0, s) && i < |s.threads| && s.threads[i].Finished? && !s.threads[i].call.request.Borrows()
    ensures var t := s.threads[i];
            && (Writes(t.reply) ==> t.reply.Granted? || t.reply.Added?)
            && (!Writes(t.reply) ==> t.reply.Refused? || t.reply.RateLimited?)
            && (t.reply.Added? ==> 0 < t.done)
            && t.call.begun <= EffectAt(t) <= t.done <= |s.log|
            && TakesEffectAt(l, z0, s.log, t, EffectAt(t))
  {
    hide Balance, Commit, ZeroTimeAfter, Ask, Asked, Inv, Pieces, Sequential.Debit, Sequential.Apply;
    EffectFacts(l, z0, s, i);
    var t := s.threads[i];
    var at := EffectAt(t);
    if Writes(t.reply) {
      CommitsAreSequential(l, z0, s.log, at);
    }
    if t.reply.Added? {
      AddsSilently(BucketAt(l, z0, s.log, at), t.call.request.n, t.call.now);
    } else {
      AskIsSequential(l, t.call.request, ZeroTimeAfter(l, z0, s.log[..at]), t.call.now);
    }
  }

  // ----- Borrowing calls -----

  lemma {:induction false} PiecesSign(log: seq<Event>, call: nat)
    ensures 0.0 <= Pieces(log, call) && (Pieces(log, call) == 0.0 <==> CommitCount(log, call) == 0)
  {
    if log != [] {
      PiecesSign(log[..|log| - 1], call);
    }
  }

  /** A commit of a call is all of the call exactly when it is its only one. */
  lemma {:induction false} OnlyPiece(log: seq<Event>, call: nat, k: nat)
    requires k < |log| && log[k].call == call
    ensures 1 <= CommitCount(log, call) && log[k].amount <= Pieces(log, call)
    ensures log[k].amount == Pieces(log, call) <==> CommitCount(log, call) == 1
    decreases |log|
  {
    var init := log[..|log| - 1];
    if k < |init| {
      OnlyPiece(init, call, k);
    } else {
      PiecesSign(init, call);
    }
  }

  lemma PaidFacts(l: Limit, z0: real, s: State, i: nat)
    requires Inv(l, z0, s) && i < |s.threads| && s.threads[i].Finished? && s.threads[i].reply.Paid?
    ensures var t := s.threads[i];
            && t.call.request.Borrows() && (t.call.request.ConsumeWithBorrow? ==> t.call.request.n <= l.burst)
            && t.call.begun < t.done <= |s.log| && s.log[t.done - 1].call == t.call.id
            && Within(s.log, t.call, t.done) && OnlyTakes(s.log, t.call.id)
            && Pieces(s.log, t.call.id) == Asked(l, t.call.request)
            && CommitCount(s.log, t.call.id) <= 1 + ReturnCount(s.log[t.call.begun..t.done])
  {
    hide ZeroTimeAfter, Balance, Pieces, Admissible, CommitCount, ReturnCount, FewCommits, DistinctCalls;
    var t := s.threads[i];
    assert Consistent(l, z0, s.log, s.calls, t);
    ReturnsBetween(s.log[..t.done], t.call.begun);
    assert s.log[..t.done][..t.call.begun] == s.log[..t.call.begun];
    assert s.log[..t.done][t.call.begun..] == s.log[t.call.begun..t.done];
  }

  /** A borrowing call in one step: one debit, and nothing to tell if that leaves the zero time in the past. */
  lemma BorrowAtOnce(l: Limit, r: Request, z: real, now: real)
    requires r.Borrows() && (r.ConsumeWithBorrow? ==> r.n <= l.burst)
    ensures var b' := Sequential.Debit(Sequential.Bucket(z, l), Asked(l, r), now);
            Sequential.Apply(Sequential.Bucket(z, l), SequentialOp(r), now) ==
            (b', if b'.zeroTime <= now then Told(l, r, Paid) else Told(l, r, Owed(b'.zeroTime - now, 0)))
  {
  }

  lemma ErrorAtOnce(l: Limit, r: Request, z: real, now: real)
    requires r.ConsumeWithBorrow? && l.burst < r.n
    ensures var b := Sequential.Bucket(z, l);
            Sequential.Apply(b, SequentialOp(r), now) == (b, Told(l, r, ExceededBurst))
  {
  }

  lemma DebitsDiffer(b: Sequential.Bucket, x: real, y: real, now: real)
    ensures Sequential.Debit(b, x, now) == Sequential.Debit(b, y, now) <==> x == y
  {
    hide Seconds, Earned, FullAt;
    SecondsOrder(b.limit, x, y);
  }

  lemma PaidEffect(l: Limit, z0: real, s: State, i: nat, at: nat)
    requires Inv(l, z0, s) && i < |s.threads| && s.threads[i].Finished? && s.threads[i].reply.Paid?
    requires at < |s.log| && s.log[at].call == s.threads[i].call.id
    ensures s.threads[i].call.begun <= at < s.threads[i].done
    ensures TakesEffectAt(l, z0, s.log, s.threads[i], at) <==> CommitCount(s.log, s.threads[i].call.id) == 1
  {
    hide ZeroTimeAfter, Balance, Pieces, CommitCount, Asked, Consistent, DistinctCalls, Charged, Told;
    hide Sequential.Apply, Seconds, Earned;
    var t, e, z := s.threads[i], s.log[at], ZeroTimeAfter(l, z0, s.log[..at]);
    PaidFacts(l, z0, s, i);
    OnlyPiece(s.log, t.call.id, at);
    CommitsAreSequential(l, z0, s.log, at);
    BorrowAtOnce(l, t.call.request, z, t.call.now);
    DebitsDiffer(BucketAt(l, z0, s.log, at), e.amount, Asked(l, t.call.request), t.call.now);
    assert AdmissibleAt(l, z0, s.log, at);
    CoveredIff(l, z, t.call.now, e.amount);
  }

  /**
   * A borrowing call that found all its tokens takes effect at one moment between its start and its end exactly
   * when it took them in one commit. It does if nothing was given back during the call.
   */
  lemma PaidLinearisesIff(l: Limit, z0: real, n: nat, actions: seq<Action>, s: State, i: nat)
    requires Reached(l, z0, n, actions, s) && i < |s.threads|
    requires s.threads[i].Finished? && s.threads[i].reply.Paid?
    ensures Spanned(l, z0, n, actions, s, i)
    ensures s.threads[i].call.begun <= s.threads[i].done <= |s.log|
    ensures (exists at: nat | s.threads[i].call.begun <= at <= s.threads[i].done ::
               TakesEffectAt(l, z0, s.log, s.threads[i], at)) <==>
            CommitCount(s.log, s.threads[i].call.id) == 1
    ensures OnlyDebits(s.log[s.threads[i].call.begun..s.threads[i].done]) ==>
              CommitCount(s.log, s.threads[i].call.id) == 1
  {
    hide Spanned, Inv, Reached, TakesEffectAt, CommitCount, ReturnCount, Pieces, Asked;
    ReachedInv(l, z0, n, actions, s);
    SpanOfCall(l, z0, n, actions, s, i);
    PaidFacts(l, z0, s, i);
    var t := s.threads[i];
    PaidEffect(l, z0, s, i, t.done - 1);
    OnlyPiece(s.log, t.call.id, t.done - 1);
    forall at: nat | t.call.begun <= at <= t.done && TakesEffectAt(l, z0, s.log, t, at)
      ensures CommitCount(s.log, t.call.id) == 1
    {
      EffectIsOwn(l, z0, s.log, t, at);
      PaidEffect(l, z0, s, i, at);
    }
    if OnlyDebits(s.log[t.call.begun..t.done]) {
      NothingReturned(s.log[t.call.begun..t.done]);
    }
  }

  lemma EffectIsOwn(l: Limit, z0: real, log: seq<Event>, t: Thread, at: nat)
    requires t.Finished? && Writes(t.reply) && at <= |log| && TakesEffectAt(l, z0, log, t, at)
    ensures at < |log| && log[at].call == t.call.id
  {
  }

  /** What a call commits between `i` and `done`, when nobody else commits there. */
  lemma OwnWindow(log: seq<Event>, call: nat, i: nat, done: nat)
    requires i <= done <= |log|
    requires forall k | i <= k < done :: log[k].call == call && !log[k].kind.Return?
    requires forall k | 0 <= k < |log| && log[k].call == call :: i <= k < done
    ensures Pieces(log, call) == Debited(log[i..done])
  {
    hide Pieces, Debited, CommitCount;
    PiecesSplit(log, call, done);
    NoPieces(log[done..], call);
    PiecesSplit(log[..done], call, i);
    assert log[..done][..i] == log[..i] && log[..done][i..] == log[i..done];
    NoPieces(log[..i], call);
    SplitByCall(log[i..done], call);
  }

  lemma UndisturbedDebit(l: Limit, z0: real, s: State, i: nat)
    requires Inv(l, z0, s) && i < |s.threads| && s.threads[i].Finished?
    requires s.threads[i].reply.Paid? || s.threads[i].reply.Owed?
    requires s.threads[i].call.begun <= s.threads[i].done <= |s.log|
    requires forall k | s.threads[i].call.begun <= k < s.threads[i].done :: s.log[k].call == s.threads[i].call.id
    ensures var t := s.threads[i];
            && ZeroTimeAfter(l, z0, s.log[..t.done]) ==
               Charged(l, ZeroTimeAfter(l, z0, s.log[..t.call.begun]), t.call.now, Asked(l, t.call.request))
            && OnlyDebits(s.log[t.call.begun..t.done])
            && (t.reply.Paid? ==> ZeroTimeAfter(l, z0, s.log[..t.done]) <= t.call.now)
  {
    hide ZeroTimeAfter, Balance, Pieces, Debited, Asked, Charged, Consistent, DistinctCalls;
    var t := s.threads[i];
    var c, done := t.call, t.done;
    BorrowerFacts(l, z0, s, i);
    FinishedPieces(l, z0, s, i);
    FinishedFacts(l, z0, s, i);
    assert c.begun < done;
    forall k | c.begun <= k < done ensures s.log[..done][k].now == c.now && c.begun <= s.log[..done][k].read {
      assert AdmissibleAt(l, z0, s.log, k);
    }
    InitAdmissible(l, z0, s.log, done);
    OneClampThenSum(l, z0, s.log[..done], c.begun, c.now);
    assert s.log[..done][..c.begun] == s.log[..c.begun] && s.log[..done][c.begun..] == s.log[c.begun..done];
    OwnWindow(s.log, c.id, c.begun, done);
    if t.reply.Paid? {
      TakeEndsBefore(l, z0, s.log, done - 1);
    }
  }

  lemma BorrowerFacts(l: Limit, z0: real, s: State, i: nat)
    requires Inv(l, z0, s) && i < |s.threads| && s.threads[i].Finished?
    requires s.threads[i].reply.Paid? || s.threads[i].reply.Owed?
    ensures s.threads[i].call.request.Borrows()
  {
    hide ZeroTimeAfter, Balance, Pieces, Admissible, FewCommits, DistinctCalls;
    assert Consistent(l, z0, s.log, s.calls, s.threads[i]);
  }

  /** A call refused for exceeding the burst commits nothing. */
  lemma NothingCommitted(l: Limit, z0: real, s: State, i: nat)
    requires Inv(l, z0, s) && i < |s.threads| && s.threads[i].Finished?
    requires s.threads[i].call.request.Borrows() && s.threads[i].reply.ExceededBurst?
    ensures forall k | 0 <= k < |s.log| :: s.log[k].call != s.threads[i].call.id
  {
    hide Inv, Pieces, CommitCount;
    FinishedPieces(l, z0, s, i);
    forall k | 0 <= k < |s.log| ensures s.log[k].call != s.threads[i].call.id {
      if s.log[k].call == s.threads[i].call.id {
        OnlyPiece(s.log, s.threads[i].call.id, k);
      }
    }
  }

  /** Nobody else commits during the call of thread `t`. */
  ghost predicate UndisturbedCall(log: seq<Event>, t: Thread)
    requires t.Finished?
  {
    forall k | 0 <= k < |log| && t.call.begun <= k < t.done :: log[k].call == t.call.id
  }

  /** The call of thread `t` changes the bucket and answers as the sequential one would at its start. */
  ghost predicate ActsSequentially(l: Limit, z0: real, log: seq<Event>, t: Thread)
    requires t.Finished?
  {
    && t.call.begun <= t.done <= |log|
    && Sequential.Apply(BucketAt(l, z0, log, t.call.begun), SequentialOp(t.call.request), t.call.now) ==
       (BucketAt(l, z0, log, t.done), Told(l, t.call.request, t.reply))
  }

  lemma UndisturbedBorrows(l: Limit, z0: real, s: State, i: nat)
    requires Inv(l, z0, s) && i < |s.threads|
    requires s.threads[i].Finished? && s.threads[i].call.request.Borrows() && UndisturbedCall(s.log, s.threads[i])
    ensures ActsSequentially(l, z0, s.log, s.threads[i])
  {
    hide ZeroTimeAfter, Balance, Pieces, Debited, Returned, Inv, Asked, Charged;
    var t := s.threads[i];
    FinishedPieces(l, z0, s, i);
    FinishedFacts(l, z0, s, i);
    if t.reply.ExceededBurst? {
      assert t.call.begun < t.done ==> s.log[t.call.begun].call == t.call.id;
      NothingCommitted(l, z0, s, i);
      ErrorAtOnce(l, t.call.request, ZeroTimeAfter(l, z0, s.log[..t.done]), t.call.now);
    } else {
      UndisturbedDebit(l, z0, s, i);
      BorrowAtOnce(l, t.call.request, ZeroTimeAfter(l, z0, s.log[..t.call.begun]), t.call.now);
      if t.reply.Owed? {
        DebtReported(l, z0, s, i);
        var found := s.log[t.reply.posted].read;
        OnlyDebitsWithin(s.log, t.call.begun, found, t.done);
        NothingReturned(s.log[found..t.done]);
      }
    }
  }

  lemma {:induction false} CommittedOnce(log: seq<Event>, call: nat, j: nat, k: nat)
    requires CommitCount(log, call) == 1 && j < |log| && k < |log| && log[j].call == log[k].call == call
    ensures j == k
    decreases |log|
  {
    var init := log[..|log| - 1];
    if j < |init| {
      OnlyPiece(init, call, j);
    }
    if k < |init| {
      OnlyPiece(init, call, k);
    }
    if j < |init| && k < |init| {
      CommittedOnce(init, call, j, k);
    }
  }

  lemma UndisturbedOthers(l: Limit, z0: real, s: State, i: nat)
    requires Inv(l, z0, s) && i < |s.threads|
    requires s.threads[i].Finished? && !s.threads[i].call.request.Borrows() && UndisturbedCall(s.log, s.threads[i])
    ensures ActsSequentially(l, z0, s.log, s.threads[i])
  {
    hide ZeroTimeAfter, Balance, Pieces, CommitCount, Inv, Ask, Asked, Answered, Sequential.Apply;
    var t := s.threads[i];
    Effect(l, z0, s, i);
    EffectFacts(l, z0, s, i);
    var at := EffectAt(t);
    if Writes(t.reply) {
      OnlyPiece(s.log, t.call.id, at);
      if t.call.begun < at {
        CommittedOnce(s.log, t.call.id, t.call.begun, at);
      }
      if at + 1 < t.done {
        CommittedOnce(s.log, t.call.id, at + 1, at);
      }
    } else if t.call.begun < t.done {
      OnlyPiece(s.log, t.call.id, t.call.begun);
    }
  }

  /**
   * A call of any kind during which nobody else commits behaves as the sequential one, answer and state change,
   * though a borrowing call takes and borrows in several steps and reads its debt in another.
   */
  lemma UndisturbedCalls(l: Limit, z0: real, n: nat, actions: seq<Action>, s: State, i: nat)
    requires Reached(l, z0, n, actions, s) && i < |s.threads|
    requires s.threads[i].Finished? && UndisturbedCall(s.log, s.threads[i])
    ensures Spanned(l, z0, n, actions, s, i)
    ensures ActsSequentially(l, z0, s.log, s.threads[i])
  {
    hide Inv, Reached, Spanned, ActsSequentially, UndisturbedCall;
    ReachedInv(l, z0, n, actions, s);
    SpanOfCall(l, z0, n, actions, s, i);
    if s.threads[i].call.request.Borrows() {
      UndisturbedBorrows(l, z0, s, i);
    } else {
      UndisturbedOthers(l, z0, s, i);
    }
  }

  /** A call begins with a load, or ends at once; it has at most seven steps to take and holds nothing stale. */
  lemma StartsFresh(l: Limit, s: State, i: nat, r: Request, now: real)
    requires Enabled(s, Begin(i, r, now))
    ensures var t := Next(l, s, Begin(i, r, now)).threads[i];
            && Left(s.log, t, OfSteps) <= 7 && !HoldsStale(t, |s.log|)
            && (t.Finished? ==> t.done == |s.log|)
  {
  }

  /** A call of thread `i` that has made all commits since `s` acts on the value in the cell of `s`. */
  lemma ActsOnCell(l: Limit, z0: real, s: State, s': State, i: nat)
    requires Inv(l, z0, s) && Inv(l, z0, s') && i < |s'.threads| && s'.threads[i].Finished?
    requires s'.threads[i].call.begun == |s.log| && s'.threads[i].done == |s'.log|
    requires |s.log| <= |s'.log| && s.log == s'.log[..|s.log|]
    requires forall k | |s.log| <= k < |s'.log| :: s'.log[k].call == s'.threads[i].call.id
    ensures var t := s'.threads[i];
            Sequential.Apply(Sequential.Bucket(s.cell, l), SequentialOp(t.call.request), t.call.now) ==
            (Sequential.Bucket(s'.cell, l), Told(l, t.call.request, t.reply))
  {
    hide Inv, Sequential.Apply, Told, ZeroTimeAfter;
    CellIsReplay(l, z0, s);
    CellIsReplay(l, z0, s');
    assert s'.log[..|s'.log|] == s'.log;
    if s'.threads[i].call.request.Borrows() {
      UndisturbedBorrows(l, z0, s', i);
    } else {
      UndisturbedOthers(l, z0, s', i);
    }
  }

  lemma AloneFrom(l: Limit, z0: real, s: State, i: nat, r: Request, now: real)
    returns (steps: seq<Action>, s': State)
    requires Inv(l, z0, s) && Enabled(s, Begin(i, r, now))
    ensures Alone(steps, i) && |steps| <= 7
    ensures Runs(l, Next(l, s, Begin(i, r, now)), steps) && s' == Run(l, Next(l, s, Begin(i, r, now)), steps)
    ensures Inv(l, z0, s') && |s'.threads| == |s.threads|
    ensures forall j | 0 <= j < |s.threads| && j != i :: s'.threads[j] == s.threads[j]
    ensures s'.threads[i].Finished? && s'.threads[i].done == |s'.log|
    ensures s'.threads[i].call == Call(s.calls, r, now, |s.log|)
    ensures Sequential.Apply(Sequential.Bucket(s.cell, l), SequentialOp(r), now) ==
            (Sequential.Bucket(s'.cell, l), Told(l, r, s'.threads[i].reply))
  {
    hide Inv, Next, Left, HoldsStale, Sequential.Apply, Told;
    var start := Begin(i, r, now);
    var s1 := Next(l, s, start);
    BeginGrows(l, s, i, r, now);
    NextKeeps(l, z0, s, start);
    StartsFresh(l, s, i, r, now);
    steps := [];
    if s1.threads[i].Busy() {
      steps := FinishesAlone(l, z0, s1, i);
    }
    s' := Run(l, s1, steps);
    ActsOnCell(l, z0, s, s', i);
  }

  /**
   * From every reachable state: a call that starts on a thread at rest and then runs alone, whatever the other
   * threads are in the middle of, finishes within seven steps and behaves as the sequential one on the value in
   * the cell.
   */
  lemma CallsAlone(l: Limit, z0: real, n: nat, before: seq<Action>, s: State, i: nat, r: Request, now: real)
    returns (steps: seq<Action>, s': State)
    requires Reached(l, z0, n, before, s) && i < |s.threads| && !s.threads[i].Busy()
    ensures Alone(steps, i) && |steps| <= 7
    ensures Reached(l, z0, n, before + [Begin(i, r, now)] + steps, s')
    ensures |s'.threads| == |s.threads| && s'.threads[i].Finished?
    ensures forall j | 0 <= j < |s.threads| && j != i :: s'.threads[j] == s.threads[j]
    ensures Sequential.Apply(Sequential.Bucket(s.cell, l), SequentialOp(r), now) ==
            (Sequential.Bucket(s'.cell, l), Told(l, r, s'.threads[i].reply))
  {
    hide Inv, Reached, Next, Sequential.Apply, Told;
    ReachedInv(l, z0, n, before, s);
    steps, s' := AloneFrom(l, z0, s, i, r, now);
    ReachOn(l, z0, n, before, s, Begin(i, r, now));
    ReachAll(l, z0, n, before + [Begin(i, r, now)], Next(l, s, Begin(i, r, now)), steps);
  }

  /**
   * What a call that borrowed tells its caller, in every run. The capped form says that it borrowed, and all of its
   * pieces together, even if there is nothing to wait for. The plain form tells of a debt exactly when the zero
   * time at the end of the call is after its clock reading.
   */
  lemma BorrowTold(l: Limit, z0: real, n: nat, actions: seq<Action>, s: State, i: nat)
    requires Reached(l, z0, n, actions, s) && i < |s.threads|
    requires s.threads[i].Finished? && s.threads[i].reply.Owed?
    ensures Spanned(l, z0, n, actions, s, i)
    ensures var t := s.threads[i];
            && t.call.request.Borrows() && t.done <= |s.log|
            && var debt := ZeroTimeAfter(l, z0, s.log[..t.done]) - t.call.now;
               && (t.call.request.SaturatingConsumeWithBorrow? ==>
                     Told(l, t.call.request, t.reply) ==
                     Sequential.BorrowedUpTo(Some(Pieces(s.log, t.call.id)), Max(debt, 0.0)))
               && (t.call.request.ConsumeWithBorrow? ==>
                     Told(l, t.call.request, t.reply) ==
                     Sequential.Borrowed(Ok(if debt <= 0.0 then None else Some(debt))))
  {
    hide Spanned, Inv, Reached, ZeroTimeAfter, Pieces, Asked;
    ReachedInv(l, z0, n, actions, s);
    SpanOfCall(l, z0, n, actions, s, i);
    BorrowerFacts(l, z0, s, i);
    FinishedPieces(l, z0, s, i);
    FinishedFacts(l, z0, s, i);
  }

  /** At one token a second, a bucket with zero time `z` holds `-z` tokens at time 0. */
  lemma UnitRate(l: Limit, z: real, consumed: Positive)
    requires l == RawLimit(1.0, 10.0) && -10.0 <= z
    ensures Balance(l, z, 0.0) == -z && AfterTake(l, z, 0.0, consumed) == z + consumed
  {
  }

  /** A borrowing call for 5 tokens takes the 3 tokens there are. */
  lemma FirstPiece(l: Limit, c: Call, e: Event) returns (actions: seq<Action>, s: State)
    requires l == RawLimit(1.0, 10.0) && c == Call(0, ConsumeWithBorrow(5.0), 0.0, 0)
    requires e == Event(Take, 0, 3.0, 0.0, 0, 0)
    ensures Reached(l, -3.0, 2, actions, s)
    ensures s == State(0.0, [Starting(c, 2, 1, 2.0), Idle], [e], 1, 0, 0)
  {
    hide Reached, Balance, AfterTake;
    var s0 := Initial(-3.0, 2);
    UnitRate(l, -3.0, 3.0);
    var begin, step := Begin(0, ConsumeWithBorrow(5.0), 0.0), Advance(0, false);
    NotStarted(l, -3.0, 2);
    ReachOn(l, -3.0, 2, [], s0, begin);
    var s1 := Next(l, s0, begin);
    assert s1 == State(-3.0, [Starting(c, 1, 0, 5.0), Idle], [], 1, 0, 0);
    ReachOn(l, -3.0, 2, [] + [begin], s1, step);
    var s2 := Next(l, s1, step);
    assert s2 == State(-3.0, [Trying(c, 1, 0, 5.0, -3.0, 0), Idle], [], 1, 0, 0);
    ReachOn(l, -3.0, 2, [] + [begin] + [step], s2, step);
    actions, s := [] + [begin] + [step] + [step], Next(l, s2, step);
  }

  /** Another thread gives back 2 tokens. */
  lemma GivesBack(l: Limit, t: Thread, d: Call, e0: Event, e1: Event, before: seq<Action>, s0: State)
    returns (actions: seq<Action>, s: State)
    requires l == RawLimit(1.0, 10.0) && d == Call(1, AddTokens(2.0), 0.0, 1)
    requires e1 == Event(Return, 1, 2.0, 0.0, 1, 1)
    requires Reached(l, -3.0, 2, before, s0) && s0 == State(0.0, [t, Idle], [e0], 1, 0, 0)
    ensures Reached(l, -3.0, 2, actions, s)
    ensures s == State(-2.0, [t, Finished(d, Added, 2)], [e0, e1], 2, 0, 0)
  {
    hide Reached;
    var begin, step := Begin(1, AddTokens(2.0), 0.0), Advance(1, false);
    ReachOn(l, -3.0, 2, before, s0, begin);
    var s1 := Next(l, s0, begin);
    assert s1 == State(0.0, [t, Owing(d, 1, 1, 2.0)], [e0], 2, 0, 0);
    ReachOn(l, -3.0, 2, before + [begin], s1, step);
    var s2 := Next(l, s1, step);
    assert s2 == State(0.0, [t, Posting(d, 1, 1, 2.0, 0.0, 1)], [e0], 2, 0, 0);
    ReachOn(l, -3.0, 2, before + [begin] + [step], s2, step);
    actions, s := before + [begin] + [step] + [step], Next(l, s2, step);
  }

  /** The borrowing call takes these as well. */
  lemma SecondPiece(l: Limit, c: Call, u: Thread, e0: Event, e1: Event, e2: Event, before: seq<Action>, s0: State)
    returns (actions: seq<Action>, s: State)
    requires l == RawLimit(1.0, 10.0) && c == Call(0, ConsumeWithBorrow(5.0), 0.0, 0)
    requires e2 == Event(Take, 0, 2.0, 0.0, 0, 2)
    requires Reached(l, -3.0, 2, before, s0)
    requires s0 == State(-2.0, [Starting(c, 2, 1, 2.0), u], [e0, e1], 2, 0, 0)
    ensures Reached(l, -3.0, 2, actions, s)
    ensures s == State(0.0, [Finished(c, Paid, 3), u], [e0, e1, e2], 2, 0, 0)
  {
    hide Reached, Balance, AfterTake;
    var step := Advance(0, false);
    UnitRate(l, -2.0, 2.0);
    ReachOn(l, -3.0, 2, before, s0, step);
    var s1 := Next(l, s0, step);
    assert s1 == State(-2.0, [Trying(c, 2, 1, 2.0, -2.0, 2), u], [e0, e1], 2, 0, 0);
    ReachOn(l, -3.0, 2, before + [step], s1, step);
    actions, s := before + [step] + [step], Next(l, s1, step);
  }

  /**
   * A concrete failure: a call borrows nothing and yet takes effect at no single moment. It asks for 5 tokens of a
   * bucket that holds 3, takes these, and takes the other 2 after another thread has given them back.
   */
  lemma PaidInPieces() returns (actions: seq<Action>, s: State)
    ensures Reached(RawLimit(1.0, 10.0), -3.0, 2, actions, s) && |s.threads| == 2
    ensures s.threads[0].Finished? && s.threads[0].reply.Paid?
    ensures s.threads[0].call.begun <= s.threads[0].done <= |s.log|
    ensures forall at: nat | s.threads[0].call.begun <= at <= s.threads[0].done ::
              !TakesEffectAt(RawLimit(1.0, 10.0), -3.0, s.log, s.threads[0], at)
  {
    hide Reached, TakesEffectAt, CommitCount;
    var l: Limit := RawLimit(1.0, 10.0);
    var c, d := Call(0, ConsumeWithBorrow(5.0), 0.0, 0), Call(1, AddTokens(2.0), 0.0, 1);
    var e0, e1 := Event(Take, 0, 3.0, 0.0, 0, 0), Event(Return, 1, 2.0, 0.0, 1, 1);
    var e2 := Event(Take, 0, 2.0, 0.0, 0, 2);
    actions, s := FirstPiece(l, c, e0);
    actions, s := GivesBack(l, s.threads[0], d, e0, e1, actions, s);
    actions, s := SecondPiece(l, c, s.threads[1], e0, e1, e2, actions, s);
    TwoOfThree(e0, e1, e2);
    PaidLinearisesIff(l, -3.0, 2, actions, s, 0);
  }

  lemma TwoOfThree(x: Event, y: Event, z: Event)
    requires x.call == z.call != y.call
    ensures CommitCount([x, y, z], x.call) == 2
  {
    assert CommitCount([x], x.call) == 1;
    assert [x, y][..1] == [x] && CommitCount([x, y], x.call) == 1;
    assert [x, y, z][..2] == [x, y];
  }

  // ----- Hints -----

  /** Commits that debit nothing do not raise the zero time. */
  lemma {:induction false} RisesOnlyByDebits(l: Limit, z0: real, log: seq<Event>, i: nat)
    requires i <= |log| && forall k | i <= k < |log| :: log[k].kind.Return?
    ensures ZeroTimeAfter(l, z0, log) <= ZeroTimeAfter(l, z0, log[..i])
    decreases |log|
  {
    hide Commit;
    if i == |log| {
      assert log[..i] == log;
    } else {
      var init := log[..|log| - 1];
      RisesOnlyByDebits(l, z0, init, i);
      assert init[..i] == log[..i];
      CommitMoves(l, ZeroTimeAfter(l, z0, init), log[|log| - 1]);
    }
  }

  /** The bucket after `k` commits grants a `try_consume` of `n` at `time`. */
  ghost predicate GrantsAt(l: Limit, z0: real, log: seq<Event>, k: nat, n: Positive, time: real)
    requires k <= |log|
  {
    Sequential.Grants(BucketAt(l, z0, log, k), n, time)
  }

  /**
   * The wait reported by a refused `try_consume` of at most the burst, in every interleaving. It is positive;
   * until somebody gives back, no moment later in the history grants a retry before the wait is over, and
   * until somebody debits, every later moment grants a retry after it.
   */
  lemma HintsLinearise(l: Limit, z0: real, n: nat, actions: seq<Action>, s: State, i: nat)
    requires Reached(l, z0, n, actions, s) && i < |s.threads|
    requires s.threads[i].Finished? && s.threads[i].reply.RateLimited?
    ensures Spanned(l, z0, n, actions, s, i)
    ensures s.threads[i].call.request.TryConsume?
    ensures var t := s.threads[i];
            var asked, retry := t.call.request.n, t.call.now + t.reply.wait;
            && t.call.begun <= t.reply.at <= t.done <= |s.log|
            && (asked <= l.burst ==> t.reply.wait > 0.0)
            && (asked > l.burst ==> forall k, time | t.reply.at <= k <= |s.log| ::
                  !GrantsAt(l, z0, s.log, k, asked, time))
            && (asked <= l.burst ==> forall k, time | t.reply.at <= k <= |s.log| ::
                  && (OnlyDebits(s.log[t.reply.at..k]) && time < retry ==> !GrantsAt(l, z0, s.log, k, asked, time))
                  && (Debited(s.log[t.reply.at..k]) == 0.0 && retry <= time ==>
                        GrantsAt(l, z0, s.log, k, asked, time)))
  {
    hide Spanned, Balance, ZeroTimeAfter, Seconds, Earned, Inv, Reached, GrantsAt, Debited, Ask, Asked;
    ReachedInv(l, z0, n, actions, s);
    SpanOfCall(l, z0, n, actions, s, i);
    ReadHint(l, z0, s, i);
    var t := s.threads[i];
    var z := ZeroTimeAfter(l, z0, s.log[..t.reply.at]);
    CoveredIff(l, z, t.call.now, t.call.request.n);
    forall k, time | t.reply.at <= k <= |s.log|
      ensures t.call.request.n > l.burst ==> !GrantsAt(l, z0, s.log, k, t.call.request.n, time)
      ensures t.call.request.n <= l.burst && OnlyDebits(s.log[t.reply.at..k]) && time < t.call.now + t.reply.wait ==>
                !GrantsAt(l, z0, s.log, k, t.call.request.n, time)
      ensures t.call.request.n <= l.burst && Debited(s.log[t.reply.at..k]) == 0.0
              && t.call.now + t.reply.wait <= time ==>
                GrantsAt(l, z0, s.log, k, t.call.request.n, time)
    {
      GrantedIff(l, z0, s.log, k, t.call.request.n, time);
      FallsBetween(l, z0, s.log, t.reply.at, k);
      if Debited(s.log[t.reply.at..k]) == 0.0 {
        NothingDebited(s.log[t.reply.at..k]);
        assert forall m | t.reply.at <= m < k :: s.log[..k][m] == s.log[t.reply.at..k][m - t.reply.at];
        RisesOnlyByDebits(l, z0, s.log[..k], t.reply.at);
        assert s.log[..k][..t.reply.at] == s.log[..t.reply.at];
      }
    }
  }

  lemma ReadHint(l: Limit, z0: real, s: State, i: nat)
    requires Inv(l, z0, s) && i < |s.threads| && s.threads[i].Finished? && s.threads[i].reply.RateLimited?
    ensures var t := s.threads[i];
            && t.call.request.TryConsume? && t.call.begun <= t.reply.at <= t.done <= |s.log|
            && var z := ZeroTimeAfter(l, z0, s.log[..t.reply.at]);
               && Balance(l, z, t.call.now) < t.call.request.n
               && t.reply.wait == z - t.call.now + Seconds(l, t.call.request.n)
  {
    hide Balance, ZeroTimeAfter, Admissible, DistinctCalls, Pieces, FewCommits;
    assert Consistent(l, z0, s.log, s.calls, s.threads[i]);
  }

  lemma GrantedIff(l: Limit, z0: real, log: seq<Event>, k: nat, n: Positive, time: real)
    requires k <= |log|
    ensures GrantsAt(l, z0, log, k, n, time) <==> n <= l.burst && ZeroTimeAfter(l, z0, log[..k]) + Seconds(l, n) <= time
  {
    hide Seconds, Earned, ZeroTimeAfter, Balance;
    CoveredIff(l, ZeroTimeAfter(l, z0, log[..k]), time, n);
    Sequential.BalanceIsCapped(l, ZeroTimeAfter(l, z0, log[..k]), time);
  }
}
