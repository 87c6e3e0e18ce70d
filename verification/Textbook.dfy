/**
 * The textbook bucket, a level and the time of the last refill, and the proof that the zero-time bucket
 * refines it under every sequence of operations, limit changes included, while the clock does not go back.
 * The wait suggested to a `try_consume` above the burst is the one answer in which they differ.
 */
module Textbook {
  import opened Limits
  import opened ZeroTime
  import opened Sequential

  datatype Level = Level(level: real, last: real, limit: Limit)

  function Refill(s: Level, now: real): Level {
    s.(level := Min(s.level + Earned(s.limit, now - s.last), s.limit.burst), last := now)
  }

  /** The outcome and new level of an operation on a refilled bucket. */
  function Serve(s: Level, op: Op): (Level, Outcome) {
    match op
    case Consume(n) =>
      if s.level < n then (s, Tokens(None)) else (s.(level := s.level - n), Tokens(Some(n)))
    case TryConsume(n) =>
      if s.level < n then (s, Tried(Err(Seconds(s.limit, n - s.level))))
      else (s.(level := s.level - n), Tried(Ok(n)))
    case SaturatingConsume(n) =>
      if s.level <= 0.0 then (s, Tokens(None))
      else (s.(level := s.level - Min(s.level, n)), Tokens(Some(Min(s.level, n))))
    case ConsumeWithBorrow(n) =>
      if s.limit.burst < n then (s, Borrowed(Err(ExceededBurstCapacity)))
      else
        (s.(level := s.level - n),
         Borrowed(Ok(if s.level >= n then None else Some(Seconds(s.limit, n - s.level)))))
    case SaturatingConsumeWithBorrow(n) =>
      var c := Min(n, s.limit.burst);
      (s.(level := s.level - c),
       if s.level >= c then BorrowedUpTo(None, 0.0) else BorrowedUpTo(Some(c), Seconds(s.limit, c - s.level)))
    case AddTokens(n) => (s.(level := Min(s.level + n, s.limit.burst)), Nothing)
    case SetLimit(limit) => (s.(level := Min(s.level, limit.burst), limit := limit), Nothing)
    case GetBalance => (s, Amount(s.level))
    case GetAvailable => (s, Amount(Max(s.level, 0.0)))
  }

  datatype Timed = At(op: Op, now: real)

  predicate Clocked(last: real, ops: seq<Timed>)
    decreases |ops|
  {
    ops == [] || (last <= ops[0].now && Clocked(ops[0].now, ops[1..]))
  }

  function RunBucket(b: Bucket, ops: seq<Timed>): (Bucket, seq<Outcome>)
    ensures |RunBucket(b, ops).1| == |ops|
    decreases |ops|
  {
    if ops == [] then (b, [])
    else
      var (b', o) := Apply(b, ops[0].op, ops[0].now);
      var (b'', os) := RunBucket(b', ops[1..]);
      (b'', [o] + os)
  }

  function RunTextbook(s: Level, ops: seq<Timed>): (Level, seq<Outcome>)
    ensures |RunTextbook(s, ops).1| == |ops|
    decreases |ops|
  {
    if ops == [] then (s, [])
    else
      var (s', o) := Serve(Refill(s, ops[0].now), ops[0].op);
      var (s'', os) := RunTextbook(s', ops[1..]);
      (s'', [o] + os)
  }

  /** The level is what the zero-time bucket held when the textbook bucket was last refilled. */
  ghost predicate Simulates(b: Bucket, s: Level) {
    b.limit == s.limit && s.level == Held(b, s.last)
  }

  /**
   * Outcomes agree when they are equal. The one exception is the wait suggested to a `try_consume` refused
   * because no bucket under the limit could ever grant it.
   */
  predicate Agree(limit: Limit, op: Op, x: Outcome, y: Outcome) {
    || x == y
    || (op.TryConsume? && op.n > limit.burst && x.Tried? && x.result.Err? && y.Tried? && y.result.Err?)
  }

  lemma RefillSimulates(b: Bucket, s: Level, now: real)
    requires Simulates(b, s) && s.last <= now
    ensures Simulates(b, Refill(s, now))
  {
    HeldGrows(b, s.last, now);
  }

  /** A debit against a refilled bucket keeps the simulation; the time to zero is that to earn what is missing. */
  lemma DebitSimulates(b: Bucket, s: Level, tokens: real)
    requires Simulates(b, s) && 0.0 <= tokens
    ensures Simulates(Debit(b, tokens, s.last), s.(level := s.level - tokens))
    ensures Debit(b, tokens, s.last).zeroTime - s.last == Seconds(s.limit, tokens - s.level)
    ensures Debit(b, tokens, s.last).zeroTime <= s.last <==> tokens <= s.level
  {
    DebitLowersHeld(b, tokens, s.last);
  }

  /** Without its cap the bucket would hold more than the burst. */
  predicate Overfull(b: Bucket, now: real) {
    b.zeroTime < FullAt(b.limit, now)
  }

  /** The hint of a refused request is the time to earn what is missing, unless the bucket is overfull. */
  lemma HintIsTimeToEarn(b: Bucket, n: Positive, now: real)
    requires Held(b, now) < n
    ensures b.zeroTime - now + Seconds(b.limit, n) == Seconds(b.limit, n - Held(b, now)) <==> !Overfull(b, now)
    ensures n <= b.limit.burst ==> !Overfull(b, now)
  {
    hide Seconds, Earned, Balance, FullAt;
    BalanceInSeconds(b.limit, b.zeroTime, now);
    SecondsAdd(b.limit, n, Held(b, now));
    CoveredIff(b.limit, b.zeroTime, now, n);
    FullCovers(b.limit, now, n);
  }

  lemma FullCovers(l: Limit, now: real, n: real)
    ensures FullAt(l, now) + Seconds(l, n) <= now <==> n <= l.burst
  {
    SecondsOrder(l, l.burst, n);
  }

  /**
   * Each operation keeps the simulation, and its answers agree. They are equal but for the wait suggested to a
   * `try_consume` above the burst, which differs exactly when the bucket is overfull.
   */
  lemma ServeSimulates(b: Bucket, s: Level, op: Op)
    requires Simulates(b, s)
    ensures Simulates(Apply(b, op, s.last).0, Serve(s, op).0) && Serve(s, op).0.last == s.last
    ensures Agree(b.limit, op, Apply(b, op, s.last).1, Serve(s, op).1)
    ensures Apply(b, op, s.last).1 == Serve(s, op).1 <==>
            !(op.TryConsume? && op.n > b.limit.burst && Overfull(b, s.last))
  {
    hide Seconds, Earned, Balance, Held, Debit, Overfull;
    match op
    case AddTokens(n) => AddRaisesHeld(b, n, s.last);
    case SetLimit(limit) => SetLimitKeepsHeld(b, limit, s.last);
    case GetBalance =>
    case GetAvailable =>
    case SaturatingConsume(n) => DebitSimulates(b, s, UpTo(n, Held(b, s.last)));
    case SaturatingConsumeWithBorrow(n) => DebitSimulates(b, s, Min(n, b.limit.burst));
    case TryConsume(n) =>
      DebitSimulates(b, s, n);
      HeldCapped(b, s.last);
      if Held(b, s.last) < n {
        HintIsTimeToEarn(b, n, s.last);
      }
    case _ => DebitSimulates(b, s, op.n);
  }

  /** The limit in force before operation `k`. */
  function LimitAt(limit: Limit, ops: seq<Timed>, k: nat): Limit
    requires k <= |ops|
    decreases k
  {
    if k == 0 then limit
    else LimitAt(if ops[0].op.SetLimit? then ops[0].op.limit else limit, ops[1..], k - 1)
  }

  /** The answers `xs` and `ys` of two runs of `ops` agree on operation `k`. */
  predicate AgreeOn(limit: Limit, ops: seq<Timed>, xs: seq<Outcome>, ys: seq<Outcome>, k: nat)
    requires k < |ops| == |xs| == |ys|
  {
    Agree(LimitAt(limit, ops, k), ops[k].op, xs[k], ys[k])
  }

  /** Refinement: over every run the answers of the two buckets agree, and they end with the same balance. */
  lemma {:induction false} Refinement(b: Bucket, s: Level, ops: seq<Timed>)
    requires Simulates(b, s) && Clocked(s.last, ops)
    ensures Simulates(RunBucket(b, ops).0, RunTextbook(s, ops).0)
    ensures forall k | 0 <= k < |ops| ::
              AgreeOn(b.limit, ops, RunBucket(b, ops).1, RunTextbook(s, ops).1, k)
    decreases |ops|
  {
    hide Held, Agree, Apply, Serve, Refill, Simulates;
    if ops != [] {
      var op, now := ops[0].op, ops[0].now;
      RefillSimulates(b, s, now);
      RefillTime(s, now);
      ServeSimulates(b, Refill(s, now), op);
      var (b', o) := Apply(b, op, now);
      var (s', p) := Serve(Refill(s, now), op);
      NextLimit(b, op, now);
      Refinement(b', s', ops[1..]);
      forall k | 0 <= k < |ops| ensures AgreeOn(b.limit, ops, RunBucket(b, ops).1, RunTextbook(s, ops).1, k) {
        if k > 0 {
          assert ops[1..][k - 1] == ops[k];
          assert AgreeOn(b'.limit, ops[1..], RunBucket(b', ops[1..]).1, RunTextbook(s', ops[1..]).1, k - 1);
        }
      }
    }
  }

  lemma RefillTime(s: Level, now: real)
    ensures Refill(s, now).last == now && Refill(s, now).limit == s.limit
  {
  }

  lemma NextLimit(b: Bucket, op: Op, now: real)
    ensures Apply(b, op, now).0.limit == if op.SetLimit? then op.limit else b.limit
  {
  }

  /** All answers of two runs agree. */
  ghost predicate SameAnswers(b1: Bucket, b2: Bucket, ops: seq<Timed>) {
    forall k | 0 <= k < |ops| :: AgreeOn(b1.limit, ops, RunBucket(b1, ops).1, RunBucket(b2, ops).1, k)
  }

  /**
   * Abstraction: from `now` on, the answers of two buckets under one limit agree in every run, that is, are
   * equal apart from the wait of a `try_consume` above the burst, exactly when their balances at `now` are equal.
   */
  lemma SameBalanceSameFuture(b1: Bucket, b2: Bucket, now: real)
    requires b1.limit == b2.limit
    ensures Held(b1, now) == Held(b2, now) <==> forall ops: seq<Timed> | Clocked(now, ops) :: SameAnswers(b1, b2, ops)
  {
    if Held(b1, now) == Held(b2, now) {
      var s := Level(Held(b1, now), now, b1.limit);
      forall ops: seq<Timed> | Clocked(now, ops) ensures SameAnswers(b1, b2, ops) {
        Refinement(b1, s, ops);
        Refinement(b2, s, ops);
        forall k | 0 <= k < |ops| ensures AgreeOn(b1.limit, ops, RunBucket(b1, ops).1, RunBucket(b2, ops).1, k) {
          assert AgreeOn(b1.limit, ops, RunBucket(b1, ops).1, RunTextbook(s, ops).1, k);
          assert AgreeOn(b1.limit, ops, RunBucket(b2, ops).1, RunTextbook(s, ops).1, k);
        }
      }
    } else {
      var probe := [At(GetBalance, now)];
      assert probe[1..] == [] && Clocked(now, probe[1..]);
      assert LimitAt(b1.limit, probe, 0) == b1.limit;
      assert !AgreeOn(b1.limit, probe, RunBucket(b1, probe).1, RunBucket(b2, probe).1, 0);
      assert !SameAnswers(b1, b2, probe);
    }
  }

  /**
   * Full abstraction: the answers are equal in every run, waits above the burst included, exactly when the
   * zero times are equal.
   */
  lemma SameZeroTimeSameFuture(b1: Bucket, b2: Bucket, now: real)
    requires b1.limit == b2.limit
    ensures b1.zeroTime == b2.zeroTime <==>
            forall ops: seq<Timed> | Clocked(now, ops) :: RunBucket(b1, ops).1 == RunBucket(b2, ops).1
  {
    if b1.zeroTime != b2.zeroTime {
      hide Held;
      var n: Positive := b1.limit.burst + 1.0;
      var probe := [At(TryConsume(n), now)];
      HeldCapped(b1, now);
      HeldCapped(b2, now);
      assert Clocked(now, probe) by { assert Clocked(now, probe[1..]); }
      assert RunBucket(b1, probe).1[0] == Tried(Err(b1.zeroTime - now + Seconds(b1.limit, n)));
      assert RunBucket(b2, probe).1[0] == Tried(Err(b2.zeroTime - now + Seconds(b2.limit, n)));
      assert RunBucket(b1, probe).1 != RunBucket(b2, probe).1;
    }
  }

  /**
   * A failing input for each zero time: under a burst of 10 every bucket full at time 0 holds 10 tokens, as the
   * textbook bucket does; asked for 50 it suggests a wait of `z + 50`, the textbook bucket one of 40.
   */
  lemma SameBalanceOtherHint(z: real)
    requires z <= -10.0
    ensures var b := Bucket(z, RawLimit(1.0, 10.0));
            Held(b, 0.0) == 10.0 && Apply(b, TryConsume(50.0), 0.0).1 == Tried(Err(z + 50.0))
    ensures Serve(Level(10.0, 0.0, RawLimit(1.0, 10.0)), TryConsume(50.0)).1 == Tried(Err(40.0))
  {
  }

  // ----- The ledger across limit changes -----

  /** Tokens debited by an operation, read off its outcome. */
  function Spent(op: Op, o: Outcome): real {
    match o
    case Tokens(t) => (if t.Some? then t.value else 0.0)
    case Tried(r) => (if r.Ok? then r.value else 0.0)
    case Borrowed(w) => (if w.Ok? && op.ConsumeWithBorrow? then op.n else 0.0)
    case _ => 0.0
  }

  /** What an operation spends is what the bucket loses. */
  lemma SpentIsPaid(b: Bucket, op: Op, now: real)
    requires !op.SetLimit? && !op.AddTokens? && !op.SaturatingConsumeWithBorrow?
    ensures var (b', o) := Apply(b, op, now); Held(b', now) == Held(b, now) - Spent(op, o)
  {
    hide Seconds, Earned, Balance, Held, Debit;
    if op.SaturatingConsume? {
      DebitLowersHeld(b, UpTo(op.n, Held(b, now)), now);
    } else if !op.GetBalance? && !op.GetAvailable? {
      DebitLowersHeld(b, op.n, now);
    }
  }

  /** Operations that never run into debt and return nothing. */
  predicate Plain(op: Op) {
    op.Consume? || op.TryConsume? || op.SaturatingConsume? || op.SetLimit? || op.GetBalance? || op.GetAvailable?
  }

  function TotalSpent(ops: seq<Timed>, os: seq<Outcome>): real
    requires |os| == |ops|
    decreases |ops|
  {
    if ops == [] then 0.0 else Spent(ops[0].op, os[0]) + TotalSpent(ops[1..], os[1..])
  }

  /** Tokens earned over a run: each stretch between operations at the rate then in force. */
  function TotalEarned(limit: Limit, last: real, ops: seq<Timed>): real
    decreases |ops|
  {
    if ops == [] then 0.0
    else
      Earned(limit, ops[0].now - last)
      + TotalEarned(if ops[0].op.SetLimit? then ops[0].op.limit else limit, ops[0].now, ops[1..])
  }

  /** A plain operation spends only what the bucket holds and never adds to it. */
  lemma PlainSpends(b: Bucket, last: real, op: Op, now: real)
    requires Plain(op) && last <= now
    ensures var (b', o) := Apply(b, op, now);
            && 0.0 <= Spent(op, o)
            && Held(b', now) + Spent(op, o) <= Held(b, last) + Earned(b.limit, now - last)
            && (Spent(op, o) > 0.0 || Held(b, last) >= 0.0 ==> Held(b', now) >= 0.0)
  {
    hide Seconds, Earned, Balance, Held, Debit;
    HeldGrows(b, last, now);
    if op.SetLimit? {
      SetLimitKeepsHeld(b, op.limit, now);
    } else if op.SaturatingConsume? {
      DebitLowersHeld(b, UpTo(op.n, Held(b, now)), now);
    } else if op.Consume? || op.TryConsume? {
      DebitLowersHeld(b, op.n, now);
    }
  }

  /**
   * Across any number of limit changes, the tokens granted and the balance left never exceed the starting
   * balance and what each epoch earned at its own rate.
   */
  lemma {:induction false} SpendingIsEarned(b: Bucket, last: real, ops: seq<Timed>)
    requires Clocked(last, ops) && forall k | 0 <= k < |ops| :: Plain(ops[k].op)
    ensures 0.0 <= TotalSpent(ops, RunBucket(b, ops).1)
    ensures TotalSpent(ops, RunBucket(b, ops).1) <= Max(Held(b, last) + TotalEarned(b.limit, last, ops), 0.0)
    ensures TotalSpent(ops, RunBucket(b, ops).1) <= b.limit.burst + TotalEarned(b.limit, last, ops)
    ensures 0.0 <= TotalEarned(b.limit, last, ops)
    decreases |ops|
  {
    hide Held, Apply, Earned, Spent, Plain;
    HeldCapped(b, last);
    if ops != [] {
      var op, now := ops[0].op, ops[0].now;
      var (b', o) := Apply(b, op, now);
      HeldGrows(b, last, now);
      PlainSpends(b, last, op, now);
      NextLimit(b, op, now);
      SpendingIsEarned(b', now, ops[1..]);
      assert RunBucket(b, ops).1[1..] == RunBucket(b', ops[1..]).1;
    }
  }

  /** Tokens lost up to an operation at `now`: to the cap while the clock ran, and to a limit with a smaller burst. */
  function Lost(b: Bucket, last: real, op: Op, now: real): real {
    Max(Held(b, last) + Earned(b.limit, now - last) - b.limit.burst, 0.0)
    + if op.SetLimit? then Max(Held(b, now) - op.limit.burst, 0.0) else 0.0
  }

  function TotalLost(b: Bucket, last: real, ops: seq<Timed>): real
    decreases |ops|
  {
    if ops == [] then 0.0
    else
      Lost(b, last, ops[0].op, ops[0].now)
      + TotalLost(Apply(b, ops[0].op, ops[0].now).0, ops[0].now, ops[1..])
  }

  function LastTime(last: real, ops: seq<Timed>): real {
    if ops == [] then last else ops[|ops| - 1].now
  }

  lemma StepLedger(b: Bucket, last: real, op: Op, now: real)
    requires Plain(op) && last <= now
    ensures var (b', o) := Apply(b, op, now);
            Held(b', now) + Spent(op, o) + Lost(b, last, op, now) == Held(b, last) + Earned(b.limit, now - last)
    ensures 0.0 <= Lost(b, last, op, now)
  {
    hide Earned, Held, Apply, Spent;
    HeldGrows(b, last, now);
    if op.SetLimit? {
      SetLimitKeepsHeld(b, op.limit, now);
      NothingSpent(b, op, now);
    } else {
      SpentIsPaid(b, op, now);
    }
  }

  lemma NothingSpent(b: Bucket, op: Op, now: real)
    requires op.SetLimit?
    ensures Spent(op, Apply(b, op, now).1) == 0.0
  {
  }

  /** The exact ledger across limit changes: what is held, spent and lost is what was held and earned. */
  lemma {:induction false} LedgerAcrossLimits(b: Bucket, last: real, ops: seq<Timed>)
    requires Clocked(last, ops) && forall k | 0 <= k < |ops| :: Plain(ops[k].op)
    ensures var (b', answers) := RunBucket(b, ops);
            Held(b', LastTime(last, ops)) + TotalSpent(ops, answers) + TotalLost(b, last, ops)
            == Held(b, last) + TotalEarned(b.limit, last, ops)
    ensures 0.0 <= TotalLost(b, last, ops)
    decreases |ops|
  {
    hide Held, Apply, Earned, Spent, Plain, Lost;
    if ops != [] {
      var op, now := ops[0].op, ops[0].now;
      var b' := Apply(b, op, now).0;
      StepLedger(b, last, op, now);
      NextLimit(b, op, now);
      LedgerAcrossLimits(b', now, ops[1..]);
      assert RunBucket(b, ops).1[1..] == RunBucket(b', ops[1..]).1;
      assert LastTime(now, ops[1..]) == LastTime(last, ops);
    }
  }
}
