/** One bucket used by one caller at a time: every operation as a function of the state and the clock reading. */
module Sequential {
  import opened Limits
  import opened ZeroTime

  datatype Bucket = Bucket(zeroTime: real, limit: Limit)

  datatype ExceededBurstCapacity = ExceededBurstCapacity

  datatype Op =
    | Consume(n: Positive)
    | TryConsume(n: Positive)
    | SaturatingConsume(n: Positive)
    | ConsumeWithBorrow(n: Positive)
    | SaturatingConsumeWithBorrow(n: Positive)
    | AddTokens(n: Positive)
    | SetLimit(limit: Limit)   // reset, update_limit
    | GetBalance
    | GetAvailable

  datatype Outcome =
    | Tokens(tokens: Option<real>)
    | Tried(result: Result<real, real>)   // the error is the suggested wait
    | Borrowed(wait: Result<Option<real>, ExceededBurstCapacity>)
    | BorrowedUpTo(borrowed: Option<real>, nap: real)
    | Nothing
    | Amount(amount: real)

  /** The balance at `now`: negative when in debt. */
  function Held(b: Bucket, now: real): real {
    Balance(b.limit, b.zeroTime, now)
  }

  /** The bucket after paying for `tokens` at `now`, running into debt if need be. */
  function Debit(b: Bucket, tokens: real, now: real): Bucket {
    b.(zeroTime := Charged(b.limit, b.zeroTime, now, tokens))
  }

  function Apply(b: Bucket, op: Op, now: real): (Bucket, Outcome) {
    match op
    case Consume(n) =>
      if Held(b, now) < n then (b, Tokens(None)) else (Debit(b, n, now), Tokens(Some(n)))
    case TryConsume(n) =>
      if Held(b, now) < n then (b, Tried(Err(b.zeroTime - now + Seconds(b.limit, n))))
      else (Debit(b, n, now), Tried(Ok(n)))
    case SaturatingConsume(n) =>
      var c := UpTo(n, Held(b, now));
      if c == 0.0 then (b, Tokens(None)) else (Debit(b, c, now), Tokens(Some(c)))
    case ConsumeWithBorrow(n) =>
      if b.limit.burst < n then (b, Borrowed(Err(ExceededBurstCapacity)))
      else
        var b' := Debit(b, n, now);
        (b', Borrowed(Ok(if b'.zeroTime <= now then None else Some(b'.zeroTime - now))))
    case SaturatingConsumeWithBorrow(n) =>
      var c := Min(n, b.limit.burst);
      var b' := Debit(b, c, now);
      (b', if b'.zeroTime <= now then BorrowedUpTo(None, 0.0) else BorrowedUpTo(Some(c), b'.zeroTime - now))
    case AddTokens(n) => (b.(zeroTime := b.zeroTime - Seconds(b.limit, n)), Nothing)
    case SetLimit(limit) => (Bucket(now - Seconds(limit, Held(b, now)), limit), Nothing)
    case GetBalance => (b, Amount(Held(b, now)))
    case GetAvailable => (b, Amount(Max(Held(b, now), 0.0)))
  }

  /** Paying lowers the balance at `now` by exactly the price. */
  lemma DebitLowersHeld(b: Bucket, tokens: real, now: real)
    requires 0.0 <= tokens
    ensures Held(Debit(b, tokens, now), now) == Held(b, now) - tokens
    ensures Debit(b, tokens, now).zeroTime - now == Seconds(b.limit, tokens - Held(b, now))
    ensures Debit(b, tokens, now).zeroTime <= now <==> tokens <= Held(b, now)
  {
    hide Earned, Seconds, Balance;
    var l, b' := b.limit, Debit(b, tokens, now);
    BalanceInSeconds(l, b.zeroTime, now);
    BalanceInSeconds(l, b'.zeroTime, now);
    SecondsOrder(l, 0.0, tokens);
    SecondsAdd(l, 0.0, 0.0);
    SecondsAdd(l, Held(b, now), tokens);
    SecondsAdd(l, tokens, Held(b, now));
    SecondsOrder(l, Held(b', now), Held(b, now) - tokens);
    SecondsOrder(l, Held(b, now), tokens);
  }

  /** Adding tokens is capped by the burst and needs no clock reading. */
  lemma AddRaisesHeld(b: Bucket, n: Positive, now: real)
    ensures Held(Apply(b, AddTokens(n), now).0, now) == Min(Held(b, now) + n, b.limit.burst)
  {
    hide Earned, Seconds;
    EarnedAdd(b.limit, now - b.zeroTime, Seconds(b.limit, n));
    EarnedInSeconds(b.limit, n);
  }

  /** A change of limit keeps the balance, debt included, as far as the new burst allows. */
  lemma SetLimitKeepsHeld(b: Bucket, limit: Limit, now: real)
    ensures Held(Apply(b, SetLimit(limit), now).0, now) == Min(Held(b, now), limit.burst)
    ensures Held(Apply(b, SetLimit(limit), now).0, now) == Held(b, now) <==> Held(b, now) <= limit.burst
  {
    hide Earned, Seconds, Balance;
    EarnedInSeconds(limit, Held(b, now));
    BalanceIsCapped(limit, now - Seconds(limit, Held(b, now)), now);
  }

  /** The balance after the change stands to the new burst as the balance before stood to the old one. */
  predicate KeepsProportion(b: Bucket, limit: Limit, now: real) {
    Held(Apply(b, SetLimit(limit), now).0, now) * b.limit.burst == Held(b, now) * limit.burst
  }

  /**
   * The balance is not maintained proportionally, as documented, but for an empty bucket, an unchanged burst,
   * and a full bucket whose burst shrinks.
   */
  lemma ProportionalIff(b: Bucket, limit: Limit, now: real)
    ensures KeepsProportion(b, limit, now) <==>
            || Held(b, now) == 0.0
            || limit.burst == b.limit.burst
            || (Held(b, now) == b.limit.burst && limit.burst <= b.limit.burst)
  {
    hide Earned, Seconds, Balance, Apply, Held;
    SetLimitKeepsHeld(b, limit, now);
    HeldCapped(b, now);
    Proportion(Held(b, now), b.limit.burst, limit.burst);
  }

  lemma Proportion(h: real, before: real, after: real)
    requires h <= before && 0.0 < after
    ensures Min(h, after) * before == h * after <==>
            h == 0.0 || after == before || (h == before && after <= before)
  {
    SameProduct(h, before, after);
    SameProduct(after, before, h);
  }

  lemma SameProduct(a: real, x: real, y: real)
    ensures a * x == a * y <==> a == 0.0 || x == y
    ensures a * y == y * a
  {
    if a * x == a * y && a != 0.0 {
      assert x == (a * x) / a && y == (a * y) / a;
    }
  }

  lemma HeldCapped(b: Bucket, now: real)
    ensures Held(b, now) <= b.limit.burst
  {
  }

  /** Half full under a burst of 10, a bucket is a quarter full when its burst is raised to 20. */
  lemma NotProportional()
    ensures var b, limit := Bucket(-5.0, RawLimit(1.0, 10.0)), RawLimit(1.0, 20.0);
            && Held(b, 0.0) == 5.0
            && Held(Apply(b, SetLimit(limit), 0.0).0, 0.0) == 5.0
            && !KeepsProportion(b, limit, 0.0)
  {
    assert Held(Bucket(-5.0, RawLimit(1.0, 10.0)), 0.0) == 5.0;
    SetLimitKeepsHeld(Bucket(-5.0, RawLimit(1.0, 10.0)), RawLimit(1.0, 20.0), 0.0);
  }

  lemma BalanceIsCapped(l: Limit, z: real, now: real)
    ensures Balance(l, z, now) == Min(Earned(l, now - z), l.burst)
  {
  }

  /** Between operations the balance grows at the rate, up to the burst. */
  lemma HeldGrows(b: Bucket, last: real, now: real)
    requires last <= now
    ensures Held(b, now) == Min(Held(b, last) + Earned(b.limit, now - last), b.limit.burst)
    ensures 0.0 <= Earned(b.limit, now - last)
  {
    hide Earned, Seconds, Balance;
    BalanceIsCapped(b.limit, b.zeroTime, now);
    BalanceIsCapped(b.limit, b.zeroTime, last);
    EarnedAdd(b.limit, last - b.zeroTime, now - last);
    SecondsToEarn(b.limit, now - last);
    SecondsOrder(b.limit, Earned(b.limit, now - last), 0.0);
    SecondsAdd(b.limit, 0.0, 0.0);
  }

  predicate Grants(b: Bucket, n: Positive, now: real) {
    Apply(b, TryConsume(n), now).1 == Tried(Ok(n))
  }

  function Hint(b: Bucket, n: Positive, now: real): real
    requires !Grants(b, n, now)
  {
    Apply(b, TryConsume(n), now).1.result.error
  }

  /**
   * The retry hint of a refused `try_consume`. Retrying after the hinted wait succeeds exactly when the
   * burst covers the request; then the wait is positive and retrying succeeds from that moment on and never
   * before. A request above the burst is refused at all times.
   */
  lemma RetryHint(b: Bucket, n: Positive, now: real)
    requires !Grants(b, n, now)
    ensures Grants(b, n, now + Hint(b, n, now)) <==> n <= b.limit.burst
    ensures n <= b.limit.burst ==> Hint(b, n, now) > 0.0
    ensures n <= b.limit.burst ==> forall t: real :: Grants(b, n, t) <==> now + Hint(b, n, now) <= t
    ensures n > b.limit.burst ==> forall t: real :: !Grants(b, n, t)
  {
    hide Earned, Seconds, Balance, Debit;
    CoveredIff(b.limit, b.zeroTime, now, n);
    forall t: real
      ensures n <= b.limit.burst ==> (Grants(b, n, t) <==> now + Hint(b, n, now) <= t)
      ensures n > b.limit.burst ==> !Grants(b, n, t)
    {
      CoveredIff(b.limit, b.zeroTime, t, n);
      BalanceIsCapped(b.limit, b.zeroTime, t);
    }
  }

  /**
   * The hint is negative, against the source's assertion, exactly for a request above the burst and below what
   * the bucket would hold without its cap.
   */
  lemma HintNegativeIff(b: Bucket, n: Positive, now: real)
    requires !Grants(b, n, now)
    ensures Hint(b, n, now) < 0.0 <==> n > b.limit.burst && n < Earned(b.limit, now - b.zeroTime)
  {
    hide Earned, Seconds, Balance, Debit;
    CoveredIff(b.limit, b.zeroTime, now, n);
    SecondsToEarn(b.limit, now - b.zeroTime);
    SecondsOrder(b.limit, n, Earned(b.limit, now - b.zeroTime));
  }

  /** A concrete instance: a bucket with burst 10, full for 90 seconds, is asked for 50 tokens. */
  lemma NegativeHint()
    ensures var b := Bucket(-100.0, RawLimit(1.0, 10.0));
            !Grants(b, 50.0, 0.0) && Hint(b, 50.0, 0.0) == -50.0
  {
  }

  /** The capped call behaves as the uncapped one on the capped request. */
  lemma CappedBorrow(b: Bucket, n: Positive, now: real)
    ensures var c := Min(n, b.limit.burst);
            var capped, plain := Apply(b, SaturatingConsumeWithBorrow(n), now), Apply(b, ConsumeWithBorrow(c), now);
            && capped.0 == plain.0
            && plain.1.wait.Ok?
            && (plain.1.wait.value.None? ==> capped.1 == BorrowedUpTo(None, 0.0))
            && (plain.1.wait.value.Some? ==>
                  capped.1 == BorrowedUpTo(Some(c), plain.1.wait.value.value) && capped.1.nap > 0.0)
  {
  }
}
