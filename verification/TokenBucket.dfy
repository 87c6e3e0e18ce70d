/** The public bucket types. Every operation is tied to the sequential specification of the same name. */
module TokenBuckets {
  import opened Limits
  import opened ZeroTime
  import opened Storage
  import Sequential

  type State = Sequential.Bucket

  class RawTokenBucket {
    const bucket: TokenBucketStorage

    constructor (datum: real, policy: Policy, spurious: nat)
      ensures fresh(bucket) && fresh(bucket.inner) && bucket.inner.policy == policy
      ensures bucket.inner.value == datum
    {
      var cell := new TimeCell(policy, datum, spurious);
      var storage := new TokenBucketStorage(cell);
      bucket := storage;
    }

    ghost function Under(l: Limit): State
      reads bucket.inner
    {
      Sequential.Bucket(bucket.inner.value, l)
    }

    method GetZeroTime() returns (z: real)
      ensures z == bucket.inner.value
    {
      z := bucket.inner.Load();
    }

    method SetCapacity(tokens: real, now: real, rate: real)
      requires rate > 0.0
      modifies bucket.inner
      ensures bucket.inner.value == now - tokens / rate
    {
      bucket.Reset(now - tokens / rate);
    }

    method Consume(n: Positive, now: real, l: Limit) returns (r: Option<real>)
      modifies bucket.inner
      ensures (Under(l), Sequential.Tokens(r)) == Sequential.Apply(old(Under(l)), Sequential.Consume(n), now)
    {
      var consumed := bucket.Consume(l, now, avail => AllOrNothing(n, avail));
      r := if consumed == 0.0 then None else Some(consumed);
    }

    method TryConsume(n: Positive, now: real, l: Limit) returns (r: Result<real, real>)
      modifies bucket.inner
      ensures (Under(l), Sequential.Tried(r)) == Sequential.Apply(old(Under(l)), Sequential.TryConsume(n), now)
    {
      var consumed := bucket.Consume2(l, now, avail => AllOrNothing(n, avail));
      match consumed
      case Acquired(tokens) => r := Ok(tokens);
      case ZeroedAt(zeroTime) => r := Err(zeroTime - now + n / l.rate);
    }

    method SaturatingConsume(n: Positive, now: real, l: Limit) returns (r: Option<real>)
      modifies bucket.inner
      ensures (Under(l), Sequential.Tokens(r)) == Sequential.Apply(old(Under(l)), Sequential.SaturatingConsume(n), now)
    {
      var consumed := SaturatingConsumeInner(n, now, l);
      r := if consumed == 0.0 then None else Some(consumed);
    }

    method SaturatingConsumeInner(toConsume: real, now: real, l: Limit) returns (consumed: real)
      modifies bucket.inner
      ensures consumed == UpTo(toConsume, Balance(l, old(bucket.inner.value), now))
      ensures bucket.inner.value == Paid(l, old(bucket.inner.value), now, consumed)
    {
      consumed := bucket.Consume(l, now, avail => UpTo(toConsume, avail));
    }

    method AddTokens(tokens: Positive, l: Limit)
      modifies bucket.inner
      ensures forall now: real :: Under(l) == Sequential.Apply(old(Under(l)), Sequential.AddTokens(tokens), now).0
    {
      var _ := bucket.ReturnTokens(tokens, l);
    }

    /**
     * Pays for `asked` tokens in pieces: takes what there is, and when nothing is left borrows the rest.
     */
    method PayOrBorrow(asked: Positive, now: real, l: Limit) returns (borrowed: bool, napTime: real)
      modifies bucket.inner
      ensures Under(l) == Sequential.Debit(old(Under(l)), asked, now)
      ensures borrowed <==> now < bucket.inner.value
      ensures napTime == Max(bucket.inner.value - now, 0.0)
    {
      var toConsume: real := asked;
      ghost var z0 := bucket.inner.value;
      while toConsume > 0.0
        invariant 0.0 <= toConsume <= asked
        invariant toConsume == asked ==> bucket.inner.value == z0
        invariant toConsume < asked ==>
                    bucket.inner.value == Charged(l, z0, now, asked - toConsume) <= now
        invariant 0.0 < toConsume < asked ==> bucket.inner.value == now
        decreases if toConsume == asked then 2 else if toConsume > 0.0 then 1 else 0
      {
        var z, remaining := bucket.inner.value, toConsume;
        var consumed := SaturatingConsumeInner(toConsume, now, l);
        EmptyIff(l, z, now);
        if consumed > 0.0 {
          TakePiece(l, z, now, remaining, consumed);
          toConsume := toConsume - consumed;
        } else {
          var _ := bucket.ReturnTokens(0.0 - toConsume, l);
          var debtPaid := bucket.TimeWhenBucket(l, 0.0);
          BorrowRest(l, z0, z, now, asked, remaining);
          return true, Max(debtPaid - now, 0.0);
        }
      }
      return false, 0.0;
    }

    method ConsumeWithBorrow(n: Positive, now: real, l: Limit)
      returns (r: Result<Option<real>, Sequential.ExceededBurstCapacity>)
      modifies bucket.inner
      ensures (Under(l), Sequential.Borrowed(r)) ==
              Sequential.Apply(old(Under(l)), Sequential.ConsumeWithBorrow(n), now)
    {
      if l.burst < n {
        return Err(Sequential.ExceededBurstCapacity);
      }
      var borrowed, napTime := PayOrBorrow(n, now, l);
      r := Ok(if borrowed && napTime > 0.0 then Some(napTime) else None);
    }

    method SaturatingConsumeWithBorrow(n: Positive, now: real, l: Limit) returns (tokens: Option<real>, nap: real)
      modifies bucket.inner
      ensures (Under(l), Sequential.BorrowedUpTo(tokens, nap)) ==
              Sequential.Apply(old(Under(l)), Sequential.SaturatingConsumeWithBorrow(n), now)
    {
      var toBeConsumed: Positive := Min(n, l.burst);
      var borrowed, napTime := PayOrBorrow(toBeConsumed, now, l);
      tokens, nap := None, 0.0;
      if borrowed {
        tokens, nap := Some(toBeConsumed), napTime;
      }
    }

    method BalanceAt(time: real, l: Limit) returns (r: real)
      ensures r == Sequential.Held(Under(l), time)
    {
      r := bucket.GetBalance(l, time);
    }

    method Available(now: real, l: Limit) returns (r: real)
      ensures r == Max(Sequential.Held(Under(l), now), 0.0)
    {
      var balance := BalanceAt(now, l);
      r := Max(balance, 0.0);
    }
  }

  /** A bucket with its own limit. The clock reading of each call is its parameter `now`. */
  class TokenBucket {
    const raw: RawTokenBucket
    var limit: Limit

    constructor (limit: Limit, raw: RawTokenBucket)
      ensures this.limit == limit && this.raw == raw
    {
      this.limit := limit;
      this.raw := raw;
    }

    constructor WithZeroTime(limit: Limit, zeroTime: real, policy: Policy, spurious: nat)
      ensures fresh(raw) && fresh(raw.bucket) && fresh(raw.bucket.inner)
      ensures Contents() == Sequential.Bucket(zeroTime, limit)
    {
      this.limit := limit;
      raw := new RawTokenBucket(zeroTime, policy, spurious);
    }

    ghost function Contents(): State
      reads this, raw.bucket.inner
    {
      raw.Under(limit)
    }

    method GetZeroTime() returns (z: real)
      ensures z == Contents().zeroTime
    {
      z := raw.GetZeroTime();
    }

    method Reset(newLimit: Limit, now: real)
      modifies this, raw.bucket.inner
      ensures Contents() == Sequential.Apply(old(Contents()), Sequential.SetLimit(newLimit), now).0
    {
      var available := raw.BalanceAt(now, limit);
      limit := newLimit;
      raw.SetCapacity(available, now, newLimit.rate);
    }

    /** Gives the same storage a new owner with a new limit; the source consumes the old owner. */
    method UpdateLimit(newLimit: Limit, now: real) returns (b: TokenBucket)
      modifies raw.bucket.inner
      ensures fresh(b) && b.raw == raw
      ensures b.Contents() == Sequential.Apply(old(Contents()), Sequential.SetLimit(newLimit), now).0
    {
      var available := raw.BalanceAt(now, limit);
      b := new TokenBucket(newLimit, raw);
      b.raw.SetCapacity(available, now, b.limit.rate);
    }

    method Consume(n: Positive, now: real) returns (r: Option<real>)
      modifies raw.bucket.inner
      ensures (Contents(), Sequential.Tokens(r)) == Sequential.Apply(old(Contents()), Sequential.Consume(n), now)
    {
      r := raw.Consume(n, now, limit);
    }

    method TryConsume(n: Positive, now: real) returns (r: Result<real, real>)
      modifies raw.bucket.inner
      ensures (Contents(), Sequential.Tried(r)) == Sequential.Apply(old(Contents()), Sequential.TryConsume(n), now)
    {
      r := raw.TryConsume(n, now, limit);
    }

    method SaturatingConsume(n: Positive, now: real) returns (r: Option<real>)
      modifies raw.bucket.inner
      ensures (Contents(), Sequential.Tokens(r)) ==
              Sequential.Apply(old(Contents()), Sequential.SaturatingConsume(n), now)
    {
      r := raw.SaturatingConsume(n, now, limit);
    }

    method AddTokens(tokens: Positive)
      modifies raw.bucket.inner
      ensures forall now: real :: Contents() == Sequential.Apply(old(Contents()), Sequential.AddTokens(tokens), now).0
    {
      raw.AddTokens(tokens, limit);
    }

    method ConsumeWithBorrow(n: Positive, now: real)
      returns (r: Result<Option<real>, Sequential.ExceededBurstCapacity>)
      modifies raw.bucket.inner
      ensures (Contents(), Sequential.Borrowed(r)) ==
              Sequential.Apply(old(Contents()), Sequential.ConsumeWithBorrow(n), now)
    {
      r := raw.ConsumeWithBorrow(n, now, limit);
    }

    method SaturatingConsumeWithBorrow(n: Positive, now: real) returns (tokens: Option<real>, nap: real)
      modifies raw.bucket.inner
      ensures (Contents(), Sequential.BorrowedUpTo(tokens, nap)) ==
              Sequential.Apply(old(Contents()), Sequential.SaturatingConsumeWithBorrow(n), now)
    {
      tokens, nap := raw.SaturatingConsumeWithBorrow(n, now, limit);
    }

    method GetBalance(now: real) returns (r: real)
      ensures r == Sequential.Held(Contents(), now)
    {
      r := raw.BalanceAt(now, limit);
    }

    method GetAvailable(now: real) returns (r: real)
      ensures r == Max(Sequential.Held(Contents(), now), 0.0)
    {
      r := raw.Available(now, limit);
    }
  }

  /** A restart: a bucket rebuilt from the zero time of another, under the same limit, has the same contents. */
  method Restart(b: TokenBucket, policy: Policy, spurious: nat) returns (copy: TokenBucket)
    ensures fresh(copy) && fresh(copy.raw.bucket.inner)
    ensures copy.Contents() == b.Contents()
  {
    var z := b.GetZeroTime();
    copy := new TokenBucket.WithZeroTime(b.limit, z, policy, spurious);
  }

  lemma TakePiece(l: Limit, z: real, now: real, remaining: Positive, consumed: real)
    requires consumed == UpTo(remaining, Balance(l, z, now)) && 0.0 < consumed
    ensures Paid(l, z, now, consumed) <= now
    ensures consumed < remaining ==> Paid(l, z, now, consumed) == now
  {
    hide Seconds, Earned, Balance, FullAt;
    CoveredIff(l, z, now, consumed);
    BalanceInSeconds(l, z, now);
  }

  lemma BorrowRest(l: Limit, z0: real, z: real, now: real, asked: Positive, remaining: Positive)
    requires now <= z
    requires if remaining == asked then z == z0 else z == Charged(l, z0, now, asked - remaining)
    ensures z - Seconds(l, 0.0 - remaining) == Charged(l, z0, now, asked)
    ensures now < z - Seconds(l, 0.0 - remaining)
  {
    hide Seconds, Earned;
    FullBefore(l, now);
    SecondsAdd(l, asked, remaining);
    SecondsAdd(l, 0.0, remaining);
    SecondsOrder(l, 0.0, remaining);
    SecondsAdd(l, 0.0, 0.0);
  }
}
