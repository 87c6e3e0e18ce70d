/** The storage of a bucket: one cell holding the zero time, and the retry loops over it. */
module Storage {
  import opened Limits
  import opened ZeroTime

  /** The two ways a cell compares and exchanges. */
  datatype Policy = Atomic | Local

  /**
   * A cell holding the zero time. An atomic cell stores on a match, but may fail spuriously; `spurious` is
   * how often it still will. A local cell always stores.
   */
  class TimeCell {
    const policy: Policy
    var value: real
    var spurious: nat

    constructor (policy: Policy, zeroTime: real, spurious: nat)
      ensures this.policy == policy && value == zeroTime && this.spurious == spurious
    {
      this.policy := policy;
      this.value := zeroTime;
      this.spurious := spurious;
    }

    method Load() returns (r: real)
      ensures r == value
    {
      r := value;
    }

    method Store(v: real)
      modifies this
      ensures value == v && spurious == old(spurious)
    {
      value := v;
    }

    method CompareExchangeWeak(current: real, v: real) returns (r: Result<(), real>)
      modifies this
      ensures r.Ok? ==> value == v && spurious == old(spurious)
      ensures r.Ok? ==> policy.Local? || old(value) == current
      ensures r.Err? ==> policy.Atomic? && r.error == value == old(value) && spurious <= old(spurious)
      ensures r.Err? && value == current ==> spurious < old(spurious)
    {
      if policy.Local? {
        value := v;
        return Ok(());
      }
      if value != current {
        return Err(value);
      }
      if spurious > 0 {
        if * {
          spurious := spurious - 1;
          return Err(value);
        }
      }
      value := v;
      r := Ok(());
    }
  }

  datatype TokenAcquisition = Acquired(tokens: real) | ZeroedAt(zeroTime: real)

  /** The zero time after consuming `consumed` tokens at `now`: unchanged if none were consumed. */
  function Paid(l: Limit, z: real, now: real, consumed: real): real {
    if consumed == 0.0 then z else Charged(l, z, now, consumed)
  }

  class TokenBucketStorage {
    const inner: TimeCell

    constructor (inner: TimeCell)
      ensures this.inner == inner
    {
      this.inner := inner;
    }

    method Reset(zeroTime: real)
      modifies inner
      ensures inner.value == zeroTime
    {
      inner.Store(zeroTime);
    }

    method GetBalance(l: Limit, now: real) returns (r: real)
      ensures r == Balance(l, inner.value, now)
    {
      var zt := inner.Load();
      r := Min((now - zt) * l.rate, l.burst);
    }

    /** The callback is given the tokens available and returns the number to consume. */
    method Consume(l: Limit, now: real, f: real -> real) returns (consumed: real)
      modifies inner
      ensures consumed == f(Balance(l, old(inner.value), now))
      ensures inner.value == Paid(l, old(inner.value), now, consumed)
    {
      var zeroTimeOld := inner.Load();
      while true
        invariant zeroTimeOld == inner.value == old(inner.value)
        decreases inner.spurious
      {
        var available := Balance(l, zeroTimeOld, now);
        consumed := f(available);
        if consumed == 0.0 {
          return 0.0;
        }
        var tokensNew := available - consumed;
        var zeroTimeNew := now - tokensNew / l.rate;
        assert zeroTimeNew == Paid(l, zeroTimeOld, now, consumed) by {
          TakeAdvancesClampedZeroTime(l, zeroTimeOld, now, consumed);
        }
        var exchanged := inner.CompareExchangeWeak(zeroTimeOld, zeroTimeNew);
        match exchanged
        case Ok(_) => return consumed;
        case Err(actual) => zeroTimeOld := actual;
      }
    }

    /** As `Consume`, but reports the zero time read when nothing is consumed. */
    method Consume2(l: Limit, now: real, f: real -> real) returns (r: TokenAcquisition)
      modifies inner
      ensures var consumed := f(Balance(l, old(inner.value), now));
              && inner.value == Paid(l, old(inner.value), now, consumed)
              && r == if consumed == 0.0 then ZeroedAt(old(inner.value)) else Acquired(consumed)
    {
      var zeroTimeOld := inner.Load();
      while true
        invariant zeroTimeOld == inner.value == old(inner.value)
        decreases inner.spurious
      {
        var available := Balance(l, zeroTimeOld, now);
        var consumed := f(available);
        if consumed == 0.0 {
          return ZeroedAt(zeroTimeOld);
        }
        var tokensNew := available - consumed;
        var zeroTimeNew := now - tokensNew / l.rate;
        assert zeroTimeNew == Paid(l, zeroTimeOld, now, consumed) by {
          TakeAdvancesClampedZeroTime(l, zeroTimeOld, now, consumed);
        }
        var exchanged := inner.CompareExchangeWeak(zeroTimeOld, zeroTimeNew);
        match exchanged
        case Ok(_) => return Acquired(consumed);
        case Err(actual) => zeroTimeOld := actual;
      }
    }

    /** Returns tokens; a negative number borrows from the future. */
    method ReturnTokens(tokens: real, l: Limit) returns (zeroTimeNew: real)
      modifies inner
      ensures inner.value == zeroTimeNew == old(inner.value) - Seconds(l, tokens)
    {
      var zeroTimeOld := inner.Load();
      while true
        invariant zeroTimeOld == inner.value == old(inner.value)
        decreases inner.spurious
      {
        zeroTimeNew := zeroTimeOld - tokens / l.rate;
        var exchanged := inner.CompareExchangeWeak(zeroTimeOld, zeroTimeNew);
        match exchanged
        case Ok(_) => return;
        case Err(actual) => zeroTimeOld := actual;
      }
    }

    method TimeWhenBucket(l: Limit, target: real) returns (r: real)
      ensures r == inner.value + Seconds(l, target)
    {
      var zt := inner.Load();
      r := zt + target / l.rate;
    }
  }
}
