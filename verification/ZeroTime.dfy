/** The arithmetic of a bucket whose whole state is its zero time. */
module ZeroTime {
  import opened Limits

  function Balance(l: Limit, z: real, now: real): real {
    Min(Earned(l, now - z), l.burst)
  }

  /** What `consume` asks for: all of it or nothing. */
  function AllOrNothing(n: real, available: real): real {
    if available < n then 0.0 else n
  }

  /** What `saturating_consume` asks for: as much as there is, up to `n`. */
  function UpTo(n: real, available: real): real {
    Min(Max(available, 0.0), n)
  }

  /** The zero time written after taking `consumed` tokens, as the CAS loop computes it. */
  function AfterTake(l: Limit, z: real, now: real, consumed: real): real {
    now - (Balance(l, z, now) - consumed) / l.rate
  }

  /** The zero time written after returning `tokens` (a borrow returns a negative number). */
  function AfterReturn(l: Limit, z: real, tokens: real): real {
    z - tokens / l.rate
  }

  /** The zero time of a bucket that is exactly full at `now`. */
  function FullAt(l: Limit, now: real): real {
    now - Seconds(l, l.burst)
  }

  /** The zero time after paying for `tokens` at `now`: capping drops what exceeds the burst first. */
  function Charged(l: Limit, z: real, now: real, tokens: real): real {
    Max(z, FullAt(l, now)) + Seconds(l, tokens)
  }

  lemma BalanceInSeconds(l: Limit, z: real, now: real)
    ensures Seconds(l, Balance(l, z, now)) == now - Max(z, FullAt(l, now))
  {
    SecondsToEarn(l, now - z);
    SecondsOrder(l, Earned(l, now - z), l.burst);
  }

  lemma TakeAdvancesClampedZeroTime(l: Limit, z: real, now: real, consumed: real)
    ensures AfterTake(l, z, now, consumed) == Charged(l, z, now, consumed)
  {
    BalanceInSeconds(l, z, now);
    SecondsAdd(l, Balance(l, z, now), consumed);
  }

  /** Covering a request is a statement about zero times alone. */
  lemma CoveredIff(l: Limit, z: real, now: real, n: real)
    ensures n <= Balance(l, z, now) <==> Charged(l, z, now, n) <= now
    ensures n <= l.burst ==> (n <= Balance(l, z, now) <==> z + Seconds(l, n) <= now)
  {
    BalanceInSeconds(l, z, now);
    SecondsOrder(l, Balance(l, z, now), n);
    SecondsOrder(l, l.burst, n);
  }

  lemma FullBefore(l: Limit, now: real)
    ensures FullAt(l, now) < now
  {
    SecondsOrder(l, 0.0, l.burst);
  }

  lemma EmptyIff(l: Limit, z: real, now: real)
    ensures Balance(l, z, now) <= 0.0 <==> now <= z
  {
    BalanceInSeconds(l, z, now);
    SecondsOrder(l, 0.0, Balance(l, z, now));
    SecondsAdd(l, 0.0, 0.0);
    FullBefore(l, now);
  }

  /** Taking everything there is leaves the bucket empty at the clock reading used. */
  lemma DrainedAtNow(l: Limit, z: real, now: real)
    ensures AfterTake(l, z, now, Balance(l, z, now)) == now
  {
  }
}
