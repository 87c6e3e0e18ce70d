/** Rate limits, token amounts and the conversion between tokens and seconds. */
module Limits {

  datatype Option<+T> = None | Some(value: T)

  datatype Result<+T, +E> = Ok(value: T) | Err(error: E)

  function Min(a: real, b: real): real {
    if a <= b then a else b
  }

  function Max(a: real, b: real): real {
    if a >= b then a else b
  }

  /** A requested number of tokens. The source passes a `NonZeroU32` cast to a float, or a positive float. */
  type Positive = r: real | r > 0.0 witness 1.0

  datatype RawLimit = RawLimit(rate: real, burst: real)

  /** Every public constructor of a limit yields a positive rate and a burst of at least one token. */
  type Limit = l: RawLimit | l.rate > 0.0 && l.burst >= 1.0 witness RawLimit(1.0, 1.0)

  /** The time the bucket needs to earn `tokens`. */
  function Seconds(l: Limit, tokens: real): real {
    tokens / l.rate
  }

  /** The tokens the bucket earns in `t` seconds. */
  function Earned(l: Limit, t: real): real {
    t * l.rate
  }

  lemma EarnedInSeconds(l: Limit, tokens: real)
    ensures Earned(l, Seconds(l, tokens)) == tokens
  {
  }

  lemma SecondsToEarn(l: Limit, t: real)
    ensures Seconds(l, Earned(l, t)) == t
  {
  }

  lemma SecondsAdd(l: Limit, a: real, b: real)
    ensures Seconds(l, a + b) == Seconds(l, a) + Seconds(l, b)
    ensures Seconds(l, a - b) == Seconds(l, a) - Seconds(l, b)
  {
  }

  lemma EarnedAdd(l: Limit, a: real, b: real)
    ensures Earned(l, a + b) == Earned(l, a) + Earned(l, b)
    ensures Earned(l, a - b) == Earned(l, a) - Earned(l, b)
  {
  }

  lemma SecondsOrder(l: Limit, a: real, b: real)
    ensures a < b <==> Seconds(l, a) < Seconds(l, b)
    ensures a == b <==> Seconds(l, a) == Seconds(l, b)
  {
    EarnedInSeconds(l, a);
    EarnedInSeconds(l, b);
  }
}
