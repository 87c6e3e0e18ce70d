/** What a throttled stream delivers, in which order, and when. */
module Delivery {
  import opened Limits
  import opened ZeroTime
  import opened TokenBuckets
  import opened WeightedStreams
  import Sequential

  // ----- Integrity over every sequence of polls -----

  /** A poll, and the state in which it finds the bucket: anyone may use the bucket between polls. */
  datatype Polled = Polled(input: Input, bucket: State)

  function PollAll<T>(s: Stream<T>, weight: T -> Positive, polls: seq<Polled>): (Stream<T>, seq<Poll<T>>)
    ensures |PollAll(s, weight, polls).1| == |polls|
    decreases |polls|
  {
    if polls == [] then (s, [])
    else
      var step := PollStep(s, polls[0].bucket, weight, polls[0].input);
      var (s', answers) := PollAll(step.0, weight, polls[1..]);
      (s', [step.2] + answers)
  }

  function Item<T>(p: Poll<T>): seq<T> {
    if p.Ready? && p.item.Some? then [p.item.value] else []
  }

  function Yielded<T>(answers: seq<Poll<T>>): seq<T> {
    if answers == [] then [] else Item(answers[0]) + Yielded(answers[1..])
  }

  function Staged<T>(s: Stream<T>): seq<T> {
    if s.pendingItem.Some? then [s.pendingItem.value] else []
  }

  /** A timer runs exactly while an item is held back. */
  predicate Paired<T>(s: Stream<T>) {
    s.delay.Some? <==> s.pendingItem.Some?
  }

  /**
   * One poll. Only an item heavier than the burst makes it panic, and while an item is held back nothing
   * is pulled and nothing is paid.
   */
  lemma OnePoll<T>(s: Stream<T>, b: State, weight: T -> Positive, i: Input)
    requires Paired(s)
    ensures var (s', b', answer) := PollStep(s, b, weight, i);
            && Paired(s')
            && (!answer.Panicked? ==> Item(answer) + Staged(s') + s'.rest == Staged(s) + s.rest)
            && (answer.Panicked? <==>
                  && i.proceed && i.sourceReady && s.pendingItem.None? && s.rest != []
                  && b.limit.burst < weight(s.rest[0]))
            && (s.pendingItem.Some? ==> s'.rest == s.rest && b' == b)
  {
  }

  /** The poll pulls an item. */
  predicate Pulls<T>(s: Stream<T>, i: Input) {
    i.proceed && s.pendingItem.None? && i.sourceReady && s.rest != []
  }

  /**
   * Every answer of a poll, and what it does to the bucket, in terms of what the bucket holds. The stream ends
   * only when nothing is held back and the source is drained. An item held back is delivered when its timer has
   * fired, whether or not the source is ready; an item pulled is delivered at once exactly when the bucket holds
   * its weight, and is otherwise held back for the time to earn what is missing.
   */
  lemma PollAnswers<T>(s: Stream<T>, b: State, weight: T -> Positive, i: Input)
    requires Paired(s)
    ensures var (s', b', answer) := PollStep(s, b, weight, i);
            && (answer == Ready(None) <==> i.proceed && s.pendingItem.None? && i.sourceReady && s.rest == [])
            && (s.pendingItem.Some? ==>
                  (answer == Ready(s.pendingItem) <==> i.proceed && i.timerFired)
                  && (answer == Pending && s' == s <==> !(i.proceed && i.timerFired)))
            && (s.pendingItem.None? ==>
                  (Item(answer) != [] <==>
                    Pulls(s, i) && weight(s.rest[0]) <= Sequential.Held(b, i.now)))
            && (!Pulls(s, i) ==> b' == b && s'.rest == s.rest && (s.pendingItem.None? ==> s' == s))
            && (Pulls(s, i) ==>
                  && s'.rest == s.rest[1..]
                  && var w := weight(s.rest[0]);
                     if b.limit.burst < w then answer.Panicked? && b' == b && s'.pendingItem.None?
                     else
                       && b'.limit == b.limit && Sequential.Held(b', i.now) == Sequential.Held(b, i.now) - w
                       && (s'.pendingItem.Some? ==>
                             s'.delay == Some(i.armed + Seconds(b.limit, w - Sequential.Held(b, i.now)))))
  {
    hide Seconds, Earned, Balance, Sequential.Held, Charged;
    if s.rest != [] {
      Sequential.DebitLowersHeld(b, weight(s.rest[0]), i.now);
      Sequential.HeldCapped(b, i.now);
    }
  }

  /** Stream integrity: delivered, held back and not yet pulled items are always the source, in order. */
  lemma {:induction false} Integrity<T>(s: Stream<T>, weight: T -> Positive, polls: seq<Polled>)
    requires Paired(s)
    requires forall k | 0 <= k < |polls| :: !PollAll(s, weight, polls).1[k].Panicked?
    ensures var (s', answers) := PollAll(s, weight, polls);
            Paired(s') && Yielded(answers) + Staged(s') + s'.rest == Staged(s) + s.rest
    decreases |polls|
  {
    hide PollStep, Staged, Item;
    if polls != [] {
      var step := PollStep(s, polls[0].bucket, weight, polls[0].input);
      var tail := PollAll(step.0, weight, polls[1..]);
      OnePoll(s, polls[0].bucket, weight, polls[0].input);
      assert PollAll(s, weight, polls).1[0] == step.2;
      assert forall k | 0 <= k < |polls| - 1 :: tail.1[k] == PollAll(s, weight, polls).1[k + 1];
      Integrity(step.0, weight, polls[1..]);
      assert PollAll(s, weight, polls).1[1..] == tail.1;
      assert Item(step.2) + Yielded(tail.1) + Staged(tail.0) + tail.0.rest
          == Item(step.2) + (Yielded(tail.1) + Staged(tail.0) + tail.0.rest);
    }
  }

  lemma DrainedAtEnd<T>(s: Stream<T>, b: State, weight: T -> Positive, i: Input)
    requires Paired(s)
    ensures PollStep(s, b, weight, i).2 == Ready(None) ==> Staged(s) == [] && s.rest == []
  {
  }

  /** A stream that reports its end has delivered everything it was given. */
  lemma {:induction false} EndMeansDelivered<T>(s: Stream<T>, weight: T -> Positive, polls: seq<Polled>, k: nat)
    requires Paired(s) && k < |polls| && PollAll(s, weight, polls).1[k] == Ready(None)
    requires forall j | 0 <= j < k :: !PollAll(s, weight, polls).1[j].Panicked?
    ensures Yielded(PollAll(s, weight, polls).1[..k]) == Staged(s) + s.rest
    decreases k
  {
    hide PollStep, Item;
    var step := PollStep(s, polls[0].bucket, weight, polls[0].input);
    var answers, tail := PollAll(s, weight, polls).1, PollAll(step.0, weight, polls[1..]).1;
    OnePoll(s, polls[0].bucket, weight, polls[0].input);
    DrainedAtEnd(s, polls[0].bucket, weight, polls[0].input);
    if k > 0 {
      assert answers[0] == step.2 && answers[k] == tail[k - 1];
      assert forall j | 0 <= j < k - 1 :: tail[j] == answers[j + 1];
      EndMeansDelivered(step.0, weight, polls[1..], k - 1);
      assert answers[..k][1..] == tail[..k - 1];
      assert Item(step.2) + (Staged(step.0) + step.0.rest) == Item(step.2) + Staged(step.0) + step.0.rest;
    }
  }

  /** The polls that meet a ready source and a timer that has fired, and may proceed. */
  function Unhindered(polls: seq<Polled>): nat {
    if polls == [] then 0
    else
      var i := polls[0].input;
      (if i.proceed && i.sourceReady && i.timerFired then 1 else 0) + Unhindered(polls[1..])
  }

  /** Enough unhindered polls, among any others, deliver everything: at most two for each item. */
  lemma {:induction false} EnoughPollsDeliver<T>(s: Stream<T>, weight: T -> Positive, polls: seq<Polled>)
    requires Paired(s) && 2 * |s.rest| + |Staged(s)| <= Unhindered(polls)
    requires forall k | 0 <= k < |polls| :: !PollAll(s, weight, polls).1[k].Panicked?
    ensures Yielded(PollAll(s, weight, polls).1) == Staged(s) + s.rest
    decreases |polls|
  {
    hide PollStep;
    if polls != [] {
      var step := PollStep(s, polls[0].bucket, weight, polls[0].input);
      var answers, tail := PollAll(s, weight, polls).1, PollAll(step.0, weight, polls[1..]).1;
      assert answers[0] == step.2 && answers[1..] == tail;
      assert forall k | 0 <= k < |polls| - 1 :: tail[k] == answers[k + 1];
      OnePoll(s, polls[0].bucket, weight, polls[0].input);
      PollAnswers(s, polls[0].bucket, weight, polls[0].input);
      EnoughPollsDeliver(step.0, weight, polls[1..]);
      assert Item(step.2) + (Staged(step.0) + step.0.rest) == Item(step.2) + Staged(step.0) + step.0.rest;
    }
  }

  /** No poll panics while no item is heavier than the burst the bucket has at the poll. */
  lemma {:induction false} NeverPanics<T>(s: Stream<T>, weight: T -> Positive, polls: seq<Polled>)
    requires Paired(s)
    requires forall k, x | 0 <= k < |polls| && x in s.rest :: weight(x) <= polls[k].bucket.limit.burst
    ensures forall k | 0 <= k < |polls| :: !PollAll(s, weight, polls).1[k].Panicked?
    decreases |polls|
  {
    hide PollStep;
    if polls != [] {
      var step := PollStep(s, polls[0].bucket, weight, polls[0].input);
      OnePoll(s, polls[0].bucket, weight, polls[0].input);
      PollAnswers(s, polls[0].bucket, weight, polls[0].input);
      forall k, x | 0 <= k < |polls| - 1 && x in step.0.rest ensures weight(x) <= polls[1..][k].bucket.limit.burst {
        assert x in s.rest && polls[1..][k] == polls[k + 1];
      }
      NeverPanics(step.0, weight, polls[1..]);
    }
  }

  // ----- No early delivery -----

  /** Timers start no earlier than the clock reading of their poll, and fire no earlier than their deadline. */
  ghost predicate HonestTimer<T>(s: Stream<T>, i: Input) {
    i.now <= i.armed && (i.timerFired && s.delay.Some? ==> s.delay.value <= i.now)
  }

  ghost predicate HonestTimers<T>(s: Stream<T>, weight: T -> Positive, polls: seq<Polled>)
    decreases |polls|
  {
    polls == [] || (
      && HonestTimer(s, polls[0].input)
      && HonestTimers(PollStep(s, polls[0].bucket, weight, polls[0].input).0, weight, polls[1..]))
  }

  /** `due` is the zero time left by the payment for the item held back, or for the item pulled by the poll. */
  ghost predicate OnTime<T>(s: Stream<T>, due: real, weight: T -> Positive, polls: seq<Polled>)
    decreases |polls|
  {
    polls == [] || (
      var (s', b', answer) := PollStep(s, polls[0].bucket, weight, polls[0].input);
      var due' := if s.pendingItem.Some? then due else b'.zeroTime;
      && (Item(answer) != [] ==> due' <= polls[0].input.now)
      && OnTime(s', due', weight, polls[1..]))
  }

  /**
   * Over every sequence of polls, no item is delivered before the zero time that its own payment left,
   * however late the timers fire and whatever others do to the bucket.
   */
  lemma {:induction false} NeverEarly<T>(s: Stream<T>, due: real, weight: T -> Positive, polls: seq<Polled>)
    requires Paired(s) && (s.delay.Some? ==> due <= s.delay.value)
    requires HonestTimers(s, weight, polls)
    ensures OnTime(s, due, weight, polls)
    decreases |polls|
  {
    if polls != [] {
      var (s', b', answer) := PollStep(s, polls[0].bucket, weight, polls[0].input);
      OnePoll(s, polls[0].bucket, weight, polls[0].input);
      NeverEarly(s', if s.pendingItem.Some? then due else b'.zeroTime, weight, polls[1..]);
    }
  }

  // ----- The exact schedule of a stream alone on its bucket -----

  function TotalWeight<T>(items: seq<T>, weight: T -> Positive): real {
    if items == [] then 0.0 else TotalWeight(items[..|items| - 1], weight) + weight(items[|items| - 1])
  }

  /** When item `k` is delivered. */
  function Due<T>(l: Limit, z0: real, start: real, items: seq<T>, weight: T -> Positive, k: nat): real
    requires k < |items|
  {
    Max(start, Charged(l, z0, start, TotalWeight(items[..k + 1], weight)))
  }

  /** Paying for item `k` at the moment item `k - 1` is delivered. */
  lemma PayNext<T>(l: Limit, z0: real, start: real, items: seq<T>, weight: T -> Positive, k: nat)
    requires k < |items|
    ensures var w := TotalWeight(items[..k], weight);
            var z := if k == 0 then z0 else Charged(l, z0, start, w);
            var clock := if k == 0 then start else Due(l, z0, start, items, weight, k - 1);
            var z' := Charged(l, z, clock, weight(items[k]));
            && z' == Charged(l, z0, start, TotalWeight(items[..k + 1], weight))
            && Due(l, z0, start, items, weight, k) == if z' <= clock then clock else z'
  {
    hide Seconds, Earned;
    var w := TotalWeight(items[..k], weight);
    assert items[..k + 1][..k] == items[..k];
    SecondsAdd(l, w, weight(items[k]));
    SecondsAdd(l, 0.0, 0.0);
    SecondsOrder(l, 0.0, weight(items[k]));
    FullBefore(l, start);
    if k > 0 {
      WeightPositive(items[..k], weight);
      SecondsOrder(l, 0.0, w);
      FullBefore(l, Charged(l, z0, start, w));
    }
  }

  lemma {:induction false} WeightPositive<T>(items: seq<T>, weight: T -> Positive)
    ensures 0.0 <= TotalWeight(items, weight)
  {
    if items != [] {
      WeightPositive(items[..|items| - 1], weight);
    }
  }

  /** The poll of a stream that has its bucket for itself, whose source is ready and whose timer has fired. */
  lemma AlonePoll<T>(s: Stream<T>, b: State, weight: T -> Positive, clock: real)
    requires Paired(s)
    requires s.pendingItem.None? && s.rest != [] ==> weight(s.rest[0]) <= b.limit.burst
    ensures var (s', b', r) := PollStep(s, b, weight, Input(true, true, s.delay.Some?, clock, clock));
            if s.pendingItem.Some? then
              s' == Stream(s.rest, None, None) && b' == b && r == Ready(s.pendingItem)
            else if s.rest == [] then s' == s && b' == b && r == Ready(None)
            else
              var z' := Charged(b.limit, b.zeroTime, clock, weight(s.rest[0]));
              && b' == b.(zeroTime := z')
              && if z' <= clock then s' == Stream(s.rest[1..], None, None) && r == Ready(Some(s.rest[0]))
                 else s' == Stream(s.rest[1..], Some(s.rest[0]), Some(z')) && r == Pending
  {
  }

  /** What holds between two polls while a stream is drained: `times` are the deliveries so far. */
  ghost predicate OnSchedule<T>(l: Limit, z0: real, start: real, items: seq<T>, weight: T -> Positive,
                                s: Stream<T>, b: State, clock: real, times: seq<real>) {
    && Paired(s) && b.limit == l
    && |times| + |Staged(s)| + |s.rest| == |items|
    && s.rest == items[|times| + |Staged(s)|..]
    && (forall k | 0 <= k < |times| :: times[k] == Due(l, z0, start, items, weight, k))
    && b.zeroTime == (var paid := |times| + |Staged(s)|;
                      if paid == 0 then z0 else Charged(l, z0, start, TotalWeight(items[..paid], weight)))
    && if s.pendingItem.Some? then clock == s.delay.value == Due(l, z0, start, items, weight, |times|)
       else clock == if |times| == 0 then start else Due(l, z0, start, items, weight, |times| - 1)
  }

  /** A poll delivers an item, or holds one back until it is due, or finds the stream drained. */
  lemma StaysOnSchedule<T>(l: Limit, z0: real, start: real, items: seq<T>, weight: T -> Positive,
                           s: Stream<T>, b: State, clock: real, times: seq<real>)
    requires OnSchedule(l, z0, start, items, weight, s, b, clock, times)
    requires forall x | x in items :: weight(x) <= l.burst
    ensures var (s', b', r) := PollStep(s, b, weight, Input(true, true, s.delay.Some?, clock, clock));
            match r
            case Ready(None) => s' == Stream([], None, None) && |times| == |items|
            case Ready(Some(_)) =>
              && OnSchedule(l, z0, start, items, weight, s', b', clock, times + [clock])
              && 2 * |s'.rest| + |Staged(s')| < 2 * |s.rest| + |Staged(s)|
            case Pending =>
              && s'.delay.Some? && OnSchedule(l, z0, start, items, weight, s', b', s'.delay.value, times)
              && |s'.rest| < |s.rest| && |Staged(s')| == 1
            case Panicked => false
  {
    hide PollStep, Seconds, Earned, FullAt, Charged, Due, TotalWeight;
    var k := |times|;
    if s.pendingItem.None? && s.rest != [] {
      assert s.rest[0] == items[k] && s.rest[1..] == items[k + 1..];
      PayNext(l, z0, start, items, weight, k);
    }
    AlonePoll(s, b, weight, clock);
  }

  /**
   * Drains a stream that is alone on its bucket and whose source is always ready, from clock reading
   * `start` on: it is polled again as soon as an item is delivered or its timer, which is exact, fires.
   * The delivery times have a closed form.
   */
  method Drain<T>(s: WeightedStream<T>, start: real) returns (times: seq<real>)
    requires s.bucket != null && s.pendingItem.None? && s.delay.None?
    requires forall x | x in s.rest :: s.weightFn(x) <= s.bucket.limit.burst
    modifies s, s.Shared()
    ensures s.View() == Stream([], None, None)
    ensures |times| == |old(s.rest)|
    ensures forall k | 0 <= k < |times| ::
              times[k] == Due(s.bucket.limit, old(s.bucket.Contents()).zeroTime, start, old(s.rest), s.weightFn, k)
  {
    hide PollStep, Charged, Due, TotalWeight;
    times := [];
    var clock := start;
    ghost var items, l, z0 := s.rest, s.bucket.limit, s.bucket.Contents().zeroTime;
    while true
      invariant s.bucket.limit == l
      invariant OnSchedule(l, z0, start, items, s.weightFn, s.View(), s.bucket.Contents(), clock, times)
      decreases 2 * |s.rest| + |Staged(s.View())|
    {
      StaysOnSchedule(l, z0, start, items, s.weightFn, s.View(), s.bucket.Contents(), clock, times);
      var r := s.PollNext(Input(true, true, s.delay.Some?, clock, clock));
      match r
      case Ready(None) => return;
      case Ready(Some(_)) => times := times + [clock];
      case Pending => clock := s.delay.value;
      case Panicked => assert false;
    }
  }

  /** With unit weights, as for a plain throttled stream, the first `n` items weigh `n`. */
  lemma {:induction false} UnitWeights<T>(items: seq<T>)
    ensures TotalWeight(items, (_: T) => 1.0) == |items| as real
  {
    if items != [] {
      UnitWeights(items[..|items| - 1]);
    }
  }
}
