/** A stream throttled by a bucket: each item pulled pays its weight, and is held back until the debt is paid. */
module WeightedStreams {
  import opened Limits
  import opened TokenBuckets
  import Sequential

  datatype Poll<+T> = Pending | Ready(item: Option<T>) | Panicked

  /**
   * What one poll meets: whether the cooperative budget lets it proceed, whether the inner stream and the
   * timer have an answer, the clock reading, and the instant at which a new timer starts to run.
   */
  datatype Input = Input(proceed: bool, sourceReady: bool, timerFired: bool, now: real, armed: real)

  /** `rest` is what the inner stream will still yield; `delay` is the deadline of the timer. */
  datatype Stream<+T> = Stream(rest: seq<T>, pendingItem: Option<T>, delay: Option<real>)

  /** One poll of a stream under bucket `b`. */
  function PollStep<T>(s: Stream<T>, b: State, weight: T -> Positive, i: Input): (Stream<T>, State, Poll<T>) {
    if !i.proceed then (s, b, Pending)
    else if s.pendingItem.Some? then
      if s.delay.Some? && !i.timerFired then (s, b, Pending)
      else (s.(pendingItem := None, delay := None), b, Ready(s.pendingItem))
    else if !i.sourceReady then (s, b, Pending)
    else if s.rest == [] then (s, b, Ready(None))
    else
      var pulled := s.(rest := s.rest[1..]);
      var (b', o) := Sequential.Apply(b, Sequential.ConsumeWithBorrow(weight(s.rest[0])), i.now);
      match o.wait
      case Err(_) => (pulled, b', Panicked)
      case Ok(None) => (pulled, b', Ready(Some(s.rest[0])))
      case Ok(Some(d)) => (pulled.(pendingItem := Some(s.rest[0]), delay := Some(i.armed + d)), b', Pending)
  }

  class WeightedStream<T> {
    const bucket: TokenBucket?
    const weightFn: T -> Positive
    var rest: seq<T>
    var pendingItem: Option<T>
    var delay: Option<real>

    constructor (stream: seq<T>, bucket: TokenBucket?, weightFn: T -> Positive)
      ensures this.bucket == bucket && this.weightFn == weightFn
      ensures View() == Stream(stream, None, None)
    {
      this.bucket := bucket;
      this.weightFn := weightFn;
      this.rest, this.pendingItem, this.delay := stream, None, None;
    }

    ghost function View(): Stream<T>
      reads this
    {
      Stream(rest, pendingItem, delay)
    }

    ghost function Shared(): set<object>
    {
      if bucket == null then {} else {bucket.raw.bucket.inner}
    }

    method PollNext(i: Input) returns (r: Poll<T>)
      modifies this, Shared()
      ensures bucket != null ==>
                (View(), bucket.Contents(), r) == PollStep(old(View()), old(bucket.Contents()), weightFn, i)
      ensures bucket == null && !i.proceed ==> View() == old(View()) && r == Pending
      ensures bucket == null && i.proceed ==>
                View() == old(View()).(rest := if i.sourceReady && old(rest) != [] then old(rest)[1..] else old(rest))
                && r == if !i.sourceReady then Pending
                        else if old(rest) == [] then Ready(None) else Ready(Some(old(rest)[0]))
    {
      if !i.proceed {
        return Pending;
      }
      if bucket == null {
        r := PollInner(i.sourceReady);
        return;
      }
      if pendingItem.Some? {
        if delay.Some? {
          if !i.timerFired {
            return Pending;
          }
          delay := None;
        }
        r := Ready(pendingItem);
        pendingItem := None;
        return;
      }
      var nextItem := PollInner(i.sourceReady);
      if nextItem.Ready? && nextItem.item.Some? {
        var item := nextItem.item.value;
        var borrowed := bucket.ConsumeWithBorrow(weightFn(item), i.now);
        match borrowed
        case Err(_) => return Panicked;
        case Ok(None) => return nextItem;
        case Ok(Some(duration)) =>
          pendingItem := Some(item);
          delay := Some(i.armed + duration);
          return Pending;
      }
      return nextItem;
    }

    /** Polls the inner stream. */
    method PollInner(ready: bool) returns (r: Poll<T>)
      modifies this`rest
      ensures rest == if ready && old(rest) != [] then old(rest)[1..] else old(rest)
      ensures r == if !ready then Pending else if old(rest) == [] then Ready(None) else Ready(Some(old(rest)[0]))
    {
      if !ready {
        return Pending;
      }
      if rest == [] {
        return Ready(None);
      }
      r := Ready(Some(rest[0]));
      rest := rest[1..];
    }
  }
}
