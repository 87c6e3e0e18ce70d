/**
 * Any number of throttled streams polled concurrently over one lock-free bucket that other callers use as
 * well, in any way, giving tokens back included. The steps of all calls interleave freely; timers may fire
 * late but never early; clock readings may be stale but do not lie in the future.
 */
module Pacing {
  import opened Limits
  import opened ZeroTime
  import opened History
  import opened LockFree
  import opened Spans
  import opened Borrowing

  /** Where a stream stands; items are represented by their weights. */
  datatype Gate =
    | Open                                      // nothing held back
    | Paying(weight: Positive)                  // in the middle of a poll, inside consume_with_borrow
    | Holding(weight: Positive, deadline: real) // an item is held back behind a timer
    | Broken(weight: Positive)                  // a poll has panicked

  datatype Throttled = Throttled(rest: seq<Positive>, gate: Gate)

  /** An item delivered by a stream, the call that paid for it, and the number of commits when that call ended. */
  datatype Delivered = Delivered(stream: nat, call: nat, weight: Positive, done: nat)

  /** Stream `i` makes its calls on thread `i`; the remaining threads are other callers. */
  datatype World = World(time: real, bucket: State, streams: seq<Throttled>, delivered: seq<Delivered>)

  datatype Move =
    | Tick(dt: real)
    | Pull(stream: nat, now: real)                          // a poll that pulls an item and starts to pay
    | Inner(thread: nat, spurious: bool)                    // one step of a call
    | Answer(stream: nat)                                   // the poll resumes with the answer of its call
    | Fire(stream: nat)                                     // a poll that finds the timer fired
    | Other(thread: nat, request: Request, now: real)       // another caller starts a call

  predicate Possible(w: World, m: Move) {
    match m
    case Tick(dt) => dt >= 0.0
    case Pull(i, now) =>
      && i < |w.streams| && w.streams[i].gate.Open? && w.streams[i].rest != [] && now <= w.time
      && Enabled(w.bucket, Begin(i, ConsumeWithBorrow(w.streams[i].rest[0]), now))
    case Inner(j, spurious) => Enabled(w.bucket, Advance(j, spurious))
    case Answer(i) =>
      i < |w.streams| && i < |w.bucket.threads| && w.streams[i].gate.Paying? && w.bucket.threads[i].Finished?
    case Fire(i) =>
      && i < |w.streams| && i < |w.bucket.threads|
      && w.streams[i].gate.Holding? && w.streams[i].gate.deadline <= w.time && w.bucket.threads[i].Finished?
    case Other(j, r, now) =>
      |w.streams| <= j && now <= w.time && Enabled(w.bucket, Begin(j, r, now))
  }

  function Deliver(w: World, i: nat): World
    requires i < |w.streams| && i < |w.bucket.threads| && w.bucket.threads[i].Finished?
    requires w.streams[i].gate.Paying? || w.streams[i].gate.Holding?
  {
    var t := w.bucket.threads[i];
    w.(streams := w.streams[i := w.streams[i].(gate := Open)],
       delivered := w.delivered + [Delivered(i, t.call.id, w.streams[i].gate.weight, t.done)])
  }

  function After(l: Limit, w: World, m: Move): World
    requires Possible(w, m)
  {
    match m
    case Tick(dt) => w.(time := w.time + dt)
    case Pull(i, now) =>
      var weight := w.streams[i].rest[0];
      w.(bucket := Next(l, w.bucket, Begin(i, ConsumeWithBorrow(weight), now)),
         streams := w.streams[i := Throttled(w.streams[i].rest[1..], Paying(weight))])
    case Inner(j, spurious) => w.(bucket := Next(l, w.bucket, Advance(j, spurious)))
    case Answer(i) =>
      var reply := w.bucket.threads[i].reply;
      if reply.Owed? && reply.nap > 0.0 then
        w.(streams := w.streams[i := w.streams[i].(gate := Holding(w.streams[i].gate.weight, w.time + reply.nap))])
      else if reply.Owed? || reply.Paid? then Deliver(w, i)
      else w.(streams := w.streams[i := w.streams[i].(gate := Broken(w.streams[i].gate.weight))])
    case Fire(i) => Deliver(w, i)
    case Other(j, r, now) => w.(bucket := Next(l, w.bucket, Begin(j, r, now)))
  }

  predicate Unfolds(l: Limit, w: World, moves: seq<Move>)
    decreases |moves|
  {
    moves == [] || (Possible(w, moves[0]) && Unfolds(l, After(l, w, moves[0]), moves[1..]))
  }

  function Unfold(l: Limit, w: World, moves: seq<Move>): World
    requires Unfolds(l, w, moves)
    decreases |moves|
  {
    if moves == [] then w else Unfold(l, After(l, w, moves[0]), moves[1..])
  }

  function Opening(time: real, z0: real, threads: nat, sources: seq<seq<Positive>>): World {
    World(time, Initial(z0, threads), seq(|sources|, i requires 0 <= i < |sources| => Throttled(sources[i], Open)), [])
  }

  // ----- Invariants -----

  /** No clock reading lies in the future. */
  ghost predicate Past(time: real, s: State) {
    && (forall k | 0 <= k < |s.log| :: s.log[k].now <= time)
    && (forall j | 0 <= j < |s.threads| && !s.threads[j].Idle? :: s.threads[j].call.now <= time)
  }

  /** The thread of a stream that is paying or holding back an item runs, or has finished, the call that pays for it. */
  ghost predicate PaysFor(t: Thread, gate: Gate) {
    match gate
    case Paying(weight) => !t.Idle? && t.call.request == ConsumeWithBorrow(weight)
    case Open => !t.Busy()
    case Holding(weight, deadline) =>
      && t.Finished? && t.call.request == ConsumeWithBorrow(weight) && t.reply.Owed?
      && t.call.now + t.reply.nap <= deadline
    case _ => true
  }

  /** A delivered item has been paid for in full, and the end of its call left the zero time in the past. */
  ghost predicate PaidFor(l: Limit, z0: real, time: real, s: State, d: Delivered) {
    && d.call < s.calls && d.done <= |s.log|
    && Pieces(s.log, d.call) == d.weight
    && (forall k | 0 <= k < |s.log| && s.log[k].call == d.call :: k < d.done && !s.log[k].kind.Return?)
    && ZeroTimeAfter(l, z0, s.log[..d.done]) <= time
  }

  /** The call that paid for a delivered item is over, and its thread holds no other item. */
  ghost predicate Released(s: State, streams: seq<Throttled>, d: Delivered) {
    forall j | 0 <= j < |s.threads| && !s.threads[j].Idle? && s.threads[j].call.id == d.call ::
      s.threads[j].Finished? && j < |streams| && streams[j].gate.Open?
  }

  ghost predicate DistinctDeliveries(ds: seq<Delivered>) {
    forall i, j | 0 <= i < j < |ds| :: ds[i].call != ds[j].call
  }

  ghost predicate Fair(l: Limit, z0: real, w: World) {
    && Inv(l, z0, w.bucket)
    && Past(w.time, w.bucket)
    && |w.streams| <= |w.bucket.threads|
    && (forall i | 0 <= i < |w.streams| :: PaysFor(w.bucket.threads[i], w.streams[i].gate))
    && (forall k | 0 <= k < |w.delivered| ::
          PaidFor(l, z0, w.time, w.bucket, w.delivered[k]) && Released(w.bucket, w.streams, w.delivered[k]))
    && DistinctDeliveries(w.delivered)
  }

  /** Payments already made stay made. */
  lemma StillPaidFor(l: Limit, z0: real, time: real, s: State, s': State, j: nat, d: Delivered)
    requires PaidFor(l, z0, time, s, d) && Grows(s, s', j)
    requires s.threads[j].Busy() ==> s.threads[j].call.id != d.call
    ensures PaidFor(l, z0, time, s', d)
  {
    hide ZeroTimeAfter, Pieces, Debited, Returned, Commit;
    if s'.log != s.log {
      var e := s'.log[|s.log|];
      assert s'.log == s.log + [e];
      Append(l, z0, s.log, e);
      assert s'.log[..d.done] == s.log[..d.done];
    }
  }

  lemma InnerFair(l: Limit, z0: real, w: World, j: nat, spurious: bool)
    requires Fair(l, z0, w) && Possible(w, Inner(j, spurious))
    ensures Fair(l, z0, After(l, w, Inner(j, spurious)))
  {
    hide Inv, Next, PaidFor;
    var w' := After(l, w, Inner(j, spurious));
    NextKeeps(l, z0, w.bucket, Advance(j, spurious));
    AdvanceGrows(l, w.bucket, j, spurious);
    forall k | 0 <= k < |w.delivered| ensures PaidFor(l, z0, w.time, w'.bucket, w.delivered[k]) {
      assert Released(w.bucket, w.streams, w.delivered[k]);
      StillPaidFor(l, z0, w.time, w.bucket, w'.bucket, j, w.delivered[k]);
    }
    forall k | 0 <= k < |w.delivered| ensures Released(w'.bucket, w.streams, w.delivered[k]) {
      assert Released(w.bucket, w.streams, w.delivered[k]);
    }
  }

  lemma StartFair(l: Limit, z0: real, w: World, m: Move)
    requires Fair(l, z0, w) && Possible(w, m) && (m.Pull? || m.Other?)
    ensures Fair(l, z0, After(l, w, m))
  {
    hide Inv, Next, PaidFor;
    var w' := After(l, w, m);
    var j := if m.Pull? then m.stream else m.thread;
    var r := if m.Pull? then ConsumeWithBorrow(w.streams[j].rest[0]) else m.request;
    NextKeeps(l, z0, w.bucket, Begin(j, r, m.now));
    BeginGrows(l, w.bucket, j, r, m.now);
    forall k | 0 <= k < |w.delivered| ensures PaidFor(l, z0, w.time, w'.bucket, w.delivered[k]) {
      StillPaidFor(l, z0, w.time, w.bucket, w'.bucket, j, w.delivered[k]);
    }
    forall k | 0 <= k < |w.delivered| ensures Released(w'.bucket, w'.streams, w.delivered[k]) {
      assert Released(w.bucket, w.streams, w.delivered[k]);
      KnownCall(l, z0, w.time, w.bucket, w.delivered[k]);
    }
  }

  lemma KnownCall(l: Limit, z0: real, time: real, s: State, d: Delivered)
    requires PaidFor(l, z0, time, s, d)
    ensures d.call < s.calls
  {
  }

  lemma TickFair(l: Limit, z0: real, w: World, dt: real)
    requires Fair(l, z0, w) && dt >= 0.0
    ensures Fair(l, z0, w.(time := w.time + dt))
  {
    hide Inv;
  }

  lemma DeliverFair(l: Limit, z0: real, w: World, i: nat)
    requires Fair(l, z0, w) && i < |w.streams| && w.bucket.threads[i].Finished?
    requires w.streams[i].gate.Paying? || w.streams[i].gate.Holding?
    requires w.bucket.threads[i].reply.Paid? || w.bucket.threads[i].reply.Owed?
    requires w.streams[i].gate.Holding? ==> w.streams[i].gate.deadline <= w.time
    requires w.streams[i].gate.Paying? && w.bucket.threads[i].reply.Owed? ==> w.bucket.threads[i].reply.nap <= 0.0
    ensures Fair(l, z0, Deliver(w, i))
  {
    hide Inv, Pieces, ZeroTimeAfter, Asked;
    var t, w' := w.bucket.threads[i], Deliver(w, i);
    assert PaysFor(t, w.streams[i].gate);
    assert PaidFor(l, z0, w.time, w.bucket, w'.delivered[|w.delivered|]) by {
      Settled(l, z0, w.bucket, i);
    }
    forall k | 0 <= k < |w'.delivered|
      ensures PaidFor(l, z0, w.time, w'.bucket, w'.delivered[k]) && Released(w'.bucket, w'.streams, w'.delivered[k])
    {
      if k < |w.delivered| {
        assert w'.delivered[k] == w.delivered[k] && Released(w.bucket, w.streams, w.delivered[k]);
      } else {
        OnlyOneThread(l, z0, w.bucket, i);
      }
    }
    forall k | 0 <= k < |w.delivered| ensures w.delivered[k].call != t.call.id {
      assert Released(w.bucket, w.streams, w.delivered[k]);
    }
  }

  /** What a finished call has paid, and the zero time it leaves once its wait is over. */
  lemma Settled(l: Limit, z0: real, s: State, i: nat)
    requires Inv(l, z0, s) && i < |s.threads| && s.threads[i].Finished?
    requires s.threads[i].call.request.ConsumeWithBorrow?
    ensures var t := s.threads[i];
            && t.call.id < s.calls && t.done <= |s.log|
            && (t.reply.Paid? || t.reply.Owed? || t.reply.ExceededBurst?)
            && (!t.reply.ExceededBurst? ==>
                  && Pieces(s.log, t.call.id) == t.call.request.n
                  && ZeroTimeAfter(l, z0, s.log[..t.done]) <= t.call.now + if t.reply.Owed? then t.reply.nap else 0.0)
            && (forall k | 0 <= k < |s.log| && s.log[k].call == t.call.id :: k < t.done && !s.log[k].kind.Return?)
  {
    hide Pieces, ZeroTimeAfter, Consistent, DistinctCalls, AdmissibleAt;
    FinishedPieces(l, z0, s, i);
    FinishedFacts(l, z0, s, i);
    var t := s.threads[i];
    if t.reply.Paid? {
      TakeEndsBefore(l, z0, s.log, t.done - 1);
    }
  }

  lemma OnlyOneThread(l: Limit, z0: real, s: State, i: nat)
    requires Inv(l, z0, s) && i < |s.threads| && !s.threads[i].Idle?
    ensures forall j | 0 <= j < |s.threads| && !s.threads[j].Idle? ::
              s.threads[j].call.id == s.threads[i].call.id ==> j == i
  {
  }

  lemma MoveFair(l: Limit, z0: real, w: World, m: Move)
    requires Fair(l, z0, w) && Possible(w, m)
    ensures Fair(l, z0, After(l, w, m))
  {
    hide Inv, PaidFor, Released;
    match m
    case Tick(dt) => TickFair(l, z0, w, dt);
    case Inner(j, spurious) => InnerFair(l, z0, w, j, spurious);
    case Fire(i) =>
      assert PaysFor(w.bucket.threads[i], w.streams[i].gate);
      DeliverFair(l, z0, w, i);
    case Answer(i) =>
      assert PaysFor(w.bucket.threads[i], w.streams[i].gate);
      Settled(l, z0, w.bucket, i);
      var reply := w.bucket.threads[i].reply;
      if reply.Paid? || (reply.Owed? && reply.nap <= 0.0) {
        DeliverFair(l, z0, w, i);
      } else {
        CloseFair(l, z0, w, i, After(l, w, m).streams[i].gate);
      }
    case _ => StartFair(l, z0, w, m);
  }

  /** Closing the gate of a stream behind a timer, or for good. */
  lemma CloseFair(l: Limit, z0: real, w: World, i: nat, gate: Gate)
    requires Fair(l, z0, w) && i < |w.streams| && w.streams[i].gate.Paying?
    requires PaysFor(w.bucket.threads[i], gate)
    ensures Fair(l, z0, w.(streams := w.streams[i := w.streams[i].(gate := gate)]))
  {
    hide Inv, PaidFor;
    forall k | 0 <= k < |w.delivered|
      ensures Released(w.bucket, w.streams[i := w.streams[i].(gate := gate)], w.delivered[k])
    {
      assert Released(w.bucket, w.streams, w.delivered[k]);
    }
  }

  lemma {:induction false} UnfoldFair(l: Limit, z0: real, w: World, moves: seq<Move>)
    requires Fair(l, z0, w) && Unfolds(l, w, moves)
    ensures Fair(l, z0, Unfold(l, w, moves))
    decreases |moves|
  {
    hide Fair, Possible, After;
    if moves != [] {
      MoveFair(l, z0, w, moves[0]);
      UnfoldFair(l, z0, After(l, w, moves[0]), moves[1..]);
    }
  }

  lemma OpeningFair(l: Limit, z0: real, start: real, threads: nat, sources: seq<seq<Positive>>)
    requires |sources| <= threads
    ensures Fair(l, z0, Opening(start, z0, threads, sources))
  {
    InitialInv(l, z0, threads);
  }

  // ----- What a poll does -----

  /**
   * When the call of a poll has ended, with `z` the zero time then: an item heavier than the burst makes the poll
   * panic; otherwise the item is delivered at once exactly when `z` is not after the clock reading of the poll, and
   * else is held back for exactly the time between the two.
   */
  lemma AnswerTells(l: Limit, z0: real, w: World, i: nat)
    requires Fair(l, z0, w) && Possible(w, Answer(i))
    ensures var t, x, s' := w.bucket.threads[i], w.streams[i].gate.weight, After(l, w, Answer(i)).streams[i];
            && t.call.request == ConsumeWithBorrow(x) && t.done <= |w.bucket.log|
            && var z := ZeroTimeAfter(l, z0, w.bucket.log[..t.done]);
               After(l, w, Answer(i)) ==
               if l.burst < x then w.(streams := w.streams[i := w.streams[i].(gate := Broken(x))])
               else if z <= t.call.now then Deliver(w, i)
               else
                 var held := Holding(x, w.time + (z - t.call.now));
                 w.(streams := w.streams[i := w.streams[i].(gate := held)])
  {
    hide Inv, ZeroTimeAfter, PaidFor, Released;
    assert PaysFor(w.bucket.threads[i], w.streams[i].gate);
    FinishedPieces(l, z0, w.bucket, i);
    FinishedFacts(l, z0, w.bucket, i);
    Settled(l, z0, w.bucket, i);
  }

  /**
   * Nobody is ever stuck: a stream with nothing in hand may be polled at any reading that is not in the future, a
   * call may always take its next step and be answered when it has ended, and an item held back may be delivered
   * from its deadline on, by the last poll as by any other.
   */
  lemma NeverStuck(l: Limit, z0: real, w: World, i: nat)
    requires Fair(l, z0, w) && i < |w.streams|
    ensures match w.streams[i].gate
            case Open =>
              w.streams[i].rest == [] || forall now: real | now <= w.time :: Possible(w, Pull(i, now))
            case Paying(_) =>
              if w.bucket.threads[i].Busy() then Possible(w, Inner(i, false)) && Possible(w, Inner(i, true))
              else Possible(w, Answer(i))
            case Holding(_, deadline) => deadline <= w.time ==> Possible(w, Fire(i))
            case Broken(_) => true
  {
    hide Inv, PaidFor, Released;
    assert PaysFor(w.bucket.threads[i], w.streams[i].gate);
  }

  // ----- Integrity -----

  /** What stream `i` has delivered, in order. */
  function DeliveredBy(ds: seq<Delivered>, i: nat): seq<Positive> {
    if ds == [] then []
    else
      var d := ds[|ds| - 1];
      DeliveredBy(ds[..|ds| - 1], i) + if d.stream == i then [d.weight] else []
  }

  /** The item a stream has pulled and not delivered: it is paid for, held back, or lost in a panic. */
  function InHand(gate: Gate): seq<Positive> {
    if gate.Open? then [] else [gate.weight]
  }

  /** Stream `i` has delivered, has in hand, or has yet to pull the items of its source, in order. */
  ghost predicate InOrder(w: World, i: nat, source: seq<Positive>) {
    i < |w.streams| && DeliveredBy(w.delivered, i) + InHand(w.streams[i].gate) + w.streams[i].rest == source
  }

  /** Pulling an item takes it in hand. */
  lemma TakenInHand(ds: seq<Positive>, rest: seq<Positive>)
    requires rest != []
    ensures ds + [] + rest == ds + [rest[0]] + rest[1..]
  {
  }

  lemma DeliverInOrder(w: World, j: nat, i: nat, source: seq<Positive>)
    requires j < |w.streams| && j < |w.bucket.threads| && w.bucket.threads[j].Finished?
    requires w.streams[j].gate.Paying? || w.streams[j].gate.Holding?
    requires InOrder(w, i, source)
    ensures InOrder(Deliver(w, j), i, source)
  {
    hide DeliveredBy;
    var t, weight := w.bucket.threads[j], w.streams[j].gate.weight;
    OneMoreDelivered(w.delivered, Delivered(j, t.call.id, weight, t.done), i);
    LetGo(DeliveredBy(w.delivered, i), weight, w.streams[i].rest);
  }

  lemma OneMoreDelivered(ds: seq<Delivered>, d: Delivered, i: nat)
    ensures DeliveredBy(ds + [d], i) == if d.stream == i then DeliveredBy(ds, i) + [d.weight] else DeliveredBy(ds, i)
  {
    assert (ds + [d])[..|ds|] == ds;
  }

  /** Delivering an item lets it go. */
  lemma LetGo(ds: seq<Positive>, weight: Positive, rest: seq<Positive>)
    ensures ds + [weight] + rest == (ds + [weight]) + [] + rest
  {
    assert ds + [weight] + [] == ds + [weight];
  }

  lemma MoveInOrder(l: Limit, w: World, m: Move, i: nat, source: seq<Positive>)
    requires Possible(w, m) && InOrder(w, i, source)
    ensures InOrder(After(l, w, m), i, source)
  {
    hide Next, Enabled, DeliveredBy, Deliver;
    match m
    case Pull(j, now) =>
      TakenInHand(DeliveredBy(w.delivered, j), w.streams[j].rest);
    case Answer(j) =>
      if After(l, w, m) == Deliver(w, j) {
        DeliverInOrder(w, j, i, source);
      }
    case Fire(j) =>
      DeliverInOrder(w, j, i, source);
    case _ =>
  }

  /** Only an item heavier than the burst makes a poll panic, and no such item is delivered. */
  ghost predicate Affordable(l: Limit, w: World) {
    && (forall i | 0 <= i < |w.streams| && w.streams[i].gate.Broken? :: l.burst < w.streams[i].gate.weight)
    && (forall k | 0 <= k < |w.delivered| :: w.delivered[k].weight <= l.burst)
    && (forall i | 0 <= i < |w.streams| && w.streams[i].gate.Holding? :: w.streams[i].gate.weight <= l.burst)
  }

  lemma MoveAffordable(l: Limit, z0: real, w: World, m: Move)
    requires Fair(l, z0, w) && Possible(w, m) && Affordable(l, w)
    ensures Affordable(l, After(l, w, m))
  {
    hide Inv, Next, Enabled, PaidFor, Released;
    if m.Answer? {
      assert PaysFor(w.bucket.threads[m.stream], w.streams[m.stream].gate);
      FinishedPieces(l, z0, w.bucket, m.stream);
    }
  }

  lemma {:induction false} UnfoldInOrder(l: Limit, w: World, moves: seq<Move>, i: nat, source: seq<Positive>)
    requires InOrder(w, i, source) && Unfolds(l, w, moves)
    ensures InOrder(Unfold(l, w, moves), i, source) && |Unfold(l, w, moves).streams| == |w.streams|
    decreases |moves|
  {
    hide InOrder, Possible, After;
    if moves != [] {
      MoveInOrder(l, w, moves[0], i, source);
      StreamCount(l, w, moves[0]);
      UnfoldInOrder(l, After(l, w, moves[0]), moves[1..], i, source);
    }
  }

  lemma StreamCount(l: Limit, w: World, m: Move)
    requires Possible(w, m)
    ensures |After(l, w, m).streams| == |w.streams|
  {
    hide Next, Enabled;
  }

  lemma {:induction false} UnfoldAffordable(l: Limit, z0: real, w: World, moves: seq<Move>)
    requires Fair(l, z0, w) && Affordable(l, w) && Unfolds(l, w, moves)
    ensures Affordable(l, Unfold(l, w, moves))
    decreases |moves|
  {
    hide Fair, Affordable, Possible, After;
    if moves != [] {
      MoveFair(l, z0, w, moves[0]);
      MoveAffordable(l, z0, w, moves[0]);
      UnfoldAffordable(l, z0, After(l, w, moves[0]), moves[1..]);
    }
  }

  /**
   * Stream integrity, though payments of all streams and calls of others interleave step by step: each stream has
   * delivered, has in hand, or has yet to pull exactly its source, in order. It stops with a panic only at an
   * item heavier than the burst, and delivers no such item.
   */
  lemma StreamIntegrity(l: Limit, z0: real, start: real, threads: nat, sources: seq<seq<Positive>>,
                        moves: seq<Move>, w: World, i: nat)
    requires i < |sources| <= threads
    requires Unfolds(l, Opening(start, z0, threads, sources), moves)
    requires w == Unfold(l, Opening(start, z0, threads, sources), moves)
    ensures |w.streams| == |sources|
    ensures DeliveredBy(w.delivered, i) + InHand(w.streams[i].gate) + w.streams[i].rest == sources[i]
    ensures w.streams[i].gate.Broken? ==> l.burst < w.streams[i].gate.weight
    ensures forall x | x in DeliveredBy(w.delivered, i) :: x <= l.burst
  {
    hide Fair, Unfolds, Unfold, DeliveredBy;
    var opening := Opening(start, z0, threads, sources);
    OpeningFair(l, z0, start, threads, sources);
    assert InOrder(opening, i, sources[i]) by { NothingDelivered(i); }
    UnfoldInOrder(l, opening, moves, i, sources[i]);
    UnfoldAffordable(l, z0, opening, moves);
    DeliveredWeights(w.delivered, i, l.burst);
  }

  lemma NothingDelivered(i: nat)
    ensures DeliveredBy([], i) == []
  {
  }

  lemma {:induction false} DeliveredWeights(ds: seq<Delivered>, i: nat, most: real)
    requires forall k | 0 <= k < |ds| :: ds[k].weight <= most
    ensures forall x | x in DeliveredBy(ds, i) :: x <= most
  {
    if ds != [] {
      DeliveredWeights(ds[..|ds| - 1], i, most);
    }
  }

  // ----- The pacing bound -----

  function Weight(ds: seq<Delivered>): real {
    if ds == [] then 0.0 else Weight(ds[..|ds| - 1]) + ds[|ds| - 1].weight
  }

  /** Tokens committed by the calls that paid for `ds`. */
  function PaidBy(log: seq<Event>, ds: seq<Delivered>): real {
    if ds == [] then 0.0 else PaidBy(log, ds[..|ds| - 1]) + Pieces(log, ds[|ds| - 1].call)
  }

  lemma {:induction false} PaidByAppend(log: seq<Event>, e: Event, ds: seq<Delivered>)
    requires DistinctDeliveries(ds)
    ensures PaidBy(log + [e], ds) <= PaidBy(log, ds) + e.amount
    ensures (forall k | 0 <= k < |ds| :: ds[k].call != e.call) ==> PaidBy(log + [e], ds) == PaidBy(log, ds)
  {
    if ds != [] {
      var init, d := ds[..|ds| - 1], ds[|ds| - 1];
      assert (log + [e])[..|log|] == log;
      PaidByAppend(log, e, init);
      if d.call == e.call {
        assert forall k | 0 <= k < |init| :: init[k].call != e.call;
      }
    }
  }

  lemma {:induction false} NothingPaid(ds: seq<Delivered>)
    ensures PaidBy([], ds) == 0.0
  {
    if ds != [] {
      NothingPaid(ds[..|ds| - 1]);
    }
  }

  /** Distinct calls share no commit, and none of them gave anything back. */
  lemma {:induction false} PaidByAtMostDebited(log: seq<Event>, ds: seq<Delivered>)
    requires DistinctDeliveries(ds)
    requires forall i, k | 0 <= i < |ds| && 0 <= k < |log| && log[k].call == ds[i].call :: !log[k].kind.Return?
    ensures PaidBy(log, ds) <= Debited(log)
  {
    if log == [] {
      NothingPaid(ds);
    } else {
      var init, e := log[..|log| - 1], log[|log| - 1];
      PaidByAtMostDebited(init, ds);
      PaidByAppend(init, e, ds);
      assert log == init + [e];
    }
  }

  lemma {:induction false} WeightIsPaid(log: seq<Event>, ds: seq<Delivered>)
    requires forall k | 0 <= k < |ds| :: Pieces(log, ds[k].call) == ds[k].weight
    ensures PaidBy(log, ds) == Weight(ds)
  {
    if ds != [] {
      WeightIsPaid(log, ds[..|ds| - 1]);
    }
  }

  /** Commits of other calls pay nothing. */
  lemma {:induction false} PaidByPrefix(log: seq<Event>, ds: seq<Delivered>, m: nat)
    requires DistinctDeliveries(ds) && m <= |log|
    requires forall i, k | 0 <= i < |ds| && m <= k < |log| :: log[k].call != ds[i].call
    ensures PaidBy(log[..m], ds) == PaidBy(log, ds)
    decreases |log|
  {
    if m == |log| {
      assert log[..m] == log;
    } else {
      var init, e := log[..|log| - 1], log[|log| - 1];
      PaidByPrefix(init, ds, m);
      PaidByAppend(init, e, ds);
      assert log == init + [e] && init[..m] == log[..m];
    }
  }

  /** The end of the last of the calls that paid. */
  lemma {:induction false} LastDone(ds: seq<Delivered>) returns (i: nat)
    requires ds != []
    ensures i < |ds| && forall k | 0 <= k < |ds| :: ds[k].done <= ds[i].done
  {
    var init := ds[..|ds| - 1];
    i := |ds| - 1;
    if init != [] {
      var j := LastDone(init);
      if ds[i].done < ds[j].done {
        i := j;
      }
    }
  }

  lemma {:induction false} WeighsSomething(ds: seq<Delivered>)
    ensures ds != [] ==> Weight(ds) > 0.0
    ensures ds == [] ==> Weight(ds) == 0.0
  {
    if ds != [] {
      WeighsSomething(ds[..|ds| - 1]);
    }
  }

  lemma EarnedOrder(l: Limit, a: real, b: real)
    requires a <= b
    ensures Earned(l, a) <= Earned(l, b)
  {
    SecondsToEarn(l, a);
    SecondsToEarn(l, b);
    SecondsOrder(l, Earned(l, b), Earned(l, a));
  }

  ghost predicate IsFirstDebit(log: seq<Event>, j: nat) {
    j < |log| && !log[j].kind.Return? && forall k | 0 <= k < j :: log[k].kind.Return?
  }

  /** All debits of a history that leaves the zero time in the past are earned. */
  lemma DebitsAreEarned(l: Limit, z0: real, log: seq<Event>, time: real) returns (j: nat)
    requires Admissible(l, z0, log) && ZeroTimeAfter(l, z0, log) <= time && Debited(log) > 0.0
    ensures IsFirstDebit(log, j)
    ensures Debited(log) <= l.burst + Earned(l, time - log[j].now) + Returned(log)
    ensures Debited(log) <= Earned(l, time - z0) + Returned(log)
  {
    hide Seconds, Earned, ZeroTimeAfter, Debited, Returned, FullAt, AdmissibleAt;
    var z := ZeroTimeAfter(l, z0, log);
    j := FirstDebit(log);
    WindowBound(l, z0, log, j);
    DebitedGrows(log, 0, CountedFrom(log, j));
    assert log[0..] == log;
    EarnedOrder(l, z - log[j].now, time - log[j].now);
    FallsOnlyByReturns(l, z0, log, 0);
    EmptyHistory(l, z0, log);
    InTokens(l, Debited(log) - Returned(log), z, z0);
    EarnedOrder(l, z - z0, time - z0);
  }

  /** The history up to the end of the last call that paid. */
  lemma PacedByHistory(l: Limit, z0: real, w: World) returns (j: nat)
    requires Fair(l, z0, w) && w.delivered != []
    ensures var log := w.bucket.log;
            && IsFirstDebit(log, j)
            && Weight(w.delivered) <= l.burst + Earned(l, w.time - log[j].now) + Returned(log)
            && Weight(w.delivered) <= Earned(l, w.time - z0) + Returned(log)
  {
    hide Earned, ZeroTimeAfter, Debited, Returned, Pieces, Consistent, DistinctCalls, AdmissibleAt;
    hide Weight, PaidBy, Past;
    var log, ds := w.bucket.log, w.delivered;
    var last := LastDone(ds);
    var m := ds[last].done;
    assert forall k | 0 <= k < |ds| :: PaidFor(l, z0, w.time, w.bucket, ds[k]);
    WeightIsPaid(log, ds);
    WeighsSomething(ds);
    PaidByPrefix(log, ds, m);
    PaidByAtMostDebited(log[..m], ds);
    InitAdmissible(l, z0, log, m);
    j := DebitsAreEarned(l, z0, log[..m], w.time);
    DebitSplit(log, m);
    DebitedGrows(log, m, |log|);
  }

  /** Before anything is delivered the bound is not negative. */
  lemma NoDebt(l: Limit, z0: real, w: World, j: nat)
    requires Fair(l, z0, w) && IsFirstDebit(w.bucket.log, j)
    ensures 0.0 <= l.burst + Earned(l, w.time - w.bucket.log[j].now) + Returned(w.bucket.log)
  {
    hide Inv, Returned;
    EarnedOrder(l, 0.0, w.time - w.bucket.log[j].now);
    DebitedGrows(w.bucket.log, 0, 0);
    assert w.bucket.log[0..] == w.bucket.log;
  }

  lemma FairIsPaced(l: Limit, z0: real, w: World)
    requires Fair(l, z0, w)
    ensures w.delivered != [] ==> exists j: nat :: IsFirstDebit(w.bucket.log, j)
    ensures forall j: nat | IsFirstDebit(w.bucket.log, j) ::
              Weight(w.delivered) <= l.burst + Earned(l, w.time - w.bucket.log[j].now) + Returned(w.bucket.log)
    ensures Weight(w.delivered) <= Max(Earned(l, w.time - z0) + Returned(w.bucket.log), 0.0)
  {
    hide Fair, Earned, Returned, Weight;
    WeighsSomething(w.delivered);
    if w.delivered == [] {
      forall j: nat | IsFirstDebit(w.bucket.log, j)
        ensures Weight(w.delivered) <= l.burst + Earned(l, w.time - w.bucket.log[j].now) + Returned(w.bucket.log)
      {
        NoDebt(l, z0, w, j);
      }
    } else {
      var i := PacedByHistory(l, z0, w);
      assert forall j: nat | IsFirstDebit(w.bucket.log, j) :: j == i;
    }
  }

  /**
   * Global pacing. Whatever the interleaving, the total weight delivered so far by all streams together is at
   * most one burst, what the rate earns since the clock reading of the first debit, and what was given back;
   * and at most what the rate earns since the initial zero time and what was given back.
   */
  lemma GlobalPacing(l: Limit, z0: real, start: real, threads: nat, sources: seq<seq<Positive>>, moves: seq<Move>,
                     w: World)
    requires |sources| <= threads
    requires Unfolds(l, Opening(start, z0, threads, sources), moves)
    requires w == Unfold(l, Opening(start, z0, threads, sources), moves)
    ensures w.delivered != [] ==> exists j: nat :: IsFirstDebit(w.bucket.log, j)
    ensures forall j: nat | IsFirstDebit(w.bucket.log, j) ::
              Weight(w.delivered) <= l.burst + Earned(l, w.time - w.bucket.log[j].now) + Returned(w.bucket.log)
    ensures Weight(w.delivered) <= Max(Earned(l, w.time - z0) + Returned(w.bucket.log), 0.0)
  {
    hide Fair, Opening, Unfolds, Unfold, Earned, Returned, Weight, IsFirstDebit;
    OpeningFair(l, z0, start, threads, sources);
    UnfoldFair(l, z0, Opening(start, z0, threads, sources), moves);
    FairIsPaced(l, z0, w);
  }
}
