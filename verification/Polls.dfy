/**
 * The world of many streams against its parts: its bucket is a lock-free bucket, a poll that runs alone is a poll of
 * the sequential stream, and every stream can finish.
 */
module Polls {
  import opened Limits
  import opened ZeroTime
  import opened History
  import opened LockFree
  import opened Spans
  import opened Borrowing
  import opened Progress
  import opened Linearisation
  import opened Pacing
  import Sequential
  import WeightedStreams

  // ----- Runs of the bucket and of the world -----

  /** The calls on the bucket that the moves of a world make. */
  function Actions(l: Limit, w: World, moves: seq<Move>): seq<Action>
    requires Unfolds(l, w, moves)
    decreases |moves|
  {
    if moves == [] then []
    else
      var rest := Actions(l, After(l, w, moves[0]), moves[1..]);
      match moves[0]
      case Pull(i, now) => [Begin(i, ConsumeWithBorrow(w.streams[i].rest[0]), now)] + rest
      case Inner(j, spurious) => [Advance(j, spurious)] + rest
      case Other(j, r, now) => [Begin(j, r, now)] + rest
      case _ => rest
  }

  /**
   * The bucket of a world is in the state that the calls of all streams and other callers lead to, so whatever
   * holds of every run of the lock-free bucket holds here.
   */
  lemma {:induction false} BucketRuns(l: Limit, w: World, moves: seq<Move>)
    requires Unfolds(l, w, moves)
    ensures Runs(l, w.bucket, Actions(l, w, moves))
    ensures Run(l, w.bucket, Actions(l, w, moves)) == Unfold(l, w, moves).bucket
    decreases |moves|
  {
    hide Next, Enabled;
    if moves != [] {
      var w' := After(l, w, moves[0]);
      var rest := Actions(l, w', moves[1..]);
      BucketRuns(l, w', moves[1..]);
      if moves[0].Pull? || moves[0].Inner? || moves[0].Other? {
        assert Actions(l, w, moves)[1..] == rest;
      }
    }
  }

  /** The moves by which callers other than the streams, and calls under way, make the steps of a run. */
  function AsMoves(actions: seq<Action>): seq<Move> {
    if actions == [] then []
    else
      [match actions[0]
       case Begin(j, r, now) => Other(j, r, now)
       case Advance(j, spurious) => Inner(j, spurious)] + AsMoves(actions[1..])
  }

  /** Every run of the lock-free bucket by callers other than the streams can happen in the world, as it is. */
  lemma {:induction false} EveryRunHappens(l: Limit, w: World, actions: seq<Action>)
    requires Runs(l, w.bucket, actions)
    requires forall k | 0 <= k < |actions| && actions[k].Begin? ::
               |w.streams| <= actions[k].thread && actions[k].now <= w.time
    ensures Unfolds(l, w, AsMoves(actions))
    ensures Unfold(l, w, AsMoves(actions)) == w.(bucket := Run(l, w.bucket, actions))
    decreases |actions|
  {
    hide Next, Enabled;
    if actions != [] {
      assert AsMoves(actions)[1..] == AsMoves(actions[1..]);
      EveryRunHappens(l, w.(bucket := Next(l, w.bucket, actions[0])), actions[1..]);
    }
  }

  lemma {:induction false} UnfoldOn(l: Limit, w: World, moves: seq<Move>, more: seq<Move>)
    requires Unfolds(l, w, moves) && Unfolds(l, Unfold(l, w, moves), more)
    ensures Unfolds(l, w, moves + more)
    ensures Unfold(l, w, moves + more) == Unfold(l, Unfold(l, w, moves), more)
    decreases |moves|
  {
    hide Possible, After;
    if moves == [] {
      assert moves + more == more;
    } else {
      assert (moves + more)[1..] == moves[1..] + more;
      UnfoldOn(l, After(l, w, moves[0]), moves[1..], more);
    }
  }

  lemma OneMove(l: Limit, w: World, m: Move)
    requires Possible(w, m)
    ensures Unfolds(l, w, [m]) && Unfold(l, w, [m]) == After(l, w, m)
  {
    hide Possible, After;
    assert [m][1..] == [];
  }

  // ----- A poll that runs alone -----

  /** A stream between two polls, its items being their own weights. */
  function AsStream(s: Throttled): WeightedStreams.Stream<Positive>
    requires s.gate.Open? || s.gate.Holding?
  {
    if s.gate.Open? then WeightedStreams.Stream(s.rest, None, None)
    else WeightedStreams.Stream(s.rest, Some(s.gate.weight), Some(s.gate.deadline))
  }

  /** The answer of a poll, read off where it leaves the stream. */
  function PollAnswer(weight: Positive, gate: Gate): WeightedStreams.Poll<Positive> {
    match gate
    case Open => WeightedStreams.Ready(Some(weight))
    case Broken(_) => WeightedStreams.Panicked
    case _ => WeightedStreams.Pending
  }

  /** A poll of stream `i` takes world `w` to `w'` as one poll of the sequential stream does. */
  ghost predicate PollsAs(l: Limit, w: World, w': World, i: nat, now: real)
    requires i < |w.streams| == |w'.streams| && w.streams[i].gate.Open? && w.streams[i].rest != []
  {
    var input := WeightedStreams.Input(true, true, false, now, w'.time);
    var b := Sequential.Bucket(w.bucket.cell, l);
    var (s', b', answer) := WeightedStreams.PollStep(AsStream(w.streams[i]), b, (x: Positive) => x, input);
    var weight, gate := w.streams[i].rest[0], w'.streams[i].gate;
    && !gate.Paying? && answer == PollAnswer(weight, gate)
    && (!gate.Broken? ==> s' == AsStream(w'.streams[i]))
    && b' == Sequential.Bucket(w'.bucket.cell, l)
    && (gate.Open? ==> |w'.delivered| == |w.delivered| + 1 && w'.delivered[|w.delivered|].stream == i
                       && w'.delivered[|w.delivered|].weight == weight)
    && (!gate.Open? ==> w'.delivered == w.delivered)
  }

  /** The answer of an undisturbed call, as the sequential stream would take it. */
  lemma AnswerPolls(l: Limit, z0: real, w: World, v: World, i: nat, now: real)
    requires Fair(l, z0, v) && i < |w.streams| == |v.streams| && Possible(v, Answer(i))
    requires w.streams[i].gate.Open? && w.streams[i].rest != []
    requires v.streams[i] == Throttled(w.streams[i].rest[1..], Paying(w.streams[i].rest[0]))
    requires v.delivered == w.delivered && v.bucket.threads[i].call.now == now
    requires v.bucket.threads[i].done == |v.bucket.log|
    requires var t := v.bucket.threads[i];
             Sequential.Apply(Sequential.Bucket(w.bucket.cell, l), SequentialOp(t.call.request), now) ==
             (Sequential.Bucket(v.bucket.cell, l), Told(l, t.call.request, t.reply))
    ensures PollsAs(l, w, After(l, v, Answer(i)), i, now)
  {
    hide Fair, ZeroTimeAfter, Charged, Balance, Next, Enabled;
    AnswerTells(l, z0, v, i);
    FairCell(l, z0, v);
    assert v.bucket.log[..|v.bucket.log|] == v.bucket.log;
  }

  lemma FairCell(l: Limit, z0: real, w: World)
    requires Fair(l, z0, w)
    ensures Inv(l, z0, w.bucket) && w.bucket.cell == ZeroTimeAfter(l, z0, w.bucket.log)
    ensures |w.streams| <= |w.bucket.threads|
  {
  }

  /**
   * A poll that pulls an item and runs alone, while the calls of other streams and callers stand still wherever they
   * are, is one poll of the sequential stream on the value in the cell.
   */
  lemma PollAlone(l: Limit, z0: real, w: World, i: nat, now: real) returns (moves: seq<Move>, w': World)
    requires Fair(l, z0, w) && i < |w.streams| && w.streams[i].gate.Open? && w.streams[i].rest != []
    requires now <= w.time
    ensures Unfolds(l, w, moves) && w' == Unfold(l, w, moves) && Fair(l, z0, w') && |w'.streams| == |w.streams|
    ensures w'.time == w.time && forall j | 0 <= j < |w.streams| && j != i :: w'.streams[j] == w.streams[j]
    ensures PollsAs(l, w, w', i, now)
  {
    hide Fair, Inv, Possible, After, Next, Enabled, PollsAs, Sequential.Apply, Told;
    var r := ConsumeWithBorrow(w.streams[i].rest[0]);
    FairCell(l, z0, w);
    NeverStuck(l, z0, w, i);
    MayPull(w, i, now);
    OneMove(l, w, Pull(i, now));
    var v := After(l, w, Pull(i, now));
    Pulled(l, w, i, now);
    var steps, s' := AloneFrom(l, z0, w.bucket, i, r, now);
    EveryRunHappens(l, v, steps);
    var u := v.(bucket := s');
    UnfoldOn(l, w, [Pull(i, now)], AsMoves(steps));
    moves := [Pull(i, now)] + AsMoves(steps);
    UnfoldFair(l, z0, w, moves);
    NeverStuck(l, z0, u, i);
    OneMove(l, u, Answer(i));
    UnfoldOn(l, w, moves, [Answer(i)]);
    moves, w' := moves + [Answer(i)], After(l, u, Answer(i));
    UnfoldFair(l, z0, w, moves);
    AnswerPolls(l, z0, w, u, i, now);
    AnswerOnly(l, u, i);
  }

  lemma MayPull(w: World, i: nat, now: real)
    requires i < |w.streams| && Possible(w, Pull(i, now))
    ensures Enabled(w.bucket, Begin(i, ConsumeWithBorrow(w.streams[i].rest[0]), now))
  {
  }

  lemma Pulled(l: Limit, w: World, i: nat, now: real)
    requires Possible(w, Pull(i, now))
    ensures var x := w.streams[i].rest[0];
            After(l, w, Pull(i, now)) ==
            w.(bucket := Next(l, w.bucket, Begin(i, ConsumeWithBorrow(x), now)),
               streams := w.streams[i := Throttled(w.streams[i].rest[1..], Paying(x))])
  {
  }

  lemma AnswerOnly(l: Limit, w: World, i: nat)
    requires Possible(w, Answer(i))
    ensures var w' := After(l, w, Answer(i));
            && w'.time == w.time && w'.bucket == w.bucket && |w'.streams| == |w.streams|
            && w'.streams[i].rest == w.streams[i].rest
            && forall j | 0 <= j < |w.streams| && j != i :: w'.streams[j] == w.streams[j]
  {
  }

  // ----- Every stream can finish -----

  /** No item of the stream that is still to be delivered is heavier than the burst. */
  ghost predicate Light(l: Limit, s: Throttled) {
    !s.gate.Broken? && forall x | x in InHand(s.gate) + s.rest :: x <= l.burst
  }

  /** Polls and timers still needed, counting a call under way. */
  function ToDo(s: Throttled): nat {
    3 * |s.rest| + if s.gate.Paying? then 2 else if s.gate.Holding? then 1 else 0
  }

  lemma LightPoll(l: Limit, w: World, w': World, i: nat, now: real)
    requires i < |w.streams| == |w'.streams| && w.streams[i].gate.Open? && w.streams[i].rest != []
    requires PollsAs(l, w, w', i, now) && Light(l, w.streams[i])
    ensures Light(l, w'.streams[i]) && ToDo(w'.streams[i]) < ToDo(w.streams[i])
  {
    hide Charged;
    assert w.streams[i].rest[0] in InHand(w.streams[i].gate) + w.streams[i].rest;
    forall x | x in w.streams[i].rest[1..] ensures x <= l.burst {
      assert x in InHand(w.streams[i].gate) + w.streams[i].rest;
    }
  }

  /** An item held back is delivered after waiting for its timer. */
  lemma LetGoInTime(l: Limit, z0: real, w: World, i: nat) returns (moves: seq<Move>, w': World)
    requires Fair(l, z0, w) && i < |w.streams| && w.streams[i].gate.Holding?
    ensures Unfolds(l, w, moves) && w' == Unfold(l, w, moves) && |w'.streams| == |w.streams|
    ensures w'.streams[i] == w.streams[i].(gate := Open)
  {
    hide Fair;
    var wait := Tick(Max(w.streams[i].gate.deadline - w.time, 0.0));
    var v := After(l, w, wait);
    OneMove(l, w, wait);
    UnfoldFair(l, z0, w, [wait]);
    NeverStuck(l, z0, v, i);
    FairCell(l, z0, v);
    OneMove(l, v, Fire(i));
    UnfoldOn(l, w, [wait], [Fire(i)]);
    moves, w' := [wait] + [Fire(i)], After(l, v, Fire(i));
  }

  /** A call that pays for an item ends when it runs alone, and is answered. */
  lemma PaysInTime(l: Limit, z0: real, w: World, i: nat) returns (moves: seq<Move>, w': World)
    requires Fair(l, z0, w) && i < |w.streams| && w.streams[i].gate.Paying? && Light(l, w.streams[i])
    ensures Unfolds(l, w, moves) && w' == Unfold(l, w, moves) && |w'.streams| == |w.streams|
    ensures Light(l, w'.streams[i]) && ToDo(w'.streams[i]) < ToDo(w.streams[i])
  {
    hide Fair, Inv, Possible, After, Next, Enabled, Left, HoldsStale;
    FairCell(l, z0, w);
    var steps: seq<Action> := [];
    NeverStuck(l, z0, w, i);
    if w.bucket.threads[i].Busy() {
      steps := FinishesAlone(l, z0, w.bucket, i);
    }
    EveryRunHappens(l, w, steps);
    moves := AsMoves(steps);
    UnfoldFair(l, z0, w, moves);
    var v := Unfold(l, w, moves);
    NeverStuck(l, z0, v, i);
    OneMove(l, v, Answer(i));
    UnfoldOn(l, w, moves, [Answer(i)]);
    moves, w' := moves + [Answer(i)], After(l, v, Answer(i));
    LightAnswer(l, z0, v, i);
  }

  lemma LightAnswer(l: Limit, z0: real, w: World, i: nat)
    requires Fair(l, z0, w) && Possible(w, Answer(i)) && Light(l, w.streams[i])
    ensures var w' := After(l, w, Answer(i));
            |w'.streams| == |w.streams| && Light(l, w'.streams[i]) && ToDo(w'.streams[i]) < ToDo(w.streams[i])
  {
    hide Fair, ZeroTimeAfter;
    AnswerTells(l, z0, w, i);
    assert w.streams[i].gate.weight in InHand(w.streams[i].gate) + w.streams[i].rest;
    forall x | x in w.streams[i].rest ensures x in InHand(w.streams[i].gate) + w.streams[i].rest {}
  }

  lemma OneMoreDone(l: Limit, z0: real, w: World, i: nat) returns (moves: seq<Move>, w': World)
    requires Fair(l, z0, w) && i < |w.streams| && Light(l, w.streams[i])
    requires w.streams[i] != Throttled([], Open)
    ensures Unfolds(l, w, moves) && w' == Unfold(l, w, moves) && |w'.streams| == |w.streams|
    ensures Light(l, w'.streams[i]) && ToDo(w'.streams[i]) < ToDo(w.streams[i])
  {
    hide Fair, PollsAs;
    match w.streams[i].gate
    case Open =>
      moves, w' := PollAlone(l, z0, w, i, w.time);
      LightPoll(l, w, w', i, w.time);
    case Paying(_) =>
      moves, w' := PaysInTime(l, z0, w, i);
    case Holding(_, _) =>
      moves, w' := LetGoInTime(l, z0, w, i);
      forall x | x in w.streams[i].rest ensures x in InHand(w.streams[i].gate) + w.streams[i].rest {}
  }

  lemma {:induction false} RunsDry(l: Limit, z0: real, w: World, i: nat) returns (moves: seq<Move>)
    requires Fair(l, z0, w) && i < |w.streams| && Light(l, w.streams[i])
    ensures Unfolds(l, w, moves) && i < |Unfold(l, w, moves).streams|
    ensures Unfold(l, w, moves).streams[i] == Throttled([], Open)
    decreases ToDo(w.streams[i])
  {
    hide Fair, Light, ToDo, Possible, After;
    if w.streams[i] == Throttled([], Open) {
      moves := [];
    } else {
      var first, w' := OneMoreDone(l, z0, w, i);
      UnfoldFair(l, z0, w, first);
      var more := RunsDry(l, z0, w', i);
      UnfoldOn(l, w, first, more);
      moves := first + more;
    }
  }

  /**
   * Deadlock freedom. However the streams and the other callers have been interleaved so far, a stream without an
   * item heavier than the burst can still deliver its whole source, in order.
   */
  lemma EveryStreamCanFinish(l: Limit, z0: real, start: real, threads: nat, sources: seq<seq<Positive>>,
                             moves: seq<Move>, i: nat)
    returns (more: seq<Move>)
    requires i < |sources| <= threads && Unfolds(l, Opening(start, z0, threads, sources), moves)
    requires forall x | x in sources[i] :: x <= l.burst
    ensures Unfolds(l, Opening(start, z0, threads, sources), moves + more)
    ensures DeliveredBy(Unfold(l, Opening(start, z0, threads, sources), moves + more).delivered, i) == sources[i]
  {
    hide Fair, Unfolds, Unfold, DeliveredBy;
    var opening := Opening(start, z0, threads, sources);
    var w := Unfold(l, opening, moves);
    OpeningFair(l, z0, start, threads, sources);
    UnfoldFair(l, z0, opening, moves);
    StreamIntegrity(l, z0, start, threads, sources, moves, w, i);
    assert Light(l, w.streams[i]) by {
      LightInOrder(l, w.streams[i], DeliveredBy(w.delivered, i), sources[i]);
    }
    more := RunsDry(l, z0, w, i);
    UnfoldOn(l, opening, moves, more);
    StreamIntegrity(l, z0, start, threads, sources, moves + more, Unfold(l, opening, moves + more), i);
  }

  lemma LightInOrder(l: Limit, s: Throttled, ds: seq<Positive>, source: seq<Positive>)
    requires ds + InHand(s.gate) + s.rest == source && forall x | x in source :: x <= l.burst
    requires s.gate.Broken? ==> l.burst < s.gate.weight
    ensures Light(l, s)
  {
    forall x | x in InHand(s.gate) + s.rest ensures x in source {
      assert ds + (InHand(s.gate) + s.rest) == source;
    }
    assert !s.gate.Open? ==> s.gate.weight in InHand(s.gate) + s.rest;
  }
}
