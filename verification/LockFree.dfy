/**
 * The lock-free bucket: any number of threads, each running one call at a time against one shared
 * cell. Every step of a thread is one atomic access to the cell together with the local computation
 * that follows it. The clock reading of a call is arbitrary, so it may be stale or run backwards.
 */
module LockFree {
  import opened Limits
  import opened ZeroTime
  import opened History

  datatype Request =
    | Consume(n: Positive)
    | TryConsume(n: Positive)
    | SaturatingConsume(n: Positive)
    | ConsumeWithBorrow(n: Positive)
    | SaturatingConsumeWithBorrow(n: Positive)
    | AddTokens(n: Positive)
  {
    /** Asks for all of its tokens or none. */
    predicate Whole() {
      Consume? || TryConsume?
    }

    predicate Borrows() {
      ConsumeWithBorrow? || SaturatingConsumeWithBorrow?
    }
  }

  /** `begun` is the number of commits made before the call started. */
  datatype Call = Call(id: nat, request: Request, now: real, begun: nat)

  /** In a reply, `posted` is the position of a commit in the history and `at` the number of commits before a read. */
  datatype Reply =
    | Granted(amount: real, posted: nat)
    | Refused(at: nat)
    | RateLimited(wait: real, at: nat)   // the refusal of try_consume
    | Paid                               // a borrowing call that found all its tokens
    | Owed(nap: real, posted: nat)       // the wait computed by a call that borrowed
    | ExceededBurst
    | Added

  /**
   * A thread between two accesses to the cell. `seen` is a loaded value and `at` the number of commits before
   * that load; `since` counts the commits before the current round of the outer loop, and `found` those before
   * the load that found nothing left to take.
   */
  datatype Thread =
    | Idle
    | Starting(call: Call, round: nat, since: nat, remaining: Positive)   // about to load, in consume
    | Trying(call: Call, round: nat, since: nat, remaining: Positive, seen: real, at: nat)
    | Owing(call: Call, round: nat, found: nat, remaining: Positive)      // about to load, in return_tokens
    | Posting(call: Call, round: nat, found: nat, remaining: Positive, seen: real, at: nat)
    | ReadingDebt(call: Call, posted: nat)                                // about to load, in time_when_bucket
    | Finished(call: Call, reply: Reply, done: nat)
  {
    predicate Busy() {
      !Idle? && !Finished?
    }
  }

  /** `failures` and `spurious` count the compare-and-swaps that failed on a changed cell and spuriously. */
  datatype State =
    State(cell: real, threads: seq<Thread>, log: seq<Event>, calls: nat, failures: nat, spurious: nat)

  datatype Action =
    | Begin(thread: nat, request: Request, now: real)
    | Advance(thread: nat, spurious: bool)   // `spurious`: a compare-and-swap that would succeed fails

  function Initial(z0: real, n: nat): State {
    State(z0, seq(n, i => Idle), [], 0, 0, 0)
  }

  /** What a call sets out to debit or to give back. */
  function Asked(l: Limit, r: Request): Positive {
    if r.SaturatingConsumeWithBorrow? then Min(r.n, l.burst) else r.n
  }

  /** The closure passed to the storage: how much of `available` to consume. */
  function Ask(r: Request, remaining: Positive, available: real): real {
    if r.Whole() then AllOrNothing(remaining, available) else UpTo(remaining, available)
  }

  function Enter(l: Limit, s: State, r: Request, now: real): Thread {
    var commits := |s.log|;
    var c := Call(s.calls, r, now, commits);
    if r.AddTokens? then Owing(c, 1, commits, r.n)
    else if r.ConsumeWithBorrow? && l.burst < r.n then Finished(c, ExceededBurst, commits)
    else Starting(c, 1, commits, Asked(l, r))
  }

  /** The thread after consuming `consumed` tokens in the commit at position `posted`. */
  function AfterGrant(t: Thread, consumed: Positive, posted: nat): Thread
    requires t.Trying?
  {
    if !t.call.request.Borrows() then Finished(t.call, Granted(consumed, posted), posted + 1)
    else if t.remaining - consumed > 0.0 then Starting(t.call, t.round + 1, posted + 1, t.remaining - consumed)
    else Finished(t.call, Paid, posted + 1)
  }

  /** The thread that found nothing to take; `done` is the number of commits made so far. */
  function EmptyHanded(l: Limit, t: Thread, done: nat): Thread
    requires t.Trying?
  {
    match t.call.request
    case TryConsume(n) => Finished(t.call, RateLimited(t.seen - t.call.now + n / l.rate, t.at), done)
    case _ =>
      if t.call.request.Borrows() then Owing(t.call, t.round, t.at, t.remaining)
      else Finished(t.call, Refused(t.at), done)
  }

  function Replace(s: State, i: nat, t: Thread): State
    requires i < |s.threads|
  {
    s.(threads := s.threads[i := t])
  }

  /** One compare-and-swap of the value seen by thread `i`: commit `e` and become `next`, or reload. */
  function CompareExchange(l: Limit, s: State, i: nat, e: Event, next: Thread, spurious: bool): State
    requires i < |s.threads| && (s.threads[i].Trying? || s.threads[i].Posting?)
  {
    var t := s.threads[i];
    if t.seen == s.cell && !spurious then
      Replace(s, i, next).(cell := Commit(l, t.seen, e), log := s.log + [e])
    else
      var reloaded := Replace(s, i, t.(seen := s.cell, at := |s.log|));
      if t.seen == s.cell then reloaded.(spurious := s.spurious + 1) else reloaded.(failures := s.failures + 1)
  }

  function TakeEvent(t: Thread, consumed: Positive): Event
    requires t.Trying?
  {
    Event(Take, t.call.id, consumed, t.call.now, t.call.begun, t.at)
  }

  function PostEvent(t: Thread): Event
    requires t.Posting?
  {
    if t.call.request.AddTokens? then Event(Return, t.call.id, t.remaining, t.call.now, t.call.begun, t.at)
    else Event(Kind.Borrow, t.call.id, t.remaining, t.call.now, t.call.begun, t.found)
  }

  function AfterPost(t: Thread, posted: nat): Thread
    requires t.Posting?
  {
    if t.call.request.AddTokens? then Finished(t.call, Added, posted + 1) else ReadingDebt(t.call, posted)
  }

  function Step(l: Limit, s: State, i: nat, spurious: bool): State
    requires i < |s.threads| && s.threads[i].Busy()
  {
    var t, commits := s.threads[i], |s.log|;
    match t
    case Starting(c, round, since, remaining) => Replace(s, i, Trying(c, round, since, remaining, s.cell, commits))
    case Trying(c, _, _, remaining, seen, _) =>
      var consumed := Ask(c.request, remaining, Balance(l, seen, c.now));
      if consumed == 0.0 then Replace(s, i, EmptyHanded(l, t, commits))
      else CompareExchange(l, s, i, TakeEvent(t, consumed), AfterGrant(t, consumed, commits), spurious)
    case Owing(c, round, found, remaining) => Replace(s, i, Posting(c, round, found, remaining, s.cell, commits))
    case Posting(_, _, _, _, _, _) => CompareExchange(l, s, i, PostEvent(t), AfterPost(t, commits), spurious)
    case ReadingDebt(c, posted) => Replace(s, i, Finished(c, Owed(Max(s.cell - c.now, 0.0), posted), commits))
  }

  predicate Enabled(s: State, a: Action) {
    && a.thread < |s.threads|
    && (a.Begin? <==> !s.threads[a.thread].Busy())
  }

  function Next(l: Limit, s: State, a: Action): State
    requires Enabled(s, a)
  {
    match a
    case Begin(i, r, now) => Replace(s, i, Enter(l, s, r, now)).(calls := s.calls + 1)
    case Advance(i, spurious) => Step(l, s, i, spurious)
  }

  predicate Runs(l: Limit, s: State, actions: seq<Action>)
    decreases |actions|
  {
    actions == [] || (Enabled(s, actions[0]) && Runs(l, Next(l, s, actions[0]), actions[1..]))
  }

  function Run(l: Limit, s: State, actions: seq<Action>): State
    requires Runs(l, s, actions)
    decreases |actions|
  {
    if actions == [] then s else Run(l, Next(l, s, actions[0]), actions[1..])
  }

  // ----- What every reachable state satisfies -----

  /** The tokens a call has committed so far, read off its program counter. */
  function Committed(l: Limit, t: Thread): real {
    match t
    case Idle => 0.0
    case ReadingDebt(c, _) => Asked(l, c.request)
    case Finished(c, reply, _) =>
      (match reply
       case Granted(amount, _) => amount
       case Refused(_) => 0.0
       case RateLimited(_, _) => 0.0
       case ExceededBurst => 0.0
       case _ => Asked(l, c.request))
    case _ => Asked(l, t.call.request) - t.remaining
  }

  /** The number of commits made up to the end of the call, or up to now while it runs. */
  function Horizon(log: seq<Event>, t: Thread): nat {
    if t.Finished? then t.done else |log|
  }

  /** Every commit of the call lies between its start and its end, and carries its clock reading. */
  ghost predicate Within(log: seq<Event>, c: Call, done: nat) {
    forall k | 0 <= k < |log| && log[k].call == c.id ::
      && c.begun <= k < done && log[k].now == c.now && log[k].begun == c.begun
      && (log[k].kind.Return? <==> c.request.AddTokens?)
  }

  ghost predicate OnlyTakes(log: seq<Event>, call: nat) {
    forall k | 0 <= k < |log| && log[k].call == call :: log[k].kind.Take?
  }

  ghost predicate OwnBorrow(log: seq<Event>, c: Call, posted: nat) {
    posted < |log| && log[posted].call == c.id && log[posted].kind.Borrow?
  }

  ghost predicate ReadAt(l: Limit, z0: real, log: seq<Event>, begun: nat, at: nat, seen: real) {
    begun <= at <= |log| && seen == ZeroTimeAfter(l, z0, log[..at])
  }

  /** At `at`, within the call, the bucket was empty at the call's clock reading. */
  ghost predicate EmptyAt(l: Limit, z0: real, log: seq<Event>, c: Call, at: nat) {
    c.begun <= at <= |log| && c.now <= ZeroTimeAfter(l, z0, log[..at])
  }

  /**
   * Each round but the last ends with a take; it leaves the bucket empty, so the next take of the call needs a
   * return in between.
   */
  ghost predicate Rounds(l: Limit, z0: real, log: seq<Event>, c: Call, round: nat, since: nat) {
    && c.begun <= since <= |log| && 1 <= round
    && CommitCount(log, c.id) == round - 1
    && round <= 2 + ReturnCount(log[..since]) - ReturnCount(log[..c.begun])
    && (2 <= round ==> EmptyAt(l, z0, log, c, since))
    && (!c.request.Borrows() ==> round == 1)
  }

  /** No call makes more commits than two and one for each return between its start and `done`. */
  ghost predicate FewCommits(log: seq<Event>, c: Call, done: nat)
    requires c.begun <= done <= |log|
  {
    CommitCount(log, c.id) <= 2 + ReturnCount(log[..done]) - ReturnCount(log[..c.begun])
  }

  /** What the program counter of a thread says about the history. */
  ghost predicate Position(l: Limit, z0: real, log: seq<Event>, t: Thread) {
    match t
    case Idle => true
    case Starting(c, round, since, remaining) =>
      && !c.request.AddTokens? && OnlyTakes(log, c.id) && Rounds(l, z0, log, c, round, since)
      && (!c.request.Borrows() ==> remaining == Asked(l, c.request))
    case Trying(c, round, since, remaining, seen, at) =>
      && !c.request.AddTokens? && OnlyTakes(log, c.id) && Rounds(l, z0, log, c, round, since)
      && ReadAt(l, z0, log, c.begun, at, seen)
      && (!c.request.Borrows() ==> remaining == Asked(l, c.request))
    case Owing(c, round, found, remaining) => AboutToPost(l, z0, log, c, round, found, remaining)
    case Posting(c, round, found, remaining, seen, at) =>
      AboutToPost(l, z0, log, c, round, found, remaining) && ReadAt(l, z0, log, c.begun, at, seen)
    case ReadingDebt(c, posted) => c.request.Borrows() && OwnBorrow(log, c, posted)
    case Finished(c, reply, done) => Answered(l, z0, log, c, reply, done)
  }

  /** A call about to give back, or to borrow after finding the bucket empty. */
  ghost predicate AboutToPost(l: Limit, z0: real, log: seq<Event>, c: Call, round: nat, found: nat, remaining: real)
  {
    && c.begun <= |log| && 1 <= round && CommitCount(log, c.id) == round - 1
    && round <= 2 + ReturnCount(log) - ReturnCount(log[..c.begun])
    && if c.request.AddTokens? then round == 1 && remaining == Asked(l, c.request)
       else c.request.Borrows() && OnlyTakes(log, c.id) && EmptyAt(l, z0, log, c, found)
  }

  ghost predicate Answered(l: Limit, z0: real, log: seq<Event>, c: Call, reply: Reply, done: nat) {
    match reply
    case Granted(amount, posted) =>
      && (c.request.Whole() || c.request.SaturatingConsume?) && posted < done <= |log|
      && log[posted].kind.Take? && log[posted].call == c.id && log[posted].amount == amount
      && amount == Ask(c.request, Asked(l, c.request), Balance(l, ZeroTimeAfter(l, z0, log[..posted]), c.now))
    case Refused(at) =>
      (c.request.Consume? || c.request.SaturatingConsume?) && TurnedDown(l, z0, log, c, at, done)
    case RateLimited(wait, at) =>
      && c.request.TryConsume? && TurnedDown(l, z0, log, c, at, done)
      && wait == ZeroTimeAfter(l, z0, log[..at]) - c.now + c.request.n / l.rate
    case Paid =>
      && c.request.Borrows() && OnlyTakes(log, c.id)
      && c.begun < done <= |log| && log[done - 1].call == c.id
      && CommitCount(log, c.id) <= 1 + ReturnCount(log[..done]) - ReturnCount(log[..c.begun])
    case Owed(nap, posted) =>
      && c.request.Borrows() && OwnBorrow(log, c, posted) && posted < done <= |log|
      && nap == Max(ZeroTimeAfter(l, z0, log[..done]) - c.now, 0.0)
    case ExceededBurst => c.request.ConsumeWithBorrow? && l.burst < c.request.n
    case Added =>
      && c.request.AddTokens? && 0 < done <= |log| && log[done - 1].call == c.id
      && log[done - 1].kind.Return? && log[done - 1].amount == c.request.n
  }

  ghost predicate TurnedDown(l: Limit, z0: real, log: seq<Event>, c: Call, at: nat, done: nat) {
    && c.begun <= at <= done <= |log|
    && Ask(c.request, Asked(l, c.request), Balance(l, ZeroTimeAfter(l, z0, log[..at]), c.now)) == 0.0
  }

  ghost predicate Consistent(l: Limit, z0: real, log: seq<Event>, calls: nat, t: Thread) {
    t.Idle? || (
      && t.call.id < calls
      && t.call.begun <= Horizon(log, t) <= |log|
      && Within(log, t.call, Horizon(log, t))
      && Pieces(log, t.call.id) == Committed(l, t)
      && FewCommits(log, t.call, Horizon(log, t))
      && (t.call.request.ConsumeWithBorrow? && l.burst < t.call.request.n ==> t.Finished? && t.reply.ExceededBurst?)
      && Position(l, z0, log, t))
  }

  ghost predicate DistinctCalls(threads: seq<Thread>) {
    forall i, j | 0 <= i < j < |threads| && !threads[i].Idle? && !threads[j].Idle? ::
      threads[i].call.id != threads[j].call.id
  }

  ghost predicate Inv(l: Limit, z0: real, s: State) {
    && s.cell == ZeroTimeAfter(l, z0, s.log)
    && Admissible(l, z0, s.log)
    && (forall k | 0 <= k < |s.log| :: s.log[k].call < s.calls)
    && (forall i | 0 <= i < |s.threads| :: Consistent(l, z0, s.log, s.calls, s.threads[i]))
    && DistinctCalls(s.threads)
  }

  lemma InitialInv(l: Limit, z0: real, n: nat)
    ensures Inv(l, z0, Initial(z0, n))
  {
  }

  /** A commit by another call leaves a thread's facts in place. */
  lemma Undisturbed(l: Limit, z0: real, log: seq<Event>, calls: nat, t: Thread, e: Event)
    requires Consistent(l, z0, log, calls, t)
    requires !t.Idle? ==> t.call.id != e.call
    ensures Consistent(l, z0, log + [e], calls, t)
  {
    hide ZeroTimeAfter, Commit, Balance, Pieces, Debited, Returned, CommitCount, ReturnCount, Asked, Ask;
    Append(l, z0, log, e);
    Prefixes(log, e);
    assert (log + [e])[..|log + [e]|] == log + [e] && log[..|log|] == log;
  }

  lemma QuietKeeps(l: Limit, z0: real, s: State, i: nat, t: Thread, s': State)
    requires Inv(l, z0, s) && i < |s.threads| && s.threads[i].Busy() && !t.Idle?
    requires t.call == s.threads[i].call && Consistent(l, z0, s.log, s.calls, t)
    requires s' == s.(threads := s.threads[i := t], failures := s'.failures, spurious := s'.spurious)
    ensures Inv(l, z0, s')
  {
  }

  lemma CommitKeeps(l: Limit, z0: real, s: State, i: nat, e: Event, t: Thread, s': State)
    requires Inv(l, z0, s) && i < |s.threads| && s.threads[i].Busy() && !t.Idle?
    requires t.call == s.threads[i].call && t.call.id == e.call
    requires AdmissibleAt(l, z0, s.log + [e], |s.log|)
    requires Consistent(l, z0, s.log + [e], s.calls, t)
    requires s' == s.(cell := Commit(l, s.cell, e), log := s.log + [e], threads := s.threads[i := t])
    ensures Inv(l, z0, s')
  {
    hide Commit, Balance, ZeroTimeAfter, Pieces, Position, AdmissibleAt, FewCommits;
    Append(l, z0, s.log, e);
    AppendAdmissible(l, z0, s.log, e);
    forall j | 0 <= j < |s.threads| ensures Consistent(l, z0, s'.log, s.calls, s'.threads[j]) {
      if j != i {
        Undisturbed(l, z0, s.log, s.calls, s.threads[j], e);
      }
    }
  }

  lemma {:induction false} NoPieces(log: seq<Event>, call: nat)
    requires forall k | 0 <= k < |log| :: log[k].call != call
    ensures Pieces(log, call) == 0.0 && CommitCount(log, call) == 0
  {
    if log != [] {
      NoPieces(log[..|log| - 1], call);
    }
  }

  lemma BeginKeeps(l: Limit, z0: real, s: State, i: nat, r: Request, now: real)
    requires Inv(l, z0, s) && Enabled(s, Begin(i, r, now))
    ensures Inv(l, z0, Next(l, s, Begin(i, r, now)))
  {
    hide ZeroTimeAfter, Balance, Commit, Pieces, CommitCount, ReturnCount, Ask, Admissible;
    NoPieces(s.log, s.calls);
    var t := Enter(l, s, r, now);
    assert s.log[..|s.log|] == s.log;
    assert Consistent(l, z0, s.log, s.calls + 1, t);
    forall j | 0 <= j < |s.threads| && j != i ensures Consistent(l, z0, s.log, s.calls + 1, s.threads[j]) {}
  }

  /** A take needs tokens at the clock reading: after the first round, something must have been given back. */
  lemma TakeNeedsReturn(l: Limit, z0: real, log: seq<Event>, c: Call, since: nat)
    requires EmptyAt(l, z0, log, c, since)
    requires 0.0 < Balance(l, ZeroTimeAfter(l, z0, log), c.now)
    ensures ReturnCount(log[..since]) < ReturnCount(log)
  {
    hide ZeroTimeAfter, Balance, ReturnCount;
    EmptyIff(l, ZeroTimeAfter(l, z0, log), c.now);
    ReturnsBetween(log, since);
    if ReturnCount(log[since..]) == 0 {
      NoneReturned(log[since..]);
      NeverFalls(l, z0, log, since);
    }
  }

  lemma {:induction false} ReturnsBetween(log: seq<Event>, i: nat)
    requires i <= |log|
    ensures ReturnCount(log) == ReturnCount(log[..i]) + ReturnCount(log[i..])
    decreases |log|
  {
    if i == |log| {
      assert log[..i] == log;
    } else {
      var init, e := log[..|log| - 1], log[|log| - 1];
      ReturnsBetween(init, i);
      assert init[..i] == log[..i] && log[i..] == init[i..] + [e];
      assert log[i..][..|log[i..]| - 1] == init[i..];
    }
  }

  /** Taking less than what remains drains the bucket to the clock reading. */
  lemma PartialTakeDrains(l: Limit, z: real, r: Request, now: real, remaining: Positive, e: Event)
    requires r.Borrows() && e.kind.Take? && e.now == now
    requires e.amount == Ask(r, remaining, Balance(l, z, now)) && e.amount < remaining
    ensures Commit(l, z, e) == now
  {
    hide Balance;
    DrainedAtNow(l, z, now);
  }

  lemma TakeConsistent(l: Limit, z0: real, s: State, i: nat, consumed: Positive)
    requires Inv(l, z0, s) && i < |s.threads| && s.threads[i].Trying?
    requires var t := s.threads[i]; consumed == Ask(t.call.request, t.remaining, Balance(l, s.cell, t.call.now))
    ensures var t, log := s.threads[i], s.log + [TakeEvent(s.threads[i], consumed)];
            && Consistent(l, z0, log, s.calls, AfterGrant(t, consumed, |s.log|))
            && AdmissibleAt(l, z0, log, |s.log|)
  {
    hide Balance, ZeroTimeAfter, Commit, Pieces, Admissible, DistinctCalls, Debited, Returned, CommitCount, ReturnCount;
    var t := s.threads[i];
    var e := TakeEvent(t, consumed);
    var log := s.log + [e];
    assert Consistent(l, z0, s.log, s.calls, t);
    Append(l, z0, s.log, e);
    Prefixes(s.log, e);
    assert s.log[..|s.log|] == s.log && log[..|log|] == log;
    LaterReturns(s.log, t.call.begun);
    if 2 <= t.round {
      TakeNeedsReturn(l, z0, s.log, t.call, t.since);
    }
    if consumed < t.remaining && t.call.request.Borrows() {
      PartialTakeDrains(l, s.cell, t.call.request, t.call.now, t.remaining, e);
    }
  }

  lemma PostConsistent(l: Limit, z0: real, s: State, i: nat)
    requires Inv(l, z0, s) && i < |s.threads| && s.threads[i].Posting?
    ensures var t, log := s.threads[i], s.log + [PostEvent(s.threads[i])];
            Consistent(l, z0, log, s.calls, AfterPost(t, |s.log|)) && AdmissibleAt(l, z0, log, |s.log|)
  {
    hide Balance, ZeroTimeAfter, Commit, Pieces, Admissible, DistinctCalls, Debited, Returned, CommitCount, ReturnCount;
    var t := s.threads[i];
    var e := PostEvent(t);
    assert Consistent(l, z0, s.log, s.calls, t);
    Append(l, z0, s.log, e);
    Prefixes(s.log, e);
    assert (s.log + [e])[..|s.log| + 1] == s.log + [e];
  }

  lemma QuietConsistent(l: Limit, z0: real, s: State, i: nat, spurious: bool)
    requires Inv(l, z0, s) && i < |s.threads| && s.threads[i].Busy()
    requires Step(l, s, i, spurious).log == s.log
    ensures var t := Step(l, s, i, spurious).threads[i];
            !t.Idle? && t.call == s.threads[i].call && Consistent(l, z0, s.log, s.calls, t)
  {
    hide Balance, ZeroTimeAfter, Commit, Asked, Pieces, Admissible, DistinctCalls, CommitCount, ReturnCount;
    var t := s.threads[i];
    assert Consistent(l, z0, s.log, s.calls, t);
    assert s.log[..|s.log|] == s.log;
    if t.Trying? {
      EmptyIff(l, t.seen, t.call.now);
      LaterReturns(s.log, t.since);
    }
    assert forall e: Event :: s.log + [e] != s.log by {
      forall e: Event ensures s.log + [e] != s.log { assert |s.log + [e]| != |s.log|; }
    }
  }

  lemma LaterReturns(log: seq<Event>, i: nat)
    ensures i <= |log| ==> ReturnCount(log[..i]) <= ReturnCount(log)
  {
    if i <= |log| {
      ReturnsBetween(log, i);
    }
  }

  lemma StepKeeps(l: Limit, z0: real, s: State, i: nat, spurious: bool)
    requires Inv(l, z0, s) && i < |s.threads| && s.threads[i].Busy()
    ensures Inv(l, z0, Step(l, s, i, spurious))
  {
    hide Inv, Consistent, Balance, Commit, Ask, AdmissibleAt;
    var t, s' := s.threads[i], Step(l, s, i, spurious);
    if s'.log == s.log {
      QuietConsistent(l, z0, s, i, spurious);
      QuietKeeps(l, z0, s, i, s'.threads[i], s');
    } else if t.Trying? {
      var consumed := Ask(t.call.request, t.remaining, Balance(l, t.seen, t.call.now));
      TakeConsistent(l, z0, s, i, consumed);
      CommitKeeps(l, z0, s, i, TakeEvent(t, consumed), s'.threads[i], s');
    } else {
      PostConsistent(l, z0, s, i);
      CommitKeeps(l, z0, s, i, PostEvent(t), s'.threads[i], s');
    }
  }

  lemma NextKeeps(l: Limit, z0: real, s: State, a: Action)
    requires Inv(l, z0, s) && Enabled(s, a)
    ensures Inv(l, z0, Next(l, s, a))
  {
    if a.Begin? {
      BeginKeeps(l, z0, s, a.thread, a.request, a.now);
    } else {
      StepKeeps(l, z0, s, a.thread, a.spurious);
    }
  }

  /** Linearisation: in every interleaving the cell is the sequential replay of the committed history. */
  lemma {:induction false} RunKeeps(l: Limit, z0: real, s: State, actions: seq<Action>)
    requires Inv(l, z0, s) && Runs(l, s, actions)
    ensures Inv(l, z0, Run(l, s, actions))
    decreases |actions|
  {
    if actions != [] {
      NextKeeps(l, z0, s, actions[0]);
      RunKeeps(l, z0, Next(l, s, actions[0]), actions[1..]);
    }
  }

  // ----- What one step changes -----

  /** A step of thread `j` leaves the other threads alone and commits at most once, on behalf of its own call. */
  ghost predicate Grows(s: State, s': State, j: nat) {
    && j < |s.threads| == |s'.threads|
    && (forall i | 0 <= i < |s.threads| && i != j :: s'.threads[i] == s.threads[i])
    && s.calls <= s'.calls
    && (s'.log == s.log || (|s'.log| == |s.log| + 1 && s'.log[..|s.log|] == s.log
        && s.threads[j].Busy() && Commits(s.threads[j], s'.log[|s.log|])))
  }

  /** Event `e` is a commit that thread `t` makes. */
  ghost predicate Commits(t: Thread, e: Event)
    requires t.Busy()
  {
    && e.call == t.call.id && e.now == t.call.now
    && (if e.kind.Take? then t.Trying? else t.Posting? && (e.kind.Return? <==> t.call.request.AddTokens?))
  }

  lemma AdvanceGrows(l: Limit, s: State, j: nat, spurious: bool)
    requires Enabled(s, Advance(j, spurious))
    ensures var s' := Next(l, s, Advance(j, spurious));
            Grows(s, s', j) && !s'.threads[j].Idle? && s'.threads[j].call == s.threads[j].call && s'.calls == s.calls
  {
    hide Balance, Commit, Ask;
  }

  lemma BeginGrows(l: Limit, s: State, j: nat, r: Request, now: real)
    requires Enabled(s, Begin(j, r, now))
    ensures var s' := Next(l, s, Begin(j, r, now));
            && Grows(s, s', j) && s'.log == s.log && s'.calls == s.calls + 1
            && !s'.threads[j].Idle? && s'.threads[j].call == Call(s.calls, r, now, |s.log|)
  {
  }
}
