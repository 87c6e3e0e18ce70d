/**
 * Histories of committed writes to one shared zero time, in commit order. The clock reading
 * carried by an event may be stale: nothing here assumes that readings increase.
 */
module History {
  import opened Limits
  import opened ZeroTime

  datatype Kind = Take | Borrow | Return

  /**
   * One commit. `begun` is the number of commits made before the call started, `read` the number made before
   * the read the commit relies on: the load of the value exchanged, or the failed read that led to a borrow.
   */
  datatype Event = Event(kind: Kind, call: nat, amount: Positive, now: real, begun: nat, read: nat)

  /** The value a successful compare-and-swap writes over `z`. */
  function Commit(l: Limit, z: real, e: Event): real {
    match e.kind
    case Take => AfterTake(l, z, e.now, e.amount)
    case Borrow => AfterReturn(l, z, 0.0 - e.amount)
    case Return => AfterReturn(l, z, e.amount)
  }

  function ZeroTimeAfter(l: Limit, z0: real, log: seq<Event>): real {
    if log == [] then z0 else Commit(l, ZeroTimeAfter(l, z0, log[..|log| - 1]), log[|log| - 1])
  }

  function Debit(e: Event): real {
    if e.kind.Return? then 0.0 else e.amount
  }

  function Credit(e: Event): real {
    if e.kind.Return? then e.amount else 0.0
  }

  /** Tokens taken or borrowed. */
  function Debited(log: seq<Event>): real {
    if log == [] then 0.0 else Debited(log[..|log| - 1]) + Debit(log[|log| - 1])
  }

  /** Tokens given back. */
  function Returned(log: seq<Event>): real {
    if log == [] then 0.0 else Returned(log[..|log| - 1]) + Credit(log[|log| - 1])
  }

  /** Tokens committed on behalf of one call. */
  function Pieces(log: seq<Event>, call: nat): real {
    if log == [] then 0.0
    else
      var e := log[|log| - 1];
      Pieces(log[..|log| - 1], call) + if e.call == call then e.amount else 0.0
  }

  /** Tokens earned beyond the burst, dropped by the cap at each take. */
  function Spilled(l: Limit, z0: real, log: seq<Event>): real {
    if log == [] then 0.0
    else
      var init, e := log[..|log| - 1], log[|log| - 1];
      Spilled(l, z0, init)
      + if e.kind.Take? then Max(Earned(l, e.now - ZeroTimeAfter(l, z0, init)) - l.burst, 0.0) else 0.0
  }

  /** The number of commits made on behalf of one call. */
  function CommitCount(log: seq<Event>, call: nat): nat {
    if log == [] then 0
    else CommitCount(log[..|log| - 1], call) + if log[|log| - 1].call == call then 1 else 0
  }

  /** The number of commits that give tokens back. */
  function ReturnCount(log: seq<Event>): nat {
    if log == [] then 0 else ReturnCount(log[..|log| - 1]) + if log[|log| - 1].kind.Return? then 1 else 0
  }

  /**
   * What event `k` relies on: a take does not exceed what the bucket held at the caller's clock reading, and
   * a borrow follows a read that found the bucket empty at that reading.
   */
  ghost predicate AdmissibleAt(l: Limit, z0: real, log: seq<Event>, k: nat)
    requires k < |log|
  {
    var e := log[k];
    && e.begun <= e.read <= k
    && (e.kind.Take? ==> e.amount <= Balance(l, ZeroTimeAfter(l, z0, log[..k]), e.now))
    && (e.kind.Borrow? ==> e.now <= ZeroTimeAfter(l, z0, log[..e.read]))
  }

  ghost predicate Admissible(l: Limit, z0: real, log: seq<Event>) {
    forall k | 0 <= k < |log| :: AdmissibleAt(l, z0, log, k)
  }

  /** Nothing is given back. */
  ghost predicate OnlyDebits(log: seq<Event>) {
    forall k | 0 <= k < |log| :: !log[k].kind.Return?
  }

  lemma Append(l: Limit, z0: real, log: seq<Event>, e: Event)
    ensures ZeroTimeAfter(l, z0, log + [e]) == Commit(l, ZeroTimeAfter(l, z0, log), e)
    ensures Debited(log + [e]) == Debited(log) + Debit(e)
    ensures Returned(log + [e]) == Returned(log) + Credit(e)
    ensures forall c: nat :: Pieces(log + [e], c) == Pieces(log, c) + if e.call == c then e.amount else 0.0
    ensures forall c: nat :: CommitCount(log + [e], c) == CommitCount(log, c) + if e.call == c then 1 else 0
    ensures ReturnCount(log + [e]) == ReturnCount(log) + if e.kind.Return? then 1 else 0
  {
    assert (log + [e])[..|log|] == log;
  }

  /** The last commit of a history, and its part in the window from `j` on. */
  lemma LastCommit(l: Limit, z0: real, log: seq<Event>, j: nat)
    requires j < |log|
    ensures ZeroTimeAfter(l, z0, log) == Commit(l, ZeroTimeAfter(l, z0, log[..|log| - 1]), log[|log| - 1])
    ensures Debited(log[j..]) == Debited(log[..|log| - 1][j..]) + Debit(log[|log| - 1])
    ensures Returned(log[j..]) == Returned(log[..|log| - 1][j..]) + Credit(log[|log| - 1])
    ensures j == |log| - 1 ==> Debited(log[..|log| - 1][j..]) == 0.0 && Returned(log[..|log| - 1][j..]) == 0.0
  {
    assert log[j..][..|log[j..]| - 1] == log[..|log| - 1][j..];
  }

  lemma Prefixes(log: seq<Event>, e: Event)
    ensures forall k | 0 <= k <= |log| :: (log + [e])[..k] == log[..k]
  {
  }

  lemma AppendAdmissible(l: Limit, z0: real, log: seq<Event>, e: Event)
    requires Admissible(l, z0, log)
    requires AdmissibleAt(l, z0, log + [e], |log|)
    ensures Admissible(l, z0, log + [e])
  {
    hide ZeroTimeAfter, Balance;
    Prefixes(log, e);
    forall k | 0 <= k < |log + [e]| ensures AdmissibleAt(l, z0, log + [e], k) {
      if k < |log| {
        assert AdmissibleAt(l, z0, log, k);
      }
    }
  }

  lemma InitAdmissible(l: Limit, z0: real, log: seq<Event>, k: nat)
    requires Admissible(l, z0, log) && k <= |log|
    ensures Admissible(l, z0, log[..k])
  {
    hide ZeroTimeAfter, Balance;
    forall i | 0 <= i < k ensures AdmissibleAt(l, z0, log[..k], i) {
      assert AdmissibleAt(l, z0, log, i) && log[..k][..i] == log[..i];
      assert log[..k][..log[i].read] == log[..log[i].read];
    }
  }

  /** How far one commit moves the zero time. */
  lemma CommitMoves(l: Limit, z: real, e: Event)
    ensures e.kind.Take? ==> Commit(l, z, e) == Max(z, FullAt(l, e.now)) + Seconds(l, e.amount)
    ensures e.kind.Borrow? ==> Commit(l, z, e) == z + Seconds(l, e.amount)
    ensures e.kind.Return? ==> Commit(l, z, e) == z - Seconds(l, e.amount)
    ensures Seconds(l, e.amount) > 0.0
  {
    TakeAdvancesClampedZeroTime(l, z, e.now, e.amount);
    SecondsOrder(l, 0.0, e.amount);
    SecondsAdd(l, 0.0, e.amount);
  }

  /** Over any stretch of commits the zero time falls by no more than the time worth of the tokens given back. */
  lemma {:induction false} FallsOnlyByReturns(l: Limit, z0: real, log: seq<Event>, j: nat)
    requires j <= |log|
    ensures var c := Debited(log[j..]) - Returned(log[j..]);
            ZeroTimeAfter(l, z0, log[..j]) + Seconds(l, c) <= ZeroTimeAfter(l, z0, log)
    ensures 0.0 <= Debited(log[j..])
  {
    hide Seconds, Earned, Commit, ZeroTimeAfter;
    if j == |log| {
      assert log[..j] == log;
      SecondsAdd(l, 0.0, 0.0);
    } else {
      var init, e := log[..|log| - 1], log[|log| - 1];
      FallsOnlyByReturns(l, z0, init, j);
      assert init[..j] == log[..j];
      LastCommit(l, z0, log, j);
      CommitMoves(l, ZeroTimeAfter(l, z0, init), e);
      SecondsAdd(l, Debited(init[j..]) - Returned(init[j..]), e.amount);
    }
  }

  lemma ClampInTokens(l: Limit, z: real, now: real)
    ensures Earned(l, Max(z, FullAt(l, now)) - z) == Max(Earned(l, now - z) - l.burst, 0.0)
  {
    EarnedInSeconds(l, l.burst);
    SecondsOrder(l, Earned(l, now - z), l.burst);
    SecondsToEarn(l, now - z);
  }

  /** What one commit adds to the ledger. */
  lemma CommitInTokens(l: Limit, z: real, e: Event)
    ensures e.kind.Take? ==> Earned(l, Commit(l, z, e) - z) == e.amount + Max(Earned(l, e.now - z) - l.burst, 0.0)
    ensures e.kind.Borrow? ==> Earned(l, Commit(l, z, e) - z) == e.amount
    ensures e.kind.Return? ==> Earned(l, Commit(l, z, e) - z) == 0.0 - e.amount
  {
    hide Earned, Seconds;
    var d := Seconds(l, e.amount);
    CommitMoves(l, z, e);
    EarnedInSeconds(l, e.amount);
    ClampInTokens(l, z, e.now);
    EarnedAdd(l, 0.0, d);
    if e.kind.Take? {
      EarnedAdd(l, Max(z, FullAt(l, e.now)) - z, d);
    }
  }

  /** The conservation ledger of every concurrent run. */
  lemma {:induction false} Conservation(l: Limit, z0: real, log: seq<Event>)
    ensures Earned(l, ZeroTimeAfter(l, z0, log) - z0) == Debited(log) - Returned(log) + Spilled(l, z0, log)
    ensures Spilled(l, z0, log) >= 0.0
  {
    if log != [] {
      hide Commit, Earned;
      var init, e := log[..|log| - 1], log[|log| - 1];
      var z := ZeroTimeAfter(l, z0, init);
      Conservation(l, z0, init);
      CommitInTokens(l, z, e);
      EarnedAdd(l, z - z0, ZeroTimeAfter(l, z0, log) - z);
    }
  }

  /** Commits that start with a take leave the zero time past what one burst would have paid for. */
  lemma {:induction false} TakeFloor(l: Limit, z0: real, log: seq<Event>, j: nat)
    requires j < |log| && log[j].kind.Take?
    ensures FullAt(l, log[j].now) + Seconds(l, Debited(log[j..]) - Returned(log[j..])) <= ZeroTimeAfter(l, z0, log)
    decreases |log|
  {
    hide Seconds, Earned, Commit, Debited, Returned, ZeroTimeAfter, FullAt;
    var init, e := log[..|log| - 1], log[|log| - 1];
    LastCommit(l, z0, log, j);
    CommitMoves(l, ZeroTimeAfter(l, z0, init), e);
    SecondsAdd(l, Debited(init[j..]) - Returned(init[j..]), e.amount);
    if j < |log| - 1 {
      TakeFloor(l, z0, init, j);
    }
  }

  /**
   * Counted from the failed read of a borrow on, commits need no burst at all: the bucket was empty then.
   */
  lemma BorrowFloor(l: Limit, z0: real, log: seq<Event>, j: nat)
    requires Admissible(l, z0, log) && j < |log| && log[j].kind.Borrow?
    ensures log[j].read <= j
    ensures var from := log[j].read;
            log[j].now + Seconds(l, Debited(log[from..]) - Returned(log[from..])) <= ZeroTimeAfter(l, z0, log)
  {
    hide Seconds, Earned, ZeroTimeAfter, Debited, Returned;
    assert AdmissibleAt(l, z0, log, j);
    FallsOnlyByReturns(l, z0, log, log[j].read);
  }

  lemma {:induction false} DebitedGrows(log: seq<Event>, i: nat, j: nat)
    requires i <= j <= |log|
    ensures Debited(log[j..]) <= Debited(log[i..])
    ensures Returned(log[j..]) <= Returned(log[i..])
    ensures 0.0 <= Debited(log[j..]) && 0.0 <= Returned(log[j..])
    decreases |log|
  {
    if j == |log| {
      if i < |log| {
        var init, e := log[..|log| - 1], log[|log| - 1];
        DebitedGrows(init, i, |init|);
        assert log[i..] == init[i..] + [e];
        assert log[i..][..|log[i..]| - 1] == init[i..];
      }
    } else {
      var init, e := log[..|log| - 1], log[|log| - 1];
      DebitedGrows(init, i, j);
      assert log[i..][..|log[i..]| - 1] == init[i..] && log[j..][..|log[j..]| - 1] == init[j..];
    }
  }

  /** From where returns count against a window that starts with event `j`: from its read if it is a borrow. */
  function CountedFrom(log: seq<Event>, j: nat): nat
    requires j < |log|
  {
    if log[j].kind.Borrow? then log[j].read else j
  }

  /**
   * The window bound, in every history. Tokens committed from debit `j` on are covered by one burst, the
   * time from the clock reading of `j` to the zero time reached, and what was given back meanwhile, where
   * for a borrow meanwhile begins with its failed read. A window that ends with a take is covered by the time
   * between the two clock readings.
   */
  lemma WindowBound(l: Limit, z0: real, log: seq<Event>, j: nat)
    requires j < |log| && Admissible(l, z0, log) && !log[j].kind.Return?
    ensures CountedFrom(log, j) <= j
    ensures var given := Returned(log[CountedFrom(log, j)..]);
            && Debited(log[j..]) <= l.burst + Earned(l, ZeroTimeAfter(l, z0, log) - log[j].now) + given
            && (log[|log| - 1].kind.Take? ==>
                  Debited(log[j..]) <= l.burst + Earned(l, log[|log| - 1].now - log[j].now) + given)
  {
    hide Seconds, Earned, Balance, Debited, Returned, ZeroTimeAfter, Commit, FullAt;
    assert AdmissibleAt(l, z0, log, j);
    var from := CountedFrom(log, j);
    var z, t, c := ZeroTimeAfter(l, z0, log), log[j].now, Debited(log[from..]) - Returned(log[from..]);
    if log[j].kind.Borrow? {
      BorrowFloor(l, z0, log, j);
      FullBefore(l, t);
    } else {
      TakeFloor(l, z0, log, j);
    }
    DebitedGrows(log, from, j);
    InTokens(l, c, z, t);
    if log[|log| - 1].kind.Take? {
      TakeEndsBefore(l, z0, log, |log| - 1);
      assert log[..|log| - 1 + 1] == log;
      InTokens(l, c, log[|log| - 1].now, t);
    }
  }

  lemma InTokens(l: Limit, c: real, z: real, t: real)
    ensures FullAt(l, t) + Seconds(l, c) <= z <==> c <= l.burst + Earned(l, z - t)
    ensures t + Seconds(l, c) <= z <==> c <= Earned(l, z - t)
  {
    SecondsToEarn(l, z - t);
    SecondsAdd(l, c, l.burst);
    SecondsOrder(l, Earned(l, z - t), c - l.burst);
    SecondsOrder(l, Earned(l, z - t), c);
  }

  /** A take never moves the zero time past its own clock reading. */
  lemma TakeEndsBefore(l: Limit, z0: real, log: seq<Event>, k: nat)
    requires Admissible(l, z0, log) && k < |log| && log[k].kind.Take?
    ensures ZeroTimeAfter(l, z0, log[..k + 1]) <= log[k].now
  {
    hide Seconds, Earned, Balance, FullAt;
    var z := ZeroTimeAfter(l, z0, log[..k]);
    assert AdmissibleAt(l, z0, log, k);
    assert log[..k + 1] == log[..k] + [log[k]];
    Append(l, z0, log[..k], log[k]);
    TakeAdvancesClampedZeroTime(l, z, log[k].now, log[k].amount);
    CoveredIff(l, z, log[k].now, log[k].amount);
  }

  /**
   * The unrolled recurrence, in every history: the zero time equals one of the floors set by the initial
   * state and by the windows that start with a take. Result -1 stands for the initial state.
   */
  lemma {:induction false} FloorReached(l: Limit, z0: real, log: seq<Event>) returns (j: int)
    ensures -1 <= j < |log|
    ensures j == -1 ==> ZeroTimeAfter(l, z0, log) == z0 + Seconds(l, Debited(log) - Returned(log))
    ensures j >= 0 ==>
              && log[j].kind.Take?
              && ZeroTimeAfter(l, z0, log) == FullAt(l, log[j].now) + Seconds(l, Debited(log[j..]) - Returned(log[j..]))
    decreases |log|
  {
    hide Seconds, Earned, Commit, Debited, Returned, ZeroTimeAfter, FullAt;
    if log == [] {
      EmptyFloor(l, z0);
      return -1;
    }
    var init, e := log[..|log| - 1], log[|log| - 1];
    var z := ZeroTimeAfter(l, z0, init);
    CommitMoves(l, z, e);
    if e.kind.Take? && z <= FullAt(l, e.now) {
      j := |log| - 1;
      LastCommit(l, z0, log, j);
    } else {
      j := FloorReached(l, z0, init);
      var from := if j >= 0 then j else 0;
      LastCommit(l, z0, log, from);
      SecondsAdd(l, Debited(init[from..]) - Returned(init[from..]), e.amount);
      assert j == -1 ==> init[from..] == init && log[from..] == log;
    }
  }

  lemma EmptyFloor(l: Limit, z0: real)
    ensures ZeroTimeAfter(l, z0, []) == z0 + Seconds(l, Debited([]) - Returned([]))
  {
    SecondsAdd(l, 0.0, 0.0);
  }

  /**
   * With `n` more tokens at `now`, the window that starts with the take at `j` exceeds one burst, what was
   * earned in it and what was given back in it.
   */
  ghost predicate OverdrawsWindow(l: Limit, log: seq<Event>, j: nat, now: real, n: real)
    requires j < |log|
  {
    log[j].kind.Take? && Debited(log[j..]) + n > l.burst + Earned(l, now - log[j].now) + Returned(log[j..])
  }

  /** Granting `n` more tokens at `now` would overdraw the initial state or some window of the history. */
  ghost predicate Overdraws(l: Limit, z0: real, log: seq<Event>, now: real, n: real) {
    || Debited(log) + n > Earned(l, now - z0) + Returned(log)
    || exists j | 0 <= j < |log| :: OverdrawsWindow(l, log, j, now, n)
  }

  lemma Exceeds(l: Limit, c: real, n: real, t: real, now: real)
    ensures now < FullAt(l, t) + Seconds(l, c) + Seconds(l, n) <==> l.burst + Earned(l, now - t) < c + n
    ensures now < t + Seconds(l, c) + Seconds(l, n) <==> Earned(l, now - t) < c + n
  {
    SecondsAdd(l, c, n);
    InTokens(l, c + n, now, t);
  }

  /**
   * Debiting `n` tokens would carry the zero time past `now` exactly when it would overdraw the initial state or
   * some window.
   */
  lemma PastIffOverdraws(l: Limit, z0: real, log: seq<Event>, now: real, n: real)
    ensures now < ZeroTimeAfter(l, z0, log) + Seconds(l, n) <==> Overdraws(l, z0, log, now, n)
  {
    hide Seconds, FullAt, Earned, Balance, Debited, Returned, ZeroTimeAfter;
    Exceeds(l, Debited(log) - Returned(log), n, z0, now);
    if now < ZeroTimeAfter(l, z0, log) + Seconds(l, n) {
      var j := FloorReached(l, z0, log);
      if j >= 0 {
        Exceeds(l, Debited(log[j..]) - Returned(log[j..]), n, log[j].now, now);
        assert OverdrawsWindow(l, log, j, now, n);
      }
    } else {
      FallsOnlyByReturns(l, z0, log, 0);
      EmptyHistory(l, z0, log);
      assert log[0..] == log;
      forall j | 0 <= j < |log| ensures !OverdrawsWindow(l, log, j, now, n) {
        if log[j].kind.Take? {
          TakeFloor(l, z0, log, j);
          Exceeds(l, Debited(log[j..]) - Returned(log[j..]), n, log[j].now, now);
        }
      }
    }
  }

  /**
   * The bucket is the most permissive limiter, in every history: a request the burst could cover is refused
   * exactly when granting it would overdraw the initial state or some window.
   */
  lemma RefusedIffOverdraws(l: Limit, z0: real, log: seq<Event>, now: real, n: Positive)
    requires n <= l.burst
    ensures Balance(l, ZeroTimeAfter(l, z0, log), now) < n <==> Overdraws(l, z0, log, now, n)
  {
    hide Seconds, Balance, ZeroTimeAfter, Overdraws;
    CoveredIff(l, ZeroTimeAfter(l, z0, log), now, n);
    PastIffOverdraws(l, z0, log, now, n);
  }

  lemma EmptyHistory(l: Limit, z0: real, log: seq<Event>)
    ensures ZeroTimeAfter(l, z0, log[..0]) == z0
  {
  }

  /** The first debit of a history: nothing is debited before it. */
  lemma {:induction false} FirstDebit(log: seq<Event>) returns (j: nat)
    requires Debited(log) > 0.0
    ensures j < |log| && !log[j].kind.Return? && Debited(log[j..]) == Debited(log)
    ensures forall k | 0 <= k < j :: log[k].kind.Return?
    decreases |log|
  {
    hide Debited, Returned;
    assert log != [] by { NoDebit(log); }
    var init, e := log[..|log| - 1], log[|log| - 1];
    DebitSplit(log, |log| - 1);
    LastDebit(log);
    if Debited(init) > 0.0 {
      j := FirstDebit(init);
      DebitSplit(log, j);
      DebitSplit(init, j);
      assert log[..j] == init[..j];
    } else {
      j := |log| - 1;
      NothingDebited(init);
    }
  }

  lemma NoDebit(log: seq<Event>)
    ensures log == [] ==> Debited(log) == 0.0
  {
  }

  lemma LastDebit(log: seq<Event>)
    requires log != []
    ensures Debited(log) == Debited(log[..|log| - 1]) + Debit(log[|log| - 1])
    ensures Debited(log[|log| - 1..]) == Debit(log[|log| - 1])
  {
    assert log[|log| - 1..] == [log[|log| - 1]];
    assert log[|log| - 1..][..0] == [];
  }

  lemma {:induction false} NothingDebited(log: seq<Event>)
    requires Debited(log) <= 0.0
    ensures Debited(log) == 0.0 && forall k | 0 <= k < |log| :: log[k].kind.Return?
  {
    if log != [] {
      DebitedGrows(log[..|log| - 1], 0, 0);
      assert log[..|log| - 1][0..] == log[..|log| - 1];
      NothingDebited(log[..|log| - 1]);
    }
  }

  lemma {:induction false} DebitSplit(log: seq<Event>, i: nat)
    requires i <= |log|
    ensures Debited(log) == Debited(log[..i]) + Debited(log[i..])
    ensures Returned(log) == Returned(log[..i]) + Returned(log[i..])
    decreases |log|
  {
    if i == |log| {
      assert log[..i] == log;
    } else {
      var init := log[..|log| - 1];
      DebitSplit(init, i);
      assert init[..i] == log[..i] && log[i..][..|log[i..]| - 1] == init[i..];
    }
  }

  lemma {:induction false} PiecesSplit(log: seq<Event>, call: nat, i: nat)
    requires i <= |log|
    ensures Pieces(log, call) == Pieces(log[..i], call) + Pieces(log[i..], call)
    decreases |log|
  {
    if i == |log| {
      assert log[..i] == log;
    } else {
      var init := log[..|log| - 1];
      PiecesSplit(init, call, i);
      assert init[..i] == log[..i] && log[i..][..|log[i..]| - 1] == init[i..];
    }
  }

  /** A call that makes all the debits, and no return, has committed what is debited. */
  lemma {:induction false} SplitByCall(log: seq<Event>, call: nat)
    requires forall k | 0 <= k < |log| && !log[k].kind.Return? :: log[k].call == call
    requires forall k | 0 <= k < |log| && log[k].kind.Return? :: log[k].call != call
    ensures Debited(log) == Pieces(log, call)
  {
    if log != [] {
      SplitByCall(log[..|log| - 1], call);
    }
  }

  lemma {:induction false} DebitsInclude(log: seq<Event>, k: nat)
    requires k < |log| && !log[k].kind.Return?
    ensures log[k].amount <= Debited(log)
    decreases |log|
  {
    var init := log[..|log| - 1];
    DebitedGrows(init, 0, |init|);
    assert init[0..] == init;
    if k < |init| {
      DebitsInclude(init, k);
    }
  }

  // ----- Histories without returns -----

  lemma {:induction false} NothingReturned(log: seq<Event>)
    requires OnlyDebits(log)
    ensures Returned(log) == 0.0 && ReturnCount(log) == 0
  {
    if log != [] {
      NothingReturned(log[..|log| - 1]);
    }
  }

  lemma {:induction false} NoneReturned(log: seq<Event>)
    requires ReturnCount(log) == 0
    ensures OnlyDebits(log)
  {
    if log != [] {
      NoneReturned(log[..|log| - 1]);
    }
  }

  /** Without returns the zero time never falls. */
  lemma NeverFalls(l: Limit, z0: real, log: seq<Event>, i: nat)
    requires i <= |log| && OnlyDebits(log[i..])
    ensures ZeroTimeAfter(l, z0, log[..i]) <= ZeroTimeAfter(l, z0, log)
  {
    hide Seconds, Earned, ZeroTimeAfter, Debited, Returned;
    FallsOnlyByReturns(l, z0, log, i);
    NothingReturned(log[i..]);
    SecondsOrder(l, Debited(log[i..]), 0.0);
    SecondsAdd(l, 0.0, 0.0);
  }

  /** A borrow with no return since its failed read still finds the bucket empty. */
  lemma BorrowsWhenEmpty(l: Limit, z0: real, log: seq<Event>, k: nat)
    requires Admissible(l, z0, log) && k < |log| && log[k].kind.Borrow?
    requires log[k].read <= k ==> OnlyDebits(log[log[k].read..k])
    ensures log[k].now <= ZeroTimeAfter(l, z0, log[..k])
  {
    hide ZeroTimeAfter;
    assert AdmissibleAt(l, z0, log, k);
    assert log[..k][..log[k].read] == log[..log[k].read] && log[..k][log[k].read..] == log[log[k].read..k];
    NeverFalls(l, z0, log[..k], log[k].read);
  }

  /** From `i` on, all commits are debits at clock reading `now` by calls that have read nothing before `i`. */
  ghost predicate DebitsAt(log: seq<Event>, i: nat, now: real) {
    forall k | i <= k < |log| :: log[k].now == now && !log[k].kind.Return? && i <= log[k].read
  }

  /** Commits that all use one clock reading clamp the zero time once and then only add up. */
  lemma {:induction false} OneClampThenSum(l: Limit, z0: real, log: seq<Event>, i: nat, now: real)
    requires Admissible(l, z0, log) && i < |log| && DebitsAt(log, i, now)
    ensures ZeroTimeAfter(l, z0, log) == Charged(l, ZeroTimeAfter(l, z0, log[..i]), now, Debited(log[i..]))
    decreases |log|
  {
    hide Seconds, Earned, Commit, ZeroTimeAfter, AdmissibleAt, Debited, FullAt;
    var init, e := log[..|log| - 1], log[|log| - 1];
    InitAdmissible(l, z0, log, |log| - 1);
    LastCommit(l, z0, log, i);
    CommitMoves(l, ZeroTimeAfter(l, z0, init), e);
    FullBefore(l, now);
    SecondsAdd(l, Debited(init[i..]), e.amount);
    if e.kind.Borrow? {
      BorrowsWhenEmpty(l, z0, log, |log| - 1);
    }
    if i < |init| {
      OneClampThenSum(l, z0, init, i, now);
      assert init[..i] == log[..i];
      DebitedGrows(init, i, |init|);
      SecondsOrder(l, Debited(init[i..]), 0.0);
      SecondsAdd(l, 0.0, 0.0);
    }
  }
}
