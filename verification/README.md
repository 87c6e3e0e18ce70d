# A verified model of the gardal token bucket

Gardal keeps the whole state of a token bucket in one number, the *zero time*: the instant at which the
bucket held no tokens. The balance at `now` is `min((now - zeroTime) * rate, burst)`, every operation is a
compare-and-swap loop on the zero time, and a throttled stream holds each item back for as long as the
bucket says. This project models the three layers of that design and proves what they promise.

* **The lock-free bucket** (`LockFree`, theorems in `Spans`, `Borrowing`, `HiddenDebt`, `Progress`, `FrozenClock`,
  `Linearisation`). Any number of threads run calls against one shared cell, each step being one atomic access.
  A compare-and-swap may fail because another thread won or spuriously, clock readings are arbitrary reals
  (stale or running backwards), tokens may be given back at any time, and a borrowing call is the four-stage,
  non-atomic sequence it is in the source. A state carries the history of commits; `History` holds the laws of
  such histories.
* **The sequential bucket** (`Storage`, `TokenBuckets`: classes with the source's loops), proved against the
  specification `Sequential`, which in turn refines the textbook bucket in `Textbook`.
* **Throttled streams** (`WeightedStreams`: a class with the fields `poll_next` updates; `Delivery` for order
  and schedule; `Pacing` for many streams polled concurrently over one lock-free bucket, and `Polls` for how that
  world relates to the bucket and the stream it is made of).

`Limits` and `ZeroTime` hold limits, the conversion between tokens and seconds, and the zero-time arithmetic.

## Main results

1. *Window bound.* In every interleaving, the tokens debited from any debit to any later commit are at most one
   burst, plus what the rate earns between their clock readings if the window ends with a take (otherwise from
   the first clock reading to the zero time reached), plus what was given back meanwhile. For a window that
   starts with a borrow, meanwhile begins with the read, inside that call, that found the bucket empty. Nothing
   is assumed about the order of clock readings.
2. *Most permissive limiter.* In every interleaving a `consume` or `try_consume` of at most the burst is decided
   at a moment within the call, and refused exactly when granting it then would overdraw the initial state or
   some window that starts with a take. A `saturating_consume` gets, up to its request and the burst, as much as
   these windows allow, and the wait of a call that borrowed ends at the first moment, from its clock reading
   on, at which what had been committed when the call ended overdraws none of them.
3. *Global pacing.* Streams that share a bucket with each other and with callers of every kind never deliver
   more than one burst plus what the rate has earned since the clock reading of the first debit plus what was
   given back; nor more than what it earned since the initial zero time plus what was given back, or nothing if
   that is negative. Here clock readings may be stale but not lie in the future, and timers never fire early.
   An item is held back for exactly the time between the clock reading of its poll and the zero time at the end
   of its call, nobody is ever stuck, and from every reachable state a stream without an item heavier than the
   burst can deliver its whole source. A poll that runs alone is a poll of the sequential stream.
4. *Sound waits and bounded work.* In every interleaving the pieces of a borrowing call sum to its request, and
   it makes at most two commits and one more for each return committed during the call. Its wait covers each of
   its own commits up to what is given back after that commit and before the call ends; if nothing is given back
   during the call, a call that borrowed reports a positive wait that covers them all. Compare-and-swaps that find
   the cell changed are paid for by the commits of other threads, the steps of a run are bounded by its calls,
   its returns and the steps that may fail spuriously, and a thread that runs alone finishes its call.
5. *Linearisation.* In every interleaving `consume`, `try_consume`, `saturating_consume` and `add_tokens` take
   effect, answer and state change, at one moment within the call. A borrowing call that found all its tokens
   does so exactly when it took them in one commit, hence whenever nothing is given back during the call. Every
   call during which nobody else commits behaves as the sequential one; so does, from every reachable state, every
   call that starts and runs alone. The retry hint keeps its meaning in the history that follows, and at a frozen
   clock the outcome does not depend on the interleaving.
6. *Refinement* of the textbook bucket by every run of all operations with limit changes and a clock that does
   not go back, apart from one answer: the wait of a `try_consume` above the burst. Apart from it, two buckets
   under one limit answer alike from a moment on exactly when their balances at that moment are equal; that wait
   included, exactly when their zero times are equal.
7. *Exact schedule* of a stream alone on its bucket. *Integrity* of every stream, with other calls between its
   polls and, for many streams over one bucket, between the steps of its payments: items are delivered in order,
   none is lost, the end is reported only when all are delivered, and enough polls deliver them all.

Assumptions: amounts and times are exact reals; a limit has a positive rate and a burst of at least one
(which the constructors of `Limit` guarantee); token amounts are arbitrary positive reals, which covers the
source's nonzero integers; timers never fire early and run on the bucket's time scale. A spurious failure
happens finitely often: in the classes a cell carries the number still to come.

## Where the promises and the code differ

* A borrowing call is documented to return a wait whenever it borrowed. With a concurrent `add_tokens` it may
  return none: for one borrow of at most the burst and one return, some interleaving borrows and reports nothing
  exactly when the request exceeds the balance and the return covers the rest (`ReturnHidesDebtIff`;
  `ReturnHidesDebt` is an instance). In every run the debt is reported unless at least as much as was borrowed is
  given back between the read that found the bucket empty and the end of the call (`BorrowReportsDebt`);
  `ReportsDebtIff` gives the exact ledger.
* The hint of a refused `try_consume` is documented as the time after which to retry. It is, exactly when the
  burst covers the request (`RetryHint`); above the burst no retry ever succeeds, and the hint is negative,
  against an assertion in the source, exactly when the request is also below what the bucket would hold without
  its cap (`HintNegativeIff`; `NegativeHint` is an instance).
* The bucket is documented as a token bucket, but the wait of a `try_consume` above the burst also depends on how
  long the bucket has been full. It is the time to earn what is missing, as for the textbook bucket, exactly
  unless the bucket would hold more than the burst without its cap (`ServeSimulates`). `SameBalanceOtherHint`
  shows buckets of equal balance with different waits; `SameZeroTimeSameFuture` says that no two zero times are
  alike to a caller who looks at it.
* A borrowing call that answers `Ok(None)` is documented to consume immediately without borrowing. It may take its
  tokens in several commits, with other calls in between, and then takes effect at no single moment
  (`PaidLinearisesIff`; `PaidInPieces` is an instance).
* A change of limit is documented to maintain the balance proportionally. The code keeps the number of tokens,
  cut off at the new burst (`SetLimitKeepsHeld`). That is proportional exactly for an empty bucket, an unchanged
  burst, and a full bucket whose burst shrinks (`ProportionalIff`; `NotProportional` is an instance that fails).

## Model

| member | source | states |
|---|---|---|
| ZeroTime.TakeAdvancesClampedZeroTime | src/storage.rs:69-75 | the zero time a take writes is the old one, first raised to that of a full bucket, plus the time worth of the tokens taken |
| ZeroTime.CoveredIff | src/raw_bucket.rs:98-100 | the balance covers a request exactly when paying for it leaves the zero time no later than the clock reading |
| History.Conservation | src/storage.rs:69-75 | over every history the zero time moves, in tokens, by what was taken and borrowed less what was returned plus what the cap spilled, and spills are never negative |
| History.FallsOnlyByReturns | src/storage.rs:120-136 | the zero time never falls by more than the time worth of the tokens given back |
| History.TakeFloor | src/storage.rs:67-85 | every window that starts with a take pushes the zero time at least to what one burst at its clock reading would have paid for, less returns |
| History.BorrowFloor | src/raw_bucket.rs:242-244 | from the failed read of a borrow on, debits less returns push the zero time at least that far past the borrower's clock reading, with no burst allowed |
| History.WindowBound | src/storage.rs:67-136 | in every history, for a window that starts with any debit: debits are at most burst plus earnings up to the zero time reached, and up to the last clock reading if the window ends with a take, plus what was given back meanwhile; for a window that starts with a borrow, since its failed read |
| History.TakeEndsBefore | src/storage.rs:69-75 | a take never moves the zero time past its own clock reading |
| History.FloorReached | src/storage.rs:69-75 | in every history the zero time equals one of the floors set by the initial state and by the windows that start with a take, so the floors are tight |
| History.PastIffOverdraws | src/storage.rs:69-75 | in every history and for any amount, the zero time plus the time worth of the amount lies after a moment exactly when debiting the amount then would overdraw the initial state or some window that starts with a take |
| History.RefusedIffOverdraws | src/storage.rs:69-75 | in every history a request of at most the burst finds too little exactly when granting it would overdraw the initial state or some window that starts with a take, returns counted |
| LockFree.RunKeeps | src/storage.rs:61-141 | in every interleaving the cell is the sequential replay of the committed history, every value a thread holds is the replay of a prefix no older than its call, and every call has committed exactly what its program counter says |
| LockFree.StepKeeps | src/storage.rs:67-85 | one step of any thread, successful, failing or spuriously failing, keeps all of the above |
| Spans.SpanOfCall | src/raw_bucket.rs:226-294 | in every run the recorded start and end of a call are those of the run: as many commits had been made at the action that starts it, and at the step that produces its reply, as the call records, and it is under way in between |
| Spans.HistoryAt | src/storage.rs:61-136 | at every earlier moment of a run the cell was the replay of the commits made by then, and these are the first of the final history |
| Spans.RunCounts | src/storage/atomic.rs:30-41 | over every run the counters count exactly the calls begun, the compare-and-swaps that found the cell changed, and those that failed on an unchanged cell, which are among the steps that may fail spuriously |
| Borrowing.BorrowsFromEmptyBucket | src/raw_bucket.rs:238-249 | in every run, whenever a borrow is pending the bucket holds at the caller's clock reading at most what was given back since the read that found nothing, which lies within the call; the outer loop runs at most two rounds and one for each return during the call |
| Borrowing.FewCommitsPerCall | src/raw_bucket.rs:238-249 | in every run a call makes at most two commits and one for each return committed during the call |
| Borrowing.PiecesSumToRequest | src/raw_bucket.rs:226-294 | in every run a finished borrowing call has committed exactly its request, capped for the saturating form, and fails exactly when the uncapped form asks for more than the burst |
| Borrowing.WaitsCoverOwnCommits | src/raw_bucket.rs:243-246 | in every run clock reading plus wait reaches the zero time left by each of the call's own commits, less the time worth of later returns; a call that did not borrow need not wait |
| Borrowing.SoundWaits | src/raw_bucket.rs:243-246 | if nothing is given back during the call, a call that borrowed returns a positive wait that covers all its own commits, though the debt is read by a later load |
| Borrowing.BorrowReportsDebt | src/raw_bucket.rs:238-246 | in every run a call that borrowed reports a wait unless at least as much as it borrowed was given back between the read that found the bucket empty and the end of the call |
| Borrowing.ConcurrentWindowBound | src/storage.rs:61-136 | the window bound from any debit to any later commit of any interleaving; what is given back meanwhile counts, for a window that starts with a borrow from that call's failed read on |
| Borrowing.DecidedByWindows | src/raw_bucket.rs:94-101 | in every run each finished consume or try_consume of at most the burst is decided at a moment within the call and refused exactly when granting it then would overdraw the initial state or a window that starts with a take |
| Borrowing.GrantsAllTheWindowsAllow | src/raw_bucket.rs:183-193 | in every run, up to the request of a saturating consume and the burst, an amount would have overdrawn the initial state or a window that starts with a take, at a moment within the call, exactly when it exceeds what the call was granted |
| Borrowing.ShortestWaits | src/raw_bucket.rs:243-246 | in every run, for a call that borrowed and every moment from its clock reading on: its wait is not over exactly when the commits up to the end of the call overdraw the initial state or a window that starts with a take |
| Borrowing.RunConserves | src/storage.rs:61-136 | the conservation ledger of every interleaving, returns included |
| Borrowing.ReportsDebtIff | src/raw_bucket.rs:238-246 | in every run a call that borrowed reports a wait exactly when what was given back, from the read that found the bucket empty to the end of the call, is less than the debt then, the debits since and the spills since |
| HiddenDebt.HidingNeedsCover | src/raw_bucket.rs:238-246 | in no interleaving of one borrow and one return does the borrower go untold of its debt unless the request exceeds the initial balance and the return covers the rest |
| HiddenDebt.ReturnHidesDebtIff | src/raw_bucket.rs:238-246 | for one borrow of at most the burst and one return, some interleaving borrows and reports nothing to wait for exactly when the request exceeds the balance and the return covers the rest |
| HiddenDebt.ReturnHidesDebt | src/raw_bucket.rs:238-246 | a concrete such interleaving: 5 tokens borrowed from an empty bucket while 8 are given back |
| Progress.FailsOnlyIfStale | src/storage/atomic.rs:30-41 | a compare-and-swap that fails without being spurious belongs to a thread whose load precedes the latest commit |
| Progress.AmortisedLockFreedom | src/storage.rs:68-85 | with n threads, the compare-and-swaps of a run that find the cell changed never exceed n - 1 times the commits |
| Progress.BoundedWork | src/raw_bucket.rs:238-249 | with n threads the commits of a run are at most two for each call begun plus n for each return, and its steps at most 2n + 6 for each call begun plus n squared plus n for each return plus the steps that may fail spuriously |
| Progress.FinishesAlone | src/storage.rs:67-85 | obstruction freedom: from every state that satisfies the invariant, a thread in the middle of a call that runs alone finishes it, after at most one failed compare-and-swap |
| FrozenClock.Confluence | src/bucket.rs:601-645 | if all calls are consumes or try_consumes at one clock reading and ask for no more than is available, none is refused in any interleaving, and once all threads rest what remains is what was available less what was asked |
| FrozenClock.SameTotalSameZeroTime | src/storage.rs:69-75 | at one clock reading and without returns the zero time depends only on the total committed |
| Linearisation.CommitsAreSequential | src/storage.rs:69-136 | each take and each return is one transition of the sequential bucket; a borrow lowers the uncapped balance by its amount, which is a sequential debit exactly when the zero time is not before that of a full bucket |
| Linearisation.CallsLinearise | src/storage.rs:61-136 | every finished consume, try_consume, saturating consume and add_tokens, and every borrowing call refused for exceeding the burst, takes effect, answer and state change, at one moment between its start and its end |
| Linearisation.PaidLinearisesIff | src/raw_bucket.rs:238-249 | in every run a borrowing call that found all its tokens takes effect at one moment between its start and its end exactly when it took them in one commit, and it did so if nothing was given back during the call |
| Linearisation.PaidInPieces | src/raw_bucket.rs:238-249 | a concrete run in which such a call takes effect at no single moment |
| Linearisation.UndisturbedCalls | src/raw_bucket.rs:88-294 | in every run a call of any kind during which nobody else commits changes the bucket and answers as the sequential one, wait included |
| Linearisation.CallsAlone | src/raw_bucket.rs:88-294 | from every reachable state a call of any kind that starts and runs alone finishes within seven steps, changes the value in the cell as the sequential one and answers as it does |
| Linearisation.BorrowTold | src/raw_bucket.rs:242-292 | in every run a call that borrowed is told: in the capped form that it borrowed all its pieces together, even if there is nothing to wait for; in the plain form a wait exactly when the zero time at the end of the call is after its clock reading, and then the difference |
| Linearisation.HintsLinearise | src/raw_bucket.rs:152-162 | in every interleaving the wait of a refused try_consume of at most the burst is positive; until something is given back no later moment grants a retry before the wait is over, and until something is debited every later moment grants a retry after it; above the burst no moment ever does |
| Sequential.DebitLowersHeld | src/storage.rs:69-75 | paying lowers the balance by exactly the price and leaves a debt that takes the time of the missing tokens to earn |
| Sequential.AddRaisesHeld | src/raw_bucket.rs:204-208 | adding tokens raises the balance by that number, capped at the burst |
| Sequential.SetLimitKeepsHeld | src/bucket.rs:133-138 | a change of limit keeps the number of tokens, debt included, exactly when the new burst covers it, and otherwise cuts it to the new burst |
| Sequential.ProportionalIff | src/bucket.rs:126-138 | a change of limit keeps the balance in proportion to the burst, as documented, exactly if the bucket is empty, the burst is unchanged, or the bucket is full and the burst shrinks |
| Sequential.NotProportional | src/bucket.rs:126-138 | a concrete failure: 5 of 10 tokens stay 5 when the burst becomes 20 |
| Sequential.HeldGrows | src/storage.rs:51-56 | between operations the balance grows at the rate up to the burst |
| Sequential.RetryHint | src/raw_bucket.rs:152-164 | retrying after the hinted wait succeeds exactly when the burst covers the request; then the wait is positive and retries succeed from then on and never before |
| Sequential.HintNegativeIff | src/raw_bucket.rs:158-159 | the hint is negative, against the source's assertion, exactly for a request above the burst and below what the bucket would hold without its cap |
| Sequential.NegativeHint | src/raw_bucket.rs:158-159 | a concrete negative hint: 50 tokens asked of a bucket of burst 10 that has been full for 90 seconds |
| Sequential.CappedBorrow | src/raw_bucket.rs:268-294 | the capped borrowing call has the state effect and wait of the plain one on the capped request |
| Textbook.ServeSimulates | src/raw_bucket.rs:88-294 | each operation simulates the textbook one: the level stays the balance, and the answer is the same, except exactly for a try_consume above the burst on a bucket that would hold more than the burst without its cap, where the suggested waits differ |
| Textbook.Refinement | src/storage.rs:51-136 | over every run of all operations with limit changes and a clock that does not go back, the final balance is that of the textbook bucket, and so are all answers apart from the wait of a try_consume above the burst |
| Textbook.SameBalanceSameFuture | src/bucket.rs:118-124 | the answers of two buckets under one limit, apart from the wait of a try_consume above the burst, are the same in every later run exactly when their balances are equal now |
| Textbook.SameZeroTimeSameFuture | src/bucket.rs:118-124 | all answers of two buckets under one limit, that wait included, are the same in every later run exactly when their zero times are equal |
| Textbook.SameBalanceOtherHint | src/raw_bucket.rs:157-162 | a failing input for every full bucket: buckets that all hold 10 tokens suggest different waits for 50, and the textbook bucket another |
| Textbook.PlainSpends | src/raw_bucket.rs:88-193 | an operation that neither borrows nor returns spends only what the bucket holds |
| Textbook.SpendingIsEarned | src/bucket.rs:133-161 | across limit changes, operations that neither borrow nor return consume at most the starting balance plus what each epoch earned at its own rate, nothing if that is negative, and hence at most the starting burst plus these earnings |
| Textbook.SpentIsPaid | src/raw_bucket.rs:88-250 | what an operation's answer says it spent is what the balance loses, for every operation but a change of limit, a return and the capped borrowing call |
| Textbook.LedgerAcrossLimits | src/bucket.rs:133-161 | the exact ledger across limit changes, for operations that neither borrow nor return: what is held, spent, and lost to the cap or to a smaller burst is what was held and what each epoch earned |
| Storage.TimeCell.CompareExchangeWeak | src/storage/atomic.rs:83-86 | an atomic cell stores only on a match and reports the current value otherwise; a local cell (src/storage/local.rs) always stores |
| Storage.TokenBucketStorage.Consume | src/storage.rs:61-86 | for either kind of cell, consumes what the callback asks for given the balance and advances the clamped zero time by its time worth, or leaves it |
| Storage.TokenBucketStorage.Consume2 | src/storage.rs:91-116 | the same, reporting the zero time read when nothing is consumed |
| Storage.TokenBucketStorage.ReturnTokens | src/storage.rs:120-136 | lowers the zero time by the time worth of the tokens and returns it |
| Storage.TokenBucketStorage.GetBalance | src/storage.rs:51-56 | the capped balance, state unchanged |
| Storage.TokenBucketStorage.TimeWhenBucket | src/storage.rs:139-141 | when the bucket will hold the target |
| Storage.TokenBucketStorage.Reset | src/storage.rs:46-48 | overwrites the zero time |
| TokenBuckets.RawTokenBucket.GetZeroTime | src/raw_bucket.rs:40-42 | the zero time, state unchanged |
| TokenBuckets.RawTokenBucket.BalanceAt | src/raw_bucket.rs:320-322 | the balance at a given time, negative in debt |
| TokenBuckets.RawTokenBucket.Available | src/raw_bucket.rs:304-306 | the balance, zero in debt |
| TokenBuckets.RawTokenBucket.Consume | src/raw_bucket.rs:88-102 | all or nothing, as specified sequentially |
| TokenBuckets.RawTokenBucket.TryConsume | src/raw_bucket.rs:143-165 | all or nothing with the retry hint |
| TokenBuckets.RawTokenBucket.SaturatingConsume | src/raw_bucket.rs:183-193 | as much as there is, up to the request |
| TokenBuckets.RawTokenBucket.SaturatingConsumeInner | src/raw_bucket.rs:325-329 | consumes the request cut to the available tokens |
| TokenBuckets.RawTokenBucket.AddTokens | src/raw_bucket.rs:204-208 | returns tokens without reading a clock |
| TokenBuckets.RawTokenBucket.PayOrBorrow | src/raw_bucket.rs:238-249 | the loop shared by both borrowing calls debits exactly the request in one closed form, borrows exactly if the zero time ends after the clock reading, and then waits until it |
| TokenBuckets.TakePiece | src/raw_bucket.rs:239-241 | a piece smaller than the rest leaves the bucket empty at the clock reading |
| TokenBuckets.RawTokenBucket.ConsumeWithBorrow | src/raw_bucket.rs:226-250 | the borrowing call, its wait, and its error above the burst |
| TokenBuckets.RawTokenBucket.SaturatingConsumeWithBorrow | src/raw_bucket.rs:268-294 | the capped borrowing call |
| TokenBuckets.RawTokenBucket.SetCapacity | src/raw_bucket.rs:67-69 | stores the zero time of a bucket that holds the given tokens |
| TokenBuckets.TokenBucket.WithZeroTime | src/bucket.rs:118-124 | a bucket with the given zero time and limit |
| TokenBuckets.TokenBucket.GetZeroTime | src/bucket.rs:417-419 | the zero time, from which `WithZeroTime` restores the contents |
| TokenBuckets.TokenBucket.Reset | src/bucket.rs:133-138 | changes the limit as specified sequentially |
| TokenBuckets.TokenBucket.UpdateLimit | src/bucket.rs:151-161 | a new bucket over the same storage, its contents those of a change of limit |
| TokenBuckets.TokenBucket.Consume | src/bucket.rs:194-196 | consume under the bucket's own limit |
| TokenBuckets.TokenBucket.TryConsume | src/bucket.rs:255-258 | try_consume under the bucket's own limit |
| TokenBuckets.TokenBucket.SaturatingConsume | src/bucket.rs:288-291 | saturating_consume under the bucket's own limit |
| TokenBuckets.TokenBucket.AddTokens | src/bucket.rs:314-316 | add_tokens under the bucket's own limit |
| TokenBuckets.TokenBucket.ConsumeWithBorrow | src/bucket.rs:353-359 | consume_with_borrow under the bucket's own limit |
| TokenBuckets.TokenBucket.SaturatingConsumeWithBorrow | src/bucket.rs:375-381 | the capped form under the bucket's own limit |
| TokenBuckets.TokenBucket.GetBalance | src/bucket.rs:403-405 | the balance, negative in debt |
| TokenBuckets.TokenBucket.GetAvailable | src/bucket.rs:391-393 | the balance, zero in debt |
| TokenBuckets.Restart | src/bucket.rs:114-124 | a bucket rebuilt from the zero time of another under the same limit has the same contents |
| WeightedStreams.WeightedStream.PollNext | src/futures/stream.rs:252-310 | one poll updates the inner stream, the pending item, the timer and the bucket as specified; without a bucket it passes the inner stream through |
| WeightedStreams.WeightedStream.constructor | src/futures/stream.rs:176-185 | a new stream holds nothing back and runs no timer |
| Delivery.OnePoll | src/futures/stream.rs:258-302 | a timer runs exactly while an item is held back, nothing is pulled or paid meanwhile, and a poll panics exactly when it pulls an item heavier than the burst |
| Delivery.PollAnswers | src/futures/stream.rs:252-310 | what each poll answers and pays in terms of the balance: it ends the stream only when nothing is held back and the source is drained, delivers a held item exactly when it may proceed and the timer has fired, delivers a pulled item at once exactly when the balance covers its weight, and otherwise holds it back for the time to earn what is missing |
| Delivery.Integrity | src/futures/stream.rs:252-310 | over every sequence of polls that does not panic, each of which pays in one step and finds the bucket in any state, delivered, held back and unpulled items are the source in order |
| Delivery.EndMeansDelivered | src/futures/stream.rs:258-302 | over every sequence of polls, a stream that reports its end without a panic before has delivered everything it was given |
| Delivery.EnoughPollsDeliver | src/futures/stream.rs:258-302 | over every sequence of polls that does not panic, two polls for each item that may proceed and meet a ready source and a fired timer, among any others, deliver everything in order |
| Delivery.NeverPanics | src/futures/stream.rs:273-275 | no poll panics while no item is heavier than the burst the bucket has at the poll |
| Delivery.NeverEarly | src/futures/stream.rs:258-298 | over every sequence of polls no item is delivered before the zero time its own payment left |
| Delivery.PayNext | src/futures/stream.rs:273-299 | paying for an item when the one before it is delivered leaves the zero time of the closed form |
| Delivery.StaysOnSchedule | src/futures/stream.rs:258-298 | each poll of an undisturbed stream keeps to the schedule |
| Delivery.Drain | src/futures/stream.rs:258-298 | a stream alone on its bucket delivers item k at the later of the start and the clamped initial zero time plus the time worth of the first k items |
| Delivery.UnitWeights | src/futures/stream.rs:57-63 | for a plain throttled stream the weight of n items is n |
| Pacing.UnfoldFair | src/futures/stream.rs:255-298 | in every interleaving of polls, call steps, timers that never fire early and other callers of every kind, with clock readings that do not lie in the future, each delivered item has been paid for in full by debits of a call that left the zero time in the past when it ended |
| Pacing.AnswerTells | src/futures/stream.rs:273-299 | in every such world, when the call of a poll has ended, an item heavier than the burst makes the poll panic; otherwise it is delivered at once exactly when the zero time at the end of the call is not after the poll's clock reading, and else held back for exactly the difference |
| Pacing.NeverStuck | src/futures/stream.rs:255-298 | in every such world each stream may go on: be polled at any reading not in the future, take the next step of its call, be answered, or deliver the item held back once its deadline has come |
| Pacing.GlobalPacing | src/futures/stream.rs:255-298 | under the same assumptions the total weight delivered by all streams is at most one burst plus earnings since the first debit's clock reading plus what was given back, and at most earnings since the initial zero time plus what was given back, or nothing if that is negative |
| Pacing.StreamIntegrity | src/futures/stream.rs:252-310 | though the payments of all streams and the calls of others interleave step by step, each stream has delivered, has in hand, or has yet to pull exactly its source in order; it panics only at an item heavier than the burst and delivers none |
| Polls.BucketRuns | src/futures/stream.rs:273-275 | the bucket under many streams is in the state that the calls of the streams and of others, taken as a run of the lock-free bucket, lead to |
| Polls.EveryRunHappens | src/bucket.rs:194-381 | every run of the lock-free bucket by other callers, at readings not in the future, can happen under the streams unchanged |
| Polls.PollAlone | src/futures/stream.rs:252-302 | in every such world a poll that pulls an item and runs alone leaves the stream and the bucket, and answers, as one poll of the sequential stream on the value in the cell |
| Polls.EveryStreamCanFinish | src/futures/stream.rs:252-310 | however streams and other callers have been interleaved, a stream with no item heavier than the burst can still deliver its whole source in order |

## Left out

- Floating point: rounding, NaN, and the bit-packed encodings of waits and token counts; amounts and times are reals, and the real amount debited is reported instead of its truncation.
- Memory orderings: one cell with a total order of modifications, accessed in atomic steps, stands for the relaxed atomics.
- Padded and reference-counted storage: the same cell with another layout or owner.
- Shared storage under different limits: a limit is fixed for a shared bucket, since a change of one owner's limit changes what the zero time means for the others.
- Interleaving inside the classes: `Storage` and `TokenBuckets` are verified for one caller at a time; concurrent callers are modelled on values in `LockFree`, where the two borrowing calls share one program.
- RawTokenBucket.reset: the variant that values the past at the new limit and forgives debt; the bucket's own `reset` is modelled.
- Real clocks, wakers, pinning and the cooperative budget: replaced by arbitrary readings and answers, with timers that never fire early.
- The inner stream is modelled as the sequence of items it will still yield, ready or not at each poll; errors it may raise are not modelled.
- Limit constructors and getters, error formatting, the single-token convenience calls: no behaviour of their own.
- Clone and the constructors that only pick the initial zero time: `WithZeroTime` covers them.
