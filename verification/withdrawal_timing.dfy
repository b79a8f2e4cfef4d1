/** When a withdrawal runs: from which time on a row is due after each step of the queue, and who can bring it back. */
module WithdrawalTiming {
  import opened Arithmetic
  import opened WithdrawalQueue

  /** The row waits, and is due from this time on and not before. */
  ghost predicate IsDueFrom(r: Row, from: nat)
  {
    forall t: nat :: IsDue(r, t) <==> from <= t
  }

  ghost predicate IsNeverDue(r: Row)
  {
    forall t: nat :: !IsDue(r, t)
  }

  /** Only the row at `i` differs. */
  ghost predicate OnlyRow(before: State, after: State, i: nat)
  {
    |after.rows| == |before.rows| && forall j :: 0 <= j < |before.rows| && j != i ==> after.rows[j] == before.rows[j]
  }

  // ----- What the worker does -----

  /** A new withdrawal waits until its time, has had no attempt, and keeps its user and nullifier; the others are as
      they were. */
  lemma NewRowWaits(max: nat, s: State, user: nat, nullifier: nat, executeAfter: nat, now: nat)
    requires forall i :: 0 <= i < |s.rows| ==> s.rows[i].nullifier != nullifier
    ensures var after, i := Next(max, s, Create(user, nullifier, executeAfter, now)), |s.rows|;
            && |after.rows| == i + 1 && after.rows[..i] == s.rows && after.executions == s.executions
            && IsDueFrom(after.rows[i], executeAfter)
            && after.rows[i].attempts == 0 && after.rows[i].createdAt == now
            && after.rows[i].user == user && after.rows[i].nullifier == nullifier
  {
  }

  /** A waiting row can be locked, whether it is due or not. It has had one attempt more then, is not due, and cannot be
      locked a second time. */
  lemma LockedRowIsHeld(max: nat, s: State, i: nat, now: nat, later: nat)
    requires i < |s.rows| && (s.rows[i].status == Queued || s.rows[i].status == Retry)
    ensures var after := Next(max, s, Lock(i, now));
            && OnlyRow(s, after, i)
            && after.rows[i].attempts == s.rows[i].attempts + 1 && IsNeverDue(after.rows[i])
            && Next(max, after, Lock(i, later)) == after
  {
  }

  /** A recovery releases a lock exactly when it is old enough: to the retry time, or for good at the limit. */
  lemma LockIsReleasedWhenStale(max: nat, s: State, i: nat, now: nat, staleBefore: int, retryAt: nat, later: nat)
    requires i < |s.rows| && (s.rows[i].status == Queued || s.rows[i].status == Retry)
    ensures var locked := Next(max, s, Lock(i, now));
            var after := Next(max, locked, Recover(staleBefore, retryAt, later));
            && |after.rows| == |locked.rows|
            && (now > staleBefore ==> after.rows[i] == locked.rows[i])
            && (now <= staleBefore && locked.rows[i].attempts < max ==> IsDueFrom(after.rows[i], retryAt))
            && (now <= staleBefore && locked.rows[i].attempts >= max ==> after.rows[i].status == Failed)
            && after.rows[i].attempts == locked.rows[i].attempts
  {
  }

  /** A recovery touches no row but those that are locked. */
  lemma OnlyLocksAreRecovered(max: nat, s: State, i: nat, staleBefore: int, retryAt: nat, now: nat)
    requires i < |s.rows| && s.rows[i].status != Processing
    ensures i < |Next(max, s, Recover(staleBefore, retryAt, now)).rows|
    ensures Next(max, s, Recover(staleBefore, retryAt, now)).rows[i] == s.rows[i]
  {
  }

  /** An execution that succeeds confirms its row for good: it is not due, and neither the user nor an admin brings it
      back. */
  lemma SuccessConfirms(max: nat, s: State, k: nat, retryAt: nat, now: nat, step: Step)
    requires k < |s.executions| && s.executions[k].phase != Ended && s.executions[k].row < |s.rows|
    ensures var after, i := Next(max, s, Report(k, true, retryAt, now)), s.executions[k].row;
            && OnlyRow(s, after, i) && after.rows[i].status == Confirmed && IsNeverDue(after.rows[i])
            && after.executions[k].phase == Ended
            && ((step.UserRetry? || step.AdminRetry? || step.MarkSuspicious? || step.Lock?) && step.row == i ==>
                  Next(max, after, step) == after)
  {
  }

  /** One that fails below the limit makes its row due at the retry time; at the limit the row has failed. */
  lemma FailureIsRetriedUntilTheLimit(max: nat, s: State, k: nat, retryAt: nat, now: nat)
    requires k < |s.executions| && s.executions[k].phase != Ended && s.executions[k].row < |s.rows|
    ensures var after, i := Next(max, s, Report(k, false, retryAt, now)), s.executions[k].row;
            && OnlyRow(s, after, i) && after.executions[k].phase == Ended
            && (s.executions[k].attempt < max ==> IsDueFrom(after.rows[i], retryAt))
            && (s.executions[k].attempt >= max ==> after.rows[i].status == Failed && IsNeverDue(after.rows[i]))
            && after.rows[i].attempts == s.rows[i].attempts
  {
  }

  /** The execution that a lock starts has the attempt that the row then counts. */
  lemma LockStartsTheAttempt(max: nat, s: State, i: nat, now: nat)
    requires i < |s.rows| && (s.rows[i].status == Queued || s.rows[i].status == Retry)
    ensures var after := Next(max, s, Lock(i, now));
            && |after.executions| == |s.executions| + 1 && after.executions[..|s.executions|] == s.executions
            && after.executions[|s.executions|] == Execution(i, after.rows[i].attempts, Running)
  {
  }

  // ----- What users and admins do -----

  /** A user brings back his own row that failed, at the time asked for, and no other row. */
  lemma UserRetriesOwnFailures(max: nat, s: State, user: nat, i: nat, executeAfter: nat, now: nat)
    requires i < |s.rows|
    ensures var after := Next(max, s, UserRetry(user, i, executeAfter, now));
            if s.rows[i].user == user && s.rows[i].status == Failed then
              && OnlyRow(s, after, i) && IsDueFrom(after.rows[i], executeAfter)
              && after.rows[i].attempts == s.rows[i].attempts && after.executions == s.executions
            else after == s
  {
  }

  /** An admin brings back every row that is neither locked nor confirmed, at the time asked for. */
  lemma AdminRetriesUnlessHeld(max: nat, s: State, i: nat, executeAfter: nat, now: nat)
    requires i < |s.rows|
    ensures var after := Next(max, s, AdminRetry(i, executeAfter, now));
            if s.rows[i].status != Processing && s.rows[i].status != Confirmed then
              && OnlyRow(s, after, i) && IsDueFrom(after.rows[i], executeAfter)
              && after.rows[i].attempts == s.rows[i].attempts && after.executions == s.executions
            else after == s
  {
  }

  /** A row that is marked suspicious is out of the queue until an admin brings it back; a confirmed one is not marked.
      */
  lemma SuspiciousRowIsHeldBack(max: nat, s: State, i: nat, now: nat, user: nat, executeAfter: nat)
    requires i < |s.rows|
    ensures var after := Next(max, s, MarkSuspicious(i, now));
            if s.rows[i].status == Confirmed then after == s
            else
              && OnlyRow(s, after, i) && IsNeverDue(after.rows[i])
              && Next(max, after, Lock(i, now)) == after
              && Next(max, after, UserRetry(user, i, executeAfter, now)) == after
              && IsDueFrom(Next(max, after, AdminRetry(i, executeAfter, now)).rows[i], executeAfter)
  {
  }

  // ----- The order of work and the delays -----

  /** A list of due rows goes by due time, and by creation time among equals, without repetition. */
  lemma ListedByDueTime(rows: seq<Row>, now: nat, limit: nat, due: seq<nat>, a: nat, b: nat)
    requires IsDueList(rows, now, limit, due) && a < b < |due|
    ensures due[a] < |rows| && due[b] < |rows| && due[a] != due[b]
    ensures rows[due[a]].executeAfter <= rows[due[b]].executeAfter
    ensures rows[due[a]].executeAfter == rows[due[b]].executeAfter ==>
              rows[due[a]].createdAt <= rows[due[b]].createdAt
  {
    assert InOrder(rows, due, a, b);
  }

  /** Every entry waits and is due, and a row that is due and not listed is left out for the limit, by entries that are
      not due later. */
  lemma ListedIsDue(rows: seq<Row>, now: nat, limit: nat, due: seq<nat>, a: nat, i: nat)
    requires IsDueList(rows, now, limit, due) && a < |due| && i < |rows|
    ensures due[a] < |rows| && rows[due[a]].executeAfter <= now
    ensures rows[due[a]].status == Queued || rows[due[a]].status == Retry
    ensures IsDue(rows[i], now) && i !in due ==>
              |due| == limit && rows[due[a]].executeAfter <= rows[i].executeAfter
  {
    assert IsListedDue(rows, now, due, a);
    assert IsNotOvertaken(rows, now, due, a, i);
  }

  /** The first delay is the base delay, every further one is twice the one before, and none is above an hour. */
  lemma BackoffDoubles(base: nat, attempts: nat)
    ensures Backoff(base, 1) == if base <= 3600 then base else 3600
    ensures Backoff(base, 0) == Backoff(base, 1)
    ensures attempts > 0 ==>
              Backoff(base, attempts + 1)
              == if 2 * Backoff(base, attempts) <= 3600 then 2 * Backoff(base, attempts) else 3600
  {
    assert Pow2(0) == 1;
    if attempts > 0 {
      assert base * Pow2(attempts) == 2 * (base * Pow2(attempts - 1));
    }
  }
}
