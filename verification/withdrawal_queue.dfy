/** The queue of relayed withdrawals: workers lock rows and execute them, failures are retried up to a limit,
    stale locks are recovered, and users and admins may queue another attempt by hand. */
module WithdrawalQueue {
  import opened Arithmetic
  import opened Sums

  datatype Status = Queued | Retry | Processing | Failed | Suspicious | Confirmed

  /** A stored withdrawal. `manual` and `late` are observers the store does not keep: how often the row was
      queued again by hand, and how often an execution reported on it after its lock had been recovered. */
  datatype Row = Row(user: nat, nullifier: nat, status: Status, attempts: nat, executeAfter: nat, createdAt: nat,
                     updatedAt: nat, manual: nat, late: nat)

  datatype Phase = Running | Recovered | Ended

  /** One execution, with the attempt number it read when it took the lock. */
  datatype Execution = Execution(row: nat, attempt: nat, phase: Phase)

  datatype State = State(rows: seq<Row>, executions: seq<Execution>)

  datatype Step =
    | Create(user: nat, nullifier: nat, executeAfter: nat, now: nat)
    | Lock(row: nat, now: nat)
    | Report(execution: nat, success: bool, retryAt: nat, now: nat)
    | Recover(staleBefore: int, retryAt: nat, now: nat)
    | UserRetry(user: nat, row: nat, executeAfter: nat, now: nat)
    | AdminRetry(row: nat, executeAfter: nat, now: nat)
    | MarkSuspicious(row: nat, now: nat)

  predicate Used(rows: seq<Row>, nullifier: nat)
  {
    exists i :: 0 <= i < |rows| && rows[i].nullifier == nullifier
  }

  predicate IsPending(r: Row)
  {
    r.status in {Queued, Retry}
  }

  predicate Allowed(s: State, step: Step)
  {
    match step
    case Create(_, nullifier, _, _) => !Used(s.rows, nullifier)
    case Lock(i, _) => i < |s.rows| && IsPending(s.rows[i])
    case Report(e, _, _, _) => e < |s.executions| && !s.executions[e].phase.Ended? && s.executions[e].row < |s.rows|
    case Recover(_, _, _) => true
    case UserRetry(user, i, _, _) => i < |s.rows| && s.rows[i].user == user && s.rows[i].status.Failed?
    case AdminRetry(i, _, _) => i < |s.rows| && s.rows[i].status in {Failed, Suspicious, Retry, Queued}
    case MarkSuspicious(i, _) => i < |s.rows| && !s.rows[i].status.Confirmed?
  }

  /** A failed execution is given up once the attempt it read reached the limit; otherwise it is rescheduled,
      whatever has happened to the row in the meantime. */
  function ReportedRow(max: nat, r: Row, e: Execution, success: bool, retryAt: nat, now: nat): Row
  {
    var late := if e.phase.Recovered? then r.late + 1 else r.late;
    if success then r.(status := Confirmed, updatedAt := now, late := late)
    else if e.attempt >= max then r.(status := Failed, updatedAt := now, late := late)
    else r.(status := Retry, executeAfter := retryAt, updatedAt := now, late := late)
  }

  predicate IsStale(r: Row, staleBefore: int)
  {
    r.status.Processing? && r.updatedAt <= staleBefore
  }

  function RecoveredRow(max: nat, r: Row, staleBefore: int, retryAt: nat, now: nat): Row
  {
    if !IsStale(r, staleBefore) then r
    else if r.attempts >= max then r.(status := Failed, updatedAt := now)
    else r.(status := Retry, executeAfter := retryAt, updatedAt := now)
  }

  /** A recovered lock is the one its row counted last. */
  function RecoveredExecution(rows: seq<Row>, e: Execution, staleBefore: int): Execution
  {
    if e.phase.Running? && e.row < |rows| && IsStale(rows[e.row], staleBefore) && e.attempt == rows[e.row].attempts
    then e.(phase := Recovered)
    else e
  }

  function RecoverAll(max: nat, s: State, staleBefore: int, retryAt: nat, now: nat): (after: State)
    ensures |after.rows| == |s.rows| && |after.executions| == |s.executions|
  {
    State(
      seq(|s.rows|, i requires 0 <= i < |s.rows| => RecoveredRow(max, s.rows[i], staleBefore, retryAt, now)),
      seq(|s.executions|, k requires 0 <= k < |s.executions| =>
        RecoveredExecution(s.rows, s.executions[k], staleBefore)))
  }

  function Requeue(r: Row, executeAfter: nat, now: nat): Row
  {
    r.(status := Retry, executeAfter := executeAfter, updatedAt := now, manual := r.manual + 1)
  }

  function LockRow(r: Row, now: nat): Row
  {
    r.(status := Processing, attempts := r.attempts + 1, updatedAt := now)
  }

  function Next(max: nat, s: State, step: Step): State
  {
    if !Allowed(s, step) then s else
    match step
    case Create(user, nullifier, executeAfter, now) =>
      s.(rows := s.rows + [Row(user, nullifier, Queued, 0, executeAfter, now, now, 0, 0)])
    case Lock(i, now) =>
      State(s.rows[i := LockRow(s.rows[i], now)], s.executions + [Execution(i, s.rows[i].attempts + 1, Running)])
    case Report(k, success, retryAt, now) =>
      var e := s.executions[k];
      State(s.rows[e.row := ReportedRow(max, s.rows[e.row], e, success, retryAt, now)],
            s.executions[k := e.(phase := Ended)])
    case Recover(staleBefore, retryAt, now) => RecoverAll(max, s, staleBefore, retryAt, now)
    case UserRetry(_, i, executeAfter, now) => s.(rows := s.rows[i := Requeue(s.rows[i], executeAfter, now)])
    case AdminRetry(i, executeAfter, now) => s.(rows := s.rows[i := Requeue(s.rows[i], executeAfter, now)])
    case MarkSuspicious(i, now) => s.(rows := s.rows[i := s.rows[i].(status := Suspicious, updatedAt := now)])
  }

  function Run(max: nat, s: State, steps: seq<Step>): State
    decreases |steps|
  {
    if |steps| == 0 then s else Run(max, Next(max, s, steps[0]), steps[1..])
  }

  const EMPTY: State := State([], [])

  const HOUR: nat := 3600

  // ----- The invariant -----

  /** Executions that can still send the row back into the queue. */
  function Retrying(i: nat, max: nat): Execution -> int
  {
    (e: Execution) => if e.row == i && e.phase.Running? && e.attempt < max then 1 else 0
  }

  function RunningOn(i: nat): Execution -> int
  {
    (e: Execution) => if e.row == i && e.phase.Running? then 1 else 0
  }

  function Turn(r: Row): int
  {
    if IsPending(r) then 1 else 0
  }

  function AtLeast(a: int, b: int): int
  {
    if a >= b then a else b
  }

  /** The attempts that the row can still come to without manual retries and late reports: a waiting row and every
      execution that can send it back into the queue stand for one more, on top of those it has had. */
  function Potential(max: nat, s: State, i: nat): int
    requires i < |s.rows|
  {
    Turn(s.rows[i]) + Sum(s.executions, Retrying(i, max)) + AtLeast(s.rows[i].attempts, max - 1)
  }

  ghost predicate HoldsLock(s: State, i: nat, k: nat)
  {
    i < |s.rows| && k < |s.executions| && s.executions[k] == Execution(i, s.rows[i].attempts, Running)
  }

  ghost predicate RowOk(max: nat, s: State, i: nat)
    requires i < |s.rows|
  {
    var r := s.rows[i];
    && Potential(max, s, i) <= max + r.manual + r.late
    && Turn(r) + Sum(s.executions, RunningOn(i)) <= 1 + r.manual + r.late
    && (r.status.Confirmed? ==> Sum(s.executions, RunningOn(i)) <= r.manual + r.late)
    && (r.status.Processing? ==> exists k: nat :: HoldsLock(s, i, k))
  }

  ghost predicate ExecutionsOk(s: State)
  {
    forall k :: 0 <= k < |s.executions| ==> s.executions[k].row < |s.rows|
  }

  ghost predicate DistinctNullifiers(s: State)
  {
    forall i, j :: 0 <= i < j < |s.rows| ==> s.rows[i].nullifier != s.rows[j].nullifier
  }

  ghost predicate Invariant(max: nat, s: State)
  {
    && ExecutionsOk(s)
    && DistinctNullifiers(s)
    && forall i :: 0 <= i < |s.rows| ==> RowOk(max, s, i)
  }

  lemma Counts(executions: seq<Execution>, i: nat, max: nat)
    ensures 0 <= Sum(executions, Retrying(i, max)) <= Sum(executions, RunningOn(i))
  {
  }

  lemma CountsUpdate(executions: seq<Execution>, k: nat, e: Execution, i: nat, max: nat)
    requires k < |executions|
    ensures Sum(executions[k := e], Retrying(i, max))
         == Sum(executions, Retrying(i, max)) - Retrying(i, max)(executions[k]) + Retrying(i, max)(e)
    ensures Sum(executions[k := e], RunningOn(i))
         == Sum(executions, RunningOn(i)) - RunningOn(i)(executions[k]) + RunningOn(i)(e)
  {
    SumUpdate(executions, k, e, Retrying(i, max));
    SumUpdate(executions, k, e, RunningOn(i));
  }

  lemma {:induction false} NoneOn(executions: seq<Execution>, i: nat, max: nat)
    requires forall k :: 0 <= k < |executions| ==> executions[k].row != i
    ensures Sum(executions, Retrying(i, max)) == 0 && Sum(executions, RunningOn(i)) == 0
  {
    if |executions| > 0 {
      NoneOn(executions[..|executions| - 1], i, max);
    }
  }

  lemma CreateKeeps(max: nat, s: State, user: nat, nullifier: nat, executeAfter: nat, now: nat)
    requires max > 0 && Invariant(max, s) && !Used(s.rows, nullifier)
    ensures Invariant(max, Next(max, s, Create(user, nullifier, executeAfter, now)))
  {
    var after := Next(max, s, Create(user, nullifier, executeAfter, now));
    forall i | 0 <= i < |after.rows| ensures RowOk(max, after, i) {
      if i < |s.rows| {
        assert RowOk(max, s, i);
        if after.rows[i].status.Processing? {
          var k: nat :| HoldsLock(s, i, k);
          assert HoldsLock(after, i, k);
        }
      } else {
        NoneOn(s.executions, i, max);
      }
    }
  }

  lemma LockedRowOk(max: nat, s: State, i: nat, now: nat)
    requires max > 0 && Invariant(max, s) && Allowed(s, Lock(i, now))
    ensures RowOk(max, Next(max, s, Lock(i, now)), i)
  {
    var after := Next(max, s, Lock(i, now));
    var e := after.executions[|s.executions|];
    assert RowOk(max, s, i);
    SumAppend(s.executions, e, Retrying(i, max));
    SumAppend(s.executions, e, RunningOn(i));
    Counts(s.executions, i, max);
    assert HoldsLock(after, i, |s.executions|);
  }

  lemma LockKeeps(max: nat, s: State, row: nat, now: nat)
    requires max > 0 && Invariant(max, s) && Allowed(s, Lock(row, now))
    ensures Invariant(max, Next(max, s, Lock(row, now)))
  {
    var after := Next(max, s, Lock(row, now));
    var e := Execution(row, s.rows[row].attempts + 1, Running);
    LockedRowOk(max, s, row, now);
    forall i | 0 <= i < |after.rows| && i != row ensures RowOk(max, after, i) {
      assert RowOk(max, s, i);
      SumAppend(s.executions, e, Retrying(i, max));
      SumAppend(s.executions, e, RunningOn(i));
      if after.rows[i].status.Processing? {
        var k: nat :| HoldsLock(s, i, k);
        assert HoldsLock(after, i, k);
      }
    }
  }

  lemma ReportKeeps(max: nat, s: State, k: nat, success: bool, retryAt: nat, now: nat)
    requires max > 0 && Invariant(max, s) && Allowed(s, Report(k, success, retryAt, now))
    ensures Invariant(max, Next(max, s, Report(k, success, retryAt, now)))
  {
    var after := Next(max, s, Report(k, success, retryAt, now));
    var row := s.executions[k].row;
    forall i | 0 <= i < |after.rows| ensures RowOk(max, after, i) {
      assert RowOk(max, s, i);
      CountsUpdate(s.executions, k, after.executions[k], i, max);
      Counts(s.executions, i, max);
      if i != row && after.rows[i].status.Processing? {
        var l: nat :| HoldsLock(s, i, l);
        assert HoldsLock(after, i, l);
      }
    }
  }

  lemma RecoveredCounts(max: nat, s: State, staleBefore: int, retryAt: nat, now: nat, i: nat)
    requires Invariant(max, s) && i < |s.rows|
    ensures var after := RecoverAll(max, s, staleBefore, retryAt, now);
            && Sum(after.executions, Retrying(i, max)) <= Sum(s.executions, Retrying(i, max))
            && Sum(after.executions, RunningOn(i)) <= Sum(s.executions, RunningOn(i))
            && (IsStale(s.rows[i], staleBefore) ==>
                  Sum(after.executions, RunningOn(i)) < Sum(s.executions, RunningOn(i)))
            && (IsStale(s.rows[i], staleBefore) && s.rows[i].attempts < max ==>
                  Sum(after.executions, Retrying(i, max)) < Sum(s.executions, Retrying(i, max)))
  {
    var after := RecoverAll(max, s, staleBefore, retryAt, now);
    SumMonotone(after.executions, Retrying(i, max), s.executions, Retrying(i, max));
    SumMonotone(after.executions, RunningOn(i), s.executions, RunningOn(i));
    if IsStale(s.rows[i], staleBefore) {
      assert RowOk(max, s, i);
      var k: nat :| HoldsLock(s, i, k);
      SumStrict(after.executions, RunningOn(i), s.executions, RunningOn(i), k);
      if s.rows[i].attempts < max {
        SumStrict(after.executions, Retrying(i, max), s.executions, Retrying(i, max), k);
      }
    }
  }

  lemma RecoverKeeps(max: nat, s: State, staleBefore: int, retryAt: nat, now: nat)
    requires max > 0 && Invariant(max, s)
    ensures Invariant(max, RecoverAll(max, s, staleBefore, retryAt, now))
  {
    var after := RecoverAll(max, s, staleBefore, retryAt, now);
    forall i | 0 <= i < |after.rows| ensures RowOk(max, after, i) {
      assert RowOk(max, s, i);
      RecoveredCounts(max, s, staleBefore, retryAt, now, i);
      if after.rows[i].status.Processing? {
        var k: nat :| HoldsLock(s, i, k);
        assert HoldsLock(after, i, k);
      }
    }
  }

  lemma ManualKeeps(max: nat, s: State, step: Step)
    requires max > 0 && Invariant(max, s) && Allowed(s, step)
    requires step.UserRetry? || step.AdminRetry? || step.MarkSuspicious?
    ensures Invariant(max, Next(max, s, step))
  {
    var after := Next(max, s, step);
    forall i | 0 <= i < |after.rows| ensures RowOk(max, after, i) {
      assert RowOk(max, s, i);
      if after.rows[i].status.Processing? {
        var k: nat :| HoldsLock(s, i, k);
        assert HoldsLock(after, i, k);
      }
    }
  }

  lemma StepKeepsInvariant(max: nat, s: State, step: Step)
    requires max > 0 && Invariant(max, s)
    ensures Invariant(max, Next(max, s, step))
  {
    if Allowed(s, step) {
      match step
      case Create(user, nullifier, executeAfter, now) => CreateKeeps(max, s, user, nullifier, executeAfter, now);
      case Lock(i, now) => LockKeeps(max, s, i, now);
      case Report(k, success, retryAt, now) => ReportKeeps(max, s, k, success, retryAt, now);
      case Recover(staleBefore, retryAt, now) => RecoverKeeps(max, s, staleBefore, retryAt, now);
      case _ => ManualKeeps(max, s, step);
    }
  }

  lemma {:induction false} RunKeepsInvariant(max: nat, s: State, steps: seq<Step>)
    requires max > 0 && Invariant(max, s)
    ensures Invariant(max, Run(max, s, steps))
    decreases |steps|
  {
    if |steps| > 0 {
      StepKeepsInvariant(max, s, steps[0]);
      RunKeepsInvariant(max, Next(max, s, steps[0]), steps[1..]);
    }
  }

  // ----- Main results -----

  /** Over every interleaving of worker, user and admin steps: a row is never attempted more often than the
      limit plus its manual retries plus its late reports, it never runs more often at once than one plus
      those, and no two withdrawals share a nullifier. */
  lemma AttemptBound(max: nat, steps: seq<Step>, i: nat)
    requires max > 0 && i < |Run(max, EMPTY, steps).rows|
    ensures var s := Run(max, EMPTY, steps);
            && s.rows[i].attempts <= max + s.rows[i].manual + s.rows[i].late
            && Sum(s.executions, RunningOn(i)) <= 1 + s.rows[i].manual + s.rows[i].late
            && (s.rows[i].status.Confirmed? && s.rows[i].manual == s.rows[i].late == 0 ==>
                  Sum(s.executions, RunningOn(i)) == 0)
            && DistinctNullifiers(s)
  {
    var s := Run(max, EMPTY, steps);
    RunKeepsInvariant(max, EMPTY, steps);
    assert RowOk(max, s, i);
    Counts(s.executions, i, max);
  }

  /** Every report in the run is made by an execution whose lock was not recovered. */
  ghost predicate ReportsOnce(max: nat, s: State, steps: seq<Step>)
    decreases |steps|
  {
    |steps| == 0 ||
    (&& (steps[0].Report? && Allowed(s, steps[0]) ==> s.executions[steps[0].execution].phase.Running?)
     && ReportsOnce(max, Next(max, s, steps[0]), steps[1..]))
  }

  ghost predicate NoneLate(s: State)
  {
    forall i :: 0 <= i < |s.rows| ==> s.rows[i].late == 0
  }

  lemma {:induction false} ReportingOnceIsNeverLate(max: nat, s: State, steps: seq<Step>)
    requires NoneLate(s) && ReportsOnce(max, s, steps)
    ensures NoneLate(Run(max, s, steps))
    decreases |steps|
  {
    if |steps| > 0 {
      var after := Next(max, s, steps[0]);
      forall i | 0 <= i < |after.rows| ensures after.rows[i].late == 0 {
      }
      ReportingOnceIsNeverLate(max, after, steps[1..]);
    }
  }

  /** When each execution ends once, by a report or by a recovery, the limit and the manual retries bound
      the attempts. */
  lemma AttemptBoundWhenReportsAreOnTime(max: nat, steps: seq<Step>, i: nat)
    requires max > 0 && ReportsOnce(max, EMPTY, steps) && i < |Run(max, EMPTY, steps).rows|
    ensures var s := Run(max, EMPTY, steps);
            s.rows[i].attempts <= max + s.rows[i].manual
  {
    AttemptBound(max, steps, i);
    ReportingOnceIsNeverLate(max, EMPTY, steps);
  }

  // ----- Exactly when the limit holds from a state on -----

  predicate IsManualRetry(step: Step, i: nat)
  {
    (step.UserRetry? || step.AdminRetry?) && step.row == i
  }

  /** The steps that bring a row back into the queue from outside: a manual retry, or a failed execution that reports
      late, of a row that is not waiting already. */
  predicate Revives(max: nat, s: State, step: Step, i: nat)
    requires i < |s.rows|
  {
    && Allowed(s, step) && !IsPending(s.rows[i])
    && (IsManualRetry(step, i)
        || (step.Report? && !step.success && var e := s.executions[step.execution];
                                             e.row == i && e.phase.Recovered? && e.attempt < max))
  }

  lemma LockKeepsPotential(max: nat, s: State, row: nat, now: nat, i: nat)
    requires max > 0 && i < |s.rows| && Allowed(s, Lock(row, now))
    ensures Potential(max, Next(max, s, Lock(row, now)), i) == Potential(max, s, i)
  {
    SumAppend(s.executions, Execution(row, s.rows[row].attempts + 1, Running), Retrying(i, max));
  }

  lemma ReportedPotential(max: nat, s: State, step: Step, i: nat)
    requires max > 0 && i < |s.rows| && step.Report? && Allowed(s, step)
    ensures var after := Next(max, s, step);
            if Revives(max, s, step, i) then Potential(max, after, i) == Potential(max, s, i) + 1
            else Potential(max, after, i) <= Potential(max, s, i)
    ensures var e := s.executions[step.execution];
            e.row == i && e.phase.Running? && e.attempt < max && !step.success && !IsPending(s.rows[i]) ==>
              Potential(max, Next(max, s, step), i) == Potential(max, s, i)
  {
    SumUpdate(s.executions, step.execution, s.executions[step.execution].(phase := Ended), Retrying(i, max));
  }

  lemma RecoveredPotential(max: nat, s: State, step: Step, i: nat)
    requires max > 0 && i < |s.rows| && step.Recover? && Invariant(max, s)
    ensures Potential(max, Next(max, s, step), i) <= Potential(max, s, i)
  {
    RecoveredCounts(max, s, step.staleBefore, step.retryAt, step.now, i);
  }

  /** A step raises what a row can come to exactly when it revives the row, and then by one. */
  lemma StepPotential(max: nat, s: State, step: Step, i: nat)
    requires max > 0 && i < |s.rows| && Invariant(max, s)
    ensures var after := Next(max, s, step);
            && i < |after.rows|
            && if Revives(max, s, step, i) then Potential(max, after, i) == Potential(max, s, i) + 1
               else Potential(max, after, i) <= Potential(max, s, i)
  {
    if Allowed(s, step) {
      match step
      case Lock(row, now) => LockKeepsPotential(max, s, row, now, i);
      case Report(_, _, _, _) => ReportedPotential(max, s, step, i);
      case Recover(_, _, _) => RecoveredPotential(max, s, step, i);
      case _ =>
    }
  }

  /** How often the row is revived in a run. */
  function Revivals(max: nat, s: State, steps: seq<Step>, i: nat): nat
    requires i < |s.rows|
    decreases |steps|
  {
    if |steps| == 0 then 0
    else (if Revives(max, s, steps[0], i) then 1 else 0) + Revivals(max, Next(max, s, steps[0]), steps[1..], i)
  }

  /** A row is never attempted more often than it could come to at the start, and once more for every revival. */
  lemma {:induction false} AttemptsWithinPotential(max: nat, s: State, steps: seq<Step>, i: nat)
    requires max > 0 && i < |s.rows| && Invariant(max, s)
    ensures var after := Run(max, s, steps);
            i < |after.rows| && after.rows[i].attempts <= Potential(max, s, i) + Revivals(max, s, steps, i)
    decreases |steps|
  {
    if |steps| == 0 {
      Counts(s.executions, i, max);
    } else {
      StepKeepsInvariant(max, s, steps[0]);
      StepPotential(max, s, steps[0], i);
      AttemptsWithinPotential(max, Next(max, s, steps[0]), steps[1..], i);
    }
  }

  ghost predicate NoManualRetry(steps: seq<Step>, i: nat)
  {
    forall k :: 0 <= k < |steps| ==> !IsManualRetry(steps[k], i)
  }

  lemma {:induction false} NothingRevives(max: nat, s: State, steps: seq<Step>, i: nat)
    requires i < |s.rows| && NoManualRetry(steps, i) && ReportsOnce(max, s, steps)
    ensures Revivals(max, s, steps, i) == 0
    decreases |steps|
  {
    if |steps| > 0 {
      assert !IsManualRetry(steps[0], i);
      NothingRevives(max, Next(max, s, steps[0]), steps[1..], i);
    }
  }

  lemma {:induction false} SomeRetrying(executions: seq<Execution>, i: nat, max: nat) returns (k: nat)
    requires Sum(executions, Retrying(i, max)) > 0
    ensures k < |executions| && Retrying(i, max)(executions[k]) == 1
  {
    var n := |executions| - 1;
    if Retrying(i, max)(executions[n]) == 1 {
      k := n;
    } else {
      k := SomeRetrying(executions[..n], i, max);
    }
  }

  /** The next step on the way past the limit: lock the row if it waits, and otherwise let an execution fail. */
  lemma PastTheLimitStep(max: nat, s: State, i: nat) returns (step: Step)
    requires max > 0 && i < |s.rows| && ExecutionsOk(s)
    requires Potential(max, s, i) > max && s.rows[i].attempts <= max
    ensures Allowed(s, step) && !IsManualRetry(step, i)
    ensures step.Report? ==> s.executions[step.execution].phase.Running?
    ensures var after := Next(max, s, step);
            && i < |after.rows| && ExecutionsOk(after)
            && Potential(max, after, i) == Potential(max, s, i)
            && (after.rows[i].attempts > s.rows[i].attempts
                || (after.rows[i].attempts == s.rows[i].attempts && Turn(after.rows[i]) > Turn(s.rows[i])))
  {
    var r := s.rows[i];
    if IsPending(r) {
      step := Lock(i, AtLeast(r.executeAfter, r.updatedAt));
      LockKeepsPotential(max, s, i, step.now, i);
    } else {
      var k := SomeRetrying(s.executions, i, max);
      step := Report(k, false, r.updatedAt + HOUR, r.updatedAt);
      ReportedPotential(max, s, step, i);
    }
  }

  /** A run without manual retries, and with every report on time, that goes past the limit. */
  lemma {:induction false} PastTheLimit(max: nat, s: State, i: nat) returns (steps: seq<Step>)
    requires max > 0 && i < |s.rows| && ExecutionsOk(s) && Potential(max, s, i) > max
    ensures NoManualRetry(steps, i) && ReportsOnce(max, s, steps)
    ensures var after := Run(max, s, steps);
            i < |after.rows| && after.rows[i].attempts > max
    decreases max + 1 - s.rows[i].attempts, 1 - Turn(s.rows[i])
  {
    if s.rows[i].attempts > max {
      steps := [];
    } else {
      var step := PastTheLimitStep(max, s, i);
      var rest := PastTheLimit(max, Next(max, s, step), i);
      steps := [step] + rest;
      assert steps[1..] == rest;
    }
  }

  /** Every continuation without manual retries of the row, and with reports on time, keeps to the limit. */
  ghost predicate StaysWithinTheLimit(max: nat, s: State, i: nat)
  {
    forall steps: seq<Step> :: NoManualRetry(steps, i) && ReportsOnce(max, s, steps) ==>
      var after := Run(max, s, steps); i < |after.rows| && after.rows[i].attempts <= max
  }

  /** From any state that a run can reach, whatever happened before, the attempts of a row stay within the limit from
      here on exactly when they, the waiting row, and the executions that can send it back do not add up to more. */
  lemma LimitHoldsExactlyWithinPotential(max: nat, before: seq<Step>, i: nat)
    requires max > 0 && i < |Run(max, EMPTY, before).rows|
    ensures var s := Run(max, EMPTY, before);
            StaysWithinTheLimit(max, s, i) <==> Potential(max, s, i) <= max
  {
    var s := Run(max, EMPTY, before);
    RunKeepsInvariant(max, EMPTY, before);
    if Potential(max, s, i) <= max {
      forall steps: seq<Step> | NoManualRetry(steps, i) && ReportsOnce(max, s, steps)
        ensures var after := Run(max, s, steps); i < |after.rows| && after.rows[i].attempts <= max
      {
        AttemptsWithinPotential(max, s, steps, i);
        NothingRevives(max, s, steps, i);
      }
    } else {
      var steps := PastTheLimit(max, s, i);
    }
  }

  /** A late report can break the limit: with two attempts allowed, a worker recovers an execution after ten minutes
      and starts the second one; the first then reports its failure, and the row is locked a third time. */
  lemma LateReportBreaksTheLimit()
    ensures var steps := [Create(1, 7, 0, 0), Lock(0, 0), Recover(0, 720, 600), Lock(0, 720),
                          Report(0, false, 850, 730), Lock(0, 850)];
            var s := Run(2, EMPTY, steps);
            && |s.rows| == 1 && s.rows[0].manual == 0
            && s.rows[0].attempts == 3
            && !ReportsOnce(2, EMPTY, steps)
  {
  }

  /** A late report need not break it: while the row waits, the report changes nothing that counts. */
  lemma LateReportOfAWaitingRowIsHarmless()
    ensures var steps := [Create(1, 7, 0, 0), Lock(0, 0), Recover(0, 720, 600), Report(0, false, 850, 730)];
            var s := Run(2, EMPTY, steps);
            |s.rows| == 1 && StaysWithinTheLimit(2, s, 0) && !ReportsOnce(2, EMPTY, steps)
  {
    var steps := [Create(1, 7, 0, 0), Lock(0, 0), Recover(0, 720, 600), Report(0, false, 850, 730)];
    var s := Run(2, EMPTY, steps);
    assert s == State([Row(1, 7, Retry, 1, 850, 0, 730, 0, 1)], [Execution(0, 1, Ended)]);
    assert s.executions[..0] == [];
    LimitHoldsExactlyWithinPotential(2, steps, 0);
  }

  /** A withdrawal that was confirmed without manual retries stays confirmed, as long as reports are on time. */
  lemma {:induction false} ConfirmedIsFinal(max: nat, s: State, steps: seq<Step>, i: nat)
    requires max > 0 && Invariant(max, s) && NoneLate(s) && ReportsOnce(max, s, steps)
    requires i < |s.rows| && s.rows[i].status.Confirmed? && s.rows[i].manual == 0
    ensures var after := Run(max, s, steps);
            i < |after.rows| && after.rows[i].status.Confirmed? && after.rows[i].attempts == s.rows[i].attempts
    decreases |steps|
  {
    if |steps| > 0 {
      var after := Next(max, s, steps[0]);
      StepKeepsInvariant(max, s, steps[0]);
      assert RowOk(max, s, i);
      if steps[0].Report? && Allowed(s, steps[0]) && s.executions[steps[0].execution].row == i {
        SumNonNegative(s.executions, RunningOn(i));
        SumCovers(s.executions, steps[0].execution, steps[0].execution, RunningOn(i));
        assert false;
      }
      ReportingOnceIsNeverLate(max, s, [steps[0]]);
      assert Run(max, s, [steps[0]]) == Run(max, after, [steps[0]][1..]) == after;
      ConfirmedIsFinal(max, after, steps[1..], i);
    }
  }

  lemma {:induction false} RunConcat(max: nat, s: State, a: seq<Step>, b: seq<Step>)
    ensures Run(max, s, a + b) == Run(max, Run(max, s, a), b)
    ensures ReportsOnce(max, s, a) && ReportsOnce(max, Run(max, s, a), b) ==> ReportsOnce(max, s, a + b)
    decreases |a|
  {
    if |a| == 0 {
      assert a + b == b;
    } else {
      assert (a + b)[1..] == a[1..] + b;
      RunConcat(max, Next(max, s, a[0]), a[1..], b);
    }
  }

  /** The steps lead from one state to the other, and every execution that reports in them reports on time. */
  ghost predicate Took(max: nat, s: State, steps: seq<Step>, after: State)
  {
    after == Run(max, s, steps) && ReportsOnce(max, s, steps)
  }

  lemma TookOne(max: nat, s: State, step: Step)
    requires step.Report? && Allowed(s, step) ==> s.executions[step.execution].phase.Running?
    ensures Took(max, s, [step], Next(max, s, step))
  {
    assert [step][1..] == [];
  }

  lemma TookMore(max: nat, s: State, a: seq<Step>, mid: State, b: seq<Step>, after: State)
    requires Took(max, s, a, mid) && Took(max, mid, b, after)
    ensures Took(max, s, a + b, after)
  {
    RunConcat(max, s, a, b);
  }

  lemma TookAfterRecovery(max: nat, s: State, recovery: Step, mid: State, steps: seq<Step>, after: State)
    requires recovery.Recover? && mid == Next(max, s, recovery) && Took(max, mid, steps, after)
    ensures Took(max, s, [recovery] + steps, after)
  {
    TookOne(max, s, recovery);
    TookMore(max, s, [recovery], mid, steps, after);
  }

  // ----- The worker -----

  /** The delay before the next attempt, in seconds: the base delay, doubled for every attempt after the first, and at
      most an hour. */
  function Backoff(base: nat, attempts: nat): nat
  {
    var delay := base * Pow2(if attempts == 0 then 0 else attempts - 1);
    if delay <= HOUR then delay else HOUR
  }

  method RetryDelay(base: nat, attempts: nat) returns (delay: nat)
    requires base > 0
    ensures delay == Backoff(base, attempts)
  {
    var limit := if attempts == 0 then 1 else attempts;
    delay := base;
    var i := 1;
    while i < limit && delay < HOUR
      invariant 1 <= i <= limit
      invariant delay == base * Pow2(i - 1)
    {
      delay := delay * 2;
      i := i + 1;
    }
    if i < limit {
      Pow2Grows(base, i - 1, limit - 1);
      if delay == HOUR {
        assert base * Pow2(limit - 1) >= HOUR;
      }
    }
    if delay > HOUR {
      delay := HOUR;
    }
  }

  lemma {:induction false} Pow2Grows(base: nat, i: nat, j: nat)
    requires i <= j
    ensures base * Pow2(i) <= base * Pow2(j)
  {
    if i < j {
      Pow2Grows(base, i, j - 1);
      assert base * Pow2(j) == 2 * (base * Pow2(j - 1));
    }
  }

  predicate IsDue(r: Row, now: nat)
  {
    IsPending(r) && r.executeAfter <= now
  }

  /** Due earlier, or at the same time and created no later. */
  predicate ComesFirst(r: Row, other: Row)
  {
    r.executeAfter < other.executeAfter || (r.executeAfter == other.executeAfter && r.createdAt <= other.createdAt)
  }

  /** Two entries of a list are different rows in order. */
  predicate InOrder(rows: seq<Row>, due: seq<nat>, a: nat, b: nat)
    requires a < |due| && b < |due|
  {
    due[a] < |rows| && due[b] < |rows| && due[a] != due[b] && ComesFirst(rows[due[a]], rows[due[b]])
  }

  predicate IsListedDue(rows: seq<Row>, now: nat, due: seq<nat>, k: nat)
    requires k < |due|
  {
    due[k] < |rows| && IsDue(rows[due[k]], now)
  }

  /** A due row is listed, or does not come before the entry. */
  predicate IsNotOvertaken(rows: seq<Row>, now: nat, due: seq<nat>, k: nat, i: nat)
    requires k < |due| && i < |rows|
  {
    IsDue(rows[i], now) && i !in due ==> due[k] < |rows| && ComesFirst(rows[due[k]], rows[i])
  }

  /** Due rows without repetition, in order, and before all due rows that are not listed. */
  ghost predicate AreFirstDue(rows: seq<Row>, now: nat, due: seq<nat>)
  {
    && (forall k: nat :: k < |due| ==> IsListedDue(rows, now, due, k))
    && (forall a: nat, b: nat :: a < b < |due| ==> InOrder(rows, due, a, b))
    && (forall k: nat, i: nat :: k < |due| && i < |rows| ==> IsNotOvertaken(rows, now, due, k, i))
  }

  ghost predicate AllDueListed(rows: seq<Row>, now: nat, due: seq<nat>)
  {
    forall i: nat :: i < |rows| && IsDue(rows[i], now) ==> i in due
  }

  ghost predicate IsNextDue(rows: seq<Row>, now: nat, due: seq<nat>, next: nat)
  {
    && next < |rows| && IsDue(rows[next], now) && next !in due
    && forall i: nat :: i < |rows| && IsDue(rows[i], now) && i !in due ==> ComesFirst(rows[next], rows[i])
  }

  lemma NextIsAppended(rows: seq<Row>, now: nat, due: seq<nat>, next: nat)
    requires AreFirstDue(rows, now, due) && IsNextDue(rows, now, due, next)
    ensures AreFirstDue(rows, now, due + [next])
  {
    var longer := due + [next];
    forall k: nat | k < |longer| ensures IsListedDue(rows, now, longer, k) {
      assert k < |due| ==> IsListedDue(rows, now, due, k);
    }
    forall a: nat, b: nat | a < b < |longer| ensures InOrder(rows, longer, a, b) {
      if b < |due| {
        assert InOrder(rows, due, a, b);
      } else {
        assert due[a] in due && IsListedDue(rows, now, due, a);
        assert IsNotOvertaken(rows, now, due, a, next);
      }
    }
    forall k: nat, i: nat | k < |longer| && i < |rows| ensures IsNotOvertaken(rows, now, longer, k, i) {
      assert i in due ==> i in longer;
      assert k < |due| ==> IsNotOvertaken(rows, now, due, k, i);
    }
  }

  /** What is listed: the first due rows, and all of them unless the limit is reached. */
  ghost predicate IsDueList(rows: seq<Row>, now: nat, limit: nat, due: seq<nat>)
  {
    |due| <= limit && AreFirstDue(rows, now, due) && (|due| < limit ==> AllDueListed(rows, now, due))
  }

  /** How many rows are listed at most: what is asked for, from 1 to 50, and 5 otherwise. */
  function BatchLimit(limit: int): nat
  {
    if limit <= 0 || limit > 50 then 5 else limit
  }

  /** How one execution goes: when its row is locked, when it ends, and how. */
  datatype Outcome = Outcome(lockedAt: nat, endedAt: nat, success: bool)

  /** A waiting row after it has been locked and executed. */
  function WorkedRow(max: nat, base: nat, r: Row, o: Outcome): Row
  {
    var attempt := r.attempts + 1;
    if o.success then r.(attempts := attempt, updatedAt := o.endedAt, status := Confirmed)
    else if attempt >= max then r.(attempts := attempt, updatedAt := o.endedAt, status := Failed)
    else
      r.(attempts := attempt, updatedAt := o.endedAt, status := Retry,
         executeAfter := o.endedAt + Backoff(base, attempt))
  }

  /** The listed rows have been worked on as their outcomes say, and the others are as they were. */
  ghost predicate IsWorkedThrough(max: nat, base: nat, before: seq<Row>, due: seq<nat>, outcome: nat -> Outcome,
                                  after: seq<Row>)
  {
    && |after| == |before|
    && (forall k :: 0 <= k < |due| ==>
          due[k] < |before| && after[due[k]] == WorkedRow(max, base, before[due[k]], outcome(k)))
    && (forall i: nat :: i < |before| && i !in due ==> after[i] == before[i])
  }

  /** The stale rows have been recovered, and then the rows that were due have been worked on. */
  ghost predicate IsTurn(max: nat, base: nat, before: State, limit: int, staleBefore: int, retryAt: nat, now: nat,
                         due: seq<nat>, outcome: nat -> Outcome, after: seq<Row>)
  {
    var recovered := RecoverAll(max, before, staleBefore, retryAt, now).rows;
    IsDueList(recovered, now, BatchLimit(limit), due) && IsWorkedThrough(max, base, recovered, due, outcome, after)
  }

  ghost predicate AreWaiting(rows: seq<Row>, due: seq<nat>)
  {
    && (forall k :: 0 <= k < |due| ==> due[k] < |rows| && IsPending(rows[due[k]]))
    && (forall a, b :: 0 <= a < b < |due| ==> due[a] != due[b])
  }

  lemma DueAreWaiting(rows: seq<Row>, now: nat, limit: nat, due: seq<nat>)
    requires IsDueList(rows, now, limit, due)
    ensures AreWaiting(rows, due)
  {
    forall k | 0 <= k < |due| ensures due[k] < |rows| && IsPending(rows[due[k]]) {
      assert IsListedDue(rows, now, due, k);
    }
    forall a, b | 0 <= a < b < |due| ensures due[a] != due[b] {
      assert InOrder(rows, due, a, b);
    }
  }

  lemma NotWorkedYet(max: nat, base: nat, before: seq<Row>, due: seq<nat>, k: nat, outcome: nat -> Outcome,
                     after: seq<Row>)
    requires k < |due| && AreWaiting(before, due)
    requires IsWorkedThrough(max, base, before, due[..k], outcome, after)
    ensures after[due[k]] == before[due[k]]
  {
    assert due[k] !in due[..k];
  }

  lemma WorkedOnce(max: nat, base: nat, before: seq<Row>, due: seq<nat>, k: nat, outcome: nat -> Outcome,
                   after: seq<Row>)
    requires k < |due| && AreWaiting(before, due)
    requires IsWorkedThrough(max, base, before, due[..k], outcome, after)
    ensures IsWorkedThrough(max, base, before, due[..k + 1], outcome,
                            after[due[k] := WorkedRow(max, base, before[due[k]], outcome(k))])
  {
    assert due[..k + 1] == due[..k] + [due[k]];
  }

  class Queue {
    const max: nat
    var rows: seq<Row>
    var executions: seq<Execution>

    ghost function View(): State
      reads this
    {
      State(rows, executions)
    }

    constructor (max: nat)
      ensures View() == EMPTY && this.max == max
    {
      this.max := max;
      rows, executions := [], [];
    }

    method CreateWithdrawal(user: nat, nullifier: nat, executeAfter: nat, now: nat) returns (ok: bool)
      modifies this
      ensures ok == Allowed(old(View()), Create(user, nullifier, executeAfter, now))
      ensures View() == Next(max, old(View()), Create(user, nullifier, executeAfter, now))
    {
      for i := 0 to |rows|
        invariant forall j :: 0 <= j < i ==> rows[j].nullifier != nullifier
        invariant View() == old(View())
      {
        if rows[i].nullifier == nullifier {
          return false;
        }
      }
      rows := rows + [Row(user, nullifier, Queued, 0, executeAfter, now, now, 0, 0)];
      return true;
    }

    method MarkProcessing(i: nat, now: nat) returns (ok: bool)
      modifies this
      ensures ok == Allowed(old(View()), Lock(i, now))
      ensures View() == Next(max, old(View()), Lock(i, now))
    {
      if i >= |rows| || rows[i].status !in {Queued, Retry} {
        return false;
      }
      executions := executions + [Execution(i, rows[i].attempts + 1, Running)];
      rows := rows[i := rows[i].(status := Processing, attempts := rows[i].attempts + 1, updatedAt := now)];
      return true;
    }

    /** What the worker records when an execution returns. */
    method CompleteExecution(k: nat, success: bool, retryAt: nat, now: nat)
      requires Allowed(View(), Report(k, success, retryAt, now))
      modifies this
      ensures View() == Next(max, old(View()), Report(k, success, retryAt, now))
    {
      var e := executions[k];
      if e.phase.Recovered? {
        rows := rows[e.row := rows[e.row].(late := rows[e.row].late + 1)];
      }
      if success {
        rows := rows[e.row := rows[e.row].(status := Confirmed, updatedAt := now)];
      } else if e.attempt >= max {
        rows := rows[e.row := rows[e.row].(status := Failed, updatedAt := now)];
      } else {
        rows := rows[e.row := rows[e.row].(status := Retry, executeAfter := retryAt, updatedAt := now)];
      }
      executions := executions[k := e.(phase := Ended)];
    }

    /** Puts every stale lock back into the queue, or gives it up at the limit. */
    method RecoverStale(staleBefore: int, retryAt: nat, now: nat)
      modifies this
      ensures View() == Next(max, old(View()), Recover(staleBefore, retryAt, now))
    {
      ghost var before := rows;
      executions := seq(|executions|, k requires 0 <= k < |executions| reads this =>
        RecoveredExecution(rows, executions[k], staleBefore));
      ghost var recovered := executions;
      for i := 0 to |rows|
        invariant |rows| == |before| && executions == recovered
        invariant forall j :: 0 <= j < i ==> rows[j] == RecoveredRow(max, before[j], staleBefore, retryAt, now)
        invariant forall j :: i <= j < |rows| ==> rows[j] == before[j]
      {
        var r := rows[i];
        if r.status.Processing? && r.updatedAt <= staleBefore {
          if r.attempts >= max {
            rows := rows[i := r.(status := Failed, updatedAt := now)];
          } else {
            rows := rows[i := r.(status := Retry, executeAfter := retryAt, updatedAt := now)];
          }
        }
      }
    }

    method NextDue(due: seq<nat>, now: nat) returns (next: int)
      ensures next >= 0 ==> IsNextDue(rows, now, due, next)
      ensures next < 0 ==> AllDueListed(rows, now, due)
    {
      next := -1;
      for i := 0 to |rows|
        invariant -1 <= next < i
        invariant next >= 0 ==> IsDue(rows[next], now) && next !in due
        invariant forall j: nat :: j < i && IsDue(rows[j], now) && j !in due ==>
                    next >= 0 && ComesFirst(rows[next], rows[j])
      {
        if IsDue(rows[i], now) && i !in due && (next < 0 || !ComesFirst(rows[next], rows[i])) {
          next := i;
        }
      }
    }

    /** The due rows in the order in which they become due, as many as the limit allows. */
    method ListDue(limit: int, now: nat) returns (due: seq<nat>)
      ensures IsDueList(rows, now, if 1 <= limit <= 50 then limit else 5, due)
    {
      due := [];
      while |due| < BatchLimit(limit)
        invariant |due| <= BatchLimit(limit) && AreFirstDue(rows, now, due)
      {
        var next := NextDue(due, now);
        if next < 0 {
          return;
        }
        NextIsAppended(rows, now, due, next);
        due := due + [next];
      }
    }

    /** Locks a waiting row and executes it. */
    method MarkAndRun(i: nat, base: nat, o: Outcome) returns (ghost turn: seq<Step>)
      requires base > 0 && i < |rows| && IsPending(rows[i])
      modifies this
      ensures rows == old(rows)[i := WorkedRow(max, base, old(rows)[i], o)]
      ensures Took(max, old(View()), turn, View())
    {
      var locked := MarkProcessing(i, o.lockedAt);
      var k := |executions| - 1;
      var delay := RetryDelay(base, rows[i].attempts);
      ghost var lock, report := Lock(i, o.lockedAt), Report(k, o.success, o.endedAt + delay, o.endedAt);
      ghost var mid := View();
      CompleteExecution(k, o.success, o.endedAt + delay, o.endedAt);
      TookOne(max, old(View()), lock);
      TookOne(max, mid, report);
      turn := [lock] + [report];
      TookMore(max, old(View()), [lock], mid, [report], View());
    }

    /** Works on waiting rows one after the other. */
    method WorkThrough(due: seq<nat>, base: nat, outcome: nat -> Outcome) returns (ghost steps: seq<Step>)
      requires base > 0
      requires AreWaiting(rows, due)
      modifies this
      ensures Took(max, old(View()), steps, View())
      ensures IsWorkedThrough(max, base, old(rows), due, outcome, rows)
    {
      steps := [];
      for k := 0 to |due|
        invariant Took(max, old(View()), steps, View())
        invariant IsWorkedThrough(max, base, old(rows), due[..k], outcome, rows)
      {
        NotWorkedYet(max, base, old(rows), due, k, outcome, rows);
        WorkedOnce(max, base, old(rows), due, k, outcome, rows);
        ghost var mid := View();
        ghost var turn := MarkAndRun(due[k], base, outcome(k));
        TookMore(max, old(View()), steps, mid, turn, View());
        steps := steps + turn;
      }
      assert due[..|due|] == due;
    }

    /** Works on the rows that are due. */
    method WorkOnDue(limit: int, base: nat, now: nat, outcome: nat -> Outcome)
      returns (ghost due: seq<nat>, ghost steps: seq<Step>)
      requires base > 0
      modifies this
      ensures Took(max, old(View()), steps, View())
      ensures IsDueList(old(rows), now, BatchLimit(limit), due)
      ensures IsWorkedThrough(max, base, old(rows), due, outcome, rows)
    {
      var listed := ListDue(limit, now);
      DueAreWaiting(rows, now, BatchLimit(limit), listed);
      steps := WorkThrough(listed, base, outcome);
      due := listed;
    }

    /** Recovers what is stale, and works on the rows that are due then. */
    method RecoverAndWork(limit: int, timeout: nat, base: nat, now: nat, outcome: nat -> Outcome)
      returns (ghost due: seq<nat>, ghost steps: seq<Step>)
      requires base > 0
      modifies this
      ensures Took(max, old(View()), steps, View())
      ensures IsTurn(max, base, old(View()), limit, now - timeout, now + Backoff(base, 1), now, due, outcome, rows)
    {
      var delay := RetryDelay(base, 1);
      ghost var before, recovery := View(), Recover(now - timeout, now + delay, now);
      RecoverStale(now - timeout, now + delay, now);
      ghost var mid := View();
      assert mid.rows == RecoverAll(max, before, now - timeout, now + Backoff(base, 1), now).rows;
      due, steps := WorkOnDue(limit, base, now, outcome);
      TookAfterRecovery(max, before, recovery, mid, steps, View());
      steps := [recovery] + steps;
    }

    /** One turn of the worker, without interference: recover, list, then lock and execute row by row, where
        `outcome(k)` says how it goes for the k-th listed row. Every listed row has been attempted once more, no
        other has changed, and it is a run of the queue's own steps in which every execution reports on time. */
    method ProcessBatch(paused: bool, limit: int, timeout: nat, base: nat, now: nat, outcome: nat -> Outcome)
      returns (ghost due: seq<nat>, ghost steps: seq<Step>)
      requires base > 0
      modifies this
      ensures Took(max, old(View()), steps, View())
      ensures paused ==> View() == old(View())
      ensures !paused ==>
                IsTurn(max, base, old(View()), limit, now - timeout, now + Backoff(base, 1), now, due, outcome, rows)
    {
      if paused {
        steps, due := [], [];
        return;
      }
      due, steps := RecoverAndWork(limit, timeout, base, now, outcome);
    }
  }
}
