/** The fix, verify and roll back loop (codna/fix_run.py) over a git checkout.

    A checkout is its HEAD and the parent of every commit. Everything foreign about an attempt (planning,
    applying, testing, resetting) is given by what it did, for any sequence of such outcomes. */
module FixRun {
  import opened Collections
  import opened Wrappers

  type Commit = nat

  /** `parent` has an entry for each commit made; `next` is the number of the next one. */
  datatype Repo = Repo(head: Option<Commit>, parent: map<Commit, Option<Commit>>, next: Commit)

  /** Applying can raise before its commit or, while cleaning up, after it. */
  datatype ApplyOutcome = ApplyRaises(committed: bool) | RemotePullRequest | LocalCommit(checkoutThere: bool)

  /** One attempt's outcomes. `verifyIssue` is what test discovery reports, none when all is green;
      `headMovedTo` is a commit somebody else moved HEAD to while the tests ran. */
  datatype Attempt = Attempt(planRaises: bool, apply: ApplyOutcome, verifyRaises: bool, verifyIssue: Option<string>,
                             stillFailing: seq<string>, headMovedTo: Option<Commit>, resetFails: bool)

  datatype Options = Options(apply: bool, openPr: bool, tests: bool, maxIterations: int)

  /** What the planner is told: the request as given, or the request plus the last red verification. */
  datatype Issue = AsGiven | AfterRed(output: string)

  /** One entry of the result, with the HEAD the attempt started from and the commit it made. */
  datatype Iteration = Iteration(n: nat, issue: Issue, failing: seq<string>, base: Option<Commit>,
                                 commit: Option<Commit>, testsPass: Option<bool>, stillFailing: seq<string>)

  datatype Fix = Fix(iterations: seq<Iteration>, verified: Option<bool>, remaining: Option<seq<string>>)

  datatype FixError = PlanFailed | ApplyFailed | VerifyFailed | RollbackFailed

  // ----- the run on values -----

  predicate Verifies(o: Options) {
    o.tests && o.apply && !o.openPr
  }

  function Limit(o: Options): (n: nat)
    ensures n >= 1
  {
    if Verifies(o) && o.maxIterations > 1 then o.maxIterations else 1
  }

  /** Applying locally makes one child commit of HEAD. */
  function CommitOnHead(r: Repo): Repo {
    Repo(Some(r.next), r.parent[r.next := r.head], r.next + 1)
  }

  function Applied(r: Repo, a: Attempt): Repo {
    if a.apply.LocalCommit? || (a.apply.ApplyRaises? && a.apply.committed) then CommitOnHead(r) else r
  }

  /** HEAD after the tests ran. */
  function Tested(r: Repo, a: Attempt): Repo {
    if a.headMovedTo.Some? then r.(head := a.headMovedTo) else r
  }

  function Green(a: Attempt): bool {
    a.verifyIssue.None?
  }

  datatype Outcome = Outcome(result: Result<Fix, FixError>, repo: Repo)

  /** What one turn of the loop leads to. */
  datatype Turn = Stop(outcome: Outcome) | Again(repo: Repo, issue: Issue, failing: seq<string>, entry: Iteration)

  function TakeTurn(r: Repo, o: Options, a: Attempt, i: nat, issue: Issue, failing: seq<string>,
                    done: seq<Iteration>): Turn
  {
    var r1 := Applied(r, a);
    var r2 := Tested(r1, a);
    var commit := if a.apply.LocalCommit? then r1.head else None;
    var planned := Iteration(i + 1, issue, failing, r.head, None, None, []);
    var applied := planned.(commit := commit);
    var tested := applied.(testsPass := Some(Green(a)), stillFailing := a.stillFailing);
    if a.planRaises then Stop(Outcome(Failure(PlanFailed), r))
    else if !o.apply && !o.openPr then Stop(Outcome(Success(Fix(done + [planned], None, None)), r))
    else if a.apply.ApplyRaises? then Stop(Outcome(Failure(ApplyFailed), r1))
    else if !Verifies(o) then Stop(Outcome(Success(Fix(done + [applied], None, None)), r1))
    else if !a.apply.LocalCommit? || !a.apply.checkoutThere then
      Stop(Outcome(Success(Fix(done + [applied], Some(false), None)), r1))
    else if a.verifyRaises then Stop(Outcome(Failure(VerifyFailed), r2))
    else if Green(a) then Stop(Outcome(Success(Fix(done + [tested], Some(true), Some([]))), r2))
    else if i + 1 >= Limit(o) then Stop(Outcome(Success(Fix(done + [tested], Some(false), Some(a.stillFailing))), r2))
    else if r.head.None? || r2.head != commit || a.resetFails then Stop(Outcome(Failure(RollbackFailed), r2))
    else Again(r2.(head := r.head), AfterRed(a.verifyIssue.value), a.stillFailing, tested)
  }

  /** The loop from attempt `i` on. */
  function Loop(r: Repo, o: Options, attempts: nat -> Attempt, i: nat, issue: Issue, failing: seq<string>,
                done: seq<Iteration>): Outcome
    requires i < Limit(o)
    decreases Limit(o) - i
  {
    match TakeTurn(r, o, attempts(i), i, issue, failing, done)
    case Stop(outcome) => outcome
    case Again(next, nextIssue, nextFailing, entry) =>
      assert i + 1 < Limit(o);
      Loop(next, o, attempts, i + 1, nextIssue, nextFailing, done + [entry])
  }

  // ----- the imperative code -----

  class Checkout {
    var head: Option<Commit>
    var parent: map<Commit, Option<Commit>>
    var next: Commit

    ghost function Value(): Repo
      reads this
    {
      Repo(head, parent, next)
    }

    method CommitChild() returns (commit: Commit)
      modifies this
      ensures Value() == CommitOnHead(old(Value())) && head == Some(commit)
    {
      commit := next;
      parent := parent[commit := head];
      head := Some(commit);
      next := next + 1;
    }

    /** `_rollback_failed_local_apply`: reset to the base, but only from the commit this attempt made. */
    method Rollback(applied: Option<Commit>, base: Option<Commit>, resetFails: bool) returns (ok: bool)
      modifies this`head
      ensures ok <==> base.Some? && applied.Some? && old(head) == applied && !resetFails
      ensures head == if ok then base else old(head)
    {
      if base.None? || applied.None? || head != applied || resetFails {
        return false;
      }
      head := base;
      return true;
    }

    /** `run_fix`, from the resolved request on. */
    method RunFix(o: Options, attempts: nat -> Attempt, failing0: seq<string>) returns (r: Result<Fix, FixError>)
      modifies this
      ensures Outcome(r, Value()) == Loop(old(Value()), o, attempts, 0, AsGiven, failing0, [])
    {
      var issue, failing := AsGiven, failing0;
      var iterations: seq<Iteration> := [];
      var i := 0;
      while i < Limit(o)
        invariant i < Limit(o)
        invariant Loop(old(Value()), o, attempts, 0, AsGiven, failing0, [])
                  == Loop(Value(), o, attempts, i, issue, failing, iterations)
        decreases Limit(o) - i
      {
        var a := attempts(i);
        var base := head;
        if a.planRaises {
          return Failure(PlanFailed);
        }
        if !o.apply && !o.openPr {
          return Success(Fix(iterations + [Iteration(i + 1, issue, failing, base, None, None, [])], None, None));
        }
        if a.apply.ApplyRaises? {
          if a.apply.committed {
            var _ := CommitChild();
          }
          return Failure(ApplyFailed);
        }
        var applied: Option<Commit> := None;
        if a.apply.LocalCommit? {
          var commit := CommitChild();
          applied := Some(commit);
        }
        var entry := Iteration(i + 1, issue, failing, base, applied, None, []);
        if !Verifies(o) {
          return Success(Fix(iterations + [entry], None, None));
        }
        if !a.apply.LocalCommit? || !a.apply.checkoutThere {
          return Success(Fix(iterations + [entry], Some(false), None));
        }
        if a.headMovedTo.Some? {
          head := a.headMovedTo;
        }
        if a.verifyRaises {
          return Failure(VerifyFailed);
        }
        var green := a.verifyIssue.None?;
        entry := entry.(testsPass := Some(green), stillFailing := a.stillFailing);
        if green {
          return Success(Fix(iterations + [entry], Some(true), Some([])));
        }
        if i + 1 >= Limit(o) {
          return Success(Fix(iterations + [entry], Some(false), Some(a.stillFailing)));
        }
        var ok := Rollback(applied, base, a.resetFails);
        if !ok {
          return Failure(RollbackFailed);
        }
        iterations := iterations + [entry];
        issue, failing := AfterRed(a.verifyIssue.value), a.stillFailing;
        i := i + 1;
      }
    }
  }

  // ----- the theorems -----

  /** Red attempts, numbered from one, each started from the same base. */
  predicate RedFromBase(base: Option<Commit>, its: seq<Iteration>) {
    forall k :: 0 <= k < |its| ==> its[k].n == k + 1 && its[k].base == base && its[k].testsPass == Some(false)
  }

  /** The request and the tests an attempt was given are the last red verification's. */
  predicate Informed(attempts: nat -> Attempt, k: nat, before: Iteration, issue: Issue, failing: seq<string>)
    requires k > 0
  {
    && failing == before.stillFailing && issue.AfterRed?
    && attempts(k - 1).verifyIssue == Some(issue.output)
  }

  ghost predicate AllInformed(attempts: nat -> Attempt, its: seq<Iteration>) {
    forall k :: 0 < k < |its| ==> Informed(attempts, k, its[k - 1], its[k].issue, its[k].failing)
  }

  /** The checkout holds one commit on the base: the last attempt's, unless the tests moved HEAD. */
  predicate OneCommitOnBase(base: Option<Commit>, a: Attempt, last: Iteration, r: Repo) {
    match last.commit
    case None => r.head == base
    case Some(c) =>
      && c in r.parent && r.parent[c] == base
      && r.head == (if last.testsPass.Some? && a.headMovedTo.Some? then a.headMovedTo else Some(c))
  }

  /** What every run that returns looks like: between one and the allowed number of attempts, all from one
      base; all but the last red; each retry informed by the red one before; `verified` exactly when the
      last was green; and one commit on the base. */
  ghost predicate GoodFix(base: Option<Commit>, o: Options, attempts: nat -> Attempt, f: Fix, r: Repo) {
    var n := |f.iterations|;
    && 1 <= n <= Limit(o)
    && var last := f.iterations[n - 1];
       && RedFromBase(base, f.iterations[..n - 1]) && last.n == n && last.base == base
       && AllInformed(attempts, f.iterations)
       && (f.verified == Some(true) <==> last.testsPass == Some(true))
       && (f.verified.None? <==> !Verifies(o))
       && (f.remaining.Some? <==> last.testsPass.Some?)
       && (f.verified == Some(true) ==> f.remaining == Some([]))
       && OneCommitOnBase(base, attempts(n - 1), last, r)
  }

  /** The loop after some red attempts. */
  ghost predicate AfterReds(base: Option<Commit>, attempts: nat -> Attempt, r: Repo, i: nat, issue: Issue,
                            failing: seq<string>, done: seq<Iteration>) {
    && i == |done| && r.head == base
    && RedFromBase(base, done) && AllInformed(attempts, done)
    && (i > 0 ==> Informed(attempts, i, done[i - 1], issue, failing))
  }

  lemma OneMoreInformed(base: Option<Commit>, attempts: nat -> Attempt, r: Repo, i: nat, done: seq<Iteration>,
                        last: Iteration)
    requires AfterReds(base, attempts, r, i, last.issue, last.failing, done)
    ensures AllInformed(attempts, done + [last])
    ensures (done + [last])[..i] == done
  {
    var its := done + [last];
    forall k | 0 < k < |its| ensures Informed(attempts, k, its[k - 1], its[k].issue, its[k].failing) {
      if k < i {
        assert Informed(attempts, k, done[k - 1], done[k].issue, done[k].failing);
      }
    }
  }

  lemma StoppingIsGood(base: Option<Commit>, o: Options, attempts: nat -> Attempt, r: Repo, i: nat,
                       issue: Issue, failing: seq<string>, done: seq<Iteration>)
    requires i < Limit(o) && AfterReds(base, attempts, r, i, issue, failing, done)
    ensures var turn := TakeTurn(r, o, attempts(i), i, issue, failing, done);
            turn.Stop? && turn.outcome.result.Success? ==>
              GoodFix(base, o, attempts, turn.outcome.result.value, turn.outcome.repo)
  {
    var turn := TakeTurn(r, o, attempts(i), i, issue, failing, done);
    if turn.Stop? && turn.outcome.result.Success? {
      var last := LastEntry(r, o, attempts(i), i, issue, failing, done);
      OneMoreInformed(base, attempts, r, i, done, last);
      assert (done + [last])[i] == last;
    }
  }

  /** The entry a returning turn adds, and the checkout it leaves. */
  lemma LastEntry(r: Repo, o: Options, a: Attempt, i: nat, issue: Issue, failing: seq<string>, done: seq<Iteration>)
    returns (last: Iteration)
    requires var turn := TakeTurn(r, o, a, i, issue, failing, done);
             turn.Stop? && turn.outcome.result.Success?
    ensures var out := TakeTurn(r, o, a, i, issue, failing, done).outcome;
            var f := out.result.value;
            && f.iterations == done + [last]
            && last.n == i + 1 && last.base == r.head && last.issue == issue && last.failing == failing
            && (f.verified == Some(true) <==> last.testsPass == Some(true))
            && (f.verified.None? <==> !Verifies(o))
            && (f.remaining.Some? <==> last.testsPass.Some?)
            && (f.verified == Some(true) ==> f.remaining == Some([]))
            && OneCommitOnBase(r.head, a, last, out.repo)
  {
    var r1 := Applied(r, a);
    var commit := if a.apply.LocalCommit? then r1.head else None;
    var planned := Iteration(i + 1, issue, failing, r.head, None, None, []);
    var applied := planned.(commit := commit);
    last := if !o.apply && !o.openPr then planned
            else if !Verifies(o) || !a.apply.LocalCommit? || !a.apply.checkoutThere then applied
            else applied.(testsPass := Some(Green(a)), stillFailing := a.stillFailing);
  }

  lemma RetryingIsInformed(base: Option<Commit>, o: Options, attempts: nat -> Attempt, r: Repo, i: nat,
                           issue: Issue, failing: seq<string>, done: seq<Iteration>)
    requires i < Limit(o) && AfterReds(base, attempts, r, i, issue, failing, done)
    ensures var turn := TakeTurn(r, o, attempts(i), i, issue, failing, done);
            turn.Again? ==> AfterReds(base, attempts, turn.repo, i + 1, turn.issue, turn.failing, done + [turn.entry])
  {
    var turn := TakeTurn(r, o, attempts(i), i, issue, failing, done);
    if turn.Again? {
      OneMoreInformed(base, attempts, r, i, done, turn.entry);
    }
  }

  lemma {:induction false} LoopIsGood(base: Option<Commit>, o: Options, attempts: nat -> Attempt, r: Repo, i: nat,
                                     issue: Issue, failing: seq<string>, done: seq<Iteration>)
    requires i < Limit(o) && AfterReds(base, attempts, r, i, issue, failing, done)
    ensures var out := Loop(r, o, attempts, i, issue, failing, done);
            out.result.Success? ==> GoodFix(base, o, attempts, out.result.value, out.repo)
    decreases Limit(o) - i
  {
    StoppingIsGood(base, o, attempts, r, i, issue, failing, done);
    RetryingIsInformed(base, o, attempts, r, i, issue, failing, done);
    var turn := TakeTurn(r, o, attempts(i), i, issue, failing, done);
    if turn.Again? {
      LoopIsGood(base, o, attempts, turn.repo, i + 1, turn.issue, turn.failing, done + [turn.entry]);
    }
  }

  /** Over every sequence of outcomes, a run that returns is good. */
  lemma ReturningRunIsGood(r: Repo, o: Options, attempts: nat -> Attempt, failing: seq<string>)
    ensures var out := Loop(r, o, attempts, 0, AsGiven, failing, []);
            out.result.Success? ==> GoodFix(r.head, o, attempts, out.result.value, out.repo)
  {
    LoopIsGood(r.head, o, attempts, r, 0, AsGiven, failing, []);
  }

  predicate Ran(a: Attempt) {
    !a.planRaises && a.apply == LocalCommit(true) && !a.verifyRaises
  }

  // ----- runs that raise -----

  /** HEAD is the commit made last, and its parent is the base. */
  predicate NewestOnBase(base: Option<Commit>, r: Repo) {
    r.next > 0 && r.head == Some(r.next - 1) && (r.next - 1) in r.parent && r.parent[r.next - 1] == base
  }

  /** HEAD after the tests: wherever they moved it, else the attempt's commit on the base. */
  predicate WhereTestsLeftIt(base: Option<Commit>, a: Attempt, r: Repo) {
    if a.headMovedTo.Some? then r.head == a.headMovedTo else NewestOnBase(base, r)
  }

  /** What a raising attempt leaves in the checkout. */
  predicate LeavesBehind(base: Option<Commit>, a: Attempt, e: FixError, r: Repo) {
    match e
    case PlanFailed => a.planRaises && r.head == base
    case ApplyFailed => a.apply.ApplyRaises? && if a.apply.committed then NewestOnBase(base, r) else r.head == base
    case VerifyFailed => a.verifyRaises && WhereTestsLeftIt(base, a, r)
    case RollbackFailed =>
      && Ran(a) && !Green(a) && WhereTestsLeftIt(base, a, r)
      && (base.None? || a.resetFails || (a.headMovedTo.Some? && a.headMovedTo != Some(r.next - 1)))
  }

  ghost predicate AllRed(attempts: nat -> Attempt, i: nat) {
    forall j :: 0 <= j < i ==> Ran(attempts(j)) && !Green(attempts(j))
  }

  /** A raising run: red attempts, all taken back, and then the one that raised. */
  ghost predicate GoodFailure(base: Option<Commit>, o: Options, attempts: nat -> Attempt, e: FixError, r: Repo) {
    exists i :: 0 <= i < Limit(o) && AllRed(attempts, i) && LeavesBehind(base, attempts(i), e, r)
  }

  lemma TurnThatRaises(r: Repo, o: Options, a: Attempt, i: nat, issue: Issue, failing: seq<string>,
                       done: seq<Iteration>)
    ensures var turn := TakeTurn(r, o, a, i, issue, failing, done);
            && (turn.Stop? && turn.outcome.result.Failure? ==>
                  LeavesBehind(r.head, a, turn.outcome.result.error, turn.outcome.repo))
            && (turn.Again? ==> Ran(a) && !Green(a) && turn.repo.head == r.head)
  {
  }

  lemma {:induction false} LoopFailsWell(base: Option<Commit>, o: Options, attempts: nat -> Attempt, r: Repo, i: nat,
                                        issue: Issue, failing: seq<string>, done: seq<Iteration>)
    requires i < Limit(o) && r.head == base && AllRed(attempts, i)
    ensures var out := Loop(r, o, attempts, i, issue, failing, done);
            out.result.Failure? ==> GoodFailure(base, o, attempts, out.result.error, out.repo)
    decreases Limit(o) - i
  {
    TurnThatRaises(r, o, attempts(i), i, issue, failing, done);
    var turn := TakeTurn(r, o, attempts(i), i, issue, failing, done);
    if turn.Again? {
      LoopFailsWell(base, o, attempts, turn.repo, i + 1, turn.issue, turn.failing, done + [turn.entry]);
    }
  }

  /** Over every sequence of outcomes, a run that raises leaves HEAD on the base, on the raising attempt's one
      commit on the base, or where the tests moved it, and every attempt before was red and taken back. */
  lemma RaisingRunLeavesBaseOrOneCommit(r: Repo, o: Options, attempts: nat -> Attempt, failing: seq<string>)
    ensures var out := Loop(r, o, attempts, 0, AsGiven, failing, []);
            out.result.Failure? ==> GoodFailure(r.head, o, attempts, out.result.error, out.repo)
  {
    LoopFailsWell(r.head, o, attempts, r, 0, AsGiven, failing, []);
  }

  // ----- runs that verify -----

  predicate GreenAt(attempts: nat -> Attempt, k: nat) {
    Ran(attempts(k)) && Green(attempts(k))
  }

  /** The attempt failed its tests and its commit could be taken back to the base. Attempt `k` makes commit number
      `first + k`, so HEAD must not have been moved anywhere else. */
  predicate RedAndRolledBack(base: Option<Commit>, attempts: nat -> Attempt, k: nat, first: int) {
    var a := attempts(k);
    && base.Some? && Ran(a) && !Green(a) && !a.resetFails
    && (a.headMovedTo.Some? ==> a.headMovedTo.value == first + k)
  }

  ghost predicate GreenInTime(base: Option<Commit>, o: Options, attempts: nat -> Attempt, i: nat, first: int, k: nat) {
    && i <= k < Limit(o) && GreenAt(attempts, k)
    && forall j :: i <= j < k ==> RedAndRolledBack(base, attempts, j, first)
  }

  ghost predicate SomeGreenInTime(base: Option<Commit>, o: Options, attempts: nat -> Attempt, i: nat, first: int) {
    exists k :: GreenInTime(base, o, attempts, i, first, k)
  }

  lemma GreenInTimeUnfolds(base: Option<Commit>, o: Options, attempts: nat -> Attempt, i: nat, first: int)
    requires i < Limit(o)
    ensures SomeGreenInTime(base, o, attempts, i, first) <==>
            GreenAt(attempts, i) || (RedAndRolledBack(base, attempts, i, first) && SomeGreenInTime(base, o, attempts, i + 1, first))
  {
    if GreenAt(attempts, i) {
      assert GreenInTime(base, o, attempts, i, first, i);
    } else {
      if SomeGreenInTime(base, o, attempts, i, first) {
        var k :| GreenInTime(base, o, attempts, i, first, k);
        assert GreenInTime(base, o, attempts, i + 1, first, k);
      }
      if RedAndRolledBack(base, attempts, i, first) && SomeGreenInTime(base, o, attempts, i + 1, first) {
        var k :| GreenInTime(base, o, attempts, i + 1, first, k);
        assert GreenInTime(base, o, attempts, i, first, k);
      }
    }
  }

  /** A verifying run ends verified exactly when some attempt within the limit is green and every attempt
      before it was red and could be rolled back. */
  lemma {:induction false} VerifiedIffGreenInTime(r: Repo, o: Options, attempts: nat -> Attempt, i: nat, issue: Issue,
                                                 failing: seq<string>, done: seq<Iteration>)
    requires i < Limit(o) && Verifies(o)
    ensures var out := Loop(r, o, attempts, i, issue, failing, done);
            (out.result.Success? && out.result.value.verified == Some(true))
            <==> SomeGreenInTime(r.head, o, attempts, i, r.next - i)
    decreases Limit(o) - i
  {
    GreenInTimeUnfolds(r.head, o, attempts, i, r.next - i);
    var turn := TakeTurn(r, o, attempts(i), i, issue, failing, done);
    if turn.Again? {
      VerifiedIffGreenInTime(turn.repo, o, attempts, i + 1, turn.issue, turn.failing, done + [turn.entry]);
    }
  }

  // ----- how many attempts, told from the options alone -----

  /** A returning run makes at most `max(1, max_iterations)` attempts, and one only unless tests are asked
      for on a local apply. */
  lemma AttemptsAreLimited(r: Repo, o: Options, attempts: nat -> Attempt, failing: seq<string>)
    ensures var out := Loop(r, o, attempts, 0, AsGiven, failing, []);
            out.result.Success? ==>
              && 1 <= |out.result.value.iterations| <= Max(1, o.maxIterations)
              && (!(o.tests && o.apply && !o.openPr) ==> |out.result.value.iterations| == 1)
  {
    var out := Loop(r, o, attempts, 0, AsGiven, failing, []);
    ReturningRunIsGood(r, o, attempts, failing);
    if out.result.Success? {
      GoodFixIsLimited(r.head, o, attempts, out.result.value, out.repo);
    }
  }

  lemma GoodFixIsLimited(base: Option<Commit>, o: Options, attempts: nat -> Attempt, f: Fix, r: Repo)
    requires GoodFix(base, o, attempts, f, r)
    ensures 1 <= |f.iterations| <= Max(1, o.maxIterations)
    ensures !(o.tests && o.apply && !o.openPr) ==> |f.iterations| == 1
  {
    assert 1 <= |f.iterations| <= Limit(o);
  }

  /** Every attempt fails its tests and can be taken back, the HEAD never leaving its commit. */
  ghost predicate HopelessRun(attempts: nat -> Attempt) {
    forall k :: Ran(attempts(k)) && !Green(attempts(k)) && !attempts(k).resetFails && attempts(k).headMovedTo.None?
  }

  lemma {:induction false} HopelessLoop(r: Repo, o: Options, attempts: nat -> Attempt, i: nat, issue: Issue,
                                       failing: seq<string>, done: seq<Iteration>)
    requires o.tests && o.apply && !o.openPr && HopelessRun(attempts) && r.head.Some?
    requires i < Limit(o) && |done| == i
    ensures var out := Loop(r, o, attempts, i, issue, failing, done);
            && out.result.Success? && |out.result.value.iterations| == Max(1, o.maxIterations)
            && out.result.value.verified == Some(false)
    decreases Limit(o) - i
  {
    assert Ran(attempts(i)) && !Green(attempts(i)) && !attempts(i).resetFails && attempts(i).headMovedTo.None?;
    var turn := TakeTurn(r, o, attempts(i), i, issue, failing, done);
    if turn.Again? {
      HopelessLoop(turn.repo, o, attempts, i + 1, turn.issue, turn.failing, done + [turn.entry]);
    }
  }

  /** When nothing ever helps, exactly `max(1, max_iterations)` attempts are made. */
  lemma HopelessRunUsesAllAttempts(r: Repo, o: Options, attempts: nat -> Attempt, failing: seq<string>)
    requires o.tests && o.apply && !o.openPr && HopelessRun(attempts) && r.head.Some?
    ensures var out := Loop(r, o, attempts, 0, AsGiven, failing, []);
            out.result.Success? && |out.result.value.iterations| == Max(1, o.maxIterations)
  {
    HopelessLoop(r, o, attempts, 0, AsGiven, failing, []);
  }

  /** Attempt `k` is among the first `limit`, is green, and everything before it was red and taken back. */
  ghost predicate GreenAmong(base: Option<Commit>, attempts: nat -> Attempt, limit: int, first: int, k: nat) {
    && k < limit && GreenAt(attempts, k)
    && forall j: nat :: j < k ==> RedAndRolledBack(base, attempts, j, first)
  }

  /** A run that asks for tests on a local apply ends verified exactly when a green attempt comes before that
      number, with every attempt before it red and taken back. */
  lemma VerifiedIffGreenBeforeLimit(r: Repo, o: Options, attempts: nat -> Attempt, failing: seq<string>)
    requires o.tests && o.apply && !o.openPr
    ensures var out := Loop(r, o, attempts, 0, AsGiven, failing, []);
            (out.result.Success? && out.result.value.verified == Some(true)) <==>
            exists k :: GreenAmong(r.head, attempts, Max(1, o.maxIterations), r.next, k)
  {
    VerifiedIffGreenInTime(r, o, attempts, 0, AsGiven, failing, []);
    forall k: nat
      ensures GreenAmong(r.head, attempts, Max(1, o.maxIterations), r.next, k) <==>
              GreenInTime(r.head, o, attempts, 0, r.next, k)
    {
    }
  }

  /** And a run that does not ask for that is never called verified. */
  lemma UnaskedIsNeverVerified(r: Repo, o: Options, attempts: nat -> Attempt, failing: seq<string>)
    requires !(o.tests && o.apply && !o.openPr)
    ensures var out := Loop(r, o, attempts, 0, AsGiven, failing, []);
            out.result.Success? ==> out.result.value.verified.None? && out.result.value.remaining.None?
  {
  }
}
