/**
 The per-record retry engine: one payload is generated, then the same insert is
 attempted until it succeeds, or until the attempt counter reaches MaxRetry, at
 which point the whole process is aborted.

 The database is an oracle `db` mapping the 1-based number of an attempt to its
 outcome. Clock readings are abstracted to the attempt at which they were taken,
 and sleeps are counted rather than timed.
 */
module Retry {
  import opened Common
  import opened Configuration

  /** The answer of the database to one insert statement. */
  datatype Outcome = Succeeded | Failed

  /** The status every generated row is inserted with. */
  const Idle: string := "idle"

  /** The two parameters of one `INSERT INTO busy (description, status)` statement. */
  datatype Row = Row(description: string, status: string)

  /** What `lastError` holds: the clock reading taken before the first attempt,
      or the one taken while handling the failure of the given attempt. */
  datatype Stamp = BeforeLoop | FailureOf(attempt: nat)

  /** The local state of the retry loop while it is still attempting: the attempt
      counter, the first-failure stamp, the retry sleeps taken so far and the insert
      statements issued so far, in order. */
  datatype Attempting = Attempting(retryCount: int, lastError: Stamp, sleeps: nat, issued: seq<Row>)

  /** How the retry loop of one record ends. `Inserted` carries the stamp the
      logged downtime is measured from, or None when no downtime is logged;
      `Fatal` is the abort of the whole process. */
  datatype Result =
    | Inserted(issued: seq<Row>, sleeps: nat, downtimeSince: Option<Stamp>)
    | Fatal(issued: seq<Row>, sleeps: nat)

  datatype Next = Retrying(state: Attempting) | Finished(result: Result)

  /** The state right before the loop: counter 1, clock read, nothing issued. */
  function Start(): Attempting
  {
    Attempting(1, BeforeLoop, 0, [])
  }

  /** One pass through the body of the retry loop, given the database's answer
      to the insert issued in it. */
  function Step(maxRetry: int, data: string, s: Attempting, o: Outcome): (n: Next)
    ensures n.Retrying? <==> o == Failed && s.retryCount < maxRetry
    ensures n.Retrying? ==> n.state.retryCount == s.retryCount + 1 && n.state.sleeps == s.sleeps + 1
    ensures n.Retrying? ==> n.state.issued == s.issued + [Row(data, Idle)]
    ensures n.Retrying? && s.retryCount == 1 ==> n.state.lastError == FailureOf(|s.issued| + 1)
    ensures n.Retrying? && s.retryCount != 1 ==> n.state.lastError == s.lastError
    ensures n.Finished? ==> n.result.issued == s.issued + [Row(data, Idle)] && n.result.sleeps == s.sleeps
    ensures n.Finished? ==> (n.result.Inserted? <==> o == Succeeded)
    ensures n.Finished? && n.result.Inserted? ==> (n.result.downtimeSince.Some? <==> s.retryCount > 1)
    ensures n.Finished? && n.result.Inserted? && s.retryCount > 1 ==> n.result.downtimeSince == Some(s.lastError)
  {
    var issued := s.issued + [Row(data, Idle)];
    match o
    case Failed =>
      var lastError := if s.retryCount == 1 then FailureOf(|issued|) else s.lastError;
      if s.retryCount >= maxRetry then Finished(Fatal(issued, s.sleeps))
      else Retrying(Attempting(s.retryCount + 1, lastError, s.sleeps + 1, issued))
    case Succeeded =>
      Finished(Inserted(issued, s.sleeps, if s.retryCount > 1 then Some(s.lastError) else None))
  }

  /** The retry loop run to its end from state `s`; attempt number k is answered by db(k). */
  function Drive(maxRetry: int, data: string, db: nat -> Outcome, s: Attempting): (r: Result)
    ensures |r.issued| > |s.issued| && r.issued[..|s.issued|] == s.issued
    ensures forall i :: |s.issued| <= i < |r.issued| ==> r.issued[i] == Row(data, Idle)
    decreases if s.retryCount < maxRetry then maxRetry - s.retryCount else 0
  {
    match Step(maxRetry, data, s, db(|s.issued| + 1))
    case Finished(r) => r
    case Retrying(s') => Drive(maxRetry, data, db, s')
  }

  /** The handling of one generated payload `data` by generateDummyData: every
      insert it issues carries that payload and the status "idle". */
  function InsertWithRetry(cfg: Config, data: string, db: nat -> Outcome): (r: Result)
    ensures |r.issued| >= 1
    ensures forall i :: 0 <= i < |r.issued| ==> r.issued[i] == Row(data, "idle")
  {
    Drive(cfg.maxRetry, data, db, Start())
  }

  /** The condition "attempt k succeeds", as a value for the search. */
  function Succeeds(db: nat -> Outcome): nat -> bool
  {
    (k: nat) => db(k) == Succeeded
  }

  /** Every attempt the budget allows is refused by the database. */
  predicate Exhausted(maxRetry: int, db: nat -> Outcome)
  {
    forall k: nat :: 1 <= k <= Budget(maxRetry) ==> db(k) == Failed
  }

  /** Reference outcome of one record, read off the database's answers alone:
      the first attempt within the budget that succeeds decides everything. */
  function Expected(maxRetry: int, data: string, db: nat -> Outcome): Result
  {
    var row := Row(data, Idle);
    match FirstWhere(Succeeds(db), 1, Budget(maxRetry) + 1)
    case Some(f) => Inserted(seq(f, _ => row), f - 1, if f > 1 then Some(FailureOf(1)) else None)
    case None => Fatal(seq(Budget(maxRetry), _ => row), Budget(maxRetry) - 1)
  }

  /** The loop state after j failed attempts that were not fatal. */
  ghost predicate AfterFailures(maxRetry: int, data: string, db: nat -> Outcome, s: Attempting, j: nat)
  {
    && j < Budget(maxRetry)
    && s.retryCount == j + 1
    && s.sleeps == j
    && s.issued == seq(j, _ => Row(data, Idle))
    && s.lastError == (if j == 0 then BeforeLoop else FailureOf(1))
    && forall k: nat :: 1 <= k <= j ==> db(k) == Failed
  }

  lemma {:induction false} DriveMeetsExpected(maxRetry: int, data: string, db: nat -> Outcome, s: Attempting, j: nat)
    requires AfterFailures(maxRetry, data, db, s, j)
    ensures Drive(maxRetry, data, db, s) == Expected(maxRetry, data, db)
    decreases Budget(maxRetry) - j
  {
    var row := Row(data, Idle);
    assert s.issued + [row] == seq(j + 1, _ => row);
    var search := FirstWhere(Succeeds(db), 1, Budget(maxRetry) + 1);
    if db(j + 1) == Succeeded {
      assert Succeeds(db)(j + 1);
      assert search == Some(j + 1);
    } else if s.retryCount >= maxRetry {
      assert forall k: nat :: 1 <= k < Budget(maxRetry) + 1 ==> !Succeeds(db)(k);
      assert search == None;
    } else {
      var n := Step(maxRetry, data, s, db(j + 1));
      DriveMeetsExpected(maxRetry, data, db, n.state, j + 1);
    }
  }

  /** The retry loop of a record ends exactly as the reference predicts. */
  lemma InsertWithRetryMeetsExpected(cfg: Config, data: string, db: nat -> Outcome)
    ensures InsertWithRetry(cfg, data, db) == Expected(cfg.maxRetry, data, db)
  {
    assert Start().issued == seq(0, _ => Row(data, Idle));
    DriveMeetsExpected(cfg.maxRetry, data, db, Start(), 0);
  }

  /** At most max(MaxRetry, 1) inserts are issued for one record, and one sleep
      separates each pair of consecutive attempts. */
  lemma AttemptsBounded(cfg: Config, data: string, db: nat -> Outcome)
    ensures var r := InsertWithRetry(cfg, data, db);
      && 1 <= |r.issued| <= Budget(cfg.maxRetry)
      && r.sleeps == |r.issued| - 1
  {
    InsertWithRetryMeetsExpected(cfg, data, db);
  }

  /** A record aborts the run exactly when every attempt of its budget fails, and
      then after exactly that many attempts and no further one. */
  lemma FatalIffExhausted(cfg: Config, data: string, db: nat -> Outcome)
    ensures var r := InsertWithRetry(cfg, data, db);
      && (r.Fatal? <==> Exhausted(cfg.maxRetry, db))
      && (r.Fatal? ==> |r.issued| == Budget(cfg.maxRetry) && r.sleeps == Budget(cfg.maxRetry) - 1)
  {
    InsertWithRetryMeetsExpected(cfg, data, db);
    var search := FirstWhere(Succeeds(db), 1, Budget(cfg.maxRetry) + 1);
    if search.Some? {
      assert !Exhausted(cfg.maxRetry, db) by {
        assert db(search.value) == Succeeded;
      }
    } else {
      assert Exhausted(cfg.maxRetry, db) by {
        forall k: nat | 1 <= k <= Budget(cfg.maxRetry)
          ensures db(k) == Failed
        {
          assert !Succeeds(db)(k);
        }
      }
    }
  }

  /** K failures followed by a success within the budget: the record is inserted
      after K+1 attempts and K retry sleeps, with downtime logged iff K > 0. */
  lemma RecoversAfterFailures(cfg: Config, data: string, db: nat -> Outcome, failures: nat)
    requires failures < Budget(cfg.maxRetry)
    requires forall k: nat :: 1 <= k <= failures ==> db(k) == Failed
    requires db(failures + 1) == Succeeded
    ensures var r := InsertWithRetry(cfg, data, db);
      && r.Inserted?
      && |r.issued| == failures + 1
      && r.sleeps == failures
      && (r.downtimeSince.Some? <==> failures > 0)
  {
    InsertWithRetryMeetsExpected(cfg, data, db);
    assert Succeeds(db)(failures + 1);
    assert FirstWhere(Succeeds(db), 1, Budget(cfg.maxRetry) + 1) == Some(failures + 1);
  }

  /** Downtime is logged iff the successful attempt is not the first, and it is
      measured from the clock reading taken at the first failure, never from a
      later failure. A first-try success sleeps zero times. */
  lemma DowntimeFromFirstFailure(cfg: Config, data: string, db: nat -> Outcome)
    ensures var r := InsertWithRetry(cfg, data, db);
      r.Inserted? ==>
        && (r.downtimeSince.Some? <==> |r.issued| > 1)
        && (r.downtimeSince.Some? ==> r.downtimeSince.value == FailureOf(1))
        && (|r.issued| == 1 ==> r.sleeps == 0)
  {
    InsertWithRetryMeetsExpected(cfg, data, db);
  }

  /** Any MaxRetry of 1 or less behaves as MaxRetry = 1: the first failure is fatal. */
  lemma NonPositiveMaxRetryIsOne(cfg: Config, data: string, db: nat -> Outcome)
    requires cfg.maxRetry <= 1
    ensures InsertWithRetry(cfg, data, db) == InsertWithRetry(cfg.(maxRetry := 1), data, db)
    ensures db(1) == Failed ==> InsertWithRetry(cfg, data, db) == Fatal([Row(data, Idle)], 0)
  {
  }
}
