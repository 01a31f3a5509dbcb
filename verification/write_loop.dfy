/**
 The fixed-count write loop: writeData calls generateDummyData(db, 1) TestRun
 times, with one pacing sleep after each call that returns, and generateDummyData
 itself loops over n records. A record that exhausts its retries ends the process
 through log.Fatalf, so nothing after it is generated or attempted.

 Record number i of the run draws its payload from gen(i) and sees the database
 answers db(i)(k) for its attempt k.
 */
module WriteLoop {
  import opened Common
  import opened Configuration
  import opened Retry

  /** How the process leaves a loop: by running to its end, or by log.Fatalf. */
  datatype Exit = Normal | LogFatal

  /** The records handled by one generateDummyData call, in order. */
  datatype Batch = Batch(records: seq<Result>, exit: Exit)

  /** A whole write run: the number of generateDummyData calls made, the records
      handled, the pacing sleeps taken, and how the process ended. */
  datatype Run = Run(calls: nat, records: seq<Result>, pacingSleeps: nat, exit: Exit)

  /** generateDummyData(db, n) for the records numbered first, first+1, ... */
  function GenerateDummyData(cfg: Config, n: int, first: nat, gen: nat -> string, db: nat -> nat -> Outcome): (b: Batch)
    ensures |b.records| <= if n < 0 then 0 else n
    ensures b.exit == LogFatal <==> |b.records| > 0 && b.records[|b.records| - 1].Fatal?
    decreases n
  {
    if n <= 0 then Batch([], Normal)
    else
      var r := InsertWithRetry(cfg, gen(first), db(first));
      if r.Fatal? then Batch([r], LogFatal)
      else
        var rest := GenerateDummyData(cfg, n - 1, first + 1, gen, db);
        Batch([r] + rest.records, rest.exit)
  }

  /** The iterations i, i+1, ..., TestRun-1 of the loop in writeData. */
  function WriteFrom(cfg: Config, i: nat, gen: nat -> string, db: nat -> nat -> Outcome): (w: Run)
    ensures |w.records| == w.calls
    ensures w.calls <= if cfg.testRun < i then 0 else cfg.testRun - i
    ensures w.pacingSleeps == if w.exit == LogFatal then w.calls - 1 else w.calls
    ensures forall j :: 0 <= j < |w.records| ==> (w.records[j].Fatal? <==> w.exit == LogFatal && j == |w.records| - 1)
    decreases cfg.testRun - i
  {
    if cfg.testRun <= i then Run(0, [], 0, Normal)
    else
      var b := GenerateDummyData(cfg, 1, i, gen, db);
      if b.exit == LogFatal then Run(1, b.records, 0, LogFatal)
      else
        var rest := WriteFrom(cfg, i + 1, gen, db);
        Run(rest.calls + 1, b.records + rest.records, rest.pacingSleeps + 1, rest.exit)
  }

  /** writeData: at most max(TestRun, 0) calls, one record handled per call, one
      pacing sleep after every call that returns, and a fatal record only as the
      last one, when the process ends through log.Fatalf. */
  function WriteData(cfg: Config, gen: nat -> string, db: nat -> nat -> Outcome): (w: Run)
    ensures |w.records| == w.calls
    ensures w.calls <= if cfg.testRun < 0 then 0 else cfg.testRun
    ensures w.pacingSleeps == if w.exit == LogFatal then w.calls - 1 else w.calls
    ensures forall j :: 0 <= j < |w.records| ==> (w.records[j].Fatal? <==> w.exit == LogFatal && j == |w.records| - 1)
  {
    WriteFrom(cfg, 0, gen, db)
  }

  /** The condition "record i exhausts its retries", as a value for the search. */
  function ExhaustsAt(cfg: Config, db: nat -> nat -> Outcome): nat -> bool
  {
    (i: nat) => Exhausted(cfg.maxRetry, db(i))
  }

  /** What a record handled with payload gen(i) and answers db(i) ends in. */
  function RecordOf(cfg: Config, gen: nat -> string, db: nat -> nat -> Outcome, i: nat): Result
  {
    InsertWithRetry(cfg, gen(i), db(i))
  }

  /** Each record number first+j of the batch, j < count, is handled in order. */
  ghost predicate HandledInOrder(cfg: Config, gen: nat -> string, db: nat -> nat -> Outcome, records: seq<Result>, first: nat)
  {
    forall j :: 0 <= j < |records| ==> records[j] == RecordOf(cfg, gen, db, first + j)
  }

  /** generateDummyData handles its records in order, each exactly as the retry engine does. */
  lemma {:induction false} GenerateDummyDataInOrder(cfg: Config, n: int, first: nat, gen: nat -> string, db: nat -> nat -> Outcome)
    ensures HandledInOrder(cfg, gen, db, GenerateDummyData(cfg, n, first, gen, db).records, first)
    decreases n
  {
    var b := GenerateDummyData(cfg, n, first, gen, db);
    var r := RecordOf(cfg, gen, db, first);
    if n > 0 && !r.Fatal? {
      var rest := GenerateDummyData(cfg, n - 1, first + 1, gen, db);
      GenerateDummyDataInOrder(cfg, n - 1, first + 1, gen, db);
      assert b.records == [r] + rest.records;
      forall j | 0 <= j < |b.records|
        ensures b.records[j] == RecordOf(cfg, gen, db, first + j)
      {
        if j > 0 {
          assert b.records[j] == rest.records[j - 1];
        }
      }
    }
  }

  /** generateDummyData stops at the first record, among the n it is asked for,
      that exhausts its retries, and handles all n when none does. */
  lemma {:induction false} GenerateDummyDataStopsAtFirstExhausted(cfg: Config, n: int, first: nat, gen: nat -> string, db: nat -> nat -> Outcome)
    ensures var b := GenerateDummyData(cfg, n, first, gen, db);
      var search := FirstWhere(ExhaustsAt(cfg, db), first, first + n);
      && (search.None? ==> b.exit == Normal && |b.records| == (if n < 0 then 0 else n))
      && (search.Some? ==> b.exit == LogFatal && |b.records| == search.value - first + 1)
    decreases n
  {
    var p := ExhaustsAt(cfg, db);
    if n > 0 {
      var r := RecordOf(cfg, gen, db, first);
      FatalIffExhausted(cfg, gen(first), db(first));
      if r.Fatal? {
        assert p(first);
        assert FirstWhere(p, first, first + n) == Some(first);
      } else {
        assert !p(first);
        assert FirstWhere(p, first, first + n) == FirstWhere(p, first + 1, first + 1 + (n - 1));
        GenerateDummyDataStopsAtFirstExhausted(cfg, n - 1, first + 1, gen, db);
      }
    }
  }

  /** The call made by each iteration of writeData handles exactly one record. */
  lemma GenerateOneRecord(cfg: Config, i: nat, gen: nat -> string, db: nat -> nat -> Outcome)
    ensures var r := RecordOf(cfg, gen, db, i);
      GenerateDummyData(cfg, 1, i, gen, db) == Batch([r], if r.Fatal? then LogFatal else Normal)
  {
  }

  /** The iterations from i on handle the records numbered i, i+1, ... in order. */
  lemma {:induction false} WriteFromInOrder(cfg: Config, i: nat, gen: nat -> string, db: nat -> nat -> Outcome)
    ensures HandledInOrder(cfg, gen, db, WriteFrom(cfg, i, gen, db).records, i)
    decreases cfg.testRun - i
  {
    var w := WriteFrom(cfg, i, gen, db);
    if i < cfg.testRun {
      var r := RecordOf(cfg, gen, db, i);
      GenerateOneRecord(cfg, i, gen, db);
      if !r.Fatal? {
        var rest := WriteFrom(cfg, i + 1, gen, db);
        WriteFromInOrder(cfg, i + 1, gen, db);
        assert w.records == [r] + rest.records;
        forall j | 0 <= j < |w.records|
          ensures w.records[j] == RecordOf(cfg, gen, db, i + j)
        {
          if j > 0 {
            assert w.records[j] == rest.records[j - 1];
          }
        }
      }
    }
  }

  /** The iterations from i on stop right after the first record that exhausts its
      retries; until then each iteration makes one call and one pacing sleep. */
  lemma {:induction false} WriteFromStopsAtFirstExhausted(cfg: Config, i: nat, gen: nat -> string, db: nat -> nat -> Outcome)
    ensures var w := WriteFrom(cfg, i, gen, db);
      var search := FirstWhere(ExhaustsAt(cfg, db), i, cfg.testRun);
      var left := if cfg.testRun < i then 0 else cfg.testRun - i;
      && |w.records| == w.calls
      && (search.None? ==> w.exit == Normal && w.calls == left && w.pacingSleeps == left)
      && (search.Some? ==> w.exit == LogFatal && w.calls == search.value - i + 1 && w.pacingSleeps == search.value - i)
    decreases cfg.testRun - i
  {
    var p := ExhaustsAt(cfg, db);
    if i < cfg.testRun {
      var r := RecordOf(cfg, gen, db, i);
      GenerateOneRecord(cfg, i, gen, db);
      FatalIffExhausted(cfg, gen(i), db(i));
      if r.Fatal? {
        assert p(i);
        assert FirstWhere(p, i, cfg.testRun) == Some(i);
      } else {
        assert !p(i);
        assert FirstWhere(p, i, cfg.testRun) == FirstWhere(p, i + 1, cfg.testRun);
        WriteFromStopsAtFirstExhausted(cfg, i + 1, gen, db);
      }
    }
  }

  /** With no record exhausting its retries, writeData makes exactly max(TestRun, 0)
      calls, inserts that many records (record i with payload gen(i)) and takes one
      pacing sleep per call; TestRun <= 0 makes no call at all. */
  lemma WriteDataCompletes(cfg: Config, gen: nat -> string, db: nat -> nat -> Outcome)
    requires forall i: nat :: i < cfg.testRun ==> !Exhausted(cfg.maxRetry, db(i))
    ensures var w := WriteData(cfg, gen, db);
      var runs := if cfg.testRun < 0 then 0 else cfg.testRun;
      && w.exit == Normal
      && w.calls == runs && |w.records| == runs && w.pacingSleeps == runs
      && forall i :: 0 <= i < runs ==> w.records[i].Inserted? && w.records[i] == RecordOf(cfg, gen, db, i)
  {
    var w := WriteData(cfg, gen, db);
    assert FirstWhere(ExhaustsAt(cfg, db), 0, cfg.testRun).None?;
    WriteFromStopsAtFirstExhausted(cfg, 0, gen, db);
    WriteFromInOrder(cfg, 0, gen, db);
    forall i | 0 <= i < |w.records|
      ensures w.records[i].Inserted?
    {
      FatalIffExhausted(cfg, gen(i), db(i));
    }
  }

  /** When record f (0-based) is the first to exhaust its retries, the process ends
      with log.Fatalf after f inserted records, the failed one being record f, and
      no later record is generated or attempted. */
  lemma WriteDataAbortsAt(cfg: Config, gen: nat -> string, db: nat -> nat -> Outcome, f: nat)
    requires f < cfg.testRun
    requires Exhausted(cfg.maxRetry, db(f))
    requires forall i: nat :: i < f ==> !Exhausted(cfg.maxRetry, db(i))
    ensures var w := WriteData(cfg, gen, db);
      && w.exit == LogFatal
      && w.calls == f + 1 && |w.records| == f + 1 && w.pacingSleeps == f
      && (forall i :: 0 <= i < f ==> w.records[i].Inserted?)
      && w.records[f].Fatal?
      && forall i :: 0 <= i <= f ==> w.records[i] == RecordOf(cfg, gen, db, i)
  {
    var w := WriteData(cfg, gen, db);
    assert ExhaustsAt(cfg, db)(f);
    assert FirstWhere(ExhaustsAt(cfg, db), 0, cfg.testRun) == Some(f);
    WriteFromStopsAtFirstExhausted(cfg, 0, gen, db);
    WriteFromInOrder(cfg, 0, gen, db);
    forall i | 0 <= i <= f
      ensures w.records[i].Fatal? <==> i == f
    {
      FatalIffExhausted(cfg, gen(i), db(i));
    }
  }
}
