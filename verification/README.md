# busy-rds write core, modelled in Dafny

busy-rds is a small load generator for a Postgres database. It reads its run
parameters from `config.json`. It creates a `busy` table if needed and then
inserts `TestRun` rows, one at a time. Each row is a faker-generated e-mail
address with the status `"idle"`. A failed insert is retried with the same row,
with a fixed `DelayRetry` sleep between attempts. This goes on until the insert
succeeds or the attempt counter reaches `MaxRetry`. At that point `log.Fatalf`
ends the whole process. When a row succeeds after at least one failure, the
downtime since its first failure is logged.

This project models that write core as pure functions:

- `configuration.dfy` (`Configuration`): the integer fields of `Config`. It also
  defines `Budget`, the number of attempts one record gets, which is
  `max(MaxRetry, 1)`.
- `retry.dfy` (`Retry`): the retry state machine of `generateDummyData`.
  - `Step` is one pass through the body of its `for {}` loop.
  - `Drive` runs that loop to its end.
  - `InsertWithRetry` handles one generated payload.
  - `Expected` is an independent closed-form reference. It is read off the
    database's answers alone. `InsertWithRetryMeetsExpected` proves that the
    engine always ends exactly as `Expected` says, and the other lemmas follow
    from it.
- `write_loop.dfy` (`WriteLoop`): the `for i := 0; i < n; i++` loop of
  `generateDummyData` and the `TestRun` loop of `writeData`, as recursive folds.
  Both stop at the first record that exhausts its retries.
- `common.dfy` (`Common`): `Option` and `FirstWhere`. `FirstWhere` finds the
  least index in a range that satisfies a condition. Both references are stated
  with it.

The database is an oracle. Record `i` of a run sees the answers `db(i)(k)`, where
`k` is the 1-based number of the attempt. Its payload is `gen(i)`, which stands
for `faker.Email()`. Clock readings are abstracted to the attempt during which
they were taken. `Stamp.FailureOf(1)` is the reading taken at the first failure,
and `BeforeLoop` is the one taken before the loop. Sleeps are counted, not
timed. Dafny's integers are unbounded, and this is faithful here. The counter
`retryCount` never exceeds `max(MaxRetry, 1)`, so Go's `int` cannot wrap, whatever its width.

Nothing in the code enforces `MaxRetry >= 1` (a missing `max_retry` key decodes
to 0), so the model accepts any integer. A `MaxRetry` of 0 or less behaves
exactly like 1: the first failure is fatal (`NonPositiveMaxRetryIsOne`).

## Model

| member | source | states |
|---|---|---|
| Retry.Step | main.go:137-158 | one attempt issues exactly one insert of (payload, "idle"); a failure retries iff the counter is below MaxRetry, and the counter then rises by exactly 1 with one DelayRetry sleep; the first-failure stamp is taken only when the counter is 1 and is left alone by later failures; a success ends the loop with downtime logged iff the counter exceeds 1, measured from the stored stamp |
| Retry.Drive | main.go:137-159 | running the loop from any state keeps the inserts already issued and adds at least one more, every added insert carrying the same payload and "idle" |
| Retry.InsertWithRetry | main.go:134-138 | every insert issued for a record uses the single payload generated before the loop and the status "idle", with no fresh payload on retry |
| Retry.DriveMeetsExpected | main.go:135-158 | from the state after j non-fatal failures, the loop ends exactly as the reference outcome computed from the first successful attempt within the budget |
| Retry.InsertWithRetryMeetsExpected | main.go:132-159 | handling one record always ends as the closed-form reference: inserted at the first successful attempt f within max(MaxRetry,1) attempts, after f-1 sleeps, downtime measured from the first failure iff f > 1; otherwise fatal after max(MaxRetry,1) attempts |
| Retry.AttemptsBounded | main.go:135-149 | between 1 and max(MaxRetry,1) inserts are issued per record, with exactly one retry sleep fewer than inserts |
| Retry.FatalIffExhausted | main.go:139-145 | a record aborts the process iff every attempt of its budget fails, and then after exactly max(MaxRetry,1) attempts, with no further attempt |
| Retry.RecoversAfterFailures | main.go:137-158 | K failures (K < max(MaxRetry,1)) then a success give an insert after exactly K+1 attempts and K sleeps, with downtime logged iff K > 0 |
| Retry.DowntimeFromFirstFailure | main.go:136-155 | on success downtime is logged iff the successful attempt is not the first; it is measured from the stamp of the first failure, not of a later one; a first-try success sleeps zero times |
| Retry.NonPositiveMaxRetryIsOne | main.go:143-145 | any MaxRetry <= 1 behaves exactly as MaxRetry = 1, and a failing first attempt is then fatal after that one attempt |
| WriteLoop.GenerateDummyData | main.go:129-162 | generateDummyData(db, n) handles at most max(n,0) records and ends the process iff its last handled record is fatal |
| WriteLoop.GenerateDummyDataInOrder | main.go:132-134 | the k-th record of a call is handled with payload and answers of record first+k, exactly as the retry engine does |
| WriteLoop.GenerateDummyDataStopsAtFirstExhausted | main.go:132-145 | a call handles all max(n,0) records when none exhausts its retries, and otherwise stops right after the first that does |
| WriteLoop.WriteData | main.go:79-91 | writeData makes at most max(TestRun,0) calls, each handling one record, with one pacing sleep after every call that returns; a fatal record can only be the last one handled, and then the process ends through log.Fatalf |
| WriteLoop.WriteFrom | main.go:83-87 | the iterations from i on make at most max(TestRun-i,0) calls, one record per call, one pacing sleep per call that returns, and stop right after a fatal record |
| WriteLoop.GenerateOneRecord | main.go:84 | the call writeData makes, with n = 1, handles exactly one record and ends the process iff that record is fatal |
| WriteLoop.WriteFromInOrder | main.go:83-87 | the iterations from i on handle records i, i+1, ... in loop order |
| WriteLoop.WriteFromStopsAtFirstExhausted | main.go:83-87 | from iteration i on, one call and one pacing sleep per iteration until TestRun, or until the first record that exhausts its retries, after which nothing more is called |
| WriteLoop.WriteDataCompletes | main.go:83-87 | with no record exhausting its retries, writeData makes exactly max(TestRun,0) calls with one pacing sleep each and inserts exactly max(TestRun,0) records, record i with payload gen(i); TestRun <= 0 makes no call |
| WriteLoop.WriteDataAbortsAt | main.go:83-87 | if record f is the first to exhaust its retries, exactly f records were inserted before it, the process ends by log.Fatalf on record f, and no later record is generated or attempted |

## Left out

- Reading the configuration (`loadConfig`, main.go:54-70), opening and pinging the connection (`init`, main.go:32-52): file and network I/O and JSON decoding. The configuration enters the model as the `Config` value.
- `createDatabase` and `createTableIfNotExists` (main.go:93-127): SQL sent to the Postgres catalog, with no logic beyond "query, then create if missing".
- `readBusyTable` and `BusyRow` (main.go:164-191): reading back and printing a row.
- `faker.Email()`: an external generator. It is the parameter `gen`, and the model says nothing about its values.
- The pacing delay `1000 / float64(RPS)` and its conversion to a `time.Duration` (main.go:40, main.go:85): floating point, and RPS = 0 gives +Inf. Each iteration that returns is modelled as one opaque pacing sleep, so `rps` is carried but unused.
- Retry.Step: the length of a retry sleep (`DelayRetry` seconds, main.go:149) is not modelled. Only the number of sleeps is. So `delayRetry` is carried but unused, and the overflow of `time.Duration(DelayRetry) * time.Second` is not modelled.
- Retry.DowntimeFromFirstFailure: the downtime in milliseconds and all wall-clock times are not modelled. Only whether downtime is logged, and from which stamp it is measured.
- Log output, the start/end time and the duration printed by `writeData` (main.go:80-82, 88-90).
