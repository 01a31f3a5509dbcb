/**
 The run parameters of the load generator. The connection string and the rate
 only feed I/O and the pacing sleep, so they are not carried here beyond `rps`.
 */
module Configuration {

  /** The integer fields of the configuration file; all are plain (possibly zero
      or negative) integers, because a missing key decodes to zero. */
  datatype Config = Config(testRun: int, rps: int, maxRetry: int, delayRetry: int)

  /** Number of insert attempts one record is granted. The attempt counter starts
      at 1 and a failure is fatal once the counter reaches MaxRetry, so a MaxRetry
      of 1 or less grants exactly one attempt. */
  function Budget(maxRetry: int): nat
  {
    if maxRetry < 1 then 1 else maxRetry
  }
}
