/** `downloadWithRetry` of `src/core/dl/manager.go`: up to three attempts, doubling pauses, every
    result validated, permanent errors not retried. */
module DownloadRetry {

  const MAX_RETRIES := 3
  const BASE_DELAY := 1  // seconds

  datatype Outcome = Ok(path: string) | Err(error: string)

  /** What one provider attempt and the check of its file come to. */
  datatype Attempt =
    | Fetched(path: string)                   // downloaded and validated
    | Broken(path: string, error: string)     // downloaded, but failed validation
    | Failed(error: string, retryable: bool)

  predicate IsRemote(path: string) {
    "http://" <= path || "https://" <= path
  }

  /** Whether a failed attempt is worth another. */
  predicate Retries(a: Attempt) {
    a.Broken? || (a.Failed? && a.retryable)
  }

  function Exhausted(error: string): string {
    "download failed after 3 attempts: " + error
  }

  /** The outcome an attempt decides if it is the last one made. */
  function Decide(a: Attempt): Outcome {
    match a
    case Fetched(path) => Ok(path)
    case Broken(_, error) => Err(Exhausted(error))
    case Failed(error, retryable) => Err(if retryable then Exhausted(error) else error)
  }

  /** Whether attempt number `n` ends the loop. */
  predicate Final(n: nat, a: Attempt) {
    n >= MAX_RETRIES || !Retries(a)
  }

  /** Local files that failed validation. */
  function Rejected(attempts: seq<Attempt>): seq<string> {
    if attempts == [] then []
    else
      var a := attempts[|attempts| - 1];
      Rejected(attempts[..|attempts| - 1]) + if a.Broken? && !IsRemote(a.path) then [a.path] else []
  }

  /** Those are the files of the broken attempts that are not remote URLs. */
  lemma {:induction false} RejectedFiles(attempts: seq<Attempt>, path: string)
    ensures path in Rejected(attempts) <==>
            exists k :: 0 <= k < |attempts| && attempts[k].Broken? && attempts[k].path == path
                        && !("http://" <= path) && !("https://" <= path)
  {
    if attempts != [] {
      var n := |attempts| - 1;
      RejectedFiles(attempts[..n], path);
      assert forall k :: 0 <= k < n ==> attempts[..n][k] == attempts[k];
    }
  }

  function Pow2(n: nat): nat {
    if n == 0 then 1 else 2 * Pow2(n - 1)
  }

  /** `oracle[k]` is what attempt `k + 1` comes to if it is made.  It stops at the first attempt that
      succeeds or fails for good, and at the third in any case. */
  method DownloadWithRetry(oracle: seq<Attempt>)
    returns (result: Outcome, made: nat, slept: nat, removed: seq<string>)
    requires |oracle| >= MAX_RETRIES
    ensures 1 <= made <= 3
    ensures forall k :: 0 <= k < made - 1 ==> oracle[k].Broken? || (oracle[k].Failed? && oracle[k].retryable)
    ensures made < 3 ==> oracle[made - 1].Fetched? || (oracle[made - 1].Failed? && !oracle[made - 1].retryable)
    ensures result == match oracle[made - 1]
                      case Fetched(path) => Ok(path)
                      case Failed(error, false) => Err(error)
                      case Failed(error, true) => Err("download failed after 3 attempts: " + error)
                      case Broken(_, error) => Err("download failed after 3 attempts: " + error)
    ensures result.Ok? <==> exists k :: 0 <= k < made && oracle[k].Fetched?
    ensures slept == if made == 1 then 0 else if made == 2 then 1 else 3
    ensures removed == Rejected(oracle[..made])
  {
    var lastErr := "";
    var delay := BASE_DELAY;
    made, slept, removed := 0, 0, [];
    while made < MAX_RETRIES
      invariant made <= MAX_RETRIES
      invariant forall k :: 0 <= k < made ==> Retries(oracle[k])
      invariant made > 0 ==> Err(Exhausted(lastErr)) == Decide(oracle[made - 1])
      invariant delay == BASE_DELAY * Pow2(if made < MAX_RETRIES then made else made - 1)
      invariant slept == delay - BASE_DELAY
      invariant removed == Rejected(oracle[..made])
    {
      var a := oracle[made];
      assert oracle[..made + 1][..made] == oracle[..made];
      made := made + 1;
      match a {
        case Fetched(path) =>
          return Ok(path), made, slept, removed;
        case Broken(path, error) =>
          if !IsRemote(path) {
            removed := removed + [path];
          }
          lastErr := error;
        case Failed(error, retryable) =>
          lastErr := error;
          if !retryable {
            return Err(error), made, slept, removed;
          }
      }
      if made < MAX_RETRIES {
        slept := slept + delay;
        delay := delay * 2;
      }
    }
    return Err(Exhausted(lastErr)), made, slept, removed;
  }
}
