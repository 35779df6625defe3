/** Retrying a rate-limited RPC call with exponential backoff (integration/ethereum/utils.ts). */
module Retry {
  import opened Common

  /** A thrown value: only Error objects are inspected for a rate-limit message. */
  datatype Failure = Failure(isError: bool, message: string) | Unreachable

  /** What one call of the wrapped function does. */
  datatype Attempt<+T> = Returns(value: T) | Throws(failure: Failure)

  predicate Includes(s: string, part: string) {
    exists i | 0 <= i <= |s| - |part| :: OccursAt(s, part, i)
  }

  predicate OccursAt(s: string, part: string, i: nat) {
    i + |part| <= |s| && s[i..i + |part|] == part
  }

  predicate IsRateLimit(f: Failure) {
    f.Failure? && f.isError &&
    (Includes(f.message, "429") || Includes(f.message, "Too Many Requests") || Includes(f.message, "-32005"))
  }

  lemma IncludesIff(s: string, part: string)
    ensures Includes(s, part) <==> exists before, after :: s == before + part + after
  {
    if Includes(s, part) {
      var i :| 0 <= i <= |s| - |part| && OccursAt(s, part, i);
      assert s == s[..i] + part + s[i + |part|..];
    }
    if before, after :| s == before + part + after {
      assert OccursAt(s, part, |before|);
    }
  }

  /** A rate limit is an Error whose message has one of three texts in it, and nothing else is. */
  lemma RateLimitIff(f: Failure)
    ensures IsRateLimit(f) <==>
            f.Failure? && f.isError &&
            exists before, part, after :: part in {"429", "Too Many Requests", "-32005"} &&
                                          f.message == before + part + after
  {
    if f.Failure? {
      hide Includes;
      IncludesIff(f.message, "429");
      IncludesIff(f.message, "Too Many Requests");
      IncludesIff(f.message, "-32005");
    }
  }

  /**
   * The outcome r of `calls` calls: every call but the last was rate-limited; the last one returned, threw
   * something else, or used up the retries. Without any retry the function is not called at all.
   */
  ghost predicate IsRetried<T>(fn: nat -> Attempt<T>, retries: int, r: Result<T, Failure>, calls: nat) {
    && (retries <= 0 ==> calls == 0 && r == Err(Unreachable))
    && (retries > 0 ==>
          && 1 <= calls <= retries
          && (forall k :: 0 <= k < calls - 1 ==> fn(k).Throws? && IsRateLimit(fn(k).failure))
          && match fn(calls - 1)
             case Returns(v) => r == Ok(v)
             case Throws(f) => r == Err(f) && (!IsRateLimit(f) || calls == retries))
  }

  /** attempt k of the function is the k-th element of its behaviour; slept counts milliseconds. */
  method WithRetry<T>(fn: nat -> Attempt<T>, retries: int, delayMs: nat)
    returns (r: Result<T, Failure>, calls: nat, slept: nat)
    ensures IsRetried(fn, retries, r, calls)
    ensures slept == if calls == 0 then 0 else delayMs * (Pow2(calls - 1) - 1)
  {
    calls, slept := 0, 0;
    var attempt := 0;
    while attempt < retries
      invariant 0 <= attempt && calls == attempt
      invariant retries > 0 ==> attempt < retries
      invariant retries <= 0 ==> attempt == 0
      invariant forall k :: 0 <= k < attempt ==> fn(k).Throws? && IsRateLimit(fn(k).failure)
      invariant slept == delayMs * (Pow2(attempt) - 1)
      decreases retries - attempt
    {
      calls := calls + 1;
      match fn(attempt) {
        case Returns(v) => return Ok(v), calls, slept;
        case Throws(f) =>
          if !IsRateLimit(f) || attempt == retries - 1 {
            return Err(f), calls, slept;
          }
      }
      slept := slept + delayMs * Pow2(attempt);
      attempt := attempt + 1;
    }
    r := Err(Unreachable);
  }

  /**
   * A retried call is determined by the behaviour it wraps; a positive number of retries never ends in
   * the final throw unless the wrapped function itself threw that; and more retries cannot turn a
   * returned value or an ordinary error into something else.
   */
  lemma RetriedIsDetermined<T>(fn: nat -> Attempt<T>, retries: int, more: int,
                               r: Result<T, Failure>, calls: nat, r2: Result<T, Failure>, calls2: nat)
    requires IsRetried(fn, retries, r, calls) && IsRetried(fn, more, r2, calls2)
    requires 0 < retries <= more
    ensures calls <= calls2
    ensures r.Ok? || !IsRateLimit(r.error) ==> r2 == r && calls2 == calls
    ensures retries == more ==> r2 == r && calls2 == calls
    ensures r == Err(Unreachable) ==> fn(calls - 1) == Throws(Unreachable)
  {
    if calls < calls2 {
      assert fn(calls - 1).Throws? && IsRateLimit(fn(calls - 1).failure);
    }
  }
}
