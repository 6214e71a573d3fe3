/** `fetchWithRetry(url, options, maxRetries = 3)` of background/background.js.
    The network is a parameter: `attempts[i]` is what the (i+1)-th `fetch`
    call does. Waiting is not performed but recorded: `delays` lists, in
    order, the milliseconds each `setTimeout` was asked to wait. */
module BackgroundRetry {
  import opened Wrappers

  /** The `Retry-After` header of a 429 answer, as `headers.get` reads it. */
  datatype RetryAfter =
    | NoHeader                 // `get` returns null
    | EmptyHeader              // the empty string, which is falsy too
    | Seconds(seconds: nat)    // a decimal number of seconds
    | NotANumber               // anything else: `retryAfter * 1000` is NaN

  /** One `fetch` call: it throws, or it resolves to a response. */
  datatype Attempt = Threw(error: string) | Responded(status: nat, retryAfter: RetryAfter)

  /** The loop returns the response of call `attempt` (0-based), or throws
      `lastError` (`undefined` when no call threw). */
  datatype RetryResult = Returned(attempt: nat, status: nat) | Raised(lastError: Option<string>)

  const TOO_MANY_REQUESTS := 429
  const DEFAULT_RETRY_AFTER := 5
  /** The number of calls `fetchWithRetry` makes when its caller gives none. */
  const DEFAULT_MAX_RETRIES := 3

  /** The wait after a 429: `(header || 5) * 1000`; a NaN delay makes
      `setTimeout` wait 0 ms. */
  function RateLimitDelay(h: RetryAfter): (ms: nat)
    ensures ms % 1000 == 0
    ensures h.NoHeader? || h.EmptyHeader? ==> ms == DEFAULT_RETRY_AFTER * 1000
    ensures h.Seconds? ==> ms == h.seconds * 1000
    ensures ms == 0 <==> h.NotANumber? || h == Seconds(0)
  {
    match h
    case NoHeader => DEFAULT_RETRY_AFTER * 1000
    case EmptyHeader => DEFAULT_RETRY_AFTER * 1000
    case Seconds(n) => n * 1000
    case NotANumber => 0
  }

  function Pow2(n: nat): (p: nat)
    ensures p >= 1
  {
    if n == 0 then 1 else 2 * Pow2(n - 1)
  }

  /** The wait after a thrown error on call `attempt`: `2^attempt * 1000`. */
  function BackoffDelay(attempt: nat): (ms: nat)
    ensures ms >= 1000 && ms % 1000 == 0
  {
    Pow2(attempt) * 1000
  }

  /** The call is retried: it threw, or it was answered with 429. */
  predicate Retried(a: Attempt) {
    a.Threw? || a.status == TOO_MANY_REQUESTS
  }

  /** The waits that call `i` of `maxRetries` causes: the Retry-After time
      after a 429 (also after the last call), the backoff after an error
      except after the last call, nothing after any other response. */
  function WaitAfter(a: Attempt, i: nat, maxRetries: int): seq<nat> {
    match a
    case Responded(status, h) => if status == TOO_MANY_REQUESTS then [RateLimitDelay(h)] else []
    case Threw(_) => if i < maxRetries - 1 then [BackoffDelay(i)] else []
  }

  /** The waits caused by the calls `attempts`, in order. */
  function Waits(attempts: seq<Attempt>, maxRetries: int): (w: seq<nat>)
    ensures |w| <= |attempts|
  {
    if attempts == [] then []
    else
      var n := |attempts| - 1;
      Waits(attempts[..n], maxRetries) + WaitAfter(attempts[n], n, maxRetries)
  }

  /** The error of the latest call in `attempts` that threw, if any. */
  function LastThrown(attempts: seq<Attempt>): Option<string>
  {
    if attempts == [] then None
    else if attempts[|attempts| - 1].Threw? then Some(attempts[|attempts| - 1].error)
    else LastThrown(attempts[..|attempts| - 1])
  }

  /** LastThrown is absent exactly when no call threw. */
  lemma {:induction false} LastThrownNone(attempts: seq<Attempt>)
    ensures LastThrown(attempts).None? <==> forall j :: 0 <= j < |attempts| ==> !attempts[j].Threw?
  {
    if attempts != [] {
      var n := |attempts| - 1;
      LastThrownNone(attempts[..n]);
      assert forall j :: 0 <= j < n ==> attempts[..n][j] == attempts[j];
    }
  }

  /** When present, LastThrown is the error of a call that threw, and no
      later call threw. */
  lemma {:induction false} LastThrownLatest(attempts: seq<Attempt>)
    requires LastThrown(attempts).Some?
    ensures exists j :: (0 <= j < |attempts| && attempts[j] == Threw(LastThrown(attempts).value)
      && forall k :: j < k < |attempts| ==> !attempts[k].Threw?)
  {
    var n := |attempts| - 1;
    var e := LastThrown(attempts).value;
    if attempts[n].Threw? {
      assert attempts[n] == Threw(e);
    } else {
      var prefix := attempts[..n];
      LastThrownLatest(prefix);
      var j :| 0 <= j < n && prefix[j] == Threw(e)
        && forall k :: j < k < n ==> !prefix[k].Threw?;
      assert attempts[j] == Threw(e);
      assert forall k :: j < k < n ==> attempts[k] == prefix[k];
    }
  }

  /** The waits `1000, 2000, 4000, ...` of `n` successive errors. */
  function BackoffSchedule(n: nat): (w: seq<nat>)
    ensures |w| == n && forall i :: 0 <= i < n ==> w[i] == BackoffDelay(i)
    ensures n > 0 ==> w[0] == 1000
    ensures forall i :: 0 < i < n ==> w[i] == 2 * w[i - 1]
  {
    if n == 0 then [] else BackoffSchedule(n - 1) + [BackoffDelay(n - 1)]
  }

  /** The retry loop. It makes at most `maxRetries` calls, returns the first
      response that is not a 429, and otherwise throws the last error seen. */
  method FetchWithRetry(attempts: seq<Attempt>, maxRetries: int) returns (r: RetryResult, delays: seq<nat>, calls: nat)
    requires maxRetries <= |attempts|
    ensures calls <= if maxRetries < 0 then 0 else maxRetries
    ensures r.Returned? ==>
      && calls >= 1 && r.attempt == calls - 1
      && attempts[calls - 1].Responded? && !Retried(attempts[calls - 1])
      && r.status == attempts[calls - 1].status
      && forall j :: 0 <= j < calls - 1 ==> Retried(attempts[j])
    ensures r.Raised? ==>
      && calls == (if maxRetries < 0 then 0 else maxRetries)
      && (forall j :: 0 <= j < calls ==> Retried(attempts[j]))
      && r.lastError == LastThrown(attempts[..calls])
    ensures delays == Waits(attempts[..calls], maxRetries)
  {
    var lastError: Option<string> := None;
    var attempt: nat := 0;
    delays := [];
    while attempt < maxRetries
      invariant attempt <= if maxRetries < 0 then 0 else maxRetries
      invariant forall j :: 0 <= j < attempt ==> Retried(attempts[j])
      invariant lastError == LastThrown(attempts[..attempt])
      invariant delays == Waits(attempts[..attempt], maxRetries)
    {
      var a := attempts[attempt];
      assert attempts[..attempt + 1][..attempt] == attempts[..attempt];
      assert attempts[..attempt + 1][attempt] == a;
      if a.Responded? && a.status != TOO_MANY_REQUESTS {
        return Returned(attempt, a.status), delays, attempt + 1;
      }
      if a.Responded? {
        delays := delays + [RateLimitDelay(a.retryAfter)];
      } else {
        lastError := Some(a.error);
        if attempt < maxRetries - 1 {
          delays := delays + [BackoffDelay(attempt)];
        }
      }
      attempt := attempt + 1;
    }
    return Raised(lastError), delays, attempt;
  }

  /** When every call throws, the waits are the backoff schedule
      1 s, 2 s, 4 s, ..., with no wait after the last permitted call. */
  lemma {:induction false} ThrownWaits(attempts: seq<Attempt>, maxRetries: int)
    requires |attempts| <= maxRetries
    requires forall j :: 0 <= j < |attempts| ==> attempts[j].Threw?
    ensures Waits(attempts, maxRetries) ==
      BackoffSchedule(if 0 < |attempts| == maxRetries then |attempts| - 1 else |attempts|)
  {
    if attempts != [] {
      var n := |attempts| - 1;
      ThrownWaits(attempts[..n], maxRetries);
      assert attempts[n].Threw?;
    }
  }

  /** When every call is answered with 429, every call waits its Retry-After
      time, the last one included, and nothing is left to throw but
      `undefined`. */
  lemma {:induction false} RateLimitedWaits(attempts: seq<Attempt>, maxRetries: int)
    requires forall j :: 0 <= j < |attempts| ==> attempts[j].Responded? && attempts[j].status == TOO_MANY_REQUESTS
    ensures |Waits(attempts, maxRetries)| == |attempts|
    ensures forall i :: 0 <= i < |attempts| ==> Waits(attempts, maxRetries)[i] == RateLimitDelay(attempts[i].retryAfter)
    ensures LastThrown(attempts) == None
  {
    if attempts != [] {
      var n := |attempts| - 1;
      RateLimitedWaits(attempts[..n], maxRetries);
      assert forall i :: 0 <= i < n ==> attempts[..n][i] == attempts[i];
    }
  }
}
