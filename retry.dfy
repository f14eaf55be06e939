/** `retryRequest`, the bounded retry wrapper that FeesInfo and
    MaintenanceInfo each define (the two copies are identical). Each call
    of the wrapped request is an element of `outcomes`; waiting and the
    randomised backoff delay are not modelled, only that a wait happens. */
module Retry {
  import opened Wrappers
  import opened JsValues

  /** What one call of the wrapped request did: it resolved with a value or
      rejected with an error whose `message` is given. */
  datatype Attempt<T> = Resolved(value: T) | Rejected(message: string)

  /** How `retryRequest` settles. `Threw(None)` is `throw undefined`: the
      loop never ran, so `lastError` was never assigned. */
  datatype RetryOutcome<T> = Returned(value: T) | Threw(error: Option<string>)

  /** The outcome together with the number of calls of the request and the
      number of waits performed. */
  datatype RetryRun<T> = RetryRun(outcome: RetryOutcome<T>, calls: nat, waits: nat)

  /** Default `maxRetries` of `retryRequest`. */
  const DefaultMaxRetries: nat := 3

  /** Authentication failures are rethrown without retry. */
  predicate IsAuthFailure(message: string) {
    Includes(message, "Session expired") || Includes(message, "No authentication token found")
  }

  /** Network failures and timeouts are the only ones retried. */
  predicate IsTransient(message: string) {
    Includes(message, "Unable to connect") || Includes(message, "timeout")
    || Includes(message, "Failed to fetch") || Includes(message, "No internet connection")
  }

  /** A call after which the loop waits and goes round again. The
      authentication test comes first, so it wins over a transient match. */
  predicate Retryable<T>(a: Attempt<T>) {
    a.Rejected? && !IsAuthFailure(a.message) && IsTransient(a.message)
  }

  /** Reference definition of `retryRequest`, one call at a time.
      `lastError` is the message of the previous failed call. */
  function Run<T>(outcomes: seq<Attempt<T>>, maxRetries: nat, lastError: Option<string>): RetryRun<T>
    requires maxRetries <= |outcomes|
    decreases maxRetries
  {
    if maxRetries == 0 then RetryRun(Threw(lastError), 0, 0)
    else match outcomes[0]
      case Resolved(v) => RetryRun(Returned(v), 1, 0)
      case Rejected(m) =>
        if IsAuthFailure(m) || !IsTransient(m) then RetryRun(Threw(Some(m)), 1, 0)
        else
          var rest := Run(outcomes[1..], maxRetries - 1, Some(m));
          RetryRun(rest.outcome, rest.calls + 1, rest.waits + 1)
  }

  /** `retryRequest(requestFn, maxRetries)`: the `for` loop of the source.
      Returns how it settled, how many times the request was called and how
      many waits happened. */
  method RetryRequest<T>(outcomes: seq<Attempt<T>>, maxRetries: nat)
    returns (result: RetryOutcome<T>, calls: nat, waits: nat)
    requires maxRetries <= |outcomes|
    ensures RetryRun(result, calls, waits) == Run(outcomes, maxRetries, None)
  {
    var lastError: Option<string> := None;
    calls, waits := 0, 0;
    for i := 0 to maxRetries
      invariant calls == i && waits == i
      invariant Run(outcomes, maxRetries, None) == Shifted(Run(outcomes[i..], maxRetries - i, lastError), i)
    {
      ghost var here := outcomes[i..];
      assert here[0] == outcomes[i] && here[1..] == outcomes[i + 1..];
      calls := calls + 1;
      if outcomes[i].Resolved? {
        result := Returned(outcomes[i].value);
        return;
      }
      var m := outcomes[i].message;
      lastError := Some(m);
      if IsAuthFailure(m) {
        result := Threw(lastError);
        return;
      }
      if !IsTransient(m) {
        result := Threw(lastError);
        return;
      }
      waits := waits + 1;
    }
    result := Threw(lastError);
  }

  /** A run preceded by `k` retried calls (each followed by a wait). */
  function Shifted<T>(run: RetryRun<T>, k: nat): RetryRun<T> {
    RetryRun(run.outcome, run.calls + k, run.waits + k)
  }

  /** What a run of `retryRequest` looks like: it calls the request at most
      `maxRetries` times; every call but the last was retried; it stops early
      only at a call that is not retried; it returns the last call's value or
      rethrows its error; and it waits once after every retried call,
      including a retried last call. */
  lemma {:induction false} RunShape<T>(outcomes: seq<Attempt<T>>, maxRetries: nat, lastError: Option<string>)
    requires maxRetries <= |outcomes|
    ensures var run := Run(outcomes, maxRetries, lastError);
      && run.calls <= maxRetries
      && (forall j :: 0 <= j < run.calls - 1 ==> Retryable(outcomes[j]))
      && (run.calls < maxRetries ==> run.calls > 0 && !Retryable(outcomes[run.calls - 1]))
      && (run.calls == 0 ==> run.outcome == Threw(lastError))
      && (run.calls > 0 ==> run.outcome == Settle(outcomes[run.calls - 1]))
      && run.waits == (if run.calls > 0 && !Retryable(outcomes[run.calls - 1]) then run.calls - 1 else run.calls)
    decreases maxRetries
  {
    if maxRetries > 0 && Retryable(outcomes[0]) {
      var tail := outcomes[1..];
      RunShape(tail, maxRetries - 1, Some(outcomes[0].message));
      var rest := Run(tail, maxRetries - 1, Some(outcomes[0].message));
      assert forall j :: 1 <= j < rest.calls + 1 ==> outcomes[j] == tail[j - 1];
      if rest.calls == 0 {
        assert maxRetries == 1;
      }
    }
  }

  /** The outcome of `retryRequest` when it stops at call `a`. */
  function Settle<T>(a: Attempt<T>): RetryOutcome<T> {
    match a
    case Resolved(v) => Returned(v)
    case Rejected(m) => Threw(Some(m))
  }

  /** The first successful result is returned unchanged, after exactly the
      calls up to it, provided every earlier call was retried. */
  lemma {:induction false} FirstSuccessReturned<T>(outcomes: seq<Attempt<T>>, maxRetries: nat, k: nat)
    requires k < maxRetries <= |outcomes|
    requires forall j :: 0 <= j < k ==> Retryable(outcomes[j])
    requires outcomes[k].Resolved?
    ensures Run(outcomes, maxRetries, None).outcome == Returned(outcomes[k].value)
    ensures Run(outcomes, maxRetries, None).calls == k + 1
  {
    RunShape(outcomes, maxRetries, None);
    assert !Retryable(outcomes[k]);
  }

  /** An authentication message stops the loop after that single call, even
      when it also contains a transient substring. */
  lemma AuthFailureStopsAtOnce<T>(outcomes: seq<Attempt<T>>, maxRetries: nat)
    requires 0 < maxRetries <= |outcomes|
    requires outcomes[0].Rejected? && IsAuthFailure(outcomes[0].message)
    ensures Run(outcomes, maxRetries, None) == RetryRun(Threw(Some(outcomes[0].message)), 1, 0)
  {
  }

  /** A message with none of the transient substrings is rethrown after
      that single call, without waiting. */
  lemma NonTransientStopsAtOnce<T>(outcomes: seq<Attempt<T>>, maxRetries: nat)
    requires 0 < maxRetries <= |outcomes|
    requires outcomes[0].Rejected? && !IsTransient(outcomes[0].message)
    ensures Run(outcomes, maxRetries, None) == RetryRun(Threw(Some(outcomes[0].message)), 1, 0)
  {
  }

  /** When every call fails transiently, the request is called exactly
      `maxRetries` times, a wait follows every call (the last one too), and
      the error of the last call is thrown. */
  lemma {:induction false} ExhaustedThrowsLastError<T>(outcomes: seq<Attempt<T>>, maxRetries: nat)
    requires 0 < maxRetries <= |outcomes|
    requires forall j :: 0 <= j < maxRetries ==> Retryable(outcomes[j])
    ensures outcomes[maxRetries - 1].Rejected?
    ensures Run(outcomes, maxRetries, None)
      == RetryRun(Threw(Some(outcomes[maxRetries - 1].message)), maxRetries, maxRetries)
  {
    RunShape(outcomes, maxRetries, None);
  }

  /** With `maxRetries` 0 the request is never called and `undefined` is thrown. */
  lemma NoRetriesThrowsUndefined<T>(outcomes: seq<Attempt<T>>)
    ensures Run(outcomes, 0, None) == RetryRun(Threw(None), 0, 0)
  {
  }

  /** The messages thrown by the fetchers that FeesInfo wraps in
      `retryRequest`: the two authentication messages are never retried. */
  lemma AuthMessagesNotRetried()
    ensures IsAuthFailure("Session expired. Please login again.")
    ensures IsAuthFailure("No authentication token found. Please login again.")
  {
    assert OccursAt("Session expired. Please login again.", "Session expired", 0);
    assert OccursAt("No authentication token found. Please login again.", "No authentication token found", 0);
  }

  /** The connectivity and timeout messages of the same fetchers are
      retried. */
  lemma TransientMessagesRetried()
    ensures IsTransient("No internet connection. Please check your network.")
    ensures IsTransient("Request timeout")
  {
    assert OccursAt("No internet connection. Please check your network.", "No internet connection", 0);
    assert OccursAt("Request timeout", "timeout", 8);
  }

  /** Message that the fee fetchers throw when their request is aborted. */
  const SlowServerMessage := "Request timed out. Server is responding slowly."

  /** `includes` is case-sensitive and "timed out" is not "timeout", so the
      aborted-request message of the fee fetchers is not transient: it is
      rethrown after one call, without a wait. */
  lemma SlowServerMessageNotRetried<T>(outcomes: seq<Attempt<T>>, maxRetries: nat)
    requires 0 < maxRetries <= |outcomes| && outcomes[0] == Rejected(SlowServerMessage)
    ensures !IsTransient(SlowServerMessage)
    ensures Run(outcomes, maxRetries, None) == RetryRun(Threw(Some(SlowServerMessage)), 1, 0)
  {
    var s := SlowServerMessage;
    NoPatternInSlowServerMessage();
    MissingCharExcludes(s, "Unable to connect", 'U');
    MissingCharExcludes(s, "Failed to fetch", 'F');
    MissingCharExcludes(s, "No internet connection", 'N');
    NonTransientStopsAtOnce(outcomes, maxRetries);
  }

  /** `s` holds no "timeout" and none of the initials of the other three
      transient substrings. */
  predicate NoPatternStart(s: string) {
    !Includes(s, "timeout") && 'U' !in s && 'F' !in s && 'N' !in s
  }

  /** Joining two texts with a space keeps `NoPatternStart`, as a space is
      not a character of "timeout". */
  lemma JoinWords(left: string, right: string)
    requires NoPatternStart(left) && NoPatternStart(right)
    ensures NoPatternStart(left + [' '] + right)
  {
    SplitExcludes(left, ' ', right, "timeout");
  }

  /** The message as its words joined by spaces, one word at a time. */
  lemma SlowServerMessageWords()
    ensures "Request timed" == "Request" + [' '] + "timed"
    ensures "Request timed out." == "Request timed" + [' '] + "out."
    ensures "Request timed out. Server" == "Request timed out." + [' '] + "Server"
    ensures "Request timed out. Server is" == "Request timed out. Server" + [' '] + "is"
    ensures "Request timed out. Server is responding" == "Request timed out. Server is" + [' '] + "responding"
    ensures SlowServerMessage == "Request timed out. Server is responding" + [' '] + "slowly."
  {
  }

  /** No word of the message holds a transient substring or the start of
      one, so neither does the message: it is built up one word at a time,
      each prefix ending at a word. */
  lemma NoPatternInSlowServerMessage()
    ensures NoPatternStart(SlowServerMessage)
  {
    NoPatternUpToResponding();
    SlowServerMessageWords();
    MissingCharExcludes("slowly.", "timeout", 'i');
    JoinWords("Request timed out. Server is responding", "slowly.");
  }

  lemma NoPatternUpToResponding()
    ensures NoPatternStart("Request timed out. Server is responding")
  {
    NoPatternUpToIs();
    SlowServerMessageWords();
    MissingCharExcludes("responding", "timeout", 't');
    JoinWords("Request timed out. Server is", "responding");
  }

  lemma NoPatternUpToIs()
    ensures NoPatternStart("Request timed out. Server is")
  {
    NoPatternUpToServer();
    SlowServerMessageWords();
    MissingCharExcludes("is", "timeout", 't');
    JoinWords("Request timed out. Server", "is");
  }

  lemma NoPatternUpToServer()
    ensures NoPatternStart("Request timed out. Server")
  {
    NoPatternUpToOut();
    SlowServerMessageWords();
    MissingCharExcludes("Server", "timeout", 'i');
    JoinWords("Request timed out.", "Server");
  }

  lemma NoPatternUpToOut()
    ensures NoPatternStart("Request timed out.")
  {
    NoPatternUpToTimed();
    SlowServerMessageWords();
    MissingCharExcludes("out.", "timeout", 'i');
    JoinWords("Request timed", "out.");
  }

  lemma NoPatternUpToTimed()
    ensures NoPatternStart("Request timed")
  {
    MissingCharExcludes("Request", "timeout", 'i');
    SlowServerMessageWords();
    MissingCharExcludes("timed", "timeout", 'o');
    JoinWords("Request", "timed");
  }
}
