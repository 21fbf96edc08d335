/**
 * The request to the language model with retries: each attempt either
 * yields the parsed answer or fails with an error message; a failure is
 * retried, after an exponentially growing pause, only while attempts are
 * left and the message mentions 429 or 500.
 */
module Retry {

  import opened Optional
  import opened JsText

  datatype Result<T> = Ok(value: T) | Err(message: string)

  /** What one request round trip gives the script: an exception from
      `fetch` or from reading the body (with its message), or a response
      with its HTTP status and, for a body that `response.json()` reads, the
      `choices[0].message.content` text when the body has one. */
  datatype Outcome = Thrown(message: string) | Answered(status: nat, content: Option<string>)

  /** `response.ok`: the status is in the range 200 to 299. */
  predicate IsOk(status: nat) {
    200 <= status <= 299
  }

  /** The start of the message thrown when the answer text is not JSON. */
  const InvalidJsonPrefix: string := "La risposta di OpenAI non è un JSON valido: "

  /** The message of the TypeError a browser raises when `response.json()`
      is called on a body that `response.text()` has already read. */
  const BodyUsedMessage: string := "Failed to " + "execute " + "'json' on " + "'Response': " + "body stream " + "already read"

  /** The result of one attempt as written. A response that is not ok has
      its body read by `response.text()` for logging, so the following
      `response.json()` always fails because the body is used up, whatever
      the status. An ok response's answer text (trimmed, empty when the body
      has none) is handed to `parse`, which stands for `JSON.parse`. */
  function AttemptResult<T>(o: Outcome, parse: string -> Option<T>): (r: Result<T>)
    ensures o.Thrown? ==> r == Err(o.message)
    ensures o.Answered? && !IsOk(o.status) ==> r == Err(BodyUsedMessage)
    ensures o.Answered? && IsOk(o.status) ==> (r.Ok? <==> parse(AnswerText(o)).Some?)
    ensures o.Answered? && IsOk(o.status) && r.Ok? ==> r.value == parse(AnswerText(o)).value
    ensures o.Answered? && IsOk(o.status) && r.Err? ==> r.message == InvalidJsonPrefix + AnswerText(o)
  {
    match o
    case Thrown(message) => Err(message)
    case Answered(status, _) =>
      if !IsOk(status) then Err(BodyUsedMessage)
      else
        var text := AnswerText(o);
        match parse(text)
        case None => Err(InvalidJsonPrefix + text)
        case Some(v) => Ok(v)
  }

  /** The start of the message of the error the script evidently means to
      raise for a response that is not ok. */
  const ApiErrorPrefix: string := "OpenAI API error: "

  /** The decimal digits of `n`, as `String(n)` writes them. */
  function DecimalText(n: nat): (r: string)
    ensures r != [] && AllDigits(r)
  {
    if n < 10 then [('0' as int + n) as char]
    else DecimalText(n / 10) + [('0' as int + n % 10) as char]
  }

  /** One attempt as evidently intended: a response that is not ok fails
      with a message carrying its status, so that the retry test can see a
      429 or a 500; everything else is as written. */
  function AttemptResultCorrected<T>(o: Outcome, parse: string -> Option<T>): (r: Result<T>)
    ensures o.Answered? && !IsOk(o.status) ==> r == Err(ApiErrorPrefix + DecimalText(o.status))
    ensures o.Thrown? || IsOk(o.status) ==> r == AttemptResult(o, parse)
  {
    if o.Answered? && !IsOk(o.status) then Err(ApiErrorPrefix + DecimalText(o.status))
    else AttemptResult(o, parse)
  }

  /** The trimmed answer text, or the empty string. */
  function AnswerText(o: Outcome): string
    requires o.Answered?
  {
    match o.content
    case None => ""
    case Some(c) => Trim(c)
  }

  /** The retry condition of the `catch` block. */
  predicate ShouldRetry(retryCount: nat, maxRetries: nat, message: string) {
    retryCount < maxRetries && (Contains(message, "429") || Contains(message, "500"))
  }

  function Pow2(n: nat): (r: nat)
    ensures r >= 1
  {
    if n == 0 then 1 else 2 * Pow2(n - 1)
  }

  /** `Math.pow(2, retryCount + 1) * 1000` milliseconds. */
  function BackoffDelay(retryCount: nat): nat {
    Pow2(retryCount + 1) * 1000
  }

  /** The results of the successive attempts when `prompt` is sent each
      time: attempt `k` receives `network(prompt, k)`. */
  function Attempts<P, T>(prompt: P, network: (P, nat) -> Outcome, parse: string -> Option<T>): nat -> Result<T> {
    (k: nat) => AttemptResult(network(prompt, k), parse)
  }

  /** The attempts with the corrected handling of responses that are not ok. */
  function AttemptsCorrected<P, T>(prompt: P, network: (P, nat) -> Outcome, parse: string -> Option<T>): nat -> Result<T> {
    (k: nat) => AttemptResultCorrected(network(prompt, k), parse)
  }

  /** The attempts from `retryCount` on, as the recursion in the source makes
      them: the final result and the pauses taken, in order. */
  function Responses<T>(attempts: nat -> Result<T>, retryCount: nat, maxRetries: nat): (r: (Result<T>, seq<nat>))
    decreases maxRetries - retryCount
  {
    var res := attempts(retryCount);
    if res.Err? && ShouldRetry(retryCount, maxRetries, res.message) then
      var rest := Responses(attempts, retryCount + 1, maxRetries);
      (rest.0, [BackoffDelay(retryCount)] + rest.1)
    else (res, [])
  }

  /** `getAIResponse` with the attempt counter as a loop variable. The
      pauses are recorded instead of slept; attempt `k` sends `prompt` and
      receives `network(prompt, k)`. */
  method GetAIResponse<P, T>(prompt: P, network: (P, nat) -> Outcome, parse: string -> Option<T>,
                             maxRetries: nat)
    returns (reply: Result<T>, delays: seq<nat>)
    ensures (reply, delays) == Responses(Attempts(prompt, network, parse), 0, maxRetries)
  {
    ghost var attempts := Attempts(prompt, network, parse);
    var retryCount := 0;
    delays := [];
    assert delays + Responses(attempts, 0, maxRetries).1 == Responses(attempts, 0, maxRetries).1;
    while true
      invariant retryCount <= maxRetries
      invariant var rest := Responses(attempts, retryCount, maxRetries);
        Responses(attempts, 0, maxRetries) == (rest.0, delays + rest.1)
      decreases maxRetries - retryCount
    {
      var res := AttemptResult(network(prompt, retryCount), parse);
      assert res == attempts(retryCount);
      ghost var rest := Responses(attempts, retryCount, maxRetries);
      if res.Err? && ShouldRetry(retryCount, maxRetries, res.message) {
        ghost var next := Responses(attempts, retryCount + 1, maxRetries);
        assert rest == (next.0, [BackoffDelay(retryCount)] + next.1);
        assert delays + rest.1 == (delays + [BackoffDelay(retryCount)]) + next.1;
        delays := delays + [BackoffDelay(retryCount)];
        retryCount := retryCount + 1;
      } else {
        assert rest == (res, []);
        assert delays + rest.1 == delays;
        reply := res;
        return;
      }
    }
  }

  // ----- properties -----

  /** Each pause doubles the previous one, starting at two seconds. */
  lemma BackoffDoubles(retryCount: nat)
    ensures BackoffDelay(0) == 2000
    ensures BackoffDelay(retryCount + 1) == 2 * BackoffDelay(retryCount)
  {
  }

  /** With the default of three retries the pauses are 2, 4 and 8 seconds. */
  lemma DefaultSchedule()
    ensures [BackoffDelay(0), BackoffDelay(1), BackoffDelay(2)] == [2000, 4000, 8000]
  {
  }

  /** The k-th pause is `BackoffDelay(retryCount + k)`. */
  lemma {:induction false} PauseSchedule<T>(attempts: nat -> Result<T>, retryCount: nat, maxRetries: nat)
    ensures forall k :: 0 <= k < |Responses(attempts, retryCount, maxRetries).1| ==>
      Responses(attempts, retryCount, maxRetries).1[k] == BackoffDelay(retryCount + k)
    decreases maxRetries - retryCount
  {
    var res := attempts(retryCount);
    if res.Err? && ShouldRetry(retryCount, maxRetries, res.message) {
      PauseSchedule(attempts, retryCount + 1, maxRetries);
      var rest := Responses(attempts, retryCount + 1, maxRetries).1;
      var delays := [BackoffDelay(retryCount)] + rest;
      forall k | 1 <= k < |delays|
        ensures delays[k] == BackoffDelay(retryCount + k)
      {
        assert delays[k] == rest[k - 1];
        assert rest[k - 1] == BackoffDelay(retryCount + 1 + (k - 1));
      }
    }
  }

  /** Every pause follows an attempt that failed with a message allowing a
      retry: the pauses taken from attempt `retryCount` follow the attempts
      `retryCount`, `retryCount + 1`, and so on. */
  lemma {:induction false} PausesFollowRetryableFailures<T>(attempts: nat -> Result<T>, retryCount: nat,
                                                            maxRetries: nat)
    ensures var n := |Responses(attempts, retryCount, maxRetries).1|;
      forall k :: retryCount <= k < retryCount + n ==>
        attempts(k).Err? && ShouldRetry(k, maxRetries, attempts(k).message)
    decreases maxRetries - retryCount
  {
    var res := attempts(retryCount);
    if res.Err? && ShouldRetry(retryCount, maxRetries, res.message) {
      PausesFollowRetryableFailures(attempts, retryCount + 1, maxRetries);
    }
  }

  /** The result is that of the last attempt, returned or rethrown
      unchanged, and a final failure is one that allows no retry. */
  lemma {:induction false} LastAttemptDecides<T>(attempts: nat -> Result<T>, retryCount: nat, maxRetries: nat)
    ensures var r := Responses(attempts, retryCount, maxRetries);
      r.0 == attempts(retryCount + |r.1|) &&
      (r.0.Err? ==> !ShouldRetry(retryCount + |r.1|, maxRetries, r.0.message))
    decreases maxRetries - retryCount
  {
    var res := attempts(retryCount);
    if res.Err? && ShouldRetry(retryCount, maxRetries, res.message) {
      LastAttemptDecides(attempts, retryCount + 1, maxRetries);
    }
  }

  /** At most `maxRetries` retries: at most `maxRetries + 1` attempts from
      the first one. */
  lemma {:induction false} AttemptsBounded<T>(attempts: nat -> Result<T>, retryCount: nat, maxRetries: nat)
    requires retryCount <= maxRetries
    ensures |Responses(attempts, retryCount, maxRetries).1| <= maxRetries - retryCount
    decreases maxRetries - retryCount
  {
    var res := attempts(retryCount);
    if res.Err? && ShouldRetry(retryCount, maxRetries, res.message) {
      AttemptsBounded(attempts, retryCount + 1, maxRetries);
    }
  }

  /** When the first `n` attempts fail with a message that mentions 429 or
      500 and attempt `n` succeeds, the run pauses `min(n, maxRetries)`
      times, and it succeeds exactly when `n <= maxRetries`. */
  lemma {:induction false} TransientFailures<T>(attempts: nat -> Result<T>, retryCount: nat,
                                                maxRetries: nat, n: nat)
    requires retryCount <= n && retryCount <= maxRetries
    requires forall k :: retryCount <= k < n ==>
      attempts(k).Err? && (Contains(attempts(k).message, "429") || Contains(attempts(k).message, "500"))
    requires attempts(n).Ok?
    ensures var (reply, delays) := Responses(attempts, retryCount, maxRetries);
      |delays| == (if n <= maxRetries then n - retryCount else maxRetries - retryCount) &&
      (reply.Ok? <==> n <= maxRetries)
    decreases n - retryCount
  {
    if retryCount < n {
      if retryCount < maxRetries {
        TransientFailures(attempts, retryCount + 1, maxRetries, n);
      }
    }
  }

  predicate DigitFree(s: string) {
    forall k :: 0 <= k < |s| ==> !IsDigit(s[k])
  }

  lemma DigitFreeJoin(a: string, b: string)
    requires DigitFree(a) && DigitFree(b)
    ensures DigitFree(a + b)
  {
    forall k | 0 <= k < |a + b| ensures !IsDigit((a + b)[k]) {
      if k >= |a| { assert (a + b)[k] == b[k - |a|]; }
    }
  }

  /** The used-body message holds no digit. */
  lemma BodyUsedMessageDigitFree()
    ensures DigitFree(BodyUsedMessage)
  {
    var a, b, c := "Failed to ", "execute ", "'json' on ";
    var d, e, f := "'Response': ", "body stream ", "already read";
    assert DigitFree(a) && DigitFree(b) && DigitFree(c);
    assert DigitFree(d) && DigitFree(e) && DigitFree(f);
    DigitFreeJoin(a, b);
    DigitFreeJoin(a + b, c);
    DigitFreeJoin(a + b + c, d);
    DigitFreeJoin(a + b + c + d, e);
    DigitFreeJoin(a + b + c + d + e, f);
  }

  /** A message without digits never allows a retry. */
  lemma NoDigitsNoRetry(retryCount: nat, maxRetries: nat, message: string)
    requires DigitFree(message)
    ensures !ShouldRetry(retryCount, maxRetries, message)
  {
    forall i | 0 <= i <= |message|
      ensures !OccursAt(message, "429", i) && !OccursAt(message, "500", i)
    {
      if i + 3 <= |message| {
        assert message[i..i + 3][0] == message[i];
      }
    }
  }

  /** An HTTP error response, a rate limit (429) or a server error (500)
      included, fails with the used-body message, which mentions neither
      429 nor 500: the first error response ends the run, unretried. */
  lemma ErrorResponseNotRetried<P, T>(prompt: P, network: (P, nat) -> Outcome,
                                      parse: string -> Option<T>, maxRetries: nat)
    requires network(prompt, 0).Answered? && !IsOk(network(prompt, 0).status)
    ensures Responses(Attempts(prompt, network, parse), 0, maxRetries) == (Err(BodyUsedMessage), [])
  {
    BodyUsedMessageDigitFree();
    NoDigitsNoRetry(0, maxRetries, BodyUsedMessage);
  }

  /** The message for a 429 or 500 response mentions its status. */
  lemma StatusMentioned(status: nat)
    requires status == 429 || status == 500
    ensures var m := ApiErrorPrefix + DecimalText(status);
      Contains(m, "429") || Contains(m, "500")
  {
    var m := ApiErrorPrefix + DecimalText(status);
    assert DecimalText(status) == (if status == 429 then "429" else "500");
    assert m[|ApiErrorPrefix|..|ApiErrorPrefix| + 3] == DecimalText(status);
    assert OccursAt(m, DecimalText(status), |ApiErrorPrefix|);
  }

  /** With the corrected attempt, `n` rate-limit or server-error responses
      followed by a successful one are retried as the backoff intends: the
      run pauses `min(n, maxRetries)` times and succeeds exactly when
      `n <= maxRetries`. */
  lemma ErrorStatusRetriedCorrected<P, T>(prompt: P, network: (P, nat) -> Outcome,
                                          parse: string -> Option<T>, maxRetries: nat, n: nat)
    requires forall k :: 0 <= k < n ==>
      network(prompt, k).Answered? && (network(prompt, k).status == 429 || network(prompt, k).status == 500)
    requires AttemptResultCorrected(network(prompt, n), parse).Ok?
    ensures var (reply, delays) := Responses(AttemptsCorrected(prompt, network, parse), 0, maxRetries);
      |delays| == (if n <= maxRetries then n else maxRetries) && (reply.Ok? <==> n <= maxRetries)
  {
    var attempts := AttemptsCorrected(prompt, network, parse);
    forall k | 0 <= k < n
      ensures attempts(k).Err? && (Contains(attempts(k).message, "429") || Contains(attempts(k).message, "500"))
    {
      StatusMentioned(network(prompt, k).status);
    }
    TransientFailures(attempts, 0, maxRetries, n);
  }

  /** Conversely, an answer text that is not JSON but happens to mention
      500 is retried, since the thrown message quotes the text. */
  lemma InvalidAnswerMentioning500Retried<P, T>(prompt: P, network: (P, nat) -> Outcome,
                                                parse: string -> Option<T>, maxRetries: nat, text: string)
    requires 0 < maxRetries
    requires network(prompt, 0) == Answered(200, Some(text))
    requires parse(Trim(text)) == None && Contains(Trim(text), "500")
    ensures |Responses(Attempts(prompt, network, parse), 0, maxRetries).1| >= 1
  {
    var t := Trim(text);
    var i :| 0 <= i <= |t| && OccursAt(t, "500", i);
    var message := InvalidJsonPrefix + t;
    assert message[|InvalidJsonPrefix| + i..|InvalidJsonPrefix| + i + 3] == t[i..i + 3];
    assert OccursAt(message, "500", |InvalidJsonPrefix| + i);
  }
}
