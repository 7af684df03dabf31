/**
 * One request to the model API with retry and exponential backoff (`ask`,
 * src/lib/claude.ts). The API is an oracle: `api(k)` is what the k-th
 * request of the run ends in, so a run of requests reads the oracle at
 * consecutive positions.
 */
module Retry {
  import opened Wrappers

  /** The kind of an error thrown by a request. */
  datatype ErrorKind =
    | RateLimit                  // an `Anthropic.RateLimitError`
    | ApiStatus(status: Option<int>)  // any other `Anthropic.APIError`, with its HTTP status if it has one
    | NotApi                     // anything else (network failure, a `TypeError`, ...)

  /**
   * What a request can throw: an error with a kind and a message, or the
   * `TypeError` from reading the first content block of an empty reply.
   */
  datatype ApiError = ApiError(kind: ErrorKind, message: string) | EmptyReply

  /** One block of a reply's content. */
  datatype ContentBlock = TextBlock(text: string) | OtherBlock

  /** What one request ends in. */
  datatype Outcome = Reply(content: seq<ContentBlock>) | Failed(error: ApiError)

  /** What `ask` returns or throws. */
  datatype Answer = Answered(text: string) | Raised(error: ApiError)

  /** One call of `ask`: its answer, how many requests it made, and the pauses between them. */
  datatype Asked = Asked(answer: Answer, calls: nat, delays: seq<nat>)

  /** Retries after the first request. */
  const MaxRetries: nat := 4
  const BaseDelay: nat := 8000

  /** The message of the `TypeError` thrown by reading the first content block of an empty reply. */
  const EmptyReplyMessage: string := "Cannot read properties of undefined (reading 'type')"

  /** The message an error carries. */
  function MessageOf(e: ApiError): string {
    match e
    case ApiError(_, message) => message
    case EmptyReply => EmptyReplyMessage
  }

  /** Rate-limit and overload errors: `RateLimitError`, or an API error with status 429, 529 or 503. */
  predicate IsRateLimit(e: ApiError) {
    && e.ApiError?
    && (|| e.kind.RateLimit?
        || (e.kind.ApiStatus? && (e.kind.status == Some(429) || e.kind.status == Some(529) || e.kind.status == Some(503))))
  }

  function Pow2(n: nat): (r: nat)
    ensures r >= 1
  {
    if n == 0 then 1 else 2 * Pow2(n - 1)
  }

  /** The pause before retry number `attempt + 1`. */
  function Delay(attempt: nat): nat {
    BaseDelay * Pow2(attempt)
  }

  /** What `ask` makes of a reply that arrived: the first block's text, or `''`. */
  function ReplyAnswer(content: seq<ContentBlock>): Answer {
    if |content| == 0 then Raised(EmptyReply)
    else if content[0].TextBlock? then Answered(content[0].text)
    else Answered("")
  }

  /** `ask(client, prompt, attempt)` with its first request at oracle position `next`. */
  function AskFrom(api: nat -> Outcome, next: nat, attempt: nat): (r: Asked)
    ensures 1 <= r.calls && r.calls == |r.delays| + 1
    ensures attempt <= MaxRetries ==> r.calls <= MaxRetries + 1 - attempt
    decreases MaxRetries - attempt
  {
    match api(next)
    case Reply(content) => Asked(ReplyAnswer(content), 1, [])
    case Failed(e) =>
      if IsRateLimit(e) && attempt < MaxRetries then
        var rest := AskFrom(api, next + 1, attempt + 1);
        Asked(rest.answer, rest.calls + 1, [Delay(attempt)] + rest.delays)
      else Asked(Raised(e), 1, [])
  }

  /** The request at which a call of `ask` stops. */
  function LastRequest(api: nat -> Outcome, next: nat, attempt: nat): nat {
    next + AskFrom(api, next, attempt).calls - 1
  }

  /**
   * What a call of `ask` does: every request but the last failed with a
   * rate-limit error, the last one decides the answer, and the pauses follow
   * the doubling schedule.
   */
  lemma AskFromSpec(api: nat -> Outcome, next: nat, attempt: nat)
    ensures var r := AskFrom(api, next, attempt);
      forall i :: 0 <= i < |r.delays| ==> r.delays[i] == Delay(attempt + i)
    ensures forall k :: next <= k < LastRequest(api, next, attempt) ==> api(k).Failed? && IsRateLimit(api(k).error)
    ensures var r := AskFrom(api, next, attempt);
      var o := api(LastRequest(api, next, attempt));
      && (o.Reply? ==> r.answer == ReplyAnswer(o.content))
      && (o.Failed? ==> r.answer == Raised(o.error)
                        && (!IsRateLimit(o.error) || attempt + r.calls - 1 >= MaxRetries))
  {
    AskFromDelays(api, next, attempt);
    AskFromRetried(api, next, attempt);
    AskFromLast(api, next, attempt);
  }

  /** The pauses of a call follow the doubling schedule from its attempt on. */
  lemma {:induction false} AskFromDelays(api: nat -> Outcome, next: nat, attempt: nat)
    ensures var r := AskFrom(api, next, attempt);
      forall i :: 0 <= i < |r.delays| ==> r.delays[i] == Delay(attempt + i)
    decreases MaxRetries - attempt
  {
    var o := api(next);
    if o.Failed? && IsRateLimit(o.error) && attempt < MaxRetries {
      AskFromDelays(api, next + 1, attempt + 1);
      var rest := AskFrom(api, next + 1, attempt + 1);
      var r := AskFrom(api, next, attempt);
      assert r.delays == [Delay(attempt)] + rest.delays;
      forall i | 0 <= i < |r.delays| ensures r.delays[i] == Delay(attempt + i) {
        if i > 0 {
          assert r.delays[i] == rest.delays[i - 1];
        }
      }
    }
  }

  /** Every request before the last failed with a rate-limit error. */
  lemma {:induction false} AskFromRetried(api: nat -> Outcome, next: nat, attempt: nat)
    ensures forall k :: next <= k < LastRequest(api, next, attempt) ==> api(k).Failed? && IsRateLimit(api(k).error)
    decreases MaxRetries - attempt
  {
    var o := api(next);
    if o.Failed? && IsRateLimit(o.error) && attempt < MaxRetries {
      AskFromRetried(api, next + 1, attempt + 1);
      assert LastRequest(api, next, attempt) == LastRequest(api, next + 1, attempt + 1);
    } else {
      assert LastRequest(api, next, attempt) == next;
    }
  }

  /** The last request decides the answer; a rate-limit error ends the call only when the retries are spent. */
  lemma {:induction false} AskFromLast(api: nat -> Outcome, next: nat, attempt: nat)
    ensures var r := AskFrom(api, next, attempt);
      var o := api(LastRequest(api, next, attempt));
      && (o.Reply? ==> r.answer == ReplyAnswer(o.content))
      && (o.Failed? ==> r.answer == Raised(o.error)
                        && (!IsRateLimit(o.error) || attempt + r.calls - 1 >= MaxRetries))
    decreases MaxRetries - attempt
  {
    var o := api(next);
    if o.Failed? && IsRateLimit(o.error) && attempt < MaxRetries {
      AskFromLast(api, next + 1, attempt + 1);
      assert LastRequest(api, next, attempt) == LastRequest(api, next + 1, attempt + 1);
    } else {
      assert LastRequest(api, next, attempt) == next;
    }
  }

  /** `ask(client, prompt)`: the first attempt. */
  function Ask(api: nat -> Outcome, next: nat): Asked {
    AskFrom(api, next, 0)
  }

  // ---------------------------------------------------------------------
  // The schedule
  // ---------------------------------------------------------------------

  /** Each pause is twice the one before it, so the schedule strictly increases. */
  lemma DelayDoubles(attempt: nat)
    ensures Delay(attempt + 1) == 2 * Delay(attempt)
    ensures Delay(attempt) < Delay(attempt + 1)
  {
  }

  /** The pauses of any call strictly increase, starting at 8 s. */
  lemma DelaysIncrease(api: nat -> Outcome, next: nat)
    ensures var d := Ask(api, next).delays;
      && (|d| > 0 ==> d[0] == 8000)
      && forall i, j :: 0 <= i < j < |d| ==> d[i] < d[j]
  {
    var d := Ask(api, next).delays;
    forall i, j | 0 <= i < j < |d| ensures d[i] < d[j] {
      DelayMonotone(i, j);
    }
  }

  lemma {:induction false} DelayMonotone(i: nat, j: nat)
    requires i < j
    ensures Delay(i) < Delay(j)
    decreases j - i
  {
    DelayDoubles(j - 1);
    if i < j - 1 {
      DelayMonotone(i, j - 1);
    }
  }

  /** At most five requests are made, and a pause comes only before a retry. */
  lemma AtMostFiveRequests(api: nat -> Outcome, next: nat)
    ensures 1 <= Ask(api, next).calls <= 5
    ensures |Ask(api, next).delays| == Ask(api, next).calls - 1 <= 4
  {
  }

  /** Four rate-limit errors followed by a text reply: the fifth reply's text, after 8, 16, 32 and 64 s. */
  lemma FourRateLimitsThenSuccess(api: nat -> Outcome, next: nat, t: string)
    requires forall k :: next <= k < next + 4 ==> api(k) == Failed(ApiError(RateLimit, "rate limited"))
    requires api(next + 4) == Reply([TextBlock(t)])
    ensures Ask(api, next) == Asked(Answered(t), 5, [8000, 16000, 32000, 64000])
  {
    assert api(next + 3).Failed?;
  }

  /** Five overload errors in a row: the fifth is thrown, with no sixth request. */
  lemma FiveOverloadsRaise(api: nat -> Outcome, next: nat, e: ApiError)
    requires e == ApiError(ApiStatus(Some(529)), "overloaded")
    requires forall k :: next <= k < next + 5 ==> api(k) == Failed(e)
    ensures Ask(api, next) == Asked(Raised(e), 5, [8000, 16000, 32000, 64000])
  {
    assert api(next + 4) == Failed(e);
  }

  /** Any other error is thrown at once, after a single request. */
  lemma OtherErrorPropagates(api: nat -> Outcome, next: nat)
    requires api(next).Failed? && !IsRateLimit(api(next).error)
    ensures Ask(api, next) == Asked(Raised(api(next).error), 1, [])
  {
  }

  /** A 500 from the API is not retried. */
  lemma ServerErrorNotRetried(api: nat -> Outcome, next: nat)
    requires api(next) == Failed(ApiError(ApiStatus(Some(500)), "internal error"))
    ensures Ask(api, next).calls == 1 && Ask(api, next).answer.Raised?
  {
  }
}
