/** `poll_result` and `extract_markdown_content` of async_processing.py. The
    results endpoint and the clock are inputs: attempt k for a record answers
    with a response after some latency, and every attempt that does not end
    the loop is followed by a sleep of `interval` ticks. */
module Polling {
  import opened Values

  /** `POLL_TIMEOUT_SECONDS` and `POLL_INTERVAL_SECONDS`. */
  const PollTimeout: nat := 300
  const PollInterval: nat := 5

  /** The answer to one GET of the results endpoint and the ticks it took. */
  datatype Attempt = Attempt(response: Response, latency: nat)

  /** The results endpoint: the answer to attempt k for a record id, as the
      id is rendered into the URL. */
  type Server = (string, nat) -> Attempt

  /** How `poll_result` ends: it returns the completed payload, raises a
      RuntimeError for a failed job, raises TimeoutError, or raises
      AttributeError on a body that is not a JSON object (`.get` on it). */
  datatype PollOutcome = Completed(payload: map<string, Json>) | JobFailed | TimedOut | Malformed

  /** What one decoded answer means to the loop. */
  datatype Verdict = Finish(outcome: PollOutcome) | Retry

  function Judge(response: Response): (v: Verdict)
    ensures v.Finish? && v.outcome.Completed? ==>
              response == Body(JObj(v.outcome.payload))
              && Get(v.outcome.payload, "status") == JStr("completed")
    ensures v.Finish? ==> !v.outcome.TimedOut?
    ensures v == Finish(Malformed) <==> response.Body? && !response.json.JObj?
    ensures v == Finish(JobFailed)
        <==> response.Body? && response.json.JObj? && Get(response.json.fields, "status") == JStr("failed")
    ensures v.Retry?
        <==> response.Transport?
             || (response.json.JObj? && Get(response.json.fields, "status") != JStr("completed")
                 && Get(response.json.fields, "status") != JStr("failed"))
  {
    match response
    case Transport => Retry
    case Body(j) =>
      if !j.JObj? then Finish(Malformed)
      else if Get(j.fields, "status") == JStr("completed") then Finish(Completed(j.fields))
      else if Get(j.fields, "status") == JStr("failed") then Finish(JobFailed)
      else Retry
  }

  /** The loop from attempt k on, `elapsed` ticks after the start: it runs
      while `elapsed < maxWait`. */
  function PollFrom(server: Server, id: string, maxWait: nat, interval: nat, k: nat, elapsed: nat): PollOutcome
    requires interval > 0
    decreases if elapsed < maxWait then maxWait - elapsed else 0
  {
    if elapsed >= maxWait then TimedOut
    else
      var attempt := server(id, k);
      match Judge(attempt.response)
      case Finish(outcome) => outcome
      case Retry => PollFrom(server, id, maxWait, interval, k + 1, elapsed + attempt.latency + interval)
  }

  /** `poll_result(record_id, max_wait, interval)`. */
  method PollResult(server: Server, id: string, maxWait: nat, interval: nat) returns (outcome: PollOutcome)
    requires interval > 0
    ensures outcome == PollFrom(server, id, maxWait, interval, 0, 0)
  {
    var elapsed: nat := 0;
    var k: nat := 0;
    while elapsed < maxWait
      invariant PollFrom(server, id, maxWait, interval, k, elapsed) == PollFrom(server, id, maxWait, interval, 0, 0)
      decreases maxWait - elapsed
    {
      var attempt := server(id, k);
      match attempt.response {
        case Transport =>
          elapsed := elapsed + attempt.latency + interval;
          k := k + 1;
          continue;
        case Body(result) =>
          if !result.JObj? {
            return Malformed;
          }
          var status := Get(result.fields, "status");
          if status == JStr("completed") {
            return Completed(result.fields);
          }
          if status == JStr("failed") {
            return JobFailed;
          }
      }
      elapsed := elapsed + attempt.latency + interval;
      k := k + 1;
    }
    return TimedOut;
  }

  /** A returned payload is always one whose status is "completed": the loop
      never hands back an unfinished job. */
  lemma {:induction false} CompletedOnlyWhenCompleted(server: Server, id: string, maxWait: nat, interval: nat, k: nat, elapsed: nat)
    requires interval > 0
    requires PollFrom(server, id, maxWait, interval, k, elapsed).Completed?
    ensures Get(PollFrom(server, id, maxWait, interval, k, elapsed).payload, "status") == JStr("completed")
    ensures exists j :: k <= j && server(id, j).response
                         == Body(JObj(PollFrom(server, id, maxWait, interval, k, elapsed).payload))
    decreases if elapsed < maxWait then maxWait - elapsed else 0
  {
    var attempt := server(id, k);
    if Judge(attempt.response).Retry? {
      CompletedOnlyWhenCompleted(server, id, maxWait, interval, k + 1, elapsed + attempt.latency + interval);
    } else {
      assert server(id, k).response == Body(JObj(PollFrom(server, id, maxWait, interval, k, elapsed).payload));
    }
  }

  /** When no attempt ever gets through, the loop times out. */
  lemma {:induction false} UnreachableTimesOut(server: Server, id: string, maxWait: nat, interval: nat, k: nat, elapsed: nat)
    requires interval > 0
    requires forall j :: k <= j ==> server(id, j).response == Transport
    ensures PollFrom(server, id, maxWait, interval, k, elapsed) == TimedOut
    decreases if elapsed < maxWait then maxWait - elapsed else 0
  {
    if elapsed < maxWait {
      var attempt := server(id, k);
      UnreachableTimesOut(server, id, maxWait, interval, k + 1, elapsed + attempt.latency + interval);
    }
  }

  /** Each retry costs at least `interval` ticks, so the loop makes at most
      ceil(maxWait / interval) attempts: an answer at or after attempt
      k + ceil((maxWait - elapsed) / interval) is never seen. */
  lemma {:induction false} AttemptsBounded(s1: Server, s2: Server, id: string, maxWait: nat, interval: nat, k: nat, elapsed: nat)
    requires interval > 0
    requires forall j :: k <= j < k + Budget(maxWait, interval, elapsed) ==> s1(id, j) == s2(id, j)
    ensures PollFrom(s1, id, maxWait, interval, k, elapsed) == PollFrom(s2, id, maxWait, interval, k, elapsed)
    decreases if elapsed < maxWait then maxWait - elapsed else 0
  {
    if elapsed < maxWait {
      var attempt := s1(id, k);
      var next := elapsed + attempt.latency + interval;
      assert Budget(maxWait, interval, next) + 1 <= Budget(maxWait, interval, elapsed) by {
        BudgetStep(maxWait, interval, elapsed, next);
      }
      AttemptsBounded(s1, s2, id, maxWait, interval, k + 1, next);
    }
  }

  /** The tick at which attempt j starts, for a loop that makes attempt k at
      tick `elapsed`: each earlier attempt adds its latency and one sleep. */
  function Clock(server: Server, id: string, interval: nat, k: nat, elapsed: nat, j: nat): nat
    requires k <= j
    decreases j - k
  {
    if j == k then elapsed
    else Clock(server, id, interval, k + 1, elapsed + server(id, k).latency + interval, j)
  }

  lemma {:induction false} ClockStep(server: Server, id: string, interval: nat, k: nat, elapsed: nat, j: nat)
    requires k <= j
    ensures Clock(server, id, interval, k, elapsed, j + 1)
         == Clock(server, id, interval, k, elapsed, j) + server(id, j).latency + interval
    decreases j - k
  {
    if j > k {
      ClockStep(server, id, interval, k + 1, elapsed + server(id, k).latency + interval, j);
    }
  }

  /** Later attempts never start earlier. */
  lemma {:induction false} ClockMonotone(server: Server, id: string, interval: nat, k: nat, elapsed: nat, i: nat, j: nat)
    requires k <= i <= j
    ensures Clock(server, id, interval, k, elapsed, i) <= Clock(server, id, interval, k, elapsed, j)
    decreases j - i
  {
    if i < j {
      ClockMonotone(server, id, interval, k, elapsed, i, j - 1);
      ClockStep(server, id, interval, k, elapsed, j - 1);
    }
  }

  /** The poll ends with the verdict of the first attempt that does not
      retry, provided that attempt starts before `maxWait`: a completed
      payload, a failed job or a malformed body. */
  lemma {:induction false} FirstVerdictDecides(server: Server, id: string, maxWait: nat, interval: nat,
                                               k: nat, elapsed: nat, j: nat)
    requires interval > 0 && k <= j
    requires Clock(server, id, interval, k, elapsed, j) < maxWait
    requires forall i :: k <= i < j ==> Judge(server(id, i).response).Retry?
    requires Judge(server(id, j).response).Finish?
    ensures PollFrom(server, id, maxWait, interval, k, elapsed) == Judge(server(id, j).response).outcome
    decreases j - k
  {
    if j > k {
      ClockMonotone(server, id, interval, k, elapsed, k, j);
      assert Judge(server(id, k).response).Retry?;
      FirstVerdictDecides(server, id, maxWait, interval, k + 1, elapsed + server(id, k).latency + interval, j);
    }
  }

  /** The poll times out exactly when every attempt that starts before
      `maxWait` is answered with a retry. */
  lemma {:induction false} TimedOutIff(server: Server, id: string, maxWait: nat, interval: nat, k: nat, elapsed: nat)
    requires interval > 0
    ensures PollFrom(server, id, maxWait, interval, k, elapsed) == TimedOut
        <==> forall j :: k <= j && Clock(server, id, interval, k, elapsed, j) < maxWait
                         ==> Judge(server(id, j).response).Retry?
    decreases if elapsed < maxWait then maxWait - elapsed else 0
  {
    if elapsed >= maxWait {
      forall j | k <= j
        ensures Clock(server, id, interval, k, elapsed, j) >= maxWait
      {
        ClockMonotone(server, id, interval, k, elapsed, k, j);
      }
    } else {
      var next := elapsed + server(id, k).latency + interval;
      assert Clock(server, id, interval, k, elapsed, k) == elapsed;
      if Judge(server(id, k).response).Retry? {
        TimedOutIff(server, id, maxWait, interval, k + 1, next);
        forall j | k + 1 <= j
          ensures Clock(server, id, interval, k, elapsed, j) == Clock(server, id, interval, k + 1, next, j)
        {
        }
      }
    }
  }

  /** Attempts left at most: the number of `interval`-long steps that fit
      between elapsed and maxWait, that is ceil((maxWait - elapsed) / interval). */
  function Budget(maxWait: nat, interval: nat, elapsed: nat): nat
    requires interval > 0
    decreases if elapsed < maxWait then maxWait - elapsed else 0
  {
    if elapsed >= maxWait then 0 else 1 + Budget(maxWait, interval, elapsed + interval)
  }

  lemma {:induction false} BudgetMonotone(maxWait: nat, interval: nat, e1: nat, e2: nat)
    requires interval > 0 && e1 <= e2
    ensures Budget(maxWait, interval, e2) <= Budget(maxWait, interval, e1)
    decreases if e1 < maxWait then maxWait - e1 else 0
  {
    if e2 < maxWait {
      BudgetMonotone(maxWait, interval, e1 + interval, e2 + interval);
    }
  }

  lemma BudgetStep(maxWait: nat, interval: nat, elapsed: nat, next: nat)
    requires interval > 0 && elapsed < maxWait && next >= elapsed + interval
    ensures Budget(maxWait, interval, next) + 1 <= Budget(maxWait, interval, elapsed)
  {
    BudgetMonotone(maxWait, interval, elapsed + interval, next);
  }

  /** The message of the KeyError raised when the markdown is missing. */
  const MissingMarkdown: string := "Markdown content missing in poll result"

  /** `payload[key]` on a decoded document: KeyError for a missing key of an
      object, TypeError when the document is not an object. */
  function Index(doc: Json, key: string): Result<Json> {
    if !doc.JObj? then Raised(TypeError)
    else if key in doc.fields then Ok(doc.fields[key])
    else Raised(KeyError(key))
  }

  /** `extract_markdown_content(payload)`: `payload["result"]["markdown"]["content"]`,
      with a KeyError at any level re-raised under one message. */
  function ExtractMarkdown(payload: map<string, Json>): (r: Result<Json>)
    ensures r.Raised? ==> r.error == KeyError(MissingMarkdown) || r.error == TypeError
    ensures "result" !in payload ==> r == Raised(KeyError(MissingMarkdown))
    ensures "result" in payload && !payload["result"].JObj? ==> r == Raised(TypeError)
    ensures "result" in payload && payload["result"].JObj? && "markdown" !in payload["result"].fields
            ==> r == Raised(KeyError(MissingMarkdown))
    ensures "result" in payload && payload["result"].JObj? && "markdown" in payload["result"].fields
            && !payload["result"].fields["markdown"].JObj?
            ==> r == Raised(TypeError)
    ensures "result" in payload && payload["result"].JObj? && "markdown" in payload["result"].fields
            && payload["result"].fields["markdown"].JObj?
            && "content" !in payload["result"].fields["markdown"].fields
            ==> r == Raised(KeyError(MissingMarkdown))
  {
    var content :=
      match Index(JObj(payload), "result")
      case Raised(e) => Raised(e)
      case Ok(res) =>
        match Index(res, "markdown")
        case Raised(e) => Raised(e)
        case Ok(md) => Index(md, "content");
    match content
    case Ok(c) => Ok(c)
    case Raised(KeyError(_)) => Raised(KeyError(MissingMarkdown))
    case Raised(e) => Raised(e)
  }

  /** The payload shape the service documents for a finished record. */
  function MarkdownPayload(content: Json): map<string, Json> {
    map["status" := JStr("completed"),
        "result" := JObj(map["markdown" := JObj(map["content" := content])])]
  }

  /** Extraction reads back exactly the content put into the documented
      shape, and it succeeds only on payloads that have that nesting. */
  lemma ExtractMarkdownIff(payload: map<string, Json>, content: Json)
    ensures ExtractMarkdown(MarkdownPayload(content)) == Ok(content)
    ensures ExtractMarkdown(payload) == Ok(content)
        <==> && "result" in payload && payload["result"].JObj?
             && "markdown" in payload["result"].fields
             && payload["result"].fields["markdown"].JObj?
             && "content" in payload["result"].fields["markdown"].fields
             && payload["result"].fields["markdown"].fields["content"] == content
  {
  }
}
