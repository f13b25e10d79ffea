/** The bounded-retry fetcher `crawl_uri`.

    The network and the JSON parser are not modelled: `attempt(k)` is what the k-th call to
    `urlopen` (and, on status 200, to `json.loads`) produced. */
module Fetcher {

  /** A parsed JSON document. `Null` is the JSON literal `null`, which parses to the same
      value the fetcher returns when every attempt fails. */
  datatype Json = Null | Doc(text: string)

  /** The outcome of one attempt. */
  datatype Attempt =
    | Ok(payload: Json)       // status 200 and the body parsed
    | BadStatus(code: int)    // urlopen returned status `code`, which is never 200
    | HttpFailure(code: int)  // urlopen raised HTTPError
    | OtherFailure            // any other exception: timeout, connection or read error
    | BadJson                 // status 200 but json.loads raised

  /** The fetcher stops retrying after this many attempts. */
  const MaxAttempts: nat := 3

  /** The metadata returned and the number of attempts made. */
  datatype Fetched = Fetched(metadata: Json, attempts: nat)

  /** The fetch loop entered with `retry` attempts already failed. */
  function FetchFrom(attempt: nat -> Attempt, retry: nat): Fetched
    requires retry <= MaxAttempts
    decreases MaxAttempts - retry
  {
    if retry == MaxAttempts then Fetched(Null, retry)
    else if attempt(retry).Ok? then Fetched(attempt(retry).payload, retry + 1)
    else FetchFrom(attempt, retry + 1)
  }

  /** From any retry count, the loop stops within `MaxAttempts` attempts; every attempt
      before the last one failed; a last attempt that succeeded gives its payload, and
      otherwise all attempts were spent and the result is `Null`. */
  lemma {:induction false} FetchFromBounds(attempt: nat -> Attempt, retry: nat)
    requires retry <= MaxAttempts
    ensures var r := FetchFrom(attempt, retry);
      (retry < r.attempts <= MaxAttempts || r.attempts == retry == MaxAttempts) &&
      (forall k :: retry <= k < r.attempts - 1 ==> !attempt(k).Ok?) &&
      (r.attempts > retry && attempt(r.attempts - 1).Ok? ==> r.metadata == attempt(r.attempts - 1).payload) &&
      (r.attempts == retry || !attempt(r.attempts - 1).Ok? ==> r.attempts == MaxAttempts && r.metadata == Null)
    decreases MaxAttempts - retry
  {
    if retry < MaxAttempts && !attempt(retry).Ok? {
      FetchFromBounds(attempt, retry + 1);
    }
  }

  /** What `crawl_uri` returns for the attempt outcomes `attempt`. */
  function Fetch(attempt: nat -> Attempt): Fetched
  {
    FetchFrom(attempt, 0)
  }

  /** `crawl_uri`: at most three attempts; the payload of the first successful one, or `Null`
      after three failures. Never raises. */
  method CrawlUri(attempt: nat -> Attempt) returns (metadata: Json, attempts: nat)
    ensures Fetched(metadata, attempts) == Fetch(attempt)
    ensures 1 <= attempts <= MaxAttempts
    ensures forall k :: 0 <= k < attempts - 1 ==> !attempt(k).Ok?
    ensures attempt(attempts - 1).Ok? ==> metadata == attempt(attempts - 1).payload
    ensures !attempt(attempts - 1).Ok? ==> attempts == MaxAttempts && metadata == Null
  {
    var retry := 0;
    metadata := Null;
    attempts := 0;
    while retry < MaxAttempts
      invariant retry <= MaxAttempts && attempts == retry && metadata == Null
      invariant forall k :: 0 <= k < retry ==> !attempt(k).Ok?
      invariant FetchFrom(attempt, retry) == Fetch(attempt)
    {
      attempts := attempts + 1;
      var outcome := attempt(retry);
      if outcome.Ok? {
        metadata := outcome.payload;
        break;
      }
      retry := retry + 1;
    }
    FetchFromBounds(attempt, 0);
  }

  /** A first attempt that succeeds is the only one made. */
  lemma FetchFirstSuccess(attempt: nat -> Attempt)
    requires attempt(0).Ok?
    ensures Fetch(attempt) == Fetched(attempt(0).payload, 1)
  {
  }

  /** Three failed attempts, of any kind, give `Null` after exactly three attempts. */
  lemma FetchAllFail(attempt: nat -> Attempt)
    requires !attempt(0).Ok? && !attempt(1).Ok? && !attempt(2).Ok?
    ensures Fetch(attempt) == Fetched(Null, MaxAttempts)
  {
  }
}
