/**
 * Job-level control of src/main.rs: `scrape` (parse the job's URL, reject
 * it when it has no host, fetch the page, extract, send every result) and
 * `worker` (run `scrape` on each job received, carrying on after a failure),
 * taken sequentially.
 *
 * URL parsing, HTML parsing and the class of word characters are the
 * environment `Env`; the network is what a `Client` answers for each whole
 * URL, so two pages of one site are fetched, and answered, separately.
 */
module Pipeline {
  import opened Wrappers
  import opened Urls
  import opened Extract
  import opened Sequences

  /** The collaborators a job depends on, outside this model. */
  datatype Env = Env(
    parseUrl: string -> Option<Url>,   // URL parsing: a record, or a parse error
    parseHtml: string -> Document,     // HTML parsing: never fails, recovers permissively
    isWord: char -> bool)              // the word characters of the inline matcher

  /** Why a job yields nothing. */
  datatype JobError = Unparsable(job: string) | MissingHost(job: string) | FetchFailed(job: string)

  /** The HTTP client a worker owns: it records every GET it sends. */
  class Client {
    /** What a GET of each whole URL (path, query and port included) yields: the body text, or a fetch error. */
    const responses: Url -> Option<string>
    /** Every URL fetched so far, whole, in order. */
    var requests: seq<Url>

    constructor(responses: Url -> Option<string>)
      ensures this.responses == responses && requests == []
    {
      this.responses := responses;
      requests := [];
    }

    method Get(url: Url) returns (text: Option<string>)
      modifies this`requests
      ensures requests == old(requests) + [url]
      ensures text == responses(url)
    {
      requests := requests + [url];
      text := responses(url);
    }
  }

  /** The sending side of the result channel held by a worker. */
  class ResultSender {
    /** Every result that reached the channel, in order. */
    var sent: seq<string>
    /** Whether the receiving side still exists; sending fails once it is gone. */
    var connected: bool

    constructor()
      ensures sent == [] && connected
    {
      sent := [];
      connected := true;
    }

    method Send(msg: string) returns (ok: bool)
      modifies this`sent
      ensures ok == connected
      ensures sent == if connected then old(sent) + [msg] else old(sent)
    {
      ok := connected;
      if connected {
        sent := sent + [msg];
      }
    }

    /** The receiving side goes away. */
    method Disconnect()
      modifies this`connected
      ensures !connected
    {
      connected := false;
    }
  }

  /** What one job yields: the page's results, or why it was abandoned. */
  function JobOutcome(env: Env, responses: Url -> Option<string>, job: string): (r: Result<seq<string>, JobError>)
    // a job succeeds exactly when its URL parses, has a host and its page is fetched
    ensures r.Ok? <==>
      env.parseUrl(job).Some? && HasHost(env.parseUrl(job).value) && responses(env.parseUrl(job).value).Some?
    // every error names the job it abandons
    ensures r.Err? ==> r.error.job == job
  {
    match env.parseUrl(job)
    case None => Err(Unparsable(job))
    case Some(url) =>
      if !HasHost(url) then
        Err(MissingHost(job))
      else
        match responses(url)
        case None => Err(FetchFailed(job))
        case Some(text) => Ok(PageResults(env.parseHtml(text), url, env.isWord))
  }

  /** The results a job sends: none when it fails. */
  function JobResults(env: Env, responses: Url -> Option<string>, job: string): seq<string> {
    match JobOutcome(env, responses, job)
    case Ok(results) => results
    case Err(_) => []
  }

  /** The GET a job sends: exactly one when its URL parses with a host, none otherwise. */
  function JobRequests(env: Env, job: string): seq<Url> {
    match env.parseUrl(job)
    case None => []
    case Some(url) => if HasHost(url) then [url] else []
  }

  /** Everything a worker sends for a sequence of jobs. */
  function WorkerOutput(env: Env, responses: Url -> Option<string>, jobs: seq<string>): seq<string> {
    if jobs == [] then [] else JobResults(env, responses, jobs[0]) + WorkerOutput(env, responses, jobs[1..])
  }

  /** Every GET a worker sends for a sequence of jobs. */
  function WorkerRequests(env: Env, jobs: seq<string>): seq<Url> {
    if jobs == [] then [] else JobRequests(env, jobs[0]) + WorkerRequests(env, jobs[1..])
  }

  /** The outcome `scrape` returns for a job. */
  function ToOutcome(r: Result<seq<string>, JobError>): Outcome<JobError> {
    match r
    case Ok(_) => Pass
    case Err(e) => Fail(e)
  }

  /**
   * One job: parse the URL, reject it when it has no host (before any
   * request), fetch, extract, then send the results one by one. A failed
   * send is dropped and the loop goes on.
   */
  method Scrape(env: Env, client: Client, sender: ResultSender, job: string) returns (outcome: Outcome<JobError>)
    modifies client`requests, sender`sent
    ensures outcome == ToOutcome(JobOutcome(env, client.responses, job))
    ensures client.requests == old(client.requests) + JobRequests(env, job)
    ensures sender.sent == old(sender.sent) + (if sender.connected then JobResults(env, client.responses, job) else [])
  {
    var parsed := env.parseUrl(job);
    if parsed.None? {
      return Fail(Unparsable(job));
    }
    var url := parsed.value;
    if !HasHost(url) {
      return Fail(MissingHost(job));
    }
    var text := client.Get(url);
    if text.None? {
      return Fail(FetchFailed(job));
    }
    var results := PageResults(env.parseHtml(text.value), url, env.isWord);
    for i := 0 to |results|
      invariant client.requests == old(client.requests) + [url]
      invariant sender.sent == old(sender.sent) + (if sender.connected then results[..i] else [])
    {
      var _ := sender.Send(results[i]);
      assert results[..i + 1] == results[..i] + [results[i]];
    }
    assert results[..|results|] == results;
    return Pass;
  }

  /** A worker: every job it receives, in order, whatever became of the previous ones. */
  method Worker(env: Env, client: Client, sender: ResultSender, jobs: seq<string>)
    modifies client`requests, sender`sent
    ensures client.requests == old(client.requests) + WorkerRequests(env, jobs)
    ensures sender.sent == old(sender.sent) + (if sender.connected then WorkerOutput(env, client.responses, jobs) else [])
  {
    for i := 0 to |jobs|
      invariant client.requests == old(client.requests) + WorkerRequests(env, jobs[..i])
      invariant sender.sent == old(sender.sent)
        + (if sender.connected then WorkerOutput(env, client.responses, jobs[..i]) else [])
    {
      ghost var sentBefore, requestsBefore := sender.sent, client.requests;
      var _ := Scrape(env, client, sender, jobs[i]);
      WorkerStep(env, client.responses, jobs, i, old(client.requests), requestsBefore, client.requests,
        old(sender.sent), sentBefore, sender.sent, sender.connected);
    }
    assert jobs[..|jobs|] == jobs;
  }

  /**
   * A worker whose result channel has lost its receiver: every send fails
   * and is dropped, while the worker carries on through its jobs, fetching
   * as usual, and nothing more reaches the channel.
   */
  method WorkerAfterReceiverGone(env: Env, client: Client, sender: ResultSender, jobs: seq<string>)
    modifies client`requests, sender`sent, sender`connected
    ensures !sender.connected
    ensures client.requests == old(client.requests) + WorkerRequests(env, jobs)
    ensures sender.sent == old(sender.sent)
  {
    sender.Disconnect();
    Worker(env, client, sender, jobs);
  }

  /** One more job of the loop in `Worker`: the logs extended by that job's share reach one job further. */
  lemma WorkerStep(env: Env, responses: Url -> Option<string>, jobs: seq<string>, i: nat,
                   requests0: seq<Url>, requests1: seq<Url>, requests2: seq<Url>,
                   sent0: seq<string>, sent1: seq<string>, sent2: seq<string>, connected: bool)
    requires i < |jobs|
    requires requests1 == requests0 + WorkerRequests(env, jobs[..i])
    requires requests2 == requests1 + JobRequests(env, jobs[i])
    requires sent1 == sent0 + (if connected then WorkerOutput(env, responses, jobs[..i]) else [])
    requires sent2 == sent1 + (if connected then JobResults(env, responses, jobs[i]) else [])
    ensures requests2 == requests0 + WorkerRequests(env, jobs[..i + 1])
    ensures sent2 == sent0 + (if connected then WorkerOutput(env, responses, jobs[..i + 1]) else [])
  {
    assert jobs[..i + 1] == jobs[..i] + [jobs[i]];
    WorkerOutputAppend(env, responses, jobs[..i], [jobs[i]]);
    WorkerRequestsAppend(env, jobs[..i], [jobs[i]]);
    SingleJob(env, responses, jobs[i]);
    Associative(requests0, WorkerRequests(env, jobs[..i]), JobRequests(env, jobs[i]));
    if connected {
      Associative(sent0, WorkerOutput(env, responses, jobs[..i]), JobResults(env, responses, jobs[i]));
    } else {
      assert sent2 == sent0 + [] + [];
    }
  }

  lemma SingleJob(env: Env, responses: Url -> Option<string>, job: string)
    ensures WorkerOutput(env, responses, [job]) == JobResults(env, responses, job)
    ensures WorkerRequests(env, [job]) == JobRequests(env, job)
  {
    assert [job][1..] == [];
  }

  lemma {:induction false} WorkerOutputAppend(env: Env, responses: Url -> Option<string>, a: seq<string>, b: seq<string>)
    ensures WorkerOutput(env, responses, a + b) == WorkerOutput(env, responses, a) + WorkerOutput(env, responses, b)
  {
    if a == [] {
      assert a + b == b;
    } else {
      assert (a + b)[1..] == a[1..] + b;
      WorkerOutputAppend(env, responses, a[1..], b);
    }
  }

  lemma {:induction false} WorkerRequestsAppend(env: Env, a: seq<string>, b: seq<string>)
    ensures WorkerRequests(env, a + b) == WorkerRequests(env, a) + WorkerRequests(env, b)
  {
    if a == [] {
      assert a + b == b;
    } else {
      assert (a + b)[1..] == a[1..] + b;
      WorkerRequestsAppend(env, a[1..], b);
    }
  }

  /**
   * A job whose URL does not parse, or parses without a host, fails before
   * any request and yields nothing.
   */
  lemma RejectedBeforeFetch(env: Env, responses: Url -> Option<string>, job: string)
    requires env.parseUrl(job).None? || !HasHost(env.parseUrl(job).value)
    ensures JobOutcome(env, responses, job) ==
      if env.parseUrl(job).None? then Err(Unparsable(job)) else Err(MissingHost(job))
    ensures JobRequests(env, job) == [] && JobResults(env, responses, job) == []
  {
  }

  /**
   * Two jobs on one host whose URLs differ elsewhere (path, query, port) are
   * two different GETs, each answered by the network for its own URL.
   */
  lemma PagesFetchedSeparately(env: Env, responses: Url -> Option<string>, job1: string, job2: string)
    requires env.parseUrl(job1).Some? && env.parseUrl(job2).Some?
    requires HasHost(env.parseUrl(job1).value) && HasHost(env.parseUrl(job2).value)
    requires env.parseUrl(job1).value.href != env.parseUrl(job2).value.href
    ensures WorkerRequests(env, [job1, job2]) == [env.parseUrl(job1).value, env.parseUrl(job2).value]
    ensures JobRequests(env, job1) != JobRequests(env, job2)
    ensures responses(env.parseUrl(job1).value).Some? ==>
      JobOutcome(env, responses, job1) ==
        Ok(PageResults(env.parseHtml(responses(env.parseUrl(job1).value).value), env.parseUrl(job1).value, env.isWord))
  {
    WorkerRequestsAppend(env, [job1], [job2]);
    assert [job1, job2] == [job1] + [job2];
    SingleJob(env, responses, job1);
    SingleJob(env, responses, job2);
  }

  /** Every request a worker sends is for a URL with a host. */
  lemma {:induction false} RequestsHaveHost(env: Env, jobs: seq<string>)
    ensures forall u :: u in WorkerRequests(env, jobs) ==> HasHost(u)
  {
    if jobs != [] {
      RequestsHaveHost(env, jobs[1..]);
    }
  }

  /**
   * Failure isolation: a failed job contributes nothing, and the jobs after
   * it yield exactly what they would have yielded without it.
   */
  lemma FailedJobIsolated(env: Env, responses: Url -> Option<string>, before: seq<string>, job: string, after: seq<string>)
    requires JobOutcome(env, responses, job).Err?
    ensures WorkerOutput(env, responses, before + [job] + after) ==
      WorkerOutput(env, responses, before) + WorkerOutput(env, responses, after)
  {
    WorkerOutputAppend(env, responses, before + [job], after);
    WorkerOutputAppend(env, responses, before, [job]);
    SingleJob(env, responses, job);
  }

  /** The output of a worker is the in-order concatenation of what its successful jobs yield. */
  lemma {:induction false} WorkerOutputSuccessful(env: Env, responses: Url -> Option<string>, jobs: seq<string>, k: nat)
    requires k < |jobs|
    ensures JobOutcome(env, responses, jobs[k]).Ok? ==>
      WorkerOutput(env, responses, jobs) ==
        WorkerOutput(env, responses, jobs[..k]) + JobOutcome(env, responses, jobs[k]).value
        + WorkerOutput(env, responses, jobs[k + 1..])
  {
    assert jobs == jobs[..k] + [jobs[k]] + jobs[k + 1..];
    WorkerOutputAppend(env, responses, jobs[..k] + [jobs[k]], jobs[k + 1..]);
    WorkerOutputAppend(env, responses, jobs[..k], [jobs[k]]);
    SingleJob(env, responses, jobs[k]);
  }

  /** M successful jobs of K results each yield M * K results. */
  lemma {:induction false} UniformJobsCount(env: Env, responses: Url -> Option<string>, jobs: seq<string>, k: nat)
    requires forall i :: 0 <= i < |jobs| ==>
      JobOutcome(env, responses, jobs[i]).Ok? && |JobOutcome(env, responses, jobs[i]).value| == k
    ensures |WorkerOutput(env, responses, jobs)| == |jobs| * k
  {
    if jobs != [] {
      var n := |jobs| - 1;
      UniformJobsCount(env, responses, jobs[1..], k);
      var first := JobResults(env, responses, jobs[0]);
      assert |first| == k;
      assert WorkerOutput(env, responses, jobs) == first + WorkerOutput(env, responses, jobs[1..]);
      MultiplySucc(n, k);
    }
  }

  lemma MultiplySucc(n: nat, k: nat)
    ensures (n + 1) * k == n * k + k
  {
  }

  /** Which worker receives which job does not matter to what comes out, only to its order. */
  lemma {:induction false} WorkerOutputPermutation(env: Env, responses: Url -> Option<string>, a: seq<string>, b: seq<string>)
    requires multiset(a) == multiset(b)
    ensures multiset(WorkerOutput(env, responses, a)) == multiset(WorkerOutput(env, responses, b))
    decreases |a|
  {
    if a == [] {
      assert |multiset(b)| == 0;
    } else {
      var x := a[0];
      assert x in multiset(b);
      var k :| 0 <= k < |b| && b[k] == x;
      var rest := b[..k] + b[k + 1..];
      assert b == b[..k] + [x] + b[k + 1..];
      assert a == [x] + a[1..];
      assert multiset(b) == multiset(b[..k]) + multiset{x} + multiset(b[k + 1..]);
      assert multiset(a) == multiset{x} + multiset(a[1..]);
      assert multiset(rest) == multiset(b[..k]) + multiset(b[k + 1..]);
      assert multiset(a[1..]) == multiset(a) - multiset{x};
      assert multiset(rest) == multiset(b) - multiset{x};
      WorkerOutputPermutation(env, responses, a[1..], rest);
      WorkerOutputAppend(env, responses, b[..k] + [x], b[k + 1..]);
      WorkerOutputAppend(env, responses, b[..k], [x]);
      WorkerOutputAppend(env, responses, b[..k], b[k + 1..]);
      WorkerOutputAppend(env, responses, [x], a[1..]);
      SingleJob(env, responses, x);
    }
  }

  /** The jobs of all workers, one share after another. */
  function Flatten(shares: seq<seq<string>>): seq<string> {
    if shares == [] then [] else shares[0] + Flatten(shares[1..])
  }

  /** What all workers send, one worker's output after another. */
  function Collected(env: Env, responses: Url -> Option<string>, shares: seq<seq<string>>): seq<string> {
    if shares == [] then [] else WorkerOutput(env, responses, shares[0]) + Collected(env, responses, shares[1..])
  }

  lemma {:induction false} CollectedIsFlattened(env: Env, responses: Url -> Option<string>, shares: seq<seq<string>>)
    ensures Collected(env, responses, shares) == WorkerOutput(env, responses, Flatten(shares))
  {
    if shares != [] {
      CollectedIsFlattened(env, responses, shares[1..]);
      WorkerOutputAppend(env, responses, shares[0], Flatten(shares[1..]));
    }
  }

  /**
   * Fan-in of any number of workers: however the jobs are shared out among
   * them, the results collected are those of one worker running every job,
   * none lost and none duplicated, up to order.
   */
  lemma FanIn(env: Env, responses: Url -> Option<string>, jobs: seq<string>, shares: seq<seq<string>>)
    requires multiset(Flatten(shares)) == multiset(jobs)
    ensures multiset(Collected(env, responses, shares)) == multiset(WorkerOutput(env, responses, jobs))
    ensures |Collected(env, responses, shares)| == |WorkerOutput(env, responses, jobs)|
  {
    CollectedIsFlattened(env, responses, shares);
    WorkerOutputPermutation(env, responses, Flatten(shares), jobs);
    assert |multiset(Collected(env, responses, shares))| == |multiset(WorkerOutput(env, responses, jobs))|;
  }
}
