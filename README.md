# oxojs: a verified model of the JavaScript link extractor

oxojs reads page URLs, one per line, and fetches each page. It finds references
to JavaScript resources in the page and writes each one out as an absolute URL.
A page's references come from three places:

- the `src` attribute of every `<script>`;
- matches of the pattern `[\w./:]*?js` in every script's inline text;
- the `data-script-src` attribute of every `<div>`.

This project models the logic of `src/main.rs` in Dafny and proves properties of it:

- `Urls.dfy`: the normaliser, `normalize` and `normalize_if_needed`. A raw
  reference becomes an absolute URL relative to the page. There are three rules:
  protocol-relative `//…`, host-absolute `/…`, and bare relative. References
  that already start with `http://` or `https://` are passed through by the
  wrapper.
- `InlineScan.dfy`: the inline matcher, written as a scanner (`LazyEnd`,
  `Scan`) and proved against a declarative reading of leftmost-first search
  with a lazy quantifier (`IsLeftmostScan`). The scanner is proved to be the
  only sequence of matches meeting that reading. The class `\w` is a
  parameter `isWord`.
- `Extract.dfy`: how one page's results are put together. The document is
  the HTML parser's output, flattened into its elements in document order.
  For each script, its inline matches come first and then its `src`. The divs
  follow after all the scripts.
- `Pipeline.dfy`: `scrape` and `worker`. There is a `Client` class that records
  every GET it sends and a `ResultSender` class for the result channel. The
  methods `Scrape` and `Worker` are proved against the functions `JobOutcome`
  and `WorkerOutput`. Lemmas about those functions cover the host check,
  failure isolation, result counts and fan-in across several workers.
- `Wrappers.dfy` and `Sequences.dfy`: `Option`, `Result`, `Outcome` and one fact about sequence concatenation.

Some behaviour of the code is modelled as written, and it differs from what a
reader might expect:

- For each script, the code emits the inline matches first and the `src`
  result after them (the `.chain` at src/main.rs:118-120).
- The quantifier `*?` is lazy. A match stops at the first `js` that a run of
  class characters reaches; it is not greedy.
- Inline matches skip the `http(s)://` short-circuit. An inline match such as
  `http://cdn.example/app.js` therefore becomes
  `<scheme>://<host>/http://cdn.example/app.js`. `Extract.InlineAbsoluteRewritten`
  states this behaviour.

## Model

| member | source | states |
|---|---|---|
| `Urls.Normalize` | src/main.rs:87-97 | the result begins with the page scheme and `://` and ends with the reference; a `//` reference gains only `scheme:`; any other reference is placed after `scheme://host`, joined by exactly one `/` unless it already starts with `/`; the result has the exact length that implies; the host is needed only when the reference is not `//` |
| `Urls.NormalizeShapes` | src/main.rs:88-96 | the three rules written out: `scheme:` + ref, `scheme://host` + ref, `scheme://host/` + ref |
| `Urls.NormalizeNeverIdentity` | src/main.rs:87-97 | normalising always rewrites: the result is strictly longer than the reference |
| `Urls.NormalizeIfNeeded` | src/main.rs:79-85 | an `http://` or `https://` reference is returned unchanged; any other reference gets exactly what `Normalize` gives |
| `Urls.NormalizeIfNeededUnchangedIff` | src/main.rs:79-85 | the wrapper returns its argument unchanged if and only if the argument starts with `http://` or `https://` |
| `Urls.NormalizeIsHttpAbsolute` | src/main.rs:87-97 | on an `http` or `https` page every normalised reference starts with `http://` or `https://` |
| `Urls.NormalizeIfNeededIdempotent` | src/main.rs:79-97 | on an `http` or `https` page the wrapper's output is a fixed point of the wrapper |
| `InlineScan.LazyEnd` | src/main.rs:21 | the lazy attempt from a position gives a match end exactly when a match starts there; that match has the shortest run, and a missing match means no run from that position reaches `js` |
| `InlineScan.Scan` | src/main.rs:118 | the scanner's matches lie within the text, at or after the point where scanning resumes, and each one ends with the literal `js` |
| `InlineScan.ScanIsLeftmost` | src/main.rs:118 | the scanner's matches are lazy matches, in order and without overlap, and no match starts in any gap between them (leftmost-first, resuming after each match) |
| `InlineScan.LeftmostScanUnique` | src/main.rs:118 | every sequence of matches meeting that leftmost-first reading equals the scanner's output |
| `InlineScan.InlineMatchShape` | src/main.rs:21 | every inline match ends with `js` and all its characters before that are in `[\w./:]`, so it is non-empty; when `j` and `s` are word characters, the whole match is in the class |
| `InlineScan.InlineMatches` | src/main.rs:118 | the texts `find_iter` yields for a script (the matches of `Scan`, through `as_str`): each is no longer than the script text, is at least two characters long and ends with `js`; `ScanIsLeftmost`, `LeftmostScanUnique` and `InlineMatchShape` specify it further |
| `InlineScan.ScanOrdered` | src/main.rs:118 | consecutive matches are non-empty, do not overlap, and start at strictly increasing positions |
| `Extract.ScriptResults` | src/main.rs:117-122 | a script yields one result per inline match, in match order, through the full normaliser; after them it yields its `src` through the wrapper, when present |
| `Extract.SrcResult` | src/main.rs:120 | a script without `src` yields no attribute-derived result; one with `src` yields exactly its wrapped value |
| `Extract.DivResult` | src/main.rs:124-127 | an element yields a result if and only if it is a div with `data-script-src`, and then yields exactly one: that attribute through the wrapper |
| `Extract.ScriptsResults` | src/main.rs:117-122 | the `flat_map` over the scripts: its length is the number of inline matches over all scripts plus the number of scripts with `src`; `ScriptsResultsAppend`, `SplitAt` and `ScriptsResultsAbsolute` specify its order and contents |
| `Extract.DivsResults` | src/main.rs:124-127 | the `filter_map` over the divs: its length is the number of divs with `data-script-src`; `DivsResultsAppend`, `SplitAt` and `DivsResultsAbsolute` specify its order and contents |
| `Extract.PageResults` | src/main.rs:117-129 | the `.chain` of the two: a page yields its inline matches, plus its scripts with `src`, plus its divs with `data-script-src`; `ScriptsBeforeDivs`, `InertElement` and `PageResultsAbsolute` specify its order and contents |
| `Extract.ScriptsResultsAppend` | src/main.rs:117-122 | the script-derived results of two consecutive document parts are the first part's results followed by the second part's |
| `Extract.DivsResultsAppend` | src/main.rs:124-127 | the same for the div-derived results |
| `Extract.SplitAt` | src/main.rs:117-127 | each element's contribution sits at its own place in document order, among the scripts and among the divs |
| `Extract.ScriptsBeforeDivs` | src/main.rs:129 | for any script and any div in the page, the script's results come before the div's, even when the div comes first in the document |
| `Extract.InertElement` | src/main.rs:117-127 | removing an element that is neither a script nor a div with `data-script-src` leaves the page's results unchanged |
| `Extract.PageResultsAbsolute` | src/main.rs:117-129 | every result of a page starts with the page scheme and `://`, or is an `http(s)` reference kept as found |
| `Extract.InlineAbsoluteRewritten` | src/main.rs:118-119 | an inline match starting with `http://` still becomes `scheme://host/` followed by the match |
| `Extract.EndToEndExample` | src/main.rs:115-129 | a script with `src="/app.js"` and a div with `data-script-src="b.js"` on `https://example.com` give `https://example.com/app.js` and then `https://example.com/b.js` |
| `Pipeline.Client.Get` | src/main.rs:106-113 | a GET of the whole parsed URL (path, query and port included) is recorded in the client's request log and yields the network's answer for that very URL |
| `Pipeline.ResultSender.Send` | src/main.rs:130-132 | a send succeeds exactly while the receiving side exists; it then appends the result, and otherwise the result is dropped |
| `Pipeline.ResultSender.Disconnect` | src/main.rs:71-75 | once the receiving side is gone, every later send fails |
| `Pipeline.WorkerAfterReceiverGone` | src/main.rs:130-142 | a worker whose result channel has lost its receiver carries on through its jobs, fetching every job whose URL has a host as usual, and sends nothing: each failed send is dropped and the loop goes on |
| `Pipeline.JobOutcome` | src/main.rs:99-113 | a job succeeds exactly when its URL parses, has a host and its page is fetched, and every error names its job; `RejectedBeforeFetch`, `PagesFetchedSeparately` and `FailedJobIsolated` specify it further |
| `Pipeline.Scrape` | src/main.rs:99-135 | the outcome is that of `JobOutcome`; the request log grows by the job's whole parsed URL only when it has a host; the page extracted is the network's answer for that URL; everything the page yields is sent in order, or nothing when the job fails or the channel is gone |
| `Pipeline.Worker` | src/main.rs:137-143 | after all its jobs, the worker has sent the in-order concatenation of every job's results and issued one GET per job whose URL parses with a host |
| `Pipeline.RejectedBeforeFetch` | src/main.rs:100-104 | a job whose URL does not parse, or has no host, fails with that error, yields nothing and sends no request |
| `Pipeline.PagesFetchedSeparately` | src/main.rs:106-107 | two jobs on one host whose URLs differ elsewhere are two different GETs, and each job extracts from the network's answer for its own URL |
| `Pipeline.RequestsHaveHost` | src/main.rs:102-107 | every URL a worker fetches has a host |
| `Pipeline.WorkerOutputAppend` | src/main.rs:137-143 | a worker's output for two consecutive job runs is the output for the first followed by the output for the second |
| `Pipeline.FailedJobIsolated` | src/main.rs:137-143 | a failed job contributes nothing, and the jobs after it yield exactly what they would without it |
| `Pipeline.WorkerOutputSuccessful` | src/main.rs:137-143 | a successful job's results sit in the worker's output between those of the jobs before and after it |
| `Pipeline.UniformJobsCount` | src/main.rs:137-143 | M successful jobs of K results each produce M*K results |
| `Pipeline.WorkerOutputPermutation` | src/main.rs:137-143 | jobs handled in any order give the same results, counted with multiplicity |
| `Pipeline.FanIn` | src/main.rs:30-38 | however the jobs are shared among any number of workers, the collected results equal, with multiplicity, those of one worker running every job: none are lost and none duplicated |

## Left out

- Process setup in `main` (src/main.rs:25-77) is left out: spawning tokio tasks, the crossbeam channels, dropping senders to end the streams, reading input lines and writing output lines. This is concurrency and I/O. The fan-in guarantee is stated instead for any division of the jobs among sequential workers (`Pipeline.FanIn`), up to order.
- HTTP fetching and `src/client.rs` are left out: reqwest, timeouts and the User-Agent header. The network is the function `Client.responses` of the whole parsed URL. A URL gets the same answer whichever worker asks, and network nondeterminism is not modelled.
- URL parsing is the parameter `Env.parseUrl`, which yields a record with the URL's serialisation (`href`: scheme, authority, port, path and query), its scheme and its optional host. The normaliser reads only the scheme and the host; a fetch uses the whole record. The WHATWG parser is not modelled.
- HTML parsing is the parameter `Env.parseHtml`, which yields the elements in document order. Each element has a tag name, attributes as a map, and inner text. Malformed-HTML recovery, tag-name case and duplicate attributes belong to the parser.
- The Unicode meaning of `\w` is not modelled. The class `InlineScan.InClass` takes the parameter `isWord`, so every property about the matcher holds for any class of word characters.
- Logging (`warn!`) and `color_eyre` error wrapping are left out. An error is a `JobError` value, and a failed send returns `false` and is otherwise ignored. Every `JobError`, `FetchFailed` included, carries its job; the program's own fetch-error message (src/main.rs:110, 113) is a fixed text that names neither the job nor the URL.
- Ending the process is left out: when writing a result fails in `main` (src/main.rs:71-75), `main` returns, the runtime shuts down and the workers are cancelled at their next await. The model has no cancellation; `Pipeline.WorkerAfterReceiverGone` covers only a worker that goes on running after its receiver is gone.
- `src/cli.rs` is a list of options with defaults and does no computation.
