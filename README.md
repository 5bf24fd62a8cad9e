# A verified model of the web crawler of the `crawler-proto` workspace

The repository teaches asynchronous Rust with a series of small crawlers. Its
core is `crawl`, a depth-bounded crawler. Each wave pops up to
`worker_batch.size` work items `(url, depth)` from the end of `site_todo`.
It spawns one worker per item, then awaits the handles one at a time,
merging each worker's results into the crawl's state as it is joined.
Finally a small controller chooses the size of the next wave. Around that core sit:

- the earlier exercises' link extractors: `first_url`, a deque walk over an
  `html_parser` tree, and `first_url_in_text` / `all_urls_in_text`, loops
  over a `scraper` selection;
- the three-site race driver of `ex08`;
- the retry rule of the "absurdly concurrent" variant.

The model is written in Dafny and is split into these modules:

| module | file | what it holds |
|---|---|---|
| `Base` | base.dfy | `Option`, `Result`, `Error`, `Url`, and `Parser`, the stand-in for `Url::parse` |
| `Dom` | dom.dfy | the `html_parser` node tree, the outcome of fetching a page (`Response`), document pre-order (the deque walk), stack order (the crawler's `node_todo`), and the proof that the stack walk visits every node exactly once |
| `Links` | links.dfy | the first candidate URL and all candidate URLs, as functions on sequences |
| `Selection` | selection.dfy | `all_urls_in_text` and `first_url_in_text` as loops over a selection |
| `FirstUrl` | first_url.dfy | `first_url`, a deque walk, proved to return the first anchor URL in pre-order |
| `Races` | races.dfy | `SITES.chunks(3)` and the choice of match arm for each chunk |
| `Batching` | batch.dfy | the `Batch` controller and its size update |
| `Worker` | worker.dfy | the body of one spawned worker: a function and the imperative method it specifies |
| `Crawler` | crawler.dfy | the crawl state as a class; `Wave` (spawn, join, merge, adjust) and `Crawl` proved to terminate |
| `Retry` | retry.dfy | the GET retry loop and its stopping rule |

The program's own comment at crawler-proto/src/main.rs:90-93 describes the
batch policy differently from the code. The model follows the code, and the
following behaviours of the code are proved or exhibited:

- **Growth.** The comment says the batch doubles each wave and reverts to
  the prior count once errors appear. The code never enters `Doubling`. It
  adds one per wave and halves on overload (`Batching.NextSizeTable`,
  `Batching.GrowthAtMostOnePerWave`).
- **Local `seen`.** The worker's local `seen` holds only the worker's own
  site (crawler-proto/src/main.rs:149). Queued URLs are never added to it.
  So the check at 162-163 lets a link that appears twice on one page be
  queued twice (`Worker.SameLinkQueuedTwice`).
- **Global `seen`.** The join adds to `global_seen` only each worker's local
  `seen`, which is `[]` or `[site]` (crawler-proto/src/main.rs:149, 213-214).
  The links a worker queued are never added to it, and the spawn loop pops
  items without consulting it (116-117). So, in every schedule and across
  waves, a URL can be queued by several workers, and every copy is
  dispatched: no "never dispatched twice" property holds. A worker that runs
  after another has been merged still queues every link it would have queued
  before, other than that worker's site (`Worker.QueuedAgainAfterMerge`,
  `Worker.DuplicateAcrossWorkers`). What is proved: no item a wave queues was
  in `global_seen` when the wave began (`Crawler.TodosDeeper`).
- **Retries.** `try_get_count` is incremented before the test
  `try_get_count <= 8` (crawler-proto/src/main.rs:307, 318). A request that
  keeps failing under load is therefore sent 9 times: the first attempt and
  8 retries (`Retry.PersistentFailure`).

## Model

| member | source | states |
|---|---|---|
| Batching.Overloaded | crawler-proto/src/main.rs:234 | the shrink condition: the size is above 8 and more than a quarter of the handles ended in an error (a definition) |
| Batching.NextSize | crawler-proto/src/main.rs:233-250 | the size assigned after a wave (a definition; its rows are proved in `NextSizeTable`) |
| Batching.Batch.constructor | crawler-proto/src/main.rs:109-110 | the controller starts `Incrementing` with size 1 |
| Batching.Batch.Adjust | crawler-proto/src/main.rs:233-250 | the state is never written; the new size is `NextSize` of the old state and size: halve when the size is above 8 and `error_count * 4 > handles_len`, otherwise double when `Doubling`, add one when `Incrementing` (the in-place `+= 1` is overwritten by `new_size`), otherwise keep |
| Batching.NextSizeTable | crawler-proto/src/main.rs:233-250 | the four rows of the update; a shrink leaves a size of at least 4 and strictly below the old one |
| Batching.SizeStaysPositive | crawler-proto/src/main.rs:110-116 | from the initial size 1, no sequence of waves brings the size to 0, so the spawning loop always runs |
| Batching.ErrorFreeRamp | crawler-proto/src/main.rs:242-250 | while no wave reports an error, the size grows by exactly one per wave |
| Batching.GrowthAtMostOnePerWave | crawler-proto/src/main.rs:233-250 | in the `Incrementing` state the size never grows by more than one per wave (no doubling) |
| Dom.HrefUrl | crawler-proto/src/main.rs:159-160 | the URL a node links to: only an `a` element whose `href` is present, has a value and parses (a definition, no contract) |
| Dom.WalkForest | crawler-proto/src/main.rs:153-169 | the order in which `node_todo` pops a forest: the last node, its subtree, then the rest (a definition) |
| Dom.WalkNode | crawler-proto/src/main.rs:153-169 | a popped node followed by the walk of its children pushed on top (a definition) |
| Dom.PreOrderPopFront | ex08/src/main.rs:81-90 | popping the front of the deque and pushing the children to the front in their order leaves the pre-order of the deque unchanged |
| Dom.WalkPopBack | crawler-proto/src/main.rs:153-169 | popping the last node and extending with its children continues the stack-order walk |
| Dom.WalkForestVisitsEachNodeOnce | crawler-proto/src/main.rs:151-172 | the stack walk visits the same multiset of nodes as a pre-order traversal: every node exactly once |
| Dom.WalkForestLength | crawler-proto/src/main.rs:152-154 | the number of nodes the walk pops equals the size of the tree |
| Links.FirstSome | ex05/src/main.rs:36-54 | `None` exactly when no candidate yields a URL; otherwise the URL of a candidate all of whose predecessors yielded none |
| Links.Somes | ex09/src/main.rs:86-105 | a URL is in the result exactly when some candidate yields it; never more URLs than candidates |
| Links.SkipNone | ex10/src/main.rs:114-121 | a candidate without a URL changes neither the first URL nor the list of URLs |
| Selection.UrlOf | ex09/src/main.rs:94-101 | an element's URL: its href when present and `Url::parse` accepts it, else none (a definition) |
| Selection.AllUrlsInText | ex10/src/main.rs:106-125 | the loop returns `Ok` of the URLs of the selected elements whose href is present and parses, in selection order; never `Err` |
| Selection.AllUrlsShape | ex09/src/main.rs:86-105 | the result is no longer than the selection; it holds `u` exactly when some selected href parses to `u`; it is assembled part by part in order |
| Selection.FirstUrlInText | ex03/src/main.rs:18-36 | `Ok(Some(u))` for the first selected element whose href is present and parses, `Ok(None)` when there is none; never `Err` |
| Selection.SkippedElement | old/ex06/src/main.rs:54-72 | an element without an href, or with one that does not parse, is skipped: neither extractor's result changes |
| Selection.FirstIsFirstOfAll | ex07/src/main.rs:40-58 | `first_url_in_text` returns the head of what `all_urls_in_text` returns for the same selection, or `None` when that is empty |
| FirstUrl.FirstUrl | ex08/src/main.rs:75-115 | a failed GET, a failed decoding or a failed parse is returned as its error; otherwise `Ok` of the first anchor URL in document pre-order |
| FirstUrl.Walk | ex6/src/main.rs:34-74 | the deque walk returns the first anchor URL of the tree in document pre-order, or `None` when the tree has none |
| FirstUrl.PushFrontReversed | ex08/src/main.rs:88-90 | pushing the children to the front in reverse puts them in front of the deque in their own order |
| FirstUrl.FoundAt | ex08/src/main.rs:100-112 | the anchor at which the walk stops, after nodes that offered no URL, is the first anchor URL in pre-order |
| FirstUrl.NoUrlLeafSkipped | ex08/src/main.rs:83-96 | inserting a text node, a comment or a childless element without a valued, parseable anchor href anywhere in a forest does not change the first anchor URL |
| FirstUrl.NoneFound | ex08/src/main.rs:81-114 | a walk that visits every node without finding a URL means the tree has no anchor URL |
| Races.Chunks | ex08/src/main.rs:20 | every chunk of `chunks(n)` is non-empty and at most `n` long; all but the last are exactly `n` long |
| Races.ChunksFlatten | ex08/src/main.rs:20 | the chunks put back together are the original site list |
| Races.Get | ex08/src/main.rs:21-23 | `chunk.get(i)`: `Some` of the `i`-th element when in range, else `None` (a definition) |
| Races.ArmFor | ex08/src/main.rs:21-56 | the arm of the `match` on `(chunk.get(0), chunk.get(1), chunk.get(2))` (a definition; see `NoChunkPanics`) |
| Races.NoChunkPanics | ex08/src/main.rs:20-57 | for any site list, no chunk of three reaches the `panic!` arm; the arm chosen is the one for the chunk's length |
| Races.SitesRaces | ex08/src/main.rs:1-57 | the seven sites give a three-way race, a three-way race and a site that runs alone |
| Worker.Queues | crawler-proto/src/main.rs:159-163 | visiting a node queues a link when it is an anchor with a valued, parseable href that is neither in `global_seen` nor the site (a definition) |
| Worker.Harvest | crawler-proto/src/main.rs:153-172 | the items queued while visiting a sequence of nodes in order (a definition; see `HarvestSpec`) |
| Worker.HarvestSpec | crawler-proto/src/main.rs:153-172 | a link is queued one level deeper exactly for the visited anchors whose URL is neither in `global_seen` nor the site itself; at most one item per visited node |
| Worker.Worker | crawler-proto/src/main.rs:122-176 | the worker reports its site; `seen` is `[]` or `[site]`; at most one error, tagged with the site; at `MAX_DEPTH` it queues nothing and records the length of a fetched page; every queued item is one level deeper, not in `global_seen` and not the site |
| Worker.Fails | crawler-proto/src/main.rs:130-150 | a worker ends in an error when its GET or decoding fails, or when it parses below `MAX_DEPTH` and the parse fails (a definition) |
| Worker.WorkerOutcome | crawler-proto/src/main.rs:130-172 | a worker records an error exactly when `Fails`; below `MAX_DEPTH` an error comes exactly from a failed GET, decode or parse and then nothing is queued; on a parsed page every anchor of the tree that passes the checks is queued at depth + 1, and every queued URL comes from such an anchor |
| Worker.TreeHarvest | crawler-proto/src/main.rs:151-172 | over a whole parsed tree, the stack walk queues a link for every qualifying anchor of the tree and for nothing else |
| Worker.NoUrlLeafNotQueued | crawler-proto/src/main.rs:155-169 | inserting a text node, a comment or a childless element without a valued, parseable anchor href anywhere in a forest changes nothing the worker queues |
| Worker.HarvestIgnoresOtherSeen | crawler-proto/src/main.rs:161-165 | adding URLs other than a link's own to the snapshot of `global_seen` does not stop that link from being queued |
| Worker.QueuedAgainAfterMerge | crawler-proto/src/main.rs:149-165 | a worker run after another worker's `seen` has been merged into `global_seen` still queues everything it queued before, except that worker's site |
| Worker.DuplicateAcrossWorkers | crawler-proto/src/main.rs:149-214 | two workers whose pages link to the same URL both queue it, even when the second runs after the first has been merged |
| Worker.SameLinkQueuedTwice | crawler-proto/src/main.rs:149-166 | a page with two anchors to the same new URL queues that URL twice |
| Worker.RunWorker | crawler-proto/src/main.rs:122-176 | the imperative task body returns exactly `Worker(...)`; its node count is the size of the parsed tree when the walk runs |
| Worker.WalkTree | crawler-proto/src/main.rs:151-172 | the stack loop queues exactly `Harvest` of the stack-order walk and counts every node |
| Crawler.Seeds | crawler-proto/src/main.rs:96-98 | the seeds that parse, at depth 0, in order (a definition; see `SeedsSpec`) |
| Crawler.Dispatch | crawler-proto/src/main.rs:116-176 | one worker result per popped item, each run on that item's response and the same snapshot of `global_seen` (a definition) |
| Crawler.Todos | crawler-proto/src/main.rs:216 | the workers' queued items concatenated in the order of the popped slice, the order in which the joins merge them (a definition) |
| Crawler.Seens | crawler-proto/src/main.rs:213-214 | the workers' local `seen` concatenated, as `global_seen` is extended (a definition) |
| Crawler.Lens | crawler-proto/src/main.rs:217 | the workers' page lengths concatenated (a definition) |
| Crawler.Errs | crawler-proto/src/main.rs:218 | the workers' error records concatenated (a definition) |
| Crawler.ErrorCount | crawler-proto/src/main.rs:192-206 | the number of workers that returned at least one error (a definition; see `WaveErrors`) |
| Crawler.SeedsSpec | crawler-proto/src/main.rs:96-98 | the initial `site_todo` holds, at depth 0, exactly the seed strings that parse |
| Crawler.Crawler.constructor | crawler-proto/src/main.rs:95-110 | empty `global_seen`, `site_len` and `accum_errs`; seeds queued; batch `Incrementing` with size 1 |
| Crawler.WaveErrors | crawler-proto/src/main.rs:200-210 | since each worker records at most one error, the error count equals the number of error records added and is at most the number of handles |
| Crawler.DispatchErrors | crawler-proto/src/main.rs:116-210 | the same, for the results of one wave's workers |
| Crawler.ErrorCountIsFailures | crawler-proto/src/main.rs:130-206 | the wave's `error_count`, which drives the shrink, is the number of dispatched items whose GET, decoding or parse failed |
| Crawler.TodosDeeper | crawler-proto/src/main.rs:145-166 | every item a wave queues is missing from the wave's snapshot of `global_seen`; it also sits one level below a popped item that was not at `MAX_DEPTH` |
| Crawler.DeeperStaysBounded | crawler-proto/src/main.rs:145-165 | such a wave keeps every queued item within `MAX_DEPTH` |
| Crawler.WaveLowersMeasure | crawler-proto/src/main.rs:111-219 | replacing the popped items by items one level below them lowers the lexicographic count of queued items per depth |
| Crawler.Crawler.Spawn | crawler-proto/src/main.rs:116-180 | pops `min(size, len)` items from the end of `site_todo`; the `j`-th handle is the worker for the `j`-th item from the end, all run against the same `global_seen` |
| Crawler.Crawler.Join | crawler-proto/src/main.rs:192-219 | popping the handles from the end merges their todo, seen, lengths and errors in the original queue order, and counts the workers with errors |
| Crawler.Crawler.SpawnAndJoin | crawler-proto/src/main.rs:111-219 | the new queue is the unpopped prefix followed by the workers' todos; `global_seen`, `site_len` and `accum_errs` are extended by the workers' parts |
| Crawler.Crawler.Wave | crawler-proto/src/main.rs:111-250 | one wave: at least one and at most `size` handles; the new state as in `SpawnAndJoin`; the error count is the number of failed items and at most the handle count; the next size is `NextSize`; all queued items stay within `MAX_DEPTH` |
| Crawler.Crawler.Crawl | crawler-proto/src/main.rs:111-253 | the loop terminates with an empty `site_todo`; `global_seen`, `site_len` and `accum_errs` only grow; the controller stays `Incrementing` |
| Retry.ShouldRetry | crawler-proto/src/main.rs:318 | a failed GET is retried when `try_get_count <= 8` and at least two actors are running (a definition) |
| Retry.StopAt | crawler-proto/src/main.rs:305-338 | the attempt at which the request loop stops is between the current attempt and 9 |
| Retry.GetWithRetry | crawler-proto/src/main.rs:305-338 | the loop stops at `StopAt` and returns that attempt's outcome |
| Retry.StopAtIsFirstStop | crawler-proto/src/main.rs:307-337 | the loop stops at the first attempt that succeeds or is not retried; every earlier attempt failed with `try_get_count <= 8` and at least two actors |
| Retry.PersistentFailure | crawler-proto/src/main.rs:318 | a request that keeps failing while at least two actors run is sent 9 times before its error is kept |
| Retry.NoRetryWhenAlone | crawler-proto/src/main.rs:318-336 | with fewer than two actors, a failed first attempt is final |

## Left out

- Concurrency. The model fixes one schedule, which the code allows: every worker of a wave finishes, reading the `global_seen` of the start of the wave, before the first join. The code allows other schedules too. The join loop (crawler-proto/src/main.rs:200-219) awaits one handle at a time and extends `global_seen` (213-214) after each. Workers not yet joined may still be reading it (161-163). In such a schedule a worker can see the sites of workers merged earlier in the same wave, and then does not queue links to those sites; it still queues every other link (`Worker.QueuedAgainAfterMerge`). `Crawler.TodosDeeper` holds in every schedule, because `global_seen` only grows. The exact new `site_todo` that `Wave` states is that of the modelled schedule.
- Time (`Instant`), the per-wave summary print and the atomic counters (`ATTEMPT_COUNT`, `ERROR_COUNT` and the rest) are left out: they are observability and do not influence control flow.
- The network, `response.text()`, `Dom::parse`, `Url::parse` and `scraper`'s selection are not modelled as code. They enter as parameters: a `Response` per URL, a `Parser` function, and a sequence of href lookups.
- `reqwest::Client::builder().build()?` (crawler-proto/src/main.rs:118-120) is not modelled. Its failure would abort the crawl and depends on the TLS backend, not on the crawl's state.
- `h.await?` failing because a task panicked (crawler-proto/src/main.rs:202) is not modelled: the modelled worker body cannot panic.
- Retry.GetWithRetry: the back-off sleep, its random jitter and the wait for the actor count to halve (crawler-proto/src/main.rs:319-334) are not modelled, nor is `TrackActor`. Whether that inner loop ends depends on other tasks. The rest of the "absurdly concurrent" worker repeats `crawl`'s worker.
- Races: `tokio::select!` on the `first_url` futures is not modelled. Which site wins depends on timing; only the choice of arm per chunk is.
- Batching.Batch.Adjust: `usize` overflow of `size * 2` and `size + 1` is not modelled. `Doubling` is never entered, and the size grows by one per wave, so it stays far below `usize::MAX`.
- Crawler.Crawler.Crawl: the crawl's depth is kept as an unbounded `nat` rather than `u32`. Items never exceed `MAX_DEPTH` = 3, which `Valid` states and every wave preserves.
- Crawler.Crawler.Crawl: the answer to a GET is a function of the wave number and the URL. So two items with the same URL in one wave get the same answer; `Worker.SameLinkQueuedTwice` shows such duplicates occur. In the code they are two separate GETs that may fail differently. No proved property depends on this.
- The tuning states `Tuning` and `Stable` exist in the data model, but no code path of `crawl` enters them.
- The `old/` crawlers, except `first_url_in_text` of old/ex06/src/main.rs (modelled in `Selection`), the channel-based variants and the terminal UI of the other exercises are not part of this model.
